/**
 * Text helpers with Python's semantics: whitespace is what `str.isspace()`
 * accepts (the same class `str.strip()`, `str.split()` and the regex `\s` use),
 * `Strip` is `str.strip()`, `Split` is `str.split()` with no separator and
 * `Join` is `sep.join(tokens)`.
 */
module Strings {

  /** Python's `str.isspace()` for one character. */
  predicate IsSpace(c: char) {
    || ('\t' <= c <= '\r')
    || ('\U{1C}' <= c <= '\U{1F}')
    || c == ' ' || c == '\U{85}' || c == '\U{A0}' || c == '\U{1680}'
    || ('\U{2000}' <= c <= '\U{200A}')
    || c == '\U{2028}' || c == '\U{2029}' || c == '\U{202F}' || c == '\U{205F}' || c == '\U{3000}'
  }

  /** ASCII decimal digit (the regex `\d`, restricted to ASCII). */
  predicate IsDigit(c: char) {
    '0' <= c <= '9'
  }

  predicate AllDigits(s: string) {
    forall i :: 0 <= i < |s| ==> IsDigit(s[i])
  }

  predicate AllSpace(s: string) {
    forall i :: 0 <= i < |s| ==> IsSpace(s[i])
  }

  /** Neither end of `s` is whitespace: what `str.strip()` leaves. */
  predicate IsStripped(s: string) {
    s == [] || (!IsSpace(s[0]) && !IsSpace(s[|s| - 1]))
  }

  /** A token of `str.split()`: non-empty and free of whitespace. */
  predicate IsToken(w: string) {
    |w| > 0 && forall i :: 0 <= i < |w| ==> !IsSpace(w[i])
  }

  /** `str.lstrip()`: drops the leading whitespace and nothing else. */
  function TrimLeft(s: string): (r: string)
    ensures |r| <= |s| && r == s[|s| - |r|..]
    ensures AllSpace(s[..|s| - |r|])
    ensures r == [] || !IsSpace(r[0])
  {
    if s != [] && IsSpace(s[0]) then
      var r := TrimLeft(s[1..]);
      assert s[1..][..|s| - 1 - |r|] == s[1..|s| - |r|];
      r
    else s
  }

  /** `str.rstrip()`: drops the trailing whitespace and nothing else. */
  function TrimRight(s: string): (r: string)
    ensures |r| <= |s| && r == s[..|r|]
    ensures AllSpace(s[|r|..])
    ensures r == [] || !IsSpace(r[|r| - 1])
  {
    if s != [] && IsSpace(s[|s| - 1]) then
      var r := TrimRight(s[..|s| - 1]);
      assert s[|r|..] == s[..|s| - 1][|r|..] + [s[|s| - 1]];
      r
    else s
  }

  /**
   * `str.strip()`: whitespace removed at both ends; the result has none at
   * either end, so stripping it again changes nothing.
   */
  function Strip(s: string): (r: string)
    ensures IsStripped(r)
    ensures IsStripped(s) ==> r == s
  {
    TrimRight(TrimLeft(s))
  }

  /** `str.strip()` removes whitespace at the two ends and nothing else. */
  lemma StripKeepsMiddle(s: string)
    ensures exists i :: (0 <= i <= |s| - |Strip(s)| && Strip(s) == s[i..i + |Strip(s)|]
      && AllSpace(s[..i]) && AllSpace(s[i + |Strip(s)|..]))
  {
    Middle(s, TrimLeft(s), Strip(s));
  }

  lemma Middle(s: string, t: string, r: string)
    requires |t| <= |s| && t == s[|s| - |t|..] && AllSpace(s[..|s| - |t|])
    requires |r| <= |t| && r == t[..|r|] && AllSpace(t[|r|..])
    ensures exists i :: (0 <= i <= |s| - |r| && r == s[i..i + |r|] && AllSpace(s[..i]) && AllSpace(s[i + |r|..]))
  {
    var i := |s| - |t|;
    assert r == s[i..i + |r|] by {
      assert s[i..][..|r|] == s[i..i + |r|];
    }
    assert AllSpace(s[i + |r|..]) by {
      assert s[i + |r|..] == t[|r|..];
    }
  }

  /** `.str.replace(" ", " ")`: every non-breaking space becomes a plain space. */
  function ReplaceNbsp(s: string): (r: string)
    ensures |r| == |s|
    ensures forall i :: 0 <= i < |s| ==> r[i] == (if s[i] == '\U{A0}' then ' ' else s[i])
    ensures '\U{A0}' !in r
  {
    seq(|s|, i requires 0 <= i < |s| => if s[i] == '\U{A0}' then ' ' else s[i])
  }

  /** Length of the leading run of non-whitespace characters. */
  function WordLen(s: string): (n: nat)
    ensures n <= |s|
    ensures forall i :: 0 <= i < n ==> !IsSpace(s[i])
    ensures n == |s| || IsSpace(s[n])
  {
    if s == [] || IsSpace(s[0]) then 0 else 1 + WordLen(s[1..])
  }

  /** `str.split()`: the maximal runs of non-whitespace characters, in order. */
  function Split(s: string): (toks: seq<string>)
    ensures forall w :: w in toks ==> IsToken(w)
    decreases |s|
  {
    var t := TrimLeft(s);
    if t == [] then []
    else
      var n := WordLen(t);
      [t[..n]] + Split(t[n..])
  }

  /**
   * The whitespace runs around the tokens of `Split(s)`: the leading run,
   * then the run after each token (possibly empty at the two ends).
   */
  function Gaps(s: string): (g: seq<string>)
    decreases |s|
  {
    var t := TrimLeft(s);
    var lead := s[..|s| - |t|];
    if t == [] then [lead]
    else
      var n := WordLen(t);
      [lead] + Gaps(t[n..])
  }

  /** `g[0] + toks[0] + g[1] + ... + toks[|toks| - 1] + g[|toks|]`. */
  function Weave(g: seq<string>, toks: seq<string>): string
    requires |g| == |toks| + 1
  {
    if toks == [] then g[0] else g[0] + toks[0] + Weave(g[1..], toks[1..])
  }

  /**
   * `str.split()` cuts at whitespace and only there: the text is its tokens
   * interleaved with runs of whitespace, and the runs between two tokens are
   * non-empty, so every token is a maximal run of non-whitespace.
   */
  lemma {:induction false} SplitSeparates(s: string)
    ensures |Gaps(s)| == |Split(s)| + 1
    ensures forall i :: 0 <= i < |Gaps(s)| ==> AllSpace(Gaps(s)[i])
    ensures forall i :: 0 < i < |Split(s)| ==> Gaps(s)[i] != []
    ensures Weave(Gaps(s), Split(s)) == s
    decreases |s|
  {
    var t := TrimLeft(s);
    if t == [] {
      assert Gaps(s) == [s[..|s| - |t|]] && Split(s) == [];
    } else {
      var rest := t[WordLen(t)..];
      SplitSeparates(rest);
      GapsStep(s, rest);
      if Split(rest) != [] {
        InnerGap(rest);
      }
      SeparatedStep(s[..|s| - |t|], t[..WordLen(t)], rest, Gaps(rest), Split(rest), Gaps(s), Split(s));
    }
  }

  /** One step of `Gaps` and `Split`: the leading run, the first token, the rest. */
  lemma GapsStep(s: string, rest: string)
    requires TrimLeft(s) != [] && rest == TrimLeft(s)[WordLen(TrimLeft(s))..]
    ensures Gaps(s) == [s[..|s| - |TrimLeft(s)|]] + Gaps(rest)
    ensures Split(s) == [TrimLeft(s)[..WordLen(TrimLeft(s))]] + Split(rest)
    ensures s == s[..|s| - |TrimLeft(s)|] + TrimLeft(s)[..WordLen(TrimLeft(s))] + rest
    ensures AllSpace(s[..|s| - |TrimLeft(s)|])
    ensures rest == [] || IsSpace(rest[0])
  {
    var t := TrimLeft(s);
    var n := WordLen(t);
    Pieces(s, t, n);
  }

  lemma Pieces(s: string, t: string, n: nat)
    requires |t| <= |s| && t == s[|s| - |t|..] && n <= |t|
    ensures s == s[..|s| - |t|] + t[..n] + t[n..]
  {
    assert t == t[..n] + t[n..];
    assert s == s[..|s| - |t|] + t;
  }

  /** A text starting with whitespace has a non-empty leading run. */
  lemma LeadingGap(rest: string)
    requires rest != [] && IsSpace(rest[0])
    ensures Gaps(rest)[0] != []
  {
  }

  /** `Weave` of a leading run and a token put in front. */
  lemma WeaveCons(lead: string, w: string, g: seq<string>, toks: seq<string>)
    requires |g| == |toks| + 1
    ensures Weave([lead] + g, [w] + toks) == lead + w + Weave(g, toks)
  {
    assert ([lead] + g)[1..] == g && ([w] + toks)[1..] == toks;
  }

  /** Putting a leading run and a token in front of a separated text. */
  lemma SeparatedStep(lead: string, w: string, rest: string, gs: seq<string>, ts: seq<string>,
                      g: seq<string>, toks: seq<string>)
    requires AllSpace(lead)
    requires g == [lead] + gs && toks == [w] + ts
    requires |gs| == |ts| + 1
    requires forall i :: 0 <= i < |gs| ==> AllSpace(gs[i])
    requires forall i :: 0 < i < |ts| ==> gs[i] != []
    requires ts != [] ==> gs[0] != []
    requires Weave(gs, ts) == rest
    ensures |g| == |toks| + 1
    ensures forall i :: 0 <= i < |g| ==> AllSpace(g[i])
    ensures forall i :: 0 < i < |toks| ==> g[i] != []
    ensures Weave(g, toks) == lead + w + rest
  {
    WeaveCons(lead, w, gs, ts);
    InnerGapsStep(gs, ts, g, toks);
    AllGapsStep(lead, gs, g);
  }

  lemma InnerGapsStep(gs: seq<string>, ts: seq<string>, g: seq<string>, toks: seq<string>)
    requires |g| == |toks| + 1 && |toks| > 0 && g[1..] == gs && toks[1..] == ts && |gs| == |ts| + 1
    requires ts != [] ==> gs[0] != []
    requires forall i :: 0 < i < |ts| ==> gs[i] != []
    ensures forall i :: 0 < i < |toks| ==> g[i] != []
  {
    forall i | 0 < i < |toks|
      ensures g[i] != []
    {
      assert g[i] == gs[i - 1];
    }
  }

  lemma AllGapsStep(lead: string, rest: seq<string>, g: seq<string>)
    requires AllSpace(lead) && g == [lead] + rest
    requires forall i :: 0 <= i < |rest| ==> AllSpace(rest[i])
    ensures forall i :: 0 <= i < |g| ==> AllSpace(g[i])
  {
    forall i | 0 <= i < |g|
      ensures AllSpace(g[i])
    {
      if i > 0 {
        assert g[i] == rest[i - 1];
      }
    }
  }

  /** After a token, a text that still holds a token starts with a non-empty run. */
  lemma InnerGap(rest: string)
    requires rest == [] || IsSpace(rest[0])
    requires Split(rest) != []
    ensures Gaps(rest)[0] != []
  {
    if rest == [] {
      SplitEmpty();
    } else {
      LeadingGap(rest);
    }
  }

  /** `sep.join(toks)`. */
  function Join(toks: seq<string>, sep: string): string {
    if toks == [] then ""
    else if |toks| == 1 then toks[0]
    else toks[0] + sep + Join(toks[1..], sep)
  }

  /** The characters of `s` that are not whitespace, in order. */
  function NonSpace(s: string): string {
    if s == [] then []
    else (if IsSpace(s[0]) then [] else [s[0]]) + NonSpace(s[1..])
  }

  /** The concatenation of the tokens. */
  function Concat(toks: seq<string>): string {
    if toks == [] then [] else toks[0] + Concat(toks[1..])
  }

  lemma {:induction false} NonSpaceAppend(a: string, b: string)
    ensures NonSpace(a + b) == NonSpace(a) + NonSpace(b)
    decreases |a|
  {
    if a != [] {
      assert (a + b)[0] == a[0];
      assert (a + b)[1..] == a[1..] + b;
      NonSpaceAppend(a[1..], b);
      var h := if IsSpace(a[0]) then [] else [a[0]];
      calc {
        NonSpace(a + b);
        h + NonSpace(a[1..] + b);
        h + (NonSpace(a[1..]) + NonSpace(b));
        (h + NonSpace(a[1..])) + NonSpace(b);
      }
    } else {
      assert a + b == b;
    }
  }

  lemma {:induction false} NonSpaceOfSpaces(s: string)
    requires AllSpace(s)
    ensures NonSpace(s) == []
    decreases |s|
  {
    if s != [] {
      NonSpaceOfSpaces(s[1..]);
    }
  }

  lemma {:induction false} NonSpaceOfToken(w: string)
    requires forall i :: 0 <= i < |w| ==> !IsSpace(w[i])
    ensures NonSpace(w) == w
    decreases |w|
  {
    if w != [] {
      NonSpaceOfToken(w[1..]);
    }
  }

  lemma NonSpaceTrimLeft(s: string)
    ensures NonSpace(TrimLeft(s)) == NonSpace(s)
  {
    var t := TrimLeft(s);
    var lead := s[..|s| - |t|];
    assert s == lead + t;
    NonSpaceAppend(lead, t);
    NonSpaceOfSpaces(lead);
  }

  lemma NonSpaceWord(t: string, n: nat)
    requires n <= |t| && forall i :: 0 <= i < n ==> !IsSpace(t[i])
    ensures NonSpace(t) == t[..n] + NonSpace(t[n..])
  {
    assert t == t[..n] + t[n..];
    NonSpaceAppend(t[..n], t[n..]);
    NonSpaceOfToken(t[..n]);
  }

  /**
   * `str.split()` loses only whitespace: gluing the tokens back together gives
   * exactly the non-whitespace characters of the input, in order.
   */
  lemma {:induction false} SplitKeepsText(s: string)
    ensures Concat(Split(s)) == NonSpace(s)
    decreases |s|
  {
    var t := TrimLeft(s);
    NonSpaceTrimLeft(s);
    if t == [] {
      assert Split(s) == [];
    } else {
      var n := WordLen(t);
      var w, rest := t[..n], t[n..];
      assert Split(s) == [w] + Split(rest);
      NonSpaceWord(t, n);
      SplitKeepsText(rest);
      assert Concat([w] + Split(rest)) == w + Concat(Split(rest));
    }
  }

  lemma SplitEmpty()
    ensures Split("") == []
  {
    assert TrimLeft("") == "";
  }

  lemma {:induction false} SplitLeadingSpace(x: string)
    ensures Split(" " + x) == Split(x)
  {
    assert TrimLeft(" " + x) == TrimLeft((" " + x)[1..]);
    assert (" " + x)[1..] == x;
  }

  lemma {:induction false} SplitAfterToken(w: string, rest: string)
    requires IsToken(w)
    requires rest == [] || IsSpace(rest[0])
    ensures Split(w + rest) == [w] + Split(rest)
  {
    var s := w + rest;
    assert TrimLeft(s) == s;
    WordLenOfToken(w, rest);
    assert s[..|w|] == w;
    assert s[|w|..] == rest;
  }

  lemma {:induction false} WordLenOfToken(w: string, rest: string)
    requires forall i :: 0 <= i < |w| ==> !IsSpace(w[i])
    requires rest == [] || IsSpace(rest[0])
    ensures WordLen(w + rest) == |w|
    decreases |w|
  {
    if w != [] {
      assert (w + rest)[1..] == w[1..] + rest;
      WordLenOfToken(w[1..], rest);
    } else {
      assert w + rest == rest;
    }
  }

  /** A single token splits to itself. */
  lemma SplitToken(w: string)
    requires IsToken(w)
    ensures Split(w) == [w]
  {
    SplitEmpty();
    SplitAfterToken(w, "");
    assert w + "" == w;
  }

  lemma SplitJoinNil(toks: seq<string>)
    requires toks == []
    ensures Split(Join(toks, " ")) == toks
  {
    assert Join(toks, " ") == "";
    SplitEmpty();
  }

  lemma SplitJoinSingle(toks: seq<string>)
    requires |toks| == 1 && IsToken(toks[0])
    ensures Split(Join(toks, " ")) == toks
  {
    assert Join(toks, " ") == toks[0];
    SplitToken(toks[0]);
    assert toks == [toks[0]];
  }

  lemma {:induction false} SplitJoinStep(w: string, rest: string)
    requires IsToken(w)
    ensures Split(w + " " + rest) == [w] + Split(rest)
  {
    assert w + " " + rest == w + (" " + rest);
    SplitAfterToken(w, " " + rest);
    SplitLeadingSpace(rest);
  }

  lemma HeadTail<T>(s: seq<T>)
    requires |s| > 0
    ensures s == [s[0]] + s[1..]
  {
  }

  lemma SplitJoinCons(toks: seq<string>)
    requires |toks| >= 2 && IsToken(toks[0])
    requires Split(Join(toks[1..], " ")) == toks[1..]
    ensures Split(Join(toks, " ")) == toks
  {
    assert Join(toks, " ") == toks[0] + " " + Join(toks[1..], " ");
    SplitJoinStep(toks[0], Join(toks[1..], " "));
    HeadTail(toks);
  }

  /**
   * `str.split()` undoes `" ".join(...)` of proper tokens: the splitter and
   * the single-space joiner are inverse on token lists.
   */
  lemma {:induction false} SplitJoinRoundTrip(toks: seq<string>)
    requires forall i :: 0 <= i < |toks| ==> IsToken(toks[i])
    ensures Split(Join(toks, " ")) == toks
    decreases |toks|
  {
    if |toks| == 0 {
      SplitJoinNil(toks);
    } else if |toks| == 1 {
      SplitJoinSingle(toks);
    } else {
      var w, rest := toks[0], toks[1..];
      forall i | 0 <= i < |rest|
        ensures IsToken(rest[i])
      {
        assert rest[i] == toks[i + 1];
      }
      SplitJoinRoundTrip(rest);
      SplitJoinCons(toks);
    }
  }
}
