/**
 * Row classification and forward fill (app.py lines 91-118): the account
 * text is normalised, rows whose text is a group marker
 * (`G` + three digits, an optional `_suffix`, a colon, a label) give their
 * code and label to the rows that follow them, and marker rows and rows
 * without an account are then dropped.
 */
module Groups {
  import opened Wrappers
  import opened Strings
  import opened Cells
  import opened Frames

  /** What a group-marker row captures: its Budget_Code and its Budget_Type. */
  datatype Capture = Capture(code: string, name: string)

  /**
   * Lines 92-96: the account cell as text, with non-breaking spaces made
   * plain and the ends stripped; an empty cell stays NA.
   */
  function NormaliseAccount(c: Cell): (r: Option<string>)
    ensures r.None? <==> c.Missing?
    ensures r.Some? ==> IsStripped(r.value) && '\U{A0}' !in r.value
    ensures r.Some? ==> r.value == Strip(ReplaceNbsp(Render(c)))
  {
    if c.Missing? then None else Some(Strip(ReplaceNbsp(Render(c))))
  }

  /** The end of the run of characters from `i` on that are neither ':' nor whitespace. */
  function SuffixEnd(s: string, i: nat): (j: nat)
    requires i <= |s|
    ensures i <= j <= |s|
    ensures forall k :: i <= k < j ==> s[k] != ':' && !IsSpace(s[k])
    ensures j == |s| || s[j] == ':' || IsSpace(s[j])
    decreases |s| - i
  {
    if i == |s| || s[i] == ':' || IsSpace(s[i]) then i else SuffixEnd(s, i + 1)
  }

  /** The end of the run of whitespace from `i` on. */
  function SpaceEnd(s: string, i: nat): (j: nat)
    requires i <= |s|
    ensures i <= j <= |s|
    ensures forall k :: i <= k < j ==> IsSpace(s[k])
    ensures j == |s| || !IsSpace(s[j])
    decreases |s| - i
  {
    if i == |s| || !IsSpace(s[i]) then i else SpaceEnd(s, i + 1)
  }

  /** `G` followed by three digits: the part of a marker code both modes keep. */
  predicate IsGroupCode(s: string) {
    |s| == 4 && s[0] == 'G' && AllDigits(s[1..])
  }

  /** The optional `_suffix` of a marker: empty, or `_` and characters that are neither ':' nor whitespace. */
  predicate IsSuffix(s: string) {
    s == [] || (|s| >= 2 && s[0] == '_' && forall i :: 1 <= i < |s| ==> s[i] != ':' && !IsSpace(s[i]))
  }

  /** A marker label as it stands in stripped text: non-empty, no line break, no whitespace at either end. */
  predicate IsLabel(s: string) {
    s != [] && !IsSpace(s[0]) && !IsSpace(s[|s| - 1]) && '\n' !in s
  }

  /**
   * The group-marker pattern `^(G\d{3})(_[^:\s]+)?\s*:\s*(.+)$` of lines
   * 106/108, on stripped text (the only text it is applied to). With
   * `keepSuffix` the code includes the suffix; without it the code is
   * `G` and the three digits. The label is what follows the colon and
   * the whitespace after it.
   */
  function MatchMarker(s: string, keepSuffix: bool): (r: Option<Capture>)
    requires IsStripped(s)
    ensures r.Some? ==> |s| >= 4 && IsGroupCode(s[..4])
    ensures r.Some? ==> 4 <= |r.value.code| <= |s| && r.value.code == s[..|r.value.code|]
    ensures r.Some? ==> IsSuffix(r.value.code[4..]) && (!keepSuffix ==> |r.value.code| == 4)
    ensures r.Some? ==> IsLabel(r.value.name) && |r.value.name| <= |s| && r.value.name == s[|s| - |r.value.name|..]
  {
    if |s| < 4 || !IsGroupCode(s[..4]) then None
    else
      var hasSuffix := |s| > 4 && s[4] == '_';
      var j := if hasSuffix then SuffixEnd(s, 5) else 4;
      if hasSuffix && j == 5 then None
      else
        var k := SpaceEnd(s, j);
        if k == |s| || s[k] != ':' then None
        else
          var t := SpaceEnd(s, k + 1);
          var lbl := s[t..];
          if lbl == [] || '\n' in lbl then None
          else
            assert s[..j][4..] == s[4..j];
            Some(Capture(if keepSuffix then s[..j] else s[..4], lbl))
  }

  /** A marker text assembled from its parts. */
  function MarkerText(digits: string, suffix: string, ws1: string, ws2: string, lbl: string): string {
    "G" + digits + suffix + ws1 + ":" + ws2 + lbl
  }

  /** The parts of a marker as the pattern describes them. */
  predicate IsMarkerShape(digits: string, suffix: string, ws1: string, ws2: string, lbl: string) {
    |digits| == 3 && AllDigits(digits) && IsSuffix(suffix) && AllSpace(ws1) && AllSpace(ws2) && IsLabel(lbl)
  }

  /**
   * Every text of the marker shape is recognised, with the code (including
   * the suffix or not, by mode) and the label it was built from.
   */
  lemma MarkerRoundTrip(digits: string, suffix: string, ws1: string, ws2: string, lbl: string, keepSuffix: bool)
    requires IsMarkerShape(digits, suffix, ws1, ws2, lbl)
    ensures IsStripped(MarkerText(digits, suffix, ws1, ws2, lbl))
    ensures MatchMarker(MarkerText(digits, suffix, ws1, ws2, lbl), keepSuffix)
         == Some(Capture(if keepSuffix then "G" + digits + suffix else "G" + digits, lbl))
  {
    var s := MarkerText(digits, suffix, ws1, ws2, lbl);
    var j := 4 + |suffix|;
    var k := j + |ws1|;
    var t := k + 1 + |ws2|;
    MarkerLayout(digits, suffix, ws1, ws2, lbl);
    if suffix != [] {
      SuffixEndIs(s, 5, j);
    }
    SpaceEndIs(s, j, k);
    SpaceEndIs(s, k + 1, t);
    MatchAt(s, j, k, t, keepSuffix);
  }

  /**
   * The example of lines 100-104: "G501_1 : something" has code G501_1 when
   * the suffix is kept and G501 when it is not, and the same label in both.
   */
  lemma SuffixModeExample()
    ensures MatchMarker("G501_1 : something", true) == Some(Capture("G501_1", "something"))
    ensures MatchMarker("G501_1 : something", false) == Some(Capture("G501", "something"))
  {
    var lbl := "something";
    assert IsMarkerShape("501", "_1", " ", " ", lbl) by {
      assert "_1"[0] == '_' && "_1"[1] == '1';
      assert lbl[0] == 's' && lbl[|lbl| - 1] == 'g';
    }
    assert MarkerText("501", "_1", " ", " ", lbl) == "G501_1 : something";
    assert "G" + "501" + "_1" == "G501_1" && "G" + "501" == "G501";
    MarkerRoundTrip("501", "_1", " ", " ", lbl, true);
    MarkerRoundTrip("501", "_1", " ", " ", lbl, false);
  }

  /** Where the parts of an assembled marker text lie. */
  lemma MarkerLayout(digits: string, suffix: string, ws1: string, ws2: string, lbl: string)
    requires IsMarkerShape(digits, suffix, ws1, ws2, lbl)
    ensures var s := MarkerText(digits, suffix, ws1, ws2, lbl);
      var j := 4 + |suffix|;
      var k := j + |ws1|;
      var t := k + 1 + |ws2|;
      && |s| == t + |lbl|
      && IsStripped(s)
      && IsGroupCode(s[..4]) && s[..4] == "G" + digits
      && s[..j] == "G" + digits + suffix
      && (suffix != [] ==> s[4] == '_' && j > 5 && forall i :: 5 <= i < j ==> s[i] != ':' && !IsSpace(s[i]))
      && (suffix != [] ==> s[j] == ':' || IsSpace(s[j]))
      && (suffix == [] ==> s[4] != '_')
      && (forall i :: j <= i < k ==> IsSpace(s[i]))
      && s[k] == ':' && !IsSpace(s[k])
      && (forall i :: k + 1 <= i < t ==> IsSpace(s[i]))
      && s[t..] == lbl
  {
    var s := MarkerText(digits, suffix, ws1, ws2, lbl);
    var j := 4 + |suffix|;
    var k := j + |ws1|;
    var t := k + 1 + |ws2|;
    assert s == "G" + digits + suffix + ws1 + ":" + ws2 + lbl;
    assert s[..4] == "G" + digits;
    assert s[4..j] == suffix;
    assert s[j..k] == ws1;
    assert s[k + 1..t] == ws2;
    assert s[t..] == lbl;
    assert s[|s| - 1] == lbl[|lbl| - 1];
    assert s[..j] == "G" + digits + suffix;
    if suffix == [] {
      assert s[4] == if ws1 == [] then ':' else ws1[0];
    }
  }

  /** The recogniser on stripped text whose parts end at `j`, `k` and `t`. */
  lemma MatchAt(s: string, j: nat, k: nat, t: nat, keepSuffix: bool)
    requires IsStripped(s) && 4 <= j <= k < t <= |s| && IsGroupCode(s[..4])
    requires j == 4 ==> |s| == 4 || s[4] != '_'
    requires j > 4 ==> s[4] == '_' && j > 5 && SuffixEnd(s, 5) == j
    requires SpaceEnd(s, j) == k && s[k] == ':' && SpaceEnd(s, k + 1) == t
    requires s[t..] != [] && '\n' !in s[t..]
    ensures MatchMarker(s, keepSuffix) == Some(Capture(if keepSuffix then s[..j] else s[..4], s[t..]))
  {
    var hasSuffix := |s| > 4 && s[4] == '_';
    assert hasSuffix <==> j > 4;
    assert j == if hasSuffix then SuffixEnd(s, 5) else 4;
  }

  lemma SuffixEndIs(s: string, i: nat, j: nat)
    requires i <= j <= |s|
    requires forall k :: i <= k < j ==> s[k] != ':' && !IsSpace(s[k])
    requires j == |s| || s[j] == ':' || IsSpace(s[j])
    ensures SuffixEnd(s, i) == j
  {
  }

  lemma SpaceEndIs(s: string, i: nat, j: nat)
    requires i <= j <= |s|
    requires forall k :: i <= k < j ==> IsSpace(s[k])
    requires j == |s| || !IsSpace(s[j])
    ensures SpaceEnd(s, i) == j
  {
  }

  /**
   * Every recognised text has the marker shape: the recogniser accepts
   * nothing the pattern does not describe.
   */
  lemma MarkerParts(s: string, keepSuffix: bool) returns (digits: string, suffix: string, ws1: string, ws2: string, lbl: string)
    requires IsStripped(s) && MatchMarker(s, keepSuffix).Some?
    ensures IsMarkerShape(digits, suffix, ws1, ws2, lbl)
    ensures s == MarkerText(digits, suffix, ws1, ws2, lbl)
    ensures MatchMarker(s, keepSuffix).value == Capture(if keepSuffix then "G" + digits + suffix else "G" + digits, lbl)
  {
    var j, k, t := MarkerPositions(s, keepSuffix);
    digits, suffix, ws1, ws2, lbl := s[1..4], s[4..j], s[j..k], s[k + 1..t], s[t..];
    PartsHaveShape(s, j, k, t);
  }

  /** The pieces between the positions of a recognised marker have the marker shape. */
  lemma PartsHaveShape(s: string, j: nat, k: nat, t: nat)
    requires IsStripped(s)
    requires 4 <= j <= k < |s| && s[k] == ':' && k + 1 <= t < |s|
    requires IsGroupCode(s[..4])
    requires j == 4 || (j > 5 && s[4] == '_' && forall i :: 5 <= i < j ==> s[i] != ':' && !IsSpace(s[i]))
    requires forall i :: j <= i < k ==> IsSpace(s[i])
    requires forall i :: k + 1 <= i < t ==> IsSpace(s[i])
    requires !IsSpace(s[t]) && '\n' !in s[t..]
    ensures IsMarkerShape(s[1..4], s[4..j], s[j..k], s[k + 1..t], s[t..])
    ensures s == MarkerText(s[1..4], s[4..j], s[j..k], s[k + 1..t], s[t..])
    ensures s[..4] == "G" + s[1..4] && s[..j] == "G" + s[1..4] + s[4..j]
  {
    var digits, suffix, ws1, ws2, lbl := s[1..4], s[4..j], s[j..k], s[k + 1..t], s[t..];
    assert s[..4] == "G" + digits;
    assert s[..4] + s[4..j] == s[..j];
    assert s[..j] + s[j..k] == s[..k];
    assert s[..k] + [s[k]] == s[..k + 1];
    assert s[..k + 1] + s[k + 1..t] == s[..t];
    assert s[..t] + s[t..] == s;
    assert AllDigits(digits) by {
      assert forall i :: 0 <= i < 3 ==> digits[i] == s[..4][1..][i];
    }
    assert IsSuffix(suffix) by {
      if j != 4 {
        assert suffix[0] == '_';
        assert forall i :: 1 <= i < |suffix| ==> suffix[i] == s[4 + i];
      }
    }
    assert AllSpace(ws1) by {
      forall i | 0 <= i < |ws1| ensures IsSpace(ws1[i]) {
        assert ws1[i] == s[j + i];
      }
    }
    assert AllSpace(ws2) by {
      forall i | 0 <= i < |ws2| ensures IsSpace(ws2[i]) {
        assert ws2[i] == s[k + 1 + i];
      }
    }
    assert IsLabel(lbl) by {
      assert t < |s| && lbl[0] == s[t];
      assert lbl[|lbl| - 1] == s[|s| - 1];
    }
  }

  /** Where the parts of a recognised marker begin and end. */
  lemma MarkerPositions(s: string, keepSuffix: bool) returns (j: nat, k: nat, t: nat)
    requires IsStripped(s) && MatchMarker(s, keepSuffix).Some?
    ensures 4 <= j <= k < |s| && s[k] == ':' && k + 1 <= t < |s|
    ensures IsGroupCode(s[..4])
    ensures j == 4 || (j > 5 && s[4] == '_' && forall i :: 5 <= i < j ==> s[i] != ':' && !IsSpace(s[i]))
    ensures forall i :: j <= i < k ==> IsSpace(s[i])
    ensures forall i :: k + 1 <= i < t ==> IsSpace(s[i])
    ensures !IsSpace(s[t]) && '\n' !in s[t..]
    ensures MatchMarker(s, keepSuffix).value == Capture(if keepSuffix then s[..j] else s[..4], s[t..])
  {
    var hasSuffix := |s| > 4 && s[4] == '_';
    j := if hasSuffix then SuffixEnd(s, 5) else 4;
    k := SpaceEnd(s, j);
    t := SpaceEnd(s, k + 1);
  }

  /**
   * The two modes (lines 105-108) recognise the same rows and capture the same
   * label; the code without the suffix is the first four characters of the
   * code with it.
   */
  lemma MarkerModesAgree(s: string)
    requires IsStripped(s)
    ensures MatchMarker(s, true).Some? <==> MatchMarker(s, false).Some?
    ensures MatchMarker(s, true).Some? ==>
      && MatchMarker(s, true).value.name == MatchMarker(s, false).value.name
      && MatchMarker(s, false).value.code == MatchMarker(s, true).value.code[..4]
  {
  }

  /** The capture of one account cell: its normalised text's marker match, if any. */
  function MarkerOf(c: Cell, keepSuffix: bool): Option<Capture> {
    match NormaliseAccount(c)
    case None => None
    case Some(s) => MatchMarker(s, keepSuffix)
  }

  /** `m[0]`/`m[1]` of line 110 for every row. */
  function Captures(acc: seq<Cell>, keepSuffix: bool): (r: seq<Option<Capture>>)
    ensures |r| == |acc| && forall i :: 0 <= i < |acc| ==> r[i] == MarkerOf(acc[i], keepSuffix)
  {
    seq(|acc|, i requires 0 <= i < |acc| => MarkerOf(acc[i], keepSuffix))
  }

  /**
   * Lines 113-114, `where(is_group).ffill()` on the two captures: the
   * capture of row `i` if it is a marker, else that of the row before.
   */
  function FilledAt(caps: seq<Option<Capture>>, i: nat): Option<Capture>
    requires i < |caps|
  {
    if caps[i].Some? then caps[i]
    else if i == 0 then None
    else FilledAt(caps, i - 1)
  }

  /**
   * The forward fill gives each row the capture of the nearest marker at or
   * before it, and nothing when no marker precedes it.
   */
  lemma {:induction false} FilledAtIsNearestMarker(caps: seq<Option<Capture>>, i: nat)
    requires i < |caps|
    ensures FilledAt(caps, i).None? <==> forall j :: 0 <= j <= i ==> caps[j].None?
    ensures FilledAt(caps, i).Some? ==>
      exists j :: 0 <= j <= i && caps[j] == FilledAt(caps, i) && forall k :: j < k <= i ==> caps[k].None?
  {
    if caps[i].None? && i > 0 {
      FilledAtIsNearestMarker(caps, i - 1);
    }
  }

  /**
   * The forward fill as the left-to-right loop it is: one pass carrying the
   * last capture seen.
   */
  method ForwardFill(caps: seq<Option<Capture>>) returns (filled: seq<Option<Capture>>)
    ensures |filled| == |caps|
    ensures forall i :: 0 <= i < |caps| ==> filled[i] == FilledAt(caps, i)
  {
    filled := [];
    var last: Option<Capture> := None;
    var i := 0;
    while i < |caps|
      invariant 0 <= i <= |caps| && |filled| == i
      invariant forall j :: 0 <= j < i ==> filled[j] == FilledAt(caps, j)
      invariant last == if i == 0 then None else FilledAt(caps, i - 1)
    {
      if caps[i].Some? {
        last := caps[i];
      }
      filled := filled + [last];
      i := i + 1;
    }
  }

  function CodeCell(o: Option<Capture>): Cell {
    match o
    case None => Missing
    case Some(cap) => Text(cap.code)
  }

  function TypeCell(o: Option<Capture>): Cell {
    match o
    case None => Missing
    case Some(cap) => Text(cap.name)
  }

  /** A row survives the drop of line 118: it has an account and it is not a marker. */
  predicate Survives(c: Cell, keepSuffix: bool) {
    NormaliseAccount(c).Some? && MarkerOf(c, keepSuffix).None?
  }

  /** Line 117: the normalised account, blanked on marker rows. */
  function BlankedAccount(c: Cell, keepSuffix: bool): (r: Cell)
    ensures r != Missing <==> Survives(c, keepSuffix)
  {
    if Survives(c, keepSuffix) then Text(NormaliseAccount(c).value) else Missing
  }

  function SurvivorMask(acc: seq<Cell>, keepSuffix: bool): (m: seq<bool>)
    ensures |m| == |acc| && forall i :: 0 <= i < |acc| ==> m[i] == Survives(acc[i], keepSuffix)
  {
    seq(|acc|, i requires 0 <= i < |acc| => Survives(acc[i], keepSuffix))
  }

  /** The forward-filled captures of every row. */
  function FilledColumn(caps: seq<Option<Capture>>): (r: seq<Option<Capture>>)
    ensures |r| == |caps| && forall i :: 0 <= i < |caps| ==> r[i] == FilledAt(caps, i)
  {
    seq(|caps|, i requires 0 <= i < |caps| => FilledAt(caps, i))
  }

  function CodeColumn(filled: seq<Option<Capture>>): (r: seq<Cell>)
    ensures |r| == |filled| && forall i :: 0 <= i < |filled| ==> r[i] == CodeCell(filled[i])
  {
    seq(|filled|, i requires 0 <= i < |filled| => CodeCell(filled[i]))
  }

  function TypeColumn(filled: seq<Option<Capture>>): (r: seq<Cell>)
    ensures |r| == |filled| && forall i :: 0 <= i < |filled| ==> r[i] == TypeCell(filled[i])
  {
    seq(|filled|, i requires 0 <= i < |filled| => TypeCell(filled[i]))
  }

  function BlankedColumn(acc: seq<Cell>, keepSuffix: bool): (r: seq<Cell>)
    ensures |r| == |acc| && forall i :: 0 <= i < |acc| ==> r[i] == BlankedAccount(acc[i], keepSuffix)
  {
    seq(|acc|, i requires 0 <= i < |acc| => BlankedAccount(acc[i], keepSuffix))
  }

  /** The `notna()` mask of line 118 on the blanked account column. */
  function NotMissing(vals: seq<Cell>): (m: seq<bool>)
    ensures |m| == |vals| && forall i :: 0 <= i < |vals| ==> m[i] == (vals[i] != Missing)
  {
    seq(|vals|, i requires 0 <= i < |vals| => vals[i] != Missing)
  }

  /**
   * Lines 113-117 given the filled captures: Budget_Code and Budget_Type are
   * set from the captures and the account column is blanked on marker rows;
   * every other column is as it was.
   */
  function Regrouped(f: Frame, acc: seq<Cell>, keepSuffix: bool, filled: seq<Option<Capture>>): (r: Frame)
    requires WellFormed(f) && |acc| == f.height && |filled| == f.height
    ensures WellFormed(r) && r.height == f.height
    ensures forall m :: m in Names(r) <==>
      m in Names(f) || m == "Budget_Code" || m == "Budget_Type" || m == "Budget_Account"
    ensures Lookup(r, "Budget_Code") == Some(CodeColumn(filled))
    ensures Lookup(r, "Budget_Type") == Some(TypeColumn(filled))
    ensures Lookup(r, "Budget_Account") == Some(BlankedColumn(acc, keepSuffix))
    ensures forall m :: m != "Budget_Code" && m != "Budget_Type" && m != "Budget_Account" ==>
      Lookup(r, m) == Lookup(f, m)
  {
    GroupNamesDistinct();
    SetThree(f, "Budget_Code", CodeColumn(filled), "Budget_Type", TypeColumn(filled),
      "Budget_Account", BlankedColumn(acc, keepSuffix));
    var f1 := SetColumn(f, "Budget_Code", CodeColumn(filled));
    var f2 := SetColumn(f1, "Budget_Type", TypeColumn(filled));
    SetColumn(f2, "Budget_Account", BlankedColumn(acc, keepSuffix))
  }

  lemma GroupNamesDistinct()
    ensures "Budget_Code" != "Budget_Type" && "Budget_Code" != "Budget_Account" && "Budget_Type" != "Budget_Account"
  {
    assert "Budget_Code"[7] != "Budget_Type"[7] && "Budget_Code"[7] != "Budget_Account"[7];
    assert "Budget_Type"[7] != "Budget_Account"[7];
  }

  /** Three assignments of distinct columns: each lands, the rest stay. */
  lemma SetThree(f: Frame, a: string, va: seq<Cell>, b: string, vb: seq<Cell>, c: string, vc: seq<Cell>)
    requires WellFormed(f) && |va| == f.height && |vb| == f.height && |vc| == f.height
    requires a != b && a != c && b != c
    ensures var r := SetColumn(SetColumn(SetColumn(f, a, va), b, vb), c, vc);
      && (forall m :: m in Names(r) <==> m in Names(f) || m == a || m == b || m == c)
      && Lookup(r, a) == Some(va) && Lookup(r, b) == Some(vb) && Lookup(r, c) == Some(vc)
      && (forall m :: m != a && m != b && m != c ==> Lookup(r, m) == Lookup(f, m))
  {
    var f1 := SetColumn(f, a, va);
    var f2 := SetColumn(f1, b, vb);
    SetTwoNames(f, f1, f2, a, b);
    var r := SetColumn(f2, c, vc);
    assert Lookup(f2, a) == Some(va);
    assert Lookup(r, a) == Some(va);
    assert Lookup(r, b) == Some(vb);
    forall m | m != a && m != b && m != c
      ensures Lookup(r, m) == Lookup(f, m)
    {
      assert Lookup(r, m) == Lookup(f2, m);
      assert Lookup(f2, m) == Lookup(f1, m);
    }
  }

  /** Two column assignments in a row add at most their two names. */
  lemma SetTwoNames(f: Frame, f1: Frame, f2: Frame, a: string, b: string)
    requires Names(f1) == if a in Names(f) then Names(f) else Names(f) + [a]
    requires Names(f2) == if b in Names(f1) then Names(f1) else Names(f1) + [b]
    ensures forall m :: m in Names(f2) <==> m in Names(f) || m == a || m == b
  {
  }

  /**
   * Lines 113-118 given the filled captures: regroup, then keep the rows whose
   * account is still present.
   */
  function ApplyGroups(f: Frame, acc: seq<Cell>, keepSuffix: bool, filled: seq<Option<Capture>>): (r: Frame)
    requires WellFormed(f) && |acc| == f.height && |filled| == f.height
    ensures WellFormed(r)
  {
    DropRows(Regrouped(f, acc, keepSuffix, filled), NotMissing(BlankedColumn(acc, keepSuffix)))
  }

  lemma SurvivorMaskIsNotMissing(acc: seq<Cell>, keepSuffix: bool)
    ensures NotMissing(BlankedColumn(acc, keepSuffix)) == SurvivorMask(acc, keepSuffix)
  {
  }

  /**
   * What the grouping leaves: the rows that survive, in their order, each
   * with the code and type of its group and its normalised account; the
   * other columns are those rows of the input, and no column is lost.
   */
  lemma ApplyGroupsSpec(f: Frame, acc: seq<Cell>, keepSuffix: bool, filled: seq<Option<Capture>>)
    requires WellFormed(f) && |acc| == f.height && |filled| == f.height
    ensures ApplyGroups(f, acc, keepSuffix, filled).height == |Kept(SurvivorMask(acc, keepSuffix))|
    ensures forall m :: m in Names(ApplyGroups(f, acc, keepSuffix, filled)) <==>
      m in Names(f) || m == "Budget_Code" || m == "Budget_Type" || m == "Budget_Account"
    ensures forall k :: 0 <= k < |Kept(SurvivorMask(acc, keepSuffix))| ==>
      var r := ApplyGroups(f, acc, keepSuffix, filled);
      var j := Kept(SurvivorMask(acc, keepSuffix))[k];
      && Lookup(r, "Budget_Code").value[k] == CodeCell(filled[j])
      && Lookup(r, "Budget_Type").value[k] == TypeCell(filled[j])
      && Lookup(r, "Budget_Account").value[k] == Text(NormaliseAccount(acc[j]).value)
    ensures forall m :: m != "Budget_Code" && m != "Budget_Type" && m != "Budget_Account" ==>
      Lookup(ApplyGroups(f, acc, keepSuffix, filled), m) ==
        if Lookup(f, m).Some? then Some(Select(Lookup(f, m).value, Kept(SurvivorMask(acc, keepSuffix)))) else None
  {
    var g := Regrouped(f, acc, keepSuffix, filled);
    var idx := Kept(SurvivorMask(acc, keepSuffix));
    SurvivorMaskIsNotMissing(acc, keepSuffix);
    var r := DropRows(g, SurvivorMask(acc, keepSuffix));
    assert r == ApplyGroups(f, acc, keepSuffix, filled);
    forall k | 0 <= k < |idx|
      ensures Lookup(r, "Budget_Account").value[k] == Text(NormaliseAccount(acc[idx[k]]).value)
    {
      assert Survives(acc[idx[k]], keepSuffix);
    }
  }

  /**
   * Lines 91-118: classify the rows of a table that has a Budget_Account
   * column, forward-fill the group captures and drop marker rows and rows
   * without an account.
   */
  function Classify(f: Frame, keepSuffix: bool): (r: Frame)
    requires WellFormed(f) && Lookup(f, "Budget_Account").Some?
    ensures WellFormed(r) && Lookup(r, "Budget_Account").Some?
  {
    var acc := Lookup(f, "Budget_Account").value;
    ApplyGroupsSpec(f, acc, keepSuffix, FilledColumn(Captures(acc, keepSuffix)));
    ApplyGroups(f, acc, keepSuffix, FilledColumn(Captures(acc, keepSuffix)))
  }
}
