/**
 * Year extraction (app.py `extract_year_from_value` and `extract_year`):
 * a cell yields "" or a four-digit year; the sheet's year comes from the
 * probe cell (5, 0) or, failing that, from the first cell of the top-left
 * 25 x 6 region, scanned row by row, that yields one.
 */
module Years {
  import opened Wrappers
  import opened Strings
  import opened Cells

  function DigitValue(c: char): int {
    c as int - '0' as int
  }

  /** The number a four-character digit string denotes. */
  function Value4(s: string): int
    requires |s| == 4
  {
    1000 * DigitValue(s[0]) + 100 * DigitValue(s[1]) + 10 * DigitValue(s[2]) + DigitValue(s[3])
  }

  /** What a successful extraction returns: four digits naming a year in [1900, 2100]. */
  predicate IsYearToken(s: string) {
    |s| == 4 && AllDigits(s) && 1900 <= Value4(s) <= 2100
  }

  function DigitChar(d: int): char
    requires 0 <= d <= 9
  {
    ('0' as int + d) as char
  }

  /** `str(y)` for a year of four digits. */
  function ShowYear(y: int): (r: string)
    requires 1000 <= y <= 9999
    ensures |r| == 4 && AllDigits(r) && Value4(r) == y
  {
    var a := y / 1000;
    var r1 := y - 1000 * a;
    var b := r1 / 100;
    var r2 := r1 - 100 * b;
    var c := r2 / 10;
    var d := r2 - 10 * c;
    assert y == 1000 * a + 100 * b + 10 * c + d && 1 <= a <= 9 && 0 <= b <= 9 && 0 <= c <= 9 && 0 <= d <= 9;
    [DigitChar(a), DigitChar(b), DigitChar(c), DigitChar(d)]
  }

  /** The pattern `(19|20)\d{2}` matches `s` at position `i`. */
  predicate YearAt(s: string, i: nat) {
    && i + 4 <= |s|
    && ((s[i] == '1' && s[i + 1] == '9') || (s[i] == '2' && s[i + 1] == '0'))
    && IsDigit(s[i + 2]) && IsDigit(s[i + 3])
  }

  /** The leftmost position at or after `from` where the year pattern matches. */
  function FirstYearFrom(s: string, from: nat): (r: Option<nat>)
    requires from <= |s|
    ensures r.Some? ==> from <= r.value && YearAt(s, r.value)
    ensures r.Some? ==> forall j :: from <= j < r.value ==> !YearAt(s, j)
    ensures r.None? ==> forall j :: from <= j <= |s| ==> !YearAt(s, j)
    decreases |s| - from
  {
    if from + 4 > |s| then None
    else if YearAt(s, from) then Some(from)
    else FirstYearFrom(s, from + 1)
  }

  /**
   * `re.search(r"(19|20)\d{2}", s)`: the text of the leftmost match, or ""
   * when the pattern occurs nowhere.
   */
  function SearchYear(s: string): (r: string)
    ensures r == "" <==> forall j :: 0 <= j <= |s| ==> !YearAt(s, j)
    ensures r != "" ==> IsYearToken(r) && Value4(r) <= 2099
    ensures r != "" ==> exists i: nat :: YearAt(s, i) && r == s[i..i + 4] && forall j :: 0 <= j < i ==> !YearAt(s, j)
  {
    match FirstYearFrom(s, 0)
    case None => ""
    case Some(i) => s[i..i + 4]
  }

  /**
   * `extract_year_from_value`: an empty cell yields ""; a date whose year is
   * in [1900, 2100] yields that year; anything else yields the first
   * `(19|20)\d{2}` in its text, or "".
   */
  function YearFromCell(c: Cell): (r: string)
    ensures r == "" || IsYearToken(r)
    ensures c.Missing? ==> r == ""
    ensures c.DateLike? && 1900 <= c.year <= 2100 ==> r != "" && Value4(r) == c.year
    ensures c.DateLike? && !(1900 <= c.year <= 2100) ==> r == SearchYear(c.text)
    ensures c.Text? ==> r == SearchYear(c.s)
  {
    match c
    case Missing => ""
    case DateLike(y, t) => if 1900 <= y <= 2100 then ShowYear(y) else SearchYear(t)
    case Text(s) => SearchYear(s)
  }

  /** `min(25, rows)`: the rows the fallback scan covers. */
  function RowLimit(sh: Sheet): nat {
    if |sh.rows| < 25 then |sh.rows| else 25
  }

  /** `min(6, cols)`: the columns the fallback scan covers. */
  function ColLimit(sh: Sheet): nat {
    if sh.width < 6 then sh.width else 6
  }

  predicate InRegion(sh: Sheet, r: int, c: int) {
    0 <= r < RowLimit(sh) && 0 <= c < ColLimit(sh)
  }

  /** The year cell (r, c) of the scanned region yields, or "". */
  function CellYear(sh: Sheet, r: nat, c: nat): string
    requires InRegion(sh, r, c)
  {
    YearFromCell(At(sh, r, c))
  }

  /** (r1, c1) comes strictly before (r2, c2) in row-major order. */
  predicate RowMajorBefore(r1: int, c1: int, r2: int, c2: int) {
    r1 < r2 || (r1 == r2 && c1 < c2)
  }

  /**
   * The year of the probe cell `raw.iloc[5, 0]`; "" when it yields none or
   * when the sheet is too small to have that cell (the lookup's error is
   * swallowed).
   */
  function ProbeYear(sh: Sheet): string {
    if 5 < |sh.rows| && 0 < sh.width then YearFromCell(At(sh, 5, 0)) else ""
  }

  /** The scan of the region from (r, c) on, row by row: the first year found, or "". */
  function ScanFrom(sh: Sheet, r: nat, c: nat): (y: string)
    requires r <= RowLimit(sh) && c <= ColLimit(sh)
    ensures y == "" || IsYearToken(y)
    decreases RowLimit(sh) - r, ColLimit(sh) - c
  {
    if r == RowLimit(sh) then ""
    else if c == ColLimit(sh) then ScanFrom(sh, r + 1, 0)
    else if CellYear(sh, r, c) != "" then CellYear(sh, r, c)
    else ScanFrom(sh, r, c + 1)
  }

  /** `extract_year`: the probe cell's year if it has one, else the scan's. */
  function YearOf(sh: Sheet): string {
    if ProbeYear(sh) != "" then ProbeYear(sh) else ScanFrom(sh, 0, 0)
  }

  /**
   * The scan from (r0, c0) returns the year of the first yielding cell at or
   * after (r0, c0) in row-major order, and "" exactly when no such cell yields.
   */
  lemma {:induction false} ScanFindsFirst(sh: Sheet, r0: nat, c0: nat)
    requires r0 <= RowLimit(sh) && c0 <= ColLimit(sh)
    ensures ScanFrom(sh, r0, c0) == "" <==>
      forall r, c :: InRegion(sh, r, c) && !RowMajorBefore(r, c, r0, c0) ==> CellYear(sh, r, c) == ""
    ensures ScanFrom(sh, r0, c0) != "" ==>
      exists r, c :: && InRegion(sh, r, c) && !RowMajorBefore(r, c, r0, c0)
                     && CellYear(sh, r, c) == ScanFrom(sh, r0, c0)
                     && (forall r', c' ::
                           InRegion(sh, r', c') && !RowMajorBefore(r', c', r0, c0) && RowMajorBefore(r', c', r, c) ==>
                           CellYear(sh, r', c') == "")
    decreases RowLimit(sh) - r0, ColLimit(sh) - c0
  {
    if r0 == RowLimit(sh) {
    } else if c0 == ColLimit(sh) {
      ScanFindsFirst(sh, r0 + 1, 0);
    } else if CellYear(sh, r0, c0) != "" {
    } else {
      ScanFindsFirst(sh, r0, c0 + 1);
    }
  }

  /**
   * What `extract_year` promises: "" or a year in [1900, 2100]; the probe
   * cell's year when it has one; otherwise the year of the first yielding
   * cell of the region in row-major order, and "" only when no cell there
   * yields one.
   */
  lemma ExtractYearSpec(sh: Sheet)
    ensures YearOf(sh) == "" || IsYearToken(YearOf(sh))
    ensures ProbeYear(sh) != "" ==> YearOf(sh) == ProbeYear(sh)
    ensures ProbeYear(sh) == "" ==>
      (YearOf(sh) == "" <==> forall r, c :: InRegion(sh, r, c) ==> CellYear(sh, r, c) == "")
    ensures ProbeYear(sh) == "" && YearOf(sh) != "" ==>
      exists r, c :: && InRegion(sh, r, c) && CellYear(sh, r, c) == YearOf(sh)
                     && forall r', c' :: InRegion(sh, r', c') && RowMajorBefore(r', c', r, c) ==> CellYear(sh, r', c') == ""
  {
    ScanFindsFirst(sh, 0, 0);
  }

  /** `extract_year`, with its nested row/column loops and early returns. */
  method ExtractYear(sh: Sheet) returns (y: string)
    ensures y == YearOf(sh)
  {
    if 5 < |sh.rows| && 0 < sh.width {
      y := YearFromCell(At(sh, 5, 0));
      if y != "" {
        return;
      }
    }
    var rmax := RowLimit(sh);
    var cmax := ColLimit(sh);
    var r := 0;
    while r < rmax
      invariant 0 <= r <= rmax
      invariant ScanFrom(sh, r, 0) == YearOf(sh)
    {
      var c := 0;
      while c < cmax
        invariant 0 <= c <= cmax
        invariant ScanFrom(sh, r, c) == YearOf(sh)
      {
        y := YearFromCell(At(sh, r, c));
        if y != "" {
          return;
        }
        c := c + 1;
      }
      r := r + 1;
    }
    return "";
  }
}
