/**
 * Header normalisation (app.py lines 71-89): drop the leading rows and the
 * stray row, promote the next row to column names (stripped twice), add the
 * constant Year column, rename the known Thai labels to canonical names and
 * insist that a Budget_Account column exists.
 */
module Header {
  import opened Wrappers
  import opened Strings
  import opened Cells
  import opened Frames

  /** The two ways the conversion can fail. */
  datatype ConvertError =
    | NoHeaderRow          // fewer than 10 raw rows: `df.iloc[0]` on an empty frame raises
    | MissingBudgetAccount // the KeyError raised when no column is named Budget_Account

  /** `RENAME_MAP`: known source labels and their canonical names. */
  const RenameMap: map<string, string> := map[
    "รหัสบัญชีงบประมาณ" := "Budget_Account",
    "งบประมาณ" := "Budget",
    "PR/กันงบ" := "PR/Reserved_Budget",
    "ตั้งหนี้/จ่าย" := "Accured/Paid",
    "คงเหลือ" := "Remaining_Balance",
    "ใช้ไป%" := "Spent%"
  ]

  /** `df.rename(columns=RENAME_MAP)` for one name: a known label maps, anything else is kept. */
  function Rename(n: string): string {
    if n in RenameMap then RenameMap[n] else n
  }

  /**
   * The required column after renaming: exactly the Thai account-code label
   * or a column already called Budget_Account.
   */
  lemma RenameToAccount(n: string)
    ensures Rename(n) == "Budget_Account" <==> n == "รหัสบัญชีงบประมาณ" || n == "Budget_Account"
  {
    if n in RenameMap {
      assert n == "รหัสบัญชีงบประมาณ" || n == "งบประมาณ" || n == "PR/กันงบ"
          || n == "ตั้งหนี้/จ่าย" || n == "คงเหลือ" || n == "ใช้ไป%";
    }
  }

  /** No label is renamed to Year, and Year itself is not renamed. */
  lemma RenameKeepsYear(n: string)
    ensures Rename(n) == "Year" <==> n == "Year"
  {
    if n in RenameMap {
      assert n == "รหัสบัญชีงบประมาณ" || n == "งบประมาณ" || n == "PR/กันงบ"
          || n == "ตั้งหนี้/จ่าย" || n == "คงเหลือ" || n == "ใช้ไป%";
    }
  }

  /**
   * Renaming twice is renaming once: no canonical name is itself a source
   * label; a name that is not a label is kept as it is.
   */
  lemma RenameIdempotent(n: string)
    ensures Rename(Rename(n)) == Rename(n)
    ensures n !in RenameMap ==> Rename(n) == n
  {
    if n in RenameMap {
      assert n == "รหัสบัญชีงบประมาณ" || n == "งบประมาณ" || n == "PR/กันงบ"
          || n == "ตั้งหนี้/จ่าย" || n == "คงเหลือ" || n == "ใช้ไป%";
    }
  }

  /** `df.rename(columns=RENAME_MAP)`: every name renamed, every column's values kept. */
  function RenameColumns(f: Frame): (r: Frame)
    requires WellFormed(f)
    ensures WellFormed(r) && r.height == f.height && |r.columns| == |f.columns|
    ensures forall i :: 0 <= i < |f.columns| ==> r.columns[i] == Column(Rename(f.columns[i].name), f.columns[i].values)
  {
    Frame(seq(|f.columns|, i requires 0 <= i < |f.columns| =>
      Column(Rename(f.columns[i].name), f.columns[i].values)), f.height)
  }

  /** The number of data rows: raw rows 11 onwards. */
  function DataHeight(raw: Sheet): nat {
    if |raw.rows| >= 11 then |raw.rows| - 11 else 0
  }

  /** The name raw column `c` gets: raw row 9's cell, as text, stripped. */
  function HeaderName(raw: Sheet, c: nat): string
    requires 10 <= |raw.rows| && c < raw.width
  {
    Strip(Render(At(raw, 9, c)))
  }

  /** The canonical names of the raw columns, in order. */
  function RenamedHeader(raw: Sheet): (r: seq<string>)
    requires 10 <= |raw.rows|
    ensures |r| == raw.width
    ensures forall c :: 0 <= c < raw.width ==> r[c] == Rename(HeaderName(raw, c))
  {
    seq(raw.width, c requires 0 <= c < raw.width => Rename(HeaderName(raw, c)))
  }

  /**
   * Lines 72-77: rows 0-8 are dropped (as many as exist), then position 1 of
   * what remains (if it exists); the first remaining row becomes the header,
   * each cell as text stripped twice, and the rows after it are the data.
   */
  function PromoteHeader(raw: Sheet): (r: Result<Frame, ConvertError>)
    ensures r.Failure? <==> |raw.rows| < 10
    ensures r.Failure? ==> r.error == NoHeaderRow
    ensures r.Success? ==> WellFormed(r.value) && |r.value.columns| == raw.width && r.value.height == DataHeight(raw)
    ensures r.Success? ==> forall c :: 0 <= c < raw.width ==>
      r.value.columns[c].name == HeaderName(raw, c) && IsStripped(r.value.columns[c].name)
    ensures r.Success? ==> forall c, j :: 0 <= c < raw.width && 0 <= j < DataHeight(raw) ==>
      r.value.columns[c].values[j] == At(raw, 11 + j, c)
  {
    var rest := if |raw.rows| <= 9 then [] else raw.rows[9..];
    var rest' := if |rest| >= 2 then rest[..1] + rest[2..] else rest;
    if rest' == [] then Failure(NoHeaderRow)
    else
      var header := rest'[0];
      var data := rest'[1..];
      DropsLeaveDataRows(raw, rest, rest');
      assert forall j :: 0 <= j < |data| ==> data[j] == rest'[1 + j];
      PromotedFrame(raw, header, data);
      Success(HeaderFrame(header, data, raw.width))
  }

  /** The frame built from raw row 9 as header and raw rows 11 onwards as data. */
  lemma PromotedFrame(raw: Sheet, header: seq<Cell>, data: seq<seq<Cell>>)
    requires 10 <= |raw.rows| && header == raw.rows[9]
    requires |data| == DataHeight(raw) && forall j :: 0 <= j < |data| ==> data[j] == raw.rows[11 + j]
    ensures WellFormed(HeaderFrame(header, data, raw.width))
    ensures |HeaderFrame(header, data, raw.width).columns| == raw.width
    ensures HeaderFrame(header, data, raw.width).height == DataHeight(raw)
    ensures forall c :: 0 <= c < raw.width ==>
      HeaderFrame(header, data, raw.width).columns[c].name == HeaderName(raw, c)
    ensures forall c, j :: 0 <= c < raw.width && 0 <= j < DataHeight(raw) ==>
      HeaderFrame(header, data, raw.width).columns[c].values[j] == At(raw, 11 + j, c)
  {
    var f := HeaderFrame(header, data, raw.width);
    forall c | 0 <= c < raw.width
      ensures f.columns[c].name == HeaderName(raw, c)
    {
      assert At(raw, 9, c) == RowCell(header, c);
    }
    forall c, j | 0 <= c < raw.width && 0 <= j < DataHeight(raw)
      ensures f.columns[c].values[j] == At(raw, 11 + j, c)
    {
      assert At(raw, 11 + j, c) == RowCell(data[j], c);
    }
  }

  lemma DropsLeaveDataRows(raw: Sheet, rest: seq<seq<Cell>>, rest': seq<seq<Cell>>)
    requires rest == if |raw.rows| <= 9 then [] else raw.rows[9..]
    requires rest' == if |rest| >= 2 then rest[..1] + rest[2..] else rest
    ensures rest' == [] <==> |raw.rows| < 10
    ensures rest' != [] ==> rest'[0] == raw.rows[9] && |rest'| - 1 == DataHeight(raw)
    ensures forall j :: 1 <= j < |rest'| ==> rest'[j] == raw.rows[10 + j]
  {
    if |raw.rows| >= 11 {
      assert |rest| == |raw.rows| - 9 >= 2;
      assert rest'[0] == rest[0] == raw.rows[9];
      forall j | 1 <= j < |rest'|
        ensures rest'[j] == raw.rows[10 + j]
      {
        assert rest'[j] == rest[2..][j - 1] == rest[j + 1];
      }
    } else if |raw.rows| == 10 {
      assert rest == [raw.rows[9]];
    }
  }

  /** The frame whose names come from `header` (as text, stripped twice) and whose rows are `data`. */
  function HeaderFrame(header: seq<Cell>, data: seq<seq<Cell>>, width: nat): (f: Frame)
    ensures WellFormed(f) && |f.columns| == width && f.height == |data|
    ensures forall c :: 0 <= c < width ==> f.columns[c].name == Strip(Render(RowCell(header, c)))
    ensures forall c, j :: 0 <= c < width && 0 <= j < |data| ==> f.columns[c].values[j] == RowCell(data[j], c)
  {
    Frame(seq(width, c requires 0 <= c < width =>
      Column(Strip(Strip(Render(RowCell(header, c)))),
             seq(|data|, j requires 0 <= j < |data| => RowCell(data[j], c)))), |data|)
  }

  /** The raw column whose canonical name is `d` (the first, if several), if any. */
  function HeaderColumn(raw: Sheet, d: string): Option<nat>
    requires 10 <= |raw.rows|
  {
    FirstIndex(RenamedHeader(raw), d)
  }

  /** The data values of the raw column named `d`, if any. */
  function HeaderValues(raw: Sheet, d: string): (r: Option<seq<Cell>>)
    requires 10 <= |raw.rows|
    ensures r.Some? <==> d in RenamedHeader(raw)
    ensures r.Some? ==> |r.value| == DataHeight(raw)
  {
    match HeaderColumn(raw, d)
    case None => None
    case Some(c) => Some(DataColumn(raw, c))
  }

  /**
   * The values found under `d` are those of the first raw column whose
   * canonical name is `d`: its cells in raw rows 11 onwards.
   */
  lemma HeaderValuesAre(raw: Sheet, d: string)
    requires 10 <= |raw.rows|
    ensures HeaderValues(raw, d).Some? ==>
      exists c :: (&& 0 <= c < raw.width && RenamedHeader(raw)[c] == d
                   && (forall c' :: 0 <= c' < c ==> RenamedHeader(raw)[c'] != d)
                   && forall j :: 0 <= j < DataHeight(raw) ==> HeaderValues(raw, d).value[j] == At(raw, 11 + j, c))
  {
    match HeaderColumn(raw, d)
    case None =>
    case Some(c) =>
      assert RenamedHeader(raw)[c] == d;
  }

  /** The data values of raw column `c`: its cells in raw rows 11 onwards. */
  function DataColumn(raw: Sheet, c: nat): (r: seq<Cell>)
    requires c < raw.width
    ensures |r| == DataHeight(raw)
    ensures forall j :: 0 <= j < DataHeight(raw) ==> r[j] == At(raw, 11 + j, c)
  {
    seq(DataHeight(raw), j requires 0 <= j < DataHeight(raw) => At(raw, 11 + j, c))
  }

  /**
   * Lines 72-89: the table with its header set, the Year column added and the
   * columns renamed. It fails exactly when there is no header row or no raw
   * column is canonically named Budget_Account; otherwise it has one row per
   * raw row from 11 on, Year is `year` on every row, and every other name
   * looks up the data values of the raw column bearing it.
   */
  function NormaliseHeader(raw: Sheet, year: string): (r: Result<Frame, ConvertError>)
    ensures r.Failure? <==> |raw.rows| < 10 || "Budget_Account" !in RenamedHeader(raw)
    ensures r.Failure? ==> r.error == (if |raw.rows| < 10 then NoHeaderRow else MissingBudgetAccount)
    ensures r.Success? ==> WellFormed(r.value) && r.value.height == DataHeight(raw)
    ensures r.Success? ==> Lookup(r.value, "Year") == Some(Constant(DataHeight(raw), Text(year)))
    ensures r.Success? ==> forall d :: d != "Year" ==> Lookup(r.value, d) == HeaderValues(raw, d)
  {
    match PromoteHeader(raw)
    case Failure(e) => Failure(e)
    case Success(df) =>
      var withYear := SetColumn(df, "Year", Constant(df.height, Text(year)));
      var renamed := RenameColumns(withYear);
      NormaliseHeaderFacts(raw, year, df, withYear, renamed);
      if "Budget_Account" in Names(renamed) then Success(renamed) else Failure(MissingBudgetAccount)
  }

  /**
   * The normalised table has a Year column, and any other name exactly when
   * a raw header cell is canonically that name.
   */
  lemma NormaliseHeaderNames(raw: Sheet, year: string, df: Frame)
    requires NormaliseHeader(raw, year) == Success(df)
    ensures "Year" in Names(df)
    ensures forall d :: d != "Year" ==> (d in Names(df) <==> d in RenamedHeader(raw))
  {
    assert Lookup(df, "Year").Some?;
    forall d | d != "Year"
      ensures d in Names(df) <==> d in RenamedHeader(raw)
    {
      assert Lookup(df, d) == HeaderValues(raw, d);
    }
  }

  /** What the steps of `NormaliseHeader` guarantee about the frames they build. */
  ghost predicate HeaderSteps(raw: Sheet, df: Frame, withYear: Frame, renamed: Frame) {
    && 10 <= |raw.rows|
    && WellFormed(df) && WellFormed(withYear)
    && |df.columns| == raw.width && df.height == DataHeight(raw)
    && (forall c :: 0 <= c < raw.width ==> df.columns[c].name == HeaderName(raw, c))
    && (forall c, j :: 0 <= c < raw.width && 0 <= j < DataHeight(raw) ==> df.columns[c].values[j] == At(raw, 11 + j, c))
    && withYear.height == df.height
    && Names(withYear) == (if "Year" in Names(df) then Names(df) else Names(df) + ["Year"])
    && (forall i :: 0 <= i < |df.columns| && df.columns[i].name != "Year" ==> withYear.columns[i] == df.columns[i])
    && |renamed.columns| == |withYear.columns|
    && (forall i :: 0 <= i < |withYear.columns| ==>
          renamed.columns[i] == Column(Rename(withYear.columns[i].name), withYear.columns[i].values))
  }

  /** The names after adding Year and renaming: the renamed header, then Year if the header had none. */
  lemma RenamedNames(raw: Sheet, df: Frame, withYear: Frame, renamed: Frame)
    requires HeaderSteps(raw, df, withYear, renamed)
    ensures |Names(renamed)| == raw.width || (|Names(renamed)| == raw.width + 1 && Names(renamed)[raw.width] == "Year")
    ensures Names(renamed)[..raw.width] == RenamedHeader(raw)
    ensures "Year" in Names(renamed)
    ensures forall d :: d != "Year" ==> (d in Names(renamed) <==> d in RenamedHeader(raw))
  {
    var n := raw.width;
    var names := Names(renamed);
    var header := RenamedHeader(raw);
    forall c | 0 <= c < n ensures names[c] == header[c] {
      assert withYear.columns[c].name == Names(withYear)[c] == Names(df)[c];
    }
    RenameKeepsYear("Year");
    if |names| > n {
      assert Names(withYear)[n] == "Year";
    } else {
      var k := FirstIndex(Names(withYear), "Year").value;
      assert Names(withYear)[k] == "Year";
      assert names[k] == "Year";
    }
    assert names == header + names[n..];
  }

  lemma LookupRenamed(raw: Sheet, df: Frame, withYear: Frame, renamed: Frame, d: string)
    requires HeaderSteps(raw, df, withYear, renamed)
    requires d != "Year"
    ensures Lookup(renamed, d) == HeaderValues(raw, d)
  {
    RenamedNames(raw, df, withYear, renamed);
    var header := RenamedHeader(raw);
    match FirstIndex(header, d)
    case None =>
    case Some(c) =>
      RenamedColumnValues(raw, df, withYear, renamed, c);
      LookupFirst(Names(renamed), header, renamed, d);
  }

  /** Looking `d` up in a frame whose names start with `header`, where `d` occurs in `header`. */
  lemma LookupFirst(names: seq<string>, header: seq<string>, f: Frame, d: string)
    requires names == Names(f) && |names| >= |header| && names[..|header|] == header
    requires FirstIndex(header, d).Some?
    ensures Lookup(f, d) == Some(f.columns[FirstIndex(header, d).value].values)
  {
    var k := FirstIndex(header, d);
    assert forall j :: 0 <= j <= k.value ==> names[j] == header[j];
    FirstIndexUnique(names, d, k);
  }

  lemma RenamedColumnValues(raw: Sheet, df: Frame, withYear: Frame, renamed: Frame, c: nat)
    requires HeaderSteps(raw, df, withYear, renamed)
    requires c < raw.width && RenamedHeader(raw)[c] != "Year"
    ensures renamed.columns[c].values == DataColumn(raw, c)
  {
    RenameKeepsYear(HeaderName(raw, c));
    assert df.columns[c].name != "Year";
    assert renamed.columns[c].values == df.columns[c].values;
    DataColumnOf(raw, c, df.columns[c].values);
  }

  lemma DataColumnOf(raw: Sheet, c: nat, vals: seq<Cell>)
    requires c < raw.width && |vals| == DataHeight(raw)
    requires forall j :: 0 <= j < DataHeight(raw) ==> vals[j] == At(raw, 11 + j, c)
    ensures vals == DataColumn(raw, c)
  {
  }

  lemma LookupYear(raw: Sheet, year: string, df: Frame, withYear: Frame, renamed: Frame)
    requires HeaderSteps(raw, df, withYear, renamed)
    requires Lookup(withYear, "Year") == Some(Constant(DataHeight(raw), Text(year)))
    ensures Lookup(renamed, "Year") == Some(Constant(DataHeight(raw), Text(year)))
  {
    var k := FirstIndex(Names(withYear), "Year");
    assert k.Some?;
    forall j | 0 <= j < k.value ensures Names(renamed)[j] != "Year" {
      RenameKeepsYear(Names(withYear)[j]);
    }
    RenameKeepsYear("Year");
    FirstIndexUnique(Names(renamed), "Year", k);
  }

  lemma NormaliseHeaderFacts(raw: Sheet, year: string, df: Frame, withYear: Frame, renamed: Frame)
    requires PromoteHeader(raw) == Success(df)
    requires withYear == SetColumn(df, "Year", Constant(df.height, Text(year)))
    requires renamed == RenameColumns(withYear)
    ensures "Budget_Account" in Names(renamed) <==> "Budget_Account" in RenamedHeader(raw)
    ensures Lookup(renamed, "Year") == Some(Constant(DataHeight(raw), Text(year)))
    ensures forall d :: d != "Year" ==> Lookup(renamed, d) == HeaderValues(raw, d)
  {
    assert HeaderSteps(raw, df, withYear, renamed);
    RenamedNames(raw, df, withYear, renamed);
    LookupYear(raw, year, df, withYear, renamed);
    forall d | d != "Year" ensures Lookup(renamed, d) == HeaderValues(raw, d) {
      LookupRenamed(raw, df, withYear, renamed, d);
    }
  }
}
