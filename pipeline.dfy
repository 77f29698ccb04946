/**
 * `convert_budget` (app.py lines 67-134) from the sheet that was read to
 * the converted table: the year, the header, the grouping, the expense
 * split and the final column order, in that order.
 */
module Pipeline {
  import opened Wrappers
  import opened Strings
  import opened Cells
  import opened Years
  import opened Frames
  import opened Header
  import opened Groups
  import opened Fields

  /** The conversion as one function of the raw sheet. */
  function Convert(raw: Sheet, keepSuffix: bool): (r: Result<Frame, ConvertError>)
    ensures r.Failure? <==> |raw.rows| < 10 || "Budget_Account" !in RenamedHeader(raw)
    ensures r.Failure? ==> r.error == (if |raw.rows| < 10 then NoHeaderRow else MissingBudgetAccount)
    ensures r.Success? ==> WellFormed(r.value)
  {
    match NormaliseHeader(raw, YearOf(raw))
    case Failure(e) => Failure(e)
    case Success(df) => Success(Transform(df, keepSuffix))
  }

  /** Lines 91-132: the stages after the header, on the normalised table. */
  function Transform(df: Frame, keepSuffix: bool): (r: Frame)
    requires WellFormed(df) && Lookup(df, "Budget_Account").Some?
    ensures WellFormed(r)
  {
    Project(Expanded(df, keepSuffix), Desired)
  }

  /** Lines 91-123: the table after the grouping and the expense split, before the column order. */
  function Expanded(df: Frame, keepSuffix: bool): (r: Frame)
    requires WellFormed(df) && Lookup(df, "Budget_Account").Some?
    ensures WellFormed(r)
  {
    AddExpenseFields(Classify(df, keepSuffix))
  }

  /**
   * Lines 67-134, step by step: the year is searched for, the header is set,
   * the captures are forward-filled in one pass, and the table is reassigned
   * after every stage.
   */
  method ConvertBudget(raw: Sheet, keepSuffix: bool) returns (r: Result<Frame, ConvertError>)
    ensures r == Convert(raw, keepSuffix)
  {
    var year := ExtractYear(raw);
    var promoted := PromoteHeader(raw);
    if promoted.Failure? {
      return Failure(promoted.error);
    }
    var df := promoted.value;
    df := SetColumn(df, "Year", Constant(df.height, Text(year)));
    df := RenameColumns(df);
    if "Budget_Account" !in Names(df) {
      return Failure(MissingBudgetAccount);
    }
    assert NormaliseHeader(raw, year) == Success(df);
    var acc := Lookup(df, "Budget_Account").value;
    var filled := ForwardFill(Captures(acc, keepSuffix));
    assert filled == FilledColumn(Captures(acc, keepSuffix));
    df := ApplyGroups(df, acc, keepSuffix, filled);
    df := AddExpenseFields(df);
    df := Project(df, Desired);
    assert df == Transform(NormaliseHeader(raw, year).value, keepSuffix);
    return Success(df);
  }

  /** The columns every successful conversion produces, whatever the header says. */
  const Derived: seq<string> := ["Year", "Budget_Code", "Budget_Type", "Expense_Code", "Expense_Detail"]

  /** The data values of the account column the conversion works on. */
  function AccountColumn(raw: Sheet): (acc: seq<Cell>)
    requires 10 <= |raw.rows| && "Budget_Account" in RenamedHeader(raw)
    ensures |acc| == DataHeight(raw)
  {
    HeaderValues(raw, "Budget_Account").value
  }

  /**
   * The data rows (counted from raw row 11) that become output rows: those
   * whose account is present and is not a group marker, in their original
   * order.
   */
  function OutputRows(raw: Sheet, keepSuffix: bool): (idx: seq<nat>)
    requires 10 <= |raw.rows| && "Budget_Account" in RenamedHeader(raw)
    ensures forall k :: 0 <= k < |idx| ==> idx[k] < DataHeight(raw)
    ensures forall j :: 0 <= j < DataHeight(raw) ==> (j in idx <==> Survives(AccountColumn(raw)[j], keepSuffix))
    ensures forall k, l :: 0 <= k < l < |idx| ==> idx[k] < idx[l]
  {
    Kept(SurvivorMask(AccountColumn(raw), keepSuffix))
  }

  /** The normalised table of a successful conversion. */
  lemma ConvertStages(raw: Sheet, keepSuffix: bool) returns (df: Frame)
    requires Convert(raw, keepSuffix).Success?
    ensures 10 <= |raw.rows| && "Budget_Account" in RenamedHeader(raw)
    ensures NormaliseHeader(raw, YearOf(raw)) == Success(df)
    ensures WellFormed(df) && Lookup(df, "Budget_Account") == Some(AccountColumn(raw))
    ensures Convert(raw, keepSuffix) == Success(Transform(df, keepSuffix))
    ensures Lookup(df, "Year") == Some(Constant(DataHeight(raw), Text(YearOf(raw))))
    ensures forall d :: d != "Year" ==> Lookup(df, d) == HeaderValues(raw, d)
  {
    df := NormaliseHeader(raw, YearOf(raw)).value;
  }

  /**
   * The output has the desired columns that exist, in the desired order:
   * the five derived columns always, each amount column exactly when the
   * sheet's header names it (after renaming), and nothing else.
   */
  lemma ConvertColumns(raw: Sheet, keepSuffix: bool)
    requires Convert(raw, keepSuffix).Success?
    ensures Names(Convert(raw, keepSuffix).value) == Present(Desired, Derived + RenamedHeader(raw))
    ensures forall d :: d in Derived ==> d in Names(Convert(raw, keepSuffix).value)
  {
    var df := ConvertStages(raw, keepSuffix);
    var split := Expanded(df, keepSuffix);
    NormaliseHeaderNames(raw, YearOf(raw), df);
    ExpandedNames(df, keepSuffix);
    NamesThroughStages(Names(df), Names(split), RenamedHeader(raw));
    assert Names(Convert(raw, keepSuffix).value) == Present(Desired, Names(split));
  }

  /** The columns the grouping and the expense split add and remove. */
  lemma ExpandedNames(df: Frame, keepSuffix: bool)
    requires WellFormed(df) && Lookup(df, "Budget_Account").Some?
    ensures forall m :: m in Names(Expanded(df, keepSuffix)) <==>
      (m in Names(df) || m == "Budget_Code" || m == "Budget_Type" || m == "Expense_Code" || m == "Expense_Detail")
      && m != "Budget_Account"
  {
    var acc := Lookup(df, "Budget_Account").value;
    var grouped := ApplyGroups(df, acc, keepSuffix, FilledColumn(Captures(acc, keepSuffix)));
    ApplyGroupsSpec(df, acc, keepSuffix, FilledColumn(Captures(acc, keepSuffix)));
    AddExpenseFieldsSpec(grouped);
  }

  lemma NamesThroughStages(dfNames: seq<string>, splitNames: seq<string>, header: seq<string>)
    requires "Year" in dfNames
    requires forall d :: d != "Year" ==> (d in dfNames <==> d in header)
    requires forall m :: m in splitNames <==>
      (m in dfNames || m == "Budget_Code" || m == "Budget_Type" || m == "Expense_Code" || m == "Expense_Detail")
      && m != "Budget_Account"
    ensures Present(Desired, splitNames) == Present(Desired, Derived + header)
    ensures forall d :: d in Derived ==> d in Present(Desired, splitNames)
  {
    DesiredOmitsAccount();
    forall d | d in Desired
      ensures d in splitNames <==> d in Derived + header
    {
      assert d != "Budget_Account";
      assert d in Derived + header <==> d in Derived || d in header;
    }
    PresentByMembership(Desired, splitNames, Derived + header);
  }


  /** The data rows of the normalised table that the grouping keeps, in order. */
  function Survivors(df: Frame, keepSuffix: bool): seq<nat>
    requires Lookup(df, "Budget_Account").Some?
  {
    Kept(SurvivorMask(Lookup(df, "Budget_Account").value, keepSuffix))
  }

  /** Budget_Code of each kept row: the code of the nearest marker at or above it. */
  function CodesOf(acc: seq<Cell>, keepSuffix: bool): (r: seq<Cell>)
    ensures var idx := Kept(SurvivorMask(acc, keepSuffix));
      |r| == |idx| && forall k :: 0 <= k < |idx| ==> r[k] == CodeCell(FilledAt(Captures(acc, keepSuffix), idx[k]))
  {
    var idx := Kept(SurvivorMask(acc, keepSuffix));
    seq(|idx|, k requires 0 <= k < |idx| => CodeCell(FilledAt(Captures(acc, keepSuffix), idx[k])))
  }

  /** Budget_Type of each kept row: the label of the nearest marker at or above it. */
  function TypesOf(acc: seq<Cell>, keepSuffix: bool): (r: seq<Cell>)
    ensures var idx := Kept(SurvivorMask(acc, keepSuffix));
      |r| == |idx| && forall k :: 0 <= k < |idx| ==> r[k] == TypeCell(FilledAt(Captures(acc, keepSuffix), idx[k]))
  {
    var idx := Kept(SurvivorMask(acc, keepSuffix));
    seq(|idx|, k requires 0 <= k < |idx| => TypeCell(FilledAt(Captures(acc, keepSuffix), idx[k])))
  }

  /** The normalised account text of each kept row. */
  function KeptText(acc: seq<Cell>, keepSuffix: bool, k: nat): (t: string)
    requires k < |Kept(SurvivorMask(acc, keepSuffix))|
    ensures IsStripped(t)
  {
    NormaliseAccount(acc[Kept(SurvivorMask(acc, keepSuffix))[k]]).value
  }

  /** Expense_Code of each kept row: the first word of its account text, missing when there is none. */
  function ExpenseCodesOf(acc: seq<Cell>, keepSuffix: bool): (r: seq<Cell>)
    ensures |r| == |Kept(SurvivorMask(acc, keepSuffix))|
    ensures forall k :: 0 <= k < |r| ==>
      r[k] == if ExpenseFields(KeptText(acc, keepSuffix, k)).0.None? then Missing
              else Text(ExpenseFields(KeptText(acc, keepSuffix, k)).0.value)
  {
    var n := |Kept(SurvivorMask(acc, keepSuffix))|;
    seq(n, k requires 0 <= k < n =>
      if ExpenseFields(KeptText(acc, keepSuffix, k)).0.None? then Missing
      else Text(ExpenseFields(KeptText(acc, keepSuffix, k)).0.value))
  }

  /** Expense_Detail of each kept row: the other words of its account text. */
  function ExpenseDetailsOf(acc: seq<Cell>, keepSuffix: bool): (r: seq<Cell>)
    ensures |r| == |Kept(SurvivorMask(acc, keepSuffix))|
    ensures forall k :: 0 <= k < |r| ==> r[k] == Text(ExpenseFields(KeptText(acc, keepSuffix, k)).1)
  {
    var n := |Kept(SurvivorMask(acc, keepSuffix))|;
    seq(n, k requires 0 <= k < n => Text(ExpenseFields(KeptText(acc, keepSuffix, k)).1))
  }

  /** The normalised account cell of each kept row. */
  function KeptAccounts(acc: seq<Cell>, keepSuffix: bool): (r: seq<Cell>)
    ensures |r| == |Kept(SurvivorMask(acc, keepSuffix))|
    ensures forall k :: 0 <= k < |r| ==> r[k] == Text(KeptText(acc, keepSuffix, k))
  {
    var n := |Kept(SurvivorMask(acc, keepSuffix))|;
    seq(n, k requires 0 <= k < n => Text(KeptText(acc, keepSuffix, k)))
  }

  /**
   * An account cell that is present but blank after normalisation is not a
   * marker, so its row is kept; it has no Expense_Code and an empty
   * Expense_Detail.
   */
  lemma BlankAccountKept(c: Cell, keepSuffix: bool)
    requires NormaliseAccount(c) == Some("")
    ensures Survives(c, keepSuffix)
    ensures ExpenseFields(NormaliseAccount(c).value) == (None, "")
  {
    SplitEmpty();
  }

  /** Budget_Code after the grouping. */
  lemma GroupCodes(df: Frame, keepSuffix: bool)
    requires WellFormed(df) && Lookup(df, "Budget_Account").Some?
    ensures Classify(df, keepSuffix).height == |Survivors(df, keepSuffix)|
    ensures Lookup(Classify(df, keepSuffix), "Budget_Code") == Some(CodesOf(Lookup(df, "Budget_Account").value, keepSuffix))
  {
    var acc := Lookup(df, "Budget_Account").value;
    var filled := FilledColumn(Captures(acc, keepSuffix));
    var grouped := ApplyGroups(df, acc, keepSuffix, filled);
    ApplyGroupsSpec(df, acc, keepSuffix, filled);
    assert "Budget_Code" in Names(grouped);
    CodesAre(acc, keepSuffix, filled, Lookup(grouped, "Budget_Code").value);
  }

  /** A column holding the code of each kept row's filled capture is `CodesOf`. */
  lemma CodesAre(acc: seq<Cell>, keepSuffix: bool, filled: seq<Option<Capture>>, v: seq<Cell>)
    requires filled == FilledColumn(Captures(acc, keepSuffix))
    requires |v| == |Kept(SurvivorMask(acc, keepSuffix))|
    requires forall k :: 0 <= k < |v| ==> v[k] == CodeCell(filled[Kept(SurvivorMask(acc, keepSuffix))[k]])
    ensures v == CodesOf(acc, keepSuffix)
  {
  }

  /** Budget_Type after the grouping. */
  lemma GroupTypes(df: Frame, keepSuffix: bool)
    requires WellFormed(df) && Lookup(df, "Budget_Account").Some?
    ensures Lookup(Classify(df, keepSuffix), "Budget_Type") == Some(TypesOf(Lookup(df, "Budget_Account").value, keepSuffix))
  {
    var acc := Lookup(df, "Budget_Account").value;
    var filled := FilledColumn(Captures(acc, keepSuffix));
    var grouped := ApplyGroups(df, acc, keepSuffix, filled);
    ApplyGroupsSpec(df, acc, keepSuffix, filled);
    assert "Budget_Type" in Names(grouped);
    TypesAre(acc, keepSuffix, filled, Lookup(grouped, "Budget_Type").value);
  }

  /** A column holding the label of each kept row's filled capture is `TypesOf`. */
  lemma TypesAre(acc: seq<Cell>, keepSuffix: bool, filled: seq<Option<Capture>>, v: seq<Cell>)
    requires filled == FilledColumn(Captures(acc, keepSuffix))
    requires |v| == |Kept(SurvivorMask(acc, keepSuffix))|
    requires forall k :: 0 <= k < |v| ==> v[k] == TypeCell(filled[Kept(SurvivorMask(acc, keepSuffix))[k]])
    ensures v == TypesOf(acc, keepSuffix)
  {
  }

  /** The account column and the other columns after the grouping. */
  lemma GroupAccounts(df: Frame, keepSuffix: bool)
    requires WellFormed(df) && Lookup(df, "Budget_Account").Some?
    ensures Lookup(Classify(df, keepSuffix), "Budget_Account") == Some(KeptAccounts(Lookup(df, "Budget_Account").value, keepSuffix))
    ensures forall m :: m != "Budget_Code" && m != "Budget_Type" && m != "Budget_Account" ==>
      Lookup(Classify(df, keepSuffix), m) ==
        if Lookup(df, m).Some? then Some(Select(Lookup(df, m).value, Survivors(df, keepSuffix))) else None
  {
    var acc := Lookup(df, "Budget_Account").value;
    var filled := FilledColumn(Captures(acc, keepSuffix));
    var grouped := ApplyGroups(df, acc, keepSuffix, filled);
    ApplyGroupsSpec(df, acc, keepSuffix, filled);
    assert "Budget_Account" in Names(grouped);
    KeptAccountsAre(acc, keepSuffix, Lookup(grouped, "Budget_Account").value);
  }

  /** A column holding each kept row's normalised account is `KeptAccounts`. */
  lemma KeptAccountsAre(acc: seq<Cell>, keepSuffix: bool, v: seq<Cell>)
    requires |v| == |Kept(SurvivorMask(acc, keepSuffix))|
    requires forall k :: 0 <= k < |v| ==>
      v[k] == Text(NormaliseAccount(acc[Kept(SurvivorMask(acc, keepSuffix))[k]]).value)
    ensures v == KeptAccounts(acc, keepSuffix)
  {
  }

  /** Splitting the kept account cells gives the expense codes row by row. */
  lemma KeptExpenseCodes(acc: seq<Cell>, keepSuffix: bool)
    ensures ExpenseCodes(KeptAccounts(acc, keepSuffix)) == ExpenseCodesOf(acc, keepSuffix)
  {
    var ba := KeptAccounts(acc, keepSuffix);
    forall k | 0 <= k < |ba|
      ensures ExpenseCodes(ba)[k] == ExpenseCodesOf(acc, keepSuffix)[k]
    {
      assert ba[k] == Text(KeptText(acc, keepSuffix, k));
    }
  }

  /** Splitting the kept account cells gives the expense details row by row. */
  lemma KeptExpenseDetails(acc: seq<Cell>, keepSuffix: bool)
    ensures ExpenseDetails(KeptAccounts(acc, keepSuffix)) == ExpenseDetailsOf(acc, keepSuffix)
  {
    var ba := KeptAccounts(acc, keepSuffix);
    forall k | 0 <= k < |ba|
      ensures ExpenseDetails(ba)[k] == ExpenseDetailsOf(acc, keepSuffix)[k]
    {
      assert ba[k] == Text(KeptText(acc, keepSuffix, k));
    }
  }

  /** Expense_Code of a grouped table whose account column holds the kept accounts. */
  lemma ExpenseCodesStage(grouped: Frame, acc: seq<Cell>, keepSuffix: bool)
    requires WellFormed(grouped) && Lookup(grouped, "Budget_Account") == Some(KeptAccounts(acc, keepSuffix))
    ensures Lookup(AddExpenseFields(grouped), "Expense_Code") == Some(ExpenseCodesOf(acc, keepSuffix))
  {
    AddExpenseFieldsSpec(grouped);
    KeptExpenseCodes(acc, keepSuffix);
  }

  /** Expense_Detail of a grouped table whose account column holds the kept accounts. */
  lemma ExpenseDetailsStage(grouped: Frame, acc: seq<Cell>, keepSuffix: bool)
    requires WellFormed(grouped) && Lookup(grouped, "Budget_Account") == Some(KeptAccounts(acc, keepSuffix))
    ensures Lookup(AddExpenseFields(grouped), "Expense_Detail") == Some(ExpenseDetailsOf(acc, keepSuffix))
  {
    AddExpenseFieldsSpec(grouped);
    KeptExpenseDetails(acc, keepSuffix);
  }

  /** The four derived columns of the expanded table. */
  lemma ExpandedDerived(df: Frame, keepSuffix: bool)
    requires WellFormed(df) && Lookup(df, "Budget_Account").Some?
    ensures Expanded(df, keepSuffix).height == |Survivors(df, keepSuffix)|
    ensures Lookup(Expanded(df, keepSuffix), "Budget_Code") == Some(CodesOf(Lookup(df, "Budget_Account").value, keepSuffix))
    ensures Lookup(Expanded(df, keepSuffix), "Budget_Type") == Some(TypesOf(Lookup(df, "Budget_Account").value, keepSuffix))
    ensures Lookup(Expanded(df, keepSuffix), "Expense_Code") == Some(ExpenseCodesOf(Lookup(df, "Budget_Account").value, keepSuffix))
    ensures Lookup(Expanded(df, keepSuffix), "Expense_Detail") == Some(ExpenseDetailsOf(Lookup(df, "Budget_Account").value, keepSuffix))
  {
    GroupCodes(df, keepSuffix);
    GroupTypes(df, keepSuffix);
    GroupAccounts(df, keepSuffix);
    AddExpenseFieldsSpec(Classify(df, keepSuffix));
    ExpenseCodesStage(Classify(df, keepSuffix), Lookup(df, "Budget_Account").value, keepSuffix);
    ExpenseDetailsStage(Classify(df, keepSuffix), Lookup(df, "Budget_Account").value, keepSuffix);
  }

  /** Any other column of the expanded table: the kept rows of the normalised table's column. */
  lemma ExpandedCopy(df: Frame, keepSuffix: bool, d: string)
    requires WellFormed(df) && Lookup(df, "Budget_Account").Some?
    requires d != "Budget_Code" && d != "Budget_Type" && d != "Expense_Code" && d != "Expense_Detail" && d != "Budget_Account"
    ensures Lookup(Expanded(df, keepSuffix), d) ==
      if Lookup(df, d).Some? then Some(Select(Lookup(df, d).value, Survivors(df, keepSuffix))) else None
  {
    GroupAccounts(df, keepSuffix);
    AddExpenseFieldsSpec(Classify(df, keepSuffix));
  }

  /** The output has one row per output data row. */
  lemma ConvertRows(raw: Sheet, keepSuffix: bool)
    requires Convert(raw, keepSuffix).Success?
    ensures Convert(raw, keepSuffix).value.height == |OutputRows(raw, keepSuffix)|
  {
    var df := ConvertStages(raw, keepSuffix);
    GroupCodes(df, keepSuffix);
    AddExpenseFieldsSpec(Classify(df, keepSuffix));
    assert Convert(raw, keepSuffix).value.height == Expanded(df, keepSuffix).height;
  }

  /** Year holds the year found in the sheet on every output row. */
  lemma ConvertYear(raw: Sheet, keepSuffix: bool)
    requires Convert(raw, keepSuffix).Success?
    ensures Lookup(Convert(raw, keepSuffix).value, "Year") ==
      Some(Constant(|OutputRows(raw, keepSuffix)|, Text(YearOf(raw))))
  {
    var df := ConvertStages(raw, keepSuffix);
    CopiedColumns();
    ExpandedCopy(df, keepSuffix, "Year");
    SelectConstant(DataHeight(raw), Text(YearOf(raw)), OutputRows(raw, keepSuffix));
  }

  /**
   * Budget_Code and Budget_Type of each output row are the code and the
   * label of the nearest group marker at or above its data row (missing when
   * there is none); Expense_Code and Expense_Detail are the split of its
   * normalised account text.
   */
  lemma ConvertDerived(raw: Sheet, keepSuffix: bool)
    requires Convert(raw, keepSuffix).Success?
    ensures Lookup(Convert(raw, keepSuffix).value, "Budget_Code") == Some(CodesOf(AccountColumn(raw), keepSuffix))
    ensures Lookup(Convert(raw, keepSuffix).value, "Budget_Type") == Some(TypesOf(AccountColumn(raw), keepSuffix))
    ensures Lookup(Convert(raw, keepSuffix).value, "Expense_Code") == Some(ExpenseCodesOf(AccountColumn(raw), keepSuffix))
    ensures Lookup(Convert(raw, keepSuffix).value, "Expense_Detail") == Some(ExpenseDetailsOf(AccountColumn(raw), keepSuffix))
  {
    var df := ConvertStages(raw, keepSuffix);
    ExpandedDerived(df, keepSuffix);
  }

  /** The columns the output copies from the sheet, when the header names them. */
  const Amounts: seq<string> := Desired[5..]

  /**
   * Each amount column the header names holds, on each output row, the
   * sheet's cell of that column on the row's data row; an amount column the
   * header does not name is absent.
   */
  lemma ConvertAmounts(raw: Sheet, keepSuffix: bool)
    requires Convert(raw, keepSuffix).Success?
    ensures forall d :: d in Amounts ==>
      Lookup(Convert(raw, keepSuffix).value, d) ==
        if HeaderValues(raw, d).Some? then Some(Select(HeaderValues(raw, d).value, OutputRows(raw, keepSuffix))) else None
  {
    CopiedColumns();
    forall d | d in Amounts
      ensures Lookup(Convert(raw, keepSuffix).value, d) ==
        if HeaderValues(raw, d).Some? then Some(Select(HeaderValues(raw, d).value, OutputRows(raw, keepSuffix))) else None
    {
      OutputCopy(raw, keepSuffix, d);
    }
  }

  /** An output column copied from the sheet. */
  lemma OutputCopy(raw: Sheet, keepSuffix: bool, d: string)
    requires Convert(raw, keepSuffix).Success?
    requires d in Desired && d != "Year"
    requires d != "Budget_Code" && d != "Budget_Type" && d != "Expense_Code" && d != "Expense_Detail" && d != "Budget_Account"
    ensures Lookup(Convert(raw, keepSuffix).value, d) ==
      if HeaderValues(raw, d).Some? then Some(Select(HeaderValues(raw, d).value, OutputRows(raw, keepSuffix))) else None
  {
    var df := ConvertStages(raw, keepSuffix);
    ExpandedCopy(df, keepSuffix, d);
  }
}
