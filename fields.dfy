/**
 * The expense split and the final column order (app.py lines 120-132):
 * every remaining account text is cut at whitespace into an expense code
 * (the first word) and an expense detail (the other words, joined by
 * single spaces); the account column is dropped and the output keeps the
 * desired columns that exist, in the desired order.
 */
module Fields {
  import opened Wrappers
  import opened Strings
  import opened Cells
  import opened Frames

  /**
   * Lines 121-122 on one stripped account text: the first word, if there
   * is one, and the other words joined by single spaces.
   */
  function ExpenseFields(ba: string): (r: (Option<string>, string)) {
    var toks := Split(ba);
    if toks == [] then (None, "") else (Some(toks[0]), Join(toks[1..], " "))
  }

  lemma {:induction false} JoinTokensNonEmpty(toks: seq<string>)
    requires forall w :: w in toks ==> IsToken(w)
    ensures Join(toks, " ") == "" <==> toks == []
  {
    if |toks| > 1 {
      assert toks[0] in toks;
    } else if |toks| == 1 {
      assert toks[0] in toks;
    }
  }

  lemma ConcatTokensNonEmpty(toks: seq<string>)
    requires forall w :: w in toks ==> IsToken(w)
    ensures Concat(toks) == [] <==> toks == []
  {
    if toks != [] {
      assert toks[0] in toks;
    }
  }

  /**
   * The split loses no text and invents none: there is no code exactly when
   * the text has no non-whitespace character; the code is one word; the
   * code followed by the detail's non-whitespace characters is all the
   * non-whitespace of the text; splitting the detail again gives back the
   * other words; the detail is empty exactly when there are fewer than two
   * words; and with two or more words, code, a space and the detail
   * rebuild the words joined by single spaces.
   */
  lemma ExpenseFieldsSpec(ba: string)
    ensures ExpenseFields(ba).0.None? <==> NonSpace(ba) == []
    ensures ExpenseFields(ba).0.None? ==> ExpenseFields(ba).1 == ""
    ensures ExpenseFields(ba).0.Some? ==>
      var code, detail := ExpenseFields(ba).0.value, ExpenseFields(ba).1;
      && IsToken(code)
      && NonSpace(ba) == code + NonSpace(detail)
      && Split(detail) == Split(ba)[1..]
      && (detail == "" <==> |Split(ba)| == 1)
      && (|Split(ba)| >= 2 ==> code + " " + detail == Join(Split(ba), " "))
  {
    var toks := Split(ba);
    SplitKeepsText(ba);
    ConcatTokensNonEmpty(toks);
    if toks != [] {
      var detail := Join(toks[1..], " ");
      assert toks[0] in toks;
      assert forall w :: w in toks[1..] ==> w in toks;
      forall i | 0 <= i < |toks| - 1
        ensures IsToken(toks[1..][i])
      {
        assert toks[1..][i] in toks;
      }
      SplitJoinRoundTrip(toks[1..]);
      SplitKeepsText(detail);
      JoinTokensNonEmpty(toks[1..]);
      assert Concat(toks) == toks[0] + Concat(toks[1..]);
    }
  }

  /** Lines 120-122 on one account cell: (Expense_Code, Expense_Detail). */
  function SplitAccount(c: Cell): (r: (Cell, Cell))
    ensures c.Missing? ==> r == (Missing, Missing)
    ensures c.Text? && IsStripped(c.s) ==>
      r.0 == (if ExpenseFields(c.s).0.None? then Missing else Text(ExpenseFields(c.s).0.value))
      && r.1 == Text(ExpenseFields(c.s).1)
  {
    if c.Missing? then (Missing, Missing)
    else
      var fields := ExpenseFields(Strip(Render(c)));
      (if fields.0.None? then Missing else Text(fields.0.value), Text(fields.1))
  }

  function ExpenseCodes(ba: seq<Cell>): (r: seq<Cell>)
    ensures |r| == |ba| && forall i :: 0 <= i < |ba| ==> r[i] == SplitAccount(ba[i]).0
  {
    seq(|ba|, i requires 0 <= i < |ba| => SplitAccount(ba[i]).0)
  }

  function ExpenseDetails(ba: seq<Cell>): (r: seq<Cell>)
    ensures |r| == |ba| && forall i :: 0 <= i < |ba| ==> r[i] == SplitAccount(ba[i]).1
  {
    seq(|ba|, i requires 0 <= i < |ba| => SplitAccount(ba[i]).1)
  }

  /**
   * Lines 120-123: add Expense_Code and Expense_Detail computed from the
   * account column, then drop the account column.
   */
  function AddExpenseFields(f: Frame): (r: Frame)
    requires WellFormed(f) && Lookup(f, "Budget_Account").Some?
    ensures WellFormed(r) && r.height == f.height
  {
    var ba := Lookup(f, "Budget_Account").value;
    var f1 := SetColumn(f, "Expense_Code", ExpenseCodes(ba));
    var f2 := SetColumn(f1, "Expense_Detail", ExpenseDetails(ba));
    DropColumn(f2, "Budget_Account")
  }

  /**
   * After the split the account column is gone, the two expense columns
   * hold the split of every account cell, and every other column is as it
   * was.
   */
  lemma AddExpenseFieldsSpec(f: Frame)
    requires WellFormed(f) && Lookup(f, "Budget_Account").Some?
    ensures forall m :: m in Names(AddExpenseFields(f)) <==>
      (m in Names(f) || m == "Expense_Code" || m == "Expense_Detail") && m != "Budget_Account"
    ensures Lookup(AddExpenseFields(f), "Expense_Code") == Some(ExpenseCodes(Lookup(f, "Budget_Account").value))
    ensures Lookup(AddExpenseFields(f), "Expense_Detail") == Some(ExpenseDetails(Lookup(f, "Budget_Account").value))
    ensures forall m :: m != "Expense_Code" && m != "Expense_Detail" && m != "Budget_Account" ==>
      Lookup(AddExpenseFields(f), m) == Lookup(f, m)
  {
    var ba := Lookup(f, "Budget_Account").value;
    var f1 := SetColumn(f, "Expense_Code", ExpenseCodes(ba));
    var f2 := SetColumn(f1, "Expense_Detail", ExpenseDetails(ba));
    var r := DropColumn(f2, "Budget_Account");
    assert r == AddExpenseFields(f);
    forall m
      ensures m in Names(r) <==> (m in Names(f) || m == "Expense_Code" || m == "Expense_Detail") && m != "Budget_Account"
    {
      assert m in Names(r) <==> Lookup(r, m).Some?;
      assert m in Names(f) <==> Lookup(f, m).Some?;
      if m != "Budget_Account" {
        assert Lookup(r, m) == Lookup(f2, m);
        if m != "Expense_Detail" {
          assert Lookup(f2, m) == Lookup(f1, m);
        }
      }
    }
  }

  /** Lines 126-130: the output columns, in output order. */
  const Desired: seq<string> := [
    "Year", "Budget_Code", "Budget_Type",
    "Expense_Code", "Expense_Detail",
    "Budget", "PR/Reserved_Budget", "Accured/Paid", "Remaining_Balance", "Spent%"
  ]

  /** The account column is not among the output columns. */
  lemma DesiredOmitsAccount()
    ensures "Budget_Account" !in Desired
  {
    assert Desired[4] == "Expense_Detail" && Desired[4][0] != 'B';
  }

  /** Year and the five amount columns at the end of the output order are none of the derived ones. */
  lemma CopiedColumns()
    ensures "Year" in Desired
    ensures "Year" != "Budget_Code" && "Year" != "Budget_Type" && "Year" != "Expense_Code"
    ensures "Year" != "Expense_Detail" && "Year" != "Budget_Account"
    ensures forall d :: d in Desired[5..] ==>
      && d in Desired
      && d != "Year" && d != "Budget_Code" && d != "Budget_Type" && d != "Expense_Code" && d != "Expense_Detail"
      && d != "Budget_Account"
  {
  }
}
