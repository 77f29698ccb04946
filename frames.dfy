/**
 * The in-memory table the conversion works on, modelled on a pandas
 * DataFrame without its index: named columns of equal height, a column looked
 * up by name (`df[n]`), assigned (`df[n] = values`), dropped
 * (`df.drop(columns=[n])`), rows filtered in order (`dropna` followed by
 * `reset_index`) and columns projected (`df[[...]]`).
 */
module Frames {
  import opened Wrappers
  import opened Cells

  datatype Column = Column(name: string, values: seq<Cell>)

  datatype Frame = Frame(columns: seq<Column>, height: nat)

  /** Every column holds one value per row. */
  predicate WellFormed(f: Frame) {
    forall i :: 0 <= i < |f.columns| ==> |f.columns[i].values| == f.height
  }

  /** `df.columns`. */
  function Names(f: Frame): (r: seq<string>)
    ensures |r| == |f.columns|
    ensures forall i :: 0 <= i < |r| ==> r[i] == f.columns[i].name
  {
    seq(|f.columns|, i requires 0 <= i < |f.columns| => f.columns[i].name)
  }

  /** The position of the first occurrence of `n` in `names`. */
  function FirstIndex(names: seq<string>, n: string): (r: Option<nat>)
    ensures r.None? <==> n !in names
    ensures r.Some? ==> r.value < |names| && names[r.value] == n
    ensures r.Some? ==> forall j :: 0 <= j < r.value ==> names[j] != n
  {
    if names == [] then None
    else if names[0] == n then Some(0)
    else match FirstIndex(names[1..], n)
      case None => None
      case Some(i) => Some(i + 1)
  }

  /** `df[n]`: the values of the (first) column named `n`, if there is one. */
  function Lookup(f: Frame, n: string): (r: Option<seq<Cell>>)
    ensures r.Some? <==> n in Names(f)
    ensures WellFormed(f) && r.Some? ==> |r.value| == f.height
    ensures r.Some? ==> exists i :: (&& 0 <= i < |f.columns| && f.columns[i].name == n
                                     && (forall j :: 0 <= j < i ==> f.columns[j].name != n)
                                     && r.value == f.columns[i].values)
  {
    match FirstIndex(Names(f), n)
    case None => None
    case Some(i) => Some(f.columns[i].values)
  }

  /** Lookup in a frame seen as its first column followed by the rest. */
  lemma LookupCons(c: Column, cols: seq<Column>, h: nat, m: string)
    ensures Lookup(Frame([c] + cols, h), m) == if c.name == m then Some(c.values) else Lookup(Frame(cols, h), m)
  {
    var names := Names(Frame([c] + cols, h));
    assert names == [c.name] + Names(Frame(cols, h));
    assert names[1..] == Names(Frame(cols, h));
  }

  /** A frame with one constant column's worth of rows. */
  function Constant(h: nat, v: Cell): (r: seq<Cell>)
    ensures |r| == h && forall j :: 0 <= j < h ==> r[j] == v
  {
    seq(h, _ => v)
  }

  /** Any rows of a constant column form a constant column. */
  lemma SelectConstant(h: nat, v: Cell, idx: seq<nat>)
    requires forall k :: 0 <= k < |idx| ==> idx[k] < h
    ensures Select(Constant(h, v), idx) == Constant(|idx|, v)
  {
    assert forall k :: 0 <= k < |idx| ==> Select(Constant(h, v), idx)[k] == v;
  }

  /**
   * `df[n] = vals`: replaces the values of the column named `n` in place, or
   * appends a new column `n` at the right; no other column changes.
   */
  function SetColumn(f: Frame, n: string, vals: seq<Cell>): (r: Frame)
    requires WellFormed(f) && |vals| == f.height
    ensures WellFormed(r) && r.height == f.height
    ensures Names(r) == if n in Names(f) then Names(f) else Names(f) + [n]
    ensures Lookup(r, n) == Some(vals)
    ensures forall m :: m != n ==> Lookup(r, m) == Lookup(f, m)
    ensures forall i :: 0 <= i < |f.columns| && f.columns[i].name != n ==> r.columns[i] == f.columns[i]
  {
    match FirstIndex(Names(f), n)
    case Some(i) =>
      var r := Frame(f.columns[i := Column(n, vals)], f.height);
      assert Names(r) == Names(f);
      r
    case None =>
      var r := Frame(f.columns + [Column(n, vals)], f.height);
      assert Names(r) == Names(f) + [n];
      assert forall m :: m != n ==> FirstIndex(Names(r), m) == FirstIndex(Names(f), m) by {
        forall m | m != n ensures FirstIndex(Names(r), m) == FirstIndex(Names(f), m) {
          FirstIndexUnique(Names(r), m, FirstIndex(Names(f), m));
        }
      }
      FirstIndexUnique(Names(r), n, Some(|Names(f)|));
      r
  }

  /** Any position meeting the first-occurrence description is the one `FirstIndex` finds. */
  lemma FirstIndexUnique(names: seq<string>, n: string, k: Option<nat>)
    requires k.Some? ==> k.value < |names| && names[k.value] == n && forall j :: 0 <= j < k.value ==> names[j] != n
    requires k.None? ==> n !in names
    ensures FirstIndex(names, n) == k
  {
  }

  /** The ascending positions `j` at or after `from` with `keep[j]`. */
  function KeptFrom(keep: seq<bool>, from: nat): (idx: seq<nat>)
    requires from <= |keep|
    ensures forall k :: 0 <= k < |idx| ==> from <= idx[k] < |keep| && keep[idx[k]]
    ensures forall k, l :: 0 <= k < l < |idx| ==> idx[k] < idx[l]
    ensures forall j :: from <= j < |keep| && keep[j] ==> j in idx
    decreases |keep| - from
  {
    if from == |keep| then []
    else if keep[from] then [from] + KeptFrom(keep, from + 1)
    else KeptFrom(keep, from + 1)
  }

  /**
   * The positions of the rows a boolean mask keeps: every kept row, and only
   * kept rows, in their original order.
   */
  function Kept(keep: seq<bool>): (idx: seq<nat>)
    ensures forall k :: 0 <= k < |idx| ==> idx[k] < |keep| && keep[idx[k]]
    ensures forall k, l :: 0 <= k < l < |idx| ==> idx[k] < idx[l]
    ensures forall j :: 0 <= j < |keep| && keep[j] ==> j in idx
  {
    KeptFrom(keep, 0)
  }

  /** The values at the given positions, in the order the positions are listed. */
  function Select(xs: seq<Cell>, idx: seq<nat>): (r: seq<Cell>)
    requires forall k :: 0 <= k < |idx| ==> idx[k] < |xs|
    ensures |r| == |idx| && forall k :: 0 <= k < |idx| ==> r[k] == xs[idx[k]]
  {
    seq(|idx|, k requires 0 <= k < |idx| => xs[idx[k]])
  }

  /**
   * `df[mask].reset_index(drop=True)`: keeps the rows the mask selects, in
   * their original order, in every column.
   */
  function DropRows(f: Frame, keep: seq<bool>): (r: Frame)
    requires WellFormed(f) && |keep| == f.height
    ensures WellFormed(r) && Names(r) == Names(f) && r.height == |Kept(keep)|
    ensures forall m :: Lookup(f, m).Some? ==> Lookup(r, m) == Some(Select(Lookup(f, m).value, Kept(keep)))
    ensures forall m :: Lookup(f, m).None? ==> Lookup(r, m).None?
  {
    var idx := Kept(keep);
    var cols := seq(|f.columns|, i requires 0 <= i < |f.columns| =>
      Column(f.columns[i].name, Select(f.columns[i].values, idx)));
    var r := Frame(cols, |idx|);
    assert Names(r) == Names(f);
    r
  }

  /** The columns other than those named `n`, in order. */
  function Without(cols: seq<Column>, n: string): seq<Column> {
    if cols == [] then []
    else (if cols[0].name == n then [] else [cols[0]]) + Without(cols[1..], n)
  }

  lemma {:induction false} WithoutSubset(cols: seq<Column>, n: string)
    ensures forall c :: c in Without(cols, n) ==> c in cols && c.name != n
  {
    if cols != [] {
      WithoutSubset(cols[1..], n);
    }
  }

  lemma WithoutDropsName(cols: seq<Column>, n: string, h: nat)
    ensures n !in Names(Frame(Without(cols, n), h))
  {
    WithoutSubset(cols, n);
  }

  lemma {:induction false} WithoutLookup(cols: seq<Column>, n: string, h: nat, m: string)
    requires m != n
    ensures Lookup(Frame(Without(cols, n), h), m) == Lookup(Frame(cols, h), m)
  {
    if cols != [] {
      var c := cols[0];
      var rest := Without(cols[1..], n);
      WithoutLookup(cols[1..], n, h, m);
      assert cols == [c] + cols[1..];
      LookupCons(c, cols[1..], h, m);
      if c.name != n {
        assert Without(cols, n) == [c] + rest;
        LookupCons(c, rest, h, m);
      } else {
        assert Without(cols, n) == rest;
      }
    } else {
      assert Without(cols, n) == [];
    }
  }

  lemma WithoutKeeps(cols: seq<Column>, n: string, h: nat)
    ensures forall c :: c in Without(cols, n) ==> c in cols
    ensures n !in Names(Frame(Without(cols, n), h))
    ensures forall m :: m != n ==> Lookup(Frame(Without(cols, n), h), m) == Lookup(Frame(cols, h), m)
  {
    WithoutSubset(cols, n);
    WithoutDropsName(cols, n, h);
    forall m | m != n
      ensures Lookup(Frame(Without(cols, n), h), m) == Lookup(Frame(cols, h), m)
    {
      WithoutLookup(cols, n, h, m);
    }
  }

  /** `df.drop(columns=[n])`: removes every column named `n`; the others keep their values. */
  function DropColumn(f: Frame, n: string): (r: Frame)
    requires WellFormed(f)
    ensures WellFormed(r) && r.height == f.height
    ensures n !in Names(r)
    ensures forall m :: m != n ==> Lookup(r, m) == Lookup(f, m)
  {
    WithoutKeeps(f.columns, n, f.height);
    var r := Frame(Without(f.columns, n), f.height);
    assert forall c :: c in r.columns ==> |c.values| == f.height;
    r
  }

  /** `[d for d in ds if d in names]`. */
  function Present(ds: seq<string>, names: seq<string>): (r: seq<string>)
    ensures forall d :: d in r <==> d in ds && d in names
  {
    if ds == [] then []
    else (if ds[0] in names then [ds[0]] else []) + Present(ds[1..], names)
  }

  /** Which entries of `ds` are in `names`, position by position. */
  function PresentMask(ds: seq<string>, names: seq<string>): (keep: seq<bool>)
    ensures |keep| == |ds| && forall i :: 0 <= i < |ds| ==> (keep[i] <==> ds[i] in names)
  {
    seq(|ds|, i requires 0 <= i < |ds| => ds[i] in names)
  }

  /**
   * `Present` keeps the order of `ds`: its entries are `ds` at the positions
   * the mask keeps, which are ascending and are exactly those whose name is
   * in `names`.
   */
  lemma PresentInOrder(ds: seq<string>, names: seq<string>)
    ensures |Present(ds, names)| == |Kept(PresentMask(ds, names))|
    ensures forall k :: 0 <= k < |Present(ds, names)| ==>
      Present(ds, names)[k] == ds[Kept(PresentMask(ds, names))[k]]
  {
    PresentFrom(ds, names, PresentMask(ds, names), 0);
    assert ds[0..] == ds;
  }

  lemma {:induction false} PresentFrom(ds: seq<string>, names: seq<string>, keep: seq<bool>, from: nat)
    requires keep == PresentMask(ds, names) && from <= |ds|
    ensures |Present(ds[from..], names)| == |KeptFrom(keep, from)|
    ensures forall k :: 0 <= k < |KeptFrom(keep, from)| ==>
      Present(ds[from..], names)[k] == ds[KeptFrom(keep, from)[k]]
    decreases |ds| - from
  {
    if from < |ds| {
      PresentFrom(ds, names, keep, from + 1);
      PresentStep(ds, names, from);
      assert KeptFrom(keep, from) == (if keep[from] then [from] else []) + KeptFrom(keep, from + 1);
      IndexedCons(ds, Present(ds[from + 1..], names), KeptFrom(keep, from + 1), keep[from], from,
                  Present(ds[from..], names), KeptFrom(keep, from));
    }
  }

  /** Putting entry `i` in front keeps a list equal to `ds` at its positions. */
  lemma IndexedCons(ds: seq<string>, p: seq<string>, idx: seq<nat>, b: bool, i: nat,
                    p': seq<string>, idx': seq<nat>)
    requires i < |ds| && |p| == |idx|
    requires forall k :: 0 <= k < |idx| ==> idx[k] < |ds| && p[k] == ds[idx[k]]
    requires p' == (if b then [ds[i]] else []) + p && idx' == (if b then [i] else []) + idx
    ensures |p'| == |idx'| && forall k :: 0 <= k < |idx'| ==> p'[k] == ds[idx'[k]]
  {
  }

  lemma PresentStep(ds: seq<string>, names: seq<string>, from: nat)
    requires from < |ds|
    ensures Present(ds[from..], names) ==
      (if ds[from] in names then [ds[from]] else []) + Present(ds[from + 1..], names)
  {
    assert ds[from..][0] == ds[from] && ds[from..][1..] == ds[from + 1..];
  }

  /** Which names are present is all that `Present` looks at. */
  lemma {:induction false} PresentByMembership(ds: seq<string>, n1: seq<string>, n2: seq<string>)
    requires forall d :: d in ds ==> (d in n1 <==> d in n2)
    ensures Present(ds, n1) == Present(ds, n2)
  {
    if ds != [] {
      assert ds[0] in ds;
      assert forall d :: d in ds[1..] ==> d in ds;
      PresentByMembership(ds[1..], n1, n2);
    }
  }

  function ProjectColumns(f: Frame, ds: seq<string>): seq<Column> {
    if ds == [] then []
    else
      var rest := ProjectColumns(f, ds[1..]);
      match Lookup(f, ds[0])
      case Some(v) => [Column(ds[0], v)] + rest
      case None => rest
  }

  /** `cols`, at the height of `f`, is the projection of `f` on `ds`. */
  ghost predicate ProjectedFrom(cols: seq<Column>, f: Frame, ds: seq<string>) {
    && WellFormed(Frame(cols, f.height))
    && Names(Frame(cols, f.height)) == Present(ds, Names(f))
    && (forall m :: m in ds ==> Lookup(Frame(cols, f.height), m) == Lookup(f, m))
    && (forall m :: m !in ds ==> Lookup(Frame(cols, f.height), m).None?)
  }

  /** A name of `ds` that `f` has is added in front of the projection on the rest. */
  lemma ProjectPresent(f: Frame, ds: seq<string>, rest: seq<Column>, v: seq<Cell>)
    requires WellFormed(f) && ds != [] && Lookup(f, ds[0]) == Some(v)
    requires ProjectedFrom(rest, f, ds[1..])
    ensures ProjectedFrom([Column(ds[0], v)] + rest, f, ds)
  {
    var h := f.height;
    var c := Column(ds[0], v);
    assert Names(Frame([c] + rest, h)) == [ds[0]] + Names(Frame(rest, h));
    forall m ensures Lookup(Frame([c] + rest, h), m) == (if m in ds then Lookup(f, m) else None) {
      LookupCons(c, rest, h, m);
    }
  }

  /** A name of `ds` that `f` lacks adds nothing to the projection on the rest. */
  lemma ProjectAbsent(f: Frame, ds: seq<string>, rest: seq<Column>)
    requires WellFormed(f) && ds != [] && Lookup(f, ds[0]).None?
    requires ProjectedFrom(rest, f, ds[1..])
    ensures ProjectedFrom(rest, f, ds)
  {
    assert Present(ds, Names(f)) == Present(ds[1..], Names(f));
  }

  lemma {:induction false} ProjectColumnsSpec(f: Frame, ds: seq<string>)
    requires WellFormed(f)
    ensures ProjectedFrom(ProjectColumns(f, ds), f, ds)
  {
    if ds != [] {
      var rest := ProjectColumns(f, ds[1..]);
      ProjectColumnsSpec(f, ds[1..]);
      match Lookup(f, ds[0])
      case Some(v) =>
        ProjectPresent(f, ds, rest, v);
      case None =>
        ProjectAbsent(f, ds, rest);
    } else {
      assert Names(Frame([], f.height)) == [];
    }
  }

  /**
   * `df[[d for d in ds if d in df.columns]]`: the columns of `ds` that exist,
   * in the order of `ds`, each with its values; every other column is gone.
   */
  function Project(f: Frame, ds: seq<string>): (r: Frame)
    requires WellFormed(f)
    ensures WellFormed(r) && r.height == f.height
    ensures Names(r) == Present(ds, Names(f))
    ensures forall m :: m in ds ==> Lookup(r, m) == Lookup(f, m)
    ensures forall m :: m !in ds ==> Lookup(r, m).None?
  {
    ProjectColumnsSpec(f, ds);
    Frame(ProjectColumns(f, ds), f.height)
  }
}
