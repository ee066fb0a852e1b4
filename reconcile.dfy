/**
 * The "Recalcular" step (main.py:236-263) on values: what each of its seven
 * stages makes of the master table. Rows carry their pandas index label.
 */
module Reconcile {
  import opened Wrappers
  import opened Sorting
  import opened Codes
  import opened Rows

  /** A row of `df_master` together with its index label. */
  datatype Entry = Entry(index: nat, row: Row)

  /** The index of a table. */
  function Labels(t: seq<Entry>): (ls: set<nat>)
    ensures forall i :: 0 <= i < |t| ==> t[i].index in ls
  {
    if t == [] then {} else {t[0].index} + Labels(t[1..])
  }

  /** A label of the index belongs to some entry. */
  lemma {:induction false} LabelWitness(t: seq<Entry>, l: nat) returns (i: nat)
    requires l in Labels(t)
    ensures i < |t| && t[i].index == l
  {
    if t[0].index == l {
      i := 0;
    } else {
      var j := LabelWitness(t[1..], l);
      i := j + 1;
    }
  }

  /** No label occurs twice. */
  predicate DistinctLabels(t: seq<Entry>) {
    forall i, j :: 0 <= i < j < |t| ==> t[i].index != t[j].index
  }

  lemma {:induction false} NotALabel(t: seq<Entry>, l: nat)
    requires forall i :: 0 <= i < |t| ==> t[i].index != l
    ensures l !in Labels(t)
  {
    if t != [] {
      NotALabel(t[1..], l);
    }
  }

  /** In a label-distinct table the first label does not occur again. */
  lemma FirstLabelFresh(t: seq<Entry>)
    requires DistinctLabels(t) && t != []
    ensures t[0].index !in Labels(t[1..])
  {
    NotALabel(t[1..], t[0].index);
  }

  lemma {:induction false} DistinctLabelsCount(t: seq<Entry>)
    requires DistinctLabels(t)
    ensures |Labels(t)| == |t|
  {
    if t != [] {
      DistinctLabelsCount(t[1..]);
      FirstLabelFresh(t);
    }
  }

  // ------------------------------------------------------------- 1. delete

  /** `df.drop(index=d, errors='ignore')`: the entries whose label is not in `d`, in order. */
  function WithoutLabels(t: seq<Entry>, d: set<nat>): (r: seq<Entry>)
    ensures |r| <= |t|
    ensures forall e :: e in r <==> e in t && e.index !in d
  {
    if t == [] then []
    else (if t[0].index in d then [] else [t[0]]) + WithoutLabels(t[1..], d)
  }

  /** Dropping takes exactly the labels of `d` out of the index. */
  lemma {:induction false} LabelsWithout(t: seq<Entry>, d: set<nat>)
    ensures Labels(WithoutLabels(t, d)) == Labels(t) - d
  {
    if t != [] {
      LabelsWithout(t[1..], d);
      var head := if t[0].index in d then [] else [t[0]];
      var r := WithoutLabels(t, d);
      assert r == head + WithoutLabels(t[1..], d);
      LabelsConcat(head, WithoutLabels(t[1..], d));
    }
  }

  lemma {:induction false} LabelsConcat(a: seq<Entry>, b: seq<Entry>)
    ensures Labels(a + b) == Labels(a) + Labels(b)
  {
    if a == [] {
      assert a + b == b;
    } else {
      var ab := a + b;
      assert ab[1..] == a[1..] + b;
      assert ab[0] == a[0];
      LabelsConcat(a[1..], b);
      assert Labels(ab) == {a[0].index} + Labels(a[1..] + b);
    }
  }

  /**
   * With distinct labels, dropping removes one row per label of `d` that is in
   * the index, and no more.
   */
  lemma {:induction false} WithoutLabelsCount(t: seq<Entry>, d: set<nat>)
    requires DistinctLabels(t)
    ensures |WithoutLabels(t, d)| == |t| - |d * Labels(t)|
    ensures DistinctLabels(WithoutLabels(t, d))
  {
    if t != [] {
      var rest := t[1..];
      WithoutLabelsCount(rest, d);
      var l := t[0].index;
      FirstLabelFresh(t);
      assert Labels(t) == {l} + Labels(rest);
      if l in d {
        assert d * Labels(t) == {l} + d * Labels(rest);
      } else {
        assert d * Labels(t) == d * Labels(rest);
        var r := WithoutLabels(t, d);
        assert r == [t[0]] + WithoutLabels(rest, d);
        forall i, j | 0 <= i < j < |r| ensures r[i].index != r[j].index {
          if i == 0 {
            assert r[j] in WithoutLabels(rest, d);
            var k :| 0 <= k < |rest| && rest[k] == r[j];
            assert t[k + 1] == r[j];
          }
        }
      }
    }
  }

  // ---------------------------------------------------------- 2. overwrite

  /** The row `edited` files under label `l`, if any (the first one). */
  function Lookup(edited: seq<Entry>, l: nat): (r: Option<Row>)
    ensures r.Some? <==> l in Labels(edited)
    ensures r.Some? ==> Entry(l, r.value) in edited
  {
    if edited == [] then None
    else if edited[0].index == l then Some(edited[0].row)
    else Lookup(edited[1..], l)
  }

  /** With distinct labels, the row found is the one filed under `l`. */
  lemma {:induction false} LookupDistinct(edited: seq<Entry>, e: Entry)
    requires DistinctLabels(edited) && e in edited
    ensures Lookup(edited, e.index) == Some(e.row)
  {
    if edited[0] != e {
      assert e in edited[1..];
      var k :| 0 <= k < |edited[1..]| && edited[1..][k] == e;
      assert edited[k + 1] == e;
      LookupDistinct(edited[1..], e);
    }
  }

  /**
   * `df.loc[existing] = edited.loc[existing]`: a row whose label the edited table
   * holds takes the edited row; every other row is left as it is.
   */
  function Overwritten(t: seq<Entry>, edited: seq<Entry>): (r: seq<Entry>)
    ensures |r| == |t|
    ensures forall i :: 0 <= i < |r| ==> r[i].index == t[i].index
    ensures forall i :: 0 <= i < |r| && t[i].index !in Labels(edited) ==> r[i] == t[i]
    ensures forall i :: 0 <= i < |r| && t[i].index in Labels(edited) ==> r[i] in edited
  {
    seq(|t|, i requires 0 <= i < |t| =>
      match Lookup(edited, t[i].index)
      case Some(row) => Entry(t[i].index, row)
      case None => t[i])
  }

  // ------------------------------------------------------------- 3. append

  function LeLabel(a: Entry, b: Entry): bool {
    a.index <= b.index
  }

  lemma LeLabelTotalPreorder()
    ensures TotalPreorder(LeLabel)
  {
  }

  /**
   * `pd.concat([df, edited.loc[new]])` where `new` is the edited labels the table
   * lacks; `Index.difference` returns them sorted, so they come in ascending label order.
   */
  function Appended(t: seq<Entry>, edited: seq<Entry>): (r: seq<Entry>)
    ensures |r| >= |t| && r[..|t|] == t
    ensures forall i :: |t| <= i < |r| ==> r[i] in edited && r[i].index !in Labels(t)
  {
    var added := SortBy(WithoutLabels(edited, Labels(t)), LeLabel);
    assert forall i :: 0 <= i < |added| ==> added[i] in multiset(WithoutLabels(edited, Labels(t)));
    t + added
  }

  /**
   * The appended rows are exactly the edited rows with a label new to the table,
   * in ascending label order.
   */
  lemma AppendedRows(t: seq<Entry>, edited: seq<Entry>)
    ensures var added := Appended(t, edited)[|t|..];
            && (forall e :: e in added <==> e in edited && e.index !in Labels(t))
            && Sorted(added, LeLabel)
  {
    var n := WithoutLabels(edited, Labels(t));
    LeLabelTotalPreorder();
    SortByIsSorted(n, LeLabel);
    var added := Appended(t, edited)[|t|..];
    assert added == SortBy(n, LeLabel);
    forall e ensures e in added <==> e in n {
      assert e in added <==> e in multiset(added);
      assert e in n <==> e in multiset(n);
    }
  }

  // --------------------------------------------------------------- 4. fill

  const NewSystem := "NUEVO SISTEMA"
  const DefaultUnit := "Und."

  /** `fillna` on Partida, Descripcion, Codigo and Unidades: only missing cells change. */
  function FillRow(r: Row): (f: Row)
    ensures f.partida.Some? && f.descripcion.Some? && f.codigo.Some? && f.unidades.Some?
    ensures r.partida.Some? ==> f.partida == r.partida
    ensures r.descripcion.Some? ==> f.descripcion == r.descripcion
    ensures r.codigo.Some? ==> f.codigo == r.codigo
    ensures r.unidades.Some? ==> f.unidades == r.unidades
    ensures r.partida.None? ==> f.partida == Some(NewSystem)
    ensures r.descripcion.None? ==> f.descripcion == Some("")
    ensures r.codigo.None? ==> f.codigo == Some(Sentinel)
    ensures r.unidades.None? ==> f.unidades == Some(DefaultUnit)
    ensures f.item == r.item && f.cantidad == r.cantidad && f.precio == r.precio && f.total == r.total
  {
    r.(partida := Some(r.partida.GetOr(NewSystem)),
       descripcion := Some(r.descripcion.GetOr("")),
       codigo := Some(r.codigo.GetOr(Sentinel)),
       unidades := Some(r.unidades.GetOr(DefaultUnit)))
  }

  function Filled(t: seq<Entry>): (r: seq<Entry>)
    ensures |r| == |t|
    ensures forall i :: 0 <= i < |r| ==> r[i] == Entry(t[i].index, FillRow(t[i].row))
  {
    seq(|t|, i requires 0 <= i < |t| => Entry(t[i].index, FillRow(t[i].row)))
  }

  // ----------------------------------------------------------- 5. the math

  /**
   * `to_numeric(errors='coerce').fillna(0)` on Cantidad and Precio, then
   * Total = Cantidad * Precio.
   */
  function RecomputeRow(r: Row): (f: Row)
    ensures Consistent(f)
    ensures f.cantidad == Some(r.cantidad.GetOr(0.0)) && f.precio == Some(r.precio.GetOr(0.0))
    ensures f.item == r.item && f.partida == r.partida && f.codigo == r.codigo
    ensures f.descripcion == r.descripcion && f.unidades == r.unidades
  {
    var c := r.cantidad.GetOr(0.0);
    var p := r.precio.GetOr(0.0);
    var f := r.(cantidad := Some(c), precio := Some(p), total := Some(c * p));
    assert f.cantidad.value * f.precio.value == c * p;
    f
  }

  function Recomputed(t: seq<Entry>): (r: seq<Entry>)
    ensures |r| == |t|
    ensures forall i :: 0 <= i < |r| ==> r[i] == Entry(t[i].index, RecomputeRow(t[i].row))
  {
    seq(|t|, i requires 0 <= i < |t| => Entry(t[i].index, RecomputeRow(t[i].row)))
  }

  /** Cleaning (stages 4 and 5) leaves a complete, consistent row as it is. */
  lemma CleanKeepsCompleteRow(r: Row)
    requires Complete(r) && Consistent(r)
    ensures RecomputeRow(FillRow(r)) == r
  {
    var f := FillRow(r);
    assert f == r;
    var c := RecomputeRow(f);
    assert c.cantidad.value * c.precio.value == r.cantidad.value * r.precio.value;
    assert c.total.value == r.total.value;
    assert c.total == Some(c.total.value) && r.total == Some(r.total.value);
    assert c.cantidad == r.cantidad && c.precio == r.precio && c.total == r.total;
  }

  /** After cleaning, every cell but Item holds a value and Total = Cantidad * Precio. */
  lemma CleanCompletes(r: Row)
    ensures CleanRow(RecomputeRow(FillRow(r))) && RecomputeRow(FillRow(r)).item == r.item
  {
  }

  // ------------------------------------------------------ 6. sort, renumber

  /** `sort_values(by='Item', na_position='last')`: a missing Item sorts after every number. */
  function LeItem(a: Entry, b: Entry): bool {
    match (a.row.item, b.row.item)
    case (_, None) => true
    case (None, Some(_)) => false
    case (Some(x), Some(y)) => x <= y
  }

  lemma LeItemTotalPreorder()
    ensures TotalPreorder(LeItem)
  {
  }

  /** `reset_index(drop=True)` and `Item = range(1, N + 1)`. */
  function Renumbered(t: seq<Entry>): (r: seq<Entry>)
    ensures |r| == |t|
    ensures forall i :: 0 <= i < |r| ==> r[i].index == i && r[i].row == t[i].row.(item := Some(i + 1))
  {
    seq(|t|, i requires 0 <= i < |t| => Entry(i, t[i].row.(item := Some(i + 1))))
  }

  // --------------------------------------------------------------- whole step

  /** The labels the user removed: shown in the view but absent from the edited table. */
  function Deleted(view: set<nat>, edited: seq<Entry>): set<nat> {
    view - Labels(edited)
  }

  /**
   * The table after stages 1-3 (delete, overwrite, append): every row in it
   * comes from the old table or from the edited one; none is made up.
   */
  function Merged(t: seq<Entry>, view: set<nat>, edited: seq<Entry>): (r: seq<Entry>)
    ensures forall i :: 0 <= i < |r| ==> r[i] in t || r[i] in edited
  {
    var kept := WithoutLabels(t, Deleted(view, edited));
    var o := Overwritten(kept, edited);
    assert forall i :: 0 <= i < |o| ==> o[i] in t || o[i] in edited by {
      forall i | 0 <= i < |o| ensures o[i] in t || o[i] in edited {
        assert kept[i] in kept;
      }
    }
    Appended(o, edited)
  }

  /**
   * The table after stages 1-5, in the order the sort receives it: row for row
   * the merged table, each row now clean.
   */
  function Cleaned(t: seq<Entry>, view: set<nat>, edited: seq<Entry>): (r: seq<Entry>)
    ensures |r| == |Merged(t, view, edited)|
    ensures forall i :: 0 <= i < |r| ==>
              r[i].index == Merged(t, view, edited)[i].index && CleanRow(r[i].row)
  {
    Recomputed(Filled(Merged(t, view, edited)))
  }

  /**
   * The master table after one press of "Recalcular" (main.py:236-263): as many
   * rows as the merged table, under a fresh index and numbered 1..N.
   */
  function Reconciled(t: seq<Entry>, view: set<nat>, edited: seq<Entry>): (r: seq<Entry>)
    ensures |r| == |Merged(t, view, edited)|
    ensures forall i :: 0 <= i < |r| ==> r[i].index == i && r[i].row.item == Some(i + 1)
  {
    var c := Cleaned(t, view, edited);
    var s := SortBy(c, LeItem);
    assert |s| == |c| by {
      assert |multiset(s)| == |multiset(c)|;
    }
    Renumbered(s)
  }

  /** The state the table is in after the initial load and after every recalculation. */
  ghost predicate CanonicalTable(t: seq<Entry>) {
    forall i :: 0 <= i < |t| ==> t[i].index == i && Numbered(t[i].row, i)
  }

  /**
   * After a recalculation (main.py:251-263) every row has Partida, Descripcion,
   * Codigo and Unidades, numeric Cantidad and Precio, Total = Cantidad * Precio,
   * label = position and Item = position + 1 — whatever the table and the edits were.
   */
  lemma ReconciledCanonical(t: seq<Entry>, view: set<nat>, edited: seq<Entry>)
    ensures CanonicalTable(Reconciled(t, view, edited))
  {
    var c := Cleaned(t, view, edited);
    var s := SortBy(c, LeItem);
    forall i | 0 <= i < |s| ensures CleanRow(s[i].row) {
      assert s[i] in multiset(c);
      var k :| 0 <= k < |c| && c[k] == s[i];
      CleanCompletes(Filled(Merged(t, view, edited))[k].row);
    }
    RenumberedCanonical(s);
  }

  /** Every cell but Item holds a value, and Total = Cantidad * Precio. */
  predicate CleanRow(r: Row) {
    r.partida.Some? && r.descripcion.Some? && r.codigo.Some? && r.unidades.Some? && Consistent(r)
  }

  lemma RenumberedCanonical(s: seq<Entry>)
    requires forall i :: 0 <= i < |s| ==> CleanRow(s[i].row)
    ensures CanonicalTable(Renumbered(s))
  {
    var r := Renumbered(s);
    forall i | 0 <= i < |r| ensures r[i].index == i && Numbered(r[i].row, i) {
      assert r[i].row == s[i].row.(item := Some(i + 1));
    }
  }

  /**
   * The row order is a stable sort of the cleaned table by its Item before
   * renumbering, missing Items last (main.py:262): the rows are a permutation of
   * the cleaned rows, ascending by Item, and rows with equal Item keep their order.
   */
  lemma ReconciledOrder(t: seq<Entry>, view: set<nat>, edited: seq<Entry>)
    ensures var s := SortBy(Cleaned(t, view, edited), LeItem);
            && multiset(s) == multiset(Cleaned(t, view, edited))
            && Sorted(s, LeItem)
            && (forall k :: TiedWith(s, k, LeItem) == TiedWith(Cleaned(t, view, edited), k, LeItem))
            && (forall i :: 0 <= i < |s| ==>
                  Reconciled(t, view, edited)[i].row == s[i].row.(item := Some(i + 1)))
  {
    var c := Cleaned(t, view, edited);
    LeItemTotalPreorder();
    SortByIsSorted(c, LeItem);
    forall k ensures TiedWith(SortBy(c, LeItem), k, LeItem) == TiedWith(c, k, LeItem) {
      SortByIsStable(c, k, LeItem);
    }
  }

  /**
   * Deletion (main.py:237-239) removes exactly the rows whose label was shown in
   * the view and is missing from the edited table; a row the view did not show
   * is never deleted.
   */
  lemma DeletesOnlyRemovedRows(t: seq<Entry>, view: set<nat>, edited: seq<Entry>)
    ensures forall e :: e in t ==>
              (e in WithoutLabels(t, Deleted(view, edited)) <==> !(e.index in view && e.index !in Labels(edited)))
    ensures forall e :: e in t && e.index !in view ==> e in WithoutLabels(t, Deleted(view, edited))
  {
  }

  /**
   * Deletion and overwrite (main.py:237-243): a row of the table whose label
   * the view did not show and the edited table does not hold comes through both
   * stages unchanged.
   */
  lemma HiddenRowUntouched(t: seq<Entry>, view: set<nat>, edited: seq<Entry>, e: Entry)
    requires e in t && e.index !in view && e.index !in Labels(edited)
    ensures e in Overwritten(WithoutLabels(t, Deleted(view, edited)), edited)
    ensures e in Merged(t, view, edited)
  {
    var kept := WithoutLabels(t, Deleted(view, edited));
    var o := Overwritten(kept, edited);
    var k :| 0 <= k < |kept| && kept[k] == e;
    assert o[k] == e;
    assert o == Merged(t, view, edited)[..|o|];
  }

  /**
   * Overwrite (main.py:241-243): every remaining row whose label the edited
   * table holds becomes that edited row, and no other row changes.
   */
  lemma OverwriteTakesEditedRow(t: seq<Entry>, edited: seq<Entry>)
    requires DistinctLabels(edited)
    ensures forall i :: 0 <= i < |t| && t[i].index in Labels(edited) ==>
              Entry(t[i].index, Lookup(edited, t[i].index).value) in edited
              && Overwritten(t, edited)[i].row == Lookup(edited, t[i].index).value
    ensures forall i, e :: 0 <= i < |t| && e in edited && e.index == t[i].index ==>
              Overwritten(t, edited)[i] == e
  {
    forall i, e | 0 <= i < |t| && e in edited && e.index == t[i].index
      ensures Overwritten(t, edited)[i] == e
    {
      LookupDistinct(edited, e);
    }
  }

  /**
   * A row the view hid and the edits do not name survives the whole step: it is
   * in the new table, unchanged except for its new Item number.
   */
  lemma HiddenRowSurvives(t: seq<Entry>, view: set<nat>, edited: seq<Entry>, e: Entry)
    requires CanonicalTable(t)
    requires e in t && e.index !in view && e.index !in Labels(edited)
    ensures exists i :: 0 <= i < |Reconciled(t, view, edited)|
              && Reconciled(t, view, edited)[i].row == e.row.(item := Some(i + 1))
  {
    HiddenRowCleaned(t, view, edited, e);
    var s := SortBy(Cleaned(t, view, edited), LeItem);
    assert e in multiset(s);
    var i :| 0 <= i < |s| && s[i] == e;
    assert Reconciled(t, view, edited)[i].row == e.row.(item := Some(i + 1));
  }

  /** Such a row also comes through the clean-up stages unchanged. */
  lemma HiddenRowCleaned(t: seq<Entry>, view: set<nat>, edited: seq<Entry>, e: Entry)
    requires CanonicalTable(t)
    requires e in t && e.index !in view && e.index !in Labels(edited)
    ensures e in Cleaned(t, view, edited)
  {
    var m := Merged(t, view, edited);
    HiddenRowUntouched(t, view, edited, e);
    var k :| 0 <= k < |m| && m[k] == e;
    var j :| 0 <= j < |t| && t[j] == e;
    assert Numbered(t[j].row, j);
    CleanKeepsCompleteRow(e.row);
    assert Cleaned(t, view, edited)[k] == e;
  }

  /**
   * Row count after the append (main.py:246-248): the old count, less the rows
   * deleted, plus the edited rows whose label is new to the table.
   */
  lemma MergedCount(t: seq<Entry>, view: set<nat>, edited: seq<Entry>)
    requires DistinctLabels(t) && DistinctLabels(edited)
    ensures |Merged(t, view, edited)|
            == |t| - |Deleted(view, edited) * Labels(t)| + |Labels(edited) - Labels(t)|
    ensures DistinctLabels(Merged(t, view, edited))
    ensures |Reconciled(t, view, edited)| == |Merged(t, view, edited)|
  {
    var d := Deleted(view, edited);
    var kept := WithoutLabels(t, d);
    WithoutLabelsCount(t, d);
    LabelsWithout(t, d);
    var o := Overwritten(kept, edited);
    OverwrittenLabels(kept, edited);
    AppendedCount(o, edited);
    assert Labels(edited) - Labels(o) == Labels(edited) - Labels(t);
    var c := Cleaned(t, view, edited);
    assert |SortBy(c, LeItem)| == |c| by {
      assert |multiset(SortBy(c, LeItem))| == |multiset(c)|;
    }
  }

  /** Overwriting keeps the labels, so it keeps them distinct. */
  lemma OverwrittenLabels(t: seq<Entry>, edited: seq<Entry>)
    requires DistinctLabels(t)
    ensures Labels(Overwritten(t, edited)) == Labels(t)
    ensures DistinctLabels(Overwritten(t, edited))
  {
    LabelsEqual(Overwritten(t, edited), t);
  }

  /** The append adds one row per edited label new to the table, and keeps labels distinct. */
  lemma AppendedCount(o: seq<Entry>, edited: seq<Entry>)
    requires DistinctLabels(o) && DistinctLabels(edited)
    ensures |Appended(o, edited)| == |o| + |Labels(edited) - Labels(o)|
    ensures DistinctLabels(Appended(o, edited))
  {
    var n := WithoutLabels(edited, Labels(o));
    WithoutLabelsCount(edited, Labels(o));
    DistinctLabelsCount(edited);
    var added, kept := Labels(edited) - Labels(o), Labels(o) * Labels(edited);
    assert Labels(edited) == added + kept && added !! kept;
    var a := SortBy(n, LeLabel);
    assert |a| == |n| by {
      assert |multiset(a)| == |multiset(n)|;
    }
    AppendDistinct(o, n, a);
  }

  lemma {:induction false} LabelsEqual(a: seq<Entry>, b: seq<Entry>)
    requires |a| == |b| && forall i :: 0 <= i < |a| ==> a[i].index == b[i].index
    ensures Labels(a) == Labels(b)
  {
    if a != [] {
      LabelsEqual(a[1..], b[1..]);
    }
  }

  /** Appending a permutation of label-distinct rows whose labels are new keeps labels distinct. */
  lemma AppendDistinct(o: seq<Entry>, n: seq<Entry>, a: seq<Entry>)
    requires DistinctLabels(o) && DistinctLabels(n)
    requires multiset(a) == multiset(n)
    requires forall e :: e in n ==> e.index !in Labels(o)
    ensures DistinctLabels(o + a)
  {
    forall i, j | 0 <= i < j < |a| ensures a[i].index != a[j].index {
      assert a[i] in multiset(n) && a[j] in multiset(n);
      var p :| 0 <= p < |n| && n[p] == a[i];
      var q :| 0 <= q < |n| && n[q] == a[j];
      if a[i] == a[j] {
        RepeatCounts(a, i, j);
        SingleOccurrence(n, p);
      }
    }
    forall i, j | 0 <= i < |o| && 0 <= j < |a| ensures o[i].index != a[j].index {
      assert a[j] in multiset(n);
    }
  }

  lemma RepeatCounts(a: seq<Entry>, i: nat, j: nat)
    requires i < j < |a| && a[i] == a[j]
    ensures multiset(a)[a[i]] >= 2
  {
    assert a == a[..j] + a[j..];
    assert a[..j][i] == a[i];
    assert a[j..][0] == a[j];
  }

  /** In a label-distinct table every entry occurs once. */
  lemma {:induction false} SingleOccurrence(n: seq<Entry>, p: nat)
    requires DistinctLabels(n) && p < |n|
    ensures multiset(n)[n[p]] == 1
  {
    if p == 0 {
      assert n == [n[0]] + n[1..];
      assert n[0] !in n[1..];
    } else {
      assert n == [n[0]] + n[1..];
      SingleOccurrence(n[1..], p - 1);
      assert n[0] != n[p];
    }
  }

  // --------------------------------------------------- recalculating unedited rows

  /** Dropping labels the table does not hold changes nothing. */
  lemma {:induction false} WithoutAbsentLabels(t: seq<Entry>, d: set<nat>)
    requires forall i :: 0 <= i < |t| ==> t[i].index !in d
    ensures WithoutLabels(t, d) == t
  {
    if t != [] {
      WithoutAbsentLabels(t[1..], d);
      assert [t[0]] + t[1..] == t;
    }
  }

  /**
   * Overwriting row `i` of `t` from edits that only hold rows of `u`, where `t`
   * and `u` both carry label `i` at position `i` and every row where they differ
   * is among the edits, gives `u`.
   */
  lemma OverwrittenTo(t: seq<Entry>, u: seq<Entry>, edited: seq<Entry>)
    requires |u| == |t|
    requires forall i :: 0 <= i < |t| ==> t[i].index == i && u[i].index == i
    requires forall e :: e in edited ==> e in u
    requires forall i :: 0 <= i < |t| && u[i] != t[i] ==> u[i] in edited
    ensures Overwritten(t, edited) == u
  {
    var o := Overwritten(t, edited);
    forall i | 0 <= i < |t| ensures o[i] == u[i] {
      if t[i].index in Labels(edited) {
        var row := Lookup(edited, i).value;
        assert Entry(i, row) in u;
        var j :| 0 <= j < |u| && u[j] == Entry(i, row);
        assert j == i;
      }
    }
  }

  /** Edits whose labels the table already holds append nothing. */
  lemma AppendedNothing(t: seq<Entry>, edited: seq<Entry>)
    requires forall e :: e in edited ==> e.index in Labels(t)
    ensures Appended(t, edited) == t
  {
    var n := WithoutLabels(edited, Labels(t));
    assert SortBy(n, LeLabel) == [];
  }

  /**
   * Stages 1-3 when the user deleted nothing (every row the view showed is in the
   * edits) and the edits only hold rows of `u`, which differs from `t` only in
   * edited rows: the merged table is `u`.
   */
  lemma MergedTo(t: seq<Entry>, u: seq<Entry>, view: set<nat>, edited: seq<Entry>)
    requires |u| == |t|
    requires forall i :: 0 <= i < |t| ==> t[i].index == i && u[i].index == i
    requires forall e :: e in edited ==> e in u
    requires forall i :: 0 <= i < |t| && u[i] != t[i] ==> u[i] in edited
    requires view <= Labels(edited)
    ensures Merged(t, view, edited) == u
  {
    assert Deleted(view, edited) == {};
    WithoutAbsentLabels(t, {});
    OverwrittenTo(t, u, edited);
    forall e | e in edited ensures e.index in Labels(u) {
      var j :| 0 <= j < |u| && u[j] == e;
    }
    AppendedNothing(u, edited);
  }

  /** A table numbered 1..N under labels 0..N-1 is left as it is by stages 6 and 7. */
  lemma RenumberedNumbered(s: seq<Entry>)
    requires forall i :: 0 <= i < |s| ==> s[i].index == i && s[i].row.item == Some(i + 1)
    ensures Renumbered(SortBy(s, LeItem)) == s
  {
    assert Sorted(s, LeItem);
    SortBySorted(s, LeItem);
    var r := Renumbered(s);
    forall i | 0 <= i < |s| ensures r[i] == s[i] {
      assert s[i].row.(item := Some(i + 1)) == s[i].row;
    }
  }

  /**
   * Pressing "Recalcular" without changing anything changes nothing: when the
   * user deleted no row the view showed and every edited row is a row of the
   * table as it stands, the table after the step is the table before it.
   */
  lemma ReconciledUnedited(t: seq<Entry>, view: set<nat>, edited: seq<Entry>)
    requires CanonicalTable(t)
    requires forall e :: e in edited ==> e in t
    requires view <= Labels(edited)
    ensures Reconciled(t, view, edited) == t
  {
    MergedTo(t, t, view, edited);
    forall i | 0 <= i < |t| ensures RecomputeRow(FillRow(t[i].row)) == t[i].row {
      assert Numbered(t[i].row, i);
      CleanKeepsCompleteRow(t[i].row);
    }
    CleanedTo(t, t);
    RenumberedNumbered(t);
  }

  /** Stages 4 and 5 on a table `m`, given what they make of each row. */
  lemma CleanedTo(m: seq<Entry>, w: seq<Entry>)
    requires |w| == |m|
    requires forall i :: 0 <= i < |m| ==> w[i].index == m[i].index && RecomputeRow(FillRow(m[i].row)) == w[i].row
    ensures Recomputed(Filled(m)) == w
  {
  }

  /** A second press of "Recalcular" with nothing changed keeps the table the first one made. */
  lemma ReconciledAgain(t: seq<Entry>, view: set<nat>, edited: seq<Entry>, view2: set<nat>, edited2: seq<Entry>)
    requires forall e :: e in edited2 ==> e in Reconciled(t, view, edited)
    requires view2 <= Labels(edited2)
    ensures Reconciled(Reconciled(t, view, edited), view2, edited2) == Reconciled(t, view, edited)
  {
    ReconciledCanonical(t, view, edited);
    ReconciledUnedited(Reconciled(t, view, edited), view2, edited2);
  }

  /** The table the editor returns after the Precio of row `k` is set to `p`. */
  function WithPrecio(t: seq<Entry>, k: nat, p: real): (u: seq<Entry>)
    requires k < |t|
    ensures |u| == |t| && u[k].row.precio == Some(p)
    ensures forall i :: 0 <= i < |t| && i != k ==> u[i] == t[i]
  {
    t[k := Entry(t[k].index, t[k].row.(precio := Some(p)))]
  }

  /**
   * Editing one price: when the only change is the Precio of row `k` (the edits
   * hold that row and otherwise only rows of the table, and nothing the view
   * showed was deleted), the step changes that row's Precio and its Total, now
   * Cantidad * new Precio, and nothing else: every other row, every Item and the
   * row order stay as they were.
   */
  lemma ReconciledPriceEdit(t: seq<Entry>, view: set<nat>, edited: seq<Entry>, k: nat, p: real)
    requires CanonicalTable(t) && k < |t|
    requires WithPrecio(t, k, p)[k] in edited
    requires forall e :: e in edited ==> e in WithPrecio(t, k, p)
    requires view <= Labels(edited)
    ensures |Reconciled(t, view, edited)| == |t|
    ensures forall i :: 0 <= i < |t| && i != k ==> Reconciled(t, view, edited)[i] == t[i]
    ensures Reconciled(t, view, edited)[k]
            == Entry(k, t[k].row.(precio := Some(p), total := Reconciled(t, view, edited)[k].row.total))
    ensures Consistent(Reconciled(t, view, edited)[k].row)
  {
    var u := WithPrecio(t, k, p);
    MergedTo(t, u, view, edited);
    var w := t[k := Entry(k, RecomputeRow(FillRow(u[k].row)))];
    PriceEditRows(t, k, p, w);
    CleanedTo(u, w);
    RenumberedNumbered(w);
    assert u[k].row == t[k].row.(precio := Some(p));
    PriceEditCleaned(t[k].row, p);
  }

  /** Row by row, cleaning the edited table gives the table with row `k` cleaned. */
  lemma PriceEditRows(t: seq<Entry>, k: nat, p: real, w: seq<Entry>)
    requires CanonicalTable(t) && k < |t|
    requires w == t[k := Entry(k, RecomputeRow(FillRow(WithPrecio(t, k, p)[k].row)))]
    ensures |w| == |WithPrecio(t, k, p)|
    ensures forall i :: 0 <= i < |w| ==>
              && w[i].index == WithPrecio(t, k, p)[i].index
              && RecomputeRow(FillRow(WithPrecio(t, k, p)[i].row)) == w[i].row
    ensures forall i :: 0 <= i < |w| ==> w[i].index == i && w[i].row.item == Some(i + 1)
  {
    var u := WithPrecio(t, k, p);
    forall i | 0 <= i < |u|
      ensures w[i].index == u[i].index && RecomputeRow(FillRow(u[i].row)) == w[i].row
    {
      assert Numbered(t[i].row, i);
      if i != k {
        assert u[i] == t[i] && w[i] == t[i];
        CleanKeepsCompleteRow(t[i].row);
      }
    }
    forall i | 0 <= i < |w| ensures w[i].index == i && w[i].row.item == Some(i + 1) {
      assert Numbered(t[i].row, i);
      assert u[i].row.item == t[i].row.item;
    }
  }

  /** Cleaning a complete row whose Precio was changed recomputes its Total and nothing else. */
  lemma PriceEditCleaned(r: Row, p: real)
    requires Complete(r)
    ensures var f := RecomputeRow(FillRow(r.(precio := Some(p))));
            f == r.(precio := Some(p), total := f.total) && Consistent(f)
  {
    var e := r.(precio := Some(p));
    assert FillRow(e) == e;
  }
}
