/**
 * `st.session_state.df_master`: the quotation table the page keeps between
 * reruns. It is loaded once from the two spreadsheets (main.py:164-183) and
 * changed in place, stage by stage, when "Recalcular" is pressed (main.py:236-263).
 */
module Master {
  import opened Sorting
  import opened Rows
  import opened Merge
  import opened Reconcile
  import opened Sums
  import opened Grouping
  import opened Totals

  /** Rows under a fresh `RangeIndex`: row `i` has label `i`. */
  function Labelled(rows: seq<Row>): (t: seq<Entry>)
    ensures |t| == |rows|
    ensures forall i :: 0 <= i < |t| ==> t[i] == Entry(i, rows[i])
  {
    seq(|rows|, i requires 0 <= i < |rows| => Entry(i, rows[i]))
  }

  lemma LabelledCanonical(rows: seq<Row>)
    requires forall i :: 0 <= i < |rows| ==> Numbered(rows[i], i)
    ensures CanonicalTable(Labelled(rows))
  {
  }

  /** The initial load leaves the table in canonical form. */
  lemma LoadedCanonical(cs: seq<PriceLine>, ps: seq<ProjectLine>)
    ensures CanonicalTable(Labelled(InitialTable(cs, ps)))
  {
    InitialTableCanonical(cs, ps);
    LabelledCanonical(InitialTable(cs, ps));
  }

  /** The rows of a table, without their labels. */
  function RowsOf(t: seq<Entry>): (rows: seq<Row>)
    ensures |rows| == |t|
    ensures forall i :: 0 <= i < |rows| ==> rows[i] == t[i].row
  {
    seq(|t|, i requires 0 <= i < |t| => t[i].row)
  }

  /**
   * On a table in canonical form (after the load or a recalculation) the
   * summary is consistent (main.py:268, 278): the net total is the sum of
   * Cantidad * Precio, and the per-Partida subtotals add up to it.
   */
  lemma CanonicalTotals(t: seq<Entry>)
    requires CanonicalTable(t)
    ensures NetTotal(RowsOf(t)) == Sum(RowsOf(t), LineAmount)
    ensures Total(Subtotals(RowsOf(t))) == NetTotal(RowsOf(t))
  {
    var rows := RowsOf(t);
    forall i | 0 <= i < |rows| ensures Consistent(rows[i]) && rows[i].partida.Some? {
      assert Numbered(t[i].row, i);
    }
    NetTotalOfConsistent(rows);
    SubtotalsAddUpToNet(rows);
  }

  class MasterTable {
    var entries: seq<Entry>

    /** Between two presses of the button the table is in canonical form. */
    ghost predicate Valid()
      reads this
    {
      CanonicalTable(entries)
    }

    /** The initial load (main.py:164-183), from already parsed catalog and project lines. */
    constructor Load(cs: seq<PriceLine>, ps: seq<ProjectLine>)
      ensures entries == Labelled(InitialTable(cs, ps))
      ensures Valid()
    {
      LoadedCanonical(cs, ps);
      entries := Labelled(InitialTable(cs, ps));
    }

    /** Stage 1 (main.py:237-239): drop the rows shown in the view and missing from the edits. */
    method DropDeleted(view: set<nat>, edited: seq<Entry>)
      modifies this
      ensures entries == WithoutLabels(old(entries), Deleted(view, edited))
    {
      entries := WithoutLabels(entries, Deleted(view, edited));
    }

    /** Stage 2 (main.py:241-243): overwrite the rows whose label the edits hold. */
    method OverwriteExisting(edited: seq<Entry>)
      modifies this
      ensures entries == Overwritten(old(entries), edited)
    {
      entries := Overwritten(entries, edited);
    }

    /** Stage 3 (main.py:245-248): append the edited rows whose label is new. */
    method AppendNew(edited: seq<Entry>)
      modifies this
      ensures entries == Appended(old(entries), edited)
    {
      entries := Appended(entries, edited);
    }

    /** Stage 4 (main.py:251-254): fill missing text cells with their defaults. */
    method FillMissing()
      modifies this
      ensures entries == Filled(old(entries))
    {
      entries := Filled(entries);
    }

    /** Stage 5 (main.py:257-259): numeric Cantidad and Precio, Total recomputed. */
    method RecomputeTotals()
      modifies this
      ensures entries == Recomputed(old(entries))
    {
      entries := Recomputed(entries);
    }

    /** Stage 6 (main.py:262-263): sort by Item, missing last, reset the index and renumber. */
    method SortAndRenumber()
      modifies this
      ensures entries == Renumbered(SortBy(old(entries), LeItem))
    {
      entries := Renumbered(SortBy(entries, LeItem));
    }

    /**
     * One press of "Recalcular": `view` is the index of the filtered view the
     * editor showed and `edited` the table it returned.
     */
    method Recalculate(view: set<nat>, edited: seq<Entry>)
      requires Valid()
      modifies this
      ensures entries == Reconciled(old(entries), view, edited)
      ensures Valid()
      // nothing deleted and nothing edited: the table stays as it was
      ensures (forall e :: e in edited ==> e in old(entries)) && view <= Labels(edited) ==> entries == old(entries)
    {
      DropDeleted(view, edited);
      OverwriteExisting(edited);
      AppendNew(edited);
      FillMissing();
      RecomputeTotals();
      SortAndRenumber();
      ReconciledCanonical(old(entries), view, edited);
      if (forall e :: e in edited ==> e in old(entries)) && view <= Labels(edited) {
        ReconciledUnedited(old(entries), view, edited);
      }
    }
  }
}
