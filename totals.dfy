/**
 * The money side of the quotation: the executive summary (main.py:268-271),
 * the per-Partida subtotals (main.py:278, 339) and the body of each chapter
 * of the PDF (main.py:90-131, 392-399).
 */
module Totals {
  import opened Wrappers
  import opened Text
  import opened Sums
  import opened Sorting
  import opened Grouping
  import opened Rows

  // ---------------------------------------------------------------- summary

  /** Peru's IGV, 18 %. */
  const IgvRate: real := 0.18

  /** The sum of the Total column; a missing Total adds nothing. */
  function NetTotal(rows: seq<Row>): real {
    Sum(rows, TotalOf)
  }

  datatype Summary = Summary(net: real, igv: real, venta: real, perHectare: real)

  /**
   * Net total, IGV, sale total and cost per hectare; the division is guarded,
   * so an area that is not positive gives a cost per hectare of 0.
   */
  function Summarize(rows: seq<Row>, area: real): (s: Summary)
    ensures s.net == NetTotal(rows)
    ensures s.igv == IgvRate * s.net
    ensures s.venta == s.net + s.igv && s.venta == 1.18 * s.net
    ensures area > 0.0 ==> s.perHectare * area == s.venta
    ensures area <= 0.0 ==> s.perHectare == 0.0
  {
    var net := NetTotal(rows);
    var igv := net * IgvRate;
    var venta := net + igv;
    Summary(net, igv, venta, if area > 0.0 then venta / area else 0.0)
  }

  /**
   * A priced line of 50 and an unpriced one (the merge gives a code missing from
   * the catalog Precio 0 and Total 0) on a 10 ha project: net 50, IGV 9, sale
   * total 59, 5.9 per hectare.
   */
  lemma SummaryExample(rows: seq<Row>)
    requires |rows| == 2 && rows[0].total == Some(50.0)
    requires rows[1].precio == Some(0.0) && rows[1].total == Some(0.0)
    ensures Summarize(rows, 10.0) == Summary(50.0, 9.0, 59.0, 5.9)
  {
    assert rows[1..][1..] == [];
    assert TotalOf(rows[0]) == 50.0 && TotalOf(rows[1]) == 0.0;
    assert Sum(rows[1..], TotalOf) == 0.0 + Sum(rows[1..][1..], TotalOf);
    assert NetTotal(rows) == 50.0 + Sum(rows[1..], TotalOf);
  }

  /** The amount a row contributes when printed: Cantidad * Precio. */
  function LineAmount(r: Row): real {
    r.cantidad.GetOr(0.0) * r.precio.GetOr(0.0)
  }

  /** On rows whose Total is Cantidad * Precio, the net total is the sum of those products. */
  lemma {:induction false} NetTotalOfConsistent(rows: seq<Row>)
    requires forall i :: 0 <= i < |rows| ==> Consistent(rows[i])
    ensures NetTotal(rows) == Sum(rows, LineAmount)
  {
    if rows != [] {
      NetTotalOfConsistent(rows[1..]);
      assert TotalOf(rows[0]) == LineAmount(rows[0]);
    }
  }

  // ------------------------------------------------------------- subtotals

  /** The (Partida, Total) pairs `groupby('Partida')` adds up; a row without Partida is dropped. */
  function PartidaTotals(rows: seq<Row>): (items: seq<(string, real)>)
    ensures |items| <= |rows|
  {
    if rows == [] then []
    else
      var last := rows[|rows| - 1];
      PartidaTotals(rows[..|rows| - 1])
        + (if last.partida.Some? then [(last.partida.value, TotalOf(last))] else [])
  }

  function LeName(a: (string, real), b: (string, real)): bool {
    StrCmp(a.0, b.0) <= 0
  }

  lemma LeNameTotalPreorder()
    ensures TotalPreorder(LeName)
    ensures forall a, b :: Tied(a, b, LeName) <==> a.0 == b.0
  {
    forall a: (string, real), b: (string, real) ensures LeName(a, b) || LeName(b, a) {
      StrCmpLaws(a.0, b.0, b.0);
    }
    forall a: (string, real), b: (string, real), c: (string, real) | LeName(a, b) && LeName(b, c)
      ensures LeName(a, c)
    {
      StrCmpLaws(a.0, b.0, c.0);
    }
    forall a: (string, real), b: (string, real) ensures Tied(a, b, LeName) <==> a.0 == b.0 {
      StrCmpLaws(a.0, b.0, b.0);
    }
  }

  /** `groupby('Partida')[['Total']].sum().reset_index()`: one subtotal per Partida, by name. */
  function Subtotals(rows: seq<Row>): seq<(string, real)> {
    SortBy(GroupSum(PartidaTotals(rows)), LeName)
  }

  /**
   * One subtotal per Partida that occurs, strictly ascending by name, each the
   * sum of the Totals of the rows of that Partida.
   */
  lemma SubtotalsTable(rows: seq<Row>)
    ensures DistinctKeys(Subtotals(rows))
    ensures Keys(Subtotals(rows)) == Keys(PartidaTotals(rows))
    ensures forall i :: 0 <= i < |Subtotals(rows)| ==>
              Subtotals(rows)[i].1 == SumFor(PartidaTotals(rows), Subtotals(rows)[i].0)
    ensures forall i, j :: 0 <= i < j < |Subtotals(rows)| ==>
              StrCmp(Subtotals(rows)[i].0, Subtotals(rows)[j].0) < 0
  {
    var items := PartidaTotals(rows);
    var gs := GroupSum(items);
    var r := Subtotals(rows);
    LeNameTotalPreorder();
    SortByIsSorted(gs, LeName);
    assert Untied(gs, LeName);
    SortByKeepsUntied(gs, LeName);
    forall i, j | 0 <= i < j < |r| ensures StrCmp(r[i].0, r[j].0) < 0 {
      StrCmpLaws(r[i].0, r[j].0, r[j].0);
    }
    KeysOfPermutation(r, gs);
    forall i | 0 <= i < |r| ensures r[i].1 == SumFor(items, r[i].0) {
      assert r[i] in multiset(gs);
    }
  }

  /** With a Partida on every row, the subtotals add up to the net total. */
  lemma SubtotalsAddUpToNet(rows: seq<Row>)
    requires forall i :: 0 <= i < |rows| ==> rows[i].partida.Some?
    ensures Total(Subtotals(rows)) == NetTotal(rows)
  {
    var items := PartidaTotals(rows);
    SumPermutation(Subtotals(rows), GroupSum(items), Value);
    GroupSumTotal(items);
    PartidaTotalsTotal(rows);
  }

  lemma {:induction false} PartidaTotalsTotal(rows: seq<Row>)
    requires forall i :: 0 <= i < |rows| ==> rows[i].partida.Some?
    ensures Total(PartidaTotals(rows)) == NetTotal(rows)
  {
    if rows != [] {
      var init, last := rows[..|rows| - 1], rows[|rows| - 1];
      PartidaTotalsTotal(init);
      assert rows == init + [last];
      SumConcat(init, [last], TotalOf);
      SumConcat(PartidaTotals(init), [(last.partida.value, TotalOf(last))], Value);
    }
  }

  // --------------------------------------------------------------- chapters

  /** `df[df['Partida'] == p]`: the rows of Partida `p`, in table order. */
  function PartidaRows(rows: seq<Row>, p: string): (r: seq<Row>)
    ensures |r| <= |rows|
  {
    if rows == [] then []
    else
      var last := rows[|rows| - 1];
      PartidaRows(rows[..|rows| - 1], p) + (if last.partida == Some(p) then [last] else [])
  }

  /** The chapter's rows are exactly the rows of Partida `p`. */
  lemma {:induction false} PartidaRowsMembers(rows: seq<Row>, p: string)
    ensures forall x :: x in PartidaRows(rows, p) <==> x in rows && x.partida == Some(p)
  {
    if rows != [] {
      var init, last := rows[..|rows| - 1], rows[|rows| - 1];
      PartidaRowsMembers(init, p);
      assert rows == init + [last];
    }
  }

  function GeTotal(a: Row, b: Row): bool {
    TotalOf(a) >= TotalOf(b)
  }

  lemma GeTotalTotalPreorder()
    ensures TotalPreorder(GeTotal)
  {
  }

  /** A chapter of the PDF: the rows of Partida `p`, largest Total first (main.py:394-396). */
  function ChapterRows(rows: seq<Row>, p: string): (r: seq<Row>)
    ensures multiset(r) == multiset(PartidaRows(rows, p))
  {
    SortBy(PartidaRows(rows, p), GeTotal)
  }

  /** What `chapter_body` sums: Cantidad * Precio over the chapter's rows. */
  function ChapterTotal(data: seq<Row>): real {
    Sum(data, LineAmount)
  }

  /** `str()` of a Descripcion cell: a missing value prints as "nan". */
  function DescText(d: Option<string>): string {
    if d.Some? then d.value else "nan"
  }

  /** The description as printed: over 60 characters, the first 60 followed by "..". */
  function Truncated(d: string): (r: string)
    ensures |r| <= 62
    ensures |d| <= 60 ==> r == d
    ensures |d| > 60 ==> |r| == 62 && r[..60] == d[..60] && r[60..] == ".."
  {
    if |d| > 60 then d[..60] + ".." else d
  }

  /** Truncating a printed description again changes nothing. */
  lemma TruncatedIdempotent(d: string)
    ensures Truncated(Truncated(d)) == Truncated(d)
  {
    if |d| > 60 {
      var r := Truncated(d);
      assert r[..60] + ".." == r;
    }
  }

  /** One printed line of a chapter; `shaded` is the alternating row fill. */
  datatype PrintedLine = PrintedLine(
    item: int, descripcion: string, cantidad: real, precio: real, total: real, shaded: bool)

  /**
   * Line `k` of a chapter shows row `r`: its Item, its description truncated,
   * Cantidad, Precio, their product, and a fill on every second line.
   */
  predicate PrintedAs(l: PrintedLine, r: Row, k: nat)
    requires r.item.Some? && r.cantidad.Some? && r.precio.Some?
  {
    && l.item == r.item.value
    && l.descripcion == Truncated(DescText(r.descripcion))
    && l.cantidad == r.cantidad.value
    && l.precio == r.precio.value
    && l.total == r.cantidad.value * r.precio.value
    && l.shaded == (k % 2 == 1)
  }

  /**
   * The loop of `chapter_body` (main.py:107-126): prints every row in order,
   * shading every second one, and returns the chapter total.
   */
  method ChapterBody(data: seq<Row>) returns (total: real, lines: seq<PrintedLine>)
    requires forall i :: 0 <= i < |data| ==> data[i].item.Some? && data[i].cantidad.Some? && data[i].precio.Some?
    ensures total == ChapterTotal(data)
    ensures |lines| == |data|
    ensures forall k :: 0 <= k < |lines| ==> PrintedAs(lines[k], data[k], k)
  {
    total := 0.0;
    var fill := false;
    lines := [];
    for i := 0 to |data|
      invariant total == ChapterTotal(data[..i])
      invariant fill == (i % 2 == 1)
      invariant |lines| == i
        invariant forall k :: 0 <= k < i ==> PrintedAs(lines[k], data[k], k)
    {
      var row := data[i];
      var desc := Truncated(DescText(row.descripcion));
      var totalItem := row.cantidad.value * row.precio.value;
      lines := lines + [PrintedLine(row.item.value, desc, row.cantidad.value, row.precio.value, totalItem, fill)];
      ChapterTotalStep(data, i);
      total := total + totalItem;
      fill := !fill;
    }
    assert data[..|data|] == data;
  }

  /** The chapter total over one more row grows by that row's Cantidad * Precio. */
  lemma ChapterTotalStep(data: seq<Row>, i: nat)
    requires i < |data| && data[i].cantidad.Some? && data[i].precio.Some?
    ensures ChapterTotal(data[..i + 1]) == ChapterTotal(data[..i]) + data[i].cantidad.value * data[i].precio.value
  {
    assert data[..i + 1] == data[..i] + [data[i]];
    SumConcat(data[..i], [data[i]], LineAmount);
  }

  /**
   * A chapter's total is its Partida's subtotal: on rows whose Total is
   * Cantidad * Precio, the sum `chapter_body` returns for Partida `p` equals the
   * `groupby('Partida')` sum for `p`, whatever order the chapter prints its rows in.
   */
  lemma ChapterTotalIsSubtotal(rows: seq<Row>, p: string)
    requires forall i :: 0 <= i < |rows| ==> Consistent(rows[i])
    ensures ChapterTotal(ChapterRows(rows, p)) == SumFor(PartidaTotals(rows), p)
  {
    SumPermutation(ChapterRows(rows, p), PartidaRows(rows, p), LineAmount);
    PartidaRowsSum(rows, p);
  }

  lemma {:induction false} PartidaRowsSum(rows: seq<Row>, p: string)
    requires forall i :: 0 <= i < |rows| ==> Consistent(rows[i])
    ensures Sum(PartidaRows(rows, p), LineAmount) == SumFor(PartidaTotals(rows), p)
  {
    if rows != [] {
      var init, last := rows[..|rows| - 1], rows[|rows| - 1];
      PartidaRowsSum(init, p);
      var items := PartidaTotals(rows);
      if last.partida.Some? {
        assert items == PartidaTotals(init) + [(last.partida.value, TotalOf(last))];
        assert items[..|items| - 1] == PartidaTotals(init);
        if last.partida == Some(p) {
          SumConcat(PartidaRows(init, p), [last], LineAmount);
          assert last.cantidad.GetOr(0.0) == last.cantidad.value && last.precio.GetOr(0.0) == last.precio.value;
          assert TotalOf(last) == LineAmount(last);
        } else {
          assert PartidaRows(rows, p) == PartidaRows(init, p) + [];
          assert PartidaRows(rows, p) == PartidaRows(init, p);
          assert items[|items| - 1].0 != p;
          assert SumFor(items, p) == SumFor(PartidaTotals(init), p) + 0.0;
        }
      } else {
        assert items == PartidaTotals(init) + [];
        assert items == PartidaTotals(init);
        assert PartidaRows(rows, p) == PartidaRows(init, p) + [];
        assert PartidaRows(rows, p) == PartidaRows(init, p);
      }
    }
  }

  /** A chapter holds its Partida's rows, sorted by Total from largest to smallest. */
  lemma ChapterRowsOrder(rows: seq<Row>, p: string)
    ensures multiset(ChapterRows(rows, p)) == multiset(PartidaRows(rows, p))
    ensures forall i, j :: 0 <= i < j < |ChapterRows(rows, p)| ==>
              TotalOf(ChapterRows(rows, p)[i]) >= TotalOf(ChapterRows(rows, p)[j])
  {
    GeTotalTotalPreorder();
    SortByIsSorted(PartidaRows(rows, p), GeTotal);
  }
}
