/**
 * The initial load (main.py:173-183): normalise the codes of both workbooks,
 * group the bill of materials by (Partida, Codigo, Descripcion, Unidades)
 * summing Cantidad, left-join the prices on Codigo, price missing values at 0,
 * compute Total, sort by (Partida, Descripcion) and number the lines 1..N.
 */
module Merge {
  import opened Wrappers
  import opened Text
  import opened Codes
  import opened Sums
  import opened Sorting
  import opened Grouping
  import opened Rows

  /** A line of the bill of materials (the "Metrados" workbook). */
  datatype ProjectLine = ProjectLine(
    partida: string, codigo: string, descripcion: string, unidades: string, cantidad: real)

  /** A line of the price catalog ("Base de Precios"); a blank price cell is `None`. */
  datatype PriceLine = PriceLine(codigo: string, precio: Option<real>)

  /** The grouping key (Partida, Codigo, Descripcion, Unidades). */
  datatype Key = Key(partida: string, codigo: string, descripcion: string, unidades: string)

  /** A priced line of the merged table, before it is numbered. */
  datatype Line = Line(key: Key, cantidad: real, precio: real, total: real)

  // ---------------------------------------------------------------- normalising

  /** `df_proyecto['Codigo'].apply(estandarizar_codigo)`: only the code of each line changes. */
  function NormalizeProject(ps: seq<ProjectLine>): seq<ProjectLine> {
    seq(|ps|, i requires 0 <= i < |ps| => ps[i].(codigo := NormalizeCode(ps[i].codigo)))
  }

  /** `df_precios['Codigo'].apply(estandarizar_codigo)`: only the code of each line changes. */
  function NormalizePrices(cs: seq<PriceLine>): seq<PriceLine> {
    seq(|cs|, i requires 0 <= i < |cs| => cs[i].(codigo := NormalizeCode(cs[i].codigo)))
  }

  // ---------------------------------------------------------------- grouping

  function KeyOf(p: ProjectLine): Key {
    Key(p.partida, p.codigo, p.descripcion, p.unidades)
  }

  /** The (key, Cantidad) pairs that `groupby(...)['Cantidad'].sum()` adds up. */
  function Quantities(ps: seq<ProjectLine>): seq<(Key, real)> {
    seq(|ps|, i requires 0 <= i < |ps| => (KeyOf(ps[i]), ps[i].cantidad))
  }

  /** Lexicographic combination of two comparisons. */
  function Lex(first: int, second: int): int {
    if first != 0 then first else second
  }

  /** The order `groupby` sorts its keys in: by Partida, then Codigo, Descripcion, Unidades. */
  function KeyCmp(a: Key, b: Key): int {
    Lex(StrCmp(a.partida, b.partida),
      Lex(StrCmp(a.codigo, b.codigo),
        Lex(StrCmp(a.descripcion, b.descripcion), StrCmp(a.unidades, b.unidades))))
  }

  function LeKey(a: (Key, real), b: (Key, real)): bool {
    KeyCmp(a.0, b.0) <= 0
  }

  lemma KeyCmpLaws(a: Key, b: Key, c: Key)
    ensures KeyCmp(a, b) == 0 <==> a == b
    ensures KeyCmp(b, a) == -KeyCmp(a, b)
    ensures KeyCmp(a, b) <= 0 && KeyCmp(b, c) <= 0 ==> KeyCmp(a, c) <= 0
  {
    StrCmpLaws(a.partida, b.partida, c.partida);
    StrCmpLaws(a.codigo, b.codigo, c.codigo);
    StrCmpLaws(a.descripcion, b.descripcion, c.descripcion);
    StrCmpLaws(a.unidades, b.unidades, c.unidades);
  }

  lemma LeKeyTotalPreorder()
    ensures TotalPreorder(LeKey)
    ensures forall a, b :: Tied(a, b, LeKey) <==> a.0 == b.0
  {
    forall a: (Key, real), b: (Key, real) ensures LeKey(a, b) || LeKey(b, a) {
      KeyCmpLaws(a.0, b.0, b.0);
    }
    forall a: (Key, real), b: (Key, real), c: (Key, real) | LeKey(a, b) && LeKey(b, c)
      ensures LeKey(a, c)
    {
      KeyCmpLaws(a.0, b.0, c.0);
    }
    forall a: (Key, real), b: (Key, real) ensures Tied(a, b, LeKey) <==> a.0 == b.0 {
      KeyCmpLaws(a.0, b.0, b.0);
    }
  }

  /** The grouped bill of materials: one entry per key, in key order, never more entries than lines. */
  function Grouped(ps: seq<ProjectLine>): (r: seq<(Key, real)>)
    ensures |r| <= |ps|
  {
    var gs := GroupSum(Quantities(ps));
    assert |SortBy(gs, LeKey)| == |gs| by {
      assert |multiset(SortBy(gs, LeKey))| == |multiset(gs)|;
    }
    SortBy(gs, LeKey)
  }

  /**
   * `groupby([...], as_index=False)['Cantidad'].sum()` (main.py:176): exactly one
   * entry per distinct key of the bill of materials, strictly ascending by key,
   * each carrying the sum of the quantities filed under it, and the grand total
   * of Cantidad unchanged.
   */
  lemma GroupedTable(ps: seq<ProjectLine>)
    ensures DistinctKeys(Grouped(ps))
    ensures Keys(Grouped(ps)) == Keys(Quantities(ps))
    ensures forall i :: 0 <= i < |Grouped(ps)| ==>
              Grouped(ps)[i].1 == SumFor(Quantities(ps), Grouped(ps)[i].0)
    ensures forall i, j :: 0 <= i < j < |Grouped(ps)| ==> KeyCmp(Grouped(ps)[i].0, Grouped(ps)[j].0) < 0
    ensures Total(Grouped(ps)) == Total(Quantities(ps))
  {
    var q := Quantities(ps);
    var gs := GroupSum(q);
    var r := Grouped(ps);
    LeKeyTotalPreorder();
    SortByIsSorted(gs, LeKey);
    assert Untied(gs, LeKey);
    SortByKeepsUntied(gs, LeKey);
    forall i, j | 0 <= i < j < |r| ensures KeyCmp(r[i].0, r[j].0) < 0 {
      KeyCmpLaws(r[i].0, r[j].0, r[j].0);
    }
    KeysOfPermutation(r, gs);
    forall i | 0 <= i < |r| ensures r[i].1 == SumFor(q, r[i].0) {
      assert r[i] in multiset(gs);
    }
    SumPermutation(r, gs, Value);
    GroupSumTotal(q);
  }

  // ---------------------------------------------------------------- joining

  /** The prices the catalog lists for `code`, in catalog order; a blank price is 0. */
  function Matched(cs: seq<PriceLine>, code: string): seq<real> {
    if cs == [] then []
    else (if cs[0].codigo == code then [cs[0].precio.GetOr(0.0)] else []) + Matched(cs[1..], code)
  }

  /** The prices a grouped line is joined with: 0 alone when the catalog has no such code. */
  function Offers(cs: seq<PriceLine>, code: string): seq<real> {
    var m := Matched(cs, code);
    if m == [] then [0.0] else m
  }

  function Priced(g: (Key, real), precio: real): Line {
    Line(g.0, g.1, precio, g.1 * precio)
  }

  /** One grouped line, once for each catalog line with its code (`how='left'`). */
  function JoinOne(g: (Key, real), cs: seq<PriceLine>): seq<Line> {
    var o := Offers(cs, g.0.codigo);
    seq(|o|, i requires 0 <= i < |o| => Priced(g, o[i]))
  }

  /** `pd.merge(grouped, prices, on='Codigo', how='left')` followed by `fillna(0.0)`. */
  function Join(gs: seq<(Key, real)>, cs: seq<PriceLine>): (r: seq<Line>)
    ensures |r| >= |gs|
  {
    if gs == [] then [] else JoinOne(gs[0], cs) + Join(gs[1..], cs)
  }

  /**
   * The left join drops nothing (main.py:177-179): every grouped line appears at
   * each price its code is offered at, and a code the catalog lacks gives a line
   * priced at 0 with a Total of 0. `JoinSize` counts the lines.
   */
  lemma {:induction false} JoinKeepsEveryGroup(gs: seq<(Key, real)>, cs: seq<PriceLine>)
    ensures forall g, p :: g in gs && p in Offers(cs, g.0.codigo) ==> Priced(g, p) in Join(gs, cs)
    ensures forall g :: g in gs && Matched(cs, g.0.codigo) == [] ==>
              Line(g.0, g.1, 0.0, 0.0) in Join(gs, cs)
  {
    if gs != [] {
      JoinKeepsEveryGroup(gs[1..], cs);
      var g := gs[0];
      var o := Offers(cs, g.0.codigo);
      forall p | p in o ensures Priced(g, p) in JoinOne(g, cs) {
        var k :| 0 <= k < |o| && o[k] == p;
        assert JoinOne(g, cs)[k] == Priced(g, p);
      }
      assert Matched(cs, g.0.codigo) == [] ==> Priced(g, 0.0) in JoinOne(g, cs);
    }
  }

  /** `l` is grouped line `(l.key, l.cantidad)` priced at one of the offers for its code. */
  predicate FromGrouping(gs: seq<(Key, real)>, cs: seq<PriceLine>, l: Line) {
    (l.key, l.cantidad) in gs && l.precio in Offers(cs, l.key.codigo) && l.total == l.cantidad * l.precio
  }

  /**
   * Every joined line comes from a grouped line and one of the prices offered for
   * its code, with Total = Cantidad * Precio.
   */
  lemma {:induction false} JoinSources(gs: seq<(Key, real)>, cs: seq<PriceLine>)
    ensures forall i :: 0 <= i < |Join(gs, cs)| ==> FromGrouping(gs, cs, Join(gs, cs)[i])
  {
    if gs != [] {
      var g := gs[0];
      var o := Offers(cs, g.0.codigo);
      var head, tail := JoinOne(g, cs), Join(gs[1..], cs);
      assert Join(gs, cs) == head + tail;
      forall i | 0 <= i < |head| ensures FromGrouping(gs, cs, head[i]) {
        assert head[i].precio == o[i];
      }
      JoinSources(gs[1..], cs);
      forall i | 0 <= i < |tail| ensures FromGrouping(gs, cs, tail[i]) {
        assert FromGrouping(gs[1..], cs, tail[i]);
      }
    }
  }

  /** The number of prices the grouped lines are offered at, counting 0 for a missing code as one. */
  function OfferCount(gs: seq<(Key, real)>, cs: seq<PriceLine>): nat {
    if gs == [] then 0 else |Offers(cs, gs[0].0.codigo)| + OfferCount(gs[1..], cs)
  }

  /**
   * The join has one line per grouped line and price offered for its code: at
   * least one per grouped line, and exactly one per grouped line when the catalog
   * lists each of their codes once.
   */
  lemma {:induction false} JoinSize(gs: seq<(Key, real)>, cs: seq<PriceLine>)
    ensures |Join(gs, cs)| == OfferCount(gs, cs)
    ensures |Join(gs, cs)| >= |gs|
    ensures (forall g :: g in gs ==> |Matched(cs, g.0.codigo)| == 1) ==> |Join(gs, cs)| == |gs|
  {
    if gs != [] {
      JoinSize(gs[1..], cs);
    }
  }

  /** No code occurs twice in the catalog. */
  predicate UniqueCodes(cs: seq<PriceLine>) {
    forall i, j :: 0 <= i < j < |cs| ==> cs[i].codigo != cs[j].codigo
  }

  lemma {:induction false} NoMatch(cs: seq<PriceLine>, code: string)
    requires forall i :: 0 <= i < |cs| ==> cs[i].codigo != code
    ensures Matched(cs, code) == []
  {
    if cs != [] {
      NoMatch(cs[1..], code);
    }
  }

  /** A catalog without repeated codes offers at most one price per code. */
  lemma {:induction false} MatchedAtMostOnce(cs: seq<PriceLine>, code: string)
    requires UniqueCodes(cs)
    ensures |Matched(cs, code)| <= 1
  {
    if cs != [] {
      if cs[0].codigo == code {
        NoMatch(cs[1..], code);
      } else {
        MatchedAtMostOnce(cs[1..], code);
      }
    }
  }

  function LineQuantity(l: Line): real {
    l.cantidad
  }

  function ProjectQuantity(p: ProjectLine): real {
    p.cantidad
  }

  /**
   * When every code is offered at most once, the join neither adds nor loses
   * quantity: its Cantidad adds up to that of the grouped lines.
   */
  lemma {:induction false} JoinQuantity(gs: seq<(Key, real)>, cs: seq<PriceLine>)
    requires forall i :: 0 <= i < |gs| ==> |Matched(cs, gs[i].0.codigo)| <= 1
    ensures Sum(Join(gs, cs), LineQuantity) == Total(gs)
  {
    if gs != [] {
      JoinQuantity(gs[1..], cs);
      var one := JoinOne(gs[0], cs);
      assert |one| == 1 && one[0].cantidad == gs[0].1;
      assert Sum(one, LineQuantity) == gs[0].1;
      SumConcat(one, Join(gs[1..], cs), LineQuantity);
    }
  }

  /** Normalising codes and pairing keys with quantities keeps the sum of Cantidad. */
  lemma QuantitiesTotal(ps: seq<ProjectLine>)
    ensures Total(Quantities(NormalizeProject(ps))) == Sum(ps, ProjectQuantity)
  {
    var q := Quantities(NormalizeProject(ps));
    forall i | 0 <= i < |q| ensures Value(q[i]) == ProjectQuantity(ps[i]) {
      assert q[i].1 == ps[i].cantidad;
    }
    SumPointwise(q, Value, ps, ProjectQuantity);
  }

  // ---------------------------------------------------------------- sorting and numbering

  /** `sort_values(by=['Partida', 'Descripcion'])`. */
  function PartidaDescripcionCmp(a: Key, b: Key): int {
    Lex(StrCmp(a.partida, b.partida), StrCmp(a.descripcion, b.descripcion))
  }

  function LePartidaDescripcion(a: Line, b: Line): bool {
    PartidaDescripcionCmp(a.key, b.key) <= 0
  }

  lemma LePartidaDescripcionTotalPreorder()
    ensures TotalPreorder(LePartidaDescripcion)
  {
    forall a: Line, b: Line ensures LePartidaDescripcion(a, b) || LePartidaDescripcion(b, a) {
      StrCmpLaws(a.key.partida, b.key.partida, b.key.partida);
      StrCmpLaws(a.key.descripcion, b.key.descripcion, b.key.descripcion);
    }
    forall a: Line, b: Line, c: Line | LePartidaDescripcion(a, b) && LePartidaDescripcion(b, c)
      ensures LePartidaDescripcion(a, c)
    {
      StrCmpLaws(a.key.partida, b.key.partida, c.key.partida);
      StrCmpLaws(a.key.descripcion, b.key.descripcion, c.key.descripcion);
    }
  }

  /** The merged lines in report order; ties keep the grouped order (pandas sorts several columns stably). */
  function InitialLines(cs: seq<PriceLine>, ps: seq<ProjectLine>): (r: seq<Line>)
    ensures |r| >= |Grouped(NormalizeProject(ps))|
  {
    var j := Join(Grouped(NormalizeProject(ps)), NormalizePrices(cs));
    assert |SortBy(j, LePartidaDescripcion)| == |j| by {
      assert |multiset(SortBy(j, LePartidaDescripcion))| == |multiset(j)|;
    }
    SortBy(j, LePartidaDescripcion)
  }

  function ToRow(l: Line, item: int): Row {
    Row(Some(item), Some(l.key.partida), Some(l.key.codigo), Some(l.key.descripcion),
        Some(l.key.unidades), Some(l.cantidad), Some(l.precio), Some(l.total))
  }

  function RowKey(r: Row): Key
    requires Complete(r)
  {
    Key(r.partida.value, r.codigo.value, r.descripcion.value, r.unidades.value)
  }

  /** The merged line a complete row displays. */
  function LineOf(r: Row): Line
    requires Complete(r)
  {
    Line(RowKey(r), r.cantidad.value, r.precio.value, r.total.value)
  }

  lemma TableOfNumbered(ls: seq<Line>)
    requires forall i :: 0 <= i < |ls| ==> ls[i].total == ls[i].cantidad * ls[i].precio
    ensures forall i :: 0 <= i < |TableOf(ls)| ==> Numbered(TableOf(ls)[i], i)
  {
    var t := TableOf(ls);
    forall i | 0 <= i < |t| ensures Numbered(t[i], i) {
      var r := t[i];
      assert LineOf(r) == ls[i];
      assert r.total.value == r.cantidad.value * r.precio.value;
      assert r.total == Some(r.total.value);
      assert Consistent(r);
      assert Complete(r);
    }
  }

  /** The table the session starts from: the sorted lines numbered Item = 1..N, at least one per grouped line. */
  function InitialTable(cs: seq<PriceLine>, ps: seq<ProjectLine>): (t: seq<Row>)
    ensures |t| >= |Grouped(NormalizeProject(ps))|
  {
    TableOf(InitialLines(cs, ps))
  }

  /** Lines as rows numbered Item = 1..N. */
  function TableOf(ls: seq<Line>): (t: seq<Row>)
    ensures |t| == |ls|
    ensures forall i :: 0 <= i < |t| ==> Complete(t[i]) && t[i].item == Some(i + 1) && LineOf(t[i]) == ls[i]
  {
    seq(|ls|, i requires 0 <= i < |ls| => ToRow(ls[i], i + 1))
  }

  lemma TableOfSorted(ls: seq<Line>)
    requires Sorted(ls, LePartidaDescripcion)
    ensures OrderedByPartidaDescripcion(TableOf(ls))
  {
    var t := TableOf(ls);
    forall a, b | 0 <= a < b < |t|
      ensures PartidaDescripcionCmp(RowKey(t[a]), RowKey(t[b])) <= 0
    {
      assert LineOf(t[a]) == ls[a] && LineOf(t[b]) == ls[b];
      assert LePartidaDescripcion(ls[a], ls[b]);
    }
  }

  /** Rows are in ascending (Partida, Descripcion) order. */
  ghost predicate OrderedByPartidaDescripcion(t: seq<Row>) {
    forall i, j :: 0 <= i < j < |t| && Complete(t[i]) && Complete(t[j]) ==>
      PartidaDescripcionCmp(RowKey(t[i]), RowKey(t[j])) <= 0
  }

  /** The merged lines: each from the grouping and the catalog, in (Partida, Descripcion) order. */
  lemma InitialLinesFacts(cs: seq<PriceLine>, ps: seq<ProjectLine>)
    ensures forall i :: 0 <= i < |InitialLines(cs, ps)| ==>
              FromGrouping(Grouped(NormalizeProject(ps)), NormalizePrices(cs), InitialLines(cs, ps)[i])
    ensures Sorted(InitialLines(cs, ps), LePartidaDescripcion)
    ensures multiset(InitialLines(cs, ps)) == multiset(Join(Grouped(NormalizeProject(ps)), NormalizePrices(cs)))
  {
    var gs := Grouped(NormalizeProject(ps));
    var j := Join(gs, NormalizePrices(cs));
    var ls := InitialLines(cs, ps);
    LePartidaDescripcionTotalPreorder();
    SortByIsSorted(j, LePartidaDescripcion);
    JoinSources(gs, NormalizePrices(cs));
    forall i | 0 <= i < |ls|
      ensures FromGrouping(gs, NormalizePrices(cs), ls[i])
    {
      assert ls[i] in multiset(j);
      var k :| 0 <= k < |j| && j[k] == ls[i];
    }
  }

  /**
   * The (Partida, Descripcion) sort is stable (main.py:181): lines with the same
   * Partida and Descripcion keep the order the join gave them.
   */
  lemma InitialLinesStable(cs: seq<PriceLine>, ps: seq<ProjectLine>)
    ensures forall k :: TiedWith(InitialLines(cs, ps), k, LePartidaDescripcion)
                     == TiedWith(Join(Grouped(NormalizeProject(ps)), NormalizePrices(cs)), k, LePartidaDescripcion)
  {
    var j := Join(Grouped(NormalizeProject(ps)), NormalizePrices(cs));
    LePartidaDescripcionTotalPreorder();
    forall k ensures TiedWith(SortBy(j, LePartidaDescripcion), k, LePartidaDescripcion)
                  == TiedWith(j, k, LePartidaDescripcion)
    {
      SortByIsStable(j, k, LePartidaDescripcion);
    }
  }

  /**
   * After the initial load (main.py:179-182) every row is complete, has
   * Total = Cantidad * Precio, and has Item = its position + 1 (no gaps, no
   * repeats); the rows are ordered by (Partida, Descripcion); each row carries a
   * grouped key with its summed quantity, and at one of the prices offered for its code.
   */
  lemma InitialTableCanonical(cs: seq<PriceLine>, ps: seq<ProjectLine>)
    ensures forall i :: 0 <= i < |InitialTable(cs, ps)| ==> Numbered(InitialTable(cs, ps)[i], i)
    ensures forall i :: 0 <= i < |InitialTable(cs, ps)| ==>
              FromGrouping(Grouped(NormalizeProject(ps)), NormalizePrices(cs), LineOf(InitialTable(cs, ps)[i]))
    ensures OrderedByPartidaDescripcion(InitialTable(cs, ps))
  {
    var gs, ncs := Grouped(NormalizeProject(ps)), NormalizePrices(cs);
    var ls := InitialLines(cs, ps);
    var t := InitialTable(cs, ps);
    assert t == TableOf(ls);
    InitialLinesFacts(cs, ps);
    TableOfSorted(ls);
    TableOfNumbered(ls);
    forall i | 0 <= i < |t| ensures FromGrouping(gs, ncs, LineOf(t[i])) {
      assert LineOf(t[i]) == ls[i];
    }
  }

  /**
   * Nothing of the bill of materials is lost (main.py:176-179): every project line
   * shows up, under its normalised code, in a row whose Cantidad is the sum over
   * its key; if the catalog lacks its code, that row is priced at 0 with Total 0.
   */
  lemma InitialTableKeepsEveryLine(cs: seq<PriceLine>, ps: seq<ProjectLine>, p: ProjectLine)
    requires p in ps
    ensures var key := KeyOf(p.(codigo := NormalizeCode(p.codigo)));
            exists i :: 0 <= i < |InitialTable(cs, ps)|
              && RowKey(InitialTable(cs, ps)[i]) == key
              && InitialTable(cs, ps)[i].cantidad == Some(SumFor(Quantities(NormalizeProject(ps)), key))
              && (Matched(NormalizePrices(cs), key.codigo) == [] ==>
                    InitialTable(cs, ps)[i].precio == Some(0.0) && InitialTable(cs, ps)[i].total == Some(0.0))
  {
    var ncs := NormalizePrices(cs);
    var key := KeyOf(p.(codigo := NormalizeCode(p.codigo)));
    var g := GroupOf(ps, p);
    var i := InitialLineOf(cs, ps, g);
    var t := InitialTable(cs, ps);
    assert LineOf(t[i]) == InitialLines(cs, ps)[i];
    assert Matched(ncs, key.codigo) == [] ==> Offers(ncs, key.codigo)[0] == 0.0;
  }

  /** The grouped line a project line is filed under. */
  lemma GroupOf(ps: seq<ProjectLine>, p: ProjectLine) returns (g: (Key, real))
    requires p in ps
    ensures g in Grouped(NormalizeProject(ps))
    ensures g.0 == KeyOf(p.(codigo := NormalizeCode(p.codigo)))
    ensures g.1 == SumFor(Quantities(NormalizeProject(ps)), g.0)
  {
    var nps := NormalizeProject(ps);
    var q := Quantities(nps);
    var gs := Grouped(nps);
    var k :| 0 <= k < |ps| && ps[k] == p;
    var key := KeyOf(p.(codigo := NormalizeCode(p.codigo)));
    assert q[k].0 == key;
    GroupedTable(nps);
    KeysWitness(gs, key);
    var n :| 0 <= n < |gs| && gs[n].0 == key;
    g := gs[n];
  }

  /** The position, among the merged lines, of grouped line `g` at its first offered price. */
  lemma InitialLineOf(cs: seq<PriceLine>, ps: seq<ProjectLine>, g: (Key, real)) returns (i: nat)
    requires g in Grouped(NormalizeProject(ps))
    ensures i < |InitialLines(cs, ps)|
    ensures InitialLines(cs, ps)[i] == Priced(g, Offers(NormalizePrices(cs), g.0.codigo)[0])
  {
    var ncs := NormalizePrices(cs);
    var gs := Grouped(NormalizeProject(ps));
    var j := Join(gs, ncs);
    JoinHasFirstOffer(gs, ncs, g);
    i := SortByIndexOf(j, Priced(g, Offers(ncs, g.0.codigo)[0]), LePartidaDescripcion);
    assert InitialLines(cs, ps) == SortBy(j, LePartidaDescripcion);
  }

  /** A grouped line reaches the join at the first price offered for its code. */
  lemma JoinHasFirstOffer(gs: seq<(Key, real)>, cs: seq<PriceLine>, g: (Key, real))
    requires g in gs
    ensures Priced(g, Offers(cs, g.0.codigo)[0]) in Join(gs, cs)
  {
    JoinKeepsEveryGroup(gs, cs);
    assert Offers(cs, g.0.codigo)[0] in Offers(cs, g.0.codigo);
  }

  /**
   * With a catalog that lists each (normalised) code once, the merged table carries
   * exactly the quantity of the bill of materials: its Cantidad column adds up to
   * the sum of the project's Cantidad. A repeated code would repeat its lines.
   */
  lemma InitialQuantity(cs: seq<PriceLine>, ps: seq<ProjectLine>)
    requires UniqueCodes(NormalizePrices(cs))
    ensures Sum(InitialLines(cs, ps), LineQuantity) == Sum(ps, ProjectQuantity)
  {
    var ncs := NormalizePrices(cs);
    var gs := Grouped(NormalizeProject(ps));
    var j := Join(gs, ncs);
    SumPermutation(InitialLines(cs, ps), j, LineQuantity);
    forall i | 0 <= i < |gs| ensures |Matched(ncs, gs[i].0.codigo)| <= 1 {
      MatchedAtMostOnce(ncs, gs[i].0.codigo);
    }
    JoinQuantity(gs, ncs);
    GroupedTable(NormalizeProject(ps));
    QuantitiesTotal(ps);
  }
}
