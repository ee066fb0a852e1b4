/**
 * One line of the quotation table (`df_master`), with the columns Item,
 * Partida, Codigo, Descripcion, Unidades, Cantidad, Precio and Total. A cell
 * that pandas may hold as missing (NaN / None) is an `Option`.
 */
module Rows {
  import opened Wrappers

  datatype Row = Row(
    item: Option<int>,
    partida: Option<string>,
    codigo: Option<string>,
    descripcion: Option<string>,
    unidades: Option<string>,
    cantidad: Option<real>,
    precio: Option<real>,
    total: Option<real>)

  /** Every cell holds a value. */
  predicate Complete(r: Row) {
    && r.item.Some? && r.partida.Some? && r.codigo.Some? && r.descripcion.Some?
    && r.unidades.Some? && r.cantidad.Some? && r.precio.Some? && r.total.Some?
  }

  /** The line total is the quantity times the unit price. */
  predicate Consistent(r: Row) {
    r.cantidad.Some? && r.precio.Some? && r.total.Some? && r.total.value == r.cantidad.value * r.precio.value
  }

  /** A complete row whose Total is Cantidad * Precio and whose Item is its position + 1. */
  predicate Numbered(r: Row, i: int) {
    Complete(r) && Consistent(r) && r.item == Some(i + 1)
  }

  /** The Total cell as pandas sums it: a missing value counts as nothing. */
  function TotalOf(r: Row): real {
    r.total.GetOr(0.0)
  }
}
