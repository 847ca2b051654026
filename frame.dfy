/**
 * The loaded sales table before its prices are numbers, and the in-place
 * overwrite of its two price columns with their cleaned text
 * (`df[col] = df[col].apply(...)`).
 */
module Frame {
  import opened Currency

  /** A sales row as read: the prices are still currency-formatted text. */
  datatype RawSale = RawSale(
    dataPedido: string,
    nomeRepresentante: string,
    regional: string,
    estadoCliente: string,
    cidadeCliente: string,
    valorProduto: string,
    valorTotalVenda: string)

  /** The two currency columns. */
  datatype PriceColumn = ValorProduto | ValorTotalVenda

  function Price(row: RawSale, col: PriceColumn): string {
    match col
    case ValorProduto => row.valorProduto
    case ValorTotalVenda => row.valorTotalVenda
  }

  /** `row` with the cell of `col` cleaned; every other cell is kept. */
  function StripPrice(row: RawSale, col: PriceColumn): (r: RawSale)
    ensures Price(r, col) == StripCurrency(Price(row, col)) && IsClean(Price(r, col))
    ensures col == ValorProduto ==> r.valorTotalVenda == row.valorTotalVenda
    ensures col == ValorTotalVenda ==> r.valorProduto == row.valorProduto
    ensures r.dataPedido == row.dataPedido && r.nomeRepresentante == row.nomeRepresentante
    ensures r.regional == row.regional && r.estadoCliente == row.estadoCliente
    ensures r.cidadeCliente == row.cidadeCliente
  {
    match col
    case ValorProduto => row.(valorProduto := StripCurrency(row.valorProduto))
    case ValorTotalVenda => row.(valorTotalVenda := StripCurrency(row.valorTotalVenda))
  }

  /** Cleaning a price cell a second time changes nothing. */
  lemma {:induction false} StripPriceIdempotent(row: RawSale, col: PriceColumn)
    ensures StripPrice(StripPrice(row, col), col) == StripPrice(row, col)
  {
    StripIdempotent(Price(row, col));
  }

  /** The shared data frame `df`, whose columns the loading code overwrites. */
  class SalesFrame {
    var rows: seq<RawSale>

    constructor (rows: seq<RawSale>)
      ensures this.rows == rows
    {
      this.rows := rows;
    }

    /** Replace every cell of `col` by its cleaned text, row by row. */
    method StripPriceColumn(col: PriceColumn)
      modifies this
      ensures |rows| == |old(rows)|
      ensures forall i :: 0 <= i < |rows| ==> rows[i] == StripPrice(old(rows)[i], col)
    {
      var i := 0;
      while i < |rows|
        invariant |rows| == |old(rows)|
        invariant 0 <= i <= |rows|
        invariant forall j :: 0 <= j < i ==> rows[j] == StripPrice(old(rows)[j], col)
        invariant forall j :: i <= j < |rows| ==> rows[j] == old(rows)[j]
      {
        rows := rows[i := StripPrice(rows[i], col)];
        i := i + 1;
      }
    }

    /**
     * Clean `Valor_Produto`, then `Valor_Total_Venda`. Afterwards both cells of
     * every row hold only digits and dots; the other cells and the row order
     * are unchanged.
     */
    method StripPriceColumns()
      modifies this
      ensures |rows| == |old(rows)|
      ensures forall i :: 0 <= i < |rows| ==>
        rows[i] == old(rows)[i].(valorProduto := StripCurrency(old(rows)[i].valorProduto),
                                 valorTotalVenda := StripCurrency(old(rows)[i].valorTotalVenda))
      ensures forall i :: 0 <= i < |rows| ==> IsClean(rows[i].valorProduto) && IsClean(rows[i].valorTotalVenda)
    {
      StripPriceColumn(ValorProduto);
      StripPriceColumn(ValorTotalVenda);
    }
  }
}
