/**
 * The cleaned sales table the dashboard callbacks read, and the row filters
 * they build from boolean masks (`df[mask]`): membership in a multi-select
 * list (`isin`), equality with one selected value (`==`), the month filter
 * and their conjunction.
 */
module Table {
  import opened Wrappers
  import opened Sequences
  import opened Dates

  /** The text columns the callbacks filter and group on. */
  datatype Column = DataPedido | NomeRepresentante | Regional | EstadoCliente | CidadeCliente

  /**
   * One sale. `valorTotalVenda` is the cleaned `Valor_Total_Venda`, an exact
   * amount in cents.
   */
  datatype Sale = Sale(
    dataPedido: string,
    nomeRepresentante: string,
    regional: string,
    estadoCliente: string,
    cidadeCliente: string,
    valorTotalVenda: int)

  function Get(row: Sale, col: Column): string {
    match col
    case DataPedido => row.dataPedido
    case NomeRepresentante => row.nomeRepresentante
    case Regional => row.regional
    case EstadoCliente => row.estadoCliente
    case CidadeCliente => row.cidadeCliente
  }

  /** The column `col` of `df`, row by row (`df[col]`). */
  function Project(df: seq<Sale>, col: Column): (r: seq<string>)
    ensures |r| == |df|
    ensures forall i :: 0 <= i < |df| ==> r[i] == Get(df[i], col)
  {
    seq(|df|, i requires 0 <= i < |df| => Get(df[i], col))
  }

  /**
   * The month keys of `df`, row by row (`str.split('-', expand=True)[1]`); a
   * row's cell is missing exactly when its date has no `-`.
   */
  function MonthColumn(df: seq<Sale>): (r: seq<Option<string>>)
    ensures |r| == |df|
    ensures forall i :: 0 <= i < |df| ==> r[i] == MonthKey(df[i].dataPedido)
    ensures forall i :: 0 <= i < |df| ==> (r[i].Some? <==> '-' in df[i].dataPedido)
  {
    seq(|df|, i requires 0 <= i < |df| => MonthKey(df[i].dataPedido))
  }

  /** A row condition, the boolean mask of one filtering step. */
  datatype Cond =
    | Any                                      // no restriction
    | Eq(col: Column, value: string)           // df[col] == value
    | In(col: Column, values: seq<string>)     // df[col].isin(values)
    | MonthIn(months: seq<Option<string>>)     // month key .isin(months)
    | And(left: Cond, right: Cond)

  /**
   * Whether `row` passes the mask. `isin` is membership in the selected list:
   * an empty list matches no row, and a one-value list matches like `==`.
   */
  predicate Holds(c: Cond, row: Sale)
    ensures c.In? && c.values == [] ==> !Holds(c, row)
    ensures c.MonthIn? && c.months == [] ==> !Holds(c, row)
    ensures c.In? && |c.values| == 1 ==> (Holds(c, row) <==> Get(row, c.col) == c.values[0])
  {
    match c
    case Any => true
    case Eq(col, v) => Get(row, col) == v
    case In(col, vs) => Get(row, col) in vs
    case MonthIn(ms) => MonthKey(row.dataPedido) in ms
    case And(l, r) => Holds(l, row) && Holds(r, row)
  }

  /** An optional single-value selection: `None` imposes no restriction. */
  function Restrict(col: Column, selected: Option<string>): (c: Cond)
    ensures forall row :: Holds(c, row) <==> selected.None? || Get(row, col) == selected.value
  {
    match selected
    case None => Any
    case Some(v) => Eq(col, v)
  }

  /**
   * `df[mask]`: the rows satisfying `c`, in their original order. A row is
   * kept exactly when it satisfies `c`, and then as often as `df` holds it.
   */
  function Where(df: seq<Sale>, c: Cond): (r: seq<Sale>)
    ensures forall row :: row in r <==> row in df && Holds(c, row)
    ensures forall row {:trigger multiset(r)[row]} :: multiset(r)[row] == if Holds(c, row) then multiset(df)[row] else 0
    ensures IsSubsequence(r, df)
  {
    if df == [] then []
    else
      var rest := Where(df[1..], c);
      assert df == [df[0]] + df[1..];
      if Holds(c, df[0]) then
        assert ([df[0]] + rest)[1..] == rest;
        [df[0]] + rest
      else rest
  }

  /** The total of the sales amounts of `df`. */
  function SumValues(df: seq<Sale>): int {
    if df == [] then 0 else df[0].valorTotalVenda + SumValues(df[1..])
  }

  /** A condition every row satisfies keeps the whole table. */
  lemma {:induction false} WhereAllHold(df: seq<Sale>, c: Cond)
    requires forall i :: 0 <= i < |df| ==> Holds(c, df[i])
    ensures Where(df, c) == df
  {
    if df != [] {
      WhereAllHold(df[1..], c);
      assert [df[0]] + df[1..] == df;
    }
  }

  /** A condition no row satisfies keeps nothing. */
  lemma {:induction false} WhereNoneHold(df: seq<Sale>, c: Cond)
    requires forall i :: 0 <= i < |df| ==> !Holds(c, df[i])
    ensures Where(df, c) == []
  {
    if df != [] {
      WhereNoneHold(df[1..], c);
    }
  }

  /** Filtering by `a` and then by `b` is filtering by their conjunction. */
  lemma {:induction false} WhereAnd(df: seq<Sale>, a: Cond, b: Cond)
    ensures Where(Where(df, a), b) == Where(df, And(a, b))
  {
    if df != [] {
      WhereAnd(df[1..], a, b);
      if Holds(a, df[0]) {
        var wa := Where(df, a);
        assert wa[0] == df[0] && wa[1..] == Where(df[1..], a);
      }
    }
  }

  /** Conditions that agree on every row filter alike. */
  lemma {:induction false} WhereSameCond(df: seq<Sale>, a: Cond, b: Cond)
    requires forall row :: Holds(a, row) == Holds(b, row)
    ensures Where(df, a) == Where(df, b)
  {
    if df != [] {
      WhereSameCond(df[1..], a, b);
    }
  }

  /** Two successive filters may be applied in either order. */
  lemma {:induction false} WhereCommutes(df: seq<Sale>, a: Cond, b: Cond)
    ensures Where(Where(df, a), b) == Where(Where(df, b), a)
  {
    WhereAnd(df, a, b);
    WhereAnd(df, b, a);
    WhereSameCond(df, And(a, b), And(b, a));
  }

  /** A value occurs in a column of the filtered table iff some row satisfying the condition carries it. */
  lemma {:induction false} ProjectWhere(df: seq<Sale>, c: Cond, col: Column, v: string)
    ensures v in Project(Where(df, c), col) <==>
      exists i :: 0 <= i < |df| && Holds(c, df[i]) && Get(df[i], col) == v
  {
    var rows := Where(df, c);
    if v in Project(rows, col) {
      var k :| 0 <= k < |rows| && Project(rows, col)[k] == v;
      assert rows[k] in rows;
      var i :| 0 <= i < |df| && df[i] == rows[k];
    }
    if exists i :: 0 <= i < |df| && Holds(c, df[i]) && Get(df[i], col) == v {
      var i :| 0 <= i < |df| && Holds(c, df[i]) && Get(df[i], col) == v;
      assert df[i] in df;
      var k :| 0 <= k < |rows| && rows[k] == df[i];
      assert Project(rows, col)[k] == v;
    }
  }
}
