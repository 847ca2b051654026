/**
 * The dashboard callbacks and the dropdown defaults, stated over the cleaned
 * sales table `df`. Each callback takes the current dropdown value(s) and
 * returns the rows (or grouped totals) its chart is drawn from.
 */
module Callbacks {
  import opened Wrappers
  import opened Sequences
  import opened Dates
  import opened Table
  import opened GroupBy

  /**
   * The options, and the initial selection, of a multi-select dropdown over
   * `col`: `df[col].unique()`, every value of the column once.
   */
  function ColumnOptions(df: seq<Sale>, col: Column): (r: seq<string>)
    ensures NoDup(r)
    ensures forall v :: v in r <==> v in Project(df, col)
  {
    Unique(Project(df, col))
  }

  /** Some order date has a second `-`-separated field. */
  predicate HasMonthField(df: seq<Sale>) {
    exists i :: 0 <= i < |df| && '-' in df[i].dataPedido
  }

  /**
   * The month dropdown's options and initial selection: the distinct month keys
   * (including the missing key of a date without `-`). When no date has a
   * second field, pandas never creates column 1 and indexing it fails
   * (`KeyError`): `None`.
   */
  function MonthOptions(df: seq<Sale>): (r: Option<seq<Option<string>>>)
    ensures r.None? <==> forall i :: 0 <= i < |df| ==> '-' !in df[i].dataPedido
    ensures r.Some? ==> NoDup(r.value)
    ensures r.Some? ==> forall m :: m in r.value <==> m in MonthColumn(df)
  {
    if HasMonthField(df) then Some(Unique(MonthColumn(df))) else None
  }

  /**
   * `update_graph_mes`: the rows whose month key is selected, in table order;
   * `None` when the month column cannot be built (see `MonthOptions`).
   */
  function UpdateGraphMes(df: seq<Sale>, selectedMes: seq<Option<string>>): (r: Option<seq<Sale>>)
    ensures r.None? <==> forall i :: 0 <= i < |df| ==> '-' !in df[i].dataPedido
    ensures r.Some? ==> IsSubsequence(r.value, df)
    ensures r.Some? ==> forall row :: row in r.value <==> row in df && MonthKey(row.dataPedido) in selectedMes
    ensures r.Some? ==> forall row :: (multiset(r.value)[row] ==
      if MonthKey(row.dataPedido) in selectedMes then multiset(df)[row] else 0)
  {
    if HasMonthField(df) then Some(Where(df, MonthIn(selectedMes))) else None
  }

  /** `update_graph_representante`: the rows of the selected representatives, in table order. */
  function UpdateGraphRepresentante(df: seq<Sale>, selected: seq<string>): (r: seq<Sale>)
    ensures IsSubsequence(r, df)
    ensures forall row :: row in r <==> row in df && row.nomeRepresentante in selected
    ensures forall row :: multiset(r)[row] == if row.nomeRepresentante in selected then multiset(df)[row] else 0
  {
    Where(df, In(NomeRepresentante, selected))
  }

  /**
   * `update_graph_regional`: the rows of the selected regionals, grouped and
   * summed. One entry per selected regional that occurs in `df`, ascending,
   * and the totals add up to the selected rows' sum.
   */
  function UpdateGraphRegional(df: seq<Sale>, selected: seq<string>): (r: seq<Group>)
    ensures StrictlySorted(r)
    ensures forall k :: k in KeySet(r) <==> k in selected && k in Project(df, Regional)
    ensures Total(r) == SumValues(Where(df, In(Regional, selected)))
  {
    var filtered := Where(df, In(Regional, selected));
    assert forall k :: k in Project(filtered, Regional) <==> k in selected && k in Project(df, Regional) by {
      forall k ensures k in Project(filtered, Regional) <==> k in selected && k in Project(df, Regional) {
        ProjectWhere(df, In(Regional, selected), Regional, k);
        ProjectWhere(df, Any, Regional, k);
        WhereAllHold(df, Any);
      }
    }
    GroupSumByRegional(filtered)
  }

  /**
   * `update_cidades_options`: with no state selected, no cities; otherwise the
   * distinct cities occurring in a row of that state, each once.
   */
  function UpdateCidadesOptions(df: seq<Sale>, selectedEstado: Option<string>): (r: seq<string>)
    ensures selectedEstado.None? ==> r == []
    ensures NoDup(r)
    ensures selectedEstado.Some? ==> forall c :: c in r <==>
      exists i :: 0 <= i < |df| && df[i].estadoCliente == selectedEstado.value && df[i].cidadeCliente == c
  {
    match selectedEstado
    case None => []
    case Some(e) =>
      var cities := Project(Where(df, Eq(EstadoCliente, e)), CidadeCliente);
      CitiesOfState(df, e);
      UniqueMembers(cities);
      Unique(cities)
  }

  /** A city occurs among the rows of state `e` iff some row pairs it with `e`. */
  lemma {:induction false} CitiesOfState(df: seq<Sale>, e: string)
    ensures forall c :: c in Project(Where(df, Eq(EstadoCliente, e)), CidadeCliente) <==>
      exists i :: 0 <= i < |df| && df[i].estadoCliente == e && df[i].cidadeCliente == c
  {
    forall c ensures c in Project(Where(df, Eq(EstadoCliente, e)), CidadeCliente) <==>
      exists i :: 0 <= i < |df| && df[i].estadoCliente == e && df[i].cidadeCliente == c {
      ProjectWhere(df, Eq(EstadoCliente, e), CidadeCliente, c);
    }
  }

  /**
   * `update_graph_estado_cidade`: start from the whole table and narrow it by
   * the state, then by the city, each only when selected.
   */
  method UpdateGraphEstadoCidade(df: seq<Sale>, selectedEstado: Option<string>, selectedCidade: Option<string>)
    returns (filtered: seq<Sale>)
    ensures filtered == Where(df, And(Restrict(EstadoCliente, selectedEstado), Restrict(CidadeCliente, selectedCidade)))
    ensures forall row :: row in filtered <==>
      && row in df
      && (selectedEstado.None? || row.estadoCliente == selectedEstado.value)
      && (selectedCidade.None? || row.cidadeCliente == selectedCidade.value)
  {
    var byState, byCity := Restrict(EstadoCliente, selectedEstado), Restrict(CidadeCliente, selectedCidade);
    filtered := df;
    if selectedEstado.Some? {
      filtered := Where(filtered, Eq(EstadoCliente, selectedEstado.value));
    } else {
      WhereAllHold(df, byState);
    }
    assert filtered == Where(df, byState);
    if selectedCidade.Some? {
      filtered := Where(filtered, Eq(CidadeCliente, selectedCidade.value));
    } else {
      WhereAllHold(filtered, byCity);
    }
    WhereAnd(df, byState, byCity);
  }

  /** Narrowing by city first and by state second gives the same rows. */
  lemma {:induction false} EstadoCidadeOrderIrrelevant(df: seq<Sale>, selectedEstado: Option<string>, selectedCidade: Option<string>)
    ensures Where(Where(df, Restrict(CidadeCliente, selectedCidade)), Restrict(EstadoCliente, selectedEstado))
         == Where(df, And(Restrict(EstadoCliente, selectedEstado), Restrict(CidadeCliente, selectedCidade)))
  {
    var byState, byCity := Restrict(EstadoCliente, selectedEstado), Restrict(CidadeCliente, selectedCidade);
    WhereCommutes(df, byCity, byState);
    WhereAnd(df, byState, byCity);
  }

  /** Selecting every representative, the dropdown's initial value, keeps the whole table. */
  lemma {:induction false} DefaultRepresentanteKeepsAll(df: seq<Sale>)
    ensures UpdateGraphRepresentante(df, ColumnOptions(df, NomeRepresentante)) == df
  {
    var opts := ColumnOptions(df, NomeRepresentante);
    forall i | 0 <= i < |df|
      ensures Holds(In(NomeRepresentante, opts), df[i])
    {
      assert Project(df, NomeRepresentante)[i] == df[i].nomeRepresentante;
    }
    WhereAllHold(df, In(NomeRepresentante, opts));
  }

  /**
   * Selecting every regional, the dropdown's initial value, reproduces the
   * regional totals computed over the whole table when it is loaded.
   */
  lemma {:induction false} DefaultRegionalKeepsAll(df: seq<Sale>)
    ensures UpdateGraphRegional(df, ColumnOptions(df, Regional)) == GroupSumByRegional(df)
  {
    var opts := ColumnOptions(df, Regional);
    forall i | 0 <= i < |df|
      ensures Holds(In(Regional, opts), df[i])
    {
      assert Project(df, Regional)[i] == df[i].regional;
    }
    WhereAllHold(df, In(Regional, opts));
  }

  /** Selecting every month key, the dropdown's initial value, keeps the whole table. */
  lemma {:induction false} DefaultMonthsKeepAll(df: seq<Sale>)
    requires MonthOptions(df).Some?
    ensures UpdateGraphMes(df, MonthOptions(df).value) == Some(df)
  {
    var opts := MonthOptions(df).value;
    forall i | 0 <= i < |df|
      ensures Holds(MonthIn(opts), df[i])
    {
      assert MonthColumn(df)[i] == MonthKey(df[i].dataPedido);
    }
    WhereAllHold(df, MonthIn(opts));
  }

  /** A cleared multi-select dropdown keeps no rows. */
  lemma {:induction false} EmptySelectionKeepsNothing(df: seq<Sale>)
    ensures UpdateGraphRepresentante(df, []) == []
    ensures UpdateGraphRegional(df, []) == []
    ensures HasMonthField(df) ==> UpdateGraphMes(df, []) == Some([])
  {
    WhereNoneHold(df, In(NomeRepresentante, []));
    WhereNoneHold(df, In(Regional, []));
    WhereNoneHold(df, MonthIn([]));
  }

  /** Narrowing to the selected regionals first keeps every row of a selected regional. */
  lemma {:induction false} SelectedRegionalRows(df: seq<Sale>, selected: seq<string>, k: string)
    requires k in selected
    ensures Where(Where(df, In(Regional, selected)), Eq(Regional, k)) == Where(df, Eq(Regional, k))
  {
    WhereAnd(df, In(Regional, selected), Eq(Regional, k));
    WhereSameCond(df, And(In(Regional, selected), Eq(Regional, k)), Eq(Regional, k));
  }

  /**
   * Each slice of the regional pie totals exactly the rows of `df` of that
   * regional: filtering the selection first takes nothing away from a
   * selected regional.
   */
  lemma {:induction false} RegionalSliceTotals(df: seq<Sale>, selected: seq<string>)
    ensures forall i :: 0 <= i < |UpdateGraphRegional(df, selected)| ==>
      UpdateGraphRegional(df, selected)[i].total
        == SumValues(Where(df, Eq(Regional, UpdateGraphRegional(df, selected)[i].regional)))
  {
    var filtered := Where(df, In(Regional, selected));
    var r := UpdateGraphRegional(df, selected);
    assert r == GroupSumByRegional(filtered);
    GroupTotalsAreSums(filtered);
    forall i | 0 <= i < |r|
      ensures r[i].total == SumValues(Where(df, Eq(Regional, r[i].regional)))
    {
      KeySetHasEntry(r, i);
      SelectedRegionalRows(df, selected, r[i].regional);
    }
  }

  /** The city options come in the order each city first appears among the state's rows. */
  lemma {:induction false} CidadesOptionsOrder(df: seq<Sale>, estado: string)
    ensures InFirstAppearanceOrder(UpdateCidadesOptions(df, Some(estado)),
                                   Project(Where(df, Eq(EstadoCliente, estado)), CidadeCliente))
  {
    UniqueFirstAppearanceOrder(Project(Where(df, Eq(EstadoCliente, estado)), CidadeCliente));
  }
}
