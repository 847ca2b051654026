/**
 * `df.groupby('Regional')['Valor_Total_Venda'].sum().reset_index()`: one
 * entry per distinct regional present, holding the total of its sales. pandas
 * sorts the group keys by default, so the entries come in ascending order of
 * the key under Python's string comparison.
 */
module GroupBy {
  import opened Sequences
  import opened Table

  /** Python's `a < b` on strings: lexicographic by code point, a proper prefix first. */
  predicate StrLess(a: string, b: string) {
    if b == [] then false
    else if a == [] then true
    else if a[0] != b[0] then a[0] < b[0]
    else StrLess(a[1..], b[1..])
  }

  lemma {:induction false} StrLessIrreflexive(a: string)
    ensures !StrLess(a, a)
  {
    if a != [] {
      StrLessIrreflexive(a[1..]);
    }
  }

  lemma {:induction false} StrLessTotal(a: string, b: string)
    requires a != b
    ensures StrLess(a, b) || StrLess(b, a)
  {
    if a != [] && b != [] && a[0] == b[0] {
      assert a == [a[0]] + a[1..] && b == [b[0]] + b[1..];
      StrLessTotal(a[1..], b[1..]);
    }
  }

  lemma {:induction false} StrLessTransitive(a: string, b: string, c: string)
    requires StrLess(a, b) && StrLess(b, c)
    ensures StrLess(a, c)
  {
    if a != [] && a[0] == b[0] && b[0] == c[0] {
      StrLessTransitive(a[1..], b[1..], c[1..]);
    }
  }

  /** One row of the grouped result: a regional and its total sales. */
  datatype Group = Group(regional: string, total: int)

  /** The group keys, in result order. */
  function Keys(gs: seq<Group>): (r: seq<string>)
    ensures |r| == |gs|
    ensures forall i :: 0 <= i < |gs| ==> r[i] == gs[i].regional
  {
    seq(|gs|, i requires 0 <= i < |gs| => gs[i].regional)
  }

  /** The set of group keys. */
  function KeySet(gs: seq<Group>): set<string> {
    if gs == [] then {} else {gs[0].regional} + KeySet(gs[1..])
  }

  lemma {:induction false} KeySetHasEntry(gs: seq<Group>, i: nat)
    requires i < |gs|
    ensures gs[i].regional in KeySet(gs)
  {
    if i > 0 {
      KeySetHasEntry(gs[1..], i - 1);
    }
  }

  /** Keys strictly ascending: the order pandas gives the groups. */
  ghost predicate StrictlySorted(gs: seq<Group>) {
    forall i, j :: 0 <= i < j < |gs| ==> StrLess(gs[i].regional, gs[j].regional)
  }

  /** Every key of `gs` is greater than `k`. */
  ghost predicate AllAbove(k: string, gs: seq<Group>) {
    forall j :: 0 <= j < |gs| ==> StrLess(k, gs[j].regional)
  }

  /** The total recorded for key `k` (zero when `k` has no entry). */
  function TotalFor(gs: seq<Group>, k: string): int {
    if gs == [] then 0
    else (if gs[0].regional == k then gs[0].total else 0) + TotalFor(gs[1..], k)
  }

  /** The sum of all entry totals: what the pie chart divides up. */
  function Total(gs: seq<Group>): int {
    if gs == [] then 0 else gs[0].total + Total(gs[1..])
  }

  /** Sorted keys are distinct. */
  lemma {:induction false} SortedKeysDistinct(gs: seq<Group>)
    requires StrictlySorted(gs)
    ensures NoDup(Keys(gs))
  {
    forall i, j | 0 <= i < j < |gs|
      ensures gs[i].regional != gs[j].regional
    {
      StrLessIrreflexive(gs[i].regional);
    }
  }

  lemma {:induction false} AboveHeadIsAboveAll(k: string, gs: seq<Group>)
    requires StrictlySorted(gs) && gs != [] && StrLess(k, gs[0].regional)
    ensures AllAbove(k, gs)
  {
    forall j | 0 < j < |gs|
      ensures StrLess(k, gs[j].regional)
    {
      StrLessTransitive(k, gs[0].regional, gs[j].regional);
    }
  }

  /** A key below every key of `gs` is not one of them. */
  lemma {:induction false} AboveIsAbsent(k: string, gs: seq<Group>)
    requires AllAbove(k, gs)
    ensures k !in KeySet(gs)
  {
    if gs != [] {
      StrLessIrreflexive(k);
      AboveIsAbsent(k, gs[1..]);
    }
  }

  /** A key no entry carries has total zero. */
  lemma {:induction false} TotalForAbsent(gs: seq<Group>, k: string)
    requires k !in KeySet(gs)
    ensures TotalFor(gs, k) == 0
  {
    if gs != [] {
      TotalForAbsent(gs[1..], k);
    }
  }

  /** In a sorted result, the total for an entry's key is that entry's total. */
  lemma {:induction false} TotalForEntry(gs: seq<Group>, i: nat)
    requires StrictlySorted(gs) && i < |gs|
    ensures TotalFor(gs, gs[i].regional) == gs[i].total
  {
    var k := gs[i].regional;
    if i == 0 {
      AboveIsAbsent(k, gs[1..]);
      TotalForAbsent(gs[1..], k);
    } else {
      StrLessIrreflexive(k);
      assert gs[1..][i - 1] == gs[i];
      TotalForEntry(gs[1..], i - 1);
    }
  }

  /**
   * Adding one sale of `v` to the regional `k`: the entry for `k` grows by `v`
   * (and is created, in key order, when absent); every other entry is untouched.
   */
  function AddToGroup(gs: seq<Group>, k: string, v: int): (r: seq<Group>)
    requires StrictlySorted(gs)
    ensures StrictlySorted(r)
    ensures forall b :: AllAbove(b, gs) && StrLess(b, k) ==> AllAbove(b, r)
    decreases |gs|
  {
    if gs == [] then [Group(k, v)]
    else if gs[0].regional == k then [Group(k, gs[0].total + v)] + gs[1..]
    else if StrLess(k, gs[0].regional) then
      AboveHeadIsAboveAll(k, gs);
      [Group(k, v)] + gs
    else
      StrLessTotal(k, gs[0].regional);
      assert AllAbove(gs[0].regional, gs[1..]);
      [gs[0]] + AddToGroup(gs[1..], k, v)
  }

  /** Adding to `k` leaves the existing keys and adds `k`. */
  lemma {:induction false} AddToGroupKeys(gs: seq<Group>, k: string, v: int)
    requires StrictlySorted(gs)
    ensures KeySet(AddToGroup(gs, k, v)) == KeySet(gs) + {k}
    decreases |gs|
  {
    var r := AddToGroup(gs, k, v);
    if gs != [] {
      if gs[0].regional == k {
        assert r[1..] == gs[1..];
      } else if StrLess(k, gs[0].regional) {
        assert r[1..] == gs;
      } else {
        AddToGroupKeys(gs[1..], k, v);
        assert r[1..] == AddToGroup(gs[1..], k, v);
      }
    }
  }

  /** Adding `v` to `k` raises the total for `k`, and the overall total, by `v`. */
  lemma {:induction false} AddToGroupTotals(gs: seq<Group>, k: string, v: int)
    requires StrictlySorted(gs)
    ensures forall k' :: TotalFor(AddToGroup(gs, k, v), k') == TotalFor(gs, k') + (if k' == k then v else 0)
    ensures Total(AddToGroup(gs, k, v)) == Total(gs) + v
    decreases |gs|
  {
    var r := AddToGroup(gs, k, v);
    if gs != [] {
      if gs[0].regional == k {
        assert r[1..] == gs[1..];
      } else if StrLess(k, gs[0].regional) {
        assert r[1..] == gs;
      } else {
        AddToGroupTotals(gs[1..], k, v);
        assert r[1..] == AddToGroup(gs[1..], k, v);
      }
    }
  }

  /**
   * The grouped sales of `df`: one entry per regional occurring in `df`, in
   * ascending key order; each key's total is the sum of its rows' amounts, and
   * the totals add up to the sum over the whole table.
   */
  function GroupSumByRegional(df: seq<Sale>): (r: seq<Group>)
    ensures StrictlySorted(r)
    ensures forall k :: k in KeySet(r) <==> k in Project(df, Regional)
    ensures forall k :: TotalFor(r, k) == SumValues(Where(df, Eq(Regional, k)))
    ensures Total(r) == SumValues(df)
  {
    if df == [] then []
    else
      assert Project(df, Regional) == [df[0].regional] + Project(df[1..], Regional);
      var rest := GroupSumByRegional(df[1..]);
      AddToGroupKeys(rest, df[0].regional, df[0].valorTotalVenda);
      AddToGroupTotals(rest, df[0].regional, df[0].valorTotalVenda);
      var r := AddToGroup(rest, df[0].regional, df[0].valorTotalVenda);
      assert forall k :: TotalFor(r, k) == SumValues(Where(df, Eq(Regional, k))) by {
        forall k ensures TotalFor(r, k) == SumValues(Where(df, Eq(Regional, k))) {
          var w := Where(df[1..], Eq(Regional, k));
          if df[0].regional == k {
            assert Where(df, Eq(Regional, k)) == [df[0]] + w;
            assert ([df[0]] + w)[1..] == w;
          } else {
            assert Where(df, Eq(Regional, k)) == w;
          }
        }
      }
      r
  }

  /** Each entry of the grouped result totals exactly the rows of its regional. */
  lemma {:induction false} GroupTotalsAreSums(df: seq<Sale>)
    ensures forall i :: 0 <= i < |GroupSumByRegional(df)| ==>
      GroupSumByRegional(df)[i].total
        == SumValues(Where(df, Eq(Regional, GroupSumByRegional(df)[i].regional)))
  {
    var r := GroupSumByRegional(df);
    forall i | 0 <= i < |r|
      ensures r[i].total == SumValues(Where(df, Eq(Regional, r[i].regional)))
    {
      TotalForEntry(r, i);
    }
  }

  /** The grouped result has no duplicate regional. */
  lemma {:induction false} GroupKeysDistinct(df: seq<Sale>)
    ensures NoDup(Keys(GroupSumByRegional(df)))
  {
    SortedKeysDistinct(GroupSumByRegional(df));
  }
}
