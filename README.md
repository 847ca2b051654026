# Sales dashboard pipeline — a Dafny model

The repository is a set of Dash dashboards over one sales table
("Desempenho de Vendas - 2020"). Apart from loading and drawing, the only
logic in them is a small pipeline written as pandas expressions:

- the two price columns `Valor_Produto` and `Valor_Total_Venda` of the shared
  frame `df` are overwritten in place, each cell with the `float` of its text
  stripped of everything but digits and dots. The model covers the stripping
  and the in-place overwrite, and stops at the cleaned text: the `float` step
  is left out (see below);
- the regional totals `df.groupby('Regional')['Valor_Total_Venda'].sum()`;
- the month, representative and regional multi-select filters (`isin`), whose
  dropdowns start with every distinct value (`unique()`) selected; the month
  is the second `-`-separated field of `Data_Pedido`;
- the cascading state → city dropdown (`update_cidades_options`) and the
  optional state and city filters (`update_graph_estado_cidade`).

`app_dash.py` repeats the same pipeline as the "Pergunta 2" and "Pergunta 3"
parts of `app.py`. This model covers both files. In the table below each
member cites the lines of one of the two files. The twin lines are:
cleaning app.py:12-13 / app_dash.py:13-14; startup regional totals
app.py:16 / app_dash.py:17; dropdown defaults app.py:85-113 /
app_dash.py:56-79; month, representative and regional callbacks
app.py:125-149 / app_dash.py:107-131; city options app.py:190-196 /
app_dash.py:138-144; state and city filtering app.py:204-209 /
app_dash.py:152-157.

Modules, leaf first:

- `Wrappers` (wrappers.dfy): `Option`, Python's `None` next to a value.
- `Sequences` (sequences.dfy): order-preserving subsequences, duplicate-free
  sequences, and `Unique`, which is pandas' `unique()` (distinct values in
  order of first appearance).
- `Currency` (currency.dfy): the cleaner `re.sub(r'[^\d.]', '', x)`.
- `Dates` (dates.dfy): `str.split('-')`, its inverse `join`, and the month key.
- `Frame` (frame.dfy): the class `SalesFrame`, the frame `df` whose price
  columns the loading code overwrites in place.
- `Table` (table.dfy): the cleaned sales row, row conditions (the boolean
  masks), and `Where`, which is `df[mask]`.
- `GroupBy` (groupby.dfy): the regional group-by sum. pandas sorts the group
  keys by default, so the result is in ascending key order under Python's
  string comparison (`StrLess`).
- `Callbacks` (callbacks.dfy): the dropdown defaults and the five callbacks.

The table is a `seq` of rows; the measure `valorTotalVenda` is an integer
(for instance cents). The state and city dropdowns send `None` when nothing is
selected, modelled as `Option`. The month key of a date without `-` is the
missing value that pandas puts in column 1, modelled as `None`. `unique()`
lists that missing value like any other, and `isin` matches it, so month
selections are lists of `Option<string>`. When no date has a `-` at all,
pandas never creates column 1. Indexing it then raises `KeyError`, which
`MonthOptions` and `UpdateGraphMes` return as `None`.

## Model

| member | source | states |
|---|---|---|
| `Currency.StripCurrency` | app.py:12-13 | the cleaned text holds only `0`-`9` and `.`, keeps every digit and dot as often as the input has it, and is no longer than the input |
| `Currency.StripIsSubsequence` | app.py:12-13 | the cleaned text is the input with characters deleted, the kept ones in their original order |
| `Currency.StripIdempotent` | app.py:12-13 | cleaning twice equals cleaning once |
| `Currency.StripCleanIsIdentity` | app_dash.py:13-14 | text that holds only digits and dots passes through unchanged |
| `Currency.StripConcat` | app_dash.py:13-14 | cleaning works character by character: it distributes over concatenation |
| `Frame.StripPrice` | app.py:12 | the chosen price cell becomes clean; the other price cell and all non-price cells are unchanged |
| `Frame.StripPriceIdempotent` | app_dash.py:13 | cleaning a price cell a second time changes nothing |
| `Frame.SalesFrame.constructor` | app.py:67 | the frame holds the rows it was loaded with |
| `Frame.SalesFrame.StripPriceColumn` | app.py:70 | the overwrite of one price column, up to the cleaned text (the source stores the `float` of that text, which is left out): every row's cell in the column is replaced by its cleaned text; row count and order and all other cells are unchanged |
| `Frame.SalesFrame.StripPriceColumns` | app.py:70-71 | after both overwrites, every row holds its old cells with both prices cleaned, and both price cells of every row hold only digits and dots |
| `Dates.Split` | app.py:87 | split yields at least one field, exactly one iff the separator does not occur, and no field contains the separator |
| `Dates.JoinSplit` | app.py:87 | joining the fields of a split with the separator gives back the original text |
| `Dates.SplitJoin` | app_dash.py:58 | splitting the join of separator-free fields gives back those fields |
| `Dates.MonthKey` | app.py:126 | a date has a month key iff it contains `-`, and the key contains no `-` |
| `Dates.MonthKeyOfDate` | app_dash.py:108 | for a date `<year>-<month>` or `<year>-<month>-<rest>`, the key is the month field |
| `Sequences.Unique` | app.py:99 | `unique()`: no duplicates, and exactly the values occurring in the input |
| `Sequences.UniqueFirstAppearanceOrder` | app.py:192 | `unique()` lists values in the order of their first occurrence |
| `Table.Project` | app.py:192 | `df[col]`: one cell per row, the row's value in that column |
| `Table.MonthColumn` | app.py:87 | the month column has one cell per row, the row's month key, missing exactly for dates without `-` |
| `Table.Holds` | app.py:125-147 | the masks: an empty `isin` list or month list matches no row, and a one-value `isin` list matches exactly the rows equal to that value |
| `Table.Restrict` | app.py:205-209 | an optional selection: `None` lets every row pass, a value lets through exactly the rows whose column equals it |
| `Table.Where` | app.py:136 | a row is in `df[mask]` iff it is in `df` and satisfies the mask; each satisfying row occurs as often as in `df` and every other row not at all; the result is an order-preserving subsequence of `df` |
| `Table.WhereAllHold` | app.py:101 | a mask every row satisfies returns the whole table |
| `Table.WhereNoneHold` | app_dash.py:118 | a mask no row satisfies returns no rows |
| `Table.WhereAnd` | app.py:205-209 | narrowing by one mask and then another equals narrowing by their conjunction |
| `Table.WhereCommutes` | app_dash.py:153-157 | two successive narrowings may be applied in either order |
| `GroupBy.StrLessTotal` | app.py:16 | Python string order: of two different strings one is smaller |
| `GroupBy.StrLessTransitive` | app_dash.py:17 | Python string order is transitive |
| `GroupBy.AddToGroup` | app.py:147 | adding one sale keeps the groups in strictly ascending key order |
| `GroupBy.AddToGroupKeys` | app.py:147 | adding one sale to key `k` yields the old keys plus `k` |
| `GroupBy.AddToGroupTotals` | app_dash.py:129 | adding `v` to key `k` raises the total for `k`, and the overall total, by `v`, and no other key's total |
| `GroupBy.GroupSumByRegional` | app.py:16 | one group per distinct regional in the rows, in ascending key order; each key's total is the sum over that regional's rows; the totals add up to the sum over all rows |
| `GroupBy.GroupTotalsAreSums` | app.py:74 | each group's total equals the sum of `Valor_Total_Venda` over the rows of its regional |
| `GroupBy.GroupKeysDistinct` | app_dash.py:17 | the grouped result has no duplicate regional |
| `Callbacks.ColumnOptions` | app.py:111-113 | dropdown options and default selection: each value of the column once, and only those |
| `Callbacks.MonthOptions` | app.py:87-89 | the month options fail (`KeyError`) iff no date contains `-`; otherwise they are the distinct month keys, missing key included |
| `Callbacks.UpdateGraphMes` | app.py:125-126 | fails iff no date contains `-`; otherwise keeps, in table order, exactly the rows whose month key is selected, each as often as the table holds it |
| `Callbacks.UpdateGraphRepresentante` | app.py:135-136 | keeps, in table order, exactly the rows whose representative is selected, each as often as the table holds it |
| `Callbacks.UpdateGraphRegional` | app.py:145-147 | one ascending group per selected regional that occurs in the table; the totals add up to the sum over the selected rows |
| `Callbacks.RegionalSliceTotals` | app_dash.py:127-129 | each pie slice totals all rows of the table with that regional |
| `Callbacks.UpdateCidadesOptions` | app.py:190-196 | no state selected gives no options; otherwise duplicate-free options, a city listed iff some row pairs it with the selected state |
| `Callbacks.CidadesOptionsOrder` | app_dash.py:140-141 | the city options come in the order each city first appears among the state's rows |
| `Callbacks.UpdateGraphEstadoCidade` | app.py:204-209 | `None` imposes no restriction; a row is kept iff it matches every selected value, and the result is the conjunction filter |
| `Callbacks.EstadoCidadeOrderIrrelevant` | app_dash.py:152-157 | filtering by city first and state second gives the same rows as the callback's state-then-city order |
| `Callbacks.DefaultRepresentanteKeepsAll` | app_dash.py:65-69 | the initial representative selection (all distinct values) keeps the whole table |
| `Callbacks.DefaultRegionalKeepsAll` | app_dash.py:73-79 | the initial regional selection reproduces the regional totals computed at load time |
| `Callbacks.DefaultMonthsKeepAll` | app_dash.py:56-60 | when the month options exist, the initial month selection keeps the whole table |
| `Callbacks.EmptySelectionKeepsNothing` | app.py:146 | a cleared representative, regional or month selection keeps no rows |

## Left out

- Reading the CSV from the web or from disk: file and network I/O. The model starts from rows already in memory.
- The Dash application, its layout and widgets, the callback wiring and `run_server`: UI and serving. The callbacks are modelled as functions of their inputs and the table.
- The `px.line`, `px.bar` and `px.pie` figures, including any aggregation the plotting library does on its own: rendering. The callbacks are modelled up to the table handed to the figure.
- `float(...)` after cleaning: floating-point parsing is not modelled. It raises `ValueError` on a cleaned text such as `""` or `"1.2.3"`; the model stops at the cleaned text. The cleaned table's amount is an exact integer, and sums are exact.
- `Currency.StripCurrency`: Python's `\d` also matches non-ASCII Unicode digits; the model keeps only ASCII `0`-`9`.
- Missing values (`NaN`) in the text columns of the CSV are not modelled: every cell is a string. The `dropna` behaviour of `groupby` therefore does not arise.
- The dropdown option dictionaries `{'label': v, 'value': v}` are modelled as the list of values `v`.
- `Frame.SalesFrame.StripPriceColumn`: stores the cleaned text in the cell where the source stores its `float`, because floating-point parsing is not modelled.
- `Frame.SalesFrame.StripPriceColumns`: the same, for both price columns.
- `SalesFrame` holds the rows as read, with price text. `Table.Sale` holds the cleaned rows with a numeric amount. The conversion between the two is the `float(...)` step above.
- The product chart (`Nome_Produto`, `Quantidade_Vendida`) and the unfiltered startup charts only draw the table; there is no logic in them to model.
