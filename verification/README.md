# Sales statistics reports, modelled in Dafny

This project models the report engine of a small sales dashboard that sits
on an Odoo ERP. The engine lives in `stats.py`. It has three report builders,
and each turns the record sets fetched from the ERP into a nested dictionary:

- **Weekly product report** (`sold_products_in_a_week`, module `WeeklyProducts`, `weekly.dfy`).
  1. Left-joins the week's invoice lines to the product records on `product_id`.
  2. Gives every joined row a utility of `price_subtotal - standard_price * quantity`.
  3. Groups the rows by product name.
  4. Reports each name as `[sum of price_subtotal, sum of utility, first lst_price]`.
- **Quotation ranking** (`quotation_amounts`, module `QuotationRanking`, `quotation.dfy`).
  1. Groups confirmed sale orders by salesperson.
  2. Keeps each salesperson's first name and the sum of `amount_untaxed`.
  3. Sorts the groups by that sum, largest first.
  4. Keeps at most five.
- **Monthly warehouse totals** (`get_monthly_total_amounts`, module `MonthlyTotals`, `monthly.dfy`).
  1. Reads a warehouse code out of each invoice name with the pattern `F\d-\w{2}`.
  2. Maps the code to a warehouse name and drops invoices without a code.
  3. Sums `amount_untaxed` per (warehouse, month).
  4. Emits one row per group, indexed 0..n-1.

Shared pieces:
- `grouping.dfy` (module `Grouping`) holds the dataframe operations the reports are built from:
  - the rows of one group;
  - a column sum;
  - `groupby` folds into a `map` that sum a column or take its first non-missing value;
  - the sorted order in which pandas enumerates groups.
- `text.dfy` (module `Text`) holds Python's code-point order on strings and Python's clamping slice.
- `wrappers.dfy` (module `Wrappers`) holds `Option`. A missing cell (pandas NaN) is `None`.

Modelling conventions:
- Each report is a pure function of the fetched records, which are its parameters.
- Amounts are exact `real`s.
- The Dafny reports return the dictionaries' contents in these shapes:
  - the weekly report is a `map` from product name to `ProductStats`;
  - the quotation report is the sequence of its entries in order;
  - the monthly report is the sequence of rows, where a row's index is its position.

Two details of `stats.py` fix what the model promises:
- The warehouse code is the slice `text[start+1:end-3]` of the match (stats.py:209). Every match of `F\d-\w{2}` is five characters long, so the slice is one character: the digit after `F`.
- `sort_values` (stats.py:152) uses pandas' default sort, which is not stable. So no order among equal sums is promised.

## Model

| member | source | states |
|---|---|---|
| Text.StrLess | stats.py:227 | no contract: Python's `<` on `str`, comparing code points left to right, with a proper prefix smaller; the three lemmas below state that it is a strict total order |
| Text.StrLessIrreflexive | stats.py:227 | no string sorts before itself in the order pandas uses for string group keys |
| Text.StrLessTransitive | stats.py:227 | the string order on group keys is transitive |
| Text.StrLessTotal | stats.py:227 | any two different strings are ordered one way or the other |
| Text.PySlice | stats.py:209 | Python slicing: the exact subsequence when the bounds fit, empty when the range is empty or starts past the end, and a clamped end otherwise |
| Grouping.Select | stats.py:227 | a group holds exactly the rows with its key, and no more rows than the input |
| Grouping.SelectHead | stats.py:146 | the first row of a group is the earliest row in input order with that key |
| Grouping.FirstSome | stats.py:146 | `first` yields the earliest non-missing value, with every earlier value missing, or missing when all are |
| Grouping.GroupSum | stats.py:227-235 | a sum aggregation has exactly one entry per distinct key |
| Grouping.GroupSumAt | stats.py:227-235 | the entry of a key holds the column's sum over exactly the rows with that key |
| Grouping.GroupFirst | stats.py:142-150 | a `first` aggregation has exactly one entry per distinct key |
| Grouping.GroupFirstAt | stats.py:142-150 | the entry of a key holds the first non-missing value among the rows with that key, or a missing value when all are missing |
| Grouping.Total | stats.py:233 | no contract: the sum of a column over a list of rows, as `sum` takes it; TotalSplits and SumOverKeysIsTotal state how it splits over groups |
| Grouping.Insert | stats.py:227 | adding a key to the group order yields exactly the old keys and the new one |
| Grouping.InsertKeepsSorted | stats.py:227 | under a strict total order, adding a key keeps the group order strictly ascending |
| Grouping.SortedKeys | stats.py:227 | the group order lists exactly the keys present |
| Grouping.SortedKeysSpec | stats.py:227 | under a strict total order, the group keys are strictly ascending, distinct, and as many as the distinct keys |
| Grouping.SumOverKeysIsTotal | stats.py:225-235 | summing the per-group totals over a duplicate-free list covering every key gives the total of all rows |
| MonthlyTotals.MonthName | stats.py:185-198 | every month number 1..12 has a non-empty Spanish name |
| MonthlyTotals.MonthNameRoundTrip | stats.py:185-198 | every month name reads back as its own month number |
| MonthlyTotals.MonthNamesDistinct | stats.py:185-198 | different month numbers have different names |
| MonthlyTotals.WarehouseLabel | stats.py:199-202 | code "1" is Cabo San Lucas and "2" is San José Del Cabo; any other code passes through unchanged; the label is empty exactly when the code is |
| MonthlyTotals.SearchFrom | stats.py:206 | the search finds the leftmost match of `F`, digit, `-`, two word characters at or after the start position, or reports that there is none |
| MonthlyTotals.IsDigit | stats.py:206 | no contract: `\d`, restricted to the ASCII digits |
| MonthlyTotals.IsWordChar | stats.py:206 | no contract: `\w`, restricted to ASCII letters, digits and underscore |
| MonthlyTotals.MatchesAt | stats.py:206 | no contract: the pattern `F`, digit, `-`, two word characters, matched at one position; SearchFrom and Search state where the search finds it |
| MonthlyTotals.Search | stats.py:206 | `re.search` yields the leftmost five-character match, and yields none exactly when the text has no match |
| MonthlyTotals.WarehouseKey | stats.py:205-210 | the key is empty exactly when the name contains no match; otherwise it is the single digit after `F` in the leftmost match |
| MonthlyTotals.Warehouse | stats.py:220 | the warehouse column is empty exactly when the invoice name holds no code; otherwise it is Cabo San Lucas, San José Del Cabo, or a digit other than 1 and 2 passed through |
| MonthlyTotals.Kept | stats.py:225 | the kept invoices are exactly those whose warehouse label is non-empty |
| MonthlyTotals.KeptCounts | stats.py:225 | the filter keeps each invoice with a warehouse exactly as often as it occurs in the input, and drops every other |
| MonthlyTotals.KeptIffCodeFound | stats.py:220-225 | an invoice is kept exactly when its name contains a warehouse code, and a kept invoice has a non-empty warehouse |
| MonthlyTotals.KeyLess | stats.py:227 | no contract: (warehouse, month number) compared by warehouse in code-point order, then by month; KeyLessIsStrictTotalOrder states that it is a strict total order |
| MonthlyTotals.Groups | stats.py:227 | no contract: the (warehouse, month) keys of the kept invoices in group order; MonthlyGroupsSpec states their order and number |
| MonthlyTotals.RowsFor | stats.py:237-255 | one output row per listed group; RowsForAt states each row's contents |
| MonthlyTotals.MonthlyReport | stats.py:161-256 | one row per listed group; MonthlyRowsSpec states each row's contents |
| MonthlyTotals.KeyLessIsStrictTotalOrder | stats.py:227 | the (warehouse, month number) order on group keys is a strict total order |
| MonthlyTotals.RowsForAt | stats.py:237-255 | row i carries group i's warehouse, its month's Spanish name and its total, and nothing else |
| MonthlyTotals.ReportTotalOfRows | stats.py:237-255 | the rows' totals add up to the per-group totals over the listed groups |
| MonthlyTotals.GroupsOrdered | stats.py:227 | the groups are listed in strictly ascending (warehouse, month) order, without repeats, one per distinct key |
| MonthlyTotals.MonthlyRowAt | stats.py:227-255 | row i has group i's non-empty warehouse, its month's name, and the sum over exactly that group's invoices |
| MonthlyTotals.MonthlyGroupsSpec | stats.py:225-227 | the groups are in strictly ascending (warehouse, month) order; a key is listed exactly when some kept invoice has it; there is one group per distinct key |
| MonthlyTotals.MonthlyRowsSpec | stats.py:227-255 | there is one row per group; row i has group i's non-empty warehouse, its month's name, and the sum over exactly that group's invoices |
| MonthlyTotals.MonthlyRowsDistinct | stats.py:227-235 | no two rows share both warehouse and month |
| MonthlyTotals.MonthlyTotalConserved | stats.py:225-235 | the report's totals add up to the amount of all kept invoices |
| MonthlyTotals.CaboSanLucasExample | stats.py:205-222 | the name "INV/F1-AB/0001" yields code "1", warehouse Cabo San Lucas, and month 3 is Marzo |
| MonthlyTotals.NoCodeExample | stats.py:205-225 | a name without a code yields an empty key, and its invoice does not reach the report |
| QuotationRanking.IntLessIsStrictTotalOrder | stats.py:142 | `<` on salesperson ids is a strict total order; SortedKeysSpec turns this into the ascending group order |
| QuotationRanking.Entries | stats.py:142-150 | one aggregated entry per listed salesperson |
| QuotationRanking.Groups | stats.py:142-150 | no contract: the aggregated entries in ascending salesperson id; GroupsSpec and GroupAt state their contents |
| QuotationRanking.EntriesAt | stats.py:142-150 | entry i holds salesperson i's first name and summed amount |
| QuotationRanking.GroupNameIsFirst | stats.py:146 | a salesperson's name is the name on their first order in input order |
| QuotationRanking.GroupAt | stats.py:142-150 | group i belongs to the i-th smallest salesperson id and aggregates exactly that salesperson's orders |
| QuotationRanking.GroupsSpec | stats.py:142-150 | before ranking there is exactly one entry per distinct salesperson, each with their sum and first name |
| QuotationRanking.InsertByAmount | stats.py:152 | insertion adds exactly the one entry, as a multiset, and keeps every other |
| QuotationRanking.InsertKeepsDescending | stats.py:152 | inserting into a list in descending order of amount keeps it descending |
| QuotationRanking.SortByAmount | stats.py:152 | the ranking is a permutation of the groups, in descending order of amount |
| QuotationRanking.PermutationKeepsUsers | stats.py:152 | a permutation keeps the length, keeps salespeople distinct, and keeps every salesperson listed |
| QuotationRanking.RankedSpec | stats.py:142-152 | the ranked list has one distinct entry per salesperson, each their true aggregate, in descending order |
| QuotationRanking.RankedEntry | stats.py:142-152 | every ranked entry is a true aggregate of one salesperson |
| QuotationRanking.RankedListsEveryone | stats.py:142-152 | every salesperson with an order is ranked |
| QuotationRanking.Take | stats.py:154 | `iloc[0:n]` keeps the first min(n, length) entries unchanged; it adds no entry and keeps a descending list descending |
| QuotationRanking.ListedInPrefix | stats.py:154 | an entry ranked before position k survives the cut at k |
| QuotationRanking.TopSpec | stats.py:154 | the cut keeps the order, the distinctness and the truth of the entries |
| QuotationRanking.TopDominates | stats.py:152-154 | an entry ranked at or after the cut has a sum no larger than any kept entry |
| QuotationRanking.QuotationReport | stats.py:112-159 | the report has at most five entries, in descending order of amount, each one of the aggregated groups |
| QuotationRanking.QuotationReportSpec | stats.py:139-159 | the report lists min(5, number of salespeople) distinct salespeople in descending order of their summed amounts, each with their true sum and first name |
| QuotationRanking.OmittedDominated | stats.py:152-154 | in a ranked list, whoever falls outside the first k has a sum no larger than any of them |
| QuotationRanking.QuotationReportKeepsLargest | stats.py:152-154 | every salesperson missing from the report has a sum no larger than every listed salesperson's |
| WeeklyProducts.JoinLine | stats.py:54-72 | a line yields exactly one row per matching product, in product order, or the single product-less row when no product matches; so it yields as many rows as products carry its id, or one |
| WeeklyProducts.SelectCountsId | stats.py:54-72 | the products matched on an id are as many as the products carrying that id |
| WeeklyProducts.LeftJoin | stats.py:54-72 | the join has as many rows in total as the lines have matching products, counting a line without any as one; it starts with the first line's rows; every row comes from a line; an attached product has the line's id; a row without a product means no product has that id |
| WeeklyProducts.LeftJoinBlock | stats.py:54-72 | each line's rows, one per matching product in product order or the single bare row, sit in the join right after the rows of the lines before it, so each line appears once per matching product and in line order |
| WeeklyProducts.Utility | stats.py:78-81 | the utility is missing exactly when the line's product is; otherwise the utility plus cost times quantity gives back the subtotal |
| WeeklyProducts.UtilityOrZero | stats.py:78-88 | `sum` counts a missing utility as 0 and a present one at its value |
| WeeklyProducts.LstPriceOf | stats.py:90 | the list price is missing exactly when the product is, and is otherwise the product's `lst_price` |
| WeeklyProducts.WeeklyReport | stats.py:7-108 | the report has one entry per product name on the invoice lines, whatever the product records; WeeklyReportSpec states the entries |
| WeeklyProducts.Lookup | stats.py:41-50 | the product found has the requested id, and none is found exactly when no product has it |
| WeeklyProducts.SelectUnique | stats.py:41-50 | with unique ids, an id matches no product or exactly the one that lookup finds |
| WeeklyProducts.JoinLineUnique | stats.py:54-72 | with unique ids, a line joins to exactly one row: the line with its product, or with none |
| WeeklyProducts.JoinOneToOne | stats.py:54-72 | with unique ids, join row i is line i with its own product or with none |
| WeeklyProducts.Resolve | stats.py:54-72 | the one-to-one join has exactly one row per line |
| WeeklyProducts.ResolveSelect | stats.py:84 | grouping the joined rows by name gives the joined rows of that name's lines |
| WeeklyProducts.ResolveSubtotal | stats.py:87-89 | the summed subtotal of the joined rows equals the summed subtotal of their lines |
| WeeklyProducts.ResolveUtility | stats.py:75-90 | the summed utility of the joined rows is each line's `price_subtotal - standard_price * quantity` summed, with a missing product adding nothing |
| WeeklyProducts.ResolveListPrice | stats.py:90 | the first list price among the joined rows is that of the first line whose product was fetched |
| WeeklyProducts.LineIsJoined | stats.py:54-72 | the left join drops no invoice line |
| WeeklyProducts.JoinKeepsNames | stats.py:54-86 | the product names grouped over are exactly the names on the lines |
| WeeklyProducts.WeeklyReportSpec | stats.py:75-108 | one entry per product name on the lines; each holds the summed subtotal, the summed utility and the first fetched list price of that name's lines |
| WeeklyProducts.Fetched | stats.py:41-50 | the second fetch returns exactly the products whose id is among the requested ids |
| WeeklyProducts.SelectFetched | stats.py:41-50 | for a requested id, the fetched products match exactly as all products would |
| WeeklyProducts.JoinFetched | stats.py:41-72 | joining against only the fetched products gives the same rows as joining against all |
| WeeklyProducts.FetchingLineProductsSuffices | stats.py:41-108 | fetching only the products whose id occurs on the lines leaves the report unchanged |
| WeeklyProducts.TwoLinesFacts | stats.py:75-93 | for two lines of one product, the line-level subtotal is 150, the utility is 60 and the list price is 80 |
| WeeklyProducts.TwoLinesExample | stats.py:54-108 | two lines of one product (subtotals 100 and 50, quantities 2 and 1, cost 30, price 80) report `[150, 60, 80]` |

## Left out

- `main.py` is not part of this model. It is the HTTP application, which only forwards to the report builders.
- `utils.py` is not part of this model. It shells out to `ipconfig` and reads a temporary file to find the local address.
- The ERP fetch (`get_dataset`, stats.py:38, 41, 136, 182) is a network call.
  - The fetched record sequences are parameters.
  - The search criteria of the first fetches (stats.py:20-28, 120-126, 168-172) are applied remotely and are not modelled; every record passed in counts as matching.
  - The second weekly fetch's criterion (ids among the lines' product ids) is modelled as `Fetched`.
- Floating-point arithmetic and rounding are not modelled: amounts are exact reals.
- Date parsing (stats.py:218) is not modelled. A move carries its month number, 1..12, as an input field.
- `\d` and `\w` are restricted to ASCII digits, and ASCII letters, digits and underscore. Python's Unicode classes are wider.
- Missing group keys are not modelled: an invoice line without a product name, or an order without a salesperson. pandas drops such rows from `groupby`. Keys here are always present.
- JSON serialisation and the dictionary layout are not modelled:
  - the weekly entry is a `ProductStats` record, not a three-element list;
  - quotation entries are not keyed by the stringified id;
  - the monthly row index is the position in the sequence.
- The weekly report's group order is not modelled. The result is a `map`, as the dictionary it becomes is looked up by name.
- QuotationRanking.SortByAmount is one admissible order for equal sums. The source's sort is not stable, so the lemmas state only what holds whatever the tie order.
- WeeklyProducts.WeeklyReportSpec: the per-line form is stated only when product ids are unique, as the ids of database records are. For duplicate ids, `JoinLine` states a line's rows exactly (one per matching product, in product order). `LeftJoin` states the row count, and `LeftJoinBlock` places each line's rows after those of the lines before it. The report's entries are then the `GroupSumAt`/`GroupFirstAt` values over those rows; no per-line closed form is stated.
- MonthlyTotals.MonthName: states only that every name is non-empty. Each name itself is the constant `MonthNames`; `MonthNameRoundTrip` reads each name back as its number, and `MonthNamesDistinct` states that the names are distinct.
- MonthlyTotals.MonthlyReport: the month name is taken from the group's month number, not as the `first` of the group's month names (stats.py:231). The two are equal, because every invoice of a group has that month number.
