/**
 * `get_monthly_total_amounts`: posted customer invoices are labelled with the
 * warehouse named by the code embedded in the invoice name, invoices without
 * such a code are dropped, and the rest are summed per (warehouse, month).
 * The result is one row per group, indexed 0..n-1 in group order; here the
 * row index is the position in the returned sequence.
 */
module MonthlyTotals {
  import opened Wrappers
  import opened Text
  import opened Grouping

  /** A calendar month number, as `invoice_date.dt.month` yields it. */
  type Month = m: int | 1 <= m <= 12 witness 1

  /** A posted customer invoice (`account.move`); `month` stands for the month of `invoice_date`. */
  datatype Move = Move(name: string, amountUntaxed: real, month: Month)

  /** The grouping key `["warehouse", "month_num"]`. */
  datatype GroupKey = GroupKey(warehouse: string, month: Month)

  /** One output row: `{"warehouse", "month", "total_amount"}`. */
  datatype MonthlyRow = MonthlyRow(warehouse: string, month: string, totalAmount: real)

  // ----- lookups -----

  const MonthNames: map<int, string> := map[
    1 := "Enero", 2 := "Febrero", 3 := "Marzo", 4 := "Abril",
    5 := "Mayo", 6 := "Junio", 7 := "Julio", 8 := "Agosto",
    9 := "Septiembre", 10 := "Octubre", 11 := "Noviembre", 12 := "Diciembre"]

  const WarehouseKeys: map<string, string> := map["1" := "Cabo San Lucas", "2" := "San José Del Cabo"]

  /** `month_num.replace(month_names)`: every month number has a Spanish name. */
  function MonthName(m: Month): (name: string)
    ensures name != ""
  {
    MonthNames[m]
  }

  /** `.replace(warehouse_keys)`: a key in the table becomes its label, any other value is kept. */
  function WarehouseLabel(key: string): (warehouse: string)
    ensures key == "1" ==> warehouse == "Cabo San Lucas"
    ensures key == "2" ==> warehouse == "San José Del Cabo"
    ensures key != "1" && key != "2" ==> warehouse == key
    ensures warehouse == "" <==> key == ""
  {
    if key in WarehouseKeys then WarehouseKeys[key] else key
  }

  // ----- the pattern F\d-\w{2} -----

  /** `\d` restricted to ASCII. */
  predicate IsDigit(c: char)
  {
    '0' <= c <= '9'
  }

  /** `\w` restricted to ASCII: letters, digits and underscore. */
  predicate IsWordChar(c: char)
  {
    'a' <= c <= 'z' || 'A' <= c <= 'Z' || IsDigit(c) || c == '_'
  }

  /** Every match of `F\d-\w{2}` is this long. */
  const MatchLength := 5

  /** `F\d-\w{2}` matches `text` at position `i`. */
  predicate MatchesAt(text: string, i: nat)
  {
    && i + MatchLength <= |text|
    && text[i] == 'F'
    && IsDigit(text[i + 1])
    && text[i + 2] == '-'
    && IsWordChar(text[i + 3])
    && IsWordChar(text[i + 4])
  }

  /** The span `(start, end)` of a regular-expression match. */
  datatype Span = Span(start: nat, end: nat)

  /** The leftmost match starting at `from` or later. */
  function SearchFrom(text: string, from: nat): (r: Option<Span>)
    decreases |text| - from
    ensures r.Some? ==> && from <= r.value.start
                        && r.value.end == r.value.start + MatchLength
                        && MatchesAt(text, r.value.start)
                        && forall i :: from <= i < r.value.start ==> !MatchesAt(text, i)
    ensures r.None? ==> forall i :: from <= i ==> !MatchesAt(text, i)
  {
    if |text| < from + MatchLength then None
    else if MatchesAt(text, from) then Some(Span(from, from + MatchLength))
    else SearchFrom(text, from + 1)
  }

  /** `re.search(r"F\d-\w{2}", text)`: the leftmost match, if any. */
  function Search(text: string): (r: Option<Span>)
    ensures r.Some? ==> && r.value.end == r.value.start + MatchLength
                        && MatchesAt(text, r.value.start)
                        && forall i :: 0 <= i < r.value.start ==> !MatchesAt(text, i)
    ensures r.None? <==> forall i :: !MatchesAt(text, i)
  {
    SearchFrom(text, 0)
  }

  /**
   * `get_warehouse_key`: the slice `text[start+1:end-3]` of the leftmost
   * match, or "" when there is none. Since every match is five characters
   * long, the slice is the single digit that follows the `F`.
   */
  function WarehouseKey(text: string): (key: string)
    ensures key == "" <==> forall i :: !MatchesAt(text, i)
    ensures key != "" ==> exists i: nat :: && MatchesAt(text, i)
                                     && (forall j :: 0 <= j < i ==> !MatchesAt(text, j))
                                     && key == [text[i + 1]]
    ensures |key| <= 1 && forall c :: c in key ==> IsDigit(c)
  {
    match Search(text)
    case None => ""
    case Some(span) =>
      assert span.end - 3 == span.start + 2 <= |text|;
      assert PySlice(text, span.start + 1, span.end - 3) == [text[span.start + 1]];
      PySlice(text, span.start + 1, span.end - 3)
  }

  // ----- the report -----

  /** The `warehouse` column: the label of the key found in the invoice name. */
  function Warehouse(m: Move): (w: string)
    ensures w == "" <==> forall i :: !MatchesAt(m.name, i)
    ensures w == "" || w == "Cabo San Lucas" || w == "San José Del Cabo" || (|w| == 1 && IsDigit(w[0]) && w != "1" && w != "2")
  {
    WarehouseLabel(WarehouseKey(m.name))
  }

  /** `.query("warehouse != ''")`: the invoices whose name holds a warehouse code, in input order. */
  function Kept(moves: seq<Move>): (kept: seq<Move>)
    ensures forall m :: m in kept <==> m in moves && Warehouse(m) != ""
  {
    if moves == [] then []
    else if Warehouse(moves[0]) != "" then [moves[0]] + Kept(moves[1..])
    else Kept(moves[1..])
  }

  /** The filter keeps every invoice with a warehouse as often as it occurs, and no other. */
  lemma {:induction false} KeptCounts(moves: seq<Move>, m: Move)
    ensures multiset(Kept(moves))[m] == if Warehouse(m) != "" then multiset(moves)[m] else 0
  {
    if moves != [] {
      var rest := moves[1..];
      KeptCounts(rest, m);
      assert moves == [moves[0]] + rest;
      if Warehouse(moves[0]) != "" {
        assert Kept(moves) == [moves[0]] + Kept(rest);
      } else {
        assert Kept(moves) == Kept(rest);
      }
    }
  }

  function KeyOf(m: Move): GroupKey
  {
    GroupKey(Warehouse(m), m.month)
  }

  function AmountOf(m: Move): real
  {
    m.amountUntaxed
  }

  /** The order of pandas' sorted group keys: by warehouse (code-point order), then by month number. */
  predicate KeyLess(a: GroupKey, b: GroupKey)
  {
    StrLess(a.warehouse, b.warehouse) || (a.warehouse == b.warehouse && a.month < b.month)
  }

  lemma KeyLessIsStrictTotalOrder()
    ensures StrictTotalOrder(KeyLess)
  {
    forall a: GroupKey ensures !KeyLess(a, a) {
      StrLessIrreflexive(a.warehouse);
    }
    forall a: GroupKey, b: GroupKey, c: GroupKey | KeyLess(a, b) && KeyLess(b, c) ensures KeyLess(a, c) {
      if StrLess(a.warehouse, b.warehouse) && StrLess(b.warehouse, c.warehouse) {
        StrLessTransitive(a.warehouse, b.warehouse, c.warehouse);
      }
    }
    forall a: GroupKey, b: GroupKey | a != b ensures KeyLess(a, b) || KeyLess(b, a) {
      if a.warehouse != b.warehouse {
        StrLessTotal(a.warehouse, b.warehouse);
      }
    }
  }

  /** The groups of the kept invoices, in the order the report lists them. */
  function Groups(moves: seq<Move>): seq<GroupKey>
  {
    SortedKeys(Kept(moves), KeyOf, KeyLess)
  }

  /** `reset_index()` and the column projection/rename: one row per listed group. */
  function RowsFor(ks: seq<GroupKey>, totals: map<GroupKey, real>): (rows: seq<MonthlyRow>)
    requires forall k :: k in ks ==> k in totals
    ensures |rows| == |ks|
  {
    if ks == [] then []
    else [MonthlyRow(ks[0].warehouse, MonthName(ks[0].month), totals[ks[0]])] + RowsFor(ks[1..], totals)
  }

  /** `get_monthly_total_amounts` applied to the fetched invoices. */
  function MonthlyReport(moves: seq<Move>): (r: seq<MonthlyRow>)
    ensures |r| == |Groups(moves)|
  {
    RowsFor(Groups(moves), GroupSum(Kept(moves), KeyOf, AmountOf))
  }

  /** The sum of the `total_amount` column of the report. */
  function ReportTotal(rows: seq<MonthlyRow>): real
  {
    if rows == [] then 0.0 else rows[0].totalAmount + ReportTotal(rows[1..])
  }

  // ----- properties -----

  /** The month number a Spanish month name stands for; 0 for any other text. */
  function MonthNumber(name: string): int
  {
    if name == "Enero" then 1 else if name == "Febrero" then 2 else if name == "Marzo" then 3
    else if name == "Abril" then 4 else if name == "Mayo" then 5 else if name == "Junio" then 6
    else if name == "Julio" then 7 else if name == "Agosto" then 8 else if name == "Septiembre" then 9
    else if name == "Octubre" then 10 else if name == "Noviembre" then 11 else if name == "Diciembre" then 12
    else 0
  }

  /** The month name can be read back as its month number. */
  lemma MonthNameRoundTrip(m: Month)
    ensures MonthNumber(MonthName(m)) == m
  {
  }

  /** The month column names the month number unambiguously. */
  lemma MonthNamesDistinct(a: Month, b: Month)
    requires a != b
    ensures MonthName(a) != MonthName(b)
  {
    MonthNameRoundTrip(a);
    MonthNameRoundTrip(b);
  }

  /** An invoice is kept exactly when its name holds a match of `F\d-\w{2}`. */
  lemma KeptIffCodeFound(moves: seq<Move>, m: Move)
    ensures m in Kept(moves) <==> m in moves && Search(m.name).Some?
    ensures m in Kept(moves) ==> Warehouse(m) != ""
  {
  }

  lemma {:induction false} ReportTotalOfRows(ks: seq<GroupKey>, kept: seq<Move>, totals: map<GroupKey, real>)
    requires forall k :: k in ks ==> k in totals && totals[k] == Total(Select(kept, KeyOf, k), AmountOf)
    ensures ReportTotal(RowsFor(ks, totals)) == SumOverKeys(ks, kept, KeyOf, AmountOf)
  {
    if ks != [] {
      ReportTotalOfRows(ks[1..], kept, totals);
    }
  }

  lemma {:induction false} RowsForAt(ks: seq<GroupKey>, totals: map<GroupKey, real>, i: nat)
    requires forall k :: k in ks ==> k in totals
    requires i < |ks|
    ensures RowsFor(ks, totals)[i] == MonthlyRow(ks[i].warehouse, MonthName(ks[i].month), totals[ks[i]])
  {
    if i > 0 {
      RowsForAt(ks[1..], totals, i - 1);
    }
  }

  /** The report's groups are strictly ascending, hence distinct, and there is one per distinct key. */
  lemma GroupsOrdered(moves: seq<Move>)
    ensures StrictlySorted(Groups(moves), KeyLess)
    ensures Distinct(Groups(moves))
    ensures |Groups(moves)| == |KeysOf(Kept(moves), KeyOf)|
  {
    KeyLessIsStrictTotalOrder();
    SortedKeysSpec(Kept(moves), KeyOf, KeyLess);
  }

  /** Row i of the report describes group i: its warehouse, never empty, its month's name and its total. */
  lemma MonthlyRowAt(moves: seq<Move>, i: nat)
    requires i < |Groups(moves)|
    ensures var k := Groups(moves)[i]; var r := MonthlyReport(moves);
            && i < |r|
            && k.warehouse != ""
            && r[i] == MonthlyRow(k.warehouse, MonthName(k.month), Total(Select(Kept(moves), KeyOf, k), AmountOf))
  {
    var kept := Kept(moves);
    var ks := Groups(moves);
    var k := ks[i];
    RowsForAt(ks, GroupSum(kept, KeyOf, AmountOf), i);
    assert k in KeysOf(kept, KeyOf);
    GroupSumAt(kept, KeyOf, AmountOf, k);
  }

  /**
   * The report's groups are the distinct (warehouse, month number) pairs
   * among the kept invoices, each once, in ascending (warehouse, month) order.
   */
  lemma MonthlyGroupsSpec(moves: seq<Move>)
    ensures var ks := Groups(moves);
            && StrictlySorted(ks, KeyLess)
            && (forall k :: k in ks <==> exists m :: m in Kept(moves) && KeyOf(m) == k)
            && |ks| == |KeysOf(Kept(moves), KeyOf)|
  {
    GroupsOrdered(moves);
  }

  /**
   * The report has one row per group; row i carries group i's warehouse,
   * never empty, the Spanish name of its month and the sum of
   * `amount_untaxed` over exactly the kept invoices of that group.
   */
  lemma MonthlyRowsSpec(moves: seq<Move>)
    ensures var ks := Groups(moves); var r := MonthlyReport(moves);
            && |r| == |ks|
            && forall i :: 0 <= i < |r| ==>
                 && r[i].warehouse == ks[i].warehouse != ""
                 && r[i].month == MonthName(ks[i].month)
                 && r[i].totalAmount == Total(Select(Kept(moves), KeyOf, ks[i]), AmountOf)
  {
    var ks := Groups(moves);
    var r := MonthlyReport(moves);
    forall i | 0 <= i < |r|
      ensures && r[i].warehouse == ks[i].warehouse != ""
              && r[i].month == MonthName(ks[i].month)
              && r[i].totalAmount == Total(Select(Kept(moves), KeyOf, ks[i]), AmountOf)
    {
      MonthlyRowAt(moves, i);
    }
  }

  /** No two rows of the report share both their warehouse and their month. */
  lemma MonthlyRowsDistinct(moves: seq<Move>)
    ensures var r := MonthlyReport(moves);
            forall i, j :: 0 <= i < j < |r| ==> r[i].warehouse != r[j].warehouse || r[i].month != r[j].month
  {
    var r := MonthlyReport(moves);
    var ks := Groups(moves);
    MonthlyGroupsSpec(moves);
    MonthlyRowsSpec(moves);
    forall i, j | 0 <= i < j < |r| ensures r[i].warehouse != r[j].warehouse || r[i].month != r[j].month {
      assert KeyLess(ks[i], ks[j]);
      if ks[i].warehouse == ks[j].warehouse {
        StrLessIrreflexive(ks[i].warehouse);
        MonthNamesDistinct(ks[i].month, ks[j].month);
      }
    }
  }

  /** Grouping loses nothing: the report's totals add up to the amount of all kept invoices. */
  lemma MonthlyTotalConserved(moves: seq<Move>)
    ensures ReportTotal(MonthlyReport(moves)) == Total(Kept(moves), AmountOf)
  {
    var kept := Kept(moves);
    var ks := Groups(moves);
    GroupsOrdered(moves);
    var totals := GroupSum(kept, KeyOf, AmountOf);
    forall k | k in ks ensures k in totals && totals[k] == Total(Select(kept, KeyOf, k), AmountOf) {
      GroupSumAt(kept, KeyOf, AmountOf, k);
    }
    ReportTotalOfRows(ks, kept, totals);
    SumOverKeysIsTotal(ks, kept, KeyOf, AmountOf);
  }

  /** An invoice name with the code `F1-AB` belongs to Cabo San Lucas. */
  lemma CaboSanLucasExample()
    ensures WarehouseKey("INV/F1-AB/0001") == "1"
    ensures Warehouse(Move("INV/F1-AB/0001", 100.0, 3)) == "Cabo San Lucas"
    ensures MonthName(3) == "Marzo"
  {
    var text := "INV/F1-AB/0001";
    assert MatchesAt(text, 4);
    assert forall i :: 0 <= i < 4 ==> !MatchesAt(text, i);
    assert SearchFrom(text, 4) == Some(Span(4, 9));
  }

  /** An invoice whose name holds no code never reaches the report. */
  lemma NoCodeExample()
    ensures WarehouseKey("NOMATCH") == ""
    ensures MonthlyReport([Move("NOMATCH", 100.0, 3)]) == []
  {
    var m := Move("NOMATCH", 100.0, 3);
    assert forall i :: !MatchesAt("NOMATCH", i);
    assert Kept([m]) == [];
  }
}
