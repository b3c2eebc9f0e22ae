/**
 * `sold_products_in_a_week`: the week's invoice lines are left-joined to the
 * product records on `product_id`; every joined row gets a utility of
 * `price_subtotal - standard_price * quantity`; the rows are grouped by
 * product name and each name is reported as
 * `[sum of price_subtotal, sum of utility, first lst_price]`.
 * A line whose product did not resolve has no product columns (pandas NaN):
 * its utility is missing and `sum` skips it, and `first` skips its missing
 * list price.
 */
module WeeklyProducts {
  import opened Wrappers
  import opened Grouping

  /** An invoice line; `product_id` arrives split into the id and the product's display name. */
  datatype InvoiceLine = InvoiceLine(quantity: real, priceSubtotal: real, productId: int, productName: string)

  /** A product record as fetched: its id, cost and public price. */
  datatype Product = Product(id: int, standardPrice: real, lstPrice: real)

  /** A row of the left join: the line with its product's columns, or without any when none matched. */
  datatype JoinedLine = JoinedLine(line: InvoiceLine, product: Option<Product>)

  /** The per-name entry of the report, the list `[subtotal, utility, lst_price]`. */
  datatype ProductStats = ProductStats(subtotal: real, utility: real, lstPrice: Option<real>)

  function ProductIdOf(p: Product): int
  {
    p.id
  }

  /** The rows one invoice line contributes to the left join: one per matching product, in product order, or one bare row. */
  function JoinLine(l: InvoiceLine, products: seq<Product>): (rs: seq<JoinedLine>)
    ensures var ms := Select(products, ProductIdOf, l.productId);
            && (ms == [] ==> rs == [JoinedLine(l, None)])
            && (ms != [] ==> |rs| == |ms| && forall i :: 0 <= i < |ms| ==> rs[i] == JoinedLine(l, Some(ms[i])))
    ensures |rs| == MatchRows(products, l.productId)
    ensures forall r :: r in rs ==> r.line == l
    ensures forall r :: r in rs && r.product.Some? ==> r.product.value in products && r.product.value.id == l.productId
    ensures forall p :: p in products && p.id == l.productId ==> JoinedLine(l, Some(p)) in rs
    ensures JoinedLine(l, None) in rs <==> forall p :: p in products ==> p.id != l.productId
  {
    SelectCountsId(products, l.productId);
    var ms := Select(products, ProductIdOf, l.productId);
    if ms == [] then
      [JoinedLine(l, None)]
    else
      var rs := seq(|ms|, i requires 0 <= i < |ms| => JoinedLine(l, Some(ms[i])));
      assert forall p :: p in ms ==> JoinedLine(l, Some(p)) in rs by {
        forall p | p in ms ensures JoinedLine(l, Some(p)) in rs {
          var i :| 0 <= i < |ms| && ms[i] == p;
          assert rs[i] == JoinedLine(l, Some(p));
        }
      }
      assert ms[0] in products && ms[0].id == l.productId;
      rs
  }

  /** How many product records carry the id `id`. */
  function CountId(products: seq<Product>, id: int): nat
  {
    if products == [] then 0 else (if products[0].id == id then 1 else 0) + CountId(products[1..], id)
  }

  /** The rows a line with product `id` yields: one per product with that id, or the one bare row. */
  function MatchRows(products: seq<Product>, id: int): nat
  {
    var n := CountId(products, id);
    if n == 0 then 1 else n
  }

  lemma {:induction false} SelectCountsId(products: seq<Product>, id: int)
    ensures |Select(products, ProductIdOf, id)| == CountId(products, id)
  {
    if products != [] {
      SelectCountsId(products[1..], id);
    }
  }

  /** The number of rows a left join of `lines` yields: each line counted once per matching product, at least once. */
  function JoinSize(lines: seq<InvoiceLine>, products: seq<Product>): nat
  {
    if lines == [] then 0 else MatchRows(products, lines[0].productId) + JoinSize(lines[1..], products)
  }

  /** `pd.merge(lines, products, on='product_id', how='left')`: each line's rows, in line order. */
  function LeftJoin(lines: seq<InvoiceLine>, products: seq<Product>): (rows: seq<JoinedLine>)
    ensures |rows| == JoinSize(lines, products)
    ensures lines != [] ==> rows[..|JoinLine(lines[0], products)|] == JoinLine(lines[0], products)
    ensures |rows| >= |lines|
    ensures forall r :: r in rows ==> r.line in lines
    ensures forall r :: r in rows && r.product.Some? ==> r.product.value in products && r.product.value.id == r.line.productId
    ensures forall r :: r in rows && r.product.None? ==> forall p :: p in products ==> p.id != r.line.productId
  {
    if lines == [] then []
    else
      var rs := JoinLine(lines[0], products);
      var rest := LeftJoin(lines[1..], products);
      assert forall r :: r in rs ==> r.product.None? ==> r == JoinedLine(lines[0], None);
      rs + rest
  }

  lemma LeftJoinCons(lines: seq<InvoiceLine>, products: seq<Product>)
    requires lines != []
    ensures LeftJoin(lines, products) == JoinLine(lines[0], products) + LeftJoin(lines[1..], products)
  {
  }

  lemma JoinSizeCons(lines: seq<InvoiceLine>, products: seq<Product>, i: nat)
    requires 0 < i <= |lines|
    ensures JoinSize(lines[..i], products) == MatchRows(products, lines[0].productId) + JoinSize(lines[1..][..i - 1], products)
  {
    assert lines[..i][0] == lines[0] && lines[..i][1..] == lines[1..][..i - 1];
  }

  /** Line `i`'s rows sit in the join right after the rows of the lines before it. */
  ghost predicate BlockAt(lines: seq<InvoiceLine>, products: seq<Product>, i: nat)
    requires i < |lines|
  {
    var lo := JoinSize(lines[..i], products);
    var block := JoinLine(lines[i], products);
    && lo + |block| <= |LeftJoin(lines, products)|
    && forall k :: 0 <= k < |block| ==> LeftJoin(lines, products)[lo + k] == block[k]
  }

  /**
   * Every line contributes exactly its own rows, right after the rows of the
   * lines before it; with `|LeftJoin(lines, products)| == JoinSize(lines, products)`
   * this places every row of the join.
   */
  lemma {:induction false} LeftJoinBlock(lines: seq<InvoiceLine>, products: seq<Product>, i: nat)
    requires i < |lines|
    ensures BlockAt(lines, products, i)
  {
    if i == 0 {
      assert lines[..0] == [];
      var whole := LeftJoin(lines, products);
      var block := JoinLine(lines[0], products);
      assert forall k :: 0 <= k < |block| ==> whole[k] == whole[..|block|][k];
    } else {
      LeftJoinBlock(lines[1..], products, i - 1);
      BlockStep(lines, products, i);
    }
  }

  lemma BlockStep(lines: seq<InvoiceLine>, products: seq<Product>, i: nat)
    requires 0 < i < |lines|
    requires BlockAt(lines[1..], products, i - 1)
    ensures BlockAt(lines, products, i)
  {
    assert lines[1..][i - 1] == lines[i];
    JoinSizeCons(lines, products, i);
    LeftJoinCons(lines, products);
  }

  function NameOf(r: JoinedLine): string
  {
    r.line.productName
  }

  function SubtotalOf(r: JoinedLine): real
  {
    r.line.priceSubtotal
  }

  /** `price_subtotal - product_standard_price * quantity`, missing when the product is. */
  function Utility(r: JoinedLine): (u: Option<real>)
    ensures u.None? <==> r.product.None?
    ensures u.Some? ==> u.value + r.product.value.standardPrice * r.line.quantity == r.line.priceSubtotal
  {
    match r.product
    case None => None
    case Some(p) => Some(r.line.priceSubtotal - p.standardPrice * r.line.quantity)
  }

  /** The utility as `sum` counts it: a missing cell adds nothing. */
  function UtilityOrZero(r: JoinedLine): (x: real)
    ensures r.product.None? ==> x == 0.0
    ensures r.product.Some? ==> Utility(r) == Some(x)
  {
    Utility(r).GetOr(0.0)
  }

  /** `product_lst_price`, missing when the product is. */
  function LstPriceOf(r: JoinedLine): (price: Option<real>)
    ensures price.None? <==> r.product.None?
    ensures price.Some? ==> price.value == r.product.value.lstPrice
  {
    match r.product
    case None => None
    case Some(p) => Some(p.lstPrice)
  }

  /** `sold_products_in_a_week` applied to the fetched invoice lines and products. */
  function WeeklyReport(lines: seq<InvoiceLine>, products: seq<Product>): (r: map<string, ProductStats>)
    ensures r.Keys == KeysOf(lines, LineName)
  {
    JoinKeepsNames(lines, products);
    var rows := LeftJoin(lines, products);
    var subtotals := GroupSum(rows, NameOf, SubtotalOf);
    var utilities := GroupSum(rows, NameOf, UtilityOrZero);
    var prices := GroupFirst(rows, NameOf, LstPriceOf);
    var names := KeysOf(rows, NameOf);
    assert subtotals.Keys == names && utilities.Keys == names && prices.Keys == names;
    map n | n in names :: ProductStats(subtotals[n], utilities[n], prices[n])
  }

  // ----- reference definitions over the invoice lines alone -----

  /** Product ids are unique, as the ids of database records are. */
  ghost predicate UniqueIds(products: seq<Product>)
  {
    forall i, j :: 0 <= i < j < |products| ==> products[i].id != products[j].id
  }

  /** The product with id `id`, if one was fetched. */
  function Lookup(products: seq<Product>, id: int): (p: Option<Product>)
    ensures p.Some? ==> p.value in products && p.value.id == id
    ensures p.None? <==> forall q :: q in products ==> q.id != id
  {
    if products == [] then None
    else if products[0].id == id then Some(products[0])
    else Lookup(products[1..], id)
  }

  function LineName(l: InvoiceLine): string
  {
    l.productName
  }

  function LineSubtotal(l: InvoiceLine): real
  {
    l.priceSubtotal
  }

  /** A line's utility priced at its own product's cost; 0 when its product was not fetched. */
  function LineUtility(products: seq<Product>, l: InvoiceLine): real
  {
    match Lookup(products, l.productId)
    case None => 0.0
    case Some(p) => l.priceSubtotal - p.standardPrice * l.quantity
  }

  /** The summed utility of `ls`, as `sum` adds it up. */
  function UtilityTotal(ls: seq<InvoiceLine>, products: seq<Product>): real
  {
    if ls == [] then 0.0 else LineUtility(products, ls[0]) + UtilityTotal(ls[1..], products)
  }

  /** The public price of the product of the first line in `ls` whose product was fetched. */
  function FirstListPrice(ls: seq<InvoiceLine>, products: seq<Product>): Option<real>
  {
    if ls == [] then None
    else
      match Lookup(products, ls[0].productId)
      case Some(p) => Some(p.lstPrice)
      case None => FirstListPrice(ls[1..], products)
  }

  /** The join rows of `ls` when every id names at most one product. */
  function Resolve(ls: seq<InvoiceLine>, products: seq<Product>): (rs: seq<JoinedLine>)
    ensures |rs| == |ls|
  {
    if ls == [] then [] else [JoinedLine(ls[0], Lookup(products, ls[0].productId))] + Resolve(ls[1..], products)
  }

  // ----- properties -----

  /** With unique ids a product id selects at most one product: the one `Lookup` finds. */
  lemma {:induction false} SelectUnique(products: seq<Product>, id: int)
    requires UniqueIds(products)
    ensures Select(products, ProductIdOf, id) == match Lookup(products, id)
                                                 case None => []
                                                 case Some(p) => [p]
  {
    if products != [] {
      var rest := products[1..];
      assert UniqueIds(rest) by {
        forall i, j | 0 <= i < j < |rest| ensures rest[i].id != rest[j].id {
          assert rest[i] == products[i + 1] && rest[j] == products[j + 1];
        }
      }
      if products[0].id == id {
        assert id !in KeysOf(rest, ProductIdOf) by {
          forall q | q in rest ensures q.id != id {
            var j :| 0 <= j < |rest| && rest[j] == q;
            assert products[j + 1] == q;
          }
        }
        SelectAbsent(rest, ProductIdOf, id);
      } else {
        SelectUnique(rest, id);
      }
    }
  }

  /** With unique ids a line joins to exactly one row: itself with its product, or with none. */
  lemma JoinLineUnique(l: InvoiceLine, products: seq<Product>)
    requires UniqueIds(products)
    ensures JoinLine(l, products) == [JoinedLine(l, Lookup(products, l.productId))]
  {
    SelectUnique(products, l.productId);
  }

  /** With unique ids the left join is one-to-one: row `i` is line `i` with its product, if any. */
  lemma {:induction false} JoinOneToOne(lines: seq<InvoiceLine>, products: seq<Product>)
    requires UniqueIds(products)
    ensures LeftJoin(lines, products) == Resolve(lines, products)
  {
    if lines != [] {
      JoinLineUnique(lines[0], products);
      JoinOneToOne(lines[1..], products);
    }
  }

  /** Joining commutes with selecting one product name: the name comes from the line. */
  lemma {:induction false} ResolveSelect(lines: seq<InvoiceLine>, products: seq<Product>, n: string)
    ensures Select(Resolve(lines, products), NameOf, n) == Resolve(Select(lines, LineName, n), products)
  {
    if lines != [] {
      var rs := Resolve(lines, products);
      assert rs[1..] == Resolve(lines[1..], products);
      ResolveSelect(lines[1..], products, n);
    }
  }

  lemma {:induction false} ResolveSubtotal(ls: seq<InvoiceLine>, products: seq<Product>)
    ensures Total(Resolve(ls, products), SubtotalOf) == Total(ls, LineSubtotal)
  {
    if ls != [] {
      assert Resolve(ls, products)[1..] == Resolve(ls[1..], products);
      ResolveSubtotal(ls[1..], products);
    }
  }

  lemma {:induction false} ResolveUtility(ls: seq<InvoiceLine>, products: seq<Product>)
    ensures Total(Resolve(ls, products), UtilityOrZero) == UtilityTotal(ls, products)
  {
    if ls != [] {
      var rs := Resolve(ls, products);
      assert rs[1..] == Resolve(ls[1..], products);
      assert UtilityOrZero(rs[0]) == LineUtility(products, ls[0]);
      ResolveUtility(ls[1..], products);
    }
  }

  lemma {:induction false} ResolveListPrice(ls: seq<InvoiceLine>, products: seq<Product>)
    ensures FirstSome(Resolve(ls, products), LstPriceOf) == FirstListPrice(ls, products)
  {
    if ls != [] {
      assert Resolve(ls, products)[1..] == Resolve(ls[1..], products);
      ResolveListPrice(ls[1..], products);
    }
  }

  /** The left join keeps every invoice line: the product names of the joined rows are those of the lines. */
  lemma JoinKeepsNames(lines: seq<InvoiceLine>, products: seq<Product>)
    ensures KeysOf(LeftJoin(lines, products), NameOf) == KeysOf(lines, LineName)
  {
    var rows := LeftJoin(lines, products);
    forall n | n in KeysOf(lines, LineName) ensures n in KeysOf(rows, NameOf) {
      var l :| l in lines && l.productName == n;
      LineIsJoined(lines, products, l);
    }
  }

  lemma {:induction false} LineIsJoined(lines: seq<InvoiceLine>, products: seq<Product>, l: InvoiceLine)
    requires l in lines
    ensures exists r :: r in LeftJoin(lines, products) && r.line == l
  {
    var rs := JoinLine(lines[0], products);
    if l == lines[0] {
      assert rs[0] in LeftJoin(lines, products);
    } else {
      LineIsJoined(lines[1..], products, l);
    }
  }

  /**
   * The report has one entry per product name on the lines. With unique
   * product ids, the entry holds the sum of `price_subtotal` over the lines
   * of that name, the sum of their utilities (lines whose product is missing
   * add nothing) and the public price of the first of them whose product
   * was fetched.
   */
  lemma WeeklyReportSpec(lines: seq<InvoiceLine>, products: seq<Product>)
    requires UniqueIds(products)
    ensures var r := WeeklyReport(lines, products);
            && r.Keys == KeysOf(lines, LineName)
            && forall n :: n in r ==>
                 var ls := Select(lines, LineName, n);
                 r[n] == ProductStats(Total(ls, LineSubtotal), UtilityTotal(ls, products), FirstListPrice(ls, products))
  {
    var r := WeeklyReport(lines, products);
    JoinKeepsNames(lines, products);
    JoinOneToOne(lines, products);
    forall n | n in r
      ensures var ls := Select(lines, LineName, n);
              r[n] == ProductStats(Total(ls, LineSubtotal), UtilityTotal(ls, products), FirstListPrice(ls, products))
    {
      var ls := Select(lines, LineName, n);
      ResolveSelect(lines, products, n);
      ResolveSubtotal(ls, products);
      ResolveUtility(ls, products);
      ResolveListPrice(ls, products);
      var rows := LeftJoin(lines, products);
      GroupSumAt(rows, NameOf, SubtotalOf, n);
      GroupSumAt(rows, NameOf, UtilityOrZero, n);
      GroupFirstAt(rows, NameOf, LstPriceOf, n);
    }
  }

  /** The products of the second fetch: those whose id is among `ids`. */
  function Fetched(products: seq<Product>, ids: set<int>): (ps: seq<Product>)
    ensures forall p :: p in ps <==> p in products && p.id in ids
  {
    if products == [] then []
    else if products[0].id in ids then [products[0]] + Fetched(products[1..], ids)
    else Fetched(products[1..], ids)
  }

  /** The product ids that occur on the lines. */
  function LineIds(lines: seq<InvoiceLine>): set<int>
  {
    set l | l in lines :: l.productId
  }

  lemma {:induction false} SelectFetched(products: seq<Product>, ids: set<int>, id: int)
    requires id in ids
    ensures Select(Fetched(products, ids), ProductIdOf, id) == Select(products, ProductIdOf, id)
  {
    if products != [] {
      SelectFetched(products[1..], ids, id);
    }
  }

  lemma {:induction false} JoinFetched(lines: seq<InvoiceLine>, products: seq<Product>, ids: set<int>)
    requires forall l :: l in lines ==> l.productId in ids
    ensures LeftJoin(lines, Fetched(products, ids)) == LeftJoin(lines, products)
  {
    if lines != [] {
      SelectFetched(products, ids, lines[0].productId);
      JoinFetched(lines[1..], products, ids);
    }
  }

  /**
   * Fetching only the products whose id occurs on the lines, as the second
   * query does, leaves the report as it would be with every product.
   */
  lemma FetchingLineProductsSuffices(lines: seq<InvoiceLine>, products: seq<Product>)
    ensures WeeklyReport(lines, Fetched(products, LineIds(lines))) == WeeklyReport(lines, products)
  {
    JoinFetched(lines, products, LineIds(lines));
  }

  lemma TwoLinesFacts(lines: seq<InvoiceLine>, products: seq<Product>)
    requires lines == [InvoiceLine(2.0, 100.0, 7, "Taza"), InvoiceLine(1.0, 50.0, 7, "Taza")]
    requires products == [Product(7, 30.0, 80.0)]
    ensures UniqueIds(products)
    ensures KeysOf(lines, LineName) == {"Taza"}
    ensures Select(lines, LineName, "Taza") == lines
    ensures Total(lines, LineSubtotal) == 150.0
    ensures UtilityTotal(lines, products) == 60.0
    ensures FirstListPrice(lines, products) == Some(80.0)
  {
    assert lines[1..] == [lines[1]] && lines[1..][1..] == [];
    assert lines[0] in lines;
    assert Lookup(products, 7) == Some(products[0]);
    assert Total(lines[1..], LineSubtotal) == 50.0;
    assert UtilityTotal(lines[1..], products) == 20.0;
  }

  /** Two lines of one product: subtotals 100 and 50, quantities 2 and 1, cost 30, public price 80. */
  lemma TwoLinesExample(lines: seq<InvoiceLine>, products: seq<Product>)
    requires lines == [InvoiceLine(2.0, 100.0, 7, "Taza"), InvoiceLine(1.0, 50.0, 7, "Taza")]
    requires products == [Product(7, 30.0, 80.0)]
    ensures WeeklyReport(lines, products) == map["Taza" := ProductStats(150.0, 60.0, Some(80.0))]
  {
    TwoLinesFacts(lines, products);
    WeeklyReportSpec(lines, products);
  }
}
