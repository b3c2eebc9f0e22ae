/**
 * `quotation_amounts`: confirmed sale orders are grouped by salesperson,
 * each group carrying the salesperson's first-seen name and the sum of
 * `amount_untaxed`; the groups are ordered by that sum, largest first, and
 * at most five are kept. The result is an ordered dictionary keyed by
 * salesperson; here it is the sequence of its entries in order.
 */
module QuotationRanking {
  import opened Wrappers
  import opened Grouping

  /** A confirmed sale order; `user_id` arrives split into the id and the display name. */
  datatype SaleOrder = SaleOrder(name: string, userId: int, userName: string, amountUntaxed: real)

  /** One entry of the report: `user_id: {"user_name", "amount_untaxed"}`. */
  datatype Quotation = Quotation(userId: int, userName: string, amountUntaxed: real)

  /** `iloc[0:5]`: the number of salespeople the report keeps. */
  const TopCount := 5

  function UserOf(o: SaleOrder): int
  {
    o.userId
  }

  function UserNameOf(o: SaleOrder): Option<string>
  {
    Some(o.userName)
  }

  function AmountOf(o: SaleOrder): real
  {
    o.amountUntaxed
  }

  predicate IntLess(a: int, b: int)
  {
    a < b
  }

  lemma IntLessIsStrictTotalOrder()
    ensures StrictTotalOrder(IntLess)
  {
  }

  /** The sum of `amount_untaxed` over the orders of salesperson `u`. */
  function UserTotal(orders: seq<SaleOrder>, u: int): real
  {
    Total(Select(orders, UserOf, u), AmountOf)
  }

  /** `groupby('user_id').agg(...)`: one entry per listed salesperson. */
  function Entries(ks: seq<int>, names: map<int, Option<string>>, totals: map<int, real>): (qs: seq<Quotation>)
    requires forall i :: 0 <= i < |ks| ==> ks[i] in names && ks[i] in totals
    ensures |qs| == |ks|
  {
    if ks == [] then []
    else [Quotation(ks[0], names[ks[0]].GetOr(""), totals[ks[0]])] + Entries(ks[1..], names, totals)
  }

  lemma {:induction false} EntriesAt(ks: seq<int>, names: map<int, Option<string>>, totals: map<int, real>, i: nat)
    requires forall j :: 0 <= j < |ks| ==> ks[j] in names && ks[j] in totals
    requires i < |ks|
    ensures Entries(ks, names, totals)[i] == Quotation(ks[i], names[ks[i]].GetOr(""), totals[ks[i]])
  {
    if i > 0 {
      EntriesAt(ks[1..], names, totals, i - 1);
    }
  }

  /** The groups in pandas' order: ascending `user_id`. */
  function Groups(orders: seq<SaleOrder>): seq<Quotation>
  {
    Entries(SortedKeys(orders, UserOf, IntLess),
            GroupFirst(orders, UserOf, UserNameOf),
            GroupSum(orders, UserOf, AmountOf))
  }

  ghost predicate Descending(qs: seq<Quotation>)
  {
    forall i, j :: 0 <= i < j < |qs| ==> qs[i].amountUntaxed >= qs[j].amountUntaxed
  }

  /** Places `q` before the first entry whose amount does not exceed its own. */
  function InsertByAmount(q: Quotation, qs: seq<Quotation>): (r: seq<Quotation>)
    ensures multiset(r) == multiset(qs) + multiset{q}
    ensures forall x :: x in r <==> x == q || x in qs
  {
    if qs == [] || qs[0].amountUntaxed <= q.amountUntaxed then [q] + qs
    else
      assert qs == [qs[0]] + qs[1..];
      [qs[0]] + InsertByAmount(q, qs[1..])
  }

  lemma {:induction false} InsertKeepsDescending(q: Quotation, qs: seq<Quotation>)
    requires Descending(qs)
    ensures Descending(InsertByAmount(q, qs))
  {
    if qs != [] && qs[0].amountUntaxed > q.amountUntaxed {
      InsertKeepsDescending(q, qs[1..]);
      var r := InsertByAmount(q, qs);
      forall i, j | 0 <= i < j < |r| ensures r[i].amountUntaxed >= r[j].amountUntaxed {
        if i == 0 {
          assert r[j] in InsertByAmount(q, qs[1..]);
        }
      }
    }
  }

  /**
   * `sort_values('amount_untaxed', ascending=False)`: a permutation of the
   * groups with the amounts in descending order. pandas' default sort is not
   * stable, so the order among equal amounts is not part of the promise; this
   * insertion sort is one admissible order.
   */
  function SortByAmount(qs: seq<Quotation>): (r: seq<Quotation>)
    ensures multiset(r) == multiset(qs)
    ensures Descending(r)
  {
    if qs == [] then []
    else
      assert qs == [qs[0]] + qs[1..];
      InsertKeepsDescending(qs[0], SortByAmount(qs[1..]));
      InsertByAmount(qs[0], SortByAmount(qs[1..]))
  }

  /** `iloc[0:n]`: the first `n` entries, or all of them when there are fewer. */
  function Take(qs: seq<Quotation>, n: nat): (r: seq<Quotation>)
    ensures |r| == if |qs| < n then |qs| else n
    ensures forall i :: 0 <= i < |r| ==> r[i] == qs[i]
    ensures forall x :: x in r ==> x in qs
    ensures Descending(qs) ==> Descending(r)
  {
    if n == 0 || qs == [] then [] else [qs[0]] + Take(qs[1..], n - 1)
  }

  /** `quotation_amounts` applied to the fetched sale orders. */
  function QuotationReport(orders: seq<SaleOrder>): (r: seq<Quotation>)
    ensures |r| <= TopCount
    ensures Descending(r)
    ensures forall x :: x in r ==> x in Groups(orders)
  {
    var g := Groups(orders);
    var s := SortByAmount(g);
    assert forall x :: x in s ==> x in g by {
      forall x | x in s ensures x in g {
        assert x in multiset(s);
      }
    }
    Take(s, TopCount)
  }

  // ----- properties -----

  /** `name` is the display name on the first order of salesperson `u`, in input order. */
  ghost predicate IsFirstName(orders: seq<SaleOrder>, u: int, name: string)
  {
    exists k :: 0 <= k < |orders| && orders[k].userId == u && orders[k].userName == name &&
                forall j :: 0 <= j < k ==> orders[j].userId != u
  }

  /** `q` is the aggregate of one salesperson who has orders: their summed amount and first name. */
  ghost predicate IsAggregateOf(orders: seq<SaleOrder>, q: Quotation)
  {
    && q.userId in KeysOf(orders, UserOf)
    && q.amountUntaxed == UserTotal(orders, q.userId)
    && IsFirstName(orders, q.userId, q.userName)
  }

  /** Salesperson `u` has an entry in `qs`. */
  ghost predicate Listed(qs: seq<Quotation>, u: int)
  {
    exists i :: 0 <= i < |qs| && qs[i].userId == u
  }

  /** The name a group carries is the name on the salesperson's first order. */
  lemma {:induction false} GroupNameIsFirst(orders: seq<SaleOrder>, u: int)
    requires u in KeysOf(orders, UserOf)
    ensures var names := GroupFirst(orders, UserOf, UserNameOf);
            u in names && names[u].Some? && IsFirstName(orders, u, names[u].value)
  {
    var grp := Select(orders, UserOf, u);
    var o :| o in orders && UserOf(o) == u;
    assert o in grp;
    SelectHead(orders, UserOf, u);
    GroupFirstAt(orders, UserOf, UserNameOf, u);
    assert GroupFirst(orders, UserOf, UserNameOf)[u] == Some(grp[0].userName);
  }

  lemma GroupAt(orders: seq<SaleOrder>, i: nat)
    requires i < |Groups(orders)|
    ensures Groups(orders)[i].userId == SortedKeys(orders, UserOf, IntLess)[i]
    ensures IsAggregateOf(orders, Groups(orders)[i])
  {
    var ks := SortedKeys(orders, UserOf, IntLess);
    EntriesAt(ks, GroupFirst(orders, UserOf, UserNameOf), GroupSum(orders, UserOf, AmountOf), i);
    GroupNameIsFirst(orders, ks[i]);
    GroupSumAt(orders, UserOf, AmountOf, ks[i]);
  }

  /**
   * Before ranking there is one entry per distinct salesperson, holding the sum
   * of their orders' `amount_untaxed` and the name on their first order.
   */
  lemma GroupsSpec(orders: seq<SaleOrder>)
    ensures var g := Groups(orders);
            && |g| == |KeysOf(orders, UserOf)|
            && DistinctUsers(g)
            && (forall u :: u in KeysOf(orders, UserOf) ==> Listed(g, u))
            && (forall x :: x in g ==> IsAggregateOf(orders, x))
  {
    var ks := SortedKeys(orders, UserOf, IntLess);
    var g := Groups(orders);
    IntLessIsStrictTotalOrder();
    SortedKeysSpec(orders, UserOf, IntLess);
    forall i | 0 <= i < |g| ensures g[i].userId == ks[i] && IsAggregateOf(orders, g[i]) {
      GroupAt(orders, i);
    }
    forall u | u in KeysOf(orders, UserOf) ensures Listed(g, u) {
      var i :| 0 <= i < |ks| && ks[i] == u;
      GroupAt(orders, i);
    }
  }

  ghost predicate DistinctUsers(qs: seq<Quotation>)
  {
    forall i, j :: 0 <= i < j < |qs| ==> qs[i].userId != qs[j].userId
  }

  /** A permutation keeps the salespeople of a list distinct and keeps every one listed. */
  lemma PermutationKeepsUsers(g: seq<Quotation>, s: seq<Quotation>)
    requires multiset(s) == multiset(g)
    requires DistinctUsers(g)
    ensures |s| == |g|
    ensures DistinctUsers(s)
    ensures forall u :: Listed(g, u) ==> Listed(s, u)
    ensures forall x :: x in s ==> x in g
  {
    assert |s| == |g| by {
      assert |multiset(s)| == |multiset(g)|;
    }
    forall x | x in s ensures x in g {
      assert x in multiset(s);
    }
    assert Distinct(g) by {
      forall i, j | 0 <= i < j < |g| ensures g[i] != g[j] {
        assert g[i].userId != g[j].userId;
      }
    }
    DistinctIffSingleCounts(g);
    DistinctIffSingleCounts(s);
    forall i, j | 0 <= i < j < |s| ensures s[i].userId != s[j].userId {
      assert s[i] != s[j] && s[i] in g && s[j] in g;
      var a :| 0 <= a < |g| && g[a] == s[i];
      var b :| 0 <= b < |g| && g[b] == s[j];
      assert a != b;
    }
    forall u | Listed(g, u) ensures Listed(s, u) {
      var p :| 0 <= p < |g| && g[p].userId == u;
      assert g[p] in multiset(s);
    }
  }

  /** Ranking permutes the groups: the same entries, now in descending order of amount. */
  lemma RankedSpec(orders: seq<SaleOrder>)
    ensures var s := SortByAmount(Groups(orders));
            && |s| == |KeysOf(orders, UserOf)|
            && Descending(s)
            && DistinctUsers(s)
            && (forall x :: x in s ==> IsAggregateOf(orders, x))
  {
    var g := Groups(orders);
    GroupsSpec(orders);
    PermutationKeepsUsers(g, SortByAmount(g));
  }

  lemma RankedEntry(orders: seq<SaleOrder>, x: Quotation)
    requires x in SortByAmount(Groups(orders))
    ensures IsAggregateOf(orders, x)
  {
    RankedSpec(orders);
  }

  /** Every salesperson with an order is among the ranked entries. */
  lemma RankedListsEveryone(orders: seq<SaleOrder>, u: int)
    requires u in KeysOf(orders, UserOf)
    ensures Listed(SortByAmount(Groups(orders)), u)
  {
    var g := Groups(orders);
    GroupsSpec(orders);
    PermutationKeepsUsers(g, SortByAmount(g));
  }

  lemma ListedInPrefix(s: seq<Quotation>, k: nat, q: nat)
    requires q < |s|
    ensures q < k ==> Listed(Take(s, k), s[q].userId)
  {
    if q < k {
      assert Take(s, k)[q] == s[q];
    }
  }

  /** Keeping the first `k` entries of a ranked list keeps the ranking's guarantees. */
  lemma TopSpec(orders: seq<SaleOrder>, s: seq<Quotation>, k: nat)
    requires Descending(s) && DistinctUsers(s)
    requires forall x :: x in s ==> IsAggregateOf(orders, x)
    ensures Descending(Take(s, k)) && DistinctUsers(Take(s, k))
    ensures forall x :: x in Take(s, k) ==> IsAggregateOf(orders, x)
  {
    var r := Take(s, k);
    forall x | x in r ensures IsAggregateOf(orders, x) {
      var i :| 0 <= i < |r| && r[i] == x;
      assert s[i] in s;
    }
  }

  /** A salesperson ranked at or after position `k` has a sum no larger than any of the first `k`. */
  lemma TopDominates(orders: seq<SaleOrder>, s: seq<Quotation>, k: nat, q: nat)
    requires k <= q < |s|
    requires Descending(s)
    requires IsAggregateOf(orders, s[q])
    ensures forall i :: 0 <= i < |Take(s, k)| ==> Take(s, k)[i].amountUntaxed >= UserTotal(orders, s[q].userId)
  {
  }

  /**
   * The report lists min(5, number of salespeople) distinct salespeople, each
   * with the sum of their orders and the name on their first order, in
   * descending order of that sum. Nothing is said about the order of equal sums.
   */
  lemma QuotationReportSpec(orders: seq<SaleOrder>)
    ensures var r := QuotationReport(orders); var n := |KeysOf(orders, UserOf)|;
            && |r| == (if n < TopCount then n else TopCount)
            && Descending(r)
            && DistinctUsers(r)
            && (forall x :: x in r ==> IsAggregateOf(orders, x))
  {
    RankedSpec(orders);
    TopSpec(orders, SortByAmount(Groups(orders)), TopCount);
  }

  /** In a ranked list, whoever falls outside the first `k` entries has a sum no larger than any of them. */
  lemma OmittedDominated(orders: seq<SaleOrder>, s: seq<Quotation>, k: nat, u: int)
    requires Descending(s)
    requires forall x :: x in s ==> IsAggregateOf(orders, x)
    requires Listed(s, u) && !Listed(Take(s, k), u)
    ensures forall i :: 0 <= i < |Take(s, k)| ==> Take(s, k)[i].amountUntaxed >= UserTotal(orders, u)
  {
    var q :| 0 <= q < |s| && s[q].userId == u;
    ListedInPrefix(s, k, q);
    assert s[q] in s;
    TopDominates(orders, s, k, q);
  }

  /** No salesperson left out of the report has a larger sum than any listed one. */
  lemma QuotationReportKeepsLargest(orders: seq<SaleOrder>, u: int)
    requires u in KeysOf(orders, UserOf)
    requires !Listed(QuotationReport(orders), u)
    ensures var r := QuotationReport(orders);
            forall i :: 0 <= i < |r| ==> r[i].amountUntaxed >= UserTotal(orders, u)
  {
    RankedSpec(orders);
    RankedListsEveryone(orders, u);
    OmittedDominated(orders, SortByAmount(Groups(orders)), TopCount, u);
  }
}
