/**
 * The dataframe operations the reports are built from, over a sequence of
 * rows: selecting the rows of one group, summing a column, a `groupby`
 * fold that sums a column per key or keeps its first non-missing value,
 * and the sorted order in which pandas enumerates the groups.
 * A column is a function from row to cell; a grouping key is a function
 * from row to key.
 */
module Grouping {
  import opened Wrappers

  /** The distinct keys that occur in `rows`. */
  function KeysOf<T(==,!new), K(==,!new)>(rows: seq<T>, key: T -> K): set<K>
  {
    set r | r in rows :: key(r)
  }

  /** The rows whose key is `k`, in input order: one group of a `groupby`. */
  function Select<T(==,!new), K(==,!new)>(rows: seq<T>, key: T -> K, k: K): (g: seq<T>)
    ensures forall r :: r in g <==> r in rows && key(r) == k
    ensures |g| <= |rows|
  {
    if rows == [] then []
    else if key(rows[0]) == k then [rows[0]] + Select(rows[1..], key, k)
    else Select(rows[1..], key, k)
  }

  /** The rows whose key is not `k`, in input order. */
  function Reject<T(==,!new), K(==,!new)>(rows: seq<T>, key: T -> K, k: K): (g: seq<T>)
    ensures forall r :: r in g <==> r in rows && key(r) != k
  {
    if rows == [] then []
    else if key(rows[0]) != k then [rows[0]] + Reject(rows[1..], key, k)
    else Reject(rows[1..], key, k)
  }

  lemma KeysOfCons<T(!new), K(!new)>(rows: seq<T>, key: T -> K)
    requires rows != []
    ensures KeysOf(rows, key) == {key(rows[0])} + KeysOf(rows[1..], key)
  {
    assert forall r :: r in rows <==> r == rows[0] || r in rows[1..];
  }

  lemma {:induction false} SelectAbsent<T(!new), K(!new)>(rows: seq<T>, key: T -> K, k: K)
    requires k !in KeysOf(rows, key)
    ensures Select(rows, key, k) == []
  {
    if rows != [] {
      KeysOfCons(rows, key);
      SelectAbsent(rows[1..], key, k);
    }
  }

  /** The sum of one column over all rows (a column `sum` of an empty frame is 0). */
  function Total<T>(rows: seq<T>, amount: T -> real): real
  {
    if rows == [] then 0.0 else amount(rows[0]) + Total(rows[1..], amount)
  }

  /** The first non-missing cell of a column, as pandas' `first` aggregation takes it. */
  function FirstSome<T, V>(rows: seq<T>, value: T -> Option<V>): (v: Option<V>)
    ensures v.Some? ==> exists i :: 0 <= i < |rows| && value(rows[i]) == v &&
                          forall j :: 0 <= j < i ==> value(rows[j]).None?
    ensures v.None? ==> forall i :: 0 <= i < |rows| ==> value(rows[i]).None?
  {
    if rows == [] then None
    else if value(rows[0]).Some? then value(rows[0])
    else
      var v := FirstSome(rows[1..], value);
      assert forall i :: 1 <= i < |rows| ==> rows[i] == rows[1..][i - 1];
      v
  }

  /**
   * `groupby(key).agg(sum)` as a fold into a map: one entry per distinct key.
   * `GroupSumAt` states what each entry holds.
   */
  function GroupSum<T(==,!new), K(==,!new)>(rows: seq<T>, key: T -> K, amount: T -> real): (m: map<K, real>)
    ensures m.Keys == KeysOf(rows, key)
  {
    if rows == [] then map[]
    else
      var m := GroupSum(rows[1..], key, amount);
      var k := key(rows[0]);
      KeysOfCons(rows, key);
      m[k := amount(rows[0]) + (if k in m then m[k] else 0.0)]
  }

  /** The entry of a key holds the sum of the column over exactly the rows of that group. */
  lemma {:induction false} GroupSumAt<T(!new), K(!new)>(rows: seq<T>, key: T -> K, amount: T -> real, k: K)
    requires k in KeysOf(rows, key)
    ensures k in GroupSum(rows, key, amount)
    ensures GroupSum(rows, key, amount)[k] == Total(Select(rows, key, k), amount)
  {
    assert rows != [];
    var m := GroupSum(rows[1..], key, amount);
    KeysOfCons(rows, key);
    if k == key(rows[0]) {
      var g := Select(rows, key, k);
      assert Total(g, amount) == amount(g[0]) + Total(g[1..], amount);
      if k in m {
        GroupSumAt(rows[1..], key, amount, k);
      } else {
        SelectAbsent(rows[1..], key, k);
      }
    } else {
      GroupSumAt(rows[1..], key, amount, k);
    }
  }

  /**
   * `groupby(key).agg(first)` as a fold into a map: one entry per distinct key.
   * `GroupFirstAt` states what each entry holds.
   */
  function GroupFirst<T(==,!new), K(==,!new), V>(rows: seq<T>, key: T -> K, value: T -> Option<V>): (m: map<K, Option<V>>)
    ensures m.Keys == KeysOf(rows, key)
  {
    if rows == [] then map[]
    else
      var m := GroupFirst(rows[1..], key, value);
      var k := key(rows[0]);
      var v := value(rows[0]);
      KeysOfCons(rows, key);
      m[k := if v.Some? || k !in m then v else m[k]]
  }

  /**
   * The entry of a key holds the first non-missing cell of the group, or
   * None when every cell of the group is missing.
   */
  lemma {:induction false} GroupFirstAt<T(!new), K(!new), V>(rows: seq<T>, key: T -> K, value: T -> Option<V>, k: K)
    requires k in KeysOf(rows, key)
    ensures k in GroupFirst(rows, key, value)
    ensures GroupFirst(rows, key, value)[k] == FirstSome(Select(rows, key, k), value)
  {
    assert rows != [];
    var m := GroupFirst(rows[1..], key, value);
    KeysOfCons(rows, key);
    if k == key(rows[0]) {
      var g := Select(rows, key, k);
      assert g[0] == rows[0] && g[1..] == Select(rows[1..], key, k);
      if k in m {
        GroupFirstAt(rows[1..], key, value, k);
      } else {
        SelectAbsent(rows[1..], key, k);
      }
    } else {
      GroupFirstAt(rows[1..], key, value, k);
    }
  }

  // ----- group order -----

  ghost predicate StrictTotalOrder<K(!new)>(less: (K, K) -> bool)
  {
    && (forall a :: !less(a, a))
    && (forall a, b, c :: less(a, b) && less(b, c) ==> less(a, c))
    && (forall a, b :: a != b ==> less(a, b) || less(b, a))
  }

  ghost predicate StrictlySorted<K>(ks: seq<K>, less: (K, K) -> bool)
  {
    forall i, j :: 0 <= i < j < |ks| ==> less(ks[i], ks[j])
  }

  ghost predicate Distinct<K>(ks: seq<K>)
  {
    forall i, j :: 0 <= i < j < |ks| ==> ks[i] != ks[j]
  }

  /** Adds `k` to a sorted key list unless it is already there. */
  function Insert<K(==,!new)>(k: K, ks: seq<K>, less: (K, K) -> bool): (r: seq<K>)
    ensures forall x :: x in r <==> x == k || x in ks
  {
    if ks == [] then [k]
    else if k == ks[0] then ks
    else if less(k, ks[0]) then [k] + ks
    else [ks[0]] + Insert(k, ks[1..], less)
  }

  /** The distinct keys of `rows` in ascending order: the order pandas' `groupby` lists its groups in. */
  function SortedKeys<T(==,!new), K(==,!new)>(rows: seq<T>, key: T -> K, less: (K, K) -> bool): (ks: seq<K>)
    ensures forall k :: k in ks <==> k in KeysOf(rows, key)
  {
    if rows == [] then []
    else
      var ks := Insert(key(rows[0]), SortedKeys(rows[1..], key, less), less);
      assert forall r :: r in rows <==> r == rows[0] || r in rows[1..];
      ks
  }

  lemma {:induction false} InsertKeepsSorted<K(!new)>(k: K, ks: seq<K>, less: (K, K) -> bool)
    requires StrictTotalOrder(less) && StrictlySorted(ks, less)
    ensures StrictlySorted(Insert(k, ks, less), less)
  {
    if ks != [] && k != ks[0] && !less(k, ks[0]) {
      InsertKeepsSorted(k, ks[1..], less);
      var r := Insert(k, ks, less);
      forall i, j | 0 <= i < j < |r| ensures less(r[i], r[j]) {
        if i == 0 {
          assert r[j] in Insert(k, ks[1..], less);
        }
      }
    }
  }

  lemma {:induction false} DistinctCard<K>(ks: seq<K>)
    requires Distinct(ks)
    ensures |set k | k in ks| == |ks|
  {
    if ks != [] {
      DistinctCard(ks[1..]);
      assert (set k | k in ks) == (set k | k in ks[1..]) + {ks[0]};
      assert ks[0] !in ks[1..];
    }
  }

  /**
   * The groups are listed in strictly ascending key order, so each distinct
   * key occurs exactly once: as many groups as distinct keys.
   */
  lemma {:induction false} SortedKeysSpec<T(!new), K(!new)>(rows: seq<T>, key: T -> K, less: (K, K) -> bool)
    requires StrictTotalOrder(less)
    ensures StrictlySorted(SortedKeys(rows, key, less), less)
    ensures Distinct(SortedKeys(rows, key, less))
    ensures |SortedKeys(rows, key, less)| == |KeysOf(rows, key)|
  {
    var ks := SortedKeys(rows, key, less);
    if rows != [] {
      SortedKeysSpec(rows[1..], key, less);
      InsertKeepsSorted(key(rows[0]), SortedKeys(rows[1..], key, less), less);
    }
    assert Distinct(ks) by {
      forall i, j | 0 <= i < j < |ks| ensures ks[i] != ks[j] {
        assert less(ks[i], ks[j]);
      }
    }
    DistinctCard(ks);
    assert (set k | k in ks) == KeysOf(rows, key);
  }

  // ----- sum conservation -----

  /** The sum over the listed groups of each group's column total. */
  function SumOverKeys<T(==,!new), K(==,!new)>(ks: seq<K>, rows: seq<T>, key: T -> K, amount: T -> real): real
  {
    if ks == [] then 0.0
    else Total(Select(rows, key, ks[0]), amount) + SumOverKeys(ks[1..], rows, key, amount)
  }

  lemma {:induction false} TotalSplits<T(!new), K(!new)>(rows: seq<T>, key: T -> K, amount: T -> real, k: K)
    ensures Total(rows, amount) == Total(Select(rows, key, k), amount) + Total(Reject(rows, key, k), amount)
  {
    if rows != [] {
      TotalSplits(rows[1..], key, amount, k);
    }
  }

  lemma {:induction false} SelectOfReject<T(!new), K(!new)>(rows: seq<T>, key: T -> K, k: K, k': K)
    requires k != k'
    ensures Select(Reject(rows, key, k'), key, k) == Select(rows, key, k)
  {
    if rows != [] {
      SelectOfReject(rows[1..], key, k, k');
    }
  }

  lemma {:induction false} SumOverKeysOfReject<T(!new), K(!new)>(ks: seq<K>, rows: seq<T>, key: T -> K, amount: T -> real, k': K)
    requires k' !in ks
    ensures SumOverKeys(ks, Reject(rows, key, k'), key, amount) == SumOverKeys(ks, rows, key, amount)
  {
    if ks != [] {
      SelectOfReject(rows, key, ks[0], k');
      SumOverKeysOfReject(ks[1..], rows, key, amount, k');
    }
  }

  /**
   * Grouping conserves the total: when `ks` lists every key of `rows` once,
   * the group totals add up to the column total of all rows.
   */
  lemma {:induction false} SumOverKeysIsTotal<T(!new), K(!new)>(ks: seq<K>, rows: seq<T>, key: T -> K, amount: T -> real)
    requires Distinct(ks)
    requires forall r :: r in rows ==> key(r) in ks
    ensures SumOverKeys(ks, rows, key, amount) == Total(rows, amount)
  {
    if ks == [] {
      assert forall i :: 0 <= i < |rows| ==> rows[i] !in rows;
    } else {
      var rest := Reject(rows, key, ks[0]);
      forall j | 0 <= j < |ks[1..]| ensures ks[1..][j] != ks[0] {
        assert ks[1..][j] == ks[j + 1];
      }
      forall r | r in rest ensures key(r) in ks[1..] {
        assert key(r) in ks;
      }
      SumOverKeysIsTotal(ks[1..], rest, key, amount);
      SumOverKeysOfReject(ks[1..], rows, key, amount, ks[0]);
      TotalSplits(rows, key, amount, ks[0]);
    }
  }

  /** The first row of a group is the first row of the input that has that key. */
  lemma {:induction false} SelectHead<T(!new), K(!new)>(rows: seq<T>, key: T -> K, k: K)
    requires Select(rows, key, k) != []
    ensures exists i :: 0 <= i < |rows| && rows[i] == Select(rows, key, k)[0] && key(rows[i]) == k &&
                        forall j :: 0 <= j < i ==> key(rows[j]) != k
  {
    if key(rows[0]) != k {
      SelectHead(rows[1..], key, k);
      var i :| 0 <= i < |rows[1..]| && rows[1..][i] == Select(rows[1..], key, k)[0] && key(rows[1..][i]) == k &&
               forall j :: 0 <= j < i ==> key(rows[1..][j]) != k;
      assert rows[i + 1] == rows[1..][i];
      forall j | 0 <= j < i + 1 ensures key(rows[j]) != k {
        if j > 0 { assert rows[j] == rows[1..][j - 1]; }
      }
    }
  }

  /** A sequence has no repeated element exactly when no element occurs twice in its multiset. */
  lemma {:induction false} DistinctIffSingleCounts<T>(s: seq<T>)
    ensures Distinct(s) <==> forall x :: multiset(s)[x] <= 1
  {
    if s != [] {
      DistinctIffSingleCounts(s[1..]);
      assert s == [s[0]] + s[1..];
      assert multiset(s) == multiset{s[0]} + multiset(s[1..]);
      if Distinct(s) {
        forall j | 0 <= j < |s[1..]| ensures s[1..][j] != s[0] {
          assert s[1..][j] == s[j + 1];
        }
        assert s[0] !in s[1..];
        assert Distinct(s[1..]) by {
          forall i, j | 0 <= i < j < |s[1..]| ensures s[1..][i] != s[1..][j] {
            assert s[1..][i] == s[i + 1] && s[1..][j] == s[j + 1];
          }
        }
      }
      if forall x :: multiset(s)[x] <= 1 {
        assert multiset(s)[s[0]] <= 1;
        assert multiset(s[1..])[s[0]] == 0;
        assert s[0] !in s[1..];
        forall x ensures multiset(s[1..])[x] <= 1 {
          assert multiset(s)[x] <= 1;
        }
        forall i, j | 0 <= i < j < |s| ensures s[i] != s[j] {
          assert s[j] == s[1..][j - 1];
          if i > 0 {
            assert s[i] == s[1..][i - 1];
          }
        }
      }
    }
  }
}
