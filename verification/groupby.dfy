/**
 The `groupby(keys)[col].sum()` and `groupby(keys).size()` operations of the
 pipeline, on a keyed column: a sequence of (key, value) pairs.

 `GroupSum` folds the rows into an aggregate one row at a time, the way a
 hash aggregation does; `SumFor` and `Count` are the reference definitions
 the fold is proved against.
 */
module GroupBy {
  import opened Common

  /** The first component of a pair: the group-by key of a keyed row. */
  function Fst<K, V>(p: (K, V)): K
  {
    p.0
  }

  /** The keys that occur in a keyed column. */
  function KeysOf<K, V>(rows: seq<(K, V)>): set<K>
  {
    set i | 0 <= i < |rows| :: rows[i].0
  }

  /** No key occurs on two rows. */
  predicate UniqueKeys<K(==), V>(rows: seq<(K, V)>)
  {
    forall i, j :: 0 <= i < j < |rows| ==> rows[i].0 != rows[j].0
  }

  /** Reference: the sum of the values of the rows whose key is `k`. */
  function SumFor<K(==)>(rows: seq<(K, nat)>, k: K): nat
  {
    if |rows| == 0 then 0
    else
      var last := rows[|rows| - 1];
      SumFor(rows[..|rows| - 1], k) + (if last.0 == k then last.1 else 0)
  }

  /** The sum of all values of a keyed column. */
  function Total<K>(rows: seq<(K, nat)>): nat
  {
    if |rows| == 0 then 0 else rows[0].1 + Total(rows[1..])
  }

  /** The value an aggregate holds for `k`: the first row with that key, or
      0 when there is none. */
  function ValueOf<K(==)>(agg: seq<(K, nat)>, k: K): nat
  {
    if |agg| == 0 then 0
    else if agg[0].0 == k then agg[0].1
    else ValueOf(agg[1..], k)
  }

  lemma KeysOfCons<K, V>(x: (K, V), rows: seq<(K, V)>)
    ensures KeysOf([x] + rows) == {x.0} + KeysOf(rows)
  {
    var s := [x] + rows;
    forall k | k in KeysOf(s) ensures k in {x.0} + KeysOf(rows) {
      var i :| 0 <= i < |s| && s[i].0 == k;
      if i > 0 { assert rows[i - 1].0 == k; }
    }
    forall k | k in KeysOf(rows) ensures k in KeysOf(s) {
      var i :| 0 <= i < |rows| && rows[i].0 == k;
      assert s[i + 1].0 == k;
    }
    assert s[0].0 == x.0;
  }

  lemma KeysOfSnoc<K, V>(rows: seq<(K, V)>, x: (K, V))
    ensures KeysOf(rows + [x]) == KeysOf(rows) + {x.0}
  {
    var s := rows + [x];
    forall k | k in KeysOf(s) ensures k in KeysOf(rows) + {x.0} {
      var i :| 0 <= i < |s| && s[i].0 == k;
      if i < |rows| { assert rows[i].0 == k; }
    }
    forall k | k in KeysOf(rows) ensures k in KeysOf(s) {
      var i :| 0 <= i < |rows| && rows[i].0 == k;
      assert s[i].0 == k;
    }
    assert s[|rows|].0 == x.0;
  }

  lemma TotalCons<K>(x: (K, nat), rows: seq<(K, nat)>)
    ensures Total([x] + rows) == x.1 + Total(rows)
  {
    assert ([x] + rows)[1..] == rows;
  }

  lemma TotalConcat<K>(a: seq<(K, nat)>, b: seq<(K, nat)>)
    ensures Total(a + b) == Total(a) + Total(b)
  {
    if |a| > 0 {
      assert (a + b)[1..] == a[1..] + b;
      TotalConcat(a[1..], b);
    } else {
      assert a + b == b;
    }
  }

  /** A key absent from the rows sums to 0. */
  lemma {:induction false} SumForAbsent<K>(rows: seq<(K, nat)>, k: K)
    requires k !in KeysOf(rows)
    ensures SumFor(rows, k) == 0
  {
    if |rows| > 0 {
      var init := rows[..|rows| - 1];
      assert rows == init + [rows[|rows| - 1]];
      KeysOfSnoc(init, rows[|rows| - 1]);
      SumForAbsent(init, k);
    }
  }

  /** A key absent from an aggregate reads as 0. */
  lemma {:induction false} ValueOfAbsent<K>(agg: seq<(K, nat)>, k: K)
    requires k !in KeysOf(agg)
    ensures ValueOf(agg, k) == 0
  {
    if |agg| > 0 {
      assert agg == [agg[0]] + agg[1..];
      KeysOfCons(agg[0], agg[1..]);
      ValueOfAbsent(agg[1..], k);
    }
  }

  /** In an aggregate with unique keys, every row's value is what
      `ValueOf` reads for its key. */
  lemma {:induction false} ValueOfEntry<K>(agg: seq<(K, nat)>, i: nat)
    requires UniqueKeys(agg)
    requires i < |agg|
    ensures ValueOf(agg, agg[i].0) == agg[i].1
  {
    if i > 0 {
      assert agg[0].0 != agg[i].0;
      assert agg[1..][i - 1] == agg[i];
      ValueOfEntry(agg[1..], i - 1);
    }
  }

  /** An aggregate with unique keys has exactly one row per key. */
  lemma {:induction false} UniqueKeysCount<K, V>(rows: seq<(K, V)>)
    requires UniqueKeys(rows)
    ensures |KeysOf(rows)| == |rows|
  {
    if |rows| > 0 {
      var init := rows[..|rows| - 1];
      var last := rows[|rows| - 1];
      assert rows == init + [last];
      KeysOfSnoc(init, last);
      assert last.0 !in KeysOf(init) by {
        forall i | 0 <= i < |init| ensures init[i].0 != last.0 {
          assert init[i] == rows[i];
        }
      }
      assert UniqueKeys(init) by {
        forall i, j | 0 <= i < j < |init| ensures init[i].0 != init[j].0 {
          assert init[i] == rows[i] && init[j] == rows[j];
        }
      }
      UniqueKeysCount(init);
    }
  }

  /** An aggregate with unique keys whose only key is `k` has at most one row. */
  lemma AtMostOneRowPerKey<K, V>(rows: seq<(K, V)>, k: K)
    requires UniqueKeys(rows)
    requires KeysOf(rows) <= {k}
    ensures |rows| <= 1
  {
    UniqueKeysCount(rows);
    assert KeysOf(rows) == {} || KeysOf(rows) == {k};
  }

  /** Adds one row (k, v) into an aggregate: the group of `k` grows by `v`,
      or a new group `k` is appended after the existing ones. */
  function Accumulate<K(==,!new)>(acc: seq<(K, nat)>, k: K, v: nat): (r: seq<(K, nat)>)
    requires UniqueKeys(acc)
    ensures UniqueKeys(r)
    ensures KeysOf(r) == KeysOf(acc) + {k}
    ensures forall k' :: ValueOf(r, k') == ValueOf(acc, k') + (if k' == k then v else 0)
    ensures Total(r) == Total(acc) + v
  {
    if |acc| == 0 then
      assert KeysOf([(k, v)]) == {k} by { KeysOfSnoc([], (k, v)); }
      [(k, v)]
    else if acc[0].0 == k then
      AccumulateHit(acc, k, v);
      [(k, acc[0].1 + v)] + acc[1..]
    else
      UniqueKeysTail(acc);
      var rest := Accumulate(acc[1..], k, v);
      AccumulateMiss(acc, k, v, rest);
      [acc[0]] + rest
  }

  lemma UniqueKeysTail<K, V>(rows: seq<(K, V)>)
    requires UniqueKeys(rows) && |rows| > 0
    ensures UniqueKeys(rows[1..])
    ensures rows[0].0 !in KeysOf(rows[1..])
  {
    assert forall j :: 0 <= j < |rows| - 1 ==> rows[1..][j] == rows[j + 1];
  }

  /** The group of `k` is the first one: it grows by `v` in place. */
  lemma AccumulateHit<K(!new)>(acc: seq<(K, nat)>, k: K, v: nat)
    requires UniqueKeys(acc) && |acc| > 0 && acc[0].0 == k
    ensures var r := [(k, acc[0].1 + v)] + acc[1..];
      && UniqueKeys(r)
      && KeysOf(r) == KeysOf(acc) + {k}
      && (forall k' :: ValueOf(r, k') == ValueOf(acc, k') + (if k' == k then v else 0))
      && Total(r) == Total(acc) + v
  {
    var r := [(k, acc[0].1 + v)] + acc[1..];
    assert acc == [acc[0]] + acc[1..];
    UniqueKeysTail(acc);
    KeysOfCons(acc[0], acc[1..]);
    KeysOfCons((k, acc[0].1 + v), acc[1..]);
    ValueOfAbsent(acc[1..], k);
    assert r[1..] == acc[1..];
    assert forall j :: 1 <= j < |r| ==> r[j] == acc[j];
  }

  /** The group of `k` is not the first one: the first group is kept and
      `(k, v)` goes into the rest. */
  lemma AccumulateMiss<K(!new)>(acc: seq<(K, nat)>, k: K, v: nat, rest: seq<(K, nat)>)
    requires UniqueKeys(acc) && |acc| > 0 && acc[0].0 != k
    requires UniqueKeys(rest)
    requires KeysOf(rest) == KeysOf(acc[1..]) + {k}
    requires forall k' :: ValueOf(rest, k') == ValueOf(acc[1..], k') + (if k' == k then v else 0)
    requires Total(rest) == Total(acc[1..]) + v
    ensures var r := [acc[0]] + rest;
      && UniqueKeys(r)
      && KeysOf(r) == KeysOf(acc) + {k}
      && (forall k' :: ValueOf(r, k') == ValueOf(acc, k') + (if k' == k then v else 0))
      && Total(r) == Total(acc) + v
  {
    var r := [acc[0]] + rest;
    assert r[1..] == rest;
    assert acc == [acc[0]] + acc[1..];
    assert acc[0].0 !in KeysOf(rest) by { UniqueKeysTail(acc); }
    assert UniqueKeys(r) by {
      assert forall j :: 0 <= j < |rest| ==> rest[j].0 in KeysOf(rest);
    }
    assert KeysOf(r) == KeysOf(acc) + {k} by {
      KeysOfCons(acc[0], acc[1..]);
      KeysOfCons(acc[0], rest);
    }
    assert Total(r) == Total(acc) + v by {
      TotalCons(acc[0], rest);
    }
  }

  /** `groupby(key)[value].sum()`: one row per distinct key, in order of
      first appearance, holding the sum of that key's values. */
  function GroupSum<K(==,!new)>(rows: seq<(K, nat)>): (r: seq<(K, nat)>)
    ensures UniqueKeys(r)
    ensures KeysOf(r) == KeysOf(rows)
    ensures forall k :: ValueOf(r, k) == SumFor(rows, k)
    ensures Total(r) == Total(rows)
  {
    if |rows| == 0 then []
    else
      var init := rows[..|rows| - 1];
      var last := rows[|rows| - 1];
      assert rows == init + [last];
      KeysOfSnoc(init, last);
      TotalConcat(init, [last]);
      Accumulate(GroupSum(init), last.0, last.1)
  }

  /** Every row of a group-by sum holds the sum of exactly the input rows
      carrying its key, and that key does occur in the input. */
  lemma GroupSumRows<K(!new)>(rows: seq<(K, nat)>)
    ensures forall i :: 0 <= i < |GroupSum(rows)| ==>
      GroupSum(rows)[i].0 in KeysOf(rows) && GroupSum(rows)[i].1 == SumFor(rows, GroupSum(rows)[i].0)
  {
    var g := GroupSum(rows);
    forall i | 0 <= i < |g|
      ensures g[i].0 in KeysOf(rows) && g[i].1 == SumFor(rows, g[i].0)
    {
      ValueOfEntry(g, i);
      assert g[i].0 in KeysOf(g);
    }
  }

  /** Two keyed columns with the same key in every row have the same keys,
      and the second is unique-keyed when the first is. */
  lemma SameKeys<K, V, W>(a: seq<(K, V)>, b: seq<(K, W)>)
    requires |a| == |b|
    requires forall i :: 0 <= i < |a| ==> a[i].0 == b[i].0
    ensures KeysOf(a) == KeysOf(b)
    ensures UniqueKeys(a) ==> UniqueKeys(b)
  {
    forall k | k in KeysOf(a) ensures k in KeysOf(b) {
      var i :| 0 <= i < |a| && a[i].0 == k;
      assert b[i].0 == k;
    }
  }

  /** The key column of a keyed column holds exactly its keys, each once
      when the keys are unique. */
  lemma KeyColumn<K, V>(rows: seq<(K, V)>, ks: seq<K>)
    requires |ks| == |rows|
    requires forall i :: 0 <= i < |ks| ==> ks[i] == rows[i].0
    ensures forall k :: k in ks <==> k in KeysOf(rows)
    ensures UniqueKeys(rows) ==> Distinct(ks)
  {
    forall k | k in KeysOf(rows) ensures k in ks {
      var i :| 0 <= i < |rows| && rows[i].0 == k;
      assert ks[i] == k;
    }
  }

  /** Reference: how many times `x` occurs in `xs`. */
  function Count<T(==)>(xs: seq<T>, x: T): nat
  {
    if |xs| == 0 then 0
    else Count(xs[..|xs| - 1], x) + (if xs[|xs| - 1] == x then 1 else 0)
  }

  /** Each element weighted 1: the column `size()` sums. */
  function Ones<T>(xs: seq<T>): (r: seq<(T, nat)>)
    ensures |r| == |xs|
    ensures forall i :: 0 <= i < |xs| ==> r[i] == (xs[i], 1)
  {
    if |xs| == 0 then [] else Ones(xs[..|xs| - 1]) + [(xs[|xs| - 1], 1)]
  }

  lemma {:induction false} OnesSums<T>(xs: seq<T>)
    ensures forall x :: SumFor(Ones(xs), x) == Count(xs, x)
    ensures Total(Ones(xs)) == |xs|
    ensures KeysOf(Ones(xs)) == set x | x in xs
  {
    if |xs| > 0 {
      var init := xs[..|xs| - 1];
      OnesSums(init);
      assert Ones(xs) == Ones(init) + [(xs[|xs| - 1], 1)];
      assert Ones(xs)[..|xs| - 1] == Ones(init);
      TotalConcat(Ones(init), [(xs[|xs| - 1], 1)]);
      KeysOfSnoc(Ones(init), (xs[|xs| - 1], 1));
      assert xs == init + [xs[|xs| - 1]];
    } else {
      assert Ones(xs) == [];
    }
  }

  /** `groupby(cols).size()`: one row per distinct value, in order of first
      appearance, holding the number of its occurrences. Counts are never 0
      and add up to the number of input rows. */
  function GroupCount<T(==,!new)>(xs: seq<T>): (r: seq<(T, nat)>)
    ensures UniqueKeys(r)
    ensures KeysOf(r) == set x | x in xs
    ensures forall x :: ValueOf(r, x) == Count(xs, x)
    ensures forall i :: 0 <= i < |r| ==> r[i].1 == Count(xs, r[i].0) && r[i].1 >= 1
    ensures Total(r) == |xs|
  {
    var r := GroupSum(Ones(xs));
    OnesSums(xs);
    GroupSumRows(Ones(xs));
    assert forall i :: 0 <= i < |r| ==> r[i].0 in KeysOf(r);
    forall i | 0 <= i < |r| ensures r[i].1 >= 1 {
      assert r[i].0 in xs;
      CountPositive(xs, r[i].0);
    }
    r
  }

  /** The group keys of `groupby(col).size()`: every distinct value of the
      column, once each. */
  function DistinctValues<T(==,!new)>(xs: seq<T>): (r: seq<T>)
    ensures Distinct(r)
    ensures forall x :: x in r <==> x in xs
  {
    var g := GroupCount(xs);
    var r := seq(|g|, i requires 0 <= i < |g| => g[i].0);
    KeyColumn(g, r);
    assert forall x :: x in KeysOf(g) <==> x in xs;
    r
  }

  lemma {:induction false} CountPositive<T>(xs: seq<T>, x: T)
    requires x in xs
    ensures Count(xs, x) >= 1
  {
    var init := xs[..|xs| - 1];
    if xs[|xs| - 1] != x {
      assert xs == init + [xs[|xs| - 1]];
      assert x in init;
      CountPositive(init, x);
    }
  }
}
