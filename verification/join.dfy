/**
 `pd.merge(left, right, on=key, how='left')`: every left row is kept, in
 order; it is paired with each right row carrying the same key, in the right
 table's order, or with nothing (NaN columns) when no right row matches.
 A right table with duplicate keys multiplies the left row.
 */
module Join {
  import opened Common

  /** The key selected by `key` occurs on at most one row. */
  predicate UniqueBy<R, K(==)>(rows: seq<R>, key: R -> K)
  {
    forall i, j :: 0 <= i < j < |rows| ==> key(rows[i]) != key(rows[j])
  }

  /** The first row whose key is `k`, if any. */
  function FindBy<R, K(==)>(rows: seq<R>, key: R -> K, k: K): (r: Option<R>)
    ensures r.Some? ==> r.value in rows && key(r.value) == k
    ensures r.None? <==> forall i :: 0 <= i < |rows| ==> key(rows[i]) != k
  {
    if |rows| == 0 then None
    else if key(rows[0]) == k then Some(rows[0])
    else
      var r := FindBy(rows[1..], key, k);
      assert forall i :: 1 <= i < |rows| ==> rows[i] == rows[1..][i - 1];
      r
  }

  /** In a table whose keys are unique, the row found for a key is the only
      row with that key. */
  lemma FindByUnique<R, K>(rows: seq<R>, key: R -> K, i: nat)
    requires UniqueBy(rows, key)
    requires i < |rows|
    ensures FindBy(rows, key, key(rows[i])) == Some(rows[i])
  {
    if i > 0 {
      assert rows[1..][i - 1] == rows[i];
      FindByUnique(rows[1..], key, i - 1);
    }
  }

  /** Dropping the first row keeps keys unique, and no later row shares the
      first row's key. */
  lemma UniqueByTail<R, K>(rows: seq<R>, key: R -> K)
    requires UniqueBy(rows, key) && |rows| > 0
    ensures UniqueBy(rows[1..], key)
    ensures forall i :: 0 <= i < |rows[1..]| ==> key(rows[1..][i]) != key(rows[0])
  {
    forall i, j | 0 <= i < j < |rows| - 1
      ensures key(rows[1..][i]) != key(rows[1..][j])
    {
      assert rows[1..][i] == rows[i + 1] && rows[1..][j] == rows[j + 1];
    }
    forall i | 0 <= i < |rows[1..]| ensures key(rows[1..][i]) != key(rows[0]) {
      assert rows[1..][i] == rows[i + 1];
    }
  }

  /** The right rows matching `k`, in table order. */
  function Matches<R, K(==)>(rows: seq<R>, key: R -> K, k: K): (r: seq<R>)
    ensures forall i :: 0 <= i < |r| ==> r[i] in rows && key(r[i]) == k
    ensures forall i :: 0 <= i < |rows| && key(rows[i]) == k ==> rows[i] in r
    ensures |r| == 0 <==> FindBy(rows, key, k).None?
    ensures |r| > 0 ==> r[0] == FindBy(rows, key, k).value
    ensures UniqueBy(rows, key) ==> |r| <= 1
  {
    if |rows| == 0 then []
    else
      var rest := Matches(rows[1..], key, k);
      assert forall i :: 1 <= i < |rows| ==> rows[i] == rows[1..][i - 1];
      assert UniqueBy(rows, key) ==> UniqueBy(rows[1..], key) by {
        if UniqueBy(rows, key) { UniqueByTail(rows, key); }
      }
      if key(rows[0]) == k then
        assert UniqueBy(rows, key) ==> |rest| == 0 by {
          if UniqueBy(rows, key) && |rest| > 0 {
            UniqueByTail(rows, key);
            assert false;
          }
        }
        [rows[0]] + rest
      else
        rest
  }

  /** The output rows one left row produces. */
  function Pair<L, R>(l: L, ms: seq<R>): (r: seq<(L, Option<R>)>)
    ensures |r| == if |ms| == 0 then 1 else |ms|
    ensures forall i :: 0 <= i < |r| ==> r[i].0 == l
    ensures forall i :: 0 <= i < |r| ==> (r[i].1.None? <==> |ms| == 0)
    ensures forall i :: 0 <= i < |r| && r[i].1.Some? ==> r[i].1.value in ms
    ensures |ms| > 0 ==> r[0] == (l, Some(ms[0]))
  {
    if |ms| == 0 then [(l, None)]
    else seq(|ms|, i requires 0 <= i < |ms| => (l, Some(ms[i])))
  }

  /** `merge(left, right, how='left')` keyed by `lkey` on the left and `rkey`
      on the right. */
  function LeftJoin<L, R, K(==)>(left: seq<L>, right: seq<R>, lkey: L -> K, rkey: R -> K)
    : (r: seq<(L, Option<R>)>)
    ensures |r| >= |left|
    ensures UniqueBy(right, rkey) ==>
      |r| == |left| &&
      forall i :: 0 <= i < |left| ==> r[i] == (left[i], FindBy(right, rkey, lkey(left[i])))
  {
    if |left| == 0 then []
    else
      var rest := LeftJoin(left[1..], right, lkey, rkey);
      var here := Pair(left[0], Matches(right, rkey, lkey(left[0])));
      var r := here + rest;
      assert UniqueBy(right, rkey) ==>
        forall i :: 0 <= i < |left| ==> r[i] == (left[i], FindBy(right, rkey, lkey(left[i]))) by {
        if UniqueBy(right, rkey) {
          forall i | 0 <= i < |left|
            ensures r[i] == (left[i], FindBy(right, rkey, lkey(left[i])))
          {
            if i > 0 {
              assert r[i] == rest[i - 1];
              assert left[1..][i - 1] == left[i];
            }
          }
        }
      }
      r
  }

  /** Every output row comes from a left row, and carries either a right
      row with the same key or nothing when the right table has no such key. */
  lemma LeftJoinRows<L, R, K>(left: seq<L>, right: seq<R>, lkey: L -> K, rkey: R -> K)
    ensures forall o :: o in LeftJoin(left, right, lkey, rkey) ==>
      && o.0 in left
      && (o.1.Some? ==> o.1.value in right && rkey(o.1.value) == lkey(o.0))
      && (o.1.None? ==> FindBy(right, rkey, lkey(o.0)).None?)
  {
    if |left| > 0 {
      LeftJoinRows(left[1..], right, lkey, rkey);
      var out := LeftJoin(left, right, lkey, rkey);
      var here := Pair(left[0], Matches(right, rkey, lkey(left[0])));
      var rest := LeftJoin(left[1..], right, lkey, rkey);
      assert out == here + rest;
      forall o | o in out
        ensures o.0 in left
        ensures o.1.Some? ==> o.1.value in right && rkey(o.1.value) == lkey(o.0)
        ensures o.1.None? ==> FindBy(right, rkey, lkey(o.0)).None?
      {
        if o in here {
          var i :| 0 <= i < |here| && here[i] == o;
        } else {
          assert o in rest;
          assert o.0 in left[1..];
        }
      }
    }
  }

  /** No left row is lost: each one appears in some output row. */
  lemma LeftJoinKeepsLeft<L, R, K>(left: seq<L>, right: seq<R>, lkey: L -> K, rkey: R -> K)
    ensures forall l :: l in left ==> exists o :: o in LeftJoin(left, right, lkey, rkey) && o.0 == l
  {
    if |left| > 0 {
      LeftJoinKeepsLeft(left[1..], right, lkey, rkey);
      var out := LeftJoin(left, right, lkey, rkey);
      var here := Pair(left[0], Matches(right, rkey, lkey(left[0])));
      var rest := LeftJoin(left[1..], right, lkey, rkey);
      assert out == here + rest;
      forall l | l in left
        ensures exists o :: o in out && o.0 == l
      {
        if l == left[0] {
          assert here[0] in out;
        } else {
          assert l in left[1..];
          var o :| o in rest && o.0 == l;
          assert o in out;
        }
      }
    }
  }
}
