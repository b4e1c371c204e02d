/**
 The nested `for` loops of the generators. A loop nest that appends the rows
 of each outer iteration in turn produces the concatenation of the rows of
 each iteration: `Flatten`. Two nested loops over fixed lists visit every
 pair in row-major order: `Cross`.
 */
module Grid {
  import opened Common

  /** The concatenation of the blocks, in order. */
  function Flatten<T>(xss: seq<seq<T>>): seq<T>
  {
    if |xss| == 0 then [] else Flatten(xss[..|xss| - 1]) + xss[|xss| - 1]
  }

  /** An element of the concatenation comes from one of the blocks, and every
      element of every block is in the concatenation. */
  lemma {:induction false} FlattenMember<T>(xss: seq<seq<T>>, x: T)
    ensures x in Flatten(xss) <==> exists i :: 0 <= i < |xss| && x in xss[i]
  {
    if |xss| > 0 {
      var init := xss[..|xss| - 1];
      FlattenMember(init, x);
      if x in Flatten(init) {
        var i :| 0 <= i < |init| && x in init[i];
        assert xss[i] == init[i];
      }
      if exists i :: 0 <= i < |xss| && x in xss[i] {
        var i :| 0 <= i < |xss| && x in xss[i];
        if i < |xss| - 1 {
          assert init[i] == xss[i];
        }
      }
    }
  }

  /** Blocks of between `lo` and `hi` elements concatenate to between
      `lo * |xss|` and `hi * |xss|` elements. */
  lemma {:induction false} FlattenBounds<T>(xss: seq<seq<T>>, lo: nat, hi: nat)
    requires forall i :: 0 <= i < |xss| ==> lo <= |xss[i]| <= hi
    ensures lo * |xss| <= |Flatten(xss)| <= hi * |xss|
  {
    if |xss| > 0 {
      var init := xss[..|xss| - 1];
      assert forall i :: 0 <= i < |init| ==> init[i] == xss[i];
      FlattenBounds(init, lo, hi);
      assert lo * |xss| == lo * |init| + lo;
      assert hi * |xss| == hi * |init| + hi;
    }
  }

  /** Blocks of exactly `n` elements concatenate to `|xss| * n` elements. */
  lemma {:induction false} FlattenUniformLength<T>(xss: seq<seq<T>>, n: nat)
    requires forall i :: 0 <= i < |xss| ==> |xss[i]| == n
    ensures |Flatten(xss)| == |xss| * n
  {
    if |xss| > 0 {
      var init := xss[..|xss| - 1];
      assert forall i :: 0 <= i < |init| ==> init[i] == xss[i];
      FlattenUniformLength(init, n);
      assert |xss| * n == |init| * n + n;
    }
  }

  /** Blocks of exactly `n` elements: position `i * n + j` of the
      concatenation holds element `j` of block `i`. */
  lemma {:induction false} FlattenUniformAt<T>(xss: seq<seq<T>>, n: nat, i: nat, j: nat)
    requires forall k :: 0 <= k < |xss| ==> |xss[k]| == n
    requires i < |xss| && j < n
    ensures i * n + j < |Flatten(xss)|
    ensures Flatten(xss)[i * n + j] == xss[i][j]
  {
    var init := xss[..|xss| - 1];
    assert forall k :: 0 <= k < |init| ==> init[k] == xss[k];
    FlattenUniformLength(init, n);
    FlattenUniformLength(xss, n);
    assert Flatten(xss) == Flatten(init) + xss[|xss| - 1];
    if i < |init| {
      FlattenUniformAt(init, n, i, j);
    } else {
      assert i == |init|;
    }
  }

  /** Blocks without repeats whose elements never occur in another block
      concatenate to a sequence without repeats. */
  lemma {:induction false} FlattenDistinct<T>(xss: seq<seq<T>>)
    requires forall i :: 0 <= i < |xss| ==> Distinct(xss[i])
    requires forall i, j, x :: 0 <= i < j < |xss| && x in xss[i] ==> x !in xss[j]
    ensures Distinct(Flatten(xss))
  {
    if |xss| > 0 {
      var init := xss[..|xss| - 1];
      var last := xss[|xss| - 1];
      assert forall i :: 0 <= i < |init| ==> init[i] == xss[i];
      FlattenDistinct(init);
      var f := Flatten(init);
      forall x | x in f ensures x !in last {
        FlattenMember(init, x);
        var i :| 0 <= i < |init| && x in init[i];
      }
      var r := Flatten(xss);
      assert r == f + last;
      forall a, b | 0 <= a < b < |r| ensures r[a] != r[b] {
        if b < |f| {
          assert r[a] == f[a] && r[b] == f[b];
        } else if a < |f| {
          assert r[a] in f && r[b] == last[b - |f|];
        } else {
          assert r[a] == last[a - |f|] && r[b] == last[b - |f|];
        }
      }
    }
  }

  /** The same for a key of the elements: blocks whose keys do not repeat,
      and whose keys never occur in another block, concatenate to a sequence
      whose keys do not repeat. */
  lemma {:induction false} FlattenDistinctBy<T, K>(xss: seq<seq<T>>, key: T -> K)
    requires forall i, a, b :: 0 <= i < |xss| && 0 <= a < b < |xss[i]| ==> key(xss[i][a]) != key(xss[i][b])
    requires forall i, j, x, y :: 0 <= i < j < |xss| && x in xss[i] && y in xss[j] ==> key(x) != key(y)
    ensures forall a, b :: 0 <= a < b < |Flatten(xss)| ==> key(Flatten(xss)[a]) != key(Flatten(xss)[b])
  {
    if |xss| > 0 {
      var init := xss[..|xss| - 1];
      var last := xss[|xss| - 1];
      assert forall i :: 0 <= i < |init| ==> init[i] == xss[i];
      FlattenDistinctBy(init, key);
      var f := Flatten(init);
      forall x, y | x in f && y in last ensures key(x) != key(y) {
        FlattenMember(init, x);
        var i :| 0 <= i < |init| && x in init[i];
      }
      var r := Flatten(xss);
      assert r == f + last;
      forall a, b | 0 <= a < b < |r| ensures key(r[a]) != key(r[b]) {
        if b < |f| {
          assert r[a] == f[a] && r[b] == f[b];
        } else if a < |f| {
          assert r[a] in f && r[b] == last[b - |f|];
        } else {
          assert r[a] == last[a - |f|] && r[b] == last[b - |f|];
        }
      }
    }
  }

  /** Two nested loops over `xs` and `ys`: every pair, in row-major order. */
  function Cross<A, B>(xs: seq<A>, ys: seq<B>): seq<(A, B)>
  {
    Flatten(seq(|xs|, i requires 0 <= i < |xs| => seq(|ys|, j requires 0 <= j < |ys| => (xs[i], ys[j]))))
  }

  /** There are `|xs| * |ys|` pairs. */
  lemma CrossLength<A, B>(xs: seq<A>, ys: seq<B>)
    ensures |Cross(xs, ys)| == |xs| * |ys|
  {
    var blocks := seq(|xs|, i requires 0 <= i < |xs| => seq(|ys|, j requires 0 <= j < |ys| => (xs[i], ys[j])));
    FlattenUniformLength(blocks, |ys|);
  }

  /** The pair of outer iteration `i` and inner iteration `j` is at position
      `i * |ys| + j`. */
  lemma CrossAt<A, B>(xs: seq<A>, ys: seq<B>, i: nat, j: nat)
    requires i < |xs| && j < |ys|
    ensures i * |ys| + j < |Cross(xs, ys)|
    ensures Cross(xs, ys)[i * |ys| + j] == (xs[i], ys[j])
  {
    var blocks := seq(|xs|, i requires 0 <= i < |xs| => seq(|ys|, j requires 0 <= j < |ys| => (xs[i], ys[j])));
    FlattenUniformAt(blocks, |ys|, i, j);
  }

  /** The pairs visited are exactly the pairs of an element of `xs` and an
      element of `ys`. */
  lemma CrossMember<A, B>(xs: seq<A>, ys: seq<B>, p: (A, B))
    ensures p in Cross(xs, ys) <==> p.0 in xs && p.1 in ys
  {
    var blocks := seq(|xs|, i requires 0 <= i < |xs| => seq(|ys|, j requires 0 <= j < |ys| => (xs[i], ys[j])));
    FlattenMember(blocks, p);
    if p.0 in xs && p.1 in ys {
      var i :| 0 <= i < |xs| && xs[i] == p.0;
      var j :| 0 <= j < |ys| && ys[j] == p.1;
      assert blocks[i][j] == p;
    }
  }

  /** No pair is visited twice when neither list repeats an element. */
  lemma CrossDistinct<A, B>(xs: seq<A>, ys: seq<B>)
    requires Distinct(xs) && Distinct(ys)
    ensures Distinct(Cross(xs, ys))
  {
    var blocks := seq(|xs|, i requires 0 <= i < |xs| => seq(|ys|, j requires 0 <= j < |ys| => (xs[i], ys[j])));
    forall i, j, x: (A, B) | 0 <= i < j < |blocks| && x in blocks[i] ensures x !in blocks[j] {
      assert x.0 == xs[i];
    }
    FlattenDistinct(blocks);
  }
}
