/** The visiting order of two nested `for` loops, shared by `main` in
    composite.py (screenshots, then devices) and `main` in generate_sfx.py
    (specs, then variations). */
module Nested {
  import opened Arith

  /** `[(x, y) for x in xs for y in ys]`. */
  function Cross<A, B>(xs: seq<A>, ys: seq<B>): (r: seq<(A, B)>)
    ensures |r| == |xs| * |ys|
  {
    if |xs| == 0 then []
    else seq(|ys|, j requires 0 <= j < |ys| => (xs[0], ys[j])) + Cross(xs[1..], ys)
  }

  /** Python's `range(n)`: empty when n <= 0. */
  function Range(n: int): (r: seq<nat>)
    ensures |r| == if n <= 0 then 0 else n
    ensures forall i :: 0 <= i < |r| ==> r[i] == i
  {
    if n <= 0 then [] else seq(n, i requires 0 <= i < n => i)
  }

  /** Step i*|ys| + j of the nested loops visits (xs[i], ys[j]). */
  lemma {:induction false} CrossIndex<A, B>(xs: seq<A>, ys: seq<B>, i: nat, j: nat)
    requires i < |xs| && j < |ys|
    ensures i * |ys| + j < |Cross(xs, ys)|
    ensures Cross(xs, ys)[i * |ys| + j] == (xs[i], ys[j])
  {
    var n := |ys|;
    var r := Cross(xs, ys);
    var head := seq(n, k requires 0 <= k < n => (xs[0], ys[k]));
    var tail := Cross(xs[1..], ys);
    assert r == head + tail;
    assert i * n + j < |xs| * n by {
      assert (i + 1) * n <= |xs| * n by { MulMono(i + 1, |xs|, n); }
    }
    if i == 0 {
      assert r[j] == head[j];
    } else {
      CrossIndex(xs[1..], ys, i - 1, j);
      var k := (i - 1) * n + j;
      assert i * n + j == k + n by {
        assert i * n == (i - 1) * n + n;
      }
      assert r[k + n] == tail[k];
      assert xs[1..][i - 1] == xs[i];
    }
  }

  /** Step k of the nested loops computed directly: row k / |ys|, column k % |ys|. */
  function Step<A, B>(xs: seq<A>, ys: seq<B>, k: nat): (A, B)
    requires k < |xs| * |ys|
  {
    DivModSplit(k, |ys|, |xs|);
    (xs[k / |ys|], ys[k % |ys|])
  }

  /** Every step of the nested loops is the directly computed one. */
  lemma CrossAt<A, B>(xs: seq<A>, ys: seq<B>, k: nat)
    requires k < |xs| * |ys|
    ensures k < |Cross(xs, ys)| && Cross(xs, ys)[k] == Step(xs, ys, k)
  {
    var n := |ys|;
    DivModSplit(k, n, |xs|);
    var i, j := k / n, k % n;
    CrossIndex(xs, ys, i, j);
  }
}
