/**
 * The few math.js operations the simulator uses (add, subtract, multiply by a
 * scalar, zeros, reshape), stated over exact reals. A vector is a sequence of
 * reals of any length; an N x 3 matrix is a sequence of N rows of length 3.
 */
module Vectors {
  type Vector = seq<real>

  function Zeros(n: nat): (r: Vector)
    ensures |r| == n && forall i :: 0 <= i < n ==> r[i] == 0.0
  {
    seq(n, i => 0.0)
  }

  /** Elementwise sum, as math.add on two arrays of the same shape. */
  function Add(a: Vector, b: Vector): (r: Vector)
    requires |a| == |b|
    ensures |r| == |a| && forall i :: 0 <= i < |a| ==> r[i] == a[i] + b[i]
  {
    seq(|a|, i requires 0 <= i < |a| => a[i] + b[i])
  }

  /** Elementwise difference, as math.subtract. */
  function Sub(a: Vector, b: Vector): (r: Vector)
    requires |a| == |b|
    ensures |r| == |a| && forall i :: 0 <= i < |a| ==> r[i] == a[i] - b[i]
  {
    seq(|a|, i requires 0 <= i < |a| => a[i] - b[i])
  }

  /** Product with a scalar, as math.multiply(vector, scalar). */
  function Scale(c: real, a: Vector): (r: Vector)
    ensures |r| == |a| && forall i :: 0 <= i < |a| ==> r[i] == c * a[i]
  {
    seq(|a|, i requires 0 <= i < |a| => c * a[i])
  }

  function Neg(a: Vector): (r: Vector)
    ensures |r| == |a| && forall i :: 0 <= i < |a| ==> r[i] == -a[i]
  {
    seq(|a|, i requires 0 <= i < |a| => -a[i])
  }

  lemma SubSwap(a: Vector, b: Vector)
    requires |a| == |b|
    ensures Sub(b, a) == Neg(Sub(a, b))
  {
  }

  /** An n x 3 matrix: n rows of three coordinates. */
  predicate IsMatrix(m: seq<Vector>, n: nat) {
    |m| == n && forall i :: 0 <= i < n ==> |m[i]| == 3
  }

  /** Row-major flattening of an n x 3 matrix (the memory order math.js uses). */
  function Flatten(m: seq<Vector>): (r: Vector)
    requires IsMatrix(m, |m|)
    ensures |r| == 3 * |m|
    ensures forall i, k :: 0 <= i < |m| && 0 <= k < 3 ==> r[3 * i + k] == m[i][k]
  {
    if m == [] then [] else m[0] + Flatten(m[1..])
  }

  /** The n rows of three that a flat vector of length 3n reshapes to. */
  function Rows(v: Vector, n: nat): (m: seq<Vector>)
    requires |v| == 3 * n
    ensures IsMatrix(m, n)
    ensures forall i, k :: 0 <= i < n && 0 <= k < 3 ==> m[i][k] == v[3 * i + k]
  {
    seq(n, i requires 0 <= i < n => v[3 * i .. 3 * i + 3])
  }

  /** Reshaping is lossless in both directions. */
  lemma RowsFlatten(m: seq<Vector>)
    requires IsMatrix(m, |m|)
    ensures Rows(Flatten(m), |m|) == m
  {
    var r := Rows(Flatten(m), |m|);
    forall i | 0 <= i < |m|
      ensures r[i] == m[i]
    {
      assert r[i][0] == m[i][0] && r[i][1] == m[i][1] && r[i][2] == m[i][2];
    }
  }

  lemma FlattenRows(v: Vector, n: nat)
    requires |v| == 3 * n
    ensures Flatten(Rows(v, n)) == v
  {
    var f := Flatten(Rows(v, n));
    forall j | 0 <= j < |v|
      ensures f[j] == v[j]
    {
      var i, k := j / 3, j % 3;
      assert j == 3 * i + k;
      assert f[3 * i + k] == Rows(v, n)[i][k];
    }
  }

  /** A flat vector of length 6n is its first 3n entries reshaped and
      flattened, followed by its last 3n entries reshaped and flattened. */
  lemma FlattenRowsHalves(v: Vector, n: nat)
    requires |v| == 6 * n
    ensures Flatten(Rows(v[..3 * n], n)) + Flatten(Rows(v[3 * n..], n)) == v
  {
    FlattenRows(v[..3 * n], n);
    FlattenRows(v[3 * n..], n);
    SplitJoin(v, 3 * n);
  }

  lemma SplitJoin(v: Vector, k: nat)
    requires k <= |v|
    ensures v[..k] + v[k..] == v
  {
  }
}
