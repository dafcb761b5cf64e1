/** Row-major square matrices of reals, the shape shared by matrix33 and matrix44
    (math/matrix33.h, math/matrix44.h): both multiply with the same triple loop into a
    fresh result, and matrix33 transposes in place with the same pair swap. */
module Square {

  type Matrix = seq<seq<real>>

  predicate IsSquare(m: Matrix, n: nat)
  {
    |m| == n && forall i :: 0 <= i < n ==> |m[i]| == n
  }

  /** The n×n matrix of zeros. */
  function Zero(n: nat): (r: Matrix)
    ensures IsSquare(r, n)
    ensures forall i, j :: 0 <= i < n && 0 <= j < n ==> r[i][j] == 0.0
  {
    seq(n, i => seq(n, j => 0.0))
  }

  /** Writing one entry, as `m(i, j) = v` does. */
  function Set(m: Matrix, n: nat, i: nat, j: nat, v: real): (r: Matrix)
    requires IsSquare(m, n) && i < n && j < n
    ensures IsSquare(r, n)
    ensures r[i][j] == v
    ensures forall p, q :: 0 <= p < n && 0 <= q < n && (p != i || q != j) ==> r[p][q] == m[p][q]
  {
    m[i := m[i][j := v]]
  }

  /** The partial row-by-column sum a[i][0]*b[0][j] + ... + a[i][k-1]*b[k-1][j],
      accumulated left to right as the source's inner loop does. */
  function RowCol(a: Matrix, b: Matrix, n: nat, i: nat, j: nat, k: nat): real
    requires IsSquare(a, n) && IsSquare(b, n) && i < n && j < n && k <= n
  {
    if k == 0 then 0.0 else RowCol(a, b, n, i, j, k - 1) + a[i][k - 1] * b[k - 1][j]
  }

  /** The matrix product: entry (i, j) is the full row-by-column sum. */
  function Product(a: Matrix, b: Matrix, n: nat): (r: Matrix)
    requires IsSquare(a, n) && IsSquare(b, n)
    ensures IsSquare(r, n)
    ensures forall i, j :: 0 <= i < n && 0 <= j < n ==> r[i][j] == RowCol(a, b, n, i, j, n)
  {
    seq(n, i requires 0 <= i < n => seq(n, j requires 0 <= j < n => RowCol(a, b, n, i, j, n)))
  }

  /** Entry (i, j) of the result is entry (j, i) of the argument. */
  function Transposed(m: Matrix, n: nat): (r: Matrix)
    requires IsSquare(m, n)
    ensures IsSquare(r, n)
    ensures forall i, j :: 0 <= i < n && 0 <= j < n ==> r[i][j] == m[j][i]
  {
    seq(n, i requires 0 <= i < n => seq(n, j requires 0 <= j < n => m[j][i]))
  }

  /** operator*(matrix): columns j, then rows i, then the k-sum into v, stored at r(i, j).
      `start` is whatever the uninitialised result held: every entry is overwritten, so
      the product does not depend on it. */
  method Multiply(a: Matrix, b: Matrix, n: nat, start: Matrix) returns (r: Matrix)
    requires IsSquare(a, n) && IsSquare(b, n) && IsSquare(start, n)
    ensures r == Product(a, b, n)
  {
    r := start;
    var j := 0;
    while j < n
      invariant 0 <= j <= n
      invariant IsSquare(r, n)
      invariant forall p, q :: 0 <= p < n && 0 <= q < j ==> r[p][q] == RowCol(a, b, n, p, q, n)
    {
      var i := 0;
      while i < n
        invariant 0 <= i <= n
        invariant IsSquare(r, n)
        invariant forall p, q :: 0 <= p < n && 0 <= q < j ==> r[p][q] == RowCol(a, b, n, p, q, n)
        invariant forall p :: 0 <= p < i ==> r[p][j] == RowCol(a, b, n, p, j, n)
      {
        var v := 0.0;
        var k := 0;
        while k < n
          invariant 0 <= k <= n
          invariant v == RowCol(a, b, n, i, j, k)
        {
          v := v + a[i][k] * b[k][j];
          k := k + 1;
        }
        r := Set(r, n, i, j, v);
        i := i + 1;
      }
      j := j + 1;
    }
    var prod := Product(a, b, n);
    forall p | 0 <= p < n
      ensures r[p] == prod[p]
    {
    }
  }

  /** transpose(): for i < j swaps m[i][j] with m[j][i]; the diagonal is never touched.
      The struct is changed in place; here the result is the new value of the receiver. */
  method Transpose(m: Matrix, n: nat) returns (r: Matrix)
    requires IsSquare(m, n)
    ensures r == Transposed(m, n)
  {
    r := m;
    var i := 0;
    while i < n
      invariant 0 <= i <= n
      invariant IsSquare(r, n)
      invariant forall p, q :: 0 <= p < n && 0 <= q < n ==>
        r[p][q] == (if p != q && (p < i || q < i) then m[q][p] else m[p][q])
    {
      var j := i + 1;
      while j < n
        invariant i + 1 <= j <= n
        invariant IsSquare(r, n)
        invariant forall p, q :: 0 <= p < n && 0 <= q < n ==>
          r[p][q] == (if p != q && (p < i || q < i || (p == i && q < j) || (q == i && p < j)) then m[q][p] else m[p][q])
      {
        var t := r[i][j];
        r := Set(r, n, i, j, r[j][i]);
        r := Set(r, n, j, i, t);
        j := j + 1;
      }
      i := i + 1;
    }
    var tr := Transposed(m, n);
    forall p | 0 <= p < n
      ensures r[p] == tr[p]
    {
    }
  }

  /** Transposing twice gives the matrix back. */
  lemma TransposeInvolution(m: Matrix, n: nat)
    requires IsSquare(m, n)
    ensures Transposed(Transposed(m, n), n) == m
  {
    var t := Transposed(Transposed(m, n), n);
    forall p | 0 <= p < n
      ensures t[p] == m[p]
    {
    }
  }
}
