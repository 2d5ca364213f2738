/** The finite-difference operators of build/lib/sir/odeSim_spatial.py:
    the forward difference matrix assembled from coordinate triplets, the
    one-dimensional diffusion operator DD = -D^T D, the two-dimensional
    Laplacian kron(I, DD) + kron(DD, I), and the layout of the s, i and r
    blocks in the flattened state vector.  Matrices are dense integer
    matrices, rows of columns. */
module Stencil {
  import opened Errors

  type Matrix = seq<seq<int>>

  /** `m` has the given number of rows, each of the given length. */
  predicate IsMatrix(m: Matrix, rows: nat, cols: nat)
  {
    |m| == rows && forall i :: 0 <= i < rows ==> |m[i]| == cols
  }

  predicate Symmetric(m: Matrix, n: nat)
    requires IsMatrix(m, n, n)
  {
    forall i, j :: 0 <= i < n && 0 <= j < n ==> m[i][j] == m[j][i]
  }

  /** The sum of the first `upto` entries of a row. */
  function SumTo(xs: seq<int>, upto: nat): int
    requires upto <= |xs|
  {
    if upto == 0 then 0 else SumTo(xs, upto - 1) + xs[upto - 1]
  }

  /** The dot product of the first `upto` entries of two vectors. */
  function DotTo(u: seq<int>, v: seq<int>, upto: nat): int
    requires upto <= |u| && upto <= |v|
  {
    if upto == 0 then 0 else DotTo(u, v, upto - 1) + u[upto - 1] * v[upto - 1]
  }

  /** One (row, column, value) entry handed to `coo_matrix`. */
  datatype Triplet = Triplet(row: nat, col: nat, val: int)

  /** The entries the loop `for k in range(m)` appends: (k, k, -1) then (k, k+1, 1). */
  function TripletsBelow(m: nat): (ts: seq<Triplet>)
    ensures |ts| == 2 * m
    ensures forall x :: 0 <= x < |ts| ==> ts[x] == if x % 2 == 0 then Triplet(x / 2, x / 2, -1) else Triplet(x / 2, x / 2 + 1, 1)
  {
    if m == 0 then []
    else TripletsBelow(m - 1) + [Triplet(m - 1, m - 1, -1), Triplet(m - 1, m, 1)]
  }

  /** The triplets of `forward_diff_matrix(n)`; `range(n - 1)` is empty for n = 0.
      No two triplets share a position, so converting to CSR sums nothing and
      the matrix stores exactly 2(n - 1) entries, all of them nonzero. */
  function Triplets(n: nat): (ts: seq<Triplet>)
    ensures |ts| == if n == 0 then 0 else 2 * (n - 1)
    ensures forall x :: 0 <= x < |ts| ==> ts[x].val != 0 && ts[x].row < n && ts[x].col < n
    ensures forall x, y :: 0 <= x < y < |ts| ==> (ts[x].row, ts[x].col) != (ts[y].row, ts[y].col)
  {
    TripletsBelow(if n == 0 then 0 else n - 1)
  }

  /** The value CSR conversion stores at (r, c): the sum of all triplets there. */
  function Assemble(ts: seq<Triplet>, r: nat, c: nat): int
  {
    if |ts| == 0 then 0
    else Assemble(ts[..|ts| - 1], r, c) + (if ts[|ts| - 1].row == r && ts[|ts| - 1].col == c then ts[|ts| - 1].val else 0)
  }

  /** The intended forward difference stencil: -1 on the diagonal and +1 just
      right of it, in every row but the last. */
  function DiffEntry(n: nat, r: nat, c: nat): int
  {
    if r < n - 1 && c == r then -1
    else if r < n - 1 && c == r + 1 then 1
    else 0
  }

  /** Summing the triplets of rows below m gives the stencil on those rows. */
  lemma {:induction false} AssembleBelow(m: nat, r: nat, c: nat)
    ensures Assemble(TripletsBelow(m), r, c) == DiffEntry(m + 1, r, c)
  {
    if m > 0 {
      AssembleBelow(m - 1, r, c);
      var prev := TripletsBelow(m - 1);
      var ts := TripletsBelow(m);
      assert ts[..|ts| - 1] == prev + [Triplet(m - 1, m - 1, -1)];
      assert (prev + [Triplet(m - 1, m - 1, -1)])[..|prev|] == prev;
    }
  }

  /** `forward_diff_matrix(n)`: an n x n matrix with -1 at (k, k) and +1 at
      (k, k + 1) for k < n - 1, zero elsewhere, so its last row is zero. */
  function ForwardDiff(n: nat): (d: Matrix)
    ensures IsMatrix(d, n, n)
    ensures forall r, c :: 0 <= r < n && 0 <= c < n ==> d[r][c] == DiffEntry(n, r, c)
  {
    var ts := Triplets(n);
    forall r: nat, c: nat | r < n && c < n ensures Assemble(ts, r, c) == DiffEntry(n, r, c) {
      AssembleBelow(n - 1, r, c);
    }
    seq(n, r requires 0 <= r < n => seq(n, c requires 0 <= c < n => Assemble(ts, r, c)))
  }

  /** Partial sums of a row of the stencil. */
  lemma {:induction false} DiffRowPrefix(n: nat, r: nat, row: seq<int>, upto: nat)
    requires r < n && |row| == n && upto <= n
    requires forall c :: 0 <= c < n ==> row[c] == DiffEntry(n, r, c)
    ensures SumTo(row, upto) == (if r < n - 1 && r < upto then -1 else 0) + (if r < n - 1 && r + 1 < upto then 1 else 0)
  {
    if upto > 0 {
      DiffRowPrefix(n, r, row, upto - 1);
    }
  }

  /** Every row of the forward difference matrix sums to zero. */
  lemma DiffRowsSumToZero(n: nat, r: nat)
    requires r < n
    ensures SumTo(ForwardDiff(n)[r], n) == 0
  {
    DiffRowPrefix(n, r, ForwardDiff(n)[r], n);
  }

  function Transpose(m: Matrix, rows: nat, cols: nat): (t: Matrix)
    requires IsMatrix(m, rows, cols)
    ensures IsMatrix(t, cols, rows)
    ensures forall i, j :: 0 <= i < cols && 0 <= j < rows ==> t[i][j] == m[j][i]
  {
    seq(cols, i requires 0 <= i < cols => seq(rows, j requires 0 <= j < rows => m[j][i]))
  }

  /** Column j of a matrix. */
  function Column(m: Matrix, rows: nat, cols: nat, j: nat): (v: seq<int>)
    requires IsMatrix(m, rows, cols) && j < cols
    ensures |v| == rows && forall k :: 0 <= k < rows ==> v[k] == m[k][j]
  {
    seq(rows, k requires 0 <= k < rows => m[k][j])
  }

  /** The matrix product of a (p x q) and b (q x s). */
  function MatMul(a: Matrix, b: Matrix, p: nat, q: nat, s: nat): (m: Matrix)
    requires IsMatrix(a, p, q) && IsMatrix(b, q, s)
    ensures IsMatrix(m, p, s)
    ensures forall i, j :: 0 <= i < p && 0 <= j < s ==> m[i][j] == DotTo(a[i], Column(b, q, s, j), q)
  {
    seq(p, i requires 0 <= i < p => seq(s, j requires 0 <= j < s => DotTo(a[i], Column(b, q, s, j), q)))
  }

  function Negate(m: Matrix, rows: nat, cols: nat): (r: Matrix)
    requires IsMatrix(m, rows, cols)
    ensures IsMatrix(r, rows, cols)
    ensures forall i, j :: 0 <= i < rows && 0 <= j < cols ==> r[i][j] == -m[i][j]
  {
    seq(rows, i requires 0 <= i < rows => seq(cols, j requires 0 <= j < cols => -m[i][j]))
  }

  /** The intended one-dimensional diffusion stencil: +1 next to the
      diagonal, and on the diagonal minus the number of neighbours (-2 inside,
      -1 at either end). */
  function SecondDiffEntry(n: nat, r: nat, c: nat): int
  {
    if r == c then -((if r < n - 1 then 1 else 0) + (if 1 <= r then 1 else 0))
    else if c == r + 1 || r == c + 1 then 1
    else 0
  }

  /** Partial sums over k of D[k][r] * D[k][c]: only k = r and k = r - 1 contribute. */
  lemma {:induction false} ColumnProductPrefix(n: nat, r: nat, c: nat, u: seq<int>, v: seq<int>, upto: nat)
    requires r < n && c < n && |u| == n && |v| == n && upto <= n
    requires forall k :: 0 <= k < n ==> u[k] == DiffEntry(n, k, r) && v[k] == DiffEntry(n, k, c)
    ensures DotTo(u, v, upto) ==
      (if r < upto && r < n - 1 then -DiffEntry(n, r, c) else 0)
      + (if 1 <= r && r - 1 < upto then DiffEntry(n, r - 1, c) else 0)
  {
    if upto > 0 {
      ColumnProductPrefix(n, r, c, u, v, upto - 1);
    }
  }

  /** DD = -D^T D, the operator `laplacian` builds from the forward
      difference matrix: exactly the one-dimensional second-difference
      stencil with reflecting ends. */
  function DD(n: nat): (m: Matrix)
    ensures IsMatrix(m, n, n)
    ensures forall r, c :: 0 <= r < n && 0 <= c < n ==> m[r][c] == SecondDiffEntry(n, r, c)
  {
    var d := ForwardDiff(n);
    var t := Transpose(d, n, n);
    var m := Negate(MatMul(t, d, n, n, n), n, n);
    forall r, c | 0 <= r < n && 0 <= c < n ensures m[r][c] == SecondDiffEntry(n, r, c) {
      ColumnProductPrefix(n, r, c, t[r], Column(d, n, n, c), n);
    }
    m
  }

  /** Partial sums of a row of the second-difference stencil. */
  lemma {:induction false} SecondDiffRowPrefix(n: nat, r: nat, row: seq<int>, upto: nat)
    requires r < n && |row| == n && upto <= n
    requires forall c :: 0 <= c < n ==> row[c] == SecondDiffEntry(n, r, c)
    ensures SumTo(row, upto) ==
      (if 1 <= r && r - 1 < upto then 1 else 0)
      + (if r < upto then SecondDiffEntry(n, r, r) else 0)
      + (if r + 1 < upto then 1 else 0)
  {
    if upto > 0 {
      SecondDiffRowPrefix(n, r, row, upto - 1);
    }
  }

  /** DD is symmetric and every row of it sums to zero. */
  lemma DDSymmetricZeroRowSums(n: nat)
    ensures Symmetric(DD(n), n)
    ensures forall r :: 0 <= r < n ==> SumTo(DD(n)[r], n) == 0
  {
    forall r | 0 <= r < n ensures SumTo(DD(n)[r], n) == 0 {
      SecondDiffRowPrefix(n, r, DD(n)[r], n);
    }
  }

  /** `sparse.eye(n)`. */
  function Eye(n: nat): (m: Matrix)
    ensures IsMatrix(m, n, n) && Symmetric(m, n)
    ensures forall i, j :: 0 <= i < n && 0 <= j < n ==> m[i][j] == if i == j then 1 else 0
  {
    seq(n, i requires 0 <= i < n => seq(n, j requires 0 <= j < n => if i == j then 1 else 0))
  }

  /** Row-major block indexing: index x < p * q splits into block x / q < p and offset x % q < q. */
  lemma BlockIndex(x: nat, p: nat, q: nat)
    requires x < p * q
    ensures q > 0 && x / q < p && x % q < q
  {
  }

  /** Multiplication distributes over addition, on either side. */
  lemma Distribute(a: int, b: int, c: int)
    ensures (a + b) * c == a * c + b * c && c * (a + b) == c * a + c * b
  {
  }

  /** A multiple of q strictly between -q and q is zero. */
  lemma SmallMultiple(k: int, q: int)
    requires q > 0 && -q < k * q < q
    ensures k == 0
  {
    if k >= 1 {
      Distribute(k - 1, 1, q);
    } else if k <= -1 {
      Distribute(k + 1, -1, q);
    }
  }

  /** Euclidean division is unique: x = d * q + r with 0 <= r < q fixes both. */
  lemma DivModUnique(x: int, q: int, d: int, r: int)
    requires q > 0 && 0 <= r < q && x == d * q + r
    ensures x / q == d && x % q == r
  {
    var d', r' := x / q, x % q;
    assert x == d' * q + r' && 0 <= r' < q;
    Distribute(d, -d', q);
    SmallMultiple(d - d', q);
  }

  /** Whole blocks of q before block j + 1 end at (j + 1) * q <= p * q when j < p. */
  lemma BlockEnd(j: nat, p: nat, q: nat)
    requires j < p
    ensures (j + 1) * q == j * q + q && (j + 1) * q <= p * q
  {
    Distribute(j, 1, q);
    Distribute(j + 1, p - (j + 1), q);
  }

  /** Every index below n * n is offset u of some block i, both below n. */
  lemma RowOfBlocks(x: nat, n: nat) returns (i: nat, u: nat)
    requires x < n * n
    ensures i < n && u < n && x == i * n + u
  {
    BlockIndex(x, n, n);
    i, u := x / n, x % n;
  }

  /** Offset u of block i is index i * q + u, which splits back into i and u. */
  lemma BlockCoords(i: nat, u: nat, p: nat, q: nat)
    requires i < p && u < q
    ensures i * q + u < p * q && (i * q + u) / q == i && (i * q + u) % q == u
  {
    BlockEnd(i, p, q);
    DivModUnique(i * q + u, q, i, u);
  }

  /** `sparse.kron(a, b)` of two square matrices. */
  function Kron(a: Matrix, b: Matrix, p: nat, q: nat): (m: Matrix)
    requires IsMatrix(a, p, p) && IsMatrix(b, q, q)
    ensures IsMatrix(m, p * q, p * q)
    ensures forall x, y :: 0 <= x < p * q && 0 <= y < p * q ==> m[x][y] == KronEntry(a, b, p, q, x, y)
  {
    seq(p * q, x requires 0 <= x < p * q =>
      seq(p * q, y requires 0 <= y < p * q => KronEntry(a, b, p, q, x, y)))
  }

  /** Entry (x, y) of the Kronecker product: block (x / q, y / q) of `a`
      scales entry (x % q, y % q) of `b`. */
  function KronEntry(a: Matrix, b: Matrix, p: nat, q: nat, x: nat, y: nat): (e: int)
    requires IsMatrix(a, p, p) && IsMatrix(b, q, q) && x < p * q && y < p * q
    ensures q > 0 && x / q < p && y / q < p && x % q < q && y % q < q
    ensures e == a[x / q][y / q] * b[x % q][y % q]
  {
    BlockIndex(x, p, q);
    BlockIndex(y, p, q);
    a[x / q][y / q] * b[x % q][y % q]
  }

  /** The Kronecker product of symmetric matrices is symmetric. */
  lemma KronSymmetric(a: Matrix, b: Matrix, p: nat, q: nat)
    requires IsMatrix(a, p, p) && IsMatrix(b, q, q) && Symmetric(a, p) && Symmetric(b, q)
    ensures Symmetric(Kron(a, b, p, q), p * q)
  {
    var m := Kron(a, b, p, q);
    forall x, y | 0 <= x < p * q && 0 <= y < p * q ensures m[x][y] == m[y][x] {
      KronEntrySymmetric(a, b, p, q, x, y);
    }
  }

  lemma KronEntrySymmetric(a: Matrix, b: Matrix, p: nat, q: nat, x: nat, y: nat)
    requires IsMatrix(a, p, p) && IsMatrix(b, q, q) && Symmetric(a, p) && Symmetric(b, q)
    requires x < p * q && y < p * q
    ensures KronEntry(a, b, p, q, x, y) == KronEntry(a, b, p, q, y, x)
  {
    BlockIndex(x, p, q);
    BlockIndex(y, p, q);
    var i, j, u, v := x / q, y / q, x % q, y % q;
    var A, B := a[i][j], b[u][v];
    assert a[j][i] == A && b[v][u] == B;
    assert KronEntry(a, b, p, q, x, y) == A * B;
    assert KronEntry(a, b, p, q, y, x) == A * B;
  }

  function Add(a: Matrix, b: Matrix, rows: nat, cols: nat): (m: Matrix)
    requires IsMatrix(a, rows, cols) && IsMatrix(b, rows, cols)
    ensures IsMatrix(m, rows, cols)
    ensures forall i, j :: 0 <= i < rows && 0 <= j < cols ==> m[i][j] == a[i][j] + b[i][j]
  {
    seq(rows, i requires 0 <= i < rows => seq(cols, j requires 0 <= j < cols => a[i][j] + b[i][j]))
  }

  /** `laplacian(n)`: kron(I, DD) + kron(DD, I).  The grid spacing h = 1 / n
      is computed first, so n = 0 raises ZeroDivisionError; the h-scaled copy
      of D is never used, so it is not part of the result. */
  function Laplacian(n: nat): (r: Result<Matrix>)
    ensures r.Ok? <==> n >= 1
    ensures r.Fail? ==> r.error == ZeroDivision
    ensures r.Ok? ==> IsMatrix(r.value, n * n, n * n)
  {
    if n == 0 then Fail(ZeroDivision)
    else
      var dd := DD(n);
      Ok(Add(Kron(Eye(n), dd, n, n), Kron(dd, Eye(n), n, n), n * n, n * n))
  }

  /** A row sum of the sum of two matrices is the sum of their row sums. */
  lemma {:induction false} SumToAdd(xs: seq<int>, ys: seq<int>, zs: seq<int>, upto: nat)
    requires upto <= |xs| && upto <= |ys| && upto <= |zs|
    requires forall c :: 0 <= c < upto ==> zs[c] == xs[c] + ys[c]
    ensures SumTo(zs, upto) == SumTo(xs, upto) + SumTo(ys, upto)
  {
    if upto > 0 {
      SumToAdd(xs, ys, zs, upto - 1);
    }
  }

  /** Partial sums along row (i, u) of kron(a, b): the whole blocks before
      block j, then the first v entries of block j. */
  lemma {:induction false} KronRowPrefix(a: Matrix, b: Matrix, p: nat, q: nat, i: nat, u: nat, j: nat, v: nat)
    requires IsMatrix(a, p, p) && IsMatrix(b, q, q) && i < p && u < q && j < p && v <= q
    ensures i * q + u < p * q && j * q + v <= p * q
    ensures SumTo(Kron(a, b, p, q)[i * q + u], j * q + v) == SumTo(a[i], j) * SumTo(b[u], q) + a[i][j] * SumTo(b[u], v)
    decreases j, v
  {
    BlockCoords(i, u, p, q);
    BlockEnd(j, p, q);
    var row := Kron(a, b, p, q)[i * q + u];
    var whole := SumTo(b[u], q);
    if v == 0 {
      if j > 0 {
        KronRowPrefix(a, b, p, q, i, u, j - 1, q);
        BlockEnd(j - 1, p, q);
        Distribute(SumTo(a[i], j - 1), a[i][j - 1], whole);
      }
    } else {
      KronRowPrefix(a, b, p, q, i, u, j, v - 1);
      BlockCoords(j, v - 1, p, q);
      assert row[j * q + (v - 1)] == KronEntry(a, b, p, q, i * q + u, j * q + (v - 1)) == a[i][j] * b[u][v - 1];
      Distribute(SumTo(b[u], v - 1), b[u][v - 1], a[i][j]);
    }
  }

  /** Row (i, u) of kron(a, b) sums to (row i of a's sum) * (row u of b's sum). */
  lemma KronRowSum(a: Matrix, b: Matrix, p: nat, q: nat, i: nat, u: nat)
    requires IsMatrix(a, p, p) && IsMatrix(b, q, q) && i < p && u < q
    ensures i * q + u < p * q
    ensures SumTo(Kron(a, b, p, q)[i * q + u], p * q) == SumTo(a[i], p) * SumTo(b[u], q)
  {
    KronRowPrefix(a, b, p, q, i, u, p - 1, q);
    BlockEnd(p - 1, p, q);
    Distribute(SumTo(a[i], p - 1), a[i][p - 1], SumTo(b[u], q));
  }

  /** Entry ((i, u), (j, v)) of kron(a, b), in block coordinates, is a[i][j] * b[u][v]. */
  lemma KronAt(a: Matrix, b: Matrix, p: nat, q: nat, i: nat, j: nat, u: nat, v: nat)
    requires IsMatrix(a, p, p) && IsMatrix(b, q, q) && i < p && j < p && u < q && v < q
    ensures i * q + u < p * q && j * q + v < p * q
    ensures Kron(a, b, p, q)[i * q + u][j * q + v] == a[i][j] * b[u][v]
  {
    BlockCoords(i, u, p, q);
    BlockCoords(j, v, p, q);
    assert Kron(a, b, p, q)[i * q + u][j * q + v] == KronEntry(a, b, p, q, i * q + u, j * q + v);
  }

  /** Entry ((i, u), (j, v)) of kron(I, b) is b[u][v] inside diagonal blocks and 0 elsewhere. */
  lemma KronEyeLeft(b: Matrix, n: nat, i: nat, j: nat, u: nat, v: nat)
    requires IsMatrix(b, n, n) && i < n && j < n && u < n && v < n
    ensures i * n + u < n * n && j * n + v < n * n
    ensures Kron(Eye(n), b, n, n)[i * n + u][j * n + v] == if i == j then b[u][v] else 0
  {
    KronAt(Eye(n), b, n, n, i, j, u, v);
    assert Eye(n)[i][j] == if i == j then 1 else 0;
  }

  /** Entry ((i, u), (j, v)) of kron(a, I) is a[i][j] where u == v and 0 elsewhere. */
  lemma KronEyeRight(a: Matrix, n: nat, i: nat, j: nat, u: nat, v: nat)
    requires IsMatrix(a, n, n) && i < n && j < n && u < n && v < n
    ensures i * n + u < n * n && j * n + v < n * n
    ensures Kron(a, Eye(n), n, n)[i * n + u][j * n + v] == if u == v then a[i][j] else 0
  {
    KronAt(a, Eye(n), n, n, i, j, u, v);
    assert Eye(n)[u][v] == if u == v then 1 else 0;
  }

  /** kron(I, dd) + kron(dd, I) for any n x n matrix dd, entry by entry. */
  lemma TwoDimensionalEntry(dd: Matrix, n: nat, i: nat, j: nat, u: nat, v: nat)
    requires IsMatrix(dd, n, n) && i < n && j < n && u < n && v < n
    ensures i * n + u < n * n && j * n + v < n * n
    ensures Add(Kron(Eye(n), dd, n, n), Kron(dd, Eye(n), n, n), n * n, n * n)[i * n + u][j * n + v]
            == (if i == j then dd[u][v] else 0) + (if u == v then dd[i][j] else 0)
  {
    KronEyeLeft(dd, n, i, j, u, v);
    KronEyeRight(dd, n, i, j, u, v);
  }

  /** Entry ((i, u), (j, v)) of the Laplacian on the n x n grid, with (i, u)
      flattened to i * n + u: the second difference along u within a row of
      blocks plus the second difference along i across blocks, so -4 inside,
      +1 at each of the four grid neighbours and 0 elsewhere, with the
      reflecting ends of DD at the border. */
  lemma LaplacianEntry(n: nat, i: nat, j: nat, u: nat, v: nat)
    requires i < n && j < n && u < n && v < n
    ensures Laplacian(n).Ok? && i * n + u < n * n && j * n + v < n * n
    ensures Laplacian(n).value[i * n + u][j * n + v] ==
      (if i == j then SecondDiffEntry(n, u, v) else 0) + (if u == v then SecondDiffEntry(n, i, j) else 0)
  {
    TwoDimensionalEntry(DD(n), n, i, j, u, v);
  }

  /** When every row of dd sums to zero, so does every row of kron(I, dd) + kron(dd, I). */
  lemma TwoDimensionalRowSum(dd: Matrix, n: nat, i: nat, u: nat)
    requires IsMatrix(dd, n, n) && i < n && u < n
    requires forall r :: 0 <= r < n ==> SumTo(dd[r], n) == 0
    ensures i * n + u < n * n
    ensures SumTo(Add(Kron(Eye(n), dd, n, n), Kron(dd, Eye(n), n, n), n * n, n * n)[i * n + u], n * n) == 0
  {
    var eye := Eye(n);
    var k1, k2 := Kron(eye, dd, n, n), Kron(dd, eye, n, n);
    KronRowSum(eye, dd, n, n, i, u);
    KronRowSum(dd, eye, n, n, i, u);
    var x := i * n + u;
    assert SumTo(dd[u], n) == 0 && SumTo(dd[i], n) == 0;
    SumToAdd(k1[x], k2[x], Add(k1, k2, n * n, n * n)[x], n * n);
  }

  /** Every row of the Laplacian sums to zero: diffusion neither creates nor
      destroys mass. */
  lemma LaplacianRowsSumToZero(n: nat, x: nat)
    requires x < n * n
    ensures Laplacian(n).Ok? && SumTo(Laplacian(n).value[x], n * n) == 0
  {
    var i, u := RowOfBlocks(x, n);
    DDSymmetricZeroRowSums(n);
    TwoDimensionalRowSum(DD(n), n, i, u);
  }

  /** For every n >= 1 the Laplacian is an n^2 x n^2 symmetric matrix. */
  lemma LaplacianSymmetric(n: nat)
    ensures Laplacian(n).Ok? <==> n >= 1
    ensures Laplacian(n).Ok? ==> IsMatrix(Laplacian(n).value, n * n, n * n) && Symmetric(Laplacian(n).value, n * n)
  {
    if n >= 1 {
      DDSymmetricZeroRowSums(n);
      KronSymmetric(Eye(n), DD(n), n, n);
      KronSymmetric(DD(n), Eye(n), n, n);
    }
  }

  /** `s_idx`, `i_idx`, `r_idx`: the positions of s, i and r in the
      flattened state vector of an M x M grid. */
  function SIdx(m: nat): seq<nat>
  {
    seq(m * m, j => j)
  }

  function IIdx(m: nat): seq<nat>
  {
    seq(m * m, j => m * m + j)
  }

  function RIdx(m: nat): seq<nat>
  {
    seq(m * m, j => 2 * m * m + j)
  }

  /** The three blocks have M^2 entries each and, laid end to end, are
      exactly 0, 1, ..., 3M^2 - 1: they partition the state vector. */
  lemma BlocksPartition(m: nat)
    ensures |SIdx(m)| == m * m && |IIdx(m)| == m * m && |RIdx(m)| == m * m
    ensures SIdx(m) + IIdx(m) + RIdx(m) == seq(3 * m * m, j => j)
  {
    var sq := m * m;
    assert 2 * m * m == 2 * sq && 3 * m * m == 3 * sq;
    var all := SIdx(m) + IIdx(m) + RIdx(m);
    forall j | 0 <= j < 3 * sq ensures all[j] == j {
      if j < sq {
      } else if j < 2 * sq {
        assert all[j] == IIdx(m)[j - sq];
      } else {
        assert all[j] == RIdx(m)[j - 2 * sq];
      }
    }
  }
}
