/** The two gauges of a reduced system: an explicit ground vertex, and the Gremban double
    cover that turns a signed system into one with nonnegative weights. */
module Gremban {
  import opened Sums
  import opened Elimination

  // ---- Explicit ground vertex ------------------------------------------------------------

  /** `s` bordered by a ground vertex at index `n` that absorbs the row sums `u`. */
  function Explicit(n: nat, s: Mat, u: Vec): Mat {
    (i, j) =>
      if i < n && j < n then s(i, j)
      else if i < n then -u(i)
      else if j < n then -u(j)
      else Sum(n, u)
  }

  ghost predicate RowSums(n: nat, s: Mat, u: Vec) {
    forall i :: 0 <= i < n ==> Sum(n, RowOf(s, i)) == u(i)
  }

  ghost predicate Symmetric(n: nat, s: Mat) {
    forall i, j :: 0 <= i < n && 0 <= j < n ==> s(i, j) == s(j, i)
  }

  /** Every row of the bordered matrix sums to zero, the ground row included. */
  lemma ExplicitRowSumsZero(n: nat, s: Mat, u: Vec, i: int)
    requires RowSums(n, s, u) && 0 <= i <= n
    ensures Sum(n + 1, RowOf(Explicit(n, s, u), i)) == 0.0
  {
    var row := RowOf(Explicit(n, s, u), i);
    if i < n {
      SumCong(n, row, RowOf(s, i));
    } else {
      SumScale(n, -1.0, u, row);
    }
  }

  /** A row of the bordered matrix: the bare row, with the ground column last. */
  lemma BorderedRow(n: nat, row: Vec, s: Vec, z: Vec)
    requires forall j :: 0 <= j < n ==> row(j) == s(j)
    ensures Dot(n + 1, row, z) == Dot(n, s, z) + row(n) * z(n)
  {
    DotStep(n + 1, row, z);
    DotCong(n, row, z, s, z);
  }

  lemma ExplicitRow(n: nat, s: Mat, u: Vec, z: Vec, i: int)
    requires 0 <= i < n
    ensures MulVec(n + 1, Explicit(n, s, u), z)(i) == MulVec(n, s, z)(i) + (-u(i)) * z(n)
  {
    BorderedRow(n, RowOf(Explicit(n, s, u), i), RowOf(s, i), z);
  }

  /** Subtracting the ground potential from a bordered solution solves the bare system. */
  lemma GroundGauge(n: nat, s: Mat, u: Vec, z: Vec, x: Vec, b: Vec)
    requires RowSums(n, s, u)
    requires forall i :: 0 <= i < n ==> MulVec(n + 1, Explicit(n, s, u), z)(i) == b(i)
    requires forall j :: 0 <= j < n ==> x(j) == z(j) - z(n)
    ensures Solves(n, s, x, b)
  {
    forall i | 0 <= i < n ensures MulVec(n, s, x)(i) == b(i) {
      assert MulVec(n + 1, Explicit(n, s, u), z)(i) == b(i);
      ExplicitRow(n, s, u, z, i);
      DotShift(n, RowOf(s, i), z, z(n), x);
      assert Sum(n, RowOf(s, i)) == u(i);
    }
  }

  /** `[b, -sum b]` */
  function Bordered(n: nat, b: Vec): Vec { i => if i < n then b(i) else -Sum(n, b) }

  /** A solution of the bare system, grounded at zero, solves the bordered one. */
  lemma GroundedSolvable(n: nat, s: Mat, u: Vec, x: Vec, b: Vec)
    requires RowSums(n, s, u) && Symmetric(n, s) && Solves(n, s, x, b) && x(n) == 0.0
    ensures Solves(n + 1, Explicit(n, s, u), x, Bordered(n, b))
  {
    GroundRow(n, s, u, x);
    TotalOfProduct(n, s, u, x, b);
    forall i | 0 <= i < n + 1 ensures MulVec(n + 1, Explicit(n, s, u), x)(i) == Bordered(n, b)(i) {
      if i < n {
        ExplicitRow(n, s, u, x, i);
        assert MulVec(n, s, x)(i) == b(i);
      }
    }
  }

  lemma GroundRow(n: nat, s: Mat, u: Vec, x: Vec)
    requires x(n) == 0.0
    ensures MulVec(n + 1, Explicit(n, s, u), x)(n) == -Dot(n, u, x)
  {
    var minus := i => -1.0 * u(i);
    BorderedRow(n, RowOf(Explicit(n, s, u), n), minus, x);
    DotScaleLeft(n, -1.0, u, minus, x);
  }

  /** 1^T S x == u^T x for a symmetric matrix with row sums u. */
  lemma TotalOfProduct(n: nat, s: Mat, u: Vec, x: Vec, b: Vec)
    requires RowSums(n, s, u) && Symmetric(n, s) && Solves(n, s, x, b)
    ensures Sum(n, b) == Dot(n, u, x)
  {
    SumCong(n, b, MulVec(n, s, x));
    SumIsDotOne(n, MulVec(n, s, x));
    DotComm(n, MulVec(n, s, x), One());
    DotSwap(n, n, One(), s, x);
    forall j | 0 <= j < n ensures VecMul(n, One(), s)(j) == u(j) {
      DotComm(n, One(), ColOf(s, j));
      SumIsDotOne(n, ColOf(s, j));
      SumCong(n, ColOf(s, j), RowOf(s, j));
      assert Sum(n, RowOf(s, j)) == u(j);
    }
    DotCong(n, VecMul(n, One(), s), x, u, x);
  }

  // ---- Double cover ----------------------------------------------------------------------

  function Pos(x: real): real { if x < 0.0 then 0.0 else x }

  function Neg(x: real): real { if x < 0.0 then -x else 0.0 }

  /** The cover's cross block: positive weights stay on their sheet, negative ones cross. */
  function CoverBlock(e: nat, n: nat, c: Mat): Mat {
    (k, j) => if (k < e) == (j < n) then Pos(c(Unsheet(e, k), Unsheet(n, j))) else Neg(c(Unsheet(e, k), Unsheet(n, j)))
  }

  /** Both sheets' copies of an index. */
  function Unsheet(n: nat, i: int): int { if i < n then i else i - n }

  /** `[x, -x, 0]` */
  function Antisymmetric(n: nat, x: Vec): Vec {
    i => if i < n then x(i) else if i < n + n then -x(i - n) else 0.0
  }

  /** `m` acts on both sheets alike and restricts to `s` on antisymmetric vectors. */
  ghost predicate Covers(n: nat, s: Mat, m: Mat) {
    forall i, j :: 0 <= i < n && 0 <= j < n ==> CoversAt(n, s, m, i, j)
  }

  ghost predicate CoversAt(n: nat, s: Mat, m: Mat, i: int, j: int) {
    m(i, j) - m(i, n + j) == s(i, j) && m(n + i, n + j) == m(i, j) && m(n + i, j) == m(i, n + j)
  }

  /** A ground vertex, when present, meets both sheets alike. */
  ghost predicate GroundAlike(n: nat, dim: nat, m: Mat) {
    && (dim == n + n || dim == n + n + 1)
    && (dim == n + n + 1 ==> forall i :: 0 <= i < n ==> GroundAlikeAt(n, m, i))
  }

  ghost predicate GroundAlikeAt(n: nat, m: Mat, i: int) {
    m(i, n + n) == m(n + i, n + n) && m(n + n, i) == m(n + n, n + i)
  }

  /** Half the difference of the two sheets. */
  function ReadBack(n: nat, w: Vec): Vec { i => 0.5 * (w(i) - w(n + i)) }

  lemma SplitSheets(n: nat, dim: nat, r: Vec, w: Vec)
    requires dim == n + n || dim == n + n + 1
    ensures Dot(dim, r, w) == Dot(n, r, w) + Dot(n, Tail(n, r), Tail(n, w))
                              + (if dim == n + n then 0.0 else r(n + n) * w(n + n))
  {
    DotSplit(n, n, r, w);
    if dim == n + n + 1 { DotStep(dim, r, w); }
  }

  /** Two rows given by their halves, `[a, b]` and `[a', b']`, swap them and differ by `s`. */
  ghost predicate Mirrored(n: nat, a: Vec, b: Vec, a': Vec, b': Vec, s: Vec) {
    forall j :: 0 <= j < n ==> MirroredAt(a, b, a', b', s, j)
  }

  ghost predicate MirroredAt(a: Vec, b: Vec, a': Vec, b': Vec, s: Vec, j: int) {
    s(j) == a(j) - b(j) && a'(j) == b(j) && b'(j) == a(j)
  }

  /** (a w + b v) - (b w + a v) == (a - b) (w - v) */
  lemma SheetAlgebra(n: nat, a: Vec, b: Vec, a': Vec, b': Vec, s: Vec, w: Vec, v: Vec, r: Vec)
    requires Mirrored(n, a, b, a', b', s)
    requires forall j {:trigger r(j)} :: 0 <= j < n ==> r(j) == 0.5 * (w(j) - v(j))
    ensures (Dot(n, a, w) + Dot(n, b, v)) - (Dot(n, a', w) + Dot(n, b', v)) == 2.0 * Dot(n, s, r)
  {
    hide Dot;
    forall j | 0 <= j < n ensures a'(j) == b(j) && b'(j) == a(j) && s(j) == a(j) - b(j) {
      assert MirroredAt(a, b, a', b', s, j);
    }
    DotCong(n, a', w, b, w);
    DotCong(n, b', v, a, v);
    DotSubLeft(n, a, b, s, w);
    DotSubLeft(n, a, b, s, v);
    var diff := j => w(j) - v(j);
    DotSub(n, s, w, v, diff);
    DotScale(n, s, 0.5, diff, r);
  }

  /** Adding the halves and a shared ground term. */
  lemma JoinHalves(n: nat, dim: nat, r: Vec, r': Vec, w: Vec, b: Vec, b': Vec, v: Vec, x: real)
    requires dim == n + n || (dim == n + n + 1 && r(n + n) == r'(n + n))
    requires b == Tail(n, r) && b' == Tail(n, r') && v == Tail(n, w)
    requires (Dot(n, r, w) + Dot(n, b, v)) - (Dot(n, r', w) + Dot(n, b', v)) == x
    ensures Dot(dim, r, w) - Dot(dim, r', w) == x
  {
    SplitSheets(n, dim, r, w);
    SplitSheets(n, dim, r', w);
  }

  /** Two mirrored cover rows differ by twice the signed row on the read-back vector. */
  lemma MirroredRows(n: nat, dim: nat, r: Vec, r': Vec, s: Vec, w: Vec)
    requires dim == n + n || (dim == n + n + 1 && r(n + n) == r'(n + n))
    requires Mirrored(n, r, Tail(n, r), r', Tail(n, r'), s)
    ensures Dot(dim, r, w) - Dot(dim, r', w) == 2.0 * Dot(n, s, ReadBack(n, w))
  {
    SheetAlgebra(n, r, Tail(n, r), r', Tail(n, r'), s, w, Tail(n, w), ReadBack(n, w));
    JoinHalves(n, dim, r, r', w, Tail(n, r), Tail(n, r'), Tail(n, w), 2.0 * Dot(n, s, ReadBack(n, w)));
  }

  lemma CoverRowsMirrored(n: nat, s: Mat, m: Mat, i: int)
    requires Covers(n, s, m) && 0 <= i < n
    ensures Mirrored(n, RowOf(m, i), Tail(n, RowOf(m, i)), RowOf(m, n + i), Tail(n, RowOf(m, n + i)), RowOf(s, i))
  {
    var r, r' := RowOf(m, i), RowOf(m, n + i);
    forall j {:trigger MirroredAt(r, Tail(n, r), r', Tail(n, r'), RowOf(s, i), j)} | 0 <= j < n
      ensures MirroredAt(r, Tail(n, r), r', Tail(n, r'), RowOf(s, i), j)
    {
      assert CoversAt(n, s, m, i, j);
    }
  }

  lemma CoverRowDifference(n: nat, dim: nat, s: Mat, m: Mat, w: Vec, i: int)
    requires Covers(n, s, m) && GroundAlike(n, dim, m) && 0 <= i < n
    ensures MulVec(dim, m, w)(i) - MulVec(dim, m, w)(n + i) == 2.0 * MulVec(n, s, ReadBack(n, w))(i)
  {
    assert dim == n + n + 1 ==> GroundAlikeAt(n, m, i);
    CoverRowsMirrored(n, s, m, i);
    MirroredRows(n, dim, RowOf(m, i), RowOf(m, n + i), RowOf(s, i), w);
  }

  /** Any solution of the embedded `[b, -b]` system reads back to a solution of the signed one. */
  lemma ReadBackSolves(n: nat, dim: nat, s: Mat, m: Mat, w: Vec, b: Vec)
    requires Covers(n, s, m) && GroundAlike(n, dim, m)
    requires Solves(dim, m, w, Antisymmetric(n, b))
    ensures Solves(n, s, ReadBack(n, w), b)
  {
    forall i | 0 <= i < n ensures MulVec(n, s, ReadBack(n, w))(i) == b(i) {
      assert MulVec(dim, m, w)(i) == Antisymmetric(n, b)(i);
      assert MulVec(dim, m, w)(n + i) == Antisymmetric(n, b)(n + i);
      CoverRowDifference(n, dim, s, m, w, i);
    }
  }

  /** A row against an antisymmetric vector sees the difference of its halves. */
  lemma AntisymmetricRow(n: nat, dim: nat, r: Vec, s: Vec, a: real, x: Vec)
    requires dim == n + n || dim == n + n + 1
    requires forall j {:trigger s(j)} :: 0 <= j < n ==> r(j) - Tail(n, r)(j) == a * s(j)
    ensures Dot(dim, r, Antisymmetric(n, x)) == a * Dot(n, s, x)
  {
    hide Dot;
    var w := Antisymmetric(n, x);
    SplitSheets(n, dim, r, w);
    DotCong(n, r, w, r, x);
    DotScale(n, Tail(n, r), -1.0, x, Tail(n, w));
    var diff := j => a * s(j);
    DotSubLeft(n, r, Tail(n, r), diff, x);
    DotScaleLeft(n, a, s, diff, x);
  }

  /** The cover acts on `[x, -x, 0]` as `[S x, -S x, 0]`. */
  lemma CoverActsAntisymmetrically(n: nat, dim: nat, s: Mat, m: Mat, x: Vec, b: Vec)
    requires Covers(n, s, m) && GroundAlike(n, dim, m) && Solves(n, s, x, b)
    ensures Solves(dim, m, Antisymmetric(n, x), Antisymmetric(n, b))
  {
    forall i | 0 <= i < dim ensures MulVec(dim, m, Antisymmetric(n, x))(i) == Antisymmetric(n, b)(i) {
      CoverRowActs(n, dim, s, m, x, b, i);
    }
  }

  lemma CoverRowActs(n: nat, dim: nat, s: Mat, m: Mat, x: Vec, b: Vec, i: int)
    requires Covers(n, s, m) && GroundAlike(n, dim, m) && Solves(n, s, x, b) && 0 <= i < dim
    ensures MulVec(dim, m, Antisymmetric(n, x))(i) == Antisymmetric(n, b)(i)
  {
    var r := RowOf(m, i);
    if i < n {
      forall j {:trigger RowOf(s, i)(j)} | 0 <= j < n ensures r(j) - Tail(n, r)(j) == 1.0 * RowOf(s, i)(j) { assert CoversAt(n, s, m, i, j); }
      AntisymmetricRow(n, dim, r, RowOf(s, i), 1.0, x);
      assert MulVec(n, s, x)(i) == b(i);
    } else if i < n + n {
      forall j {:trigger RowOf(s, i - n)(j)} | 0 <= j < n ensures r(j) - Tail(n, r)(j) == -1.0 * RowOf(s, i - n)(j) {
        assert CoversAt(n, s, m, i - n, j);
      }
      AntisymmetricRow(n, dim, r, RowOf(s, i - n), -1.0, x);
      assert MulVec(n, s, x)(i - n) == b(i - n);
    } else {
      forall j {:trigger One()(j)} | 0 <= j < n ensures r(j) - Tail(n, r)(j) == 0.0 * One()(j) { assert GroundAlikeAt(n, m, j); }
      AntisymmetricRow(n, dim, r, One(), 0.0, x);
    }
  }

  // ---- The cover's Schur complement covers the signed Schur complement -------------------

  lemma CoverEntryProduct(x: real, v: real, y: real)
    ensures ((Pos(x) * v) * Pos(y) + (Neg(x) * v) * Neg(y)) - ((Pos(x) * v) * Neg(y) + (Neg(x) * v) * Pos(y)) == (x * v) * y
  {
  }

  /** What one unsheeted eliminated row contributes to a fill entry of the cover. */
  function CoverTerm(n: nat, c: Mat, inv: Vec, i: int, j: int): Vec {
    k =>
      var x, y := c(k, Unsheet(n, i)), c(k, Unsheet(n, j));
      if (i < n) == (j < n) then (Pos(x) * inv(k)) * Pos(y) + (Neg(x) * inv(k)) * Neg(y)
      else (Pos(x) * inv(k)) * Neg(y) + (Neg(x) * inv(k)) * Pos(y)
  }

  lemma CoverTermSplit(e: nat, n: nat, c: Mat, inv: Vec, i: int, j: int, k: int)
    requires 0 <= i < n + n && 0 <= j < n + n && 0 <= k < e
    ensures var m := CoverBlock(e, n, c);
      CoverTerm(n, c, inv, i, j)(k) == (m(k, i) * inv(k)) * m(k, j) + (m(e + k, i) * inv(k)) * m(e + k, j)
  {
    assert Unsheet(e, k) == k && Unsheet(e, e + k) == k;
    if i < n { if j < n {} else {} } else { if j < n {} else {} }
  }

  lemma CoverFill(e: nat, n: nat, c: Mat, inv: Vec, inv': Vec, i: int, j: int)
    requires 0 <= i < n + n && 0 <= j < n + n
    requires forall k :: 0 <= k < e ==> inv'(k) == inv(k) && inv'(e + k) == inv(k)
    ensures Fill(e + e, CoverBlock(e, n, c), inv', i)(j) == Sum(e, CoverTerm(n, c, inv, i, j))
  {
    hide CoverTerm;
    hide CoverBlock;
    hide Sum;
    var m := CoverBlock(e, n, c);
    var w, col := Weighted(m, inv', i), ColOf(m, j);
    forall k {:trigger CoverTerm(n, c, inv, i, j)(k)} | 0 <= k < e
      ensures CoverTerm(n, c, inv, i, j)(k) == w(k) * col(k) + w(e + k) * col(e + k)
    {
      CoverTermSplit(e, n, c, inv, i, j, k);
      assert inv'(k) == inv(k) && inv'(e + k) == inv(k);
    }
    FoldedDot(e, w, col, CoverTerm(n, c, inv, i, j));
  }

  /** A product over both sheets, as a sum over one. */
  lemma FoldedDot(e: nat, w: Vec, x: Vec, f: Vec)
    requires forall k {:trigger f(k)} :: 0 <= k < e ==> f(k) == w(k) * x(k) + w(e + k) * x(e + k)
    ensures Dot(e + e, w, x) == Sum(e, f)
  {
    DotSplit(e, e, w, x);
    SumAdd(e, k => w(k) * x(k), k => Tail(e, w)(k) * Tail(e, x)(k), f);
  }

  lemma CoverFillMirrored(e: nat, n: nat, c: Mat, inv: Vec, inv': Vec, i: int, j: int)
    requires 0 <= i < n && 0 <= j < n
    requires forall k :: 0 <= k < e ==> inv'(k) == inv(k) && inv'(e + k) == inv(k)
    ensures var f := x => Fill(e + e, CoverBlock(e, n, c), inv', x);
      f(n + i)(n + j) == f(i)(j) && f(n + i)(j) == f(i)(n + j)
      && f(i)(j) - f(i)(n + j) == Fill(e, c, inv, i)(j)
  {
    hide Sum;
    CoverFill(e, n, c, inv, inv', i, j);
    CoverFill(e, n, c, inv, inv', i, n + j);
    CoverFill(e, n, c, inv, inv', n + i, j);
    CoverFill(e, n, c, inv, inv', n + i, n + j);
    SumCong(e, CoverTerm(n, c, inv, i, j), CoverTerm(n, c, inv, n + i, n + j));
    SumCong(e, CoverTerm(n, c, inv, i, n + j), CoverTerm(n, c, inv, n + i, j));
    SignedFill(e, n, c, inv, i, j);
  }

  /** The doubled vector repeats on both sheets of both sides. */
  ghost predicate SameOnSheets(e: nat, n: nat, d: Vec, d': Vec) {
    && (forall k :: 0 <= k < e ==> d'(k) == d(k) && d'(e + k) == d(k))
    && (forall j :: 0 <= j < n ==> SameOnKept(e, n, d, d', j))
  }

  ghost predicate SameOnKept(e: nat, n: nat, d: Vec, d': Vec, j: int) {
    Tail(e + e, d')(j) == Tail(e, d)(j) && Tail(e + e, d')(n + j) == Tail(e, d)(j)
  }

  /** The cover's Schur complement covers the signed Schur complement. */
  lemma CoverCommutesWithSchur(e: nat, n: nat, c: Mat, d: Vec, inv: Vec, d': Vec, inv': Vec)
    requires SameOnSheets(e, n, d, d')
    requires forall k :: 0 <= k < e ==> inv'(k) == inv(k) && inv'(e + k) == inv(k)
    ensures Covers(n, Schur(e, c, d, inv), Schur(e + e, CoverBlock(e, n, c), d', inv'))
  {
    var s, m := Schur(e, c, d, inv), Schur(e + e, CoverBlock(e, n, c), d', inv');
    forall i, j {:trigger CoversAt(n, s, m, i, j)} | 0 <= i < n && 0 <= j < n ensures CoversAt(n, s, m, i, j) {
      CoverFillMirrored(e, n, c, inv, inv', i, j);
      assert SameOnKept(e, n, d, d', i);
    }
  }

  lemma SignedFill(e: nat, n: nat, c: Mat, inv: Vec, i: int, j: int)
    requires 0 <= i < n && 0 <= j < n
    ensures Fill(e, c, inv, i)(j) == Sum(e, CoverTerm(n, c, inv, i, j)) - Sum(e, CoverTerm(n, c, inv, i, n + j))
  {
    var same, cross := CoverTerm(n, c, inv, i, j), CoverTerm(n, c, inv, i, n + j);
    var w, x := Weighted(c, inv, i), ColOf(c, j);
    var f := k => w(k) * x(k);
    forall k | 0 <= k < e ensures f(k) == same(k) - cross(k) {
      CoverEntryProduct(c(k, i), inv(k), c(k, j));
      assert Unsheet(n, i) == i && Unsheet(n, j) == j && Unsheet(n, n + j) == j;
      assert w(k) == c(k, i) * inv(k) && x(k) == c(k, j);
    }
    SumSub(e, same, cross, f);
  }
}
