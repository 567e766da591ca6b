/** Back to the user's parametrization, the fit unchanged (crates/within/src/solver/reparam.rs:170-199). */
module BackTransforms {
  import opened Wrappers
  import opened Sums
  import opened Vectors
  import opened GramSchmidt
  import opened Whitening

  /** The slot of coefficient column `c` at `level`. */
  function Place(t: TermReparam, c: nat, level: nat): nat { t.offset + c * t.nLevels + level }

  /** A term whose columns are distinct and whose block fits. */
  ghost predicate ValidTerm(t: TermReparam, size: nat) {
    && |t.transforms| == t.nLevels
    && (forall l :: 0 <= l < t.nLevels ==> LevelFits(t, l))
    && (forall i, j :: 0 <= i < j < |t.slopeColumns| ==> t.slopeColumns[i] != t.slopeColumns[j])
    && (t.interceptColumn.Some? ==> t.interceptColumn.value !in t.slopeColumns)
    && (forall c, l :: IsColumn(t, c) && 0 <= l < t.nLevels ==> Place(t, c, l) < size)
  }

  ghost predicate LevelFits(t: TermReparam, l: nat)
    requires l < |t.transforms|
  {
    var tr, v := t.transforms[l], |t.slopeColumns|;
    && |tr.center| == v && RowsOf(tr.w, v) && |tr.w| <= v
    && (t.interceptColumn.None? ==> tr.center == seq(v, _ => 0.0))
  }

  predicate IsColumn(t: TermReparam, c: nat) { c in t.slopeColumns || t.interceptColumn == Some(c) }

  lemma PlacesDistinct(t: TermReparam, c: nat, l: nat, c': nat, l': nat)
    requires l < t.nLevels && l' < t.nLevels && (c, l) != (c', l')
    ensures Place(t, c, l) != Place(t, c', l')
  {
    var n := t.nLevels;
    if c < c' { assert c' * n >= (c + 1) * n == c * n + n; }
    if c' < c { assert c * n >= (c' + 1) * n == c' * n + n; }
  }

  /** The slope slots of one level, in slope order. */
  ghost function SlopesAt(t: TermReparam, x: seq<real>, level: nat): (r: seq<real>)
    requires forall j :: 0 <= j < |t.slopeColumns| ==> Place(t, t.slopeColumns[j], level) < |x|
    ensures |r| == |t.slopeColumns|
  {
    seq(|t.slopeColumns|, j requires 0 <= j < |t.slopeColumns| => x[Place(t, t.slopeColumns[j], level)])
  }

  ghost function InterceptAt(t: TermReparam, x: seq<real>, level: nat): real
    requires t.interceptColumn.Some? ==> Place(t, t.interceptColumn.value, level) < |x|
  {
    if t.interceptColumn.Some? then x[Place(t, t.interceptColumn.value, level)] else 0.0
  }

  /** W^T applied to the leading coefficients. */
  ghost function Combined(w: seq<seq<real>>, xs: seq<real>, v: nat): (b: seq<real>)
    requires RowsOf(w, v) && |w| <= |xs|
    ensures |b| == v
  {
    if w == [] then Zeros(v) else Comb(1.0, Combined(w[..|w| - 1], xs, v), xs[|w| - 1], w[|w| - 1])
  }

  /** What one level's coefficients become. */
  ghost predicate LevelDone(t: TermReparam, x0: seq<real>, x1: seq<real>, level: nat)
    requires |x0| == |x1| && ValidTerm(t, |x0|) && level < t.nLevels
  {
    var tr, v := t.transforms[level], |t.slopeColumns|;
    FitsAt(t, |x0|, level);
    if tr.w == [] then SlopesAt(t, x1, level) == SlopesAt(t, x0, level) && InterceptAt(t, x1, level) == InterceptAt(t, x0, level)
    else
      var b := Combined(tr.w, SlopesAt(t, x0, level), v);
      SlopesAt(t, x1, level) == b
      && (t.interceptColumn.Some? ==> InterceptAt(t, x1, level) == InterceptAt(t, x0, level) - Inner(b, tr.center))
  }

  lemma FitsAt(t: TermReparam, size: nat, level: nat)
    requires ValidTerm(t, size) && level < t.nLevels
    ensures forall j :: 0 <= j < |t.slopeColumns| ==> Place(t, t.slopeColumns[j], level) < size
    ensures t.interceptColumn.Some? ==> Place(t, t.interceptColumn.value, level) < size
    ensures LevelFits(t, level)
  {
    hide Place;
    forall j | 0 <= j < |t.slopeColumns| ensures Place(t, t.slopeColumns[j], level) < size {
      assert IsColumn(t, t.slopeColumns[j]);
    }
    if t.interceptColumn.Some? { assert IsColumn(t, t.interceptColumn.value); }
  }

  /** Positions outside the slots of `level` agree. */
  ghost predicate SameOutside(t: TermReparam, x0: seq<real>, x1: seq<real>, level: nat) {
    |x0| == |x1| && forall p :: 0 <= p < |x0| && !InLevel(t, level, p) ==> x1[p] == x0[p]
  }

  ghost predicate InLevel(t: TermReparam, level: nat, p: nat) {
    exists c :: IsColumn(t, c) && p == Place(t, c, level)
  }

  /** Gather b = sum_k x_k w_k from the level's slots. */
  method GatherLevel(t: TermReparam, x: array<real>, l: nat) returns (b: seq<real>)
    requires ValidTerm(t, x.Length) && l < t.nLevels
    ensures |t.transforms[l].w| <= |t.slopeColumns| && RowsOf(t.transforms[l].w, |t.slopeColumns|)
    ensures forall j :: 0 <= j < |t.slopeColumns| ==> Place(t, t.slopeColumns[j], l) < x.Length
    ensures b == Combined(t.transforms[l].w, SlopesAt(t, x[..], l), |t.slopeColumns|)
  {
    hide Place;
    hide ValidTerm;
    FitsAt(t, x.Length, l);
    TransformPresent(t, x.Length, l);
    var w, v := t.transforms[l].w, |t.slopeColumns|;
    ghost var xs := SlopesAt(t, x[..], l);
    b := seq(v, _ => 0.0);
    assert b == Zeros(v) && w[..0] == [];
    for k := 0 to |w|
      invariant b == Combined(w[..k], xs, v)
    {
      var bk := x[Place(t, t.slopeColumns[k], l)];
      assert bk == xs[k];
      b := AddMultiple(b, w[k], bk);
      assert w[..k + 1][..k] == w[..k];
    }
    assert w[..|w|] == w;
  }

  lemma TransformPresent(t: TermReparam, size: nat, l: nat)
    requires ValidTerm(t, size) && l < t.nLevels
    ensures |t.transforms| == t.nLevels
  {
  }

  method AddMultiple(b: seq<real>, w: seq<real>, x: real) returns (r: seq<real>)
    requires |b| == |w|
    ensures r == Comb(1.0, b, x, w)
  {
    r := [];
    ghost var z := Comb(1.0, b, x, w);
    for j := 0 to |b|
      invariant r == z[..j]
    {
      assert z[j] == b[j] + w[j] * x;
      r := r + [b[j] + w[j] * x];
    }
  }

  /** The first `n` slope slots of the level hold `b`. */
  ghost predicate Scattered(t: TermReparam, x0: seq<real>, x: seq<real>, l: nat, b: seq<real>, n: nat)
    requires |x| == |x0| && n <= |b| == |t.slopeColumns|
  {
    && (forall j :: 0 <= j < |b| ==> Place(t, t.slopeColumns[j], l) < |x|)
    && (forall j :: 0 <= j < n ==> x[Place(t, t.slopeColumns[j], l)] == b[j])
    && (forall p :: 0 <= p < |x| && !SlopeBelow(t, l, n, p) ==> x[p] == x0[p])
  }

  ghost predicate SlopeBelow(t: TermReparam, l: nat, n: nat, p: nat)
    requires n <= |t.slopeColumns|
  {
    exists j :: 0 <= j < n && p == Place(t, t.slopeColumns[j], l)
  }

  lemma ScatterStep(t: TermReparam, x0: seq<real>, x: seq<real>, l: nat, b: seq<real>, n: nat)
    requires |x| == |x0| && n < |b| == |t.slopeColumns| && ValidTerm(t, |x|) && l < t.nLevels && Scattered(t, x0, x, l, b, n)
    ensures Scattered(t, x0, x[Place(t, t.slopeColumns[n], l) := b[n]], l, b, n + 1)
  {
    hide Place;
    var q := Place(t, t.slopeColumns[n], l);
    var x', next := x[q := b[n]], n + 1;
    forall j | 0 <= j < n ensures Place(t, t.slopeColumns[j], l) != q {
      PlacesDistinct(t, t.slopeColumns[j], l, t.slopeColumns[n], l);
    }
    assert SlopeBelow(t, l, next, q);
    forall p | 0 <= p < |x| && !SlopeBelow(t, l, next, p) ensures x'[p] == x0[p] {
      assert !SlopeBelow(t, l, n, p);
    }
  }

  method ScatterLevel(t: TermReparam, x: array<real>, l: nat, b: seq<real>)
    requires ValidTerm(t, x.Length) && l < t.nLevels && |b| == |t.slopeColumns|
    modifies x
    ensures Scattered(t, old(x[..]), x[..], l, b, |b|)
  {
    hide Place;
    hide ValidTerm;
    FitsAt(t, x.Length, l);
    ghost var x0 := x[..];
    for j := 0 to |b|
      invariant Scattered(t, x0, x[..], l, b, j)
    {
      ScatterStep(t, x0, x[..], l, b, j);
      ghost var was := x[..];
      x[Place(t, t.slopeColumns[j], l)] := b[j];
      assert x[..] == was[Place(t, t.slopeColumns[j], l) := b[j]];
    }
  }

  lemma InterceptApart(t: TermReparam, size: nat, l: nat)
    requires ValidTerm(t, size) && l < t.nLevels && t.interceptColumn.Some?
    ensures !SlopeBelow(t, l, |t.slopeColumns|, Place(t, t.interceptColumn.value, l))
  {
    hide Place;
    var q := Place(t, t.interceptColumn.value, l);
    if SlopeBelow(t, l, |t.slopeColumns|, q) {
      var j :| 0 <= j < |t.slopeColumns| && q == Place(t, t.slopeColumns[j], l);
      PlacesDistinct(t, t.interceptColumn.value, l, t.slopeColumns[j], l);
      assert false;
    }
  }

  lemma SlopeIsInLevel(t: TermReparam, l: nat, p: nat)
    requires SlopeBelow(t, l, |t.slopeColumns|, p)
    ensures InLevel(t, l, p)
  {
    hide Place;
    var j :| 0 <= j < |t.slopeColumns| && p == Place(t, t.slopeColumns[j], l);
    assert IsColumn(t, t.slopeColumns[j]);
  }

  lemma LevelWritten(t: TermReparam, x0: seq<real>, x1: seq<real>, x2: seq<real>, l: nat, b: seq<real>)
    requires |x0| == |x1| == |x2| && ValidTerm(t, |x0|) && l < t.nLevels && t.transforms[l].w != []
    requires |b| == |t.slopeColumns| && Scattered(t, x0, x1, l, b, |b|)
    requires |t.transforms[l].w| <= |t.slopeColumns| && RowsOf(t.transforms[l].w, |t.slopeColumns|)
    requires forall j :: 0 <= j < |t.slopeColumns| ==> Place(t, t.slopeColumns[j], l) < |x0|
    requires b == Combined(t.transforms[l].w, SlopesAt(t, x0, l), |t.slopeColumns|)
    requires |t.transforms[l].center| == |b|
    requires match t.interceptColumn
             case None => x2 == x1
             case Some(c) => Place(t, c, l) < |x1| && x2 == x1[Place(t, c, l) := x1[Place(t, c, l)] - Inner(b, t.transforms[l].center)]
    ensures LevelDone(t, x0, x2, l) && SameOutside(t, x0, x2, l)
  {
    hide Place;
    hide Inner;
    FitsAt(t, |x0|, l);
    if t.interceptColumn.Some? { InterceptApart(t, |x0|, l); }
    forall j | 0 <= j < |b| ensures x2[Place(t, t.slopeColumns[j], l)] == b[j] {
      if t.interceptColumn.Some? { PlacesDistinct(t, t.slopeColumns[j], l, t.interceptColumn.value, l); }
    }
    assert SlopesAt(t, x2, l) == b;
    forall p | 0 <= p < |x0| && !InLevel(t, l, p) ensures x2[p] == x0[p] {
      if SlopeBelow(t, l, |t.slopeColumns|, p) { SlopeIsInLevel(t, l, p); }
      if t.interceptColumn.Some? { assert IsColumn(t, t.interceptColumn.value); }
    }
  }

  /** One level in place. */
  method TransformLevel(t: TermReparam, x: array<real>, l: nat)
    requires ValidTerm(t, x.Length) && l < t.nLevels
    modifies x
    ensures LevelDone(t, old(x[..]), x[..], l) && SameOutside(t, old(x[..]), x[..], l)
  {
    hide Place;
    hide ValidTerm;
    hide Inner;
    FitsAt(t, x.Length, l);
    TransformPresent(t, x.Length, l);
    if t.transforms[l].w == [] {
      return;
    }
    ghost var x0 := x[..];
    var b := GatherLevel(t, x, l);
    ScatterLevel(t, x, l, b);
    ghost var x1 := x[..];
    if t.interceptColumn.Some? {
      var d := DotProduct(b, t.transforms[l].center);
      var q := Place(t, t.interceptColumn.value, l);
      x[q] := x[q] - d;
      assert x[..] == x1[q := x1[q] - d];
    }
    LevelWritten(t, x0, x1, x[..], l, b);
  }

  /** The levels below `n` are done, everything else is as it was. */
  ghost predicate DoneUpTo(t: TermReparam, x0: seq<real>, x: seq<real>, n: nat) {
    && |x| == |x0| && ValidTerm(t, |x0|) && n <= t.nLevels
    && (forall l :: 0 <= l < n ==> LevelDone(t, x0, x, l))
    && (forall p :: 0 <= p < |x| && !InLevels(t, n, p) ==> x[p] == x0[p])
  }

  ghost predicate InLevels(t: TermReparam, n: nat, p: nat) {
    exists l :: 0 <= l < n && InLevel(t, l, p)
  }

  lemma NotInLevel(t: TermReparam, c: nat, l: nat, l': nat)
    requires l < t.nLevels && l' < t.nLevels && l != l'
    ensures !InLevel(t, l', Place(t, c, l))
  {
    hide Place;
    if InLevel(t, l', Place(t, c, l)) {
      var c' :| IsColumn(t, c') && Place(t, c, l) == Place(t, c', l');
      PlacesDistinct(t, c, l, c', l');
      assert false;
    }
  }

  /** A level's slots depend on that level alone. */
  lemma LevelDoneLocal(t: TermReparam, x0: seq<real>, y0: seq<real>, x1: seq<real>, y1: seq<real>, l: nat)
    requires |x0| == |x1| == |y0| == |y1| && ValidTerm(t, |x0|) && l < t.nLevels && LevelDone(t, x0, x1, l)
    requires forall c :: IsColumn(t, c) ==> Place(t, c, l) < |x0| && x0[Place(t, c, l)] == y0[Place(t, c, l)] && x1[Place(t, c, l)] == y1[Place(t, c, l)]
    ensures LevelDone(t, y0, y1, l)
  {
    hide Place;
    hide Inner;
    FitsAt(t, |x0|, l);
    forall j | 0 <= j < |t.slopeColumns|
      ensures SlopesAt(t, x0, l)[j] == SlopesAt(t, y0, l)[j] && SlopesAt(t, x1, l)[j] == SlopesAt(t, y1, l)[j]
    {
      assert IsColumn(t, t.slopeColumns[j]);
    }
    assert SlopesAt(t, x0, l) == SlopesAt(t, y0, l) && SlopesAt(t, x1, l) == SlopesAt(t, y1, l);
    if t.interceptColumn.Some? { assert IsColumn(t, t.interceptColumn.value); }
  }

  lemma DoneStep(t: TermReparam, x0: seq<real>, x: seq<real>, x': seq<real>, n: nat)
    requires DoneUpTo(t, x0, x, n) && n < t.nLevels && |x'| == |x| && LevelDone(t, x, x', n) && SameOutside(t, x, x', n)
    ensures DoneUpTo(t, x0, x', n + 1)
  {
    hide Place;
    hide LevelDone;
    var next := n + 1;
    forall l | 0 <= l < next ensures LevelDone(t, x0, x', l) {
      forall c | IsColumn(t, c) ensures SlotKept(t, x0, x, x', n, l, c) {
        SlotHistory(t, x0, x, x', n, l, c);
      }
      if l < n { LevelDoneLocal(t, x0, x0, x, x', l); } else { LevelDoneLocal(t, x, x0, x', x', l); }
    }
    forall p | 0 <= p < |x'| && !InLevels(t, next, p) ensures x'[p] == x0[p] {
      LevelsGrow(t, n, p);
    }
  }

  lemma LevelsGrow(t: TermReparam, n: nat, p: nat)
    ensures InLevels(t, n, p) || InLevel(t, n, p) ==> InLevels(t, n + 1, p)
  {
    if InLevels(t, n, p) {
      var l :| 0 <= l < n && InLevel(t, l, p);
      assert 0 <= l < n + 1;
    }
  }

  ghost predicate SlotKept(t: TermReparam, x0: seq<real>, x: seq<real>, x': seq<real>, n: nat, l: nat, c: nat)
    requires |x0| == |x| == |x'|
  {
    Place(t, c, l) < |x| && if l < n then x'[Place(t, c, l)] == x[Place(t, c, l)] else x[Place(t, c, l)] == x0[Place(t, c, l)]
  }

  lemma SlotHistory(t: TermReparam, x0: seq<real>, x: seq<real>, x': seq<real>, n: nat, l: nat, c: nat)
    requires DoneUpTo(t, x0, x, n) && n < t.nLevels && |x'| == |x| && SameOutside(t, x, x', n) && l <= n && IsColumn(t, c)
    ensures SlotKept(t, x0, x, x', n, l, c)
  {
    hide Place;
    hide LevelDone;
    var p := Place(t, c, l);
    assert p < |x|;
    if l < n {
      NotInLevel(t, c, l, n);
    } else {
      if InLevels(t, n, p) {
        var l' :| 0 <= l' < n && InLevel(t, l', p);
        NotInLevel(t, c, l, l');
        assert false;
      }
    }
  }

  /** No column of the term has a slot here. */
  ghost predicate Outside(t: TermReparam, p: nat) {
    forall c, l :: IsColumn(t, c) && 0 <= l < t.nLevels ==> p != Place(t, c, l)
  }

  /** `back_transform`: every level's slots are mapped, slots outside the term's block are
      untouched. */
  method BackTransform(t: TermReparam, x: array<real>)
    requires ValidTerm(t, x.Length)
    modifies x
    ensures DoneUpTo(t, old(x[..]), x[..], t.nLevels)
    ensures forall p :: 0 <= p < x.Length && Outside(t, p) ==> x[p] == old(x[p])
  {
    hide LevelDone;
    hide ValidTerm;
    ghost var x0 := x[..];
    for l := 0 to t.nLevels
      invariant DoneUpTo(t, x0, x[..], l)
    {
      ghost var was := x[..];
      TransformLevel(t, x, l);
      DoneStep(t, x0, was, x[..], l);
    }
  }

  // ---- The fit -----------------------------------------------------------------------------

  /** The fitted value of an observation with slopes `z` in user coordinates. */
  ghost function UserFit(t: TermReparam, x: seq<real>, level: nat, z: seq<real>): real
    requires ValidTerm(t, |x|) && level < t.nLevels && |z| == |t.slopeColumns|
  {
    FitsAt(t, |x|, level);
    Inner(z, SlopesAt(t, x, level)) + InterceptAt(t, x, level)
  }

  /** The whitened loadings of an observation at its level. */
  ghost function LoadingsAt(t: TermReparam, level: nat, z: seq<real>): (u: seq<real>)
    requires level < |t.transforms| && LevelFits(t, level) && |z| == |t.slopeColumns|
    ensures |u| == |z|
  {
    seq(|z|, k requires 0 <= k < |z| => Loading(t.transforms[level], z, k))
  }

  /** The same observation's fitted value in whitened coordinates. */
  ghost function WhitenedFit(t: TermReparam, x: seq<real>, level: nat, z: seq<real>): real
    requires ValidTerm(t, |x|) && level < t.nLevels && |z| == |t.slopeColumns|
  {
    FitsAt(t, |x|, level);
    Inner(LoadingsAt(t, level, z), SlopesAt(t, x, level)) + InterceptAt(t, x, level)
  }

  /** <sum_k x_k w_k, y> over the leading coefficients. */
  ghost function Leading(w: seq<seq<real>>, xs: seq<real>, y: seq<real>): int -> real {
    k => if 0 <= k < |w| && k < |xs| && |w[k]| == |y| then Mul(xs[k], Inner(w[k], y)) else 0.0
  }

  lemma {:induction false} CombinedInner(w: seq<seq<real>>, xs: seq<real>, v: nat, y: seq<real>)
    requires RowsOf(w, v) && |w| <= |xs| && |y| == v
    ensures Inner(Combined(w, xs, v), y) == Sum(|w|, Leading(w, xs, y))
  {
    hide Inner;
    if w == [] {
      InnerZeros(v, y);
    } else {
      var n := |w| - 1;
      var p := w[..n];
      CombinedInner(p, xs, v, y);
      InnerComb(1.0, Combined(p, xs, v), xs[n], w[n], y);
      SumStep(n, Leading(w, xs, y));
      SumCong(n, Leading(p, xs, y), Leading(w, xs, y));
    }
  }

  /** Whitened loadings against the coefficients are the combined row against the deviation. */
  lemma LoadingsInner(t: LevelTransform, xs: seq<real>, z: seq<real>, u: seq<real>)
    requires |t.center| == |z| == |xs| == |u| && RowsOf(t.w, |z|) && |t.w| <= |z|
    requires forall k :: 0 <= k < |z| ==> u[k] == Loading(t, z, k)
    ensures Inner(u, xs) == Inner(Combined(t.w, xs, |z|), Comb(1.0, z, -1.0, t.center))
  {
    hide Inner;
    hide Sum;
    hide Mul;
    var v, y := |z|, Comb(1.0, z, -1.0, t.center);
    CombinedInner(t.w, xs, v, y);
    forall k | 0 <= k < |t.w| ensures Products(xs, u)(k) == Leading(t.w, xs, y)(k) { LeadingEntry(t, xs, z, u, k); }
    SumCong(|t.w|, Products(xs, u), Leading(t.w, xs, y));
    TailVanishes(u, xs, |t.w|);
  }

  lemma LeadingEntry(t: LevelTransform, xs: seq<real>, z: seq<real>, u: seq<real>, k: nat)
    requires |t.center| == |z| == |xs| == |u| && RowsOf(t.w, |z|) && k < |t.w| <= |z| && u[k] == Loading(t, z, k)
    ensures Products(xs, u)(k) == Leading(t.w, xs, Comb(1.0, z, -1.0, t.center))(k)
  {
    hide Inner;
    hide Mul;
    var y := Comb(1.0, z, -1.0, t.center);
    assert |t.w[k]| == |z| == |y|;
    assert At(u)(k) == Inner(t.w[k], y);
    assert At(xs)(k) == xs[k];
  }

  ghost function Products(x: seq<real>, y: seq<real>): int -> real { k => Mul(At(x)(k), At(y)(k)) }

  lemma TailVanishes(u: seq<real>, xs: seq<real>, r: nat)
    requires |u| == |xs| && r <= |u| && forall k :: r <= k < |u| ==> u[k] == 0.0
    ensures Inner(u, xs) == Sum(r, Products(xs, u))
  {
    hide Sum;
    var f, g := Products(xs, u), k => Products(xs, u)(r + k);
    forall k | 0 <= k < |u| ensures At(u)(k) * At(xs)(k) == f(k) { MulComm(At(xs)(k), At(u)(k)); }
    SumCong(|u|, k => At(u)(k) * At(xs)(k), f);
    SumSplit(r, |u| - r, f, g);
    forall k | 0 <= k < |u| - r ensures g(k) == 0.0 { ZeroTimes(At(xs)(r + k), At(u)(r + k)); }
    SumZero(|u| - r, g);
  }

  lemma DeviationInner(b: seq<real>, z: seq<real>, c: seq<real>)
    requires |b| == |z| == |c|
    ensures Inner(b, Comb(1.0, z, -1.0, c)) == Inner(z, b) - Inner(b, c)
  {
    hide Inner;
    InnerCombRight(b, 1.0, z, -1.0, c);
    InnerComm(b, z);
  }

  /** At every observation the fit survives the back-transform exactly when its level kept a
      direction, or the slope slots of the fully dropped level contributed nothing there. */
  lemma FitPreservedIff(t: TermReparam, x0: seq<real>, x1: seq<real>, level: nat, z: seq<real>)
    requires DoneUpTo(t, x0, x1, t.nLevels) && level < t.nLevels && |z| == |t.slopeColumns|
    ensures forall j :: 0 <= j < |t.slopeColumns| ==> Place(t, t.slopeColumns[j], level) < |x0|
    ensures UserFit(t, x1, level, z) == WhitenedFit(t, x0, level, z) <==>
            t.transforms[level].w != [] || Inner(z, SlopesAt(t, x0, level)) == 0.0
  {
    hide Inner;
    hide Place;
    FitsAt(t, |x0|, level);
    var tr, v := t.transforms[level], |t.slopeColumns|;
    var xs, u := SlopesAt(t, x0, level), LoadingsAt(t, level, z);
    assert LevelDone(t, x0, x1, level);
    if tr.w == [] {
      assert u == Zeros(v);
      InnerZeros(v, xs);
    } else {
      var b := Combined(tr.w, xs, v);
      LoadingsInner(tr, xs, z, u);
      DeviationInner(b, z, tr.center);
      if t.interceptColumn.None? {
        assert tr.center == Zeros(v);
        InnerZeros(v, b);
      }
    }
  }
}
