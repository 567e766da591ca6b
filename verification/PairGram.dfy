/** A channel pair's accumulated matrix is the submatrix of the normal matrix `D^T W D` at the
    pair's coefficients (crates/within/src/domain/cross_tab/accumulate.rs:66-273,
    crates/within/src/domain.rs:77-104, 155-246). */
module PairGrams {
  import opened Wrappers
  import opened Sums
  import opened Csr
  import opened CrossTabs
  import opened Elimination
  import opened AssembledSystems
  import opened Extraction
  import opened Components
  import opened Convert
  import opened Accumulation
  import opened PairAssembly
  import opened Scatter
  import opened DesignOperator

  /** One coefficient column of one term. */
  datatype Channel = Channel(term: nat, column: nat)

  ghost predicate InDesign(d: Design, ch: Channel) {
    d.Valid() && ch.term < |d.terms| && ch.column < |d.terms[ch.term].columns|
  }

  /** The terms' blocks of coefficients follow each other. */
  ghost predicate Laid(d: Design) {
    forall q, p :: 0 <= q < p < |d.terms| ==> d.terms[q].offset + d.terms[q].NDofs() <= d.terms[p].offset
  }

  /** Where the channel's coefficients start. */
  function Base(d: Design, ch: Channel): nat
    requires ch.term < |d.terms|
  {
    d.terms[ch.term].offset + ch.column * d.terms[ch.term].nLevels
  }

  /** The level of a term at observation `i`. */
  function LevelOf(d: Design, q: nat, i: int): nat {
    if q < |d.levels| && 0 <= i < |d.levels[q]| then d.levels[q][i] else 0
  }

  function Loads(d: Design, ch: Channel, i: int): real {
    if ch.term < |d.terms| && ch.column < |d.terms[ch.term].columns| && 0 <= i then d.Load(ch.term, ch.column, i) else 0.0
  }

  /** What the channel loads on observation `i` at `level`. */
  ghost function LoadAt(d: Design, ch: Channel, level: nat, i: int): real {
    if LevelOf(d, ch.term, i) == level then Loads(d, ch, i) else 0.0
  }

  // ---- One column of the design ------------------------------------------------------------

  lemma SlotInBlock(d: Design, q: nat, c: nat, i: nat)
    requires d.Valid() && q < |d.terms| && c < |d.terms[q].columns| && i < d.nObs
    ensures |d.levels| == |d.terms| && |d.levels[q]| == d.nObs && LevelOf(d, q, i) < d.terms[q].nLevels
    ensures d.terms[q].offset <= d.Slot(q, c, i) < d.terms[q].offset + d.terms[q].NDofs()
  {
    assert d.TermValid(q);
    PlaceBound(c, |d.terms[q].columns|, d.terms[q].nLevels, d.levels[q][i]);
  }

  lemma DofInBlock(d: Design, ch: Channel, level: nat)
    requires InDesign(d, ch) && level < d.terms[ch.term].nLevels
    ensures d.terms[ch.term].offset <= Base(d, ch) + level < d.terms[ch.term].offset + d.terms[ch.term].NDofs() <= d.nDofs
  {
    assert d.TermValid(ch.term);
    PlaceBound(ch.column, |d.terms[ch.term].columns|, d.terms[ch.term].nLevels, level);
  }

  lemma PlaceApart(c: nat, c': nat, n: nat, l: nat, l': nat)
    requires c != c' && l < n && l' < n
    ensures Place(c, n, l) != Place(c', n, l')
  {
    if c < c' { assert (c + 1) * n <= c' * n; } else { assert (c' + 1) * n <= c * n; }
  }

  /** Other terms do not reach a channel's coefficients. */
  lemma OtherTerm(d: Design, ch: Channel, level: nat, q: nat, i: nat)
    requires InDesign(d, ch) && Laid(d) && level < d.terms[ch.term].nLevels && q < |d.terms| && q != ch.term && i < d.nObs
    ensures d.TermEntry(q, i)(Base(d, ch) + level) == 0.0
  {
    hide Sum;
    var dof, n := Base(d, ch) + level, |d.terms[q].columns|;
    DofInBlock(d, ch, level);
    forall c | 0 <= c < n ensures d.Hit(q, c, i, dof) == 0.0 { SlotInBlock(d, q, c, i); }
    SumZero(n, c => d.Hit(q, c, i, dof));
  }

  lemma OwnTerm(d: Design, ch: Channel, level: nat, i: nat)
    requires InDesign(d, ch) && level < d.terms[ch.term].nLevels && i < d.nObs
    ensures d.TermEntry(ch.term, i)(Base(d, ch) + level) == LoadAt(d, ch, level, i)
  {
    hide Sum;
    var q, dof, n := ch.term, Base(d, ch) + level, |d.terms[ch.term].columns|;
    forall c | 0 <= c < n && c != ch.column ensures d.Hit(q, c, i, dof) == 0.0 {
      SlotInBlock(d, q, c, i);
      PlaceApart(c, ch.column, d.terms[q].nLevels, LevelOf(d, q, i), level);
    }
    SlotInBlock(d, q, ch.column, i);
    SumDelta(n, ch.column, c => d.Hit(q, c, i, dof));
  }

  /** The design's column at a channel's level. */
  lemma ColumnEntry(d: Design, ch: Channel, level: nat, i: nat)
    requires InDesign(d, ch) && Laid(d) && level < d.terms[ch.term].nLevels && i < d.nObs
    ensures d.Entry(i)(Base(d, ch) + level) == LoadAt(d, ch, level, i)
  {
    hide Sum;
    hide LoadAt;
    var dof := Base(d, ch) + level;
    OwnTerm(d, ch, level, i);
    forall q | 0 <= q < |d.terms| && q != ch.term ensures d.TermEntry(q, i)(dof) == 0.0 { OtherTerm(d, ch, level, q, i); }
    SumDelta(|d.terms|, ch.term, q => d.TermEntry(q, i)(dof));
  }

  /** A nonzero entry of the design comes from one channel at one level. */
  lemma EntryChannel(d: Design, i: nat, j: nat) returns (ch: Channel)
    requires d.Valid() && i < d.nObs && d.Entry(i)(j) != 0.0
    ensures InDesign(d, ch) && LevelOf(d, ch.term, i) < d.terms[ch.term].nLevels && j == Base(d, ch) + LevelOf(d, ch.term, i)
  {
    hide Sum;
    var f: int -> real := q => d.TermEntry(q, i)(j);
    var q := NonzeroTerm(|d.terms|, f);
    assert d.TermEntry(q, i)(j) != 0.0;
    var g: int -> real := c => d.Hit(q, c, i, j);
    SumCong(|d.terms[q].columns|, c => d.Hit(q, c, i, j), g);
    var c := NonzeroTerm(|d.terms[q].columns|, g);
    assert d.Hit(q, c, i, j) != 0.0;
    ch := Channel(q, c);
    assert d.TermValid(q);
  }

  lemma NonzeroTerm(n: nat, f: int -> real) returns (k: nat)
    requires Sum(n, f) != 0.0
    ensures k < n && f(k) != 0.0
  {
    hide Sum;
    if forall i :: 0 <= i < n ==> f(i) == 0.0 { SumZero(n, f); }
    k :| 0 <= k < n && f(k) != 0.0;
  }

  // ---- The pair ----------------------------------------------------------------------------

  /** The normal matrix `D^T W D`. */
  ghost function Normal(d: Design, scale: Option<seq<real>>): Mat {
    (j, k) => Dot(d.nObs, ColOf(Matrix(d, scale), j), ColOf(Matrix(d, scale), k))
  }

  ghost predicate LoadsAs(d: Design, ch: Channel, load: Option<seq<real>>)
    requires InDesign(d, ch)
  {
    match d.terms[ch.term].columns[ch.column]
    case Constant => load.None?
    case Covariate(k) => k < |d.covariates| && load == Some(d.covariates[k])
  }

  /** The weights are the squares of the row scales. */
  ghost predicate WeighsAs(scale: Option<seq<real>>, weights: Option<seq<real>>, n: nat) {
    match weights
    case None => scale.None?
    case Some(w) => scale.Some? && |w| == |scale.value| == n && forall i :: 0 <= i < n ==> w[i] == scale.value[i] * scale.value[i]
  }

  /** The columns behind a pair of channels of two terms. */
  ghost predicate PairOf(d: Design, scale: Option<seq<real>>, rows: Channel, cols: Channel, p: PairColumns) {
    && InDesign(d, rows) && InDesign(d, cols) && Laid(d) && rows.term != cols.term
    && p.rowLevels == d.levels[rows.term] && p.colLevels == d.levels[cols.term]
    && LoadsAs(d, rows, p.rowLoad) && LoadsAs(d, cols, p.colLoad) && WeighsAs(scale, p.weights, d.nObs)
  }

  /** The pair's numbering, every level that occurs being active. */
  ghost predicate Numbered(d: Design, rows: Channel, cols: Channel, activeRows: seq<bool>, activeCols: seq<bool>, active: ActiveLevels, l2g: seq<nat>)
    requires InDesign(d, rows) && InDesign(d, cols)
  {
    && |activeRows| == d.terms[rows.term].nLevels && |activeCols| == d.terms[cols.term].nLevels
    && Mapped(activeRows, activeCols, Base(d, rows), Base(d, cols), active, l2g)
    && (forall i :: 0 <= i < d.nObs ==> OccursActive(d, rows, activeRows, i) && OccursActive(d, cols, activeCols, i))
  }

  ghost predicate OccursActive(d: Design, ch: Channel, active: seq<bool>, i: int) {
    LevelOf(d, ch.term, i) < |active| && active[LevelOf(d, ch.term, i)]
  }

  /** The setting of everything below. */
  ghost predicate Accounted(d: Design, scale: Option<seq<real>>, rows: Channel, cols: Channel, p: PairColumns, activeRows: seq<bool>,
                            activeCols: seq<bool>, active: ActiveLevels, l2g: seq<nat>) {
    PairOf(d, scale, rows, cols, p) && Numbered(d, rows, cols, activeRows, activeCols, active, l2g)
  }

  /** An active level's place in the numbering. */
  lemma Placed(flags: seq<bool>, remap: Remap, level: nat)
    requires |remap| == |flags| && Places(remap, Actives(flags, |flags|)) && level < |flags| && flags[level]
    ensures remap[level].Some? && remap[level].value < |Actives(flags, |flags|)| && Actives(flags, |flags|)[remap[level].value] == level
    ensures forall t :: 0 <= t < |Actives(flags, |flags|)| && Actives(flags, |flags|)[t] == level ==> remap[level].value == t
  {
    ActivesAscend(flags, |flags|);
    var ids := Actives(flags, |flags|);
    assert level in ids;
    var t :| 0 <= t < |ids| && ids[t] == level;
  }

  ghost function RowId(activeRows: seq<bool>, a: int): nat {
    var ids := Actives(activeRows, |activeRows|);
    if 0 <= a < |ids| then ids[a] else 0
  }

  lemma PairFits(d: Design, scale: Option<seq<real>>, rows: Channel, cols: Channel, p: PairColumns, activeRows: seq<bool>,
                 activeCols: seq<bool>, active: ActiveLevels, l2g: seq<nat>)
    requires Accounted(d, scale, rows, cols, p, activeRows, activeCols, active, l2g)
    ensures p.Fits(active) && |p.rowLevels| == d.nObs
    ensures forall i :: 0 <= i < d.nObs ==> p.rowLevels[i] == LevelOf(d, rows.term, i) && p.colLevels[i] == LevelOf(d, cols.term, i)
  {
    hide Places;
    hide Actives;
    assert d.TermValid(rows.term) && d.TermValid(cols.term);
    forall u | 0 <= u < d.nObs ensures p.rowLevels[u] < |active.rowMap| && p.colLevels[u] < |active.colMap| {
      assert OccursActive(d, rows, activeRows, u) && OccursActive(d, cols, activeCols, u);
    }
  }

  /** Decoding an observation: its two places ... */
  lemma DecodedPlaces(d: Design, scale: Option<seq<real>>, rows: Channel, cols: Channel, p: PairColumns, activeRows: seq<bool>,
                      activeCols: seq<bool>, active: ActiveLevels, l2g: seq<nat>, i: nat)
    requires Accounted(d, scale, rows, cols, p, activeRows, activeCols, active, l2g) && i < d.nObs && p.Fits(active) && i < |p.rowLevels|
    ensures p.Decode(active, i).Some?
    ensures forall a: nat :: a < active.nRows ==> (p.Decode(active, i).value.cj == a <==> LevelOf(d, rows.term, i) == RowId(activeRows, a))
    ensures forall b: nat :: b < active.nCols ==> (p.Decode(active, i).value.ck == b <==> LevelOf(d, cols.term, i) == RowId(activeCols, b))
  {
    hide Places;
    hide Actives;
    PairFits(d, scale, rows, cols, p, activeRows, activeCols, active, l2g);
    assert OccursActive(d, rows, activeRows, i) && OccursActive(d, cols, activeCols, i);
    Placed(activeRows, active.rowMap, LevelOf(d, rows.term, i));
    Placed(activeCols, active.colMap, LevelOf(d, cols.term, i));
  }

  function Cube(s: real, x: real, y: real): real { s * s * x * y }

  function Weighing(p: PairColumns, i: nat): real { if p.weights.Some? && i < |p.weights.value| then p.weights.value[i] else 1.0 }

  function Loaded(load: Option<seq<real>>, i: nat): real { if load.Some? && i < |load.value| then load.value[i] else 1.0 }

  lemma DecodeIs(p: PairColumns, active: ActiveLevels, i: nat)
    requires p.Fits(active) && i < |p.rowLevels| && p.Decode(active, i).Some?
    ensures var (o, w, x, y) := (p.Decode(active, i).value, Weighing(p, i), Loaded(p.rowLoad, i), Loaded(p.colLoad, i));
      o.cell == Thrice(w, x, y) && o.rowDiag == Thrice(w, x, x) && o.colDiag == Thrice(w, y, y)
  {
    hide Thrice;
  }

  /** ... and its three products. */
  lemma DecodedProducts(d: Design, scale: Option<seq<real>>, rows: Channel, cols: Channel, p: PairColumns, active: ActiveLevels, i: nat)
    requires PairOf(d, scale, rows, cols, p) && i < d.nObs && p.Fits(active) && i < |p.rowLevels| && p.Decode(active, i).Some?
    ensures var o := p.Decode(active, i).value; var (s, x, y) := (ScaleAt(scale, i), Loads(d, rows, i), Loads(d, cols, i));
      o.cell == Cube(s, x, y) && o.rowDiag == Cube(s, x, x) && o.colDiag == Cube(s, y, y)
  {
    hide Cube;
    hide Thrice;
    hide Loads;
    hide PairColumns.Decode;
    LoadIs(d, rows, p.rowLoad, i);
    LoadIs(d, cols, p.colLoad, i);
    WeightIs(scale, p.weights, d.nObs, i);
    DecodeIs(p, active, i);
    var (s, x, y, w) := (ScaleAt(scale, i), Loads(d, rows, i), Loads(d, cols, i), Weighing(p, i));
    CubeOf(w, s, x, y);
    CubeOf(w, s, x, x);
    CubeOf(w, s, y, y);
  }

  lemma CubeOf(w: real, s: real, x: real, y: real)
    requires w == s * s
    ensures Thrice(w, x, y) == Cube(s, x, y)
  {
  }

  lemma WeightIs(scale: Option<seq<real>>, weights: Option<seq<real>>, n: nat, i: nat)
    requires WeighsAs(scale, weights, n) && i < n
    ensures var s := ScaleAt(scale, i); if weights.Some? then i < |weights.value| && weights.value[i] == s * s else s * s == 1.0
  {
  }

  lemma LoadIs(d: Design, ch: Channel, load: Option<seq<real>>, i: nat)
    requires InDesign(d, ch) && LoadsAs(d, ch, load) && i < d.nObs
    ensures if load.Some? then i < |load.value| && load.value[i] == Loads(d, ch, i) else Loads(d, ch, i) == 1.0
  {
  }

  // ---- The submatrix -----------------------------------------------------------------------

  lemma IdBound(flags: seq<bool>, a: nat)
    requires a < |Actives(flags, |flags|)|
    ensures RowId(flags, a) < |flags|
    ensures forall b: nat :: b < |Actives(flags, |flags|)| && b != a ==> RowId(flags, b) != RowId(flags, a)
  {
    hide Actives;
    ActivesAscend(flags, |flags|);
  }

  /** One entry of the weighted design at a channel's level. */
  lemma MatrixEntry(d: Design, scale: Option<seq<real>>, ch: Channel, level: nat, i: nat)
    requires InDesign(d, ch) && Laid(d) && level < d.terms[ch.term].nLevels && i < d.nObs
    ensures ColOf(Matrix(d, scale), Base(d, ch) + level)(i) == ScaleAt(scale, i) * LoadAt(d, ch, level, i)
  {
    hide LoadAt;
    hide ScaleAt;
    hide Base;
    ColumnEntry(d, ch, level, i);
  }

  lemma CubeScalars(s: real, x: real, y: real)
    ensures (s * x) * (s * y) == Cube(s, x, y)
    ensures (s * 0.0) * (s * y) == 0.0 == (s * x) * (s * 0.0)
  {
  }

  /** What observation `i` adds to the normal matrix between two levels. */
  lemma Product(d: Design, scale: Option<seq<real>>, r: Channel, l: nat, c: Channel, k: nat, i: nat)
    requires InDesign(d, r) && InDesign(d, c) && Laid(d) && i < d.nObs
    requires l < d.terms[r.term].nLevels && k < d.terms[c.term].nLevels
    ensures var (x, y) := (ColOf(Matrix(d, scale), Base(d, r) + l)(i), ColOf(Matrix(d, scale), Base(d, c) + k)(i));
      x * y == if LevelOf(d, r.term, i) == l && LevelOf(d, c.term, i) == k then Cube(ScaleAt(scale, i), Loads(d, r, i), Loads(d, c, i)) else 0.0
  {
    hide Matrix;
    hide ScaleAt;
    hide Loads;
    hide Base;
    hide Cube;
    MatrixEntry(d, scale, r, l, i);
    MatrixEntry(d, scale, c, k, i);
    CubeScalars(ScaleAt(scale, i), Loads(d, r, i), Loads(d, c, i));
    CubeScalars(ScaleAt(scale, i), 0.0, 0.0);
  }

  /** Local node `t` of the pair, as a channel and one of its levels. */
  ghost function NodeChannel(rows: Channel, cols: Channel, nRows: nat, t: nat): Channel { if t < nRows then rows else cols }

  ghost function NodeLevel(activeRows: seq<bool>, activeCols: seq<bool>, nRows: nat, t: nat): nat {
    if t < nRows then RowId(activeRows, t) else RowId(activeCols, t - nRows)
  }

  lemma NodeColumn(d: Design, scale: Option<seq<real>>, rows: Channel, cols: Channel, p: PairColumns, activeRows: seq<bool>,
                   activeCols: seq<bool>, active: ActiveLevels, l2g: seq<nat>, t: nat)
    requires Accounted(d, scale, rows, cols, p, activeRows, activeCols, active, l2g) && t < active.nRows + active.nCols
    ensures |l2g| == active.nRows + active.nCols
    ensures var (ch, l) := (NodeChannel(rows, cols, active.nRows, t), NodeLevel(activeRows, activeCols, active.nRows, t));
      InDesign(d, ch) && l < d.terms[ch.term].nLevels && l2g[t] == Base(d, ch) + l
  {
    hide Places;
    hide Actives;
    if t < active.nRows { IdBound(activeRows, t); } else { IdBound(activeCols, t - active.nRows); }
  }

  lemma NormalSum(d: Design, scale: Option<seq<real>>, j: int, k: int, g: Vec)
    requires forall i :: 0 <= i < d.nObs ==> ColOf(Matrix(d, scale), j)(i) * ColOf(Matrix(d, scale), k)(i) == g(i)
    ensures Normal(d, scale)(j, k) == Sum(d.nObs, g)
  {
    hide Sum;
    hide Matrix;
    var a, b := ColOf(Matrix(d, scale), j), ColOf(Matrix(d, scale), k);
    assert Normal(d, scale)(j, k) == Dot(d.nObs, a, b);
    SumCong(d.nObs, i => a(i) * b(i), g);
  }

  /** The normal matrix between two coefficients of one channel: nothing off the diagonal. */
  lemma SameChannel(d: Design, scale: Option<seq<real>>, ch: Channel, l: nat, k: nat)
    requires InDesign(d, ch) && Laid(d) && l < d.terms[ch.term].nLevels && k < d.terms[ch.term].nLevels && l != k
    ensures Normal(d, scale)(Base(d, ch) + l, Base(d, ch) + k) == 0.0
  {
    hide Sum;
    hide Matrix;
    hide Cube;
    hide Base;
    hide Normal;
    var zero: Vec := i => 0.0;
    var (j0, k0) := (Base(d, ch) + l, Base(d, ch) + k);
    forall i | 0 <= i < d.nObs ensures ColOf(Matrix(d, scale), j0)(i) * ColOf(Matrix(d, scale), k0)(i) == zero(i) { Product(d, scale, ch, l, ch, k, i); }
    NormalSum(d, scale, j0, k0, zero);
    SumZero(d.nObs, zero);
  }

  /** The diagonal of the normal matrix at a row node. */
  lemma RowDiagonal(d: Design, scale: Option<seq<real>>, rows: Channel, cols: Channel, p: PairColumns, activeRows: seq<bool>,
                    activeCols: seq<bool>, active: ActiveLevels, l2g: seq<nat>, a: nat)
    requires Accounted(d, scale, rows, cols, p, activeRows, activeCols, active, l2g) && a < active.nRows && |l2g| == active.nRows + active.nCols
    ensures |p.rowLevels| == d.nObs && Normal(d, scale)(l2g[a], l2g[a]) == Sum(d.nObs, RowDiagAt(p, active, a))
  {
    hide Sum;
    hide Matrix;
    hide Normal;
    hide Cube;
    hide Base;
    hide Numbered;
    hide PairColumns.Decode;
    PairFits(d, scale, rows, cols, p, activeRows, activeCols, active, l2g);
    NodeColumn(d, scale, rows, cols, p, activeRows, activeCols, active, l2g, a);
    var l := RowId(activeRows, a);
    forall i | 0 <= i < d.nObs ensures ColOf(Matrix(d, scale), l2g[a])(i) * ColOf(Matrix(d, scale), l2g[a])(i) == RowDiagAt(p, active, a)(i) {
      Product(d, scale, rows, l, rows, l, i);
      DecodedPlaces(d, scale, rows, cols, p, activeRows, activeCols, active, l2g, i);
      DecodedProducts(d, scale, rows, cols, p, active, i);
    }
    NormalSum(d, scale, l2g[a], l2g[a], RowDiagAt(p, active, a));
  }

  lemma ColDiagonal(d: Design, scale: Option<seq<real>>, rows: Channel, cols: Channel, p: PairColumns, activeRows: seq<bool>,
                    activeCols: seq<bool>, active: ActiveLevels, l2g: seq<nat>, b: nat)
    requires Accounted(d, scale, rows, cols, p, activeRows, activeCols, active, l2g) && b < active.nCols && |l2g| == active.nRows + active.nCols
    ensures |p.rowLevels| == d.nObs && Normal(d, scale)(l2g[active.nRows + b], l2g[active.nRows + b]) == Sum(d.nObs, ColDiagAt(p, active, b))
  {
    hide Sum;
    hide Matrix;
    hide Normal;
    hide Cube;
    hide Base;
    hide Numbered;
    hide PairColumns.Decode;
    PairFits(d, scale, rows, cols, p, activeRows, activeCols, active, l2g);
    NodeColumn(d, scale, rows, cols, p, activeRows, activeCols, active, l2g, active.nRows + b);
    var (l, j) := (RowId(activeCols, b), l2g[active.nRows + b]);
    forall i | 0 <= i < d.nObs ensures ColOf(Matrix(d, scale), j)(i) * ColOf(Matrix(d, scale), j)(i) == ColDiagAt(p, active, b)(i) {
      Product(d, scale, cols, l, cols, l, i);
      DecodedPlaces(d, scale, rows, cols, p, activeRows, activeCols, active, l2g, i);
      DecodedProducts(d, scale, rows, cols, p, active, i);
    }
    NormalSum(d, scale, j, j, ColDiagAt(p, active, b));
  }

  /** The normal matrix between a row and a column node. */
  lemma CrossCell(d: Design, scale: Option<seq<real>>, rows: Channel, cols: Channel, p: PairColumns, activeRows: seq<bool>,
                  activeCols: seq<bool>, active: ActiveLevels, l2g: seq<nat>, a: nat, b: nat)
    requires Accounted(d, scale, rows, cols, p, activeRows, activeCols, active, l2g) && a < active.nRows && b < active.nCols
    requires |l2g| == active.nRows + active.nCols
    ensures |p.rowLevels| == d.nObs && Normal(d, scale)(l2g[a], l2g[active.nRows + b]) == Sum(d.nObs, CellAt(p, active, a, b))
  {
    hide Sum;
    hide Matrix;
    hide Normal;
    hide Cube;
    hide Base;
    hide Numbered;
    hide PairColumns.Decode;
    PairFits(d, scale, rows, cols, p, activeRows, activeCols, active, l2g);
    NodeColumn(d, scale, rows, cols, p, activeRows, activeCols, active, l2g, a);
    NodeColumn(d, scale, rows, cols, p, activeRows, activeCols, active, l2g, active.nRows + b);
    var (l, k, i0, j0) := (RowId(activeRows, a), RowId(activeCols, b), l2g[a], l2g[active.nRows + b]);
    forall i | 0 <= i < d.nObs ensures ColOf(Matrix(d, scale), i0)(i) * ColOf(Matrix(d, scale), j0)(i) == CellAt(p, active, a, b)(i) {
      Product(d, scale, rows, l, cols, k, i);
      DecodedPlaces(d, scale, rows, cols, p, activeRows, activeCols, active, l2g, i);
      DecodedProducts(d, scale, rows, cols, p, active, i);
    }
    NormalSum(d, scale, i0, j0, CellAt(p, active, a, b));
  }

  lemma NormalSymmetric(d: Design, scale: Option<seq<real>>, j: int, k: int)
    ensures Normal(d, scale)(j, k) == Normal(d, scale)(k, j)
  {
    hide Matrix;
    DotComm(d.nObs, ColOf(Matrix(d, scale), j), ColOf(Matrix(d, scale), k));
  }

  /** The accumulated entries by position. */
  lemma AccumulatedGram(p: PairColumns, active: ActiveLevels, x: CrossTab, rowDiag: seq<real>, colDiag: seq<real>, t: nat, u: nat)
    requires x.Valid() && Accumulated(p, active, x.c, rowDiag, colDiag) && t < x.NLocal() && u < x.NLocal()
    ensures x.NRows() == active.nRows && x.NCols() == active.nCols && x.NLocal() == active.nRows + active.nCols
    ensures var e := active.nRows; var n := |p.rowLevels|;
      Gram(x, rowDiag + colDiag)(t, u) ==
      if t == u then (if t < e then Sum(n, RowDiagAt(p, active, t)) else Sum(n, ColDiagAt(p, active, t - e)))
      else if t < e && u >= e then Sum(n, CellAt(p, active, t, u - e))
      else if t >= e && u < e then Sum(n, CellAt(p, active, u, t - e))
      else 0.0
  {
    hide Sum;
    hide RowDiagAt;
    hide ColDiagAt;
    hide CellAt;
    hide CsrBlock.Entry;
    hide CsrBlock.Nonzero;
    hide CsrBlock.Sorted;
    Shaped(x);
    var e := active.nRows;
    if t == u { assert (rowDiag + colDiag)[t] == if t < e then rowDiag[t] else colDiag[t - e]; }
  }

  /** The pair's Gram matrix is the normal matrix at the pair's coefficients. */
  lemma PairGramIsNormal(d: Design, scale: Option<seq<real>>, rows: Channel, cols: Channel, p: PairColumns, activeRows: seq<bool>,
                         activeCols: seq<bool>, active: ActiveLevels, l2g: seq<nat>,
                         x: CrossTab, rowDiag: seq<real>, colDiag: seq<real>, t: nat, u: nat)
    requires Accounted(d, scale, rows, cols, p, activeRows, activeCols, active, l2g)
    requires x.Valid() && Accumulated(p, active, x.c, rowDiag, colDiag) && t < x.NLocal() && u < x.NLocal()
    ensures |l2g| == x.NLocal() && Gram(x, rowDiag + colDiag)(t, u) == Normal(d, scale)(l2g[t], l2g[u])
  {
    hide Sum;
    hide Normal;
    hide Gram;
    hide Accounted;
    hide Accumulated;
    hide RowDiagAt;
    hide ColDiagAt;
    hide CellAt;
    hide NodeChannel;
    hide NodeLevel;
    hide CrossTab.Valid;
    var e := active.nRows;
    AccumulatedGram(p, active, x, rowDiag, colDiag, t, u);
    NodeColumn(d, scale, rows, cols, p, activeRows, activeCols, active, l2g, t);
    if t == u {
      if t < e { RowDiagonal(d, scale, rows, cols, p, activeRows, activeCols, active, l2g, t); }
      else { ColDiagonal(d, scale, rows, cols, p, activeRows, activeCols, active, l2g, t - e); }
    } else if t < e && u >= e {
      CrossCell(d, scale, rows, cols, p, activeRows, activeCols, active, l2g, t, u - e);
    } else if t >= e && u < e {
      CrossCell(d, scale, rows, cols, p, activeRows, activeCols, active, l2g, u, t - e);
      NormalSymmetric(d, scale, l2g[t], l2g[u]);
    } else {
      SameSide(d, scale, rows, cols, p, activeRows, activeCols, active, l2g, t, u);
    }
  }

  lemma SameSide(d: Design, scale: Option<seq<real>>, rows: Channel, cols: Channel, p: PairColumns, activeRows: seq<bool>,
                 activeCols: seq<bool>, active: ActiveLevels, l2g: seq<nat>, t: nat, u: nat)
    requires Accounted(d, scale, rows, cols, p, activeRows, activeCols, active, l2g) && t < |l2g| == active.nRows + active.nCols && u < |l2g|
    requires t != u && (t < active.nRows <==> u < active.nRows)
    ensures Normal(d, scale)(l2g[t], l2g[u]) == 0.0
  {
    hide Normal;
    hide Base;
    hide Places;
    hide Actives;
    var e := active.nRows;
    NodeColumn(d, scale, rows, cols, p, activeRows, activeCols, active, l2g, t);
    NodeColumn(d, scale, rows, cols, p, activeRows, activeCols, active, l2g, u);
    if t < e { IdBound(activeRows, t); } else { IdBound(activeCols, t - e); }
    SameChannel(d, scale, NodeChannel(rows, cols, e, t), NodeLevel(activeRows, activeCols, e, t), NodeLevel(activeRows, activeCols, e, u));
  }
}
