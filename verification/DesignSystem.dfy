/** The design operator is an instance of what the iterative solver assumes of `A`
    (crates/within/src/operator/design.rs:88-124). */
module DesignSystem {
  import opened Wrappers
  import opened Sums
  import opened Elimination
  import opened Vectors
  import opened Bidiagonal
  import opened DesignOperator

  /** The first `n` entries of a vector function. */
  ghost function Listed(n: nat, f: Vec): (s: seq<real>)
    ensures |s| == n && forall i :: 0 <= i < n ==> s[i] == f(i)
  {
    seq(n, i requires 0 <= i < n => f(i))
  }

  ghost function SystemOf(d: Design, scale: Option<seq<real>>, precond: seq<real> -> seq<real>): System {
    System(d.nObs, d.nDofs,
           x => Listed(d.nObs, MulVec(d.nDofs, Matrix(d, scale), At(x))),
           y => Listed(d.nDofs, VecMul(d.nObs, At(y), Matrix(d, scale))),
           precond)
  }

  lemma ApplyLinear(d: Design, scale: Option<seq<real>>, precond: seq<real> -> seq<real>)
    ensures IsLinear(SystemOf(d, scale, precond).apply, d.nDofs, d.nObs)
  {
    hide Dot;
    hide Matrix;
    var m, f := Matrix(d, scale), SystemOf(d, scale, precond).apply;
    forall a, x, b, y | |x| == d.nDofs && |y| == d.nDofs ensures LinearAt(f, d.nObs, a, x, b, y) {
      forall i | 0 <= i < d.nObs ensures f(Comb(a, x, b, y))[i] == Comb(a, f(x), b, f(y))[i] {
        DotComb(d.nDofs, RowOf(m, i), a, x, b, y);
      }
    }
  }

  lemma AdjointLinear(d: Design, scale: Option<seq<real>>, precond: seq<real> -> seq<real>)
    ensures IsLinear(SystemOf(d, scale, precond).adjoint, d.nObs, d.nDofs)
  {
    hide Dot;
    hide Matrix;
    var m, f := Matrix(d, scale), SystemOf(d, scale, precond).adjoint;
    forall a, x, b, y | |x| == d.nObs && |y| == d.nObs ensures LinearAt(f, d.nDofs, a, x, b, y) {
      forall j | 0 <= j < d.nDofs ensures f(Comb(a, x, b, y))[j] == Comb(a, f(x), b, f(y))[j] {
        DotComb(d.nObs, ColOf(m, j), a, x, b, y);
        DotComm(d.nObs, At(Comb(a, x, b, y)), ColOf(m, j));
        DotComm(d.nObs, At(x), ColOf(m, j));
        DotComm(d.nObs, At(y), ColOf(m, j));
      }
    }
  }

  /** Gather and scatter form a linear operator and its adjoint; with a linear, symmetric
      preconditioner of nonnegative energy the iterative solver's requirements are met. */
  lemma DesignOperators(d: Design, scale: Option<seq<real>>, precond: seq<real> -> seq<real>)
    requires IsLinear(precond, d.nDofs, d.nDofs) && IsSemidefinite(SystemOf(d, scale, precond))
    ensures Operators(SystemOf(d, scale, precond))
  {
    hide Dot;
    hide Matrix;
    var sys := SystemOf(d, scale, precond);
    ApplyLinear(d, scale, precond);
    AdjointLinear(d, scale, precond);
    forall x, y | |x| == sys.n && |y| == sys.m ensures AdjointAt(sys, x, y) {
      var dx, dty := sys.apply(x), sys.adjoint(y);
      Adjoint(d, scale, x, y, dx, dty);
      InnerComm(dx, y);
      InnerComm(x, dty);
    }
  }
}
