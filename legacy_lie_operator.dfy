/** The older operator of ExpLTH.py: exp(-t:H:) truncated to 1 - t:H:, with both
    gradients of H stored and no identity shortcut, and its chain ProductExpLTH.
    Its sign convention is its own and is kept apart from the LieOperator module. */
module LegacyLieOperator {
  import opened Symbolic
  import opened Outcome
  import LieOperator

  datatype Op = Op(
    variable: Expr,
    hamiltonian: Expr,
    dpHamiltonian: seq<Expr>,
    dqHamiltonian: seq<Expr>,
    positions: seq<string>,
    momenta: seq<string>)

  /** Construction: every free symbol of h, constants included, must be a momentum, or
      every one must be a position. */
  function New(t: Expr, h: Expr, q: seq<string>, p: seq<string>): (r: Result<Op>)
    ensures r.Ok? ==> r.value.variable == t && r.value.hamiltonian == h
    ensures r.Ok? ==> r.value.positions == q && r.value.momenta == p
    ensures r.Ok? ==> |r.value.dpHamiltonian| == |p| && |r.value.dqHamiltonian| == |q|
    ensures r.Ok? ==> forall i :: 0 <= i < |p| ==> r.value.dpHamiltonian[i] == Diff(h, p[i])
    ensures r.Ok? ==> forall i :: 0 <= i < |q| ==> r.value.dqHamiltonian[i] == Diff(h, q[i])
    ensures r.Err? ==> r.error == NotSeparable
  {
    if FreeVars(h) <= Elements(p) || FreeVars(h) <= Elements(q) then
      Ok(Op(t, h, Gradient(h, p), Gradient(h, q), q, p))
    else
      Err(NotSeparable)
  }

  /** An operator as construction leaves it. */
  predicate Valid(op: Op) {
    New(op.variable, op.hamiltonian, op.positions, op.momenta) == Ok(op)
  }

  /** The shape an application needs: position and momentum families of equal length. */
  predicate WellShaped(op: Op) {
    |op.dpHamiltonian| == |op.momenta| == |op.positions| == |op.dqHamiltonian|
  }

  predicate AllWellShaped(terms: seq<Op>) {
    forall i :: 0 <= i < |terms| ==> WellShaped(terms[i])
  }

  /** Application to one expression: F - t * (dH/dq . dF/dp - dH/dp . dF/dq). */
  function ApplyScalar(op: Op, f: Expr): Expr
    requires WellShaped(op)
  {
    Minus(f, Times(op.variable,
      Minus(Dot(op.dqHamiltonian, Gradient(f, op.momenta)),
            Dot(op.dpHamiltonian, Gradient(f, op.positions)))))
  }

  // ---------------------------------------------------------------------------
  // Construction

  /** Construction fails exactly when H has a symbol outside the momenta and a symbol
      outside the positions. */
  lemma NewFailsIff(t: Expr, h: Expr, q: seq<string>, p: seq<string>)
    ensures New(t, h, q, p).Err? <==>
      (exists v :: v in FreeVars(h) && v !in p) && (exists w :: w in FreeVars(h) && w !in q)
  {
    if !(FreeVars(h) <= Elements(p)) {
      var v :| v in FreeVars(h) && v !in Elements(p);
      assert v !in p;
    }
    if !(FreeVars(h) <= Elements(q)) {
      var w :| w in FreeVars(h) && w !in Elements(q);
      assert w !in q;
    }
  }

  /** A symbol in neither family, such as a constant, makes construction fail. */
  lemma ConstantRejected(t: Expr, h: Expr, q: seq<string>, p: seq<string>, c: string)
    requires c in FreeVars(h) && c !in q && c !in p
    ensures New(t, h, q, p) == Err(NotSeparable)
  {
    NewFailsIff(t, h, q, p);
  }

  /** This check is stricter than the one of explth.py: whatever it accepts, that one
      accepts too. */
  lemma StricterThanCurrent(t: Expr, h: Expr, q: seq<string>, p: seq<string>)
    requires |q| == |p|
    ensures New(t, h, q, p).Ok? ==> LieOperator.New(t, h, q, p).Ok?
  {
    var hv := LieOperator.PhaseSpaceVars(h, q, p);
    assert hv <= FreeVars(h);
  }

  /** ... and strictly so: a momentum Hamiltonian with a constant factor beta_0 is
      accepted by explth.py and rejected here. */
  lemma StrictlyStricter()
    ensures New(Sym("t"), Mul(Sym("beta_0"), Sym("p_x")), ["x"], ["p_x"]).Err?
    ensures LieOperator.New(Sym("t"), Mul(Sym("beta_0"), Sym("p_x")), ["x"], ["p_x"]).Ok?
  {
    var h := Mul(Sym("beta_0"), Sym("p_x"));
    ConstantRejected(Sym("t"), h, ["x"], ["p_x"], "beta_0");
    assert LieOperator.PhaseSpaceVars(h, ["x"], ["p_x"]) == {"p_x"};
  }

  // ---------------------------------------------------------------------------
  // Application to expressions

  /** An expression all of whose partials vanish is left unchanged. */
  lemma ApplyScalarConstant(op: Op, f: Expr)
    requires WellShaped(op)
    requires forall i :: 0 <= i < |op.momenta| ==> Diff(f, op.momenta[i]) == Num(0)
    requires forall i :: 0 <= i < |op.positions| ==> Diff(f, op.positions[i]) == Num(0)
    ensures ApplyScalar(op, f) == f
  {
    assert Gradient(f, op.momenta) == Zeros(|op.momenta|);
    assert Gradient(f, op.positions) == Zeros(|op.positions|);
    DotZeros(op.dqHamiltonian);
    DotZeros(op.dpHamiltonian);
  }

  /** In particular an expression that mentions no phase-space variable is unchanged. */
  lemma ApplyScalarUnrelated(op: Op, f: Expr)
    requires WellShaped(op)
    requires forall x :: x in FreeVars(f) ==> x !in op.positions && x !in op.momenta
    ensures ApplyScalar(op, f) == f
  {
    forall i | 0 <= i < |op.momenta|
      ensures Diff(f, op.momenta[i]) == Num(0)
    {
      DiffOfAbsent(f, op.momenta[i]);
    }
    forall i | 0 <= i < |op.positions|
      ensures Diff(f, op.positions[i]) == Num(0)
    {
      DiffOfAbsent(f, op.positions[i]);
    }
    ApplyScalarConstant(op, f);
  }

  /** Hamilton's equations to first order in -t: q_i moves to q_i - t * (-dH/dp_i)
      and p_i to p_i - t * dH/dq_i. */
  lemma ApplyToCoordinates(op: Op, i: nat)
    requires Valid(op) && |op.positions| == |op.momenta| && Disjoint(op.positions, op.momenta)
    requires Distinct(op.positions) && Distinct(op.momenta)
    requires i < |op.positions|
    ensures WellShaped(op)
    ensures ApplyScalar(op, Sym(op.positions[i])) ==
      Minus(Sym(op.positions[i]), Times(op.variable, Negate(Diff(op.hamiltonian, op.momenta[i]))))
    ensures ApplyScalar(op, Sym(op.momenta[i])) ==
      Minus(Sym(op.momenta[i]), Times(op.variable, Diff(op.hamiltonian, op.positions[i])))
  {
    var q, p := op.positions, op.momenta;
    assert q[i] !in p;
    assert p[i] !in q;
    GradientOfSym(q[i], q);
    GradientOfSym(q[i], p);
    GradientOfSym(p[i], q);
    GradientOfSym(p[i], p);
    DotUnit(op.dpHamiltonian, i);
    DotUnit(op.dqHamiltonian, i);
    DotZeros(op.dpHamiltonian);
    DotZeros(op.dqHamiltonian);
  }

  // ---------------------------------------------------------------------------
  // Multiplication

  datatype Target = Scalar(expr: Expr) | Vector(items: seq<Expr>)

  datatype Operand = OnTarget(target: Target) | OnOperator(op: Op) | OnChain(terms: seq<Op>)

  datatype Product = Evaluated(target: Target) | Formal(terms: seq<Op>)

  function ApplyTarget(op: Op, x: Target): Target
    requires WellShaped(op)
  {
    match x
    case Scalar(f) => Scalar(ApplyScalar(op, f))
    case Vector(items) => Vector(seq(|items|, i requires 0 <= i < |items| => ApplyScalar(op, items[i])))
  }

  function OpProduct(op: Op, x: Operand): Product
    requires WellShaped(op) && !x.OnChain?
  {
    match x
    case OnTarget(t) => Evaluated(ApplyTarget(op, t))
    case OnOperator(o) => Formal([op, o])
  }

  /** Operator times operand, building the vector result one element at a time. */
  method Multiply(op: Op, x: Operand) returns (r: Product)
    requires WellShaped(op) && !x.OnChain?
    ensures r == OpProduct(op, x)
    ensures x.OnOperator? ==> r == Formal([op, x.op])
    ensures x.OnTarget? && x.target.Vector? ==>
      r.Evaluated? && r.target.Vector? && |r.target.items| == |x.target.items| &&
      forall i :: 0 <= i < |x.target.items| ==> r.target.items[i] == ApplyScalar(op, x.target.items[i])
  {
    match x
    case OnOperator(o) =>
      r := Formal([op, o]);
    case OnTarget(Scalar(f)) =>
      r := Evaluated(Scalar(ApplyScalar(op, f)));
    case OnTarget(Vector(items)) =>
      var result: seq<Expr> := [];
      for i := 0 to |items|
        invariant |result| == i
        invariant forall j :: 0 <= j < i ==> result[j] == ApplyScalar(op, items[j])
      {
        result := result + [ApplyScalar(op, items[i])];
      }
      assert result == seq(|items|, i requires 0 <= i < |items| => ApplyScalar(op, items[i]));
      r := Evaluated(Vector(result));
  }

  /** A chain acting on a target: the last term acts first. */
  function ChainApply(terms: seq<Op>, x: Target): Target
    requires AllWellShaped(terms)
    decreases |terms|
  {
    if terms == [] then x else ApplyTarget(terms[0], ChainApply(terms[1..], x))
  }

  function ChainProduct(terms: seq<Op>, x: Operand): Product
    requires AllWellShaped(terms)
  {
    match x
    case OnChain(others) => Formal(terms + others)
    case OnOperator(o) => Formal(terms + [o])
    case OnTarget(t) => Evaluated(ChainApply(terms, t))
  }

  /** Chain times operand, folding over the terms from the last to the first. */
  method ChainMultiply(terms: seq<Op>, x: Operand) returns (r: Product)
    requires AllWellShaped(terms)
    ensures r == ChainProduct(terms, x)
  {
    match x
    case OnChain(others) =>
      r := Formal(terms + others);
    case OnOperator(o) =>
      r := Formal(terms + [o]);
    case OnTarget(t) =>
      var result := t;
      var k := |terms|;
      while k > 0
        invariant 0 <= k <= |terms|
        invariant result == ChainApply(terms[k..], t)
      {
        k := k - 1;
        assert terms[k..][1..] == terms[k + 1..];
        var p := Multiply(terms[k], OnTarget(result));
        result := p.target;
      }
      assert terms[0..] == terms;
      r := Evaluated(result);
  }

  /** Applying a concatenation applies the right part first; in particular the last
      term of a chain acts first. */
  lemma {:induction false} ChainApplyConcat(a: seq<Op>, b: seq<Op>, x: Target)
    requires AllWellShaped(a) && AllWellShaped(b)
    ensures AllWellShaped(a + b)
    ensures ChainApply(a + b, x) == ChainApply(a, ChainApply(b, x))
    decreases |a|
  {
    if a != [] {
      assert (a + b)[1..] == a[1..] + b;
      ChainApplyConcat(a[1..], b, x);
    } else {
      assert a + b == b;
    }
  }

  /** Appending an operator and then applying is applying that operator first. */
  lemma ChainAppendApply(terms: seq<Op>, o: Op, x: Target)
    requires AllWellShaped(terms) && WellShaped(o)
    ensures ChainProduct(terms, OnOperator(o)) == Formal(terms + [o])
    ensures AllWellShaped(terms + [o])
    ensures ChainApply(terms + [o], x) == ChainApply(terms, ApplyTarget(o, x))
  {
    ChainApplyConcat(terms, [o], x);
    assert [o][1..] == [];
  }
}
