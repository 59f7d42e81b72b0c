/** The truncated Lie-transform operator exp(t:H:) of a separable Hamiltonian H
    (class ExpLTH of explth.py) and the flat chain of such operators that
    multiplication builds (class ProductExpLTH). */
module LieOperator {
  import opened Symbolic
  import opened Outcome

  /** exp(variable :hamiltonian:).  The last four fields are derived once, at
      construction: which family H is a function of, the conjugate variables an
      operand must mention for the operator to act, and the signed gradient of H. */
  datatype Op = Op(
    variable: Expr,
    hamiltonian: Expr,
    positions: seq<string>,
    momenta: seq<string>,
    positionOnly: bool,
    momentumOnly: bool,
    dependence: set<string>,
    gradient: seq<Expr>)

  /** The symbols of h that are positions or momenta; every other symbol is a constant. */
  function PhaseSpaceVars(h: Expr, q: seq<string>, p: seq<string>): set<string> {
    FreeVars(h) * (Elements(q) + Elements(p))
  }

  /** Construction.  A Hamiltonian of momenta only acts on the positions conjugate to
      the momenta it mentions, with gradient -dH/dp; one of positions only acts on
      the conjugate momenta, with gradient +dH/dq.  The momentum case is tried first,
      so an H without phase-space variables takes it. */
  function New(t: Expr, h: Expr, q: seq<string>, p: seq<string>): (r: Result<Op>)
    requires |q| == |p|
    ensures r.Ok? ==> r.value.variable == t && r.value.hamiltonian == h
    ensures r.Ok? ==> r.value.positions == q && r.value.momenta == p
    ensures r.Err? ==> r.error == NotSeparable
  {
    var hv := PhaseSpaceVars(h, q, p);
    var qOnly := hv <= Elements(q);
    var pOnly := hv <= Elements(p);
    if pOnly then
      Ok(Op(t, h, q, p, qOnly, pOnly,
            set i | 0 <= i < |q| && p[i] in hv :: q[i],
            seq(|p|, i requires 0 <= i < |p| => Negate(Diff(h, p[i])))))
    else if qOnly then
      Ok(Op(t, h, q, p, qOnly, pOnly,
            set i | 0 <= i < |p| && q[i] in hv :: p[i],
            seq(|q|, i requires 0 <= i < |q| => Diff(h, q[i]))))
    else
      Err(NotSeparable)
  }

  /** An operator as construction leaves it. */
  predicate Valid(op: Op) {
    |op.positions| == |op.momenta| &&
    New(op.variable, op.hamiltonian, op.positions, op.momenta) == Ok(op)
  }

  /** The shape an application needs: one gradient entry per conjugate variable. */
  predicate WellShaped(op: Op) {
    |op.gradient| == |op.positions| == |op.momenta|
  }

  predicate AllWellShaped(terms: seq<Op>) {
    forall i :: 0 <= i < |terms| ==> WellShaped(terms[i])
  }

  predicate AllValid(terms: seq<Op>) {
    forall i {:trigger Valid(terms[i])} :: 0 <= i < |terms| ==> Valid(terms[i])
  }

  lemma ValidIsWellShaped(op: Op)
    requires Valid(op)
    ensures WellShaped(op)
  {
  }

  /** The variables an operand is differentiated by: momenta for a position-only H. */
  function DiffVars(op: Op): seq<string> {
    if op.positionOnly then op.momenta else op.positions
  }

  /** The partials of f, kept only for the variables of the active set. */
  function MaskedGradient(f: Expr, vs: seq<string>, active: set<string>): (g: seq<Expr>)
    ensures |g| == |vs|
  {
    seq(|vs|, i requires 0 <= i < |vs| => if vs[i] in active then Diff(f, vs[i]) else Num(0))
  }

  /** Application to one scalar expression: the identity when f mentions no variable
      of the dependence set, and otherwise f + t * (gradient . partials of f), where
      only the partials by variables in that intersection are taken. */
  function ApplyScalar(op: Op, f: Expr): Expr
    requires WellShaped(op)
  {
    var active := FreeVars(f) * op.dependence;
    if active == {} then f
    else Plus(f, Times(op.variable, Dot(op.gradient, MaskedGradient(f, DiffVars(op), active))))
  }

  /** The first-order Lie series with every partial taken and no shortcut. */
  function FirstOrderLie(op: Op, f: Expr): Expr
    requires WellShaped(op)
  {
    Plus(f, Times(op.variable, Dot(op.gradient, Gradient(f, DiffVars(op)))))
  }

  // ---------------------------------------------------------------------------
  // Construction

  /** Construction fails exactly when H's phase-space variables lie in neither family:
      H has a momentum that is not a position and a position that is not a momentum.
      Symbols outside both families play no part. */
  lemma NewFailsIff(t: Expr, h: Expr, q: seq<string>, p: seq<string>)
    requires |q| == |p|
    ensures New(t, h, q, p).Err? <==>
      (exists v :: v in FreeVars(h) && v in p && v !in q) &&
      (exists w :: w in FreeVars(h) && w in q && w !in p)
  {
    var hv := PhaseSpaceVars(h, q, p);
    if !(hv <= Elements(q)) {
      var v :| v in hv && v !in Elements(q);
      assert v in FreeVars(h) && v in p && v !in q;
    }
    if !(hv <= Elements(p)) {
      var w :| w in hv && w !in Elements(p);
      assert w in FreeVars(h) && w in q && w !in p;
    }
    if exists v :: v in FreeVars(h) && v in p && v !in q {
      var v :| v in FreeVars(h) && v in p && v !in q;
      assert v in hv && v !in Elements(q);
    }
    if exists w :: w in FreeVars(h) && w in q && w !in p {
      var w :| w in FreeVars(h) && w in q && w !in p;
      assert w in hv && w !in Elements(p);
    }
  }

  /** A momentum-only Hamiltonian acts on the positions whose conjugate momentum it
      mentions, with one gradient entry -dH/dp per momentum. */
  lemma MomentumOnlyConstruction(t: Expr, h: Expr, q: seq<string>, p: seq<string>)
    requires |q| == |p| && Distinct(q)
    requires New(t, h, q, p).Ok? && New(t, h, q, p).value.momentumOnly
    ensures var op := New(t, h, q, p).value;
      op.dependence <= Elements(q) &&
      (forall i :: 0 <= i < |q| ==> (q[i] in op.dependence <==> p[i] in FreeVars(h))) &&
      |op.gradient| == |p| &&
      (forall i :: 0 <= i < |p| ==> op.gradient[i] == Negate(Diff(h, p[i])))
  {
    var op := New(t, h, q, p).value;
    var hv := PhaseSpaceVars(h, q, p);
    forall i | 0 <= i < |q|
      ensures q[i] in op.dependence <==> p[i] in FreeVars(h)
    {
      if q[i] in op.dependence {
        var j :| 0 <= j < |q| && p[j] in hv && q[j] == q[i];
        assert j == i;
      }
      if p[i] in FreeVars(h) {
        assert p[i] in hv;
      }
    }
  }

  /** A position-only Hamiltonian acts on the momenta whose conjugate position it
      mentions, with one gradient entry +dH/dq per position. */
  lemma PositionOnlyConstruction(t: Expr, h: Expr, q: seq<string>, p: seq<string>)
    requires |q| == |p| && Distinct(p)
    requires New(t, h, q, p).Ok? && !New(t, h, q, p).value.momentumOnly
    ensures var op := New(t, h, q, p).value;
      op.positionOnly &&
      op.dependence <= Elements(p) &&
      (forall i :: 0 <= i < |p| ==> (p[i] in op.dependence <==> q[i] in FreeVars(h))) &&
      |op.gradient| == |q| &&
      (forall i :: 0 <= i < |q| ==> op.gradient[i] == Diff(h, q[i]))
  {
    var op := New(t, h, q, p).value;
    var hv := PhaseSpaceVars(h, q, p);
    forall i | 0 <= i < |p|
      ensures p[i] in op.dependence <==> q[i] in FreeVars(h)
    {
      if p[i] in op.dependence {
        var j :| 0 <= j < |p| && q[j] in hv && p[j] == p[i];
        assert j == i;
      }
      if q[i] in FreeVars(h) {
        assert q[i] in hv;
      }
    }
  }

  /** A gradient entry whose conjugate variable is not in the dependence set is 0. */
  lemma GradientVanishesOffDependence(op: Op, i: nat)
    requires Valid(op) && Disjoint(op.positions, op.momenta)
    requires i < |DiffVars(op)| && DiffVars(op)[i] !in op.dependence
    ensures i < |op.gradient| && op.gradient[i] == Num(0)
  {
    var q, p, h := op.positions, op.momenta, op.hamiltonian;
    var hv := PhaseSpaceVars(h, q, p);
    if hv <= Elements(p) {
      if hv <= Elements(q) {
        assert forall x :: x in hv ==> x in q && x in p;
        assert p[i] !in hv;
      } else {
        assert DiffVars(op)[i] == q[i];
        assert p[i] !in hv;
      }
      DiffOfAbsent(h, p[i]);
    } else {
      assert DiffVars(op)[i] == p[i];
      assert q[i] !in hv;
      DiffOfAbsent(h, q[i]);
    }
  }

  /** A Hamiltonian without phase-space variables builds an operator that leaves every
      expression unchanged. */
  lemma NoPhaseSpaceVarsIsIdentity(t: Expr, h: Expr, q: seq<string>, p: seq<string>, f: Expr)
    requires |q| == |p|
    requires PhaseSpaceVars(h, q, p) == {}
    ensures New(t, h, q, p).Ok?
    ensures New(t, h, q, p).value.momentumOnly && New(t, h, q, p).value.dependence == {}
    ensures ApplyScalar(New(t, h, q, p).value, f) == f
  {
    var op := New(t, h, q, p).value;
    assert op.dependence == {};
  }

  // ---------------------------------------------------------------------------
  // Application to expressions

  /** The identity shortcut and the masking of partials are exact: application equals
      the full first-order Lie series F + t * (gradient . all partials of F). */
  lemma ApplyScalarIsFirstOrderLie(op: Op, f: Expr)
    requires Valid(op) && Disjoint(op.positions, op.momenta)
    ensures ApplyScalar(op, f) == FirstOrderLie(op, f)
  {
    var vs := DiffVars(op);
    var active := FreeVars(f) * op.dependence;
    var full := Gradient(f, vs);
    var masked := MaskedGradient(f, vs, active);
    forall i | 0 <= i < |vs|
      ensures Times(op.gradient[i], masked[i]) == Times(op.gradient[i], full[i])
      ensures active == {} ==> Times(op.gradient[i], full[i]) == Num(0)
    {
      if vs[i] !in FreeVars(f) {
        DiffOfAbsent(f, vs[i]);
      } else if vs[i] !in op.dependence {
        GradientVanishesOffDependence(op, i);
      }
    }
    if active == {} {
      DotOfZeroProducts(op.gradient, full);
    } else {
      DotCongruent(op.gradient, masked, full);
    }
  }

  /** An expression that mentions no variable the operator differentiates by is left
      unchanged. */
  lemma ApplyScalarIdentityOnUnrelated(op: Op, f: Expr)
    requires Valid(op) && Disjoint(op.positions, op.momenta)
    requires forall i :: 0 <= i < |DiffVars(op)| ==> DiffVars(op)[i] !in FreeVars(f)
    ensures ApplyScalar(op, f) == f
  {
    ApplyScalarIsFirstOrderLie(op, f);
    var g := Gradient(f, DiffVars(op));
    forall i | 0 <= i < |g|
      ensures Times(op.gradient[i], g[i]) == Num(0)
    {
      DiffOfAbsent(f, DiffVars(op)[i]);
    }
    DotOfZeroProducts(op.gradient, g);
  }

  /** Under a momentum-only Hamiltonian a position q_i moves to q_i + t * (-dH/dp_i)
      and every momentum stays put. */
  lemma ApplyMomentumOnly(op: Op, i: nat)
    requires Valid(op) && Disjoint(op.positions, op.momenta) && Distinct(op.positions)
    requires op.momentumOnly && i < |op.positions|
    ensures ApplyScalar(op, Sym(op.positions[i])) ==
      Plus(Sym(op.positions[i]), Times(op.variable, Negate(Diff(op.hamiltonian, op.momenta[i]))))
    ensures ApplyScalar(op, Sym(op.momenta[i])) == Sym(op.momenta[i])
  {
    var q, p := op.positions, op.momenta;
    ApplyScalarIsFirstOrderLie(op, Sym(q[i]));
    ApplyScalarIsFirstOrderLie(op, Sym(p[i]));
    assert q[i] !in p;
    assert p[i] !in q;
    GradientOfSym(q[i], q);
    GradientOfSym(q[i], p);
    GradientOfSym(p[i], q);
    if op.positionOnly {
      // Both families then describe H, so H has no phase-space variables at all.
      forall k | 0 <= k < |op.gradient|
        ensures op.gradient[k] == Num(0)
      {
        GradientVanishesOffDependence(op, k);
      }
      DotZeros(op.gradient);
      DotOfZeroProducts(op.gradient, Gradient(Sym(p[i]), p));
      var hv := PhaseSpaceVars(op.hamiltonian, q, p);
      assert forall x :: x in hv ==> x in q && x in p;
      assert p[i] !in hv;
      DiffOfAbsent(op.hamiltonian, p[i]);
    } else {
      DotUnit(op.gradient, i);
      DotZeros(op.gradient);
    }
  }

  /** Under a position-only Hamiltonian a momentum p_i moves to p_i + t * dH/dq_i and
      every position stays put. */
  lemma ApplyPositionOnly(op: Op, i: nat)
    requires Valid(op) && Disjoint(op.positions, op.momenta) && Distinct(op.momenta)
    requires op.positionOnly && !op.momentumOnly && i < |op.momenta|
    ensures ApplyScalar(op, Sym(op.momenta[i])) ==
      Plus(Sym(op.momenta[i]), Times(op.variable, Diff(op.hamiltonian, op.positions[i])))
    ensures ApplyScalar(op, Sym(op.positions[i])) == Sym(op.positions[i])
  {
    var q, p := op.positions, op.momenta;
    ApplyScalarIsFirstOrderLie(op, Sym(p[i]));
    ApplyScalarIsFirstOrderLie(op, Sym(q[i]));
    assert q[i] !in p;
    GradientOfSym(p[i], p);
    GradientOfSym(q[i], p);
    DotUnit(op.gradient, i);
    DotZeros(op.gradient);
  }

  /** A drift H = p_s over positions [x, s] and momenta [p_x, p_s] with step L moves s
      to s - L and leaves x and p_x unchanged. */
  lemma DriftExample()
    ensures New(Sym("L"), Sym("p_s"), ["x", "s"], ["p_x", "p_s"]).Ok?
    ensures var op := New(Sym("L"), Sym("p_s"), ["x", "s"], ["p_x", "p_s"]).value;
      op.dependence == {"s"} &&
      ApplyScalar(op, Sym("s")) == Add(Sym("s"), Mul(Sym("L"), Num(-1))) &&
      ApplyScalar(op, Sym("x")) == Sym("x") &&
      ApplyScalar(op, Sym("p_x")) == Sym("p_x")
  {
    DriftOperator();
    var op := New(Sym("L"), Sym("p_s"), ["x", "s"], ["p_x", "p_s"]).value;
    assert FreeVars(Sym("s")) * op.dependence == {"s"};
    assert MaskedGradient(Sym("s"), ["x", "s"], {"s"}) == [Num(0), Num(1)];
    assert Dot([Num(-1)], [Num(1)]) == Num(-1);
    assert Dot(op.gradient, [Num(0), Num(1)]) == Num(-1) by {
      assert op.gradient[1..] == [Num(-1)] && [Num(0), Num(1)][1..] == [Num(1)];
    }
    assert FreeVars(Sym("x")) * op.dependence == {};
    assert FreeVars(Sym("p_x")) * op.dependence == {};
  }

  /** The drift operator as construction builds it. */
  lemma DriftOperator()
    ensures New(Sym("L"), Sym("p_s"), ["x", "s"], ["p_x", "p_s"]) ==
      Ok(Op(Sym("L"), Sym("p_s"), ["x", "s"], ["p_x", "p_s"], false, true, {"s"}, [Num(0), Num(-1)]))
  {
    var q, p := ["x", "s"], ["p_x", "p_s"];
    assert PhaseSpaceVars(Sym("p_s"), q, p) == {"p_s"};
    assert "p_s" !in Elements(q);
    var op := New(Sym("L"), Sym("p_s"), q, p).value;
    assert op.dependence == {"s"} by {
      assert q[1] in op.dependence;
      forall x | x in op.dependence ensures x == "s" {
        var i :| 0 <= i < 2 && p[i] in {"p_s"} && q[i] == x;
        assert i == 1;
      }
    }
    assert op.gradient == [Num(0), Num(-1)];
  }

  // ---------------------------------------------------------------------------
  // Multiplication of an operator

  /** What an operator acts on: one expression or a vector of them. */
  datatype Target = Scalar(expr: Expr) | Vector(items: seq<Expr>)

  /** The right-hand side of a multiplication. */
  datatype Operand = OnTarget(target: Target) | OnOperator(op: Op) | OnChain(terms: seq<Op>)

  /** The value of a multiplication: an evaluated target, or a formal chain. */
  datatype Product = Evaluated(target: Target) | Formal(terms: seq<Op>)

  function ApplyTarget(op: Op, x: Target): Target
    requires WellShaped(op)
  {
    match x
    case Scalar(f) => Scalar(ApplyScalar(op, f))
    case Vector(items) => Vector(seq(|items|, i requires 0 <= i < |items| => ApplyScalar(op, items[i])))
  }

  /** Operator times operand: element-wise on a vector, formally on an operator. */
  function OpProduct(op: Op, x: Operand): Product
    requires WellShaped(op) && !x.OnChain?
  {
    match x
    case OnTarget(t) => Evaluated(ApplyTarget(op, t))
    case OnOperator(o) => Formal([op, o])
  }

  /** Operator times operand, building the vector result one element at a time. */
  method Multiply(op: Op, x: Operand) returns (r: Product)
    requires WellShaped(op) && !x.OnChain?
    ensures r == OpProduct(op, x)
    ensures x.OnOperator? ==> r == Formal([op, x.op])
    ensures x.OnTarget? && x.target.Vector? ==>
      r.Evaluated? && r.target.Vector? && |r.target.items| == |x.target.items| &&
      forall i :: 0 <= i < |x.target.items| ==> r.target.items[i] == ApplyScalar(op, x.target.items[i])
  {
    match x
    case OnOperator(o) =>
      r := Formal([op, o]);
    case OnTarget(Scalar(f)) =>
      r := Evaluated(Scalar(ApplyScalar(op, f)));
    case OnTarget(Vector(items)) =>
      var result: seq<Expr> := [];
      for i := 0 to |items|
        invariant |result| == i
        invariant forall j :: 0 <= j < i ==> result[j] == ApplyScalar(op, items[j])
      {
        result := result + [ApplyScalar(op, items[i])];
      }
      assert result == seq(|items|, i requires 0 <= i < |items| => ApplyScalar(op, items[i]));
      r := Evaluated(Vector(result));
  }

  /** A copy with a new step variable and the same Hamiltonian and families. */
  function ReplaceVariable(op: Op, v: Expr): (r: Op)
    ensures r.variable == v && r.hamiltonian == op.hamiltonian
    ensures r.positions == op.positions && r.momenta == op.momenta
  {
    op.(variable := v)
  }

  /** For a valid operator the copy is what construction from the new variable, the
      same Hamiltonian and the same families builds, so it is valid too. */
  lemma ReplaceVariableIsRebuild(op: Op, v: Expr)
    requires Valid(op)
    ensures New(v, op.hamiltonian, op.positions, op.momenta) == Ok(ReplaceVariable(op, v))
    ensures Valid(ReplaceVariable(op, v))
  {
  }

  /** Raising an operator to a power: the identity for 0; a positive power multiplies
      the operator by a plain integer, which fails. */
  datatype Exponent = IntExponent(n: int) | NonIntExponent

  datatype Power = Identity | PowerChain(terms: seq<Op>)

  function OpPower(op: Op, e: Exponent): (r: Result<Power>)
    ensures r.Ok? <==> e == IntExponent(0)
    ensures r.Ok? ==> r.value == Identity
    ensures e.NonIntExponent? ==> r == Err(NonIntegerPower)
    ensures e.IntExponent? && e.n < 0 ==> r == Err(NegativePower)
    ensures e.IntExponent? && e.n > 0 ==> r == Err(IntegerOperand)
  {
    match e
    case NonIntExponent => Err(NonIntegerPower)
    case IntExponent(n) =>
      if n < 0 then Err(NegativePower)
      else if n == 0 then Ok(Identity)
      else Err(IntegerOperand)
  }

  // ---------------------------------------------------------------------------
  // Chains

  function Hamiltonians(terms: seq<Op>): (hs: seq<Expr>)
    ensures |hs| == |terms|
  {
    seq(|terms|, i requires 0 <= i < |terms| => terms[i].hamiltonian)
  }

  function Variables(terms: seq<Op>): (vs: seq<Expr>)
    ensures |vs| == |terms|
  {
    seq(|terms|, i requires 0 <= i < |terms| => terms[i].variable)
  }

  /** A chain acting on a target: the last term acts first. */
  function ChainApply(terms: seq<Op>, x: Target): Target
    requires AllWellShaped(terms)
    decreases |terms|
  {
    if terms == [] then x else ApplyTarget(terms[0], ChainApply(terms[1..], x))
  }

  /** Chain times operand: concatenation with a chain, appending of an operator, and
      the right-to-left fold over a target. */
  function ChainProduct(terms: seq<Op>, x: Operand): Product
    requires AllWellShaped(terms)
  {
    match x
    case OnChain(others) => Formal(terms + others)
    case OnOperator(o) => Formal(terms + [o])
    case OnTarget(t) => Evaluated(ChainApply(terms, t))
  }

  /** Chain times operand, folding over the terms from the last to the first. */
  method ChainMultiply(terms: seq<Op>, x: Operand) returns (r: Product)
    requires AllWellShaped(terms)
    ensures r == ChainProduct(terms, x)
  {
    match x
    case OnChain(others) =>
      r := Formal(terms + others);
    case OnOperator(o) =>
      r := Formal(terms + [o]);
    case OnTarget(t) =>
      var result := t;
      var k := |terms|;
      while k > 0
        invariant 0 <= k <= |terms|
        invariant result == ChainApply(terms[k..], t)
      {
        k := k - 1;
        assert terms[k..][1..] == terms[k + 1..];
        var p := Multiply(terms[k], OnTarget(result));
        result := p.target;
      }
      assert terms[0..] == terms;
      r := Evaluated(result);
  }

  /** Applying a concatenation applies the right part first. */
  lemma {:induction false} ChainApplyConcat(a: seq<Op>, b: seq<Op>, x: Target)
    requires AllWellShaped(a) && AllWellShaped(b)
    ensures AllWellShaped(a + b)
    ensures ChainApply(a + b, x) == ChainApply(a, ChainApply(b, x))
    decreases |a|
  {
    if a != [] {
      assert (a + b)[1..] == a[1..] + b;
      ChainApplyConcat(a[1..], b, x);
    } else {
      assert a + b == b;
    }
  }

  /** (A * B) * x equals A * (B * x). */
  lemma TwoOperatorsApply(a: Op, b: Op, x: Target)
    requires WellShaped(a) && WellShaped(b)
    ensures OpProduct(a, OnOperator(b)) == Formal([a, b])
    ensures ChainApply([a, b], x) == ApplyTarget(a, ApplyTarget(b, x))
  {
    assert [a, b][1..] == [b];
    assert [b][1..] == [];
    assert ChainApply([b], x) == ApplyTarget(b, x);
  }

  /** Multiplying chains is associative with application: (a * b) * x == a * (b * x). */
  lemma ChainProductAssociates(a: seq<Op>, b: seq<Op>, x: Target)
    requires AllWellShaped(a) && AllWellShaped(b)
    ensures AllWellShaped(a + b)
    ensures ChainProduct(a, OnChain(b)) == Formal(a + b)
    ensures ChainProduct(a + b, OnTarget(x)) == ChainProduct(a, OnTarget(ChainApply(b, x)))
  {
    ChainApplyConcat(a, b, x);
  }

  /** A chain acts on a vector element by element. */
  lemma {:induction false} ChainApplyElementwise(terms: seq<Op>, items: seq<Expr>)
    requires AllWellShaped(terms)
    ensures ChainApply(terms, Vector(items)).Vector?
    ensures |ChainApply(terms, Vector(items)).items| == |items|
    ensures forall i :: 0 <= i < |items| ==>
      ChainApply(terms, Scalar(items[i])) == Scalar(ChainApply(terms, Vector(items)).items[i])
    decreases |terms|
  {
    if terms != [] {
      ChainApplyElementwise(terms[1..], items);
      forall i | 0 <= i < |items|
        ensures ChainApply(terms[1..], Scalar(items[i])).Scalar?
      {
        ScalarStaysScalar(terms[1..], items[i]);
      }
    }
  }

  lemma {:induction false} ScalarStaysScalar(terms: seq<Op>, f: Expr)
    requires AllWellShaped(terms)
    ensures ChainApply(terms, Scalar(f)).Scalar?
    decreases |terms|
  {
    if terms != [] {
      ScalarStaysScalar(terms[1..], f);
    }
  }

  /** A copy of the chain in which every term has the new step variable; length, order,
      Hamiltonians and validity are kept. */
  function ChainReplaceVariable(terms: seq<Op>, v: Expr): (r: seq<Op>)
    ensures |r| == |terms|
    ensures forall i {:trigger r[i]} :: 0 <= i < |terms| ==>
      (r[i].variable == v && r[i].positions == terms[i].positions && r[i].momenta == terms[i].momenta)
  {
    seq(|terms|, i requires 0 <= i < |terms| => ReplaceVariable(terms[i], v))
  }

  /** The copy keeps the Hamiltonians in order. */
  lemma ChainReplaceVariableHamiltonians(terms: seq<Op>, v: Expr)
    ensures Hamiltonians(ChainReplaceVariable(terms, v)) == Hamiltonians(terms)
  {
  }

  /** Copies of valid operators are valid. */
  lemma ChainReplaceVariableKeepsValid(terms: seq<Op>, v: Expr)
    requires AllValid(terms)
    ensures AllValid(ChainReplaceVariable(terms, v))
  {
    var r := ChainReplaceVariable(terms, v);
    forall i | 0 <= i < |r|
      ensures Valid(r[i])
    {
      assert r[i] == ReplaceVariable(terms[i], v);
      ReplaceVariableIsRebuild(terms[i], v);
    }
  }

  /** Python's list repetition: n copies of s, one after another. */
  function Repeat<T>(s: seq<T>, n: nat): seq<T> {
    if n == 0 then [] else s + Repeat(s, n - 1)
  }

  lemma {:induction false} RepeatLength<T>(s: seq<T>, n: nat)
    ensures |Repeat(s, n)| == n * |s|
  {
    if n > 0 {
      RepeatLength(s, n - 1);
    }
  }

  /** A repetition starts with s and repeats itself every |s| entries. */
  lemma {:induction false} RepeatPeriodic<T>(s: seq<T>, n: nat, i: nat)
    requires i < |Repeat(s, n)|
    ensures i < |s| ==> Repeat(s, n)[i] == s[i]
    ensures i >= |s| ==> Repeat(s, n)[i] == Repeat(s, n)[i - |s|]
  {
    if i >= |s| && i - |s| >= |s| {
      RepeatPeriodic(s, n - 1, i - |s|);
    }
  }

  lemma {:induction false} RepeatAdd<T>(s: seq<T>, a: nat, b: nat)
    ensures Repeat(s, a + b) == Repeat(s, a) + Repeat(s, b)
  {
    if a > 0 {
      RepeatAdd(s, a - 1, b);
      assert a + b - 1 == (a - 1) + b;
    }
  }

  /** Raising a chain to a power: the identity for 0, and for n > 0 the chain whose
      terms are the original terms n times over, in order. */
  function ChainPower(terms: seq<Op>, e: Exponent): (r: Result<Power>)
    ensures e.NonIntExponent? ==> r == Err(NonIntegerPower)
    ensures e.IntExponent? && e.n < 0 ==> r == Err(NegativePower)
    ensures e == IntExponent(0) ==> r == Ok(Identity)
    ensures e.IntExponent? && e.n > 0 ==>
      r.Ok? && r.value.PowerChain? && |r.value.terms| == e.n * |terms| &&
      (forall i :: 0 <= i < |terms| ==> r.value.terms[i] == terms[i]) &&
      (forall i :: |terms| <= i < |r.value.terms| ==> r.value.terms[i] == r.value.terms[i - |terms|])
  {
    match e
    case NonIntExponent => Err(NonIntegerPower)
    case IntExponent(n) =>
      if n < 0 then Err(NegativePower)
      else if n == 0 then Ok(Identity)
      else
        RepeatLength(terms, n);
        assert forall i :: 0 <= i < |Repeat(terms, n)| ==>
          (i < |terms| ==> Repeat(terms, n)[i] == terms[i]) &&
          (i >= |terms| ==> Repeat(terms, n)[i] == Repeat(terms, n)[i - |terms|]) by {
          forall i | 0 <= i < |Repeat(terms, n)|
            ensures i < |terms| ==> Repeat(terms, n)[i] == terms[i]
            ensures i >= |terms| ==> Repeat(terms, n)[i] == Repeat(terms, n)[i - |terms|]
          {
            RepeatPeriodic(terms, n, i);
          }
        }
        Ok(PowerChain(Repeat(terms, n)))
  }

  /** chain ** 2 is chain * chain. */
  lemma ChainPowerTwo(terms: seq<Op>)
    requires AllWellShaped(terms)
    ensures ChainPower(terms, IntExponent(2)) == Ok(PowerChain(ChainProduct(terms, OnChain(terms)).terms))
  {
    assert Repeat(terms, 1) == terms + [];
    assert terms + [] == terms;
  }

  /** n applications of a chain, one after the other. */
  function Iterate(terms: seq<Op>, n: nat, x: Target): Target
    requires AllWellShaped(terms)
  {
    if n == 0 then x else ChainApply(terms, Iterate(terms, n - 1, x))
  }

  /** chain ** n acting on a target applies the chain n times. */
  lemma {:induction false} ChainPowerApply(terms: seq<Op>, n: nat, x: Target)
    requires AllWellShaped(terms) && n > 0
    ensures ChainPower(terms, IntExponent(n)).Ok?
    ensures AllWellShaped(ChainPower(terms, IntExponent(n)).value.terms)
    ensures ChainApply(ChainPower(terms, IntExponent(n)).value.terms, x) == Iterate(terms, n, x)
  {
    RepeatAllWellShaped(terms, n);
    RepeatApply(terms, n, x);
  }

  lemma {:induction false} RepeatAllWellShaped(terms: seq<Op>, n: nat)
    requires AllWellShaped(terms)
    ensures AllWellShaped(Repeat(terms, n))
  {
    if n > 0 {
      RepeatAllWellShaped(terms, n - 1);
      ChainApplyConcat(terms, Repeat(terms, n - 1), Scalar(Num(0)));
    }
  }

  lemma {:induction false} RepeatApply(terms: seq<Op>, n: nat, x: Target)
    requires AllWellShaped(terms)
    ensures AllWellShaped(Repeat(terms, n))
    ensures ChainApply(Repeat(terms, n), x) == Iterate(terms, n, x)
  {
    RepeatAllWellShaped(terms, n);
    if n > 0 {
      RepeatAllWellShaped(terms, n - 1);
      RepeatApply(terms, n - 1, x);
      ChainApplyConcat(terms, Repeat(terms, n - 1), x);
    }
  }
}
