/** The order raiser of integrator.py: from an integrator chain of even order it builds,
    two orders at a time, the symmetric triple composition of Yoshida. */
module Yoshida {
  import opened Symbolic
  import opened Outcome
  import opened LieOperator

  /** The coefficients x_0(n) = -2^(1/(n+1)) / (2 - 2^(1/(n+1))) and
      x_1(n) = 1 / (2 - 2^(1/(n+1))), kept as symbolic stand-ins for floating point. */
  function X0(n: int): Expr {
    Opaque("x_0", [Num(n)])
  }

  function X1(n: int): Expr {
    Opaque("x_1", [Num(n)])
  }

  /** One pass at order n, the body of the order raiser's loop: the chain copied with
      every step replaced by x_1(n)*tau, then by x_0(n)*tau, then again by x_1(n)*tau,
      the three copies multiplied as chains (concatenated in that order). */
  function TripleStep(c: seq<Op>, n: int, tau: Expr): seq<Op> {
    ChainReplaceVariable(c, Times(X1(n), tau)) +
    ChainReplaceVariable(c, Times(X0(n), tau)) +
    ChainReplaceVariable(c, Times(X1(n), tau))
  }

  /** The order n at which pass j (counting from 0) runs: n0, n0 + 2, n0 + 4, ... */
  function PassOrder(n0: int, j: int): int {
    n0 + 2 * j
  }

  /** The chain after k passes starting from order n0. */
  function Raise(c: seq<Op>, n0: int, tau: Expr, k: nat): seq<Op> {
    if k == 0 then c else TripleStep(Raise(c, n0, tau, k - 1), PassOrder(n0, k - 1), tau)
  }

  /** The number of values of range(n0, n0 + increase, 2). */
  function Iterations(increase: int): nat {
    if increase > 0 then (increase + 1) / 2 else 0
  }

  function Pow3(k: nat): nat {
    if k == 0 then 1 else 3 * Pow3(k - 1)
  }

  predicate Palindrome<T(==)>(s: seq<T>) {
    forall i :: 0 <= i < |s| ==> s[i] == s[|s| - 1 - i]
  }

  datatype Output = Final(chain: seq<Op>) | Every(chains: seq<seq<Op>>)

  /** Validation first: a zero or odd increase, or an odd starting order, is an error.
      Then one pass per even order n in [prevOrder, prevOrder + increase), where the
      pass at order 0 fails on its coefficients.  With retAll the input and the chain
      after every pass are returned. */
  method GetYoshidaIntegrator(prev: seq<Op>, prevOrder: int, tau: Expr, increase: int, retAll: bool)
    returns (r: Result<Output>)
    ensures r.Err? <==>
      (increase == 0 || increase % 2 != 0 || prevOrder % 2 != 0 || prevOrder <= 0 < prevOrder + increase)
    ensures increase == 0 || increase % 2 != 0 || prevOrder % 2 != 0 ==> r == Err(OddOrder)
    ensures r.Err? && r.error != OddOrder ==> r.error == ZeroDivision
    ensures r.Ok? && !retAll ==> r.value == Final(Raise(prev, prevOrder, tau, Iterations(increase)))
    ensures r.Ok? && increase < 0 && !retAll ==> r.value == Final(prev)
    ensures r.Ok? && retAll ==>
      r.value.Every? && |r.value.chains| == Iterations(increase) + 1 &&
      r.value.chains[0] == prev &&
      (forall k :: 0 <= k < |r.value.chains| ==> r.value.chains[k] == Raise(prev, prevOrder, tau, k)) &&
      (forall k :: 0 < k < |r.value.chains| ==> |r.value.chains[k]| == 3 * |r.value.chains[k - 1]|)
  {
    if increase == 0 || increase % 2 != 0 || prevOrder % 2 != 0 {
      return Err(OddOrder);
    }
    var ret: seq<seq<Op>> := [];
    if retAll {
      ret := [prev];
    }
    var integrator := prev;
    var n := prevOrder;
    ghost var k: nat := 0;
    while n < increase + prevOrder
      invariant n == PassOrder(prevOrder, k)
      invariant forall j :: 0 <= j < k ==> PassOrder(prevOrder, j) != 0
      invariant k <= Iterations(increase)
      invariant integrator == Raise(prev, prevOrder, tau, k)
      invariant retAll ==> |ret| == k + 1
      invariant retAll ==> forall j :: 0 <= j <= k ==> ret[j] == Raise(prev, prevOrder, tau, j)
      decreases increase + prevOrder - n
    {
      // The pass first computes its coefficients.  n is even, so n + 1 never vanishes,
      // but 2 - 2^(1/(n+1)) does at n = 0.
      if n == 0 {
        ZeroPassIff(prevOrder, increase);
        return Err(ZeroDivision);
      }
      RaiseNext(prev, prevOrder, tau, k);
      integrator := TripleStep(integrator, n, tau);
      if retAll {
        ghost var earlier := ret;
        ret := ret + [integrator];
        forall j | 0 <= j <= k + 1
          ensures ret[j] == Raise(prev, prevOrder, tau, j)
        {
          if j <= k {
            assert ret[j] == earlier[j];
          }
        }
      }
      n := n + 2;
      k := k + 1;
    }
    PassCount(increase, k);
    ZeroPassIff(prevOrder, increase);
    if retAll {
      EveryTriples(prev, prevOrder, tau, ret);
      r := Ok(Every(ret));
    } else {
      r := Ok(Final(integrator));
    }
  }

  /** In the list of every chain, each is three times as long as the one before. */
  lemma EveryTriples(prev: seq<Op>, prevOrder: int, tau: Expr, ret: seq<seq<Op>>)
    requires forall j :: 0 <= j < |ret| ==> ret[j] == Raise(prev, prevOrder, tau, j)
    ensures forall j :: 0 < j < |ret| ==> |ret[j]| == 3 * |ret[j - 1]|
  {
    forall j | 0 < j < |ret|
      ensures |ret[j]| == 3 * |ret[j - 1]|
    {
      RaiseTriples(prev, prevOrder, tau, j - 1);
    }
  }

  /** The loop stops after exactly Iterations(increase) passes. */
  lemma PassCount(increase: int, k: nat)
    requires increase % 2 == 0
    requires k <= Iterations(increase) && increase <= 2 * k
    ensures k == Iterations(increase)
  {
  }

  /** The order-0 pass, the one whose coefficients divide by zero, is among the passes
      exactly when the orders [prevOrder, prevOrder + increase) straddle 0. */
  lemma {:induction false} ZeroPassIff(prevOrder: int, increase: int)
    requires prevOrder % 2 == 0 && increase % 2 == 0
    ensures (exists j :: 0 <= j < Iterations(increase) && PassOrder(prevOrder, j) == 0) <==>
      prevOrder <= 0 < prevOrder + increase
  {
    if prevOrder <= 0 < prevOrder + increase {
      var j := -prevOrder / 2;
      assert PassOrder(prevOrder, j) == 0;
    }
  }

  // ---------------------------------------------------------------------------
  // One pass

  lemma HamiltoniansConcat(a: seq<Op>, b: seq<Op>)
    ensures Hamiltonians(a + b) == Hamiltonians(a) + Hamiltonians(b)
  {
  }

  /** A pass yields three blocks, each as long as its input. */
  lemma TripleStepLength(c: seq<Op>, n: int, tau: Expr)
    ensures |TripleStep(c, n, tau)| == 3 * |c|
  {
  }

  /** Each block has the input's Hamiltonians in order. */
  lemma TripleStepHamiltonians(c: seq<Op>, n: int, tau: Expr)
    ensures Hamiltonians(TripleStep(c, n, tau)) == Hamiltonians(c) + Hamiltonians(c) + Hamiltonians(c)
  {
    var a := ChainReplaceVariable(c, Times(X1(n), tau));
    var b := ChainReplaceVariable(c, Times(X0(n), tau));
    ChainReplaceVariableHamiltonians(c, Times(X1(n), tau));
    ChainReplaceVariableHamiltonians(c, Times(X0(n), tau));
    HamiltoniansConcat(a, b);
    HamiltoniansConcat(a + b, a);
  }

  /** The steps are x_1*tau, x_0*tau and x_1*tau, block by block. */
  lemma TripleStepVariables(c: seq<Op>, n: int, tau: Expr)
    ensures |TripleStep(c, n, tau)| == 3 * |c|
    ensures forall i :: 0 <= i < |TripleStep(c, n, tau)| ==>
      TripleStep(c, n, tau)[i].variable ==
        (if i < |c| || 2 * |c| <= i then Times(X1(n), tau) else Times(X0(n), tau))
  {
  }

  // ---------------------------------------------------------------------------
  // All passes

  /** Every pass triples the length: 3^k * m terms after k passes. */
  lemma {:induction false} RaiseLength(c: seq<Op>, n0: int, tau: Expr, k: nat)
    ensures |Raise(c, n0, tau, k)| == Pow3(k) * |c|
  {
    if k > 0 {
      var j := k - 1;
      var m := |c|;
      RaiseLength(c, n0, tau, j);
      RaiseNext(c, n0, tau, j);
      TripleStepLength(Raise(c, n0, tau, j), PassOrder(n0, j), tau);
      Pow3Times(j, m);
    }
  }

  lemma Pow3Times(j: nat, m: nat)
    ensures Pow3(j + 1) * m == 3 * (Pow3(j) * m)
  {
    var p := Pow3(j);
    assert Pow3(j + 1) * m == (3 * p) * m == 3 * (p * m);
  }

  /** After k passes the Hamiltonians are the input's, repeated 3^k times in order. */
  lemma {:induction false} RaiseHamiltonians(c: seq<Op>, n0: int, tau: Expr, k: nat)
    ensures Hamiltonians(Raise(c, n0, tau, k)) == Repeat(Hamiltonians(c), Pow3(k))
  {
    if k == 0 {
      assert Repeat(Hamiltonians(c), 1) == Hamiltonians(c) + [];
    } else {
      RaiseHamiltonians(c, n0, tau, k - 1);
      RaiseHamiltoniansNext(c, n0, tau, k - 1);
    }
  }

  lemma RaiseHamiltoniansNext(c: seq<Op>, n0: int, tau: Expr, j: nat)
    requires Hamiltonians(Raise(c, n0, tau, j)) == Repeat(Hamiltonians(c), Pow3(j))
    ensures Hamiltonians(Raise(c, n0, tau, j + 1)) == Repeat(Hamiltonians(c), Pow3(j + 1))
  {
    RaiseNext(c, n0, tau, j);
    TripleStepHamiltonians(Raise(c, n0, tau, j), PassOrder(n0, j), tau);
    RepeatThrice(Hamiltonians(c), Pow3(j));
  }

  lemma RepeatThrice<T>(s: seq<T>, p: nat)
    ensures Repeat(s, 3 * p) == Repeat(s, p) + Repeat(s, p) + Repeat(s, p)
  {
    RepeatAdd(s, p, p);
    RepeatAdd(s, p + p, p);
    assert 3 * p == p + p + p;
  }

  /** After at least one pass the steps form three equal blocks x_1*tau, x_0*tau,
      x_1*tau for the order of the last pass, so they read the same backwards. */
  lemma RaiseBlocks(c: seq<Op>, n0: int, tau: Expr, k: nat)
    requires k > 0
    ensures var m, n := |Raise(c, n0, tau, k - 1)|, PassOrder(n0, k - 1);
      |Raise(c, n0, tau, k)| == 3 * m &&
      forall i :: 0 <= i < 3 * m ==>
        Raise(c, n0, tau, k)[i].variable ==
          (if i < m || 2 * m <= i then Times(X1(n), tau) else Times(X0(n), tau))
    ensures Palindrome(Variables(Raise(c, n0, tau, k)))
  {
    var d := Raise(c, n0, tau, k - 1);
    var n := PassOrder(n0, k - 1);
    TripleStepVariables(d, n, tau);
  }

  lemma RaiseNext(c: seq<Op>, n0: int, tau: Expr, k: nat)
    ensures Raise(c, n0, tau, k + 1) == TripleStep(Raise(c, n0, tau, k), PassOrder(n0, k), tau)
  {
  }

  /** Each pass triples the length of the chain before it. */
  lemma RaiseTriples(c: seq<Op>, n0: int, tau: Expr, k: nat)
    ensures |Raise(c, n0, tau, k + 1)| == 3 * |Raise(c, n0, tau, k)|
  {
    RaiseNext(c, n0, tau, k);
    TripleStepLength(Raise(c, n0, tau, k), PassOrder(n0, k), tau);
  }

  /** All passes keep every term valid. */
  lemma {:induction false} RaiseKeepsValid(c: seq<Op>, n0: int, tau: Expr, k: nat)
    requires AllValid(c)
    ensures AllValid(Raise(c, n0, tau, k))
  {
    if k > 0 {
      var j := k - 1;
      RaiseKeepsValid(c, n0, tau, j);
      RaiseNext(c, n0, tau, j);
      TripleStepKeepsValid(Raise(c, n0, tau, j), PassOrder(n0, j), tau);
    }
  }

  lemma AllValidConcat(a: seq<Op>, b: seq<Op>)
    requires AllValid(a) && AllValid(b)
    ensures AllValid(a + b)
  {
    forall i | 0 <= i < |a + b|
      ensures Valid((a + b)[i])
    {
      if i < |a| {
        assert (a + b)[i] == a[i];
      } else {
        assert (a + b)[i] == b[i - |a|];
      }
    }
  }

  /** A pass keeps every term valid. */
  lemma TripleStepKeepsValid(c: seq<Op>, n: int, tau: Expr)
    requires AllValid(c)
    ensures AllValid(TripleStep(c, n, tau))
  {
    var a := ChainReplaceVariable(c, Times(X1(n), tau));
    var b := ChainReplaceVariable(c, Times(X0(n), tau));
    ChainReplaceVariableKeepsValid(c, Times(X1(n), tau));
    ChainReplaceVariableKeepsValid(c, Times(X0(n), tau));
    AllValidConcat(a, b);
    AllValidConcat(a + b, a);
  }

  // ---------------------------------------------------------------------------
  // Replacing versus rescaling the step

  /** As written, a pass forgets the input's own steps: two chains that differ only in
      their step variables give the same result. */
  lemma AsWrittenForgetsSteps(c: seq<Op>, d: seq<Op>, n: int, tau: Expr)
    requires |c| == |d|
    requires forall i :: 0 <= i < |c| ==> c[i].(variable := Num(0)) == d[i].(variable := Num(0))
    ensures TripleStep(c, n, tau) == TripleStep(d, n, tau)
  {
    assert ChainReplaceVariable(c, Times(X1(n), tau)) == ChainReplaceVariable(d, Times(X1(n), tau));
    assert ChainReplaceVariable(c, Times(X0(n), tau)) == ChainReplaceVariable(d, Times(X0(n), tau));
  }

  /** The copy of a chain at a rescaled step: every term keeps its own step with tau
      replaced by factor*tau, so a step without tau is kept and a step a*tau becomes
      a*(factor*tau). */
  function RescaleChain(c: seq<Op>, tau: string, factor: Expr): (r: seq<Op>)
    ensures |r| == |c| && Hamiltonians(r) == Hamiltonians(c)
    ensures forall i :: 0 <= i < |c| && tau !in FreeVars(c[i].variable) ==>
      r[i].variable == c[i].variable
    ensures forall i, a :: 0 <= i < |c| && c[i].variable == Mul(a, Sym(tau)) && tau !in FreeVars(a) ==>
      r[i].variable == Mul(a, Times(factor, Sym(tau)))
  {
    var r := seq(|c|, i requires 0 <= i < |c| =>
      ReplaceVariable(c[i], Subst(c[i].variable, tau, Times(factor, Sym(tau)))));
    forall i | 0 <= i < |c| && tau !in FreeVars(c[i].variable)
      ensures r[i].variable == c[i].variable
    {
      SubstOfAbsent(c[i].variable, tau, Times(factor, Sym(tau)));
    }
    forall i, a | 0 <= i < |c| && c[i].variable == Mul(a, Sym(tau)) && tau !in FreeVars(a)
      ensures r[i].variable == Mul(a, Times(factor, Sym(tau)))
    {
      SubstOfAbsent(a, tau, Times(factor, Sym(tau)));
      assert Subst(Sym(tau), tau, Times(factor, Sym(tau))) == Times(factor, Sym(tau));
      assert Subst(c[i].variable, tau, Times(factor, Sym(tau))) == Mul(a, Times(factor, Sym(tau)));
    }
    r
  }

  /** The evidently intended pass: S(x_1 tau) S(x_0 tau) S(x_1 tau) for the input S.
      A step that does not mention tau is kept in every block, and a step a*tau becomes
      a*(x*tau) with the block's coefficient x. */
  function TripleStepRescaled(c: seq<Op>, n: int, tau: string): (r: seq<Op>)
    ensures |r| == 3 * |c|
    ensures Hamiltonians(r) == Hamiltonians(c) + Hamiltonians(c) + Hamiltonians(c)
    ensures forall i :: 0 <= i < |c| && tau !in FreeVars(c[i].variable) ==>
      r[i].variable == c[i].variable && r[|c| + i].variable == c[i].variable &&
      r[2 * |c| + i].variable == c[i].variable
    ensures forall i, a :: 0 <= i < |c| && c[i].variable == Mul(a, Sym(tau)) && tau !in FreeVars(a) ==>
      r[i].variable == Mul(a, Times(X1(n), Sym(tau))) &&
      r[|c| + i].variable == Mul(a, Times(X0(n), Sym(tau))) &&
      r[2 * |c| + i].variable == Mul(a, Times(X1(n), Sym(tau)))
  {
    var a := RescaleChain(c, tau, X1(n));
    var b := RescaleChain(c, tau, X0(n));
    HamiltoniansConcat(a, b);
    HamiltoniansConcat(a + b, a);
    assert forall i :: 0 <= i < |c| ==>
      (a + b + a)[i] == a[i] && (a + b + a)[|c| + i] == b[i] && (a + b + a)[2 * |c| + i] == a[i];
    a + b + a
  }

  /** Where every step is tau itself, replacing and rescaling agree. */
  lemma RescaledAgreesOnUniformSteps(c: seq<Op>, n: int, tau: string)
    requires forall i :: 0 <= i < |c| ==> c[i].variable == Sym(tau)
    ensures TripleStepRescaled(c, n, tau) == TripleStep(c, n, Sym(tau))
  {
    assert RescaleChain(c, tau, X1(n)) == ChainReplaceVariable(c, Times(X1(n), Sym(tau)));
    assert RescaleChain(c, tau, X0(n)) == ChainReplaceVariable(c, Times(X0(n), Sym(tau)));
  }

  /** A gauge term exp(1 :H:), whose step is not a time step, shows the difference: as
      written its copies get step x_1*tau; rescaled they keep step 1. */
  lemma GaugeStepLost(a: Op, n: int, tau: string)
    ensures TripleStep([a.(variable := Num(1))], n, Sym(tau))[0].variable == Times(X1(n), Sym(tau))
    ensures Times(X1(n), Sym(tau)) != Num(1)
    ensures TripleStepRescaled([a.(variable := Num(1))], n, tau)[0].variable == Num(1)
  {
    var c := [a.(variable := Num(1))];
    TripleStepVariables(c, n, Sym(tau));
    assert Times(X1(n), Sym(tau)) == Mul(X1(n), Sym(tau));
  }

  /** The order raiser with the rescaling pass: k passes from order n0. */
  function RaiseRescaled(c: seq<Op>, n0: int, tau: string, k: nat): seq<Op> {
    if k == 0 then c else TripleStepRescaled(RaiseRescaled(c, n0, tau, k - 1), PassOrder(n0, k - 1), tau)
  }

  /** With rescaling the length still triples and the Hamiltonians still repeat 3^k
      times in order. */
  lemma {:induction false} RaiseRescaledShape(c: seq<Op>, n0: int, tau: string, k: nat)
    ensures |RaiseRescaled(c, n0, tau, k)| == Pow3(k) * |c|
    ensures Hamiltonians(RaiseRescaled(c, n0, tau, k)) == Repeat(Hamiltonians(c), Pow3(k))
  {
    if k == 0 {
      assert Repeat(Hamiltonians(c), 1) == Hamiltonians(c) + [];
    } else {
      RaiseRescaledShape(c, n0, tau, k - 1);
      Pow3Times(k - 1, |c|);
      RepeatThrice(Hamiltonians(c), Pow3(k - 1));
    }
  }
}
