/** The slice of a symbolic-expression engine that the Lie-transform operators use:
    free symbols, partial derivatives, dot products and substitution.  Symbols are
    named by strings.  The engine's automatic evaluation is modelled only as far as
    absorbing zeros and ones when sums, products and negations are built. */
module Symbolic {

  datatype Expr =
    | Sym(name: string)
    | Num(value: int)
    | Add(left: Expr, right: Expr)
    | Mul(left: Expr, right: Expr)
    | Neg(arg: Expr)
      /** An application of an undefined function, such as a vector potential a_s(x, y, s). */
    | Opaque(head: string, args: seq<Expr>)
      /** An unevaluated partial derivative, produced by differentiating an Opaque term. */
    | Derivative(arg: Expr, wrt: string)

  /** The set of elements of a sequence of symbol names. */
  function Elements(s: seq<string>): set<string> {
    set x | x in s
  }

  predicate Distinct(s: seq<string>) {
    forall i, j :: 0 <= i < j < |s| ==> s[i] != s[j]
  }

  predicate Disjoint(a: seq<string>, b: seq<string>) {
    forall x :: x in a ==> x !in b
  }

  function FreeVars(e: Expr): set<string> {
    match e
    case Sym(x) => {x}
    case Num(_) => {}
    case Add(l, r) => FreeVars(l) + FreeVars(r)
    case Mul(l, r) => FreeVars(l) + FreeVars(r)
    case Neg(a) => FreeVars(a)
    case Opaque(_, args) => FreeVarsOfAll(args)
    case Derivative(a, _) => FreeVars(a)
  }

  function FreeVarsOfAll(es: seq<Expr>): set<string> {
    if es == [] then {} else FreeVars(es[0]) + FreeVarsOfAll(es[1..])
  }

  /** Sum, with 0 + x = x and x + 0 = x. */
  function Plus(a: Expr, b: Expr): Expr {
    if a == Num(0) then b else if b == Num(0) then a else Add(a, b)
  }

  /** Product, with 0 absorbing and 1 neutral. */
  function Times(a: Expr, b: Expr): Expr {
    if a == Num(0) || b == Num(0) then Num(0)
    else if a == Num(1) then b
    else if b == Num(1) then a
    else Mul(a, b)
  }

  /** Negation, folded into a literal. */
  function Negate(a: Expr): Expr {
    if a.Num? then Num(-a.value) else Neg(a)
  }

  function Minus(a: Expr, b: Expr): Expr {
    Plus(a, Negate(b))
  }

  /** Partial derivative with respect to the symbol v. */
  function Diff(e: Expr, v: string): Expr {
    match e
    case Sym(x) => if x == v then Num(1) else Num(0)
    case Num(_) => Num(0)
    case Add(l, r) => Plus(Diff(l, v), Diff(r, v))
    case Mul(l, r) => Plus(Times(Diff(l, v), r), Times(l, Diff(r, v)))
    case Neg(a) => Negate(Diff(a, v))
    case Opaque(_, _) => if v in FreeVars(e) then Derivative(e, v) else Num(0)
    case Derivative(_, _) => if v in FreeVars(e) then Derivative(e, v) else Num(0)
  }

  /** The vector of partials of e, one per symbol of vs. */
  function Gradient(e: Expr, vs: seq<string>): (g: seq<Expr>)
    ensures |g| == |vs|
  {
    seq(|vs|, i requires 0 <= i < |vs| => Diff(e, vs[i]))
  }

  /** The dot product of two equal-length vectors: the sum of the products of their entries. */
  function Dot(a: seq<Expr>, b: seq<Expr>): Expr
    requires |a| == |b|
  {
    if |a| == 0 then Num(0) else Plus(Times(a[0], b[0]), Dot(a[1..], b[1..]))
  }

  /** The vector with a 1 at index k and 0 elsewhere. */
  function Unit(n: nat, k: nat): (u: seq<Expr>)
    ensures |u| == n
  {
    seq(n, i requires 0 <= i < n => if i == k then Num(1) else Num(0))
  }

  function Zeros(n: nat): (z: seq<Expr>)
    ensures |z| == n
  {
    seq(n, i requires 0 <= i < n => Num(0))
  }

  /** Replaces every occurrence of the symbol x by the expression sub. */
  function Subst(e: Expr, x: string, sub: Expr): Expr {
    match e
    case Sym(y) => if y == x then sub else e
    case Num(_) => e
    case Add(l, r) => Add(Subst(l, x, sub), Subst(r, x, sub))
    case Mul(l, r) => Mul(Subst(l, x, sub), Subst(r, x, sub))
    case Neg(a) => Neg(Subst(a, x, sub))
    case Opaque(f, args) => Opaque(f, SubstAll(args, x, sub))
    case Derivative(a, w) => Derivative(Subst(a, x, sub), w)
  }

  function SubstAll(es: seq<Expr>, x: string, sub: Expr): (r: seq<Expr>)
    ensures |r| == |es|
  {
    if es == [] then [] else [Subst(es[0], x, sub)] + SubstAll(es[1..], x, sub)
  }

  // ---------------------------------------------------------------------------
  // Lemmas

  /** Differentiating with respect to a symbol that does not occur gives exactly 0. */
  lemma {:induction false} DiffOfAbsent(e: Expr, v: string)
    requires v !in FreeVars(e)
    ensures Diff(e, v) == Num(0)
  {
    match e
    case Sym(_) =>
    case Num(_) =>
    case Add(l, r) => DiffOfAbsent(l, v); DiffOfAbsent(r, v);
    case Mul(l, r) => DiffOfAbsent(l, v); DiffOfAbsent(r, v);
    case Neg(a) => DiffOfAbsent(a, v);
    case Opaque(_, _) =>
    case Derivative(_, _) =>
  }

  /** A dot product whose every product vanishes is exactly 0. */
  lemma {:induction false} DotOfZeroProducts(a: seq<Expr>, b: seq<Expr>)
    requires |a| == |b|
    requires forall i :: 0 <= i < |a| ==> Times(a[i], b[i]) == Num(0)
    ensures Dot(a, b) == Num(0)
  {
    if |a| > 0 {
      assert forall i :: 0 <= i < |a| - 1 ==> a[1..][i] == a[i + 1] && b[1..][i] == b[i + 1];
      DotOfZeroProducts(a[1..], b[1..]);
    }
  }

  /** Dot products that agree product by product are equal. */
  lemma {:induction false} DotCongruent(a: seq<Expr>, b: seq<Expr>, c: seq<Expr>)
    requires |a| == |b| == |c|
    requires forall i :: 0 <= i < |a| ==> Times(a[i], b[i]) == Times(a[i], c[i])
    ensures Dot(a, b) == Dot(a, c)
  {
    if |a| > 0 {
      assert forall i :: 0 <= i < |a| - 1 ==>
        a[1..][i] == a[i + 1] && b[1..][i] == b[i + 1] && c[1..][i] == c[i + 1];
      DotCongruent(a[1..], b[1..], c[1..]);
    }
  }

  /** Dotting with a unit vector picks out one entry. */
  lemma {:induction false} DotUnit(a: seq<Expr>, k: nat)
    requires k < |a|
    ensures Dot(a, Unit(|a|, k)) == a[k]
  {
    var u := Unit(|a|, k);
    if k == 0 {
      assert forall i :: 0 <= i < |a| - 1 ==> Times(a[1..][i], u[1..][i]) == Num(0);
      DotOfZeroProducts(a[1..], u[1..]);
    } else {
      assert u[1..] == Unit(|a| - 1, k - 1);
      DotUnit(a[1..], k - 1);
    }
  }

  lemma DotZeros(a: seq<Expr>)
    ensures Dot(a, Zeros(|a|)) == Num(0)
  {
    DotOfZeroProducts(a, Zeros(|a|));
  }

  /** The partials of a symbol with respect to a list of distinct symbols
      form a unit vector when the symbol is in the list, and vanish when it is not. */
  lemma GradientOfSym(x: string, vs: seq<string>)
    ensures x !in vs ==> Gradient(Sym(x), vs) == Zeros(|vs|)
    ensures forall k :: 0 <= k < |vs| && vs[k] == x && Distinct(vs) ==>
      Gradient(Sym(x), vs) == Unit(|vs|, k)
  {
  }

  lemma {:induction false} SubstAllOfAbsent(es: seq<Expr>, x: string, sub: Expr)
    requires x !in FreeVarsOfAll(es)
    ensures SubstAll(es, x, sub) == es
  {
    if es != [] {
      SubstOfAbsent(es[0], x, sub);
      SubstAllOfAbsent(es[1..], x, sub);
    }
  }

  /** Substituting for a symbol that does not occur changes nothing. */
  lemma {:induction false} SubstOfAbsent(e: Expr, x: string, sub: Expr)
    requires x !in FreeVars(e)
    ensures Subst(e, x, sub) == e
  {
    match e
    case Sym(_) =>
    case Num(_) =>
    case Add(l, r) => SubstOfAbsent(l, x, sub); SubstOfAbsent(r, x, sub);
    case Mul(l, r) => SubstOfAbsent(l, x, sub); SubstOfAbsent(r, x, sub);
    case Neg(a) => SubstOfAbsent(a, x, sub);
    case Opaque(_, args) => SubstAllOfAbsent(args, x, sub);
    case Derivative(a, _) => SubstOfAbsent(a, x, sub);
  }
}

/** Errors raised by the operator algebra and the order raiser. */
module Outcome {

  datatype Error =
      /** ValueError: the Hamiltonian is not separable into positions or momenta. */
    | NotSeparable
      /** TypeError: an operator raised to a non-integer power. */
    | NonIntegerPower
      /** ValueError: an operator raised to a negative power. */
    | NegativePower
      /** AttributeError: an operator multiplied by a plain integer, which has no free symbols. */
    | IntegerOperand
      /** ValueError: an order or order increase that is not an even number. */
    | OddOrder
      /** ZeroDivisionError: Yoshida's coefficients at order n divide by 2 - 2^(1/(n+1)),
          which vanishes at n = 0. */
    | ZeroDivision

  datatype Result<T> = Ok(value: T) | Err(error: Error)
}
