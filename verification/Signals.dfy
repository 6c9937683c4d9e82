/**
 Three-valued signals: the states a wire can carry, the gates the kernel adds to a module, and
 the order in which a defined value refines a don't-care.

 A `Bit` is a constant, a wire, or a cell output written as the tree of cells that drives it, so two
 equal bits always carry equal values. An `Env` gives every wire its state at one instant.
 */
module Signals {

  datatype State = S0 | S1 | Sx

  type Env = nat -> State

  function NotS(a: State): State {
    match a
    case S0 => S1
    case S1 => S0
    case Sx => Sx
  }

  function AndS(a: State, b: State): State {
    if a == S0 || b == S0 then S0 else if a == S1 && b == S1 then S1 else Sx
  }

  function OrS(a: State, b: State): State {
    if a == S1 || b == S1 then S1 else if a == S0 && b == S0 then S0 else Sx
  }

  function XorS(a: State, b: State): State {
    if a == Sx || b == Sx then Sx else if a == b then S0 else S1
  }

  /** `a` when the condition holds, `b` when it does not, and what they agree on otherwise. */
  function IteS(c: State, a: State, b: State): State {
    match c
    case S1 => a
    case S0 => b
    case Sx => if a == b then a else Sx
  }

  function FromBool(b: bool): State {
    if b then S1 else S0
  }

  /** `impl` is allowed wherever `spec` was asked for: a don't-care may become anything. */
  predicate Refines(spec: State, impl: State) {
    spec == Sx || impl == spec
  }

  // ---------------------------------------------------------------- bit vectors

  predicate Known(xs: seq<State>) {
    forall i :: 0 <= i < |xs| ==> xs[i] != Sx
  }

  /** The unsigned number a known vector stands for, least significant bit first. */
  function Value(xs: seq<State>): nat {
    if xs == [] then 0 else (if xs[0] == S1 then 1 else 0) + 2 * Value(xs[1..])
  }

  function BitOr0(xs: seq<State>, i: nat): State {
    if i < |xs| then xs[i] else S0
  }

  /** Some bit below `n` is definitely different. */
  predicate Differ(a: seq<State>, b: seq<State>, n: nat) {
    n > 0 &&
        ((BitOr0(a, n - 1) != BitOr0(b, n - 1) && BitOr0(a, n - 1) != Sx && BitOr0(b, n - 1) != Sx) ||
        Differ(a, b, n - 1))
  }

  /** The `$eq` cell: operands are zero-extended, a definite difference wins over an unknown bit. */
  function EqS(a: seq<State>, b: seq<State>): State {
    if Differ(a, b, if |a| < |b| then |b| else |a|) then S0 else if Known(a) && Known(b) then S1 else Sx
  }

  function Pow2(n: nat): (p: nat)
    ensures p > 0
  {
    if n == 0 then 1 else 2 * Pow2(n - 1)
  }

  lemma {:induction false} ValueBound(xs: seq<State>)
    ensures Value(xs) < Pow2(|xs|)
  {
    if xs != [] { ValueBound(xs[1..]); }
  }

  /** Known vectors carry the same number exactly when they agree bit by bit after zero-extension. */
  lemma {:induction false} ValueInjective(a: seq<State>, b: seq<State>)
    requires Known(a) && Known(b)
    ensures Value(a) == Value(b) <==> forall i: nat :: BitOr0(a, i) == BitOr0(b, i)
    decreases |a| + |b|
  {
    if a == [] && b == [] {
    } else {
      var a', b' := if a == [] then [] else a[1..], if b == [] then [] else b[1..];
      ValueInjective(a', b');
      assert forall i: nat :: BitOr0(a', i) == BitOr0(a, i + 1) && BitOr0(b', i) == BitOr0(b, i + 1);
      assert Value(a) == (if BitOr0(a, 0) == S1 then 1 else 0) + 2 * Value(a');
      assert Value(b) == (if BitOr0(b, 0) == S1 then 1 else 0) + 2 * Value(b');
      if Value(a) == Value(b) {
        assert BitOr0(a, 0) == BitOr0(b, 0);
        assert forall i: nat :: i > 0 ==> BitOr0(a, i) == BitOr0(a', i - 1) && BitOr0(b, i) == BitOr0(b', i - 1);
      }
    }
  }

  lemma {:induction false} DifferKnown(a: seq<State>, b: seq<State>, n: nat)
    requires Known(a) && Known(b)
    ensures Differ(a, b, n) <==> exists i: nat :: i < n && BitOr0(a, i) != BitOr0(b, i)
  {
    if n > 0 { DifferKnown(a, b, n - 1); }
  }

  /** On known operands the `$eq` cell compares the numbers. */
  lemma EqKnown(a: seq<State>, b: seq<State>)
    requires Known(a) && Known(b)
    ensures EqS(a, b) == FromBool(Value(a) == Value(b))
  {
    ValueInjective(a, b);
    DifferKnown(a, b, if |a| < |b| then |b| else |a|);
  }

  // ---------------------------------------------------------------- bits and their evaluation

  datatype Bit =
    | Const(s: State)
    | Wire(id: nat)
    | Not(a: Bit)
    | And(a: Bit, b: Bit)
    | Or(a: Bit, b: Bit)
    | Xor(a: Bit, b: Bit)
    | Mux(a: Bit, b: Bit, sel: Bit)
    | Eq(left: seq<Bit>, right: seq<Bit>)

  type Sig = seq<Bit>

  function Eval(x: Bit, e: Env): State {
    match x
    case Const(s) => s
    case Wire(id) => e(id)
    case Not(a) => NotS(Eval(a, e))
    case And(a, b) => AndS(Eval(a, e), Eval(b, e))
    case Or(a, b) => OrS(Eval(a, e), Eval(b, e))
    case Xor(a, b) => XorS(Eval(a, e), Eval(b, e))
    case Mux(a, b, s) => IteS(Eval(s, e), Eval(b, e), Eval(a, e))
    case Eq(l, r) => EqS(EvalAll(l, e), EvalAll(r, e))
  }

  function EvalAll(x: Sig, e: Env): seq<State> {
    seq(|x|, i requires 0 <= i < |x| => Eval(x[i], e))
  }

  function EvalSig(x: Sig, e: Env): (v: seq<State>)
    ensures |v| == |x|
    ensures forall i :: 0 <= i < |x| ==> v[i] == Eval(x[i], e)
  {
    EvalAll(x, e)
  }

  lemma EvalEq(l: Sig, r: Sig, e: Env)
    requires Known(EvalSig(l, e)) && Known(EvalSig(r, e))
    ensures Eval(Eq(l, r), e) == FromBool(Value(EvalSig(l, e)) == Value(EvalSig(r, e)))
  {
    EqKnown(EvalSig(l, e), EvalSig(r, e));
  }

  /** All wires a bit reads are numbered below `n`. */
  predicate Below(x: Bit, n: nat) {
    match x
    case Const(_) => true
    case Wire(id) => id < n
    case Not(a) => Below(a, n)
    case And(a, b) => Below(a, n) && Below(b, n)
    case Or(a, b) => Below(a, n) && Below(b, n)
    case Xor(a, b) => Below(a, n) && Below(b, n)
    case Mux(a, b, s) => Below(a, n) && Below(b, n) && Below(s, n)
    case Eq(l, r) => (forall i :: 0 <= i < |l| ==> Below(l[i], n)) && (forall i :: 0 <= i < |r| ==> Below(r[i], n))
  }

  predicate SigBelow(x: Sig, n: nat) {
    forall i :: 0 <= i < |x| ==> Below(x[i], n)
  }

  lemma {:induction false} BelowLater(x: Bit, n: nat, m: nat)
    requires Below(x, n) && n <= m
    ensures Below(x, m)
    decreases x
  {
    match x
    case Const(_) =>
    case Wire(_) =>
    case Not(a) => BelowLater(a, n, m);
    case And(a, b) => BelowLater(a, n, m); BelowLater(b, n, m);
    case Or(a, b) => BelowLater(a, n, m); BelowLater(b, n, m);
    case Xor(a, b) => BelowLater(a, n, m); BelowLater(b, n, m);
    case Mux(a, b, s) => BelowLater(a, n, m); BelowLater(b, n, m); BelowLater(s, n, m);
    case Eq(l, r) =>
      forall i | 0 <= i < |l| ensures Below(l[i], m) { BelowLater(l[i], n, m); }
      forall i | 0 <= i < |r| ensures Below(r[i], m) { BelowLater(r[i], n, m); }
  }

  lemma SigBelowLater(x: Sig, n: nat, m: nat)
    requires SigBelow(x, n) && n <= m
    ensures SigBelow(x, m)
  {
    forall i | 0 <= i < |x| ensures Below(x[i], m) { BelowLater(x[i], n, m); }
  }

  ghost predicate AgreeBelow(e: Env, e': Env, n: nat) {
    forall w: nat :: w < n ==> e(w) == e'(w)
  }

  /** A bit does not notice wires it does not read. */
  lemma {:induction false} EvalFrame(x: Bit, e: Env, e': Env, n: nat)
    requires Below(x, n) && AgreeBelow(e, e', n)
    ensures Eval(x, e) == Eval(x, e')
    decreases x
  {
    match x
    case Const(_) =>
    case Wire(_) =>
    case Not(a) => EvalFrame(a, e, e', n);
    case And(a, b) => EvalFrame(a, e, e', n); EvalFrame(b, e, e', n);
    case Or(a, b) => EvalFrame(a, e, e', n); EvalFrame(b, e, e', n);
    case Xor(a, b) => EvalFrame(a, e, e', n); EvalFrame(b, e, e', n);
    case Mux(a, b, s) => EvalFrame(a, e, e', n); EvalFrame(b, e, e', n); EvalFrame(s, e, e', n);
    case Eq(l, r) =>
      forall i | 0 <= i < |l| ensures Eval(l[i], e) == Eval(l[i], e') { EvalFrame(l[i], e, e', n); }
      forall i | 0 <= i < |r| ensures Eval(r[i], e) == Eval(r[i], e') { EvalFrame(r[i], e, e', n); }
      assert EvalSig(l, e) == EvalSig(l, e') && EvalSig(r, e) == EvalSig(r, e');
  }

  // ---------------------------------------------------------------- cell factories used by the rewrites

  function NotGate(a: Bit): (y: Bit)
    ensures forall e: Env :: Eval(y, e) == NotS(Eval(a, e))
    ensures forall n: nat :: Below(y, n) <==> Below(a, n)
  {
    Not(a)
  }

  function AndGate(a: Bit, b: Bit): (y: Bit)
    ensures forall e: Env :: Eval(y, e) == AndS(Eval(a, e), Eval(b, e))
    ensures forall n: nat :: Below(y, n) <==> Below(a, n) && Below(b, n)
  {
    And(a, b)
  }

  function OrGate(a: Bit, b: Bit): (y: Bit)
    ensures forall e: Env :: Eval(y, e) == OrS(Eval(a, e), Eval(b, e))
    ensures forall n: nat :: Below(y, n) <==> Below(a, n) && Below(b, n)
  {
    Or(a, b)
  }

  function XorGate(a: Bit, b: Bit): (y: Bit)
    ensures forall e: Env :: Eval(y, e) == XorS(Eval(a, e), Eval(b, e))
    ensures forall n: nat :: Below(y, n) <==> Below(a, n) && Below(b, n)
  {
    Xor(a, b)
  }

  /** `b` when `sel` is 1, `a` when it is 0. */
  function MuxGate(a: Bit, b: Bit, sel: Bit): (y: Bit)
    ensures forall e: Env :: Eval(y, e) == IteS(Eval(sel, e), Eval(b, e), Eval(a, e))
    ensures forall n: nat :: Below(y, n) <==> Below(a, n) && Below(b, n) && Below(sel, n)
  {
    Mux(a, b, sel)
  }

  function Consts(v: seq<State>): (y: Sig)
    ensures |y| == |v|
    ensures forall e: Env, i :: 0 <= i < |v| ==> Eval(y[i], e) == v[i]
    ensures forall n: nat :: SigBelow(y, n)
  {
    seq(|v|, i requires 0 <= i < |v| => Const(v[i]))
  }

  function Fill(s: State, n: nat): (y: Sig)
    ensures |y| == n
    ensures forall e: Env, i :: 0 <= i < n ==> Eval(y[i], e) == s
    ensures forall m: nat :: SigBelow(y, m)
  {
    seq(n, _ => Const(s))
  }

  function MuxSig(a: Sig, b: Sig, sel: Bit): (y: Sig)
    requires |a| == |b|
    ensures |y| == |a|
    ensures forall e: Env, i :: 0 <= i < |a| ==> Eval(y[i], e) == IteS(Eval(sel, e), Eval(b[i], e), Eval(a[i], e))
    ensures forall n: nat :: SigBelow(a, n) && SigBelow(b, n) && Below(sel, n) ==> SigBelow(y, n)
  {
    seq(|a|, i requires 0 <= i < |a| => MuxGate(a[i], b[i], sel))
  }

  function NotSig(a: Sig): (y: Sig)
    ensures |y| == |a|
    ensures forall e: Env, i :: 0 <= i < |a| ==> Eval(y[i], e) == NotS(Eval(a[i], e))
    ensures forall n: nat :: SigBelow(a, n) ==> SigBelow(y, n)
  {
    seq(|a|, i requires 0 <= i < |a| => NotGate(a[i]))
  }

  function AndSig(a: Sig, b: Sig): (y: Sig)
    requires |a| == |b|
    ensures |y| == |a|
    ensures forall e: Env, i :: 0 <= i < |a| ==> Eval(y[i], e) == AndS(Eval(a[i], e), Eval(b[i], e))
    ensures forall n: nat :: SigBelow(a, n) && SigBelow(b, n) ==> SigBelow(y, n)
  {
    seq(|a|, i requires 0 <= i < |a| => AndGate(a[i], b[i]))
  }

  function XorSig(a: Sig, b: Sig): (y: Sig)
    requires |a| == |b|
    ensures |y| == |a|
    ensures forall e: Env, i :: 0 <= i < |a| ==> Eval(y[i], e) == XorS(Eval(a[i], e), Eval(b[i], e))
    ensures forall n: nat :: SigBelow(a, n) && SigBelow(b, n) ==> SigBelow(y, n)
  {
    seq(|a|, i requires 0 <= i < |a| => XorGate(a[i], b[i]))
  }

  /** `n` fresh wires numbered from `first`. */
  function Fresh(first: nat, n: nat): (y: Sig)
    ensures |y| == n
    ensures forall i :: 0 <= i < n ==> y[i] == Wire(first + i)
    ensures SigBelow(y, first + n)
  {
    seq(n, i requires 0 <= i < n => Wire(first + i))
  }
}
