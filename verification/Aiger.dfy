/**
 The AIGER backend of `backends/aiger/aiger.cc`: a netlist of inverters, two-input and-gates, aliases, registers
 and start-of-run markers becomes an and-inverter graph.

 In zero-initialised mode a register that starts at 1 is stored inverted and a register without initial value
 reads a fresh input in the first cycle. Signal bits are named by their role.
 */
module Aiger {
  // ---------------------------------------------------------------- and-inverter graphs

  /** Levels of the input and latch variables. */
  type Val = nat -> bool

  /** Gate `i` has variable `base + 1 + i`; its larger operand comes first and lies below it. */
  predicate Ordered(base: nat, gates: seq<(nat, nat)>) {
    forall i :: 0 <= i < |gates| ==> gates[i].1 <= gates[i].0 < 2 * (base + 1 + i)
  }

  predicate IsLit(base: nat, gates: seq<(nat, nat)>, lit: nat) {
    lit < 2 * (base + 1 + |gates|)
  }

  function LitVal(base: nat, gates: seq<(nat, nat)>, v: Val, lit: nat): bool
    requires Ordered(base, gates) && IsLit(base, gates, lit)
    decreases lit / 2
  {
    VarVal(base, gates, v, lit / 2) != (lit % 2 == 1)
  }

  function VarVal(base: nat, gates: seq<(nat, nat)>, v: Val, x: nat): bool
    requires Ordered(base, gates) && x <= base + |gates|
    decreases x, 0
  {
    if x == 0 then false
    else if x <= base then v(x)
    else
      var g := gates[x - base - 1];
      LitVal(base, gates, v, g.0) && LitVal(base, gates, v, g.1)
  }

  /** Exclusive-or with 1. */
  function Flip(lit: nat): nat {
    if lit % 2 == 0 then lit + 1 else lit - 1
  }

  predicate LitIs(base: nat, gates: seq<(nat, nat)>, v: Val, lit: nat, x: bool)
    requires Ordered(base, gates) && IsLit(base, gates, lit)
  {
    LitVal(base, gates, v, lit) == x
  }

  lemma FlipValue(base: nat, gates: seq<(nat, nat)>, v: Val, lit: nat)
    requires Ordered(base, gates) && IsLit(base, gates, lit)
    ensures IsLit(base, gates, Flip(lit)) && LitVal(base, gates, v, Flip(lit)) == !LitVal(base, gates, v, lit)
  {
  }

  /** A gate on two literals. */
  function NewGate(a0: nat, a1: nat): (nat, nat) {
    if a0 > a1 then (a0, a1) else (a1, a0)
  }

  lemma {:induction false} OldValue(base: nat, gates: seq<(nat, nat)>, more: seq<(nat, nat)>, v: Val, x: nat)
    requires Ordered(base, gates) && gates <= more && Ordered(base, more) && x <= base + |gates|
    ensures VarVal(base, more, v, x) == VarVal(base, gates, v, x)
    decreases x
  {
    if x > base {
      var g := gates[x - base - 1];
      assert more[x - base - 1] == g;
      OldValue(base, gates, more, v, g.0 / 2);
      OldValue(base, gates, more, v, g.1 / 2);
    }
  }

  lemma GateValue(base: nat, gates: seq<(nat, nat)>, v: Val, a0: nat, a1: nat)
    requires Ordered(base, gates) && IsLit(base, gates, a0) && IsLit(base, gates, a1)
    ensures var more := gates + [NewGate(a0, a1)];
            && Ordered(base, more) && IsLit(base, more, 2 * (base + |more|))
            && LitVal(base, more, v, 2 * (base + |more|)) == (LitVal(base, gates, v, a0) && LitVal(base, gates, v, a1))
  {
    var more, x := gates + [NewGate(a0, a1)], base + |gates| + 1;
    assert more[x - base - 1] == NewGate(a0, a1);
    assert (2 * x) / 2 == x && (2 * x) % 2 == 0;
    OldValue(base, gates, more, v, a0 / 2);
    OldValue(base, gates, more, v, a1 / 2);
    assert LitVal(base, more, v, a0) == LitVal(base, gates, v, a0) &&
        LitVal(base, more, v, a1) == LitVal(base, gates, v, a1);
    assert VarVal(base, more, v, x) == (LitVal(base, more, v, NewGate(a0, a1).0) &&
        LitVal(base, more, v, NewGate(a0, a1).1));
    assert LitVal(base, more, v, 2 * x) == VarVal(base, more, v, x);
  }

  /** Under every valuation the literal is the conjunction of two earlier ones. */
  ghost predicate IsAnd(base: nat, gates: seq<(nat, nat)>, more: seq<(nat, nat)>, a0: nat, a1: nat, lit: nat) {
    && Ordered(base, gates) && IsLit(base, gates, a0) && IsLit(base, gates, a1) && Ordered(base, more)
    && IsLit(base, more, lit)
    && forall v: Val :: LitVal(base, more, v, lit) == (LitVal(base, gates, v, a0) && LitVal(base, gates, v, a1))
  }

  lemma GateIsAnd(base: nat, gates: seq<(nat, nat)>, a0: nat, a1: nat)
    requires Ordered(base, gates) && IsLit(base, gates, a0) && IsLit(base, gates, a1)
    ensures var more := gates + [NewGate(a0, a1)]; IsAnd(base, gates, more, a0, a1, 2 * (base + |more|))
  {
    hide LitVal;
    var more := gates + [NewGate(a0, a1)];
    GateValue(base, gates, _ => false, a0, a1);
    forall v: Val
      ensures LitVal(base, more, v, 2 * (base + |more|)) == (LitVal(base, gates, v, a0) && LitVal(base, gates, v, a1))
    {
      GateValue(base, gates, v, a0, a1);
    }
  }

  // ---------------------------------------------------------------- netlists

  datatype Bit = Zero | One | In(i: nat) | Q(l: nat) | Inner(id: nat)

  datatype Def = Not(a: Bit) | And(a: Bit, b: Bit) | Alias(a: Bit) | InitState

  /** Inputs, the data bit of every register, the drivers of inner bits, and the registers that have an initial value.
      */
  datatype Netlist = Netlist(inputs: nat, data: seq<Bit>, defs: map<nat, Def>, inits: map<nat, bool>)

  predicate Driven(n: Netlist, b: Bit) {
    match b
    case Zero => true
    case One => true
    case In(i) => i < n.inputs
    case Q(l) => l < |n.data|
    case Inner(id) => id in n.defs
  }

  function Height(rank: nat -> nat, b: Bit): nat {
    if b.Inner? then rank(b.id) + 1 else 0
  }

  /** Everything is driven and there are no combinational loops: `rank` falls towards the sources. */
  ghost predicate Loopfree(n: Netlist, rank: nat -> nat) {
    && (forall id :: id in n.defs ==> LowerArgs(n, rank, id))
    && (forall l :: 0 <= l < |n.data| ==> Driven(n, n.data[l]))
  }

  predicate LowerArgs(n: Netlist, rank: nat -> nat, id: nat)
    requires id in n.defs
  {
    match n.defs[id]
    case Not(a) => Driven(n, a) && Height(rank, a) <= rank(id)
    case And(a, b) => Driven(n, a) && Driven(n, b) && Height(rank, a) <= rank(id) && Height(rank, b) <= rank(id)
    case Alias(a) => Driven(n, a) && Height(rank, a) <= rank(id)
    case InitState => true
  }

  function NetVal(n: Netlist, rank: nat -> nat, ins: Val, st: Val, first: bool, b: Bit): bool
    requires Loopfree(n, rank) && Driven(n, b)
    decreases Height(rank, b)
  {
    match b
    case Zero => false
    case One => true
    case In(i) => ins(i)
    case Q(l) => st(l)
    case Inner(id) =>
      assert LowerArgs(n, rank, id);
      match n.defs[id]
      case Not(a) => !NetVal(n, rank, ins, st, first, a)
      case And(a, b) => NetVal(n, rank, ins, st, first, a) && NetVal(n, rank, ins, st, first, b)
      case Alias(a) => NetVal(n, rank, ins, st, first, a)
      case InitState => first
  }

  predicate HasMarker(n: Netlist) {
    exists id :: id in n.defs && n.defs[id] == InitState
  }

  /** A value depends on inputs and registers that exist, and on the marker only if there is one. */
  lemma {:induction false} NetValAgree(n: Netlist, rank: nat -> nat, ins: Val, st: Val, first: bool, ins': Val,
      st': Val, first': bool, b: Bit)
    requires Loopfree(n, rank) && Driven(n, b)
    requires (forall i: nat :: i < n.inputs ==> ins(i) == ins'(i)) &&
        (forall l: nat :: l < |n.data| ==> st(l) == st'(l)) && (HasMarker(n) ==> first == first')
    ensures NetVal(n, rank, ins, st, first, b) == NetVal(n, rank, ins', st', first', b)
    decreases Height(rank, b)
  {
    if b.Inner? {
      assert LowerArgs(n, rank, b.id);
      match n.defs[b.id]
      case Not(a) => NetValAgree(n, rank, ins, st, first, ins', st', first', a);
      case And(a, a') =>
        NetValAgree(n, rank, ins, st, first, ins', st', first', a);
        NetValAgree(n, rank, ins, st, first, ins', st', first', a');
      case Alias(a) => NetValAgree(n, rank, ins, st, first, ins', st', first', a);
      case InitState =>
    }
  }

  // ---------------------------------------------------------------- where things are in the graph

  /** Number of input and latch variables, the latch that marks the first cycle (or 0), the inputs that stand for
      missing initial values, and how many liveness and fairness properties have inputs and latches at the end. */
  datatype Layout = Layout(zinit: bool, inputs: nat, latches: nat, marker: nat, initInputs: map<nat, nat>, live: nat,
      fair: nat) {
    function Base(): nat { inputs + latches }

    /** The last latch variable before those of the properties. */
    function OwnLatches(n: Netlist): nat { inputs + |n.data| + if marker != 0 then 1 else 0 }
  }

  predicate LaidOut(n: Netlist, c: Layout) {
    && n.inputs + c.live <= c.inputs && c.Base() == c.OwnLatches(n) + 2 * c.live + c.fair
    && (c.marker != 0 ==> c.marker == c.inputs + |n.data| + 1)
    && (HasMarker(n) ==> c.marker != 0)
    && (forall l :: l in c.initInputs ==> n.inputs < c.initInputs[l] <= c.inputs - c.live)
    && (forall l, k :: l in c.initInputs && k in c.initInputs && l != k ==> c.initInputs[l] != c.initInputs[k])
    && (forall l: nat :: c.zinit && l < |n.data| && l !in n.inits ==> l in c.initInputs && c.marker != 0)
  }

  function First(c: Layout, v: Val): bool {
    c.marker != 0 && !v(c.marker)
  }

  /** The register value a valuation of the graph stands for. */
  function Decoded(n: Netlist, c: Layout, v: Val, l: nat): bool {
    var x := c.inputs + l + 1;
    if !c.zinit then v(x)
    else if l in n.inits then v(x) != n.inits[l]
    else if First(c, v) && l in c.initInputs then v(c.initInputs[l])
    else v(x)
  }

  function InsOf(v: Val): Val {
    (i: nat) => v(i + 1)
  }

  function StateOf(n: Netlist, c: Layout, v: Val): Val {
    (l: nat) => Decoded(n, c, v, l)
  }

  /** The level of a bit under a valuation of the graph's variables. */
  function BitVal(n: Netlist, rank: nat -> nat, c: Layout, v: Val, b: Bit): bool
    requires Loopfree(n, rank) && Driven(n, b)
  {
    NetVal(n, rank, InsOf(v), StateOf(n, c, v), First(c, v), b)
  }

  /** A literal computes a bit. */
  ghost predicate Computes(n: Netlist, rank: nat -> nat, c: Layout, gates: seq<(nat, nat)>, b: Bit, lit: nat)
    requires Loopfree(n, rank)
  {
    && Ordered(c.Base(), gates) && IsLit(c.Base(), gates, lit) && Driven(n, b)
    && forall v: Val :: LitIs(c.Base(), gates, v, lit, BitVal(n, rank, c, v, b))
  }

  ghost predicate Sound(n: Netlist, rank: nat -> nat, c: Layout, gates: seq<(nat, nat)>, aigMap: map<Bit, nat>)
    requires Loopfree(n, rank)
  {
    Ordered(c.Base(), gates) && forall b :: b in aigMap ==> Computes(n, rank, c, gates, b, aigMap[b])
  }

  lemma ComputesLater(n: Netlist, rank: nat -> nat, c: Layout, gates: seq<(nat, nat)>, more: seq<(nat, nat)>, b: Bit,
      lit: nat)
    requires Loopfree(n, rank) && Computes(n, rank, c, gates, b, lit) && gates <= more && Ordered(c.Base(), more)
    ensures Computes(n, rank, c, more, b, lit)
  {
    hide NetVal, Decoded, Loopfree;
    forall v: Val ensures LitIs(c.Base(), more, v, lit, BitVal(n, rank, c, v, b)) {
      OldValue(c.Base(), gates, more, v, lit / 2);
      assert LitIs(c.Base(), gates, v, lit, BitVal(n, rank, c, v, b));
    }
  }

  lemma SoundLater(n: Netlist, rank: nat -> nat, c: Layout, gates: seq<(nat, nat)>, more: seq<(nat, nat)>,
      aigMap: map<Bit, nat>)
    requires Loopfree(n, rank) && Sound(n, rank, c, gates, aigMap) && gates <= more && Ordered(c.Base(), more)
    ensures Sound(n, rank, c, more, aigMap)
  {
    hide Computes;
    forall b | b in aigMap ensures Computes(n, rank, c, more, b, aigMap[b]) {
      ComputesLater(n, rank, c, gates, more, b, aigMap[b]);
    }
  }

  // ---------------------------------------------------------------- building the graph

  lemma {:induction false} LitOfVar(base: nat, gates: seq<(nat, nat)>, v: Val, x: nat)
    requires Ordered(base, gates) && 0 < x <= base
    ensures IsLit(base, gates, 2 * x) && LitVal(base, gates, v, 2 * x) == v(x)
    ensures IsLit(base, gates, 2 * x + 1) && LitVal(base, gates, v, 2 * x + 1) == !v(x)
  {
  }

  lemma SourceComputes(n: Netlist, rank: nat -> nat, c: Layout, gates: seq<(nat, nat)>, b: Bit)
    requires Loopfree(n, rank) && LaidOut(n, c) && Ordered(c.Base(), gates) && Driven(n, b) &&
        (b.Zero? || b.One? || b.In?)
    ensures Computes(n, rank, c, gates, b, if b.Zero? then 0 else if b.One? then 1 else 2 * (b.i + 1))
  {
    hide Decoded, First;
    var lit := if b.Zero? then 0 else if b.One? then 1 else 2 * (b.i + 1);
    forall v: Val ensures LitIs(c.Base(), gates, v, lit, BitVal(n, rank, c, v, b)) {
      if b.In? { LitOfVar(c.Base(), gates, v, b.i + 1); }
    }
  }

  lemma MarkerComputes(n: Netlist, rank: nat -> nat, c: Layout, gates: seq<(nat, nat)>, id: nat)
    requires Loopfree(n, rank) && LaidOut(n, c) && Ordered(c.Base(), gates) && id in n.defs && n.defs[id] == InitState
    ensures c.marker != 0 && Computes(n, rank, c, gates, Inner(id), 2 * c.marker + 1)
  {
    assert HasMarker(n);
    forall v: Val ensures LitIs(c.Base(), gates, v, 2 * c.marker + 1, BitVal(n, rank, c, v, Inner(id))) {
      LitOfVar(c.Base(), gates, v, c.marker);
    }
  }

  lemma NotComputes(n: Netlist, rank: nat -> nat, c: Layout, gates: seq<(nat, nat)>, id: nat, a: Bit, lit: nat)
    requires Loopfree(n, rank) && id in n.defs && n.defs[id] == Not(a) && Computes(n, rank, c, gates, a, lit)
    ensures Computes(n, rank, c, gates, Inner(id), Flip(lit))
  {
    forall v: Val ensures LitIs(c.Base(), gates, v, Flip(lit), BitVal(n, rank, c, v, Inner(id))) {
      FlipValue(c.Base(), gates, v, lit);
      assert LitIs(c.Base(), gates, v, lit, BitVal(n, rank, c, v, a));
    }
  }

  lemma AliasComputes(n: Netlist, rank: nat -> nat, c: Layout, gates: seq<(nat, nat)>, id: nat, a: Bit, lit: nat)
    requires Loopfree(n, rank) && id in n.defs && n.defs[id] == Alias(a) && Computes(n, rank, c, gates, a, lit)
    ensures Computes(n, rank, c, gates, Inner(id), lit)
  {
    forall v: Val ensures LitIs(c.Base(), gates, v, lit, BitVal(n, rank, c, v, Inner(id))) {
      assert LitIs(c.Base(), gates, v, lit, BitVal(n, rank, c, v, a));
    }
  }

  lemma AndComputes(n: Netlist, rank: nat -> nat, c: Layout, gates: seq<(nat, nat)>, id: nat, a: Bit, a0: nat, b: Bit,
      a1: nat)
    requires Loopfree(n, rank) && id in n.defs && n.defs[id] == And(a, b) && Computes(n, rank, c, gates, a, a0) &&
        Computes(n, rank, c, gates, b, a1)
    ensures var more := gates + [NewGate(a0, a1)]; Computes(n, rank, c, more, Inner(id), 2 * (c.Base() + |more|))
  {
    var more := gates + [NewGate(a0, a1)];
    forall v: Val
      ensures Ordered(c.Base(), more) &&
          LitIs(c.Base(), more, v, 2 * (c.Base() + |more|), BitVal(n, rank, c, v, Inner(id)))
    {
      GateValue(c.Base(), gates, v, a0, a1);
      assert LitIs(c.Base(), gates, v, a0, BitVal(n, rank, c, v, a));
      assert LitIs(c.Base(), gates, v, a1, BitVal(n, rank, c, v, b));
    }
    GateValue(c.Base(), gates, _ => false, a0, a1);
  }

  predicate Extends(m: map<Bit, nat>, m': map<Bit, nat>) {
    forall b :: b in m ==> b in m' && m'[b] == m[b]
  }

  lemma ExtendsItself(m: map<Bit, nat>)
    ensures Extends(m, m)
  {
  }

  lemma ExtendsMore(m: map<Bit, nat>, m': map<Bit, nat>, m'': map<Bit, nat>)
    requires Extends(m, m') && Extends(m', m'')
    ensures Extends(m, m'')
  {
  }

  lemma ExtendsNew(m: map<Bit, nat>, m': map<Bit, nat>, b: Bit, lit: nat)
    requires Extends(m, m') && b !in m
    ensures Extends(m, m'[b := lit])
  {
  }

  /** The graph under construction, once all inputs and latches have been numbered. */
  ghost predicate Ready(n: Netlist, rank: nat -> nat, c: Layout, gates: seq<(nat, nat)>, aigMap: map<Bit, nat>) {
    && Loopfree(n, rank) && LaidOut(n, c) && Sound(n, rank, c, gates, aigMap)
    && (forall b :: Driven(n, b) && !b.Inner? ==> b in aigMap)
  }

  /** The plain literals of some variables. */
  predicate LitsOf(lits: map<nat, nat>, vars: map<nat, nat>) {
    lits.Keys == vars.Keys && forall l :: l in vars ==> lits[l] == 2 * vars[l]
  }

  // ---------------------------------------------------------------- registers

  /** A register whose stored value is its value, or its complement. */
  lemma StoredComputes(n: Netlist, rank: nat -> nat, c: Layout, gates: seq<(nat, nat)>, l: nat)
    requires Loopfree(n, rank) && LaidOut(n, c) && Ordered(c.Base(), gates) && l < |n.data| &&
        (c.zinit ==> l in n.inits)
    ensures var x := c.inputs + l + 1;
        Computes(n, rank, c, gates, Q(l), if c.zinit && n.inits[l] then 2 * x + 1 else 2 * x)
  {
    var x := c.inputs + l + 1;
    forall v: Val
      ensures LitIs(c.Base(), gates, v, if c.zinit && n.inits[l] then 2 * x + 1 else 2 * x, BitVal(n, rank, c, v, Q(l)))
    {
      LitOfVar(c.Base(), gates, v, x);
    }
  }

  /** The gates that pick between two literals. */
  function Picking(gates: seq<(nat, nat)>, base: nat, q: nat, other: nat, sel: nat): (r: seq<(nat, nat)>)
    ensures |r| == |gates| + 3
  {
    var m := base + |gates|;
    gates + [NewGate(q, Flip(sel)), NewGate(other, sel), NewGate(Flip(2 * (m + 1)), Flip(2 * (m + 2)))]
  }

  lemma PickingValue(base: nat, gates: seq<(nat, nat)>, v: Val, q: nat, other: nat, sel: nat)
    requires Ordered(base, gates) && IsLit(base, gates, q) && IsLit(base, gates, other) && IsLit(base, gates, sel)
    ensures var r := Picking(gates, base, q, other, sel);
            && Ordered(base, r) && IsLit(base, r, Flip(2 * (base + |r|)))
            && LitVal(base, r, v, Flip(2 * (base + |r|))) ==
               LitVal(base, gates, v, if LitVal(base, gates, v, sel) then other else q)
  {
    hide NewGate, Flip, IsLit, LitVal;
    var g0, m := gates, base + |gates|;
    FlipValue(base, g0, v, sel);
    GateValue(base, g0, v, q, Flip(sel));
    var g1 := g0 + [NewGate(q, Flip(sel))];
    KeptValue(base, g0, g1, v, other);
    KeptValue(base, g0, g1, v, sel);
    GateValue(base, g1, v, other, sel);
    var g2 := g1 + [NewGate(other, sel)];
    KeptValue(base, g1, g2, v, 2 * (m + 1));
    FlipValue(base, g2, v, 2 * (m + 1));
    FlipValue(base, g2, v, 2 * (m + 2));
    GateValue(base, g2, v, Flip(2 * (m + 1)), Flip(2 * (m + 2)));
    var g3 := g2 + [NewGate(Flip(2 * (m + 1)), Flip(2 * (m + 2)))];
    FlipValue(base, g3, v, 2 * (m + 3));
    assert g3 == Picking(gates, base, q, other, sel);
  }

  lemma KeptValue(base: nat, gates: seq<(nat, nat)>, more: seq<(nat, nat)>, v: Val, lit: nat)
    requires Ordered(base, gates) && gates <= more && Ordered(base, more) && IsLit(base, gates, lit)
    ensures IsLit(base, more, lit) && LitVal(base, more, v, lit) == LitVal(base, gates, v, lit)
  {
    OldValue(base, gates, more, v, lit / 2);
  }

  /** A register without initial value shows its input while the marker says it is the first cycle. */
  lemma PickedComputes(n: Netlist, rank: nat -> nat, c: Layout, gates: seq<(nat, nat)>, l: nat)
    requires Loopfree(n, rank) && LaidOut(n, c) && Ordered(c.Base(), gates) && l < |n.data| && c.zinit && l !in n.inits
    ensures l in c.initInputs
    ensures var r := Picking(gates, c.Base(), 2 * (c.inputs + l + 1), 2 * c.initInputs[l], 2 * c.marker + 1);
            Computes(n, rank, c, r, Q(l), Flip(2 * (c.Base() + |r|)))
  {
    PickedVars(n, c, l);
    hide LitVal, Picking, Ordered, IsLit, LaidOut, Loopfree, BitVal, Flip;
    PickedAt(n, rank, c, gates, l, _ => false);
    var r := Picking(gates, c.Base(), 2 * (c.inputs + l + 1), 2 * c.initInputs[l], 2 * c.marker + 1);
    forall v: Val ensures LitIs(c.Base(), r, v, Flip(2 * (c.Base() + |r|)), BitVal(n, rank, c, v, Q(l))) {
      PickedAt(n, rank, c, gates, l, v);
    }
  }

  lemma BitValQ(n: Netlist, rank: nat -> nat, c: Layout, v: Val, l: nat)
    requires Loopfree(n, rank) && l < |n.data|
    ensures BitVal(n, rank, c, v, Q(l)) == Decoded(n, c, v, l)
  {
  }

  lemma PickedVars(n: Netlist, c: Layout, l: nat)
    requires LaidOut(n, c) && l < |n.data| && c.zinit && l !in n.inits
    ensures l in c.initInputs && 0 < c.initInputs[l] <= c.Base() && 0 < c.marker <= c.Base() &&
        c.inputs + l + 1 <= c.Base()
  {
  }

  lemma PickedAt(n: Netlist, rank: nat -> nat, c: Layout, gates: seq<(nat, nat)>, l: nat, v: Val)
    requires Loopfree(n, rank) && LaidOut(n, c) && Ordered(c.Base(), gates) && l < |n.data| && c.zinit && l !in n.inits
    ensures l in c.initInputs
    ensures var r := Picking(gates, c.Base(), 2 * (c.inputs + l + 1), 2 * c.initInputs[l], 2 * c.marker + 1);
            Ordered(c.Base(), r) && IsLit(c.Base(), r, Flip(2 * (c.Base() + |r|))) &&
                LitIs(c.Base(), r, v, Flip(2 * (c.Base() + |r|)), BitVal(n, rank, c, v, Q(l)))
  {
    hide LitVal, Picking, Ordered, IsLit, Loopfree, Flip, BitVal;
    PickedVars(n, c, l);
    BitValQ(n, rank, c, v, l);
    PickedRaw(c.Base(), gates, v, c.inputs + l + 1, c.initInputs[l], c.marker);
  }

  lemma PickedRaw(base: nat, gates: seq<(nat, nat)>, v: Val, q: nat, other: nat, marker: nat)
    requires Ordered(base, gates) && 0 < q <= base && 0 < other <= base && 0 < marker <= base
    ensures var r := Picking(gates, base, 2 * q, 2 * other, 2 * marker + 1);
            && Ordered(base, r) && IsLit(base, r, Flip(2 * (base + |r|)))
            && LitIs(base, r, v, Flip(2 * (base + |r|)), if !v(marker) then v(other) else v(q))
  {
    hide LitVal, Picking, Ordered, IsLit, Flip;
    LitOfVar(base, gates, v, q);
    LitOfVar(base, gates, v, other);
    LitOfVar(base, gates, v, marker);
    PickingValue(base, gates, v, 2 * q, 2 * other, 2 * marker + 1);
  }

  /** The map while the first `l` registers have their final literals and the others are still plain latches. */
  ghost predicate Mapped(n: Netlist, rank: nat -> nat, c: Layout, gates: seq<(nat, nat)>, aigMap: map<Bit, nat>, l: nat)
  {
    && Loopfree(n, rank) && LaidOut(n, c) && Ordered(c.Base(), gates)
    && (forall b :: b in aigMap <==> Driven(n, b) && !b.Inner?)
    && forall b :: b in aigMap ==> MappedBit(n, rank, c, gates, aigMap, l, b)
  }

  ghost predicate MappedBit(n: Netlist, rank: nat -> nat, c: Layout, gates: seq<(nat, nat)>, aigMap: map<Bit, nat>,
      l: nat, b: Bit)
    requires Loopfree(n, rank) && b in aigMap
  {
    if b.Q? && b.l >= l then aigMap[b] == 2 * (c.inputs + b.l + 1) else Computes(n, rank, c, gates, b, aigMap[b])
  }

  /** One more register has its literal. */
  lemma MappedStep(n: Netlist, rank: nat -> nat, c: Layout, gates: seq<(nat, nat)>, more: seq<(nat, nat)>,
      aigMap: map<Bit, nat>, l: nat, lit: nat)
    requires Mapped(n, rank, c, gates, aigMap, l) && l < |n.data| && gates <= more && Ordered(c.Base(), more) &&
        Computes(n, rank, c, more, Q(l), lit)
    ensures Mapped(n, rank, c, more, aigMap[Q(l) := lit], l + 1)
  {
    hide Computes, Loopfree, Ordered, LaidOut;
    var aigMap' := aigMap[Q(l) := lit];
    forall b | b in aigMap' ensures MappedBit(n, rank, c, more, aigMap', l + 1, b) {
      if b != Q(l) {
        assert MappedBit(n, rank, c, gates, aigMap, l, b);
        if !(b.Q? && b.l >= l) { ComputesLater(n, rank, c, gates, more, b, aigMap[b]); }
      }
    }
  }

  lemma MappedRaw(n: Netlist, rank: nat -> nat, c: Layout, gates: seq<(nat, nat)>, aigMap: map<Bit, nat>, l: nat)
    requires Mapped(n, rank, c, gates, aigMap, l) && l < |n.data|
    ensures Loopfree(n, rank) && LaidOut(n, c) && Ordered(c.Base(), gates) && Q(l) in aigMap &&
        aigMap[Q(l)] == 2 * (c.inputs + l + 1)
  {
    hide Computes, Loopfree, Ordered, LaidOut;
    assert Q(l) in aigMap;
    assert MappedBit(n, rank, c, gates, aigMap, l, Q(l));
  }

  lemma MappedReady(n: Netlist, rank: nat -> nat, c: Layout, gates: seq<(nat, nat)>, aigMap: map<Bit, nat>)
    requires Mapped(n, rank, c, gates, aigMap, |n.data|)
    ensures Ready(n, rank, c, gates, aigMap)
  {
    hide Computes, Loopfree, Ordered, LaidOut;
    forall b | b in aigMap ensures Computes(n, rank, c, gates, b, aigMap[b]) {
      assert MappedBit(n, rank, c, gates, aigMap, |n.data|, b);
    }
  }

  lemma RawMapped(n: Netlist, rank: nat -> nat, c: Layout)
    requires Loopfree(n, rank) && LaidOut(n, c)
    ensures Mapped(n, rank, c, [], RawMap(n.inputs, c.inputs, |n.data|), 0)
  {
    hide Computes, Loopfree, LaidOut, RawMap, InputMap;
    var m := RawMap(n.inputs, c.inputs, |n.data|);
    forall b ensures b in m <==> Driven(n, b) && !b.Inner? {
      RawMapAt(n.inputs, c.inputs, |n.data|, b);
      InputMapAt(n.inputs, b);
    }
    forall b | b in m ensures MappedBit(n, rank, c, [], m, 0, b) {
      RawMapAt(n.inputs, c.inputs, |n.data|, b);
      InputMapAt(n.inputs, b);
      if !b.Q? { SourceComputes(n, rank, c, [], b); }
    }
  }

  /** Without zero initialisation the plain latches are right as they are. */
  lemma {:induction false} PlainMapped(n: Netlist, rank: nat -> nat, c: Layout, gates: seq<(nat, nat)>,
      aigMap: map<Bit, nat>, l: nat)
    requires Mapped(n, rank, c, gates, aigMap, l) && !c.zinit && l <= |n.data|
    ensures Mapped(n, rank, c, gates, aigMap, |n.data|)
    decreases |n.data| - l
  {
    hide Computes, Ordered, LaidOut;
    if l < |n.data| {
      assert Q(l) in aigMap && MappedBit(n, rank, c, gates, aigMap, l, Q(l));
      StoredComputes(n, rank, c, gates, l);
      MappedStep(n, rank, c, gates, gates, aigMap, l, aigMap[Q(l)]);
      assert aigMap[Q(l) := aigMap[Q(l)]] == aigMap;
      PlainMapped(n, rank, c, gates, aigMap, l + 1);
    }
  }

  // ---------------------------------------------------------------- literals as functions of a valuation

  type Fn = Val -> bool

  function AndFn(f: Fn, g: Fn): Fn { (v: Val) => f(v) && g(v) }

  function OrFn(f: Fn, g: Fn): Fn { (v: Val) => f(v) || g(v) }

  function NotFn(f: Fn): Fn { (v: Val) => !f(v) }

  function VarFn(x: nat): Fn { (v: Val) => v(x) }

  ghost function BitFn(n: Netlist, rank: nat -> nat, c: Layout, b: Bit): Fn {
    (v: Val) => Loopfree(n, rank) && Driven(n, b) && BitVal(n, rank, c, v, b)
  }

  ghost predicate LitFn(base: nat, gates: seq<(nat, nat)>, lit: nat, f: Fn) {
    Ordered(base, gates) && IsLit(base, gates, lit) && forall v: Val :: LitIs(base, gates, v, lit, f(v))
  }

  lemma FnLater(base: nat, gates: seq<(nat, nat)>, more: seq<(nat, nat)>, lit: nat, f: Fn)
    requires LitFn(base, gates, lit, f) && gates <= more && Ordered(base, more)
    ensures LitFn(base, more, lit, f)
  {
    hide LitVal, Ordered;
    forall v: Val ensures IsLit(base, more, lit) && LitIs(base, more, v, lit, f(v)) {
      KeptValue(base, gates, more, v, lit);
      assert LitIs(base, gates, v, lit, f(v));
    }
  }

  lemma FnVar(base: nat, gates: seq<(nat, nat)>, x: nat)
    requires Ordered(base, gates) && 0 < x <= base
    ensures LitFn(base, gates, 2 * x, VarFn(x))
  {
    hide LitVal;
    forall v: Val ensures IsLit(base, gates, 2 * x) && LitIs(base, gates, v, 2 * x, VarFn(x)(v)) {
      LitOfVar(base, gates, v, x);
    }
  }

  lemma FnNot(base: nat, gates: seq<(nat, nat)>, lit: nat, f: Fn)
    requires LitFn(base, gates, lit, f)
    ensures LitFn(base, gates, Flip(lit), NotFn(f))
  {
    hide LitVal, Ordered;
    forall v: Val ensures IsLit(base, gates, Flip(lit)) && LitIs(base, gates, v, Flip(lit), NotFn(f)(v)) {
      FlipValue(base, gates, v, lit);
      assert LitIs(base, gates, v, lit, f(v));
    }
    FlipValue(base, gates, _ => false, lit);
  }

  lemma FnAnd(base: nat, gates: seq<(nat, nat)>, a0: nat, f: Fn, a1: nat, g: Fn)
    requires LitFn(base, gates, a0, f) && LitFn(base, gates, a1, g)
    ensures var more := gates + [NewGate(a0, a1)]; LitFn(base, more, 2 * (base + |more|), AndFn(f, g))
  {
    hide LitVal, Ordered, NewGate;
    var more := gates + [NewGate(a0, a1)];
    GateValue(base, gates, _ => false, a0, a1);
    forall v: Val ensures LitIs(base, more, v, 2 * (base + |more|), AndFn(f, g)(v)) {
      GateValue(base, gates, v, a0, a1);
      assert LitIs(base, gates, v, a0, f(v)) && LitIs(base, gates, v, a1, g(v));
    }
  }

  lemma FnSame(base: nat, gates: seq<(nat, nat)>, lit: nat, f: Fn, g: Fn)
    requires LitFn(base, gates, lit, f) && forall v: Val :: f(v) == g(v)
    ensures LitFn(base, gates, lit, g)
  {
    hide LitVal, Ordered;
    forall v: Val ensures LitIs(base, gates, v, lit, g(v)) { assert LitIs(base, gates, v, lit, f(v)); }
  }

  lemma FnBit(n: Netlist, rank: nat -> nat, c: Layout, gates: seq<(nat, nat)>, b: Bit, lit: nat)
    requires Loopfree(n, rank) && Computes(n, rank, c, gates, b, lit)
    ensures LitFn(c.Base(), gates, lit, BitFn(n, rank, c, b))
  {
    hide LitVal, Ordered, BitVal, Loopfree, Driven;
    forall v: Val ensures LitIs(c.Base(), gates, v, lit, BitFn(n, rank, c, b)(v)) {
      assert LitIs(c.Base(), gates, v, lit, BitVal(n, rank, c, v, b));
    }
  }

  /** What a register's latch is to hold next. */
  ghost function NextFn(n: Netlist, rank: nat -> nat, c: Layout, l: nat): Fn
    requires l < |n.data|
  {
    if c.zinit && l in n.inits && n.inits[l] then NotFn(BitFn(n, rank, c, n.data[l])) else BitFn(n, rank, c, n.data[l])
  }

  /** The latches of the first `k` registers are connected. */
  ghost predicate Latched(n: Netlist, rank: nat -> nat, c: Layout, gates: seq<(nat, nat)>, latchin: seq<nat>, k: nat) {
    k <= |latchin| && k <= |n.data| &&
        forall l :: 0 <= l < k ==> LitFn(c.Base(), gates, latchin[l], NextFn(n, rank, c, l))
  }

  lemma NoneLatched(n: Netlist, rank: nat -> nat, c: Layout, gates: seq<(nat, nat)>, latchin: seq<nat>)
    ensures Latched(n, rank, c, gates, latchin, 0)
  {
  }

  lemma LatchedLater(n: Netlist, rank: nat -> nat, c: Layout, gates: seq<(nat, nat)>, more: seq<(nat, nat)>,
      latchin: seq<nat>, latchin': seq<nat>, k: nat)
    requires Latched(n, rank, c, gates, latchin, k) && gates <= more && Ordered(c.Base(), more) && latchin <= latchin'
    ensures Latched(n, rank, c, more, latchin', k)
  {
    hide LitFn, NextFn, Ordered;
    forall l | 0 <= l < k ensures LitFn(c.Base(), more, latchin'[l], NextFn(n, rank, c, l)) {
      FnLater(c.Base(), gates, more, latchin[l], NextFn(n, rank, c, l));
    }
  }

  // ---------------------------------------------------------------- outputs, assertions and assumptions

  /** Literals that compute these functions, one each. */
  ghost predicate LitFns(base: nat, gates: seq<(nat, nat)>, lits: seq<nat>, fns: seq<Fn>) {
    |lits| == |fns| && forall k :: 0 <= k < |lits| ==> LitFn(base, gates, lits[k], fns[k])
  }

  lemma FnsLater(base: nat, gates: seq<(nat, nat)>, more: seq<(nat, nat)>, lits: seq<nat>, fns: seq<Fn>)
    requires LitFns(base, gates, lits, fns) && gates <= more && Ordered(base, more)
    ensures LitFns(base, more, lits, fns)
  {
    hide LitFn, Ordered;
    forall k | 0 <= k < |lits| ensures LitFn(base, more, lits[k], fns[k]) {
      FnLater(base, gates, more, lits[k], fns[k]);
    }
  }

  lemma NoFns(base: nat, gates: seq<(nat, nat)>, fns: seq<Fn>)
    ensures LitFns(base, gates, [], fns[..0])
  {
  }

  lemma FnsMore(base: nat, gates: seq<(nat, nat)>, more: seq<(nat, nat)>, lits: seq<nat>, fns: seq<Fn>, lit: nat)
    requires |lits| < |fns| && LitFns(base, gates, lits, fns[..|lits|]) && gates <= more && Ordered(base, more)
    requires LitFn(base, more, lit, fns[|lits|])
    ensures LitFns(base, more, lits + [lit], fns[..|lits| + 1])
  {
    hide LitFn, Ordered;
    FnsLater(base, gates, more, lits, fns[..|lits|]);
    assert forall k :: 0 <= k < |lits| ==> fns[..|lits|][k] == fns[..|lits| + 1][k];
  }

  ghost function OutFns(n: Netlist, rank: nat -> nat, c: Layout, outputs: seq<Bit>): (s: seq<Fn>)
    ensures |s| == |outputs| && forall k :: 0 <= k < |s| ==> s[k] == BitFn(n, rank, c, outputs[k])
  {
    seq(|outputs|, k requires 0 <= k < |outputs| => BitFn(n, rank, c, outputs[k]))
  }

  ghost function BadFn(n: Netlist, rank: nat -> nat, c: Layout, p: (Bit, Bit)): Fn {
    AndFn(NotFn(BitFn(n, rank, c, p.0)), BitFn(n, rank, c, p.1))
  }

  ghost function BadFns(n: Netlist, rank: nat -> nat, c: Layout, asserts: seq<(Bit, Bit)>): (s: seq<Fn>)
    ensures |s| == |asserts| && forall k :: 0 <= k < |s| ==> s[k] == BadFn(n, rank, c, asserts[k])
  {
    seq(|asserts|, k requires 0 <= k < |asserts| => BadFn(n, rank, c, asserts[k]))
  }

  ghost function ConstraintFns(n: Netlist, rank: nat -> nat, c: Layout, assumes: seq<(Bit, Bit)>): (s: seq<Fn>)
    ensures |s| == |assumes| && forall k :: 0 <= k < |s| ==> s[k] == NotFn(BadFn(n, rank, c, assumes[k]))
  {
    seq(|assumes|, k requires 0 <= k < |assumes| => NotFn(BadFn(n, rank, c, assumes[k])))
  }

  // ---------------------------------------------------------------- liveness and fairness properties

  function LiveInput(c: Layout, k: nat): nat
    requires c.live <= c.inputs
  {
    c.inputs - c.live + k + 1
  }

  /** Set once the extra input has picked a moment at which the enable holds. */
  ghost function PickedFn(n: Netlist, rank: nat -> nat, c: Layout, k: nat, p: (Bit, Bit)): Fn
    requires c.live <= c.inputs
  {
    OrFn(AndFn(VarFn(LiveInput(c, k)), BitFn(n, rank, c, p.1)), VarFn(c.OwnLatches(n) + 2 * k + 1))
  }

  /** Set once the property bit has held since. */
  ghost function MetFn(n: Netlist, rank: nat -> nat, c: Layout, k: nat, p: (Bit, Bit)): Fn
    requires c.live <= c.inputs
  {
    OrFn(AndFn(PickedFn(n, rank, c, k, p), BitFn(n, rank, c, p.0)), VarFn(c.OwnLatches(n) + 2 * k + 2))
  }

  function JusticeFn(n: Netlist, c: Layout, k: nat): Fn {
    AndFn(VarFn(c.OwnLatches(n) + 2 * k + 1), NotFn(VarFn(c.OwnLatches(n) + 2 * k + 2)))
  }

  /** An enable is waiting for the property bit. */
  ghost function WaitFn(n: Netlist, rank: nat -> nat, c: Layout, k: nat, p: (Bit, Bit)): Fn {
    AndFn(OrFn(VarFn(c.OwnLatches(n) + 2 * c.live + k + 1), BitFn(n, rank, c, p.1)), NotFn(BitFn(n, rank, c, p.0)))
  }

  function FairFn(n: Netlist, c: Layout, k: nat): Fn {
    NotFn(VarFn(c.OwnLatches(n) + 2 * c.live + k + 1))
  }

  /** The first `k` liveness properties have their latches and justice literals. */
  ghost predicate LiveBuilt(n: Netlist, rank: nat -> nat, c: Layout, gates: seq<(nat, nat)>, latchin: seq<nat>,
      justice: seq<nat>, liveness: seq<(Bit, Bit)>, k: nat)
  {
    && c.live <= c.inputs && k <= |justice| && k <= |liveness| && c.OwnLatches(n) - c.inputs + 2 * k <= |latchin|
    && forall j :: 0 <= j < k ==> LiveBuiltAt(n, rank, c, gates, latchin, justice[j], liveness[j], j)
  }

  ghost predicate LiveBuiltAt(n: Netlist, rank: nat -> nat, c: Layout, gates: seq<(nat, nat)>, latchin: seq<nat>,
      out: nat, p: (Bit, Bit), j: nat)
    requires c.live <= c.inputs && c.OwnLatches(n) - c.inputs + 2 * j + 1 < |latchin|
  {
    var own := c.OwnLatches(n) - c.inputs + 2 * j;
    && LitFn(c.Base(), gates, latchin[own], PickedFn(n, rank, c, j, p))
    && LitFn(c.Base(), gates, latchin[own + 1], MetFn(n, rank, c, j, p))
    && LitFn(c.Base(), gates, out, JusticeFn(n, c, j))
  }

  ghost predicate FairBuilt(n: Netlist, rank: nat -> nat, c: Layout, gates: seq<(nat, nat)>, latchin: seq<nat>,
      fair: seq<nat>, fairness: seq<(Bit, Bit)>, k: nat)
  {
    && k <= |fair| && k <= |fairness| && c.OwnLatches(n) - c.inputs + 2 * c.live + k <= |latchin|
    && forall j :: 0 <= j < k ==> FairBuiltAt(n, rank, c, gates, latchin, fair[j], fairness[j], j)
  }

  ghost predicate FairBuiltAt(n: Netlist, rank: nat -> nat, c: Layout, gates: seq<(nat, nat)>, latchin: seq<nat>,
      out: nat, p: (Bit, Bit), j: nat)
    requires c.OwnLatches(n) - c.inputs + 2 * c.live + j < |latchin|
  {
    && LitFn(c.Base(), gates, latchin[c.OwnLatches(n) - c.inputs + 2 * c.live + j], WaitFn(n, rank, c, j, p))
    && LitFn(c.Base(), gates, out, FairFn(n, c, j))
  }

  lemma LiveLater(n: Netlist, rank: nat -> nat, c: Layout, gates: seq<(nat, nat)>, more: seq<(nat, nat)>,
      latchin: seq<nat>, latchin': seq<nat>, justice: seq<nat>, justice': seq<nat>, liveness: seq<(Bit, Bit)>, k: nat)
    requires LiveBuilt(n, rank, c, gates, latchin, justice, liveness, k) && gates <= more &&
        Ordered(c.Base(), more) && latchin <= latchin' && justice <= justice'
    ensures LiveBuilt(n, rank, c, more, latchin', justice', liveness, k)
  {
    hide LitFn, PickedFn, MetFn, JusticeFn, Ordered;
    forall j | 0 <= j < k ensures LiveBuiltAt(n, rank, c, more, latchin', justice'[j], liveness[j], j) {
      assert LiveBuiltAt(n, rank, c, gates, latchin, justice[j], liveness[j], j);
      var own := c.OwnLatches(n) - c.inputs + 2 * j;
      FnLater(c.Base(), gates, more, latchin[own], PickedFn(n, rank, c, j, liveness[j]));
      FnLater(c.Base(), gates, more, latchin[own + 1], MetFn(n, rank, c, j, liveness[j]));
      FnLater(c.Base(), gates, more, justice[j], JusticeFn(n, c, j));
    }
  }

  lemma FairLater(n: Netlist, rank: nat -> nat, c: Layout, gates: seq<(nat, nat)>, more: seq<(nat, nat)>,
      latchin: seq<nat>, latchin': seq<nat>, fair: seq<nat>, fair': seq<nat>, fairness: seq<(Bit, Bit)>, k: nat)
    requires FairBuilt(n, rank, c, gates, latchin, fair, fairness, k) && gates <= more && Ordered(c.Base(), more) &&
        latchin <= latchin' && fair <= fair'
    ensures FairBuilt(n, rank, c, more, latchin', fair', fairness, k)
  {
    hide LitFn, WaitFn, FairFn, Ordered;
    forall j | 0 <= j < k ensures FairBuiltAt(n, rank, c, more, latchin', fair'[j], fairness[j], j) {
      assert FairBuiltAt(n, rank, c, gates, latchin, fair[j], fairness[j], j);
      FnLater(c.Base(), gates, more, latchin[c.OwnLatches(n) - c.inputs + 2 * c.live + j],
          WaitFn(n, rank, c, j, fairness[j]));
      FnLater(c.Base(), gates, more, fair[j], FairFn(n, c, j));
    }
  }

  // ---------------------------------------------------------------- numbering

  /** Literals of the constants and the first `i` inputs. */
  function InputMap(i: nat): map<Bit, nat> {
    if i == 0 then map[Zero := 0, One := 1] else InputMap(i - 1)[In(i - 1) := 2 * i]
  }

  /** The first `l` registers as plain latches after `aigI` inputs. */
  function RawMap(inputs: nat, aigI: nat, l: nat): map<Bit, nat> {
    if l == 0 then InputMap(inputs) else RawMap(inputs, aigI, l - 1)[Q(l - 1) := 2 * (aigI + l)]
  }

  lemma {:induction false} InputMapAt(i: nat, b: Bit)
    ensures b in InputMap(i) <==> b == Zero || b == One || (b.In? && b.i < i)
    ensures b in InputMap(i) ==> InputMap(i)[b] == if b == Zero then 0 else if b == One then 1 else 2 * (b.i + 1)
  {
    if i > 0 { InputMapAt(i - 1, b); }
  }

  lemma {:induction false} RawMapAt(inputs: nat, aigI: nat, l: nat, b: Bit)
    ensures b in RawMap(inputs, aigI, l) <==> b in InputMap(inputs) || (b.Q? && b.l < l)
    ensures b in InputMap(inputs) ==> RawMap(inputs, aigI, l)[b] == InputMap(inputs)[b]
    ensures b.Q? && b.l < l ==> RawMap(inputs, aigI, l)[b] == 2 * (aigI + b.l + 1)
  {
    hide InputMap;
    InputMapAt(inputs, b);
    if l > 0 { RawMapAt(inputs, aigI, l - 1, b); }
  }

  /** Registers below `l` without initial value. */
  function Missing(n: Netlist, l: nat): nat {
    if l == 0 then 0 else Missing(n, l - 1) + if l - 1 in n.inits then 0 else 1
  }

  function InitVars(n: Netlist, l: nat): map<nat, nat> {
    if l == 0 then map[]
    else if l - 1 in n.inits then InitVars(n, l - 1)
    else InitVars(n, l - 1)[l - 1 := n.inputs + Missing(n, l)]
  }

  lemma {:induction false} InitVarsAt(n: Netlist, l: nat, k: nat)
    ensures k in InitVars(n, l) <==> k < l && k !in n.inits
    ensures k in InitVars(n, l) ==>
        InitVars(n, l)[k] == n.inputs + Missing(n, k + 1) && Missing(n, k + 1) <= Missing(n, l)
  {
    if l > 0 { InitVarsAt(n, l - 1, k); }
  }

  lemma {:induction false} MissingGrows(n: Netlist, k: nat, l: nat)
    requires k < l
    ensures Missing(n, k) <= Missing(n, l) && (k !in n.inits ==> Missing(n, k) < Missing(n, l))
  {
    if k + 1 < l { MissingGrows(n, k, l - 1); }
  }

  function LatchInit(n: Netlist, l: nat): nat {
    if l !in n.inits then 2 else if n.inits[l] then 1 else 0
  }

  /** The numbering as the writer leaves it. */
  function LayoutOf(n: Netlist, zinit: bool, live: nat, fair: nat): Layout {
    var inits := if zinit then InitVars(n, |n.data|) else map[];
    var inputs := n.inputs + (if zinit then Missing(n, |n.data|) else 0) + live;
    var marked := HasMarker(n) || |inits| > 0;
    Layout(zinit, inputs, |n.data| + (if marked then 1 else 0) + 2 * live + fair,
        if marked then inputs + |n.data| + 1 else 0, inits, live, fair)
  }

  lemma LayoutLaidOut(n: Netlist, zinit: bool, live: nat, fair: nat)
    ensures LaidOut(n, LayoutOf(n, zinit, live, fair))
  {
    hide Missing, InitVars, HasMarker;
    var c := LayoutOf(n, zinit, live, fair);
    var vars := InitVars(n, |n.data|);
    if zinit {
      forall l | l in c.initInputs ensures n.inputs < c.initInputs[l] <= c.inputs - c.live {
        InitVarsAt(n, |n.data|, l);
        MissingGrows(n, l, l + 1);
      }
      forall l, k | l in c.initInputs && k in c.initInputs && l != k ensures c.initInputs[l] != c.initInputs[k] {
        InitVarsAt(n, |n.data|, l);
        InitVarsAt(n, |n.data|, k);
        InitVarsOrder(n, l, k);
      }
      forall l: nat | l < |n.data| && l !in n.inits ensures l in c.initInputs && c.marker != 0 {
        InitVarsAt(n, |n.data|, l);
        assert vars != map[];
      }
    }
  }

  lemma InitVarsOrder(n: Netlist, l: nat, k: nat)
    requires l != k && l !in n.inits && k !in n.inits
    ensures Missing(n, l + 1) != Missing(n, k + 1)
  {
    if l < k { MissingStep(n, l, k); } else { MissingStep(n, k, l); }
  }

  lemma MissingStep(n: Netlist, l: nat, k: nat)
    requires l < k && k !in n.inits
    ensures Missing(n, l + 1) < Missing(n, k + 1)
  {
    if l + 1 < k { MissingGrows(n, l + 1, k); }
  }

  class AigerWriter {
    const n: Netlist
    const zinit: bool
    ghost const rank: nat -> nat
    const outputs: seq<Bit>
    // Pairs of a property bit and its enable.
    const asserts: seq<(Bit, Bit)>
    const assumes: seq<(Bit, Bit)>
    const liveness: seq<(Bit, Bit)>
    const fairness: seq<(Bit, Bit)>
    var aigM: nat
    var aigI: nat
    var aigL: nat
    var aigA: nat
    var gates: seq<(nat, nat)>
    var latchin: seq<nat>
    var latchinit: seq<nat>
    var outs: seq<nat>
    var bads: seq<nat>
    var constraints: seq<nat>
    var justice: seq<nat>
    var fair: seq<nat>
    var aigMap: map<Bit, nat>
    var initInputs: map<nat, nat>
    var initstateFf: nat
    // The variables behind the two.
    ghost var initVars: map<nat, nat>
    ghost var marker: nat

    ghost function View(): Layout
      reads this
    {
      Layout(zinit, aigI, aigL, marker, initVars, |liveness|, |fairness|)
    }

    ghost predicate Valid()
      reads this
    {
      && aigA == |gates| && aigM == aigI + aigL + aigA && LitsOf(initInputs, initVars)
      && initstateFf == (if marker == 0 then 0 else 2 * marker + 1)
      && Ready(n, rank, View(), gates, aigMap)
    }

    method MkGate(a0: nat, a1: nat) returns (lit: nat)
      requires aigA == |gates| && aigM == aigI + aigL + aigA && Ordered(aigI + aigL, gates) &&
          IsLit(aigI + aigL, gates, a0) && IsLit(aigI + aigL, gates, a1)
      modifies this`aigM, this`aigA, this`gates
      ensures aigA == |gates| && aigM == aigI + aigL + aigA && gates == old(gates) + [NewGate(a0, a1)] &&
          lit == 2 * aigM
      ensures Ordered(aigI + aigL, gates) && IsLit(aigI + aigL, gates, lit)
      ensures IsAnd(aigI + aigL, old(gates), gates, a0, a1, lit)
    {
      GateIsAnd(aigI + aigL, gates, a0, a1);
      aigM, aigA := aigM + 1, aigA + 1;
      gates := gates + [if a0 > a1 then (a0, a1) else (a1, a0)];
      lit := 2 * aigM;
    }

    constructor (n: Netlist, zinit: bool, ghost rank: nat -> nat, outputs: seq<Bit>, asserts: seq<(Bit, Bit)>,
        assumes: seq<(Bit, Bit)>,
                 liveness: seq<(Bit, Bit)>, fairness: seq<(Bit, Bit)>)
      ensures this.n == n && this.zinit == zinit && this.rank == rank && this.liveness == liveness &&
          this.fairness == fairness && Blank()
      ensures this.outputs == outputs && this.asserts == asserts && this.assumes == assumes
    {
      this.outputs, this.asserts, this.assumes := outputs, asserts, assumes;
      outs, bads, constraints := [], [], [];
      this.n, this.zinit, this.rank, this.liveness, this.fairness := n, zinit, rank, liveness, fairness;
      aigM, aigI, aigL, aigA, gates := 0, 0, 0, 0, [];
      latchin, latchinit, justice, fair := [], [], [], [];
      aigMap, initInputs, initstateFf := map[], map[], 0;
      initVars, marker := map[], 0;
    }

    ghost predicate Blank()
      reads this
    {
      && aigM == aigI == aigL == aigA == 0 && gates == [] && latchin == [] && latchinit == [] && justice == []
      && fair == []
      && outs == [] && bads == [] && constraints == []
      && aigMap == map[] && initInputs == map[] && initstateFf == 0 && initVars == map[] && marker == 0
    }

    /** Numbers the inputs: those of the netlist, one per missing initial value, one per liveness property. */
    method AllocateInputs()
      requires Blank()
      modifies this`aigM, this`aigI, this`aigMap, this`initInputs, this`initVars
      ensures aigM == aigI == n.inputs + (if zinit then Missing(n, |n.data|) else 0) + |liveness|
      ensures aigMap == InputMap(n.inputs) && LitsOf(initInputs, initVars) &&
          initVars == if zinit then InitVars(n, |n.data|) else map[]
    {
      aigMap := map[Zero := 0, One := 1];
      for i := 0 to n.inputs
        invariant aigM == aigI == i && aigMap == InputMap(i) && initInputs == map[] && initVars == map[]
      {
        aigM, aigI := aigM + 1, aigI + 1;
        aigMap := aigMap[In(i) := 2 * aigM];
      }
      if zinit {
        for l := 0 to |n.data|
          invariant aigM == aigI == n.inputs + Missing(n, l) && aigMap == InputMap(n.inputs) &&
              LitsOf(initInputs, initVars) && initVars == InitVars(n, l)
        {
          if l !in n.inits {
            aigM, aigI := aigM + 1, aigI + 1;
            initInputs := initInputs[l := 2 * aigM];
            initVars := initVars[l := aigM];
          }
        }
      }
      aigM, aigI := aigM + |liveness|, aigI + |liveness|;
    }

    /** Numbers the latches of the registers. */
    method AllocateRegisters()
      requires aigM == aigI && aigL == 0 && latchinit == [] && aigMap == InputMap(n.inputs)
      modifies this`aigM, this`aigL, this`aigMap, this`latchinit
      ensures aigM == aigI + aigL && aigL == |n.data| && aigMap == RawMap(n.inputs, aigI, |n.data|)
      ensures |latchinit| == aigL && forall l :: 0 <= l < |n.data| ==> latchinit[l] == LatchInit(n, l)
    {
      for l := 0 to |n.data|
        invariant aigM == aigI + l && aigL == l && aigMap == RawMap(n.inputs, aigI, l) && |latchinit| == l
        invariant forall k :: 0 <= k < l ==> latchinit[k] == LatchInit(n, k)
      {
        aigM, aigL := aigM + 1, aigL + 1;
        aigMap := aigMap[Q(l) := 2 * aigM];
        latchinit := latchinit + [if l !in n.inits then 2 else if n.inits[l] then 1 else 0];
      }
    }

    /** Numbers the marker of the first cycle, if anything needs it, and the latches of the properties. */
    method AllocateOthers()
      requires aigM == aigI + aigL && aigL == |n.data| == |latchinit| && initstateFf == 0 && marker == 0
      modifies this`aigM, this`aigL, this`latchinit, this`initstateFf, this`marker
      ensures marker == (if HasMarker(n) || |initInputs| > 0 then aigI + |n.data| + 1 else 0) &&
          initstateFf == if marker == 0 then 0 else 2 * marker + 1
      ensures aigM == aigI + aigL &&
          aigL == |n.data| + (if HasMarker(n) || |initInputs| > 0 then 1 else 0) + 2 * |liveness| + |fairness|
      ensures |latchinit| == aigL && latchinit[..|n.data|] == old(latchinit) &&
          forall l :: |n.data| <= l < aigL ==> latchinit[l] == 0
    {
      hide HasMarker;
      if HasMarker(n) || |initInputs| > 0 {
        aigM, aigL := aigM + 1, aigL + 1;
        initstateFf := 2 * aigM + 1;
        marker := aigM;
        latchinit := latchinit + [0];
      }
      var count := |fairness| + 2 * |liveness|;
      ghost var l0, ff, mk := |latchinit|, initstateFf, marker;
      aigM, aigL := aigM + count, aigL + count;
      for i := 0 to count
        invariant |latchinit| == l0 + i && aigM == aigI + l0 + count && aigL == l0 + count && initstateFf == ff &&
            marker == mk
        invariant latchinit[..|n.data|] == old(latchinit) &&
            forall l :: |n.data| <= l < |latchinit| ==> latchinit[l] == 0
      {
        latchinit := latchinit + [0];
      }
    }

    /** Gives one register its literal: inverted when it starts at 1, gated with its input when it starts anywhere. */
    method MapRegister(l: nat)
      requires aigA == |gates| && aigM == aigI + aigL + aigA && zinit && l < |n.data| && l < |latchinit| &&
          latchinit[l] == LatchInit(n, l)
      requires Mapped(n, rank, View(), gates, aigMap, l) && LitsOf(initInputs, initVars) &&
          initstateFf == if marker == 0 then 0 else 2 * marker + 1
      modifies this`aigM, this`aigA, this`gates, this`aigMap
      ensures aigA == |gates| && aigM == aigI + aigL + aigA && Mapped(n, rank, View(), gates, aigMap, l + 1)
    {
      hide Computes, LaidOut, Loopfree, Mapped, Ordered, IsLit, Picking;
      ghost var c, before := View(), gates;
      MappedRaw(n, rank, c, gates, aigMap, l);
      if latchinit[l] != 2 {
        var lit := if latchinit[l] == 1 then Flip(aigMap[Q(l)]) else aigMap[Q(l)];
        StoredComputes(n, rank, c, gates, l);
        MappedStep(n, rank, c, gates, gates, aigMap, l, lit);
        aigMap := aigMap[Q(l) := lit];
      } else {
        PickedVars(n, c, l);
        LitOfVar(c.Base(), gates, _ => false, c.inputs + l + 1);
        LitOfVar(c.Base(), gates, _ => false, c.initInputs[l]);
        LitOfVar(c.Base(), gates, _ => false, c.marker);
        PickedComputes(n, rank, c, gates, l);
        var lit := Pick(aigMap[Q(l)], initInputs[l], initstateFf);
        MappedStep(n, rank, c, before, gates, aigMap, l, lit);
        aigMap := aigMap[Q(l) := lit];
      }
    }

    /** Three gates that show `other` while `sel` holds, else `q`. */
    method Pick(q: nat, other: nat, sel: nat) returns (lit: nat)
      requires aigA == |gates| && aigM == aigI + aigL + aigA && Ordered(aigI + aigL, gates)
      requires IsLit(aigI + aigL, gates, q) && IsLit(aigI + aigL, gates, other) && IsLit(aigI + aigL, gates, sel)
      modifies this`aigM, this`aigA, this`gates
      ensures aigA == |gates| && aigM == aigI + aigL + aigA &&
          gates == Picking(old(gates), aigI + aigL, q, other, sel) && lit == Flip(2 * aigM)
      ensures old(gates) <= gates && Ordered(aigI + aigL, gates)
    {
      hide NewGate, Ordered;
      var gatedFfout := MkGate(q, Flip(sel));
      var gatedInitin := MkGate(other, sel);
      lit := MkGate(Flip(gatedFfout), Flip(gatedInitin));
      lit := Flip(lit);
    }

    /** The gate of an inner and-bit whose operands have literals. */
    method AndOf(ghost id: nat, ghost x: Bit, a0: nat, ghost y: Bit, a1: nat) returns (a: nat)
      requires Valid() && id in n.defs && n.defs[id] == And(x, y) && Computes(n, rank, View(), gates, x, a0) &&
          Computes(n, rank, View(), gates, y, a1)
      modifies this`aigM, this`aigA, this`gates
      ensures Valid() && old(gates) <= gates && Computes(n, rank, View(), gates, Inner(id), a)
    {
      hide Loopfree, Computes, Ordered, Ready, IsLit, NewGate, LaidOut;
      ghost var c, before := View(), gates;
      ReadyFacts(n, rank, c, gates, aigMap);
      AndComputes(n, rank, c, gates, id, x, a0, y, a1);
      ComputesLits(n, rank, c, gates, x, a0);
      ComputesLits(n, rank, c, gates, y, a1);
      a := MkGate(a0, a1);
      ReadyLater(n, rank, c, before, gates, aigMap);
    }

    /** The literal of a bit; gates are made on demand and remembered. */
    method Bit2Aig(bit: Bit) returns (a: nat)
      requires Valid() && Driven(n, bit)
      modifies this`aigM, this`aigA, this`gates, this`aigMap
      ensures Valid() && old(gates) <= gates && Extends(old(aigMap), aigMap)
      ensures bit in aigMap && aigMap[bit] == a && Computes(n, rank, View(), gates, bit, a)
      decreases Height(rank, bit)
    {
      hide Loopfree, Computes, Ordered, Driven, Ready, IsLit, NewGate, Extends, LaidOut, LitsOf, Flip, Layout.Base,
          Layout.OwnLatches;
      ghost var c, known := View(), aigMap;
      ExtendsItself(known);
      ReadyFacts(n, rank, c, gates, aigMap);
      if bit in aigMap {
        ReadyComputes(n, rank, c, gates, aigMap, bit);
        return aigMap[bit];
      }
      NotYet(n, rank, c, gates, aigMap, bit);
      InnerDef(n, rank, bit.id);
      match n.defs[bit.id] {
        case Not(x) =>
          a := Bit2Aig(x);
          NotComputes(n, rank, c, gates, bit.id, x, a);
          a := Flip(a);
        case And(x, y) =>
          var a0 := Bit2Aig(x);
          ghost var before, known1 := gates, aigMap;
          var a1 := Bit2Aig(y);
          ExtendsMore(known, known1, aigMap);
          ReadyFacts(n, rank, c, gates, aigMap);
          ComputesLater(n, rank, c, before, gates, x, a0);
          a := AndOf(bit.id, x, a0, y, a1);
        case Alias(x) =>
          a := Bit2Aig(x);
          AliasComputes(n, rank, c, gates, bit.id, x, a);
        case InitState =>
          MarkerComputes(n, rank, c, gates, bit.id);
          a := initstateFf;
      }
      ReadyAdd(n, rank, c, gates, aigMap, bit, a);
      ExtendsNew(known, aigMap, bit, a);
      aigMap := aigMap[bit := a];
    }

    /** Connects the latches of the registers, and the marker's, which holds 1 from the second cycle on. */
    method ConnectLatches()
      requires Valid() && latchin == [] && |latchinit| >= |n.data| &&
          forall l :: 0 <= l < |n.data| ==> latchinit[l] == LatchInit(n, l)
      modifies this`aigM, this`aigA, this`gates, this`aigMap, this`latchin
      ensures Valid() && Latched(n, rank, View(), gates, latchin, |n.data|)
      ensures |latchin| == |n.data| + (if View().marker != 0 then 1 else 0) &&
          (View().marker != 0 ==> latchin[|n.data|] == 1)
    {
      hide Ready, LitsOf, Latched, LitFn;
      ghost var c := View();
      NoneLatched(n, rank, c, gates, latchin);
      for l := 0 to |n.data|
        invariant Valid() && |latchin| == l && View() == c && Latched(n, rank, c, gates, latchin, l)
      {
        ConnectLatch(l);
      }
      if initstateFf != 0 {
        ghost var latchin0 := latchin;
        ReadyFacts(n, rank, c, gates, aigMap);
        latchin := latchin + [1];
        LatchedLater(n, rank, c, gates, gates, latchin0, latchin, |n.data|);
      }
    }

    method ConnectLatch(l: nat)
      requires Valid() && l < |n.data| && |latchin| == l && l < |latchinit| && latchinit[l] == LatchInit(n, l) &&
          Latched(n, rank, View(), gates, latchin, l)
      modifies this`aigM, this`aigA, this`gates, this`aigMap, this`latchin
      ensures Valid() && |latchin| == l + 1 && Latched(n, rank, View(), gates, latchin, l + 1)
    {
      hide Loopfree, Computes, Ordered, Driven, Ready, LitFn, LaidOut, LitsOf, Flip, BitFn, NotFn;
      ghost var c, before, latchin0 := View(), gates, latchin;
      ReadyFacts(n, rank, c, gates, aigMap);
      DataDriven(n, rank, l);
      var a := Bit2Aig(n.data[l]);
      ReadyFacts(n, rank, c, gates, aigMap);
      FnBit(n, rank, c, gates, n.data[l], a);
      FnNot(c.Base(), gates, a, BitFn(n, rank, c, n.data[l]));
      latchin := latchin + [if zinit && latchinit[l] == 1 then Flip(a) else a];
      LatchedLater(n, rank, c, before, gates, latchin0, latchin, l);
    }

    /** A gate on two literals with known meaning. */
    method MkAnd(a0: nat, ghost f: Fn, a1: nat, ghost g: Fn) returns (lit: nat)
      requires Valid() && LitFn(aigI + aigL, gates, a0, f) && LitFn(aigI + aigL, gates, a1, g)
      modifies this`aigM, this`aigA, this`gates
      ensures Valid() && old(gates) <= gates && Ordered(aigI + aigL, gates) &&
          LitFn(aigI + aigL, gates, lit, AndFn(f, g))
    {
      ghost var before := gates;
      FnAnd(aigI + aigL, gates, a0, f, a1, g);
      hide LitVal, Loopfree, LaidOut, Computes, NewGate, AndFn, Ready;
      lit := MkGate(a0, a1);
      ReadyLater(n, rank, View(), before, gates, aigMap);
    }

    method MkOr(a0: nat, ghost f: Fn, a1: nat, ghost g: Fn) returns (lit: nat)
      requires Valid() && LitFn(aigI + aigL, gates, a0, f) && LitFn(aigI + aigL, gates, a1, g)
      modifies this`aigM, this`aigA, this`gates
      ensures Valid() && old(gates) <= gates && Ordered(aigI + aigL, gates) &&
          LitFn(aigI + aigL, gates, lit, OrFn(f, g))
    {
      hide LitFn, Ready;
      FnNot(aigI + aigL, gates, a0, f);
      FnNot(aigI + aigL, gates, a1, g);
      var t := MkAnd(Flip(a0), NotFn(f), Flip(a1), NotFn(g));
      FnNot(aigI + aigL, gates, t, AndFn(NotFn(f), NotFn(g)));
      FnSame(aigI + aigL, gates, Flip(t), NotFn(AndFn(NotFn(f), NotFn(g))), OrFn(f, g));
      lit := Flip(t);
    }

    /** The two latches and the justice literal of a liveness property. */
    method AddLiveness(k: nat)
      requires Valid() && k < |liveness| && Driven(n, liveness[k].0) && Driven(n, liveness[k].1)
      requires |latchin| == View().OwnLatches(n) - aigI + 2 * k && |justice| == k &&
          LiveBuilt(n, rank, View(), gates, latchin, justice, liveness, k)
      requires Latched(n, rank, View(), gates, latchin, |n.data|)
      modifies this`aigM, this`aigA, this`gates, this`aigMap, this`latchin, this`justice
      ensures Valid() && |latchin| == old(|latchin|) + 2 && |justice| == k + 1 && old(latchin) <= latchin &&
          old(gates) <= gates
      ensures LiveBuilt(n, rank, View(), gates, latchin, justice, liveness, k + 1) &&
          Latched(n, rank, View(), gates, latchin, |n.data|)
    {
      hide Loopfree, Computes, Ordered, Driven, Ready, LitFn, LitsOf, Flip, BitFn, LaidOut, LitVal, Latched;
      ghost var c, gates0, latchin0, justice0 := View(), gates, latchin, justice;
      var p := liveness[k];
      ReadyFacts(n, rank, c, gates, aigMap);
      PropertyVars(n, c, k);
      var d1, d2, out := LiveGates(k);
      ReadyFacts(n, rank, c, gates, aigMap);
      latchin := latchin + [d1, d2];
      justice := justice + [out];
      LiveLater(n, rank, c, gates0, gates, latchin0, latchin, justice0, justice, liveness, k);
      LatchedLater(n, rank, c, gates0, gates, latchin0, latchin, |n.data|);
      assert LiveBuiltAt(n, rank, c, gates, latchin, justice[k], liveness[k], k);
    }

    method LiveGates(k: nat) returns (d1: nat, d2: nat, out: nat)
      requires Valid() && k < |liveness| && Driven(n, liveness[k].0) && Driven(n, liveness[k].1)
      modifies this`aigM, this`aigA, this`gates, this`aigMap
      ensures Valid() && old(gates) <= gates && View().live <= View().inputs
      ensures LitFn(aigI + aigL, gates, d1, PickedFn(n, rank, View(), k, liveness[k])) &&
          LitFn(aigI + aigL, gates, d2, MetFn(n, rank, View(), k, liveness[k]))
      ensures LitFn(aigI + aigL, gates, out, JusticeFn(n, View(), k))
    {
      hide Loopfree, Computes, Ordered, Driven, Ready, LitFn, LitsOf, BitFn, LaidOut, AndFn, OrFn, NotFn, VarFn;
      ghost var c := View();
      ReadyFacts(n, rank, c, gates, aigMap);
      PropertyVars(n, c, k);
      var bitA, bitEn := PropertyBits(liveness[k]);
      d1, d2, out := LiveLogic(bitA, BitFn(n, rank, c, liveness[k].0), bitEn, BitFn(n, rank, c, liveness[k].1),
          aigI - |liveness| + k + 1,
                               PropertyLatch(2 * k + 1), PropertyLatch(2 * k + 2));
    }

    /** Literals of a property bit and its enable. */
    method PropertyBits(p: (Bit, Bit)) returns (bitA: nat, bitEn: nat)
      requires Valid() && Driven(n, p.0) && Driven(n, p.1)
      modifies this`aigM, this`aigA, this`gates, this`aigMap
      ensures Valid() && old(gates) <= gates && Ordered(aigI + aigL, gates)
      ensures LitFn(aigI + aigL, gates, bitA, BitFn(n, rank, View(), p.0)) &&
          LitFn(aigI + aigL, gates, bitEn, BitFn(n, rank, View(), p.1))
    {
      hide Loopfree, Computes, Ordered, Driven, Ready, LitFn, LitsOf, BitFn, LaidOut;
      ghost var c := View();
      bitA := Bit2Aig(p.0);
      ghost var g1 := gates;
      ReadyFacts(n, rank, c, gates, aigMap);
      FnBit(n, rank, c, gates, p.0, bitA);
      bitEn := Bit2Aig(p.1);
      ReadyFacts(n, rank, c, gates, aigMap);
      FnBit(n, rank, c, gates, p.1, bitEn);
      FnLater(c.Base(), g1, gates, bitA, BitFn(n, rank, c, p.0));
    }

    method LiveLogic(bitA: nat, ghost fa: Fn, bitEn: nat, ghost fe: Fn, s: nat, q1: nat, q2: nat) returns (d1: nat,
        d2: nat, out: nat)
      requires Valid() && Ordered(aigI + aigL, gates) && LitFn(aigI + aigL, gates, bitA, fa) &&
          LitFn(aigI + aigL, gates, bitEn, fe)
      requires 0 < s <= aigI + aigL && 0 < q1 <= aigI + aigL && 0 < q2 <= aigI + aigL
      modifies this`aigM, this`aigA, this`gates
      ensures Valid() && old(gates) <= gates
      ensures var picked := OrFn(AndFn(VarFn(s), fe), VarFn(q1));
              && LitFn(aigI + aigL, gates, d1, picked)
              && LitFn(aigI + aigL, gates, d2, OrFn(AndFn(picked, fa), VarFn(q2)))
              && LitFn(aigI + aigL, gates, out, AndFn(VarFn(q1), NotFn(VarFn(q2))))
    {
      hide Ordered, Ready, LitFn, LitsOf, AndFn, OrFn, NotFn, VarFn, Flip;
      var base := aigI + aigL;
      ghost var g0, picked := gates, OrFn(AndFn(VarFn(s), fe), VarFn(q1));
      FnVar(base, gates, s);
      var chosen := MkAnd(2 * s, VarFn(s), bitEn, fe);
      FnVar(base, gates, q1);
      d1 := MkOr(chosen, AndFn(VarFn(s), fe), 2 * q1, VarFn(q1));
      FnLater(base, g0, gates, bitA, fa);
      ghost var g1 := gates;
      var met := MkAnd(d1, picked, bitA, fa);
      FnVar(base, gates, q2);
      d2 := MkOr(met, AndFn(picked, fa), 2 * q2, VarFn(q2));
      ghost var g2 := gates;
      FnVar(base, gates, q1);
      FnVar(base, gates, q2);
      FnNot(base, gates, 2 * q2, VarFn(q2));
      out := MkAnd(2 * q1, VarFn(q1), Flip(2 * q2), NotFn(VarFn(q2)));
      FnLater(base, g1, gates, d1, picked);
      FnLater(base, g2, gates, d2, OrFn(AndFn(picked, fa), VarFn(q2)));
    }

    /** The latch and the literal of a fairness property. */
    method AddFairness(k: nat)
      requires Valid() && k < |fairness| && Driven(n, fairness[k].0) && Driven(n, fairness[k].1) && |fair| == k
      requires |latchin| == View().OwnLatches(n) - aigI + 2 * |liveness| + k &&
          FairBuilt(n, rank, View(), gates, latchin, fair, fairness, k)
      requires Latched(n, rank, View(), gates, latchin, |n.data|) &&
          LiveBuilt(n, rank, View(), gates, latchin, justice, liveness, |liveness|)
      modifies this`aigM, this`aigA, this`gates, this`aigMap, this`latchin, this`fair
      ensures Valid() && |latchin| == old(|latchin|) + 1 && |fair| == k + 1 && old(latchin) <= latchin &&
          old(gates) <= gates && FairBuilt(n, rank, View(), gates, latchin, fair, fairness, k + 1)
      ensures Latched(n, rank, View(), gates, latchin, |n.data|) &&
          LiveBuilt(n, rank, View(), gates, latchin, justice, liveness, |liveness|)
    {
      hide Loopfree, Computes, Ordered, Driven, Ready, LitFn, LitsOf, BitFn, LaidOut, LitVal, Latched, LiveBuilt,
          WaitFn, FairFn;
      ghost var c, gates0, latchin0, fair0 := View(), gates, latchin, fair;
      var d, out := FairGates(k);
      ReadyFacts(n, rank, c, gates, aigMap);
      latchin := latchin + [d];
      fair := fair + [out];
      FairLater(n, rank, c, gates0, gates, latchin0, latchin, fair0, fair, fairness, k);
      LatchedLater(n, rank, c, gates0, gates, latchin0, latchin, |n.data|);
      LiveLater(n, rank, c, gates0, gates, latchin0, latchin, justice, justice, liveness, |liveness|);
      assert FairBuiltAt(n, rank, c, gates, latchin, fair[k], fairness[k], k);
    }

    method FairGates(k: nat) returns (d: nat, out: nat)
      requires Valid() && k < |fairness| && Driven(n, fairness[k].0) && Driven(n, fairness[k].1)
      modifies this`aigM, this`aigA, this`gates, this`aigMap
      ensures Valid() && old(gates) <= gates
      ensures LitFn(aigI + aigL, gates, d, WaitFn(n, rank, View(), k, fairness[k])) &&
          LitFn(aigI + aigL, gates, out, FairFn(n, View(), k))
    {
      hide Loopfree, Computes, Ordered, Driven, Ready, LitFn, LitsOf, Flip, BitFn, LaidOut, AndFn, OrFn, NotFn, VarFn;
      ghost var c := View();
      ReadyFacts(n, rank, c, gates, aigMap);
      PropertyVars(n, c, 0);
      var base, q := aigI + aigL, PropertyLatch(2 * |liveness| + k + 1);
      var bitA, bitEn := PropertyBits(fairness[k]);
      FnVar(base, gates, q);
      ghost var fa, fe, g1 := BitFn(n, rank, c, fairness[k].0), BitFn(n, rank, c, fairness[k].1), gates;
      var waiting := MkOr(2 * q, VarFn(q), bitEn, fe);
      FnLater(base, g1, gates, bitA, fa);
      FnNot(base, gates, bitA, fa);
      d := MkAnd(waiting, OrFn(VarFn(q), fe), Flip(bitA), NotFn(fa));
      FnVar(base, gates, q);
      FnNot(base, gates, 2 * q, VarFn(q));
      out := Flip(2 * q);
    }

    /** The whole graph. */
    method Build()
      requires Blank() && Loopfree(n, rank)
      requires forall k :: 0 <= k < |liveness| ==> Driven(n, liveness[k].0) && Driven(n, liveness[k].1)
      requires forall k :: 0 <= k < |fairness| ==> Driven(n, fairness[k].0) && Driven(n, fairness[k].1)
      requires forall k :: 0 <= k < |outputs| ==> Driven(n, outputs[k])
      requires forall k :: 0 <= k < |asserts| ==> Driven(n, asserts[k].0) && Driven(n, asserts[k].1)
      requires forall k :: 0 <= k < |assumes| ==> Driven(n, assumes[k].0) && Driven(n, assumes[k].1)
      modifies this
      ensures Valid() && View() == LayoutOf(n, zinit, |liveness|, |fairness|)
      ensures LitFns(aigI + aigL, gates, outs, OutFns(n, rank, View(), outputs))
      ensures LitFns(aigI + aigL, gates, bads, BadFns(n, rank, View(), asserts))
      ensures LitFns(aigI + aigL, gates, constraints, ConstraintFns(n, rank, View(), assumes))
      ensures |latchinit| == aigL &&
          forall l :: 0 <= l < aigL ==> WrittenReset(zinit, latchinit[l]) == ResetOf(n, View(), l)
      ensures forall l :: 0 <= l < aigL ==>
                latchinit[l] == if l < |n.data| && l !in n.inits then 2
                                else if l < |n.data| && n.inits[l] then 1 else 0
      ensures Built(n, rank, View(), gates, latchin) && |justice| == |liveness| && |fair| == |fairness|
      ensures LiveBuilt(n, rank, View(), gates, latchin, justice, liveness, |liveness|) &&
          FairBuilt(n, rank, View(), gates, latchin, fair, fairness, |fairness|)
    {
      hide Ready, LitFns, Ordered, Latched, LaidOut, LiveBuilt, FairBuilt, OutFns, BadFns, ConstraintFns, Driven,
          Loopfree, LitsOf, LayoutOf, RawMap;
      Number();
      MapRegisters();
      ConnectLatches();
      ghost var g0 := gates;
      ConnectOutputs();
      LatchedLater(n, rank, View(), g0, gates, latchin, latchin, |n.data|);
      ghost var g1 := gates;
      ConnectProperties();
      FnsLater(aigI + aigL, g1, gates, outs, OutFns(n, rank, View(), outputs));
      FnsLater(aigI + aigL, g1, gates, bads, BadFns(n, rank, View(), asserts));
      FnsLater(aigI + aigL, g1, gates, constraints, ConstraintFns(n, rank, View(), assumes));
    }

    /** The literals of the outputs, of violated assertions and of met assumptions. */
    method ConnectOutputs()
      requires Valid() && outs == [] && bads == [] && constraints == []
      requires forall k :: 0 <= k < |outputs| ==> Driven(n, outputs[k])
      requires forall k :: 0 <= k < |asserts| ==> Driven(n, asserts[k].0) && Driven(n, asserts[k].1)
      requires forall k :: 0 <= k < |assumes| ==> Driven(n, assumes[k].0) && Driven(n, assumes[k].1)
      modifies this`aigM, this`aigA, this`gates, this`aigMap, this`outs, this`bads, this`constraints
      ensures Valid() && old(gates) <= gates && Ordered(aigI + aigL, gates)
      ensures LitFns(aigI + aigL, gates, outs, OutFns(n, rank, View(), outputs))
      ensures LitFns(aigI + aigL, gates, bads, BadFns(n, rank, View(), asserts))
      ensures LitFns(aigI + aigL, gates, constraints, ConstraintFns(n, rank, View(), assumes))
    {
      hide Ready, LitFns, Ordered, Driven, LitsOf, OutFns, BadFns, ConstraintFns;
      ConnectPlain();
      ghost var g1 := gates;
      ConnectBads();
      ghost var g2 := gates;
      ConnectConstraints();
      FnsLater(aigI + aigL, g1, gates, outs, OutFns(n, rank, View(), outputs));
      FnsLater(aigI + aigL, g2, gates, bads, BadFns(n, rank, View(), asserts));
    }

    method ConnectPlain()
      requires Valid() && outs == [] && forall k :: 0 <= k < |outputs| ==> Driven(n, outputs[k])
      modifies this`aigM, this`aigA, this`gates, this`aigMap, this`outs
      ensures Valid() && old(gates) <= gates && Ordered(aigI + aigL, gates) &&
          LitFns(aigI + aigL, gates, outs, OutFns(n, rank, View(), outputs))
    {
      hide Ready, LitFn, LitFns, Ordered, Driven, LitsOf, Loopfree, Computes, BitFn, OutFns, LaidOut;
      ghost var c := View();
      ReadyFacts(n, rank, c, gates, aigMap);
      NoFns(c.Base(), gates, OutFns(n, rank, c, outputs));
      for k := 0 to |outputs|
        invariant Valid() && old(gates) <= gates && |outs| == k && Ordered(c.Base(), gates)
        invariant LitFns(c.Base(), gates, outs, OutFns(n, rank, c, outputs)[..k])
      {
        ghost var g0 := gates;
        var lit := Bit2Aig(outputs[k]);
        ReadyFacts(n, rank, c, gates, aigMap);
        FnBit(n, rank, c, gates, outputs[k], lit);
        FnsMore(c.Base(), g0, gates, outs, OutFns(n, rank, c, outputs), lit);
        outs := outs + [lit];
      }
      assert OutFns(n, rank, c, outputs)[..|outputs|] == OutFns(n, rank, c, outputs);
    }

    /** The literal of a property that is enabled and does not hold. */
    method Violated(p: (Bit, Bit)) returns (lit: nat)
      requires Valid() && Driven(n, p.0) && Driven(n, p.1)
      modifies this`aigM, this`aigA, this`gates, this`aigMap
      ensures Valid() && old(gates) <= gates && Ordered(aigI + aigL, gates) &&
          LitFn(aigI + aigL, gates, lit, BadFn(n, rank, View(), p))
    {
      hide Ready, LitFn, Ordered, Driven, LitsOf, Loopfree, Computes, BitFn, AndFn, NotFn, Flip, LaidOut;
      ghost var c := View();
      var bitA, bitEn := PropertyBits(p);
      FnNot(c.Base(), gates, bitA, BitFn(n, rank, c, p.0));
      lit := MkAnd(Flip(bitA), NotFn(BitFn(n, rank, c, p.0)), bitEn, BitFn(n, rank, c, p.1));
    }

    method ConnectBads()
      requires Valid() && bads == [] &&
          forall k :: 0 <= k < |asserts| ==> Driven(n, asserts[k].0) && Driven(n, asserts[k].1)
      modifies this`aigM, this`aigA, this`gates, this`aigMap, this`bads
      ensures Valid() && old(gates) <= gates && Ordered(aigI + aigL, gates) &&
          LitFns(aigI + aigL, gates, bads, BadFns(n, rank, View(), asserts))
    {
      hide Ready, LitFn, LitFns, Ordered, Driven, LitsOf, BadFn, BadFns, LaidOut;
      ghost var c := View();
      ReadyFacts(n, rank, c, gates, aigMap);
      NoFns(c.Base(), gates, BadFns(n, rank, c, asserts));
      for k := 0 to |asserts|
        invariant Valid() && old(gates) <= gates && |bads| == k && Ordered(c.Base(), gates)
        invariant LitFns(c.Base(), gates, bads, BadFns(n, rank, c, asserts)[..k])
      {
        ghost var g0 := gates;
        var lit := Violated(asserts[k]);
        FnsMore(c.Base(), g0, gates, bads, BadFns(n, rank, c, asserts), lit);
        bads := bads + [lit];
      }
      assert BadFns(n, rank, c, asserts)[..|asserts|] == BadFns(n, rank, c, asserts);
    }

    method ConnectConstraints()
      requires Valid() && constraints == [] &&
          forall k :: 0 <= k < |assumes| ==> Driven(n, assumes[k].0) && Driven(n, assumes[k].1)
      modifies this`aigM, this`aigA, this`gates, this`aigMap, this`constraints
      ensures Valid() && old(gates) <= gates && Ordered(aigI + aigL, gates) &&
          LitFns(aigI + aigL, gates, constraints, ConstraintFns(n, rank, View(), assumes))
    {
      hide Ready, LitFn, LitFns, Ordered, Driven, LitsOf, BadFn, ConstraintFns, NotFn, Flip, LaidOut;
      ghost var c := View();
      ReadyFacts(n, rank, c, gates, aigMap);
      NoFns(c.Base(), gates, ConstraintFns(n, rank, c, assumes));
      for k := 0 to |assumes|
        invariant Valid() && old(gates) <= gates && |constraints| == k && Ordered(c.Base(), gates)
        invariant LitFns(c.Base(), gates, constraints, ConstraintFns(n, rank, c, assumes)[..k])
      {
        ghost var g0 := gates;
        var lit := Violated(assumes[k]);
        FnNot(c.Base(), gates, lit, BadFn(n, rank, c, assumes[k]));
        FnsMore(c.Base(), g0, gates, constraints, ConstraintFns(n, rank, c, assumes), Flip(lit));
        constraints := constraints + [Flip(lit)];
      }
      assert ConstraintFns(n, rank, c, assumes)[..|assumes|] == ConstraintFns(n, rank, c, assumes);
    }

    /** Numbers all inputs and latches. */
    method Number()
      requires Blank() && Loopfree(n, rank)
      modifies this
      ensures View() == LayoutOf(n, zinit, |liveness|, |fairness|) && LaidOut(n, View()) && gates == [] &&
          latchin == [] && justice == [] && fair == [] && aigA == 0
      ensures outs == [] && bads == [] && constraints == []
      ensures aigM == aigI + aigL && aigMap == RawMap(n.inputs, aigI, |n.data|) && LitsOf(initInputs, initVars) &&
          initstateFf == if marker == 0 then 0 else 2 * marker + 1
      ensures |n.data| <= |latchinit| == aigL &&
          forall l :: 0 <= l < aigL ==> latchinit[l] == if l < |n.data| then LatchInit(n, l) else 0
    {
      hide InputMap, RawMap, Missing, InitVars, HasMarker, LaidOut;
      AllocateInputs();
      SameSize(initInputs, initVars);
      AllocateRegisters();
      ghost var inits := latchinit;
      AllocateOthers();
      LayoutLaidOut(n, zinit, |liveness|, |fairness|);
      forall l | 0 <= l < |n.data| ensures latchinit[l] == LatchInit(n, l) {
        assert latchinit[l] == latchinit[..|n.data|][l] == inits[l];
      }
    }

    /** Gives every register its literal. */
    method MapRegisters()
      requires Loopfree(n, rank) && LaidOut(n, View()) && gates == [] && aigA == 0 && aigM == aigI + aigL &&
          aigMap == RawMap(n.inputs, aigI, |n.data|)
      requires LitsOf(initInputs, initVars) && initstateFf == if marker == 0 then 0 else 2 * marker + 1
      requires |latchinit| >= |n.data| && forall l :: 0 <= l < |n.data| ==> latchinit[l] == LatchInit(n, l)
      modifies this`aigM, this`aigA, this`gates, this`aigMap
      ensures Valid()
    {
      hide Mapped, RawMap, LaidOut, Loopfree, LitsOf, Ready;
      ghost var c := View();
      RawMapped(n, rank, c);
      if zinit {
        for l := 0 to |n.data|
          invariant aigA == |gates| && aigM == aigI + aigL + aigA && Mapped(n, rank, c, gates, aigMap, l)
        {
          MapRegister(l);
        }
      } else {
        PlainMapped(n, rank, c, gates, aigMap, 0);
      }
      MappedReady(n, rank, c, gates, aigMap);
    }

    method ConnectProperties()
      requires Valid() && Latched(n, rank, View(), gates, latchin, |n.data|) && justice == [] && fair == []
      requires |latchin| == View().OwnLatches(n) - aigI && (marker != 0 ==> latchin[|n.data|] == 1)
      requires forall k :: 0 <= k < |liveness| ==> Driven(n, liveness[k].0) && Driven(n, liveness[k].1)
      requires forall k :: 0 <= k < |fairness| ==> Driven(n, fairness[k].0) && Driven(n, fairness[k].1)
      modifies this`aigM, this`aigA, this`gates, this`aigMap, this`latchin, this`justice, this`fair
      ensures Valid() && Built(n, rank, View(), gates, latchin) && |justice| == |liveness| && |fair| == |fairness| &&
          old(gates) <= gates
      ensures LiveBuilt(n, rank, View(), gates, latchin, justice, liveness, |liveness|) &&
          FairBuilt(n, rank, View(), gates, latchin, fair, fairness, |fairness|)
    {
      hide Loopfree, Ready, LitsOf, Latched, LaidOut, LiveBuiltAt, FairBuiltAt, Driven;
      ghost var c, own := View(), latchin;
      ReadyFacts(n, rank, c, gates, aigMap);
      PropertyVars(n, c, 0);
      for k := 0 to |liveness|
        invariant Valid() && own <= latchin && |latchin| == |own| + 2 * k && |justice| == k && fair == [] &&
            old(gates) <= gates
        invariant Latched(n, rank, c, gates, latchin, |n.data|) &&
            LiveBuilt(n, rank, c, gates, latchin, justice, liveness, k)
      {
        AddLiveness(k);
      }
      for k := 0 to |fairness|
        invariant Valid() && own <= latchin && |latchin| == |own| + 2 * |liveness| + k && |justice| == |liveness| &&
            |fair| == k && old(gates) <= gates
        invariant Latched(n, rank, c, gates, latchin, |n.data|) &&
            LiveBuilt(n, rank, c, gates, latchin, justice, liveness, |liveness|)
        invariant FairBuilt(n, rank, c, gates, latchin, fair, fairness, k)
      {
        AddFairness(k);
      }
      ReadyFacts(n, rank, c, gates, aigMap);
      BuiltLits(n, rank, c, gates, latchin, justice, fair, liveness, fairness);
    }

    /** Variable of a property latch. */
    function PropertyLatch(i: nat): nat
      reads this
    {
      aigI + |n.data| + (if initstateFf != 0 then 1 else 0) + i
    }
  }

  lemma SameSize(lits: map<nat, nat>, vars: map<nat, nat>)
    requires LitsOf(lits, vars)
    ensures |lits| == |vars|
  {
    assert |lits| == |lits.Keys| && |vars| == |vars.Keys|;
  }

  /** A finished graph: every latch has an input, and the registers' and the marker's are right. */
  ghost predicate Built(n: Netlist, rank: nat -> nat, c: Layout, gates: seq<(nat, nat)>, latchin: seq<nat>) {
    && Loopfree(n, rank) && LaidOut(n, c) && Ordered(c.Base(), gates) && |latchin| == c.latches
    && (forall l :: 0 <= l < |latchin| ==> IsLit(c.Base(), gates, latchin[l]))
    && Latched(n, rank, c, gates, latchin, |n.data|)
    && (c.marker != 0 ==> |n.data| < |latchin| && latchin[|n.data|] == 1)
  }

  lemma BuiltLits(n: Netlist, rank: nat -> nat, c: Layout, gates: seq<(nat, nat)>, latchin: seq<nat>,
      justice: seq<nat>, fair: seq<nat>, liveness: seq<(Bit, Bit)>, fairness: seq<(Bit, Bit)>)
    requires Loopfree(n, rank) && LaidOut(n, c) && Ordered(c.Base(), gates) && |latchin| == c.latches &&
        c.live == |liveness| && c.fair == |fairness|
    requires Latched(n, rank, c, gates, latchin, |n.data|) &&
        (c.marker != 0 ==> |n.data| < |latchin| && latchin[|n.data|] == 1)
    requires LiveBuilt(n, rank, c, gates, latchin, justice, liveness, |liveness|) &&
        FairBuilt(n, rank, c, gates, latchin, fair, fairness, |fairness|)
    ensures Built(n, rank, c, gates, latchin)
  {
    hide Loopfree, Ordered, LitVal, LitIs, PickedFn, MetFn, JusticeFn, WaitFn, FairFn, NextFn;
    var own := c.OwnLatches(n) - c.inputs;
    forall l | 0 <= l < |latchin| ensures IsLit(c.Base(), gates, latchin[l]) {
      if l < |n.data| {
        assert LitFn(c.Base(), gates, latchin[l], NextFn(n, rank, c, l));
      } else if l < own {
      } else if l < own + 2 * c.live {
        var j := (l - own) / 2;
        assert LiveBuiltAt(n, rank, c, gates, latchin, justice[j], liveness[j], j);
      } else {
        var j := l - own - 2 * c.live;
        assert FairBuiltAt(n, rank, c, gates, latchin, fair[j], fairness[j], j);
      }
    }
  }

  lemma PropertyVars(n: Netlist, c: Layout, k: nat)
    requires LaidOut(n, c)
    ensures c.live <= c.inputs && c.OwnLatches(n) + 2 * c.live + c.fair == c.Base() &&
        (k < c.live ==> 0 < LiveInput(c, k) <= c.Base() && c.OwnLatches(n) + 2 * k + 2 <= c.Base())
  {
  }

  lemma DataDriven(n: Netlist, rank: nat -> nat, l: nat)
    requires Loopfree(n, rank) && l < |n.data|
    ensures Driven(n, n.data[l])
  {
  }

  lemma ReadyFacts(n: Netlist, rank: nat -> nat, c: Layout, gates: seq<(nat, nat)>, aigMap: map<Bit, nat>)
    requires Ready(n, rank, c, gates, aigMap)
    ensures Loopfree(n, rank) && LaidOut(n, c) && Ordered(c.Base(), gates)
  {
  }

  lemma ReadyComputes(n: Netlist, rank: nat -> nat, c: Layout, gates: seq<(nat, nat)>, aigMap: map<Bit, nat>, b: Bit)
    requires Ready(n, rank, c, gates, aigMap) && b in aigMap
    ensures Computes(n, rank, c, gates, b, aigMap[b])
  {
  }

  lemma NotYet(n: Netlist, rank: nat -> nat, c: Layout, gates: seq<(nat, nat)>, aigMap: map<Bit, nat>, b: Bit)
    requires Ready(n, rank, c, gates, aigMap) && b !in aigMap && Driven(n, b)
    ensures b.Inner?
  {
  }

  lemma ReadyLater(n: Netlist, rank: nat -> nat, c: Layout, gates: seq<(nat, nat)>, more: seq<(nat, nat)>,
      aigMap: map<Bit, nat>)
    requires Ready(n, rank, c, gates, aigMap) && gates <= more && Ordered(c.Base(), more)
    ensures Ready(n, rank, c, more, aigMap)
  {
    hide Computes;
    SoundLater(n, rank, c, gates, more, aigMap);
  }

  lemma ReadyAdd(n: Netlist, rank: nat -> nat, c: Layout, gates: seq<(nat, nat)>, aigMap: map<Bit, nat>, b: Bit,
      lit: nat)
    requires Ready(n, rank, c, gates, aigMap) && Computes(n, rank, c, gates, b, lit)
    ensures Ready(n, rank, c, gates, aigMap[b := lit])
  {
    hide Computes;
  }

  lemma InnerDef(n: Netlist, rank: nat -> nat, id: nat)
    requires Loopfree(n, rank) && Driven(n, Inner(id))
    ensures id in n.defs && LowerArgs(n, rank, id)
  {
  }

  lemma ComputesLits(n: Netlist, rank: nat -> nat, c: Layout, gates: seq<(nat, nat)>, b: Bit, lit: nat)
    requires Loopfree(n, rank) && Computes(n, rank, c, gates, b, lit)
    ensures Ordered(c.Base(), gates) && IsLit(c.Base(), gates, lit)
  {
  }

  // ---------------------------------------------------------------- runs

  /** Variable `x` at time `t` of the graph: inputs from a stream, latches from their inputs one step before. */
  function RunVal(c: Layout, gates: seq<(nat, nat)>, latchin: seq<nat>, start: Val, ins: nat -> Val, t: nat,
      x: nat): bool
    requires Ordered(c.Base(), gates) && |latchin| == c.latches &&
        forall l :: 0 <= l < |latchin| ==> IsLit(c.Base(), gates, latchin[l])
    decreases t
  {
    if x <= c.inputs then ins(t)(x)
    else if t == 0 then start(x)
    else if x <= c.Base() then
      LitVal(c.Base(), gates, (y: nat) => RunVal(c, gates, latchin, start, ins, t - 1, y), latchin[x - c.inputs - 1])
    else false
  }

  function RunAt(c: Layout, gates: seq<(nat, nat)>, latchin: seq<nat>, start: Val, ins: nat -> Val, t: nat): Val
    requires Ordered(c.Base(), gates) && |latchin| == c.latches &&
        forall l :: 0 <= l < |latchin| ==> IsLit(c.Base(), gates, latchin[l])
  {
    (x: nat) => RunVal(c, gates, latchin, start, ins, t, x)
  }

  /** Register `l` at time `t` of the netlist. */
  function NetAt(n: Netlist, rank: nat -> nat, ins: nat -> Val, start: Val, t: nat, l: nat): bool
    requires Loopfree(n, rank)
    decreases t
  {
    if t == 0 then start(l)
    else if l < |n.data| then
      NetVal(n, rank, ins(t - 1), (k: nat) => NetAt(n, rank, ins, start, t - 1, k), t == 1, n.data[l])
    else false
  }

  /** A bit at time `t` of the netlist. */
  function NetBit(n: Netlist, rank: nat -> nat, ins: nat -> Val, start: Val, t: nat, b: Bit): bool
    requires Loopfree(n, rank) && Driven(n, b)
  {
    NetVal(n, rank, ins(t), (k: nat) => NetAt(n, rank, ins, start, t, k), t == 0, b)
  }

  /** The reset value in the file, given the one recorded for a latch: 0, 1, or 2 for none. */
  function WrittenReset(zinit: bool, init: nat): nat {
    if zinit then 0 else init
  }

  /** What is written for latch `l`: 0 for all of them with zero initialisation, otherwise what the register starts
      with. */
  function ResetOf(n: Netlist, c: Layout, l: nat): nat {
    if c.zinit || l >= |n.data| then 0 else LatchInit(n, l)
  }

  predicate ResetTo(reset: nat, level: bool) {
    (reset == 0 ==> !level) && (reset == 1 ==> level)
  }

  /** Levels of the latches at reset that the written reset values allow. */
  ghost predicate Starts(n: Netlist, c: Layout, start: Val) {
    forall l: nat :: l < c.latches ==> ResetTo(ResetOf(n, c, l), start(c.inputs + l + 1))
  }

  function NetIns(ins: nat -> Val): nat -> Val {
    (t: nat) => InsOf(ins(t))
  }

  lemma RunStep(n: Netlist, rank: nat -> nat, c: Layout, gates: seq<(nat, nat)>, latchin: seq<nat>, start: Val,
      ins: nat -> Val, t: nat, x: nat, f: Fn)
    requires Built(n, rank, c, gates, latchin) && c.inputs < x <= c.Base() &&
        LitFn(c.Base(), gates, latchin[x - c.inputs - 1], f)
    ensures RunAt(c, gates, latchin, start, ins, t + 1)(x) == f(RunAt(c, gates, latchin, start, ins, t))
  {
    hide Loopfree, LaidOut, Latched, LitVal, Ordered;
    var v, lit := RunAt(c, gates, latchin, start, ins, t), latchin[x - c.inputs - 1];
    assert LitIs(c.Base(), gates, v, lit, f(v));
  }

  lemma StartsAt(n: Netlist, c: Layout, start: Val, l: nat)
    requires Starts(n, c, start) && l < c.latches
    ensures ResetTo(ResetOf(n, c, l), start(c.inputs + l + 1))
  {
  }

  /** The marker is seen in the first cycle only. */
  lemma FirstAt(n: Netlist, rank: nat -> nat, c: Layout, gates: seq<(nat, nat)>, latchin: seq<nat>, start: Val,
      ins: nat -> Val, t: nat)
    requires Built(n, rank, c, gates, latchin) && Starts(n, c, start) && c.marker != 0
    ensures First(c, RunAt(c, gates, latchin, start, ins, t)) == (t == 0)
  {
    StartsAt(n, c, start, |n.data|);
  }

  /** The latch of a register one step later. */
  lemma LatchNext(n: Netlist, rank: nat -> nat, c: Layout, gates: seq<(nat, nat)>, latchin: seq<nat>, start: Val,
      ins: nat -> Val, t: nat, l: nat)
    requires Built(n, rank, c, gates, latchin) && Starts(n, c, start) && l < |n.data| && Driven(n, n.data[l])
    ensures Decoded(n, c, RunAt(c, gates, latchin, start, ins, t + 1), l) ==
            BitVal(n, rank, c, RunAt(c, gates, latchin, start, ins, t), n.data[l])
  {
    hide Loopfree, LaidOut, Latched, LitVal, Ordered, Built, LitFn, BitVal, RunAt, Starts, Driven, First;
    BuiltFacts(n, rank, c, gates, latchin, l);
    if c.marker != 0 { FirstAt(n, rank, c, gates, latchin, start, ins, t + 1); }
    RunStep(n, rank, c, gates, latchin, start, ins, t, c.inputs + l + 1, NextFn(n, rank, c, l));
  }

  lemma BuiltFacts(n: Netlist, rank: nat -> nat, c: Layout, gates: seq<(nat, nat)>, latchin: seq<nat>, l: nat)
    requires Built(n, rank, c, gates, latchin) && l < |n.data|
    ensures Loopfree(n, rank) && |n.data| <= c.latches == |latchin| && Driven(n, n.data[l]) &&
        (c.zinit && l !in n.inits ==> c.marker != 0)
    ensures LitFn(c.Base(), gates, latchin[l], NextFn(n, rank, c, l))
  {
    hide LitFn, NextFn;
  }

  lemma BuiltVars(n: Netlist, rank: nat -> nat, c: Layout, gates: seq<(nat, nat)>, latchin: seq<nat>)
    requires Built(n, rank, c, gates, latchin)
    ensures |n.data| <= c.latches && n.inputs <= c.inputs && (HasMarker(n) ==> c.marker != 0)
  {
  }

  /** The graph's latches stand for the netlist's registers at every moment of every run. */
  lemma {:induction false} Simulates(n: Netlist, rank: nat -> nat, c: Layout, gates: seq<(nat, nat)>,
      latchin: seq<nat>, start: Val, ins: nat -> Val, t: nat, l: nat)
    requires Built(n, rank, c, gates, latchin) && Starts(n, c, start) && l < |n.data|
    ensures Decoded(n, c, RunAt(c, gates, latchin, start, ins, t), l) ==
            NetAt(n, rank, NetIns(ins), StateOf(n, c, RunAt(c, gates, latchin, start, ins, 0)), t, l)
    decreases t, 0
  {
    hide Loopfree, LaidOut, Latched, LitVal, Ordered, LitFn, BitVal, RunAt, Starts, Driven, First, Decoded, NetVal;
    if t > 0 {
      BuiltFacts(n, rank, c, gates, latchin, l);
      LatchNext(n, rank, c, gates, latchin, start, ins, t - 1, l);
      SimulatesBit(n, rank, c, gates, latchin, start, ins, t - 1, n.data[l]);
    }
  }

  /** So every bit carries the netlist's level at every moment of every run. */
  lemma {:induction false} SimulatesBit(n: Netlist, rank: nat -> nat, c: Layout, gates: seq<(nat, nat)>,
      latchin: seq<nat>, start: Val, ins: nat -> Val, t: nat, b: Bit)
    requires Built(n, rank, c, gates, latchin) && Starts(n, c, start) && Driven(n, b)
    ensures BitVal(n, rank, c, RunAt(c, gates, latchin, start, ins, t), b) ==
            NetBit(n, rank, NetIns(ins), StateOf(n, c, RunAt(c, gates, latchin, start, ins, 0)), t, b)
    decreases t, 1
  {
    hide Loopfree, LaidOut, Latched, LitVal, Ordered, LitFn, Driven, First, Decoded, NetVal, HasMarker, NetAt;
    var v, start' := RunAt(c, gates, latchin, start, ins, t), StateOf(n, c, RunAt(c, gates, latchin, start, ins, 0));
    BuiltVars(n, rank, c, gates, latchin);
    if c.marker != 0 { FirstAt(n, rank, c, gates, latchin, start, ins, t); }
    forall l: nat | l < |n.data| ensures StateOf(n, c, v)(l) == NetAt(n, rank, NetIns(ins), start', t, l) {
      Simulates(n, rank, c, gates, latchin, start, ins, t, l);
    }
    NetValAgree(n, rank, InsOf(v), StateOf(n, c, v), First(c, v), NetIns(ins)(t),
        (k: nat) => NetAt(n, rank, NetIns(ins), start', t, k), t == 0, b);
  }

  /** Traces of the emitted graph: any literal the writer has for a bit shows that bit of a netlist run that starts
      with the required initial values. */
  lemma TraceOf(n: Netlist, rank: nat -> nat, c: Layout, gates: seq<(nat, nat)>, latchin: seq<nat>, start: Val,
      ins: nat -> Val, b: Bit, lit: nat, t: nat)
    requires Built(n, rank, c, gates, latchin) && Starts(n, c, start) && Computes(n, rank, c, gates, b, lit)
    ensures var s := StateOf(n, c, RunAt(c, gates, latchin, start, ins, 0));
            && LegalStart(n, s)
            && LitVal(c.Base(), gates, RunAt(c, gates, latchin, start, ins, t), lit) ==
               NetBit(n, rank, NetIns(ins), s, t, b)
  {
    hide LitVal, BitVal, NetVal, Loopfree, LaidOut, Latched, Ordered, Starts, StateOf, RunAt, NetBit, LegalStart;
    SimulatesBit(n, rank, c, gates, latchin, start, ins, t, b);
    StartLegal(n, rank, c, gates, latchin, start, ins);
    var v := RunAt(c, gates, latchin, start, ins, t);
    assert LitIs(c.Base(), gates, v, lit, BitVal(n, rank, c, v, b));
  }

  lemma StartLegal(n: Netlist, rank: nat -> nat, c: Layout, gates: seq<(nat, nat)>, latchin: seq<nat>, start: Val,
      ins: nat -> Val)
    requires Built(n, rank, c, gates, latchin) && Starts(n, c, start)
    ensures LegalStart(n, StateOf(n, c, RunAt(c, gates, latchin, start, ins, 0)))
  {
    hide LitVal, Loopfree, Latched, Ordered, HasMarker;
    forall l: nat | l < |n.data| && l in n.inits
      ensures StateOf(n, c, RunAt(c, gates, latchin, start, ins, 0))(l) == n.inits[l]
    {
      StartsAt(n, c, start, l);
    }
  }

  /** Every output of the graph shows the netlist's output at every moment of every run. */
  lemma OutputTrace(n: Netlist, rank: nat -> nat, c: Layout, gates: seq<(nat, nat)>, latchin: seq<nat>,
      outputs: seq<Bit>, outs: seq<nat>, start: Val, ins: nat -> Val, k: nat, t: nat)
    requires Built(n, rank, c, gates, latchin) && Starts(n, c, start) &&
        LitFns(c.Base(), gates, outs, OutFns(n, rank, c, outputs))
    requires k < |outputs| == |outs| && Driven(n, outputs[k])
    ensures var s := StateOf(n, c, RunAt(c, gates, latchin, start, ins, 0));
            LitVal(c.Base(), gates, RunAt(c, gates, latchin, start, ins, t), outs[k]) ==
            NetBit(n, rank, NetIns(ins), s, t, outputs[k])
  {
    hide LitVal, BitVal, NetVal, Ordered, RunAt, StateOf, NetBit, Latched, LaidOut;
    var v := RunAt(c, gates, latchin, start, ins, t);
    SimulatesBit(n, rank, c, gates, latchin, start, ins, t, outputs[k]);
    assert LitIs(c.Base(), gates, v, outs[k], BitFn(n, rank, c, outputs[k])(v));
  }

  /** A bad literal is true exactly when its assertion is enabled and does not hold, and a constraint literal is false
      exactly when its assumption is enabled and does not hold, at every moment of every run. */
  lemma AssertTrace(n: Netlist, rank: nat -> nat, c: Layout, gates: seq<(nat, nat)>, latchin: seq<nat>, p: (Bit, Bit),
      lit: nat, start: Val, ins: nat -> Val, t: nat)
    requires Built(n, rank, c, gates, latchin) && Starts(n, c, start) && Driven(n, p.0) && Driven(n, p.1)
    requires Ordered(c.Base(), gates) && IsLit(c.Base(), gates, lit)
    ensures var s := StateOf(n, c, RunAt(c, gates, latchin, start, ins, 0));
            var violated := !NetBit(n, rank, NetIns(ins), s, t, p.0) && NetBit(n, rank, NetIns(ins), s, t, p.1);
            var level := LitVal(c.Base(), gates, RunAt(c, gates, latchin, start, ins, t), lit);
            && (LitFn(c.Base(), gates, lit, BadFn(n, rank, c, p)) ==> level == violated)
            && (LitFn(c.Base(), gates, lit, NotFn(BadFn(n, rank, c, p))) ==> level == !violated)
  {
    hide LitVal, BitVal, NetVal, Ordered, RunAt, StateOf, NetBit, Latched, LaidOut;
    var v := RunAt(c, gates, latchin, start, ins, t);
    SimulatesBit(n, rank, c, gates, latchin, start, ins, t, p.0);
    SimulatesBit(n, rank, c, gates, latchin, start, ins, t, p.1);
    if LitFn(c.Base(), gates, lit, BadFn(n, rank, c, p)) {
      assert LitIs(c.Base(), gates, v, lit, BadFn(n, rank, c, p)(v));
    }
    if LitFn(c.Base(), gates, lit, NotFn(BadFn(n, rank, c, p))) {
      assert LitIs(c.Base(), gates, v, lit, NotFn(BadFn(n, rank, c, p))(v));
    }
  }

  /** Initial values that are given are kept. */
  ghost predicate LegalStart(n: Netlist, s: Val) {
    forall l: nat :: l < |n.data| && l in n.inits ==> s(l) == n.inits[l]
  }

  /** Levels of the graph's inputs that make it follow a given netlist run. */
  function InputsFor(n: Netlist, c: Layout, nins: nat -> Val, s: Val): nat -> Val {
    (t: nat) => (x: nat) =>
      if x == 0 then false
      else if x <= n.inputs then nins(t)(x - 1)
      else exists l :: l in c.initInputs && c.initInputs[l] == x && s(l)
  }

  function LatchesFor(n: Netlist, c: Layout, s: Val): Val {
    (x: nat) => !c.zinit && c.inputs < x <= c.inputs + |n.data| && s(x - c.inputs - 1)
  }

  /** What a netlist does depends on its inputs and the levels of its registers at the start. */
  lemma {:induction false} NetAtAgree(n: Netlist, rank: nat -> nat, ins: nat -> Val, ins': nat -> Val, s: Val,
      s': Val, t: nat, l: nat)
    requires Loopfree(n, rank) && (forall t: nat, i: nat :: i < n.inputs ==> ins(t)(i) == ins'(t)(i)) &&
        (forall l: nat :: l < |n.data| ==> s(l) == s'(l)) && l < |n.data|
    ensures NetAt(n, rank, ins, s, t, l) == NetAt(n, rank, ins', s', t, l)
    decreases t, 0
  {
    hide NetVal;
    if t > 0 {
      DataDriven(n, rank, l);
      NetBitAgree(n, rank, ins, ins', s, s', t - 1, n.data[l]);
    }
  }

  lemma {:induction false} NetBitAgree(n: Netlist, rank: nat -> nat, ins: nat -> Val, ins': nat -> Val, s: Val,
      s': Val, t: nat, b: Bit)
    requires Loopfree(n, rank) && (forall t: nat, i: nat :: i < n.inputs ==> ins(t)(i) == ins'(t)(i)) &&
        (forall l: nat :: l < |n.data| ==> s(l) == s'(l)) && Driven(n, b)
    ensures NetBit(n, rank, ins, s, t, b) == NetBit(n, rank, ins', s', t, b)
    decreases t, 1
  {
    hide NetVal, Loopfree, HasMarker;
    var st, st' := (k: nat) => NetAt(n, rank, ins, s, t, k), (k: nat) => NetAt(n, rank, ins', s', t, k);
    forall l: nat | l < |n.data| ensures st(l) == st'(l) { NetAtAgree(n, rank, ins, ins', s, s', t, l); }
    NetValAgree(n, rank, ins(t), st, t == 0, ins'(t), st', t == 0, b);
  }

  /** Every netlist run that starts with the required values is the trace of some run of the graph. */
  lemma EveryTrace(n: Netlist, rank: nat -> nat, c: Layout, gates: seq<(nat, nat)>, latchin: seq<nat>,
      nins: nat -> Val, s: Val)
    requires Built(n, rank, c, gates, latchin) && LegalStart(n, s)
    ensures var ins, start := InputsFor(n, c, nins, s), LatchesFor(n, c, s);
            && Starts(n, c, start) && (forall t: nat, i: nat :: i < n.inputs ==> NetIns(ins)(t)(i) == nins(t)(i))
            && (forall l: nat :: l < |n.data| ==> StateOf(n, c, RunAt(c, gates, latchin, start, ins, 0))(l) == s(l))
            && forall b, lit, t: nat :: Computes(n, rank, c, gates, b, lit) ==>
                 LitVal(c.Base(), gates, RunAt(c, gates, latchin, start, ins, t), lit) == NetBit(n, rank, nins, s, t, b)
  {
    hide Loopfree, LaidOut, Latched, LitVal, Ordered, Starts, StateOf, RunAt, NetBit, BitVal;
    var ins, start := InputsFor(n, c, nins, s), LatchesFor(n, c, s);
    StartFor(n, rank, c, gates, latchin, nins, s);
    forall b, lit, t: nat | Computes(n, rank, c, gates, b, lit)
      ensures LitVal(c.Base(), gates, RunAt(c, gates, latchin, start, ins, t), lit) == NetBit(n, rank, nins, s, t, b)
    {
      TraceOf(n, rank, c, gates, latchin, start, ins, b, lit, t);
      ComputesDriven(n, rank, c, gates, b, lit);
      NetBitAgree(n, rank, NetIns(ins), nins, StateOf(n, c, RunAt(c, gates, latchin, start, ins, 0)), s, t, b);
    }
  }

  lemma ComputesDriven(n: Netlist, rank: nat -> nat, c: Layout, gates: seq<(nat, nat)>, b: Bit, lit: nat)
    requires Loopfree(n, rank) && Computes(n, rank, c, gates, b, lit)
    ensures Driven(n, b)
  {
  }

  /** The chosen levels are a legal start that stands for the given one. */
  lemma StartFor(n: Netlist, rank: nat -> nat, c: Layout, gates: seq<(nat, nat)>, latchin: seq<nat>, nins: nat -> Val,
      s: Val)
    requires Built(n, rank, c, gates, latchin) && LegalStart(n, s)
    ensures var ins, start := InputsFor(n, c, nins, s), LatchesFor(n, c, s);
            && Starts(n, c, start) && (forall t: nat, i: nat :: i < n.inputs ==> NetIns(ins)(t)(i) == nins(t)(i))
            && (forall l: nat :: l < |n.data| ==> StateOf(n, c, RunAt(c, gates, latchin, start, ins, 0))(l) == s(l))
  {
    hide Loopfree, Latched, LitVal, Ordered, HasMarker;
    var ins, start := InputsFor(n, c, nins, s), LatchesFor(n, c, s);
    forall t: nat, i: nat | i < n.inputs ensures NetIns(ins)(t)(i) == nins(t)(i) {
      assert NetIns(ins)(t)(i) == ins(t)(i + 1);
    }
    forall l: nat | l < c.latches ensures ResetTo(ResetOf(n, c, l), start(c.inputs + l + 1)) {
      if l < |n.data| && l in n.inits { assert s(l) == n.inits[l]; }
    }
    forall l: nat | l < |n.data| ensures StateOf(n, c, RunAt(c, gates, latchin, start, ins, 0))(l) == s(l) {
      var v := RunAt(c, gates, latchin, start, ins, 0);
      if c.zinit && l !in n.inits {
        assert l in c.initInputs;
        assert v(c.initInputs[l]) == s(l);
      }
    }
  }
}
