/**
 And-inverter graphs for cells, `kernel/cellaigs.cc`: nodes are shared when they are equal, gates with constant or
 related operands fold away, and a last pass drops the nodes no output needs.

 `env` gives the cell's inputs some levels. It is arbitrary and the program cannot look at it, so what is proved
 about it holds for all levels.
 */
module CellAigs {
  import opened Signals
  import opened BitVectors

  datatype Port = NoPort | A | B | CI | BI | Y | X | CO

  type Env = (Port, nat) -> bool

  /** An input bit, an and-gate on two earlier nodes, or a constant; possibly inverted. */
  datatype AigNode = AigNode(port: Port, portbit: int, inverter: bool, left: int, right: int)

  predicate IsBool(n: AigNode) {
    n.portbit < 0 && n.left < 0 && n.right < 0
  }

  /** Parents come before their children, the smaller first, and a node has both parents or neither. */
  predicate Placed(n: AigNode, i: nat) {
    -1 <= n.left <= n.right < i && (n.left < 0 <==> n.right < 0) && (n.portbit >= 0 ==> n.left < 0)
  }

  predicate Ordered(nodes: seq<AigNode>) {
    forall i :: 0 <= i < |nodes| ==> Placed(nodes[i], i)
  }

  function NodeVal(nodes: seq<AigNode>, env: Env, i: nat): bool
    requires Ordered(nodes) && i < |nodes|
    decreases i, 1
  {
    Meaning(nodes, env, nodes[i], i)
  }

  /** What a node means whose parents are among the first `i`. */
  function Meaning(nodes: seq<AigNode>, env: Env, n: AigNode, i: nat): bool
    requires Ordered(nodes) && i <= |nodes| && Placed(n, i)
    decreases i, 0
  {
    n.inverter !=
    if n.portbit >= 0 then env(n.port, n.portbit)
    else n.left >= 0 && NodeVal(nodes, env, n.left) && NodeVal(nodes, env, n.right)
  }

  lemma {:induction false} OldVal(nodes: seq<AigNode>, more: seq<AigNode>, env: Env, i: nat)
    requires Ordered(nodes) && nodes <= more && Ordered(more) && i < |nodes|
    ensures NodeVal(more, env, i) == NodeVal(nodes, env, i)
    decreases i
  {
    var n := nodes[i];
    assert more[i] == n && Placed(n, i);
    if n.left >= 0 {
      OldVal(nodes, more, env, n.left);
      OldVal(nodes, more, env, n.right);
    }
  }

  lemma OldMeaning(nodes: seq<AigNode>, more: seq<AigNode>, env: Env, n: AigNode, i: nat, j: nat)
    requires Ordered(nodes) && nodes <= more && Ordered(more) && i <= |nodes| && i <= j <= |more| && Placed(n, i)
    ensures Placed(n, j) && Meaning(more, env, n, j) == Meaning(nodes, env, n, i)
  {
    if n.left >= 0 {
      OldVal(nodes, more, env, n.left);
      OldVal(nodes, more, env, n.right);
    }
  }

  // ---------------------------------------------------------------- ripple carry

  /** The carry into position `i`. */
  function CarryAt(a: Vec, b: Vec, c: bool, i: nat): bool
    requires i <= |a| == |b|
  {
    if i == 0 then c else (a[i - 1] && b[i - 1]) || ((a[i - 1] || b[i - 1]) && CarryAt(a, b, c, i - 1))
  }

  lemma CarryStep(a: Vec, b: Vec, c: bool, i: nat)
    requires i < |a| == |b|
    ensures CarryAt(a, b, c, i + 1) == ((a[i] && b[i]) || ((a[i] || b[i]) && CarryAt(a, b, c, i)))
  {
  }

  function Sums(a: Vec, b: Vec, c: bool): (v: Vec)
    requires |a| == |b|
    ensures |v| == |a| && forall i :: 0 <= i < |a| ==> v[i] == ((a[i] != b[i]) != CarryAt(a, b, c, i))
  {
    seq(|a|, i requires 0 <= i < |a| => (a[i] != b[i]) != CarryAt(a, b, c, i))
  }

  function Propagates(a: Vec, b: Vec): (v: Vec)
    requires |a| == |b|
    ensures |v| == |a| && forall i :: 0 <= i < |a| ==> v[i] == (a[i] != b[i])
  {
    seq(|a|, i requires 0 <= i < |a| => a[i] != b[i])
  }

  function Carries(a: Vec, b: Vec, c: bool): (v: Vec)
    requires |a| == |b|
    ensures |v| == |a| && forall i :: 0 <= i < |a| ==> v[i] == CarryAt(a, b, c, i + 1)
  {
    seq(|a|, i requires 0 <= i < |a| => CarryAt(a, b, c, i + 1))
  }

  /** Sum bits and carry together are the number being added so far. */
  lemma {:induction false} RippleSum(a: Vec, b: Vec, c: bool, i: nat)
    requires i <= |a| == |b|
    ensures Nat(Sums(a, b, c)[..i]) + (if CarryAt(a, b, c, i) then Pow2(i) else 0) ==
            Nat(a[..i]) + Nat(b[..i]) + if c then 1 else 0
    decreases i
  {
    hide Nat, CarryAt, Sums, Pow2;
    var y := Sums(a, b, c);
    CarryStart(a, b, c);
    PowZero();
    if i > 0 { PowStep(i - 1); }
    if i > 0 {
      RippleSum(a, b, c, i - 1);
      CarryStep(a, b, c, i - 1);
      assert a[..i] == a[..i - 1] + [a[i - 1]] && b[..i] == b[..i - 1] + [b[i - 1]] &&
          y[..i] == y[..i - 1] + [y[i - 1]];
      NatSnoc(a[..i - 1], a[i - 1]);
      NatSnoc(b[..i - 1], b[i - 1]);
      NatSnoc(y[..i - 1], y[i - 1]);
    } else {
      assert a[..0] == [] && b[..0] == [] && y[..0] == [];
      NatEmpty();
    }
  }

  lemma CarryStart(a: Vec, b: Vec, c: bool)
    requires |a| == |b|
    ensures CarryAt(a, b, c, 0) == c
  {
  }

  /** The adder adds. */
  lemma RippleAdds(a: Vec, b: Vec, c: bool)
    requires |a| == |b|
    ensures Sums(a, b, c) == Bits(Nat(a) + Nat(b) + (if c then 1 else 0), |a|)
  {
    hide Nat, Bits, CarryAt, Sums, Pow2;
    var n, y := |a|, Sums(a, b, c);
    assert a[..n] == a && b[..n] == b && y[..n] == y;
    RippleSum(a, b, c, n);
    BitsNat(y);
    BitsShift(Nat(y), n);
  }

  /** A carry out says that the sum of what has been added so far does not fit. */
  lemma RippleCarry(a: Vec, b: Vec, c: bool, i: nat)
    requires i < |a| == |b|
    ensures Carries(a, b, c)[i] <==> Nat(a[..i + 1]) + Nat(b[..i + 1]) + (if c then 1 else 0) >= Pow2(i + 1)
  {
    hide Nat, CarryAt, Sums, Pow2, Carries;
    RippleSum(a, b, c, i + 1);
    NatBound(Sums(a, b, c)[..i + 1]);
  }

  function Complement(v: Vec): (r: Vec)
    ensures |r| == |v| && forall i :: 0 <= i < |v| ==> r[i] == !v[i]
  {
    seq(|v|, i requires 0 <= i < |v| => !v[i])
  }

  lemma {:induction false} ComplementBits(z: int, n: nat)
    ensures Complement(Bits(z, n)) == Bits(-1 - z, n)
    decreases n
  {
    if n > 0 {
      ComplementBits(z / 2, n - 1);
      assert (-1 - z) / 2 == -1 - z / 2 && (-1 - z) % 2 == 1 - z % 2;
      assert Complement(Bits(z, n)) == [z % 2 != 1] + Complement(Bits(z / 2, n - 1));
    }
  }

  /** Adding the low bits of two numbers and a carry gives the low bits of the sum. */
  lemma AddedBits(va: Vec, vb: Vec, x: int, y: int, c: bool)
    requires |va| == |vb| && va == Bits(x, |va|) && vb == Bits(y, |vb|)
    ensures Sums(va, vb, c) == Bits(x + y + (if c then 1 else 0), |va|)
  {
    hide Bits, Nat, Sums, CarryAt;
    RippleAdds(va, vb, c);
    BitsOfVec(va, x);
    BitsOfVec(vb, y);
    BitsAdd(Nat(va), x, Nat(vb), y, if c then 1 else 0, |va|);
  }

  lemma SubtractBits(va: Vec, vb: Vec, x: int, y: int)
    requires |va| == |vb| && va == Bits(x, |va|) && vb == Bits(y, |vb|)
    ensures Sums(va, Complement(vb), true) == Bits(x - y, |va|)
  {
    hide Bits, Nat, Sums, CarryAt, Complement;
    ComplementBits(y, |vb|);
    AddedBits(va, Complement(vb), x, -1 - y, true);
    assert x + (-1 - y) + 1 == x - y;
  }

  function Flipped(v: Vec, w: bool): (r: Vec)
    ensures |r| == |v| && forall i :: 0 <= i < |v| ==> r[i] == (v[i] != w)
  {
    seq(|v|, i requires 0 <= i < |v| => v[i] != w)
  }

  /** The node for the conjunction of two nodes: an old one or its inverse, a constant, or else a gate. */
  predicate Folded(nA: AigNode, nB: AigNode, inverter: bool, a: nat, b: nat, i: nat, n: AigNode) {
    if a == b then Reused(nA, inverter, a, i, n)
    else if nA == nB.(inverter := !nB.inverter) then IsBool(n)
    else if IsBool(nA) then (if nA.inverter && !IsBool(nB) then Reused(nB, inverter, b, i, n) else IsBool(n))
    else if IsBool(nB) then (if nB.inverter then Reused(nA, inverter, a, i, n) else IsBool(n))
    else n == AigNode(NoPort, -1, inverter, if a < b then a else b, if a < b then b else a)
  }

  predicate Reused(node: AigNode, inverter: bool, at: nat, i: nat, n: AigNode) {
    if inverter then n == node.(inverter := !node.inverter) else i == at
  }

  class AigMaker {
    // Widths and signedness of the input ports.
    const widths: map<Port, nat>
    const signed: set<Port>
    ghost const env: Env
    var nodes: seq<AigNode>
    var indices: map<AigNode, nat>

    ghost predicate Valid()
      reads this
    {
      && Ordered(nodes) && (forall n :: n in indices ==> indices[n] < |nodes| && nodes[indices[n]] == n)
      && (forall i :: 0 <= i < |nodes| ==> nodes[i] in indices && indices[nodes[i]] == i)
    }

    ghost predicate Is(i: nat, v: bool)
      reads this
    {
      Ordered(nodes) && i < |nodes| && NodeVal(nodes, env, i) == v
    }

    /** Nodes are only added, and the old ones mean what they meant. */
    ghost predicate Kept(before: seq<AigNode>)
      reads this
    {
      && Ordered(before) && Ordered(nodes) && before <= nodes
      && forall j :: 0 <= j < |before| ==> NodeVal(nodes, env, j) == NodeVal(before, env, j)
    }

    constructor (widths: map<Port, nat>, signed: set<Port>, ghost env: Env)
      ensures Valid() && nodes == [] && this.widths == widths && this.signed == signed && this.env == env
    {
      this.widths, this.signed, this.env := widths, signed, env;
      nodes, indices := [], map[];
    }

    /** The index of a node, which is added if there is no equal one. */
    method Node2Index(node: AigNode) returns (i: nat)
      requires Valid() && Placed(Sorted(node), |nodes|)
      modifies this`nodes, this`indices
      ensures Valid() && Kept(old(nodes)) && Is(i, Meaning(old(nodes), env, Sorted(node), old(|nodes|)))
      // Parents are put in order, and only a new node is appended.
      ensures nodes[i] == if node.left <= node.right then node else node.(left := node.right, right := node.left)
      ensures nodes == if nodes[i] in old(nodes) then old(nodes) else old(nodes) + [nodes[i]]
    {
      var n := Sorted(node);
      ghost var before := nodes;
      if n !in indices {
        indices := indices[n := |nodes|];
        nodes := nodes + [n];
      }
      i := indices[n];
      OldMeaning(before, nodes, env, n, |before|, |nodes|);
      assert Placed(nodes[i], i);
      OldMeaning(nodes, nodes, env, n, i, |nodes|);
      forall j | 0 <= j < |before| ensures NodeVal(nodes, env, j) == NodeVal(before, env, j) {
        OldVal(before, nodes, env, j);
      }
    }

    method BoolNode(value: bool) returns (i: nat)
      requires Valid()
      modifies this`nodes, this`indices
      ensures Valid() && Kept(old(nodes)) && Is(i, value) && IsBool(nodes[i])
    {
      i := Node2Index(AigNode(NoPort, -1, value, -1, -1));
    }

    /** The level of a port bit; bits beyond the port repeat its sign, or are 0. */
    ghost function PortBit(port: Port, bit: nat): bool
      requires port in widths
    {
      if bit < widths[port] then env(port, bit) else port in signed && widths[port] > 0 && env(port, widths[port] - 1)
    }

    method Inport(port: Port, portbit: nat, inverter: bool) returns (i: nat)
      requires Valid() && port in widths && (port in signed ==> widths[port] > 0)
      modifies this`nodes, this`indices
      ensures Valid() && Kept(old(nodes)) && Is(i, PortBit(port, portbit) != inverter)
    {
      if portbit >= widths[port] {
        if port in signed {
          i := Node2Index(AigNode(port, widths[port] - 1, inverter, -1, -1));
        } else {
          i := BoolNode(inverter);
        }
      } else {
        i := Node2Index(AigNode(port, portbit, inverter, -1, -1));
      }
    }

    method NotGate(a: nat) returns (i: nat)
      requires Valid() && a < |nodes|
      modifies this`nodes, this`indices
      ensures Valid() && Kept(old(nodes)) && Is(i, !NodeVal(old(nodes), env, a))
      ensures nodes[i] == old(nodes)[a].(inverter := !old(nodes)[a].inverter)
    {
      ghost var before := nodes;
      var node := nodes[a];
      assert Placed(node, a);
      OldMeaning(before, before, env, node, a, |before|);
      OldMeaning(before, before, env, node.(inverter := !node.inverter), a, |before|);
      i := Node2Index(node.(inverter := !node.inverter));
    }

    /** Folds an and-gate whose operands are equal, opposite or constant; else adds one. */
    method AndGate(a: nat, b: nat, inverter: bool) returns (i: nat)
      requires Valid() && a < |nodes| && b < |nodes|
      modifies this`nodes, this`indices
      ensures Valid() && Kept(old(nodes)) &&
          Is(i, (NodeVal(old(nodes), env, a) && NodeVal(old(nodes), env, b)) != inverter)
      // What can be folded is.
      ensures Folded(old(nodes)[a], old(nodes)[b], inverter, a, b, i, nodes[i])
    {
      if a == b {
        if inverter { i := NotGate(a); } else { i := a; }
        return;
      }
      var nA, nB := nodes[a], nodes[b];
      if nA == nB.(inverter := !nB.inverter) {
        Opposite(nodes, env, a, b);
        i := BoolNode(inverter);
        return;
      }
      BoolMeaning(nodes, env, a);
      BoolMeaning(nodes, env, b);
      if IsBool(nA) && IsBool(nB) {
        i := BoolNode(inverter != (nA.inverter && nB.inverter));
      } else if IsBool(nA) {
        if inverter {
          if nA.inverter { i := NotGate(b); } else { i := BoolNode(true); }
        } else {
          if nA.inverter { i := b; } else { i := BoolNode(false); }
        }
      } else if IsBool(nB) {
        if inverter {
          if nB.inverter { i := NotGate(a); } else { i := BoolNode(true); }
        } else {
          if nB.inverter { i := a; } else { i := BoolNode(false); }
        }
      } else {
        i := Node2Index(AigNode(NoPort, -1, inverter, a, b));
      }
    }

    method OrGate(a: nat, b: nat) returns (i: nat)
      requires Valid() && a < |nodes| && b < |nodes|
      modifies this`nodes, this`indices
      ensures Valid() && Kept(old(nodes)) && Is(i, NodeVal(old(nodes), env, a) || NodeVal(old(nodes), env, b))
    {
      hide NodeVal, Ordered, Folded;
      var na := NotGate(a);
      var nb := NotGate(b);
      i := AndGate(na, nb, true);
    }

    method NorGate(a: nat, b: nat) returns (i: nat)
      requires Valid() && a < |nodes| && b < |nodes|
      modifies this`nodes, this`indices
      ensures Valid() && Kept(old(nodes)) && Is(i, !(NodeVal(old(nodes), env, a) || NodeVal(old(nodes), env, b)))
    {
      hide NodeVal, Ordered, Folded;
      var na := NotGate(a);
      var nb := NotGate(b);
      i := AndGate(na, nb, false);
    }

    method XorGate(a: nat, b: nat) returns (i: nat)
      requires Valid() && a < |nodes| && b < |nodes|
      modifies this`nodes, this`indices
      ensures Valid() && Kept(old(nodes)) && Is(i, NodeVal(old(nodes), env, a) != NodeVal(old(nodes), env, b))
    {
      hide NodeVal, Ordered, Folded;
      var both := AndGate(a, b, false);
      var none := NorGate(a, b);
      i := NorGate(both, none);
    }

    /** A vector of nodes carries the levels `v`. */
    ghost predicate AreBits(s: seq<nat>, v: Vec)
      reads this
    {
      |s| == |v| && forall k :: 0 <= k < |s| ==> Is(s[k], v[k])
    }

    lemma BitsStay(before: seq<AigNode>, s: seq<nat>, v: Vec)
      requires Kept(before) && |s| == |v| &&
          forall k :: 0 <= k < |s| ==> s[k] < |before| && NodeVal(before, env, s[k]) == v[k]
      ensures AreBits(s, v)
    {
      hide NodeVal, Ordered;
    }

    ghost function PortVec(port: Port, n: nat): (v: Vec)
      requires port in widths
      ensures |v| == n && forall k :: 0 <= k < n ==> v[k] == PortBit(port, k)
    {
      seq(n, k requires 0 <= k < n => PortBit(port, k))
    }

    method InportVec(port: Port, width: nat) returns (s: seq<nat>)
      requires Valid() && port in widths && (port in signed ==> widths[port] > 0)
      modifies this`nodes, this`indices
      ensures Valid() && Kept(old(nodes)) && AreBits(s, PortVec(port, width))
    {
      hide NodeVal, Ordered;
      KeptItself();
      s := [];
      for k := 0 to width
        invariant Valid() && Kept(old(nodes)) && AreBits(s, PortVec(port, width)[..k])
      {
        ghost var before := nodes;
        var i := Inport(port, k, false);
        KeptMore(old(nodes), before);
        BitsStay(before, s, PortVec(port, width)[..k]);
        s := s + [i];
      }
      assert PortVec(port, width)[..width] == PortVec(port, width);
    }

    lemma KeptItself()
      requires Valid()
      ensures Kept(nodes)
    {
    }

    lemma KeptMore(first: seq<AigNode>, before: seq<AigNode>)
      requires Kept(before) && Ordered(first) && first <= before &&
          forall j :: 0 <= j < |first| ==> NodeVal(before, env, j) == NodeVal(first, env, j)
      ensures Kept(first)
    {
      hide NodeVal, Ordered;
    }

    /** A ripple-carry adder, with the propagate bits and the carry out of every position. */
    method Adder(a: seq<nat>, b: seq<nat>, carryIn: nat, ghost va: Vec, ghost vb: Vec,
        ghost vc: bool) returns (y: seq<nat>, x: seq<nat>, co: seq<nat>)
      requires Valid() && AreBits(a, va) && AreBits(b, vb) && |a| == |b| && Is(carryIn, vc)
      modifies this`nodes, this`indices
      ensures Valid() && Kept(old(nodes))
      ensures AreBits(y, Sums(va, vb, vc)) && AreBits(x, Propagates(va, vb)) && AreBits(co, Carries(va, vb, vc))
      ensures |x| == |a| && forall k :: 0 <= k < |x| ==> Is(x[k], va[k] != vb[k])
    {
      hide NodeVal, Ordered, CarryAt, Valid;
      KeptItself();
      CarryStart(va, vb, vc);
      ghost var start := nodes;
      var carry := carryIn;
      y, x, co := [], [], [];
      for i := 0 to |a|
        invariant Valid() && Kept(start) && AreBits(a, va) && AreBits(b, vb) && Is(carry, CarryAt(va, vb, vc, i))
        invariant AreBits(y, Sums(va, vb, vc)[..i]) && AreBits(x, Propagates(va, vb)[..i]) &&
            AreBits(co, Carries(va, vb, vc)[..i])
      {
        ghost var before := nodes;
        var yi, xi, ci := FullAdder(a[i], b[i], carry);
        CarryStep(va, vb, vc, i);
        KeptMore(start, before);
        BitsStay(before, a, va);
        BitsStay(before, b, vb);
        BitsStay(before, y, Sums(va, vb, vc)[..i]);
        BitsStay(before, x, Propagates(va, vb)[..i]);
        BitsStay(before, co, Carries(va, vb, vc)[..i]);
        y, x, co, carry := y + [yi], x + [xi], co + [ci], ci;
      }
    }

    method FullAdder(a: nat, b: nat, carry: nat) returns (y: nat, x: nat, co: nat)
      requires Valid() && a < |nodes| && b < |nodes| && carry < |nodes|
      modifies this`nodes, this`indices
      ensures Valid() && Kept(old(nodes))
      ensures var va, vb, vc := NodeVal(old(nodes), env, a), NodeVal(old(nodes), env, b),
          NodeVal(old(nodes), env, carry);
              Is(y, (va != vb) != vc) && Is(x, va != vb) && Is(co, (va && vb) || ((va || vb) && vc))
    {
      hide NodeVal, Ordered, Valid, Folded;
      var t := XorGate(a, b);
      y := XorGate(t, carry);
      var both := AndGate(a, b, false);
      var some := OrGate(a, b);
      var passed := AndGate(some, carry, false);
      co := OrGate(both, passed);
      x := XorGate(a, b);
    }

    /** The levels on a port, as wide as it is. */
    ghost function Raw(port: Port): (v: Vec)
      requires port in widths
      ensures |v| == widths[port] && forall k :: 0 <= k < |v| ==> v[k] == env(port, k)
    {
      seq(widths[port], k requires 0 <= k < widths[port] => env(port, k))
    }

    ghost function PortInt(port: Port): int
      requires port in widths
    {
      Int(Raw(port), port in signed)
    }

    /** Reading a port at any width gives the low bits of its number. */
    lemma PortBits(port: Port, n: nat)
      requires port in widths
      ensures PortVec(port, n) == Bits(PortInt(port), n)
    {
      var raw, s := Raw(port), port in signed;
      BitsInt(raw, s);
      if n <= |raw| {
        hide Bits, Int;
        BitsPrefix(PortInt(port), |raw|, n);
        assert PortVec(port, n) == raw[..n];
      } else {
        ExtendedInt(raw, n, s);
        BitsInt(Extended(raw, n, s), s);
        ExtendedBits(port, n);
      }
    }

    lemma {:induction false} ExtendedBits(port: Port, n: nat)
      requires port in widths && n >= widths[port]
      ensures PortVec(port, n) == Extended(Raw(port), n, port in signed)
      decreases n
    {
      if n > widths[port] {
        ExtendedBits(port, n - 1);
        assert PortVec(port, n) == PortVec(port, n - 1) + [PortBit(port, n - 1)];
      } else {
        assert PortVec(port, n) == Raw(port);
      }
    }

    /** `$add` and `$sub`: subtraction adds the complement and one. */
    method AddSub(sub: bool) returns (y: seq<nat>)
      requires Valid() && {A, B, Y} <= widths.Keys && forall p :: p in signed && p in widths ==> widths[p] > 0
      modifies this`nodes, this`indices
      ensures Valid() && Kept(old(nodes)) &&
          AreBits(y, Bits(if sub then PortInt(A) - PortInt(B) else PortInt(A) + PortInt(B), widths[Y]))
    {
      hide NodeVal, Ordered, Valid, Sums, Carries, Propagates, Bits, Nat, Int, CarryAt;
      ghost var start, va, vb := nodes, PortVec(A, widths[Y]), PortVec(B, widths[Y]);
      var a, b := InportPair(widths[Y]);
      ghost var n2 := nodes;
      var carry := BoolNode(false);
      KeptMore(start, n2);
      BitsStay(n2, a, va);
      BitsStay(n2, b, vb);
      if sub {
        ghost var n3 := nodes;
        b := NotAll(b, vb);
        KeptMore(start, n3);
        BitsStay(n3, a, va);
        ghost var n4 := nodes;
        carry := NotGate(carry);
        KeptMore(start, n4);
        BitsStay(n4, a, va);
        BitsStay(n4, b, Complement(vb));
        vb := Complement(vb);
      }
      ghost var n5 := nodes;
      var x, co;
      y, x, co := Adder(a, b, carry, va, vb, sub);
      KeptMore(start, n5);
      PortBits(A, widths[Y]);
      PortBits(B, widths[Y]);
      if sub {
        SubtractBits(va, PortVec(B, widths[Y]), PortInt(A), PortInt(B));
      } else {
        AddedBits(va, vb, PortInt(A), PortInt(B), false);
      }
    }

    /** Both operands at one width. */
    method InportPair(width: nat) returns (a: seq<nat>, b: seq<nat>)
      requires Valid() && {A, B} <= widths.Keys && forall p :: p in signed && p in widths ==> widths[p] > 0
      modifies this`nodes, this`indices
      ensures Valid() && Kept(old(nodes)) && AreBits(a, PortVec(A, width)) && AreBits(b, PortVec(B, width))
    {
      hide NodeVal, Ordered, Valid;
      ghost var start := nodes;
      a := InportVec(A, width);
      ghost var before := nodes;
      b := InportVec(B, width);
      KeptMore(start, before);
      BitsStay(before, a, PortVec(A, width));
    }

    method NotAll(s: seq<nat>, ghost v: Vec) returns (r: seq<nat>)
      requires Valid() && AreBits(s, v)
      modifies this`nodes, this`indices
      ensures Valid() && Kept(old(nodes)) && AreBits(r, Complement(v))
    {
      hide NodeVal, Ordered, Valid;
      KeptItself();
      ghost var start := nodes;
      r := [];
      for k := 0 to |s|
        invariant Valid() && Kept(start) && AreBits(s, v) && AreBits(r, Complement(v)[..k])
      {
        ghost var before := nodes;
        var i := NotGate(s[k]);
        KeptMore(start, before);
        BitsStay(before, s, v);
        BitsStay(before, r, Complement(v)[..k]);
        r := r + [i];
      }
    }

    /** `$alu`: B is inverted when BI says so, CI comes in, and X and CO are shown beside the sum. */
    method Alu() returns (y: seq<nat>, x: seq<nat>, co: seq<nat>)
      requires Valid() && {A, B, CI, BI, Y} <= widths.Keys && forall p :: p in signed && p in widths ==> widths[p] > 0
      modifies this`nodes, this`indices
      ensures Valid() && Kept(old(nodes))
      ensures var a, b, ci := PortVec(A, widths[Y]), Flipped(PortVec(B, widths[Y]), PortBit(BI, 0)), PortBit(CI, 0);
              && AreBits(y, Sums(a, b, ci)) && AreBits(co, Carries(a, b, ci))
              && |x| == |a| && forall k :: 0 <= k < |x| ==> Is(x[k], a[k] != b[k])
    {
      hide NodeVal, Ordered, Valid, Sums, Carries, Propagates, CarryAt, Flipped;
      ghost var start, va, vb := nodes, PortVec(A, widths[Y]), PortVec(B, widths[Y]);
      var a, b := InportPair(widths[Y]);
      ghost var n1 := nodes;
      var carry := Inport(CI, 0, false);
      KeptMore(start, n1);
      BitsStay(n1, a, va);
      BitsStay(n1, b, vb);
      ghost var n2 := nodes;
      var binv := Inport(BI, 0, false);
      KeptMore(start, n2);
      BitsStay(n2, a, va);
      BitsStay(n2, b, vb);
      ghost var n3 := nodes;
      b := XorAll(b, vb, binv, PortBit(BI, 0));
      KeptMore(start, n3);
      BitsStay(n3, a, va);
      ghost var n4 := nodes;
      y, x, co := Adder(a, b, carry, va, Flipped(vb, PortBit(BI, 0)), PortBit(CI, 0));
      KeptMore(start, n4);
    }

    method XorAll(s: seq<nat>, ghost v: Vec, t: nat, ghost w: bool) returns (r: seq<nat>)
      requires Valid() && AreBits(s, v) && Is(t, w)
      modifies this`nodes, this`indices
      ensures Valid() && Kept(old(nodes)) && AreBits(r, Flipped(v, w))
    {
      hide NodeVal, Ordered, Valid;
      KeptItself();
      ghost var start := nodes;
      r := [];
      for k := 0 to |s|
        invariant Valid() && Kept(start) && AreBits(s, v) && Is(t, w) && AreBits(r, Flipped(v, w)[..k])
      {
        ghost var before := nodes;
        var i := XorGate(s[k], t);
        KeptMore(start, before);
        BitsStay(before, s, v);
        BitsStay(before, r, Flipped(v, w)[..k]);
        r := r + [i];
      }
    }

    /** With matching flags two ports are equal at the wider width exactly when their numbers are. */
    lemma EqualPorts(n: nat)
      requires {A, B} <= widths.Keys && (A in signed <==> B in signed) && n >= widths[A] && n >= widths[B]
      ensures PortVec(A, n) == PortVec(B, n) <==> PortInt(A) == PortInt(B)
    {
      hide Bits, Int, Extended;
      ExtendedBits(A, n);
      ExtendedBits(B, n);
      ExtendedInt(Raw(A), n, A in signed);
      ExtendedInt(Raw(B), n, B in signed);
      PortBits(A, n);
      PortBits(B, n);
    }

    /** `$eq` and `$ne`: any differing bit, at the width of the wider operand. */
    method EqNe(eq: bool) returns (y: nat)
      requires Valid() && {A, B} <= widths.Keys && forall p :: p in signed && p in widths ==> widths[p] > 0
      modifies this`nodes, this`indices
      ensures var n := if widths[A] < widths[B] then widths[B] else widths[A];
              Valid() && Kept(old(nodes)) && Is(y, (PortVec(A, n) == PortVec(B, n)) == eq)
      ensures (A in signed <==> B in signed) ==> Is(y, (PortInt(A) == PortInt(B)) == eq)
    {
      hide NodeVal, Ordered, Valid, PortInt;
      var width := if widths[A] < widths[B] then widths[B] else widths[A];
      if A in signed <==> B in signed { EqualPorts(width); }
      ghost var start, va, vb := nodes, PortVec(A, width), PortVec(B, width);
      var a, b := InportPair(width);
      ghost var n1 := nodes;
      y := AnyDiffer(a, b, va, vb);
      KeptMore(start, n1);
      if eq {
        ghost var n2 := nodes;
        y := NotGate(y);
        KeptMore(start, n2);
      }
    }

    method AnyDiffer(a: seq<nat>, b: seq<nat>, ghost va: Vec, ghost vb: Vec) returns (y: nat)
      requires Valid() && AreBits(a, va) && AreBits(b, vb) && |a| == |b|
      modifies this`nodes, this`indices
      ensures Valid() && Kept(old(nodes)) && Is(y, va != vb)
    {
      hide NodeVal, Ordered, Valid;
      ghost var start := nodes;
      y := BoolNode(false);
      BitsStay(start, a, va);
      BitsStay(start, b, vb);
      for i := 0 to |a|
        invariant Valid() && Kept(start) && AreBits(a, va) && AreBits(b, vb) && Is(y, va[..i] != vb[..i])
      {
        ghost var before := nodes;
        assert va[..i + 1] == va[..i] + [va[i]] && vb[..i + 1] == vb[..i] + [vb[i]];
        y := OrDiffer(y, a[i], b[i]);
        KeptMore(start, before);
        BitsStay(before, a, va);
        BitsStay(before, b, vb);
      }
      assert va[..|a|] == va && vb[..|a|] == vb;
    }

    method OrDiffer(y: nat, a: nat, b: nat) returns (i: nat)
      requires Valid() && y < |nodes| && a < |nodes| && b < |nodes|
      modifies this`nodes, this`indices
      ensures Valid() && Kept(old(nodes)) &&
          Is(i, NodeVal(old(nodes), env, y) || NodeVal(old(nodes), env, a) != NodeVal(old(nodes), env, b))
    {
      hide NodeVal, Ordered, Valid;
      var differ := XorGate(a, b);
      i := OrGate(y, differ);
    }
  }

  lemma BoolMeaning(nodes: seq<AigNode>, env: Env, a: nat)
    requires Ordered(nodes) && a < |nodes|
    ensures IsBool(nodes[a]) ==> NodeVal(nodes, env, a) == nodes[a].inverter
  {
  }

  lemma Opposite(nodes: seq<AigNode>, env: Env, a: nat, b: nat)
    requires Ordered(nodes) && a < |nodes| && b < |nodes| && nodes[a] == nodes[b].(inverter := !nodes[b].inverter)
    ensures NodeVal(nodes, env, a) == !NodeVal(nodes, env, b)
  {
    assert Placed(nodes[a], a) && Placed(nodes[b], b);
  }

  function Sorted(n: AigNode): AigNode {
    if n.left > n.right then n.(left := n.right, right := n.left) else n
  }

  // ---------------------------------------------------------------- the constant evaluator

  /** A signal extended with its last bit or zeros, or cut; an empty signed one is extended with undefined bits. */
  function ExtendU0(sig: seq<State>, width: nat, signed: bool): (r: seq<State>)
    ensures |r| == width &&
        forall i ::
        0 <= i < width ==>
        r[i] == if i < |sig| then sig[i] else if !signed then S0 else if |sig| > 0 then sig[|sig| - 1] else Sx
  {
    seq(width, i requires 0 <= i < width =>
      if i < |sig| then sig[i] else if !signed then S0 else if |sig| > 0 then sig[|sig| - 1] else Sx)
  }

  /** Extension keeps the number. */
  lemma ExtendU0Int(sig: seq<State>, width: nat, signed: bool)
    ensures Levels(ExtendU0(sig, width, signed)) == Bits(Int(Levels(sig), signed), width)
  {
    hide Bits, Int;
    var v := Levels(sig);
    var e := Extended(v, width, signed);
    ExtendedInt(v, width, signed);
    BitsInt(e, signed);
    BitsPrefix(Int(v, signed), |e|, width);
    ExtendedAt(v, width, signed);
    assert Levels(ExtendU0(sig, width, signed)) == e[..width];
  }

  function FromBit(b: bool): State { if b then S1 else S0 }

  /** A propagate bit, undefined when it depends on an undefined bit. */
  function PropagateBit(a: State, b: State, bi: State): State {
    if a == Sx || b == Sx || bi == Sx then Sx else FromBit((a == S1) != ((b == S1) != (bi == S1)))
  }

  /** Bits to show, or undefined ones instead. */
  function Shown(v: Vec, defined: bool): (r: seq<State>)
    ensures |r| == |v| && forall i :: 0 <= i < |v| ==> r[i] == if defined then FromBit(v[i]) else Sx
  {
    seq(|v|, i requires 0 <= i < |v| => if defined then FromBit(v[i]) else Sx)
  }

  /** One step of the evaluator on defined inputs. */
  lemma AluStep(a: Vec, b: Vec, ci: bool, i: nat)
    requires |a| == |b| && i < |a|
    ensures var carry := CarryAt(a, b, ci, i);
      && Sums(a, b, ci)[i] == ((a[i] != b[i]) != carry)
      && CarryAt(a, b, ci, i + 1) == Carries(a, b, ci)[i] == ((a[i] && b[i]) || (a[i] && carry) || (b[i] && carry))
  {
    hide CarryAt;
    CarryStep(a, b, ci, i);
  }

  /** The evaluator's loop for `$alu`, on extended operands. */
  method EvalAluBits(a: seq<State>, b: seq<State>, ci: State, bi: State, defined: bool) returns (y: seq<State>,
      x: seq<State>, co: seq<State>)
    requires |a| == |b|
    ensures |x| == |a| && forall i :: 0 <= i < |a| ==> x[i] == PropagateBit(a[i], b[i], bi)
    ensures |y| == |co| == |a|
    ensures var va, vb := Levels(a), Flipped(Levels(b), bi == S1);
      if defined then
        && Known(y) && Levels(y) == Sums(va, vb, ci == S1)
        && Known(co) && Levels(co) == Carries(va, vb, ci == S1)
      else forall i :: 0 <= i < |a| ==> y[i] == Sx && co[i] == Sx
  {
    hide CarryAt, Sums, Carries, FromBit, Shown, Levels, Flipped;
    ghost var va, vb := Levels(a), Flipped(Levels(b), bi == S1);
    ghost var sums, carries := Shown(Sums(va, vb, ci == S1), defined), Shown(Carries(va, vb, ci == S1), defined);
    var carry, inv := ci == S1, bi == S1;
    CarryStart(va, vb, ci == S1);
    y, x, co := [], [], [];
    for i := 0 to |a|
      invariant |x| == i && forall k :: 0 <= k < i ==> x[k] == PropagateBit(a[k], b[k], bi)
      invariant (defined ==> carry == CarryAt(va, vb, ci == S1, i)) && y == sums[..i] && co == carries[..i]
    {
      var bitA, bitB := a[i] == S1, (b[i] == S1) != inv;
      if a[i] == Sx || b[i] == Sx || bi == Sx {
        x := x + [Sx];
      } else {
        x := x + [FromBit(bitA != bitB)];
      }
      AluStep(va, vb, ci == S1, i);
      if !defined {
        y, co := y + [Sx], co + [Sx];
      } else {
        y := y + [FromBit((bitA != bitB) != carry)];
        carry := (bitA && bitB) || (bitA && carry) || (bitB && carry);
        co := co + [FromBit(carry)];
      }
    }
    if defined {
      ShownLevels(Sums(va, vb, ci == S1));
      ShownLevels(Carries(va, vb, ci == S1));
    }
  }

  lemma ShownLevels(v: Vec)
    ensures Known(Shown(v, true)) && Levels(Shown(v, true)) == v
  {
  }

  /** The evaluator for `$alu`: on defined inputs the bits of the graph; otherwise sum and carries are undefined, and
      so is every propagate bit that depends on an undefined bit. */
  method EvalAlu(a: seq<State>, b: seq<State>, ci: State, bi: State, aSigned: bool, bSigned: bool, width: nat)
    returns (y: seq<State>, x: seq<State>, co: seq<State>)
    ensures |y| == |x| == |co| == width
    ensures var a', b' := Bits(Int(Levels(a), aSigned), width), Bits(Int(Levels(b), bSigned), width);
      var b'' := if bi == S1 then Complement(b') else b';
      && (if Known(a) && Known(b) && ci != Sx && bi != Sx then
            && Known(y) && Levels(y) == Sums(a', b'', ci == S1)
            && Known(co) && Levels(co) == Carries(a', b'', ci == S1)
          else forall i :: 0 <= i < width ==> y[i] == Sx && co[i] == Sx)
      && forall i :: 0 <= i < width ==>
           if Undefined(a, aSigned, i) || Undefined(b, bSigned, i) || bi == Sx then x[i] == Sx
           else x[i] != Sx && (x[i] == S1) == (a'[i] != b''[i])
  {
    hide Bits, Int, Sums, Carries, Shown, Levels;
    ExtendU0Int(a, width, aSigned);
    ExtendU0Int(b, width, bSigned);
    var a0, b0 := ExtendU0(a, width, aSigned), ExtendU0(b, width, bSigned);
    y, x, co := EvalAluBits(a0, b0, ci, bi, Known(a) && Known(b) && ci != Sx && bi != Sx);
    assert Flipped(Levels(b0), bi == S1) == if bi == S1 then Complement(Levels(b0)) else Levels(b0);
  }

  /** Bit `i` of the extended signal is undefined: its own bit, the sign it repeats, or the sign of an empty signal. */
  predicate Undefined(sig: seq<State>, signed: bool, i: nat) {
    if i < |sig| then sig[i] == Sx else signed && (sig == [] || sig[|sig| - 1] == Sx)
  }

  /** Folded `$add` and `$sub` treat both operands as unsigned unless both are signed; the graph extends each by its own
      flag. They agree on all operands exactly when the flags agree or the signed operand needs no extension. */
  lemma AddSubAgrees(wa: nat, wb: nat, aSigned: bool, bSigned: bool, sub: bool, width: nat)
    requires wa > 0 && wb > 0
    ensures (forall a: Vec, b: Vec :: |a| == wa && |b| == wb ==> SameSum(a, b, aSigned, bSigned, sub, width)) <==>
            (aSigned == bSigned || (if aSigned then wa >= width else wb >= width))
  {
    hide Bits, Int, SameSum;
    if aSigned == bSigned || (if aSigned then wa >= width else wb >= width) {
      forall a: Vec, b: Vec | |a| == wa && |b| == wb ensures SameSum(a, b, aSigned, bSigned, sub, width) {
        SumsSame(a, b, aSigned, bSigned, sub, width);
      }
    } else {
      var a, b := Ones(wa), Ones(wb);
      SumsDiffer(wa, wb, aSigned, bSigned, sub, width);
      assert !SameSum(a, b, aSigned, bSigned, sub, width);
    }
  }

  function Total(a: int, b: int, sub: bool): int {
    if sub then a - b else a + b
  }

  predicate SameSum(a: Vec, b: Vec, aSigned: bool, bSigned: bool, sub: bool, width: nat) {
    Bits(Total(Int(a, aSigned), Int(b, bSigned), sub), width) ==
    Bits(Total(Int(a, aSigned && bSigned), Int(b, aSigned && bSigned), sub), width)
  }

  function Ones(n: nat): (v: Vec)
    ensures |v| == n && forall i :: 0 <= i < n ==> v[i]
  {
    seq(n, _ => true)
  }

  lemma SumsSame(a: Vec, b: Vec, aSigned: bool, bSigned: bool, sub: bool, width: nat)
    requires |a| > 0 && |b| > 0 && (aSigned == bSigned || (if aSigned then |a| >= width else |b| >= width))
    ensures SameSum(a, b, aSigned, bSigned, sub, width)
  {
    var s := aSigned && bSigned;
    UnsignedBits(a, aSigned, s, width);
    UnsignedBits(b, bSigned, s, width);
    hide Bits, Int, Nat, Pow2;
    if sub {
      BitsSub(Int(a, aSigned), Int(a, s), Int(b, bSigned), Int(b, s), width);
    } else {
      BitsAdd(Int(a, aSigned), Int(a, s), Int(b, bSigned), Int(b, s), 0, width);
    }
  }

  /** Dropping the sign does not show in the operand's own bits. */
  lemma UnsignedBits(v: Vec, signed: bool, s: bool, width: nat)
    requires signed == s || |v| >= width
    ensures Bits(Int(v, signed), width) == Bits(Int(v, s), width)
  {
    if signed != s {
      BitsInt(v, signed);
      BitsInt(v, s);
      hide Bits, Int;
      BitsPrefix(Int(v, signed), |v|, width);
      BitsPrefix(Int(v, s), |v|, width);
    }
  }

  /** A power of two shows in a wider vector. */
  lemma {:induction false} PowerShows(z: int, k: nat, width: nat)
    requires k < width
    ensures Bits(z - Pow2(k), width) != Bits(z, width) && Bits(z + Pow2(k), width) != Bits(z, width)
    decreases k
  {
    hide Bits;
    BitsStep(z, width);
    BitsStep(z - Pow2(k), width);
    BitsStep(z + Pow2(k), width);
    if k > 0 {
      PowerShows(z / 2, k - 1, width - 1);
      var p := Pow2(k - 1);
      assert (z - 2 * p) / 2 == z / 2 - p && (z + 2 * p) / 2 == z / 2 + p;
      TailsDiffer([z % 2 == 1], Bits(z / 2, width - 1), [(z - 2 * p) % 2 == 1], Bits(z / 2 - p, width - 1));
      TailsDiffer([z % 2 == 1], Bits(z / 2, width - 1), [(z + 2 * p) % 2 == 1], Bits(z / 2 + p, width - 1));
    } else {
      assert ([z % 2 == 1] + Bits(z / 2, width - 1))[0] != ([(z - 1) % 2 == 1] + Bits((z - 1) / 2, width - 1))[0];
      assert ([z % 2 == 1] + Bits(z / 2, width - 1))[0] != ([(z + 1) % 2 == 1] + Bits((z + 1) / 2, width - 1))[0];
    }
  }

  lemma TailsDiffer(h: Vec, t: Vec, h': Vec, t': Vec)
    requires |h| == |h'| == 1 && t != t'
    ensures h + t != h' + t'
  {
    assert (h + t)[1..] == t && (h' + t')[1..] == t';
  }

  lemma SumsDiffer(wa: nat, wb: nat, aSigned: bool, bSigned: bool, sub: bool, width: nat)
    requires wa > 0 && wb > 0 && aSigned != bSigned && (if aSigned then wa < width else wb < width)
    ensures !SameSum(Ones(wa), Ones(wb), aSigned, bSigned, sub, width)
  {
    var x, y := Nat(Ones(wa)), Nat(Ones(wb));
    if aSigned {
      PowerShows(Total(x, y, sub), wa, width);
    } else {
      PowerShows(Total(x, y, sub), wb, width);
    }
    hide Bits, Nat, Pow2;
  }

  // ---------------------------------------------------------------- outputs and dead nodes

  /** Keeps the nodes some output needs, in order, and renumbers their parents; `ids` says where each went. */
  method Optimize(nodes: seq<AigNode>, outputs: set<nat>) returns (newNodes: seq<AigNode>, ids: map<nat, nat>)
    requires Ordered(nodes) && forall i :: i in outputs ==> i < |nodes|
    ensures Ordered(newNodes) && (forall i :: i in outputs ==> i in ids)
    ensures forall i :: i in ids ==> i < |nodes| && ids[i] < |newNodes|
    ensures forall env: Env, i :: i in ids ==> NodeVal(newNodes, env, ids[i]) == NodeVal(nodes, env, i)
    ensures |newNodes| == |ids| && forall i :: i in ids ==> Needed(nodes, outputs, ids.Keys, i)
  {
    hide NodeVal, Renumbered, Needed, Ordered;
    var used := MarkUsed(nodes, outputs);
    newNodes, ids := [], map[];
    NothingMoved(nodes);
    for i := 0 to |nodes|
      invariant (forall j :: j in ids <==> j in used && j < i) && |ids| == |newNodes|
      invariant Renumbered(nodes, newNodes, ids)
    {
      if i in used {
        var n := nodes[i];
        PlacedAt(nodes, i);
        assert Closed(nodes, used, i);
        var left := if n.left < 0 then n.left else ids[n.left];
        var right := if n.right < 0 then n.right else ids[n.right];
        RenumberOne(nodes, newNodes, ids, i, n.(left := left, right := right));
        ids := ids[i := |newNodes|];
        newNodes := newNodes + [n.(left := left, right := right)];
      }
    }
    MovedFacts(nodes, newNodes, ids);
    forall env: Env, i | i in ids ensures NodeVal(newNodes, env, ids[i]) == NodeVal(nodes, env, i) {
      RenumberedVal(nodes, newNodes, ids, env, i);
    }
    assert ids.Keys == used;
  }

  /** Some output or some needed node refers to `i`. */
  predicate Needed(nodes: seq<AigNode>, outputs: set<nat>, used: set<nat>, i: nat) {
    i in outputs || exists j :: 0 <= j < |nodes| && j in used && (nodes[j].left == i || nodes[j].right == i)
  }

  /** A used node's parents are used. */
  predicate Closed(nodes: seq<AigNode>, used: set<nat>, i: nat)
    requires Ordered(nodes) && i < |nodes|
  {
    assert Placed(nodes[i], i);
    i in used ==> (nodes[i].left >= 0 ==> nodes[i].left in used) && (nodes[i].right >= 0 ==> nodes[i].right in used)
  }

  method MarkUsed(nodes: seq<AigNode>, outputs: set<nat>) returns (used: set<nat>)
    requires Ordered(nodes) && forall i :: i in outputs ==> i < |nodes|
    ensures outputs <= used && (forall i :: i in used ==> i < |nodes| && Needed(nodes, outputs, used, i))
    ensures forall i :: 0 <= i < |nodes| ==> Closed(nodes, used, i)
  {
    used := {};
    var i := |nodes|;
    while i > 0
      invariant 0 <= i <= |nodes| && (forall j :: j in used ==> j < |nodes| && Needed(nodes, outputs, used, j))
      invariant forall j :: i <= j < |nodes| ==> Closed(nodes, used, j) && (j in outputs ==> j in used)
    {
      i := i - 1;
      ghost var before := used;
      assert Placed(nodes[i], i);
      if i in outputs { used := used + {i}; }
      if i in used {
        if nodes[i].left >= 0 { used := used + {nodes[i].left}; }
        if nodes[i].right >= 0 { used := used + {nodes[i].right}; }
      }
      forall j | i <= j < |nodes| ensures Closed(nodes, used, j) { if j > i { assert Closed(nodes, before, j); } }
      forall j | j in used ensures Needed(nodes, outputs, used, j) {
        if j in before {
          assert Needed(nodes, outputs, before, j);
        } else if j !in outputs {
          assert i in used && (nodes[i].left == j || nodes[i].right == j);
        }
      }
    }
  }

  /** Renumbering keeps the order, and every kept node has its parents' new numbers. */
  predicate Renumbered(nodes: seq<AigNode>, newNodes: seq<AigNode>, ids: map<nat, nat>) {
    && Ordered(newNodes) && (forall i :: i in ids ==> i < |nodes| && ids[i] < |newNodes|)
    && (forall i, j :: i in ids && j in ids && i < j ==> ids[i] < ids[j])
    && forall i :: i in ids ==> Moved(nodes, newNodes, ids, i)
  }

  predicate Moved(nodes: seq<AigNode>, newNodes: seq<AigNode>, ids: map<nat, nat>, i: nat)
    requires i in ids && i < |nodes| && ids[i] < |newNodes|
  {
    var n, m := nodes[i], newNodes[ids[i]];
    && (n.left >= 0 ==> n.left in ids && m.left == ids[n.left])
    && (n.right >= 0 ==> n.right in ids && m.right == ids[n.right])
    && m == n.(left := if n.left < 0 then n.left else m.left, right := if n.right < 0 then n.right else m.right)
  }

  lemma NothingMoved(nodes: seq<AigNode>)
    ensures Renumbered(nodes, [], map[])
  {
  }

  lemma PlacedAt(nodes: seq<AigNode>, i: nat)
    requires Ordered(nodes) && i < |nodes|
    ensures Placed(nodes[i], i)
  {
  }

  lemma MovedFacts(nodes: seq<AigNode>, newNodes: seq<AigNode>, ids: map<nat, nat>)
    requires Renumbered(nodes, newNodes, ids)
    ensures Ordered(newNodes) && forall i :: i in ids ==> i < |nodes| && ids[i] < |newNodes|
  {
  }

  lemma RenumberOne(nodes: seq<AigNode>, newNodes: seq<AigNode>, ids: map<nat, nat>, i: nat, m: AigNode)
    requires Ordered(nodes) && Renumbered(nodes, newNodes, ids) && i < |nodes| && (forall j :: j in ids ==> j < i)
    requires (nodes[i].left >= 0 ==> nodes[i].left in ids) && (nodes[i].right >= 0 ==> nodes[i].right in ids)
    requires m == nodes[i].(left := if nodes[i].left < 0 then nodes[i].left else ids[nodes[i].left],
                            right := if nodes[i].right < 0 then nodes[i].right else ids[nodes[i].right])
    ensures Renumbered(nodes, newNodes + [m], ids[i := |newNodes|])
  {
    var more, ids' := newNodes + [m], ids[i := |newNodes|];
    assert Placed(nodes[i], i);
    assert Placed(m, |newNodes|);
    forall k | 0 <= k < |more| ensures Placed(more[k], k) { if k < |newNodes| { assert Placed(newNodes[k], k); } }
    forall j | j in ids' ensures Moved(nodes, more, ids', j) { if j != i { assert Moved(nodes, newNodes, ids, j); } }
  }

  lemma {:induction false} RenumberedVal(nodes: seq<AigNode>, newNodes: seq<AigNode>, ids: map<nat, nat>, env: Env,
      i: nat)
    requires Ordered(nodes) && Renumbered(nodes, newNodes, ids) && i in ids
    ensures NodeVal(newNodes, env, ids[i]) == NodeVal(nodes, env, i)
    decreases i
  {
    assert Placed(nodes[i], i) && Moved(nodes, newNodes, ids, i);
    if nodes[i].left >= 0 {
      RenumberedVal(nodes, newNodes, ids, env, nodes[i].left);
      RenumberedVal(nodes, newNodes, ids, env, nodes[i].right);
    }
  }
}
