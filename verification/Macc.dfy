/**
 The multiply-accumulate cell `$macc`: a sum of products and single bits. Optimising it, evaluating it on
 constants, and writing it to a cell and back.
 */
module Maccs {
  import opened Signals
  import opened BitVectors
  import opened Division
  import opened Options

  datatype SigBit = Zero | One | Wire(id: nat)
  type Sig = seq<SigBit>
  type Env = nat -> bool

  datatype Port = Port(inA: Sig, inB: Sig, isSigned: bool, doSubtract: bool)

  // ---------------------------------------------------------------- the number a cell computes

  function BitVal(b: SigBit, env: Env): bool {
    match b
    case Zero => false
    case One => true
    case Wire(id) => env(id)
  }

  function Vals(sig: Sig, env: Env): (v: Vec)
    ensures |v| == |sig| && forall i :: 0 <= i < |sig| ==> v[i] == BitVal(sig[i], env)
  {
    seq(|sig|, i requires 0 <= i < |sig| => BitVal(sig[i], env))
  }

  function Signed(sub: bool, x: int): int {
    if sub then 0 - x else x
  }

  /** A port without second factor adds its first factor. */
  function Summand(p: Port, env: Env): int {
    if |p.inB| == 0 then Int(Vals(p.inA, env), p.isSigned)
    else Int(Vals(p.inA, env), p.isSigned) * Int(Vals(p.inB, env), p.isSigned)
  }

  function PortVal(p: Port, env: Env): int {
    Signed(p.doSubtract, Summand(p, env))
  }

  function PortsVal(ports: seq<Port>, env: Env): int {
    if ports == [] then 0 else PortsVal(ports[..|ports| - 1], env) + PortVal(ports[|ports| - 1], env)
  }

  function BitsVal(bits: Sig, env: Env): int {
    if bits == [] then 0 else BitsVal(bits[..|bits| - 1], env) + if BitVal(bits[|bits| - 1], env) then 1 else 0
  }

  /** The sum before it is cut to the width of the output. */
  function MaccVal(ports: seq<Port>, bitPorts: Sig, env: Env): int {
    PortsVal(ports, env) + BitsVal(bitPorts, env)
  }

  lemma PortsSnoc(ports: seq<Port>, p: Port, env: Env)
    ensures PortsVal(ports + [p], env) == PortsVal(ports, env) + PortVal(p, env)
  {
    assert (ports + [p])[..|ports|] == ports;
  }

  lemma BitsSnoc(bits: Sig, b: SigBit, env: Env)
    ensures BitsVal(bits + [b], env) == BitsVal(bits, env) + if BitVal(b, env) then 1 else 0
  {
    assert (bits + [b])[..|bits|] == bits;
  }

  // ---------------------------------------------------------------- ports that lose their factor

  /** A product with an empty first factor is zero, but the optimiser swaps the factors. */
  predicate Stray(p: Port) {
    |p.inA| == 0 && |p.inB| > 0
  }

  /** What swapping adds. */
  function StrayVal(p: Port, env: Env): int {
    if Stray(p) then Signed(p.doSubtract, Int(Vals(p.inB, env), p.isSigned)) else 0
  }

  function StraysVal(ports: seq<Port>, env: Env): int {
    if ports == [] then 0 else StraysVal(ports[..|ports| - 1], env) + StrayVal(ports[|ports| - 1], env)
  }

  function Swapped(p: Port): Port {
    if |p.inA| < |p.inB| then p.(inA := p.inB, inB := p.inA) else p
  }

  lemma EmptyInt(sig: Sig, signed: bool, env: Env)
    requires |sig| == 0
    ensures Int(Vals(sig, env), signed) == 0
  {
    EmptyOnly(Vals(sig, env));
  }

  lemma SwapVal(p: Port, env: Env)
    ensures PortVal(Swapped(p), env) == PortVal(p, env) + StrayVal(p, env)
  {
    hide Int;
    if |p.inA| < |p.inB| {
      var a, b := Int(Vals(p.inA, env), p.isSigned), Int(Vals(p.inB, env), p.isSigned);
      if |p.inA| == 0 { EmptyInt(p.inA, p.isSigned, env); }
      assert a * b == b * a;
    }
  }

  // ---------------------------------------------------------------- trimming

  /** The top bit carries no information. */
  predicate Redundant(sig: Sig, signed: bool) {
    |sig| > 1 && (if signed then sig[|sig| - 1] == sig[|sig| - 2] else sig[|sig| - 1] == Zero)
  }

  lemma TrimVal(sig: Sig, signed: bool, env: Env)
    requires Redundant(sig, signed)
    ensures Int(Vals(sig[..|sig| - 1], env), signed) == Int(Vals(sig, env), signed)
  {
    var low, top := Vals(sig[..|sig| - 1], env), BitVal(sig[|sig| - 1], env);
    assert Vals(sig, env) == low + [top];
    NatSnoc(low, top);
    PowStep(|low|);
  }

  method Trim(sig: Sig, signed: bool) returns (r: Sig)
    ensures !Redundant(r, signed) && |r| <= |sig| && (|sig| > 0 ==> |r| > 0) && (FullyConst(r) ==> FullyConst(sig))
    ensures forall env :: Int(Vals(r, env), signed) == Int(Vals(sig, env), signed)
  {
    hide Int;
    r := sig;
    while Redundant(r, signed)
      invariant |r| <= |sig| && (|sig| > 0 ==> |r| > 0) && (FullyConst(r) ==> FullyConst(sig))
      invariant forall env :: Int(Vals(r, env), signed) == Int(Vals(sig, env), signed)
      decreases |r|
    {
      forall env ensures Int(Vals(r[..|r| - 1], env), signed) == Int(Vals(r, env), signed) { TrimVal(r, signed, env); }
      ghost var r0 := r;
      r := r[..|r| - 1];
      assert r0[|r0| - 2] == r[|r| - 1] && forall i :: 0 <= i < |r| ==> r0[i] == r[i];
    }
  }

  // ---------------------------------------------------------------- constants

  predicate FullyConst(sig: Sig) {
    forall i :: 0 <= i < |sig| ==> !sig[i].Wire?
  }

  function AsConst(sig: Sig): (c: seq<State>)
    requires FullyConst(sig)
    ensures |c| == |sig| && Known(c) && forall env :: Levels(c) == Vals(sig, env)
  {
    var c := seq(|sig|, i requires 0 <= i < |sig| => if sig[i] == One then S1 else S0);
    assert forall env :: Levels(c) == Vals(sig, env);
    c
  }

  function ConstSig(c: seq<State>): (sig: Sig)
    ensures |sig| == |c| && FullyConst(sig) && forall env :: Vals(sig, env) == Levels(c)
  {
    var sig := seq(|c|, i requires 0 <= i < |c| => if c[i] == S1 then One else Zero);
    assert forall env :: Vals(sig, env) == Levels(c);
    sig
  }

  /** The constant holds the number `z` modulo its width. */
  ghost predicate Carries(c: seq<State>, z: int) {
    Known(c) && Levels(c) == Bits(z, |c|)
  }

  /** Adding to or subtracting from a constant adds to the number it carries. */
  method Accumulate(off: seq<State>, v: seq<State>, signed: bool, sub: bool, width: nat, ghost z: int,
      ghost x: int) returns (r: seq<State>)
    requires |off| == width && Carries(off, z) && Known(v) && Bits(Int(Levels(v), signed), width) == Bits(x, width)
    ensures |r| == width && Carries(r, z + Signed(sub, x))
  {
    hide Bits, Int;
    BitsInt(Levels(off), signed);
    if sub {
      r := ConstSub(off, v, signed, signed, width);
      BitsSub(Int(Levels(off), signed), z, Int(Levels(v), signed), x, width);
    } else {
      r := ConstAdd(off, v, signed, signed, width);
      BitsAdd(Int(Levels(off), signed), z, Int(Levels(v), signed), x, 0, width);
    }
  }

  // ---------------------------------------------------------------- optimising

  /** A port as the optimiser leaves it. */
  predicate Reduced(p: Port) {
    && |p.inA| > 0 && !(FullyConst(p.inA) && FullyConst(p.inB))
    && !Redundant(p.inA, p.isSigned) && !Redundant(p.inB, p.isSigned)
  }

  lemma EmptyPort(p: Port, env: Env)
    requires |p.inA| == 0 && |p.inB| == 0
    ensures PortVal(p, env) == 0 && StrayVal(p, env) == 0
  {
    EmptyInt(p.inA, p.isSigned, env);
  }

  lemma BitPort(p: Port, env: Env)
    requires |p.inA| == 1 && |p.inB| == 0 && !p.isSigned && !p.doSubtract
    ensures PortVal(p, env) == if BitVal(p.inA[0], env) then 1 else 0
  {
    var v := Vals(p.inA, env);
    assert v == [v[0]] && v[1..] == [];
    assert Nat(v[1..]) == 0;
  }

  /** The number a constant port contributes, the same under all valuations. */
  method FoldPort(p: Port, width: nat, off: seq<State>, ghost z: int) returns (r: seq<State>, ghost z': int)
    requires FullyConst(p.inA) && FullyConst(p.inB) && |off| == width && Carries(off, z)
    ensures |r| == width && Carries(r, z') && forall env :: z' == z + PortVal(p, env)
  {
    hide Bits, Int;
    var v := AsConst(p.inA);
    ghost var x := Int(Levels(v), p.isSigned);
    if |p.inB| > 0 {
      var b := AsConst(p.inB);
      x := x * Int(Levels(b), p.isSigned);
      v := ConstMul(v, b, p.isSigned, p.isSigned, width);
      BitsInt(Levels(v), p.isSigned);
    }
    r := Accumulate(off, v, p.isSigned, p.doSubtract, width, z, x);
    z' := z + Signed(p.doSubtract, x);
    forall env: Env ensures z' == z + PortVal(p, env) {
      assert Levels(AsConst(p.inA)) == Vals(p.inA, env) && Levels(AsConst(p.inB)) == Vals(p.inB, env);
    }
  }

  class Macc {
    var ports: seq<Port>
    var bitPorts: Sig

    constructor (ports: seq<Port>, bitPorts: Sig)
      ensures this.ports == ports && this.bitPorts == bitPorts
    {
      this.ports, this.bitPorts := ports, bitPorts;
    }

    ghost function Sum(env: Env): int
      reads this
    {
      MaccVal(ports, bitPorts, env)
    }

    /** Puts one port where it belongs: among the single bits, into the constant offset, or trimmed into the new list.
        */
    method OptimizePort(port: Port, width: nat, newPorts: seq<Port>, off: seq<State>, ghost z: int)
      returns (newPorts': seq<Port>, off': seq<State>, ghost z': int)
      requires |off| == width && Carries(off, z)
      modifies this`bitPorts
      ensures |off'| == width && Carries(off', z')
      ensures (forall i :: 0 <= i < |newPorts| ==> Reduced(newPorts[i])) ==>
          forall i :: 0 <= i < |newPorts'| ==> Reduced(newPorts'[i])
      ensures forall env ::
          MaccVal(newPorts', bitPorts, env) + z' ==
          MaccVal(newPorts, old(bitPorts), env) + z + PortVal(port, env) + StrayVal(port, env)
    {
      hide Carries, PortVal, StrayVal, PortsVal, BitsVal;
      newPorts', off', z' := newPorts, off, z;
      if |port.inA| == 0 && |port.inB| == 0 {
        forall env { EmptyPort(port, env); }
        return;
      }
      var p := Swapped(port);
      forall env { SwapVal(port, env); }
      if |p.inA| == 1 && |p.inB| == 0 && !p.isSigned && !p.doSubtract {
        assert p.inA == [p.inA[0]];
        forall env { BitsSnoc(bitPorts, p.inA[0], env); }
        forall env { BitPort(p, env); }
        bitPorts := bitPorts + p.inA;
      } else if FullyConst(p.inA) && FullyConst(p.inB) {
        off', z' := FoldPort(p, width, off, z);
      } else {
        var q := TrimPort(p);
        forall env { PortsSnoc(newPorts, q, env); }
        newPorts' := newPorts + [q];
      }
    }

    method TrimPort(p: Port) returns (q: Port)
      requires |p.inA| > 0 && !(FullyConst(p.inA) && FullyConst(p.inB))
      ensures Reduced(q) && forall env :: PortVal(q, env) == PortVal(p, env)
    {
      hide Int;
      var a := Trim(p.inA, p.isSigned);
      var b := Trim(p.inB, p.isSigned);
      q := p.(inA := a, inB := b);
    }

    /** Adds the constant single bits to the offset and keeps the others. */
    method OptimizeBits(width: nat, off: seq<State>, ghost z: int) returns (kept: Sig, off': seq<State>, ghost z': int)
      requires |off| == width && Carries(off, z)
      ensures |off'| == width && Carries(off', z') && (forall i :: 0 <= i < |kept| ==> kept[i].Wire?)
      ensures forall env :: BitsVal(kept, env) + z' == BitsVal(bitPorts, env) + z
    {
      hide Carries, BitsVal, Int, Bits;
      kept, off', z' := [], off, z;
      NoBits();
      for i := 0 to |bitPorts|
        invariant |off'| == width && Carries(off', z') && (forall j :: 0 <= j < |kept| ==> kept[j].Wire?)
        invariant forall env :: BitsVal(kept, env) + z' == BitsVal(bitPorts[..i], env) + z
      {
        var bit := bitPorts[i];
        assert bitPorts[..i + 1] == bitPorts[..i] + [bit];
        forall env { BitsSnoc(bitPorts[..i], bit, env); }
        forall env { BitsSnoc(kept, bit, env); }
        if bit == One {
          var one := Big2Const(1, width, false);
          BitsOfVec(Levels(one), 1);
          UnsignedInt(Levels(one));
          off' := Accumulate(off', one, false, false, width, z', 1);
          z' := z' + 1;
        } else if bit != Zero {
          kept := kept + [bit];
        }
      }
      assert bitPorts[..|bitPorts|] == bitPorts;
    }

    /** Optimising keeps the sum modulo the width, apart from the factors that ports without a first factor get. */
    method Optimize(width: nat)
      modifies this
      ensures forall env :: Bits(Sum(env), width) == Bits(old(Sum(env)) + StraysVal(old(ports), env), width)
      // It is kept under every valuation exactly when those factors balance out.
      ensures (forall env :: Bits(Sum(env), width) == Bits(old(Sum(env)), width)) <==> Balanced(old(ports), width)
      ensures forall i :: 0 <= i < |bitPorts| ==> bitPorts[i].Wire?
      // Constants are gone, except that the last port may be their sum if that is not zero.
      ensures forall i ::
                0 <= i < |ports| ==>
                  Reduced(ports[i]) || (i == |ports| - 1 && IsOffset(ports[i], width) && One in ports[i].inA)
    {
      hide Carries, PortVal, StrayVal, PortsVal, BitsVal, StraysVal, Reduced, Bits, Vanishes, Balanced;
      var newPorts: seq<Port>, off := [], seq(width, _ => S0);
      ghost var z, bits0 := 0, bitPorts;
      ZeroCarries(off);
      NoPorts();
      for k := 0 to |ports|
        invariant ports == old(ports) && |off| == width && Carries(off, z)
        invariant forall i :: 0 <= i < |newPorts| ==> Reduced(newPorts[i])
        invariant forall env ::
            MaccVal(newPorts, bitPorts, env) + z ==
            PortsVal(ports[..k], env) + StraysVal(ports[..k], env) + BitsVal(bits0, env)
      {
        assert ports[..k + 1] == ports[..k] + [ports[k]];
        forall env { PortsSnoc(ports[..k], ports[k], env); }
        forall env { StraysSnoc(ports[..k], ports[k], env); }
        newPorts, off, z := OptimizePort(ports[k], width, newPorts, off, z);
      }
      assert ports[..|ports|] == ports;
      var kept;
      kept, off, z := OptimizeBits(width, off, z);
      ghost var reduced := newPorts;
      if exists i :: 0 <= i < |off| && off[i] == S1 {
        newPorts := newPorts + [Port(ConstSig(off), [], false, false)];
        ghost var one :| 0 <= one < |off| && off[one] == S1;
        assert ConstSig(off)[one] == One;
      }
      ports, bitPorts := newPorts, kept;
      forall env: Env ensures Bits(Sum(env), width) == Bits(old(Sum(env)) + StraysVal(old(ports), env), width) {
        OffsetAdded(reduced, off, z, env);
        BitsAdd(PortsVal(newPorts, env), PortsVal(reduced, env) + z, BitsVal(kept, env), BitsVal(kept, env), 0, width);
      }
      BalancedIff(old(ports), width);
      forall env: Env
        ensures Bits(Sum(env), width) == Bits(old(Sum(env)), width) <==> Vanishes(StraysVal(old(ports), env), width)
      {
        AddedVanishes(old(Sum(env)), StraysVal(old(ports), env), width);
      }
    }

    /** On constants, the bits of the sum. */
    method Eval(width: nat) returns (ok: bool, result: seq<State>)
      ensures ok <==>
          FullyConst(bitPorts) && forall k :: 0 <= k < |ports| ==> FullyConst(ports[k].inA) && FullyConst(ports[k].inB)
      ensures ok ==> |result| == width && Known(result) && forall env :: Levels(result) == Bits(Sum(env), width)
    {
      hide Carries, PortVal, PortsVal, BitsVal, Bits;
      result := seq(width, _ => S0);
      ghost var z := 0;
      ZeroCarries(result);
      NoPorts();
      NoBits();
      for k := 0 to |ports|
        invariant |result| == width && Carries(result, z) && forall env :: z == PortsVal(ports[..k], env)
        invariant forall j :: 0 <= j < k ==> FullyConst(ports[j].inA) && FullyConst(ports[j].inB)
      {
        if !FullyConst(ports[k].inA) || !FullyConst(ports[k].inB) { return false, []; }
        assert ports[..k + 1] == ports[..k] + [ports[k]];
        forall env { PortsSnoc(ports[..k], ports[k], env); }
        result, z := EvalPort(ports[k], width, result, z);
      }
      assert ports[..|ports|] == ports;
      ghost var zPorts := z;
      for i := 0 to |bitPorts|
        invariant |result| == width && Carries(result, z) && forall env :: z == zPorts + BitsVal(bitPorts[..i], env)
        invariant forall j :: 0 <= j < i ==> !bitPorts[j].Wire?
      {
        if bitPorts[i].Wire? { return false, []; }
        assert bitPorts[..i + 1] == bitPorts[..i] + [bitPorts[i]];
        forall env { BitsSnoc(bitPorts[..i], bitPorts[i], env); }
        var bit := AsConst([bitPorts[i]]);
        OneBit(bit);
        result := Accumulate(result, bit, false, false, width, z, Nat(Levels(bit)));
        z := z + Nat(Levels(bit));
      }
      assert bitPorts[..|bitPorts|] == bitPorts;
      ok := true;
      CarriedBits(result, z);
      forall env: Env ensures z == Sum(env) { }
    }

    method ToCell() returns (ok: bool, portA: Sig, portB: Sig, config: seq<bool>, ghost numBits: nat)
      // The lengths must be small enough for four bits to say how many bits they take.
      ensures ok <==> forall i :: 0 <= i < |ports| ==> |ports[i].inA| < Pow2(15) && |ports[i].inB| < Pow2(15)
      ensures ok ==> numBits < 16 && forall i :: 0 <= i < |ports| ==> Fits(ports[i], numBits)
      // No length field is wider than the longest factor needs.
      ensures ok && numBits > 0 ==>
          exists i :: 0 <= i < |ports| && (Pow2(numBits - 1) <= |ports[i].inA| || Pow2(numBits - 1) <= |ports[i].inB|)
      ensures ok ==>
          portA == Factors(Written(ports)) && portB == bitPorts &&
          config == Bits(numBits, 4) + Config(Written(ports), numBits)
    {
      hide Bits, Pow2, Config, Factors, Written, PortConfig;
      var maxSize := 0;
      for k := 0 to |ports|
        invariant forall j :: 0 <= j < k ==> |ports[j].inA| <= maxSize && |ports[j].inB| <= maxSize
        invariant maxSize == 0 || exists j :: 0 <= j < k && (|ports[j].inA| == maxSize || |ports[j].inB| == maxSize)
      {
        if |ports[k].inA| > maxSize { maxSize := |ports[k].inA|; }
        if |ports[k].inB| > maxSize { maxSize := |ports[k].inB|; }
      }
      var bits := LengthBits(maxSize);
      numBits := bits;
      PowZero();
      PowGrows(0, 15);
      portA, portB, config := [], bitPorts, [];
      if bits >= 16 {
        PowGrows(15, bits - 1);
        ok := false;
        return;
      }
      PowGrows(bits, 15);
      config := WriteLength(bits, 4);
      ghost var head := config;
      NothingWritten(bits);
      for k := 0 to |ports|
        invariant config == head + Config(Written(ports[..k]), bits) && portA == Factors(Written(ports[..k]))
      {
        ghost var done := Written(ports[..k]);
        WrittenSnoc(ports, k);
        assert done + [] == done;
        if |ports[k].inA| == 0 { continue; }
        var sizeA := WriteLength(|ports[k].inA|, bits);
        var sizeB := WriteLength(|ports[k].inB|, bits);
        ConfigSnoc(done, ports[k], bits);
        PortConfigIs(ports[k], bits);
        assert config + ([ports[k].isSigned, ports[k].doSubtract] + sizeA + sizeB) ==
               head + (Config(done, bits) + PortConfig(ports[k], bits));
        config := config + ([ports[k].isSigned, ports[k].doSubtract] + sizeA + sizeB);
        portA := portA + (ports[k].inA + ports[k].inB);
      }
      assert ports[..|ports|] == ports;
      ok := true;
    }

    method FromCell(portA: Sig, portB: Sig, config: seq<bool>, configWidth: nat) returns (ok: bool)
      requires |config| >= 4
      modifies this
      ensures ok <==> Parse(portA, config, configWidth).Some?
      ensures ok ==> ports == Parse(portA, config, configWidth).value && bitPorts == portB
    {
      hide Nat, ReadPorts, ReadPort;
      ports, bitPorts := [], portB;
      if |config| < configWidth { return false; }
      var numBits := ReadLength(config, 0, 4);
      assert config[0..4] == config[..4];
      if configWidth < 4 { return false; }
      ghost var whole := ReadPorts(config[4..configWidth], numBits, portA);
      var cursor, cursorA := 4, 0;
      BehindNone(whole);
      assert portA[0..] == portA;
      while cursorA < |portA|
        invariant 4 <= cursor <= configWidth && 0 <= cursorA <= |portA| && bitPorts == portB
        invariant whole == Behind(ports, ReadPorts(config[cursor..configWidth], numBits, portA[cursorA..]))
        decreases configWidth - cursor
      {
        ReadStep(config[cursor..configWidth], numBits, portA[cursorA..]);
        if cursor + 2 + 2 * numBits > configWidth { return false; }
        ghost var here, rest := config[cursor..configWidth], portA[cursorA..];
        var isSigned, doSubtract := config[cursor], config[cursor + 1];
        var sizeA := ReadLength(config, cursor + 2, numBits);
        var sizeB := ReadLength(config, cursor + 2 + numBits, numBits);
        SubSlice(config, cursor, configWidth, 2, 2 + numBits);
        SubSlice(config, cursor, configWidth, 2 + numBits, 2 + 2 * numBits);
        ReadPortIs(here, numBits, rest, sizeA, sizeB);
        if cursorA + sizeA + sizeB > |portA| { return false; }
        var port := Port(portA[cursorA..cursorA + sizeA], portA[cursorA + sizeA..cursorA + sizeA + sizeB], isSigned,
            doSubtract);
        assert rest[..sizeA] == port.inA && rest[sizeA..sizeA + sizeB] == port.inB;
        assert here[2 + 2 * numBits..] == config[cursor + 2 + 2 * numBits..configWidth];
        assert rest[sizeA + sizeB..] == portA[cursorA + sizeA + sizeB..];
        BehindMore(ports, port, ReadPorts(here[2 + 2 * numBits..], numBits, rest[sizeA + sizeB..]));
        if sizeA > 0 || sizeB > 0 { ports := ports + [port]; }
        cursor, cursorA := cursor + 2 + 2 * numBits, cursorA + sizeA + sizeB;
      }
      ReadEnd(config[cursor..configWidth], numBits, portA[cursorA..]);
      ok := cursor == configWidth;
      if ok { assert config[cursor..configWidth] == []; }
    }
  }

  lemma CarriedBits(c: seq<State>, z: int)
    requires Carries(c, z)
    ensures Known(c) && Levels(c) == Bits(z, |c|)
  {
  }

  lemma OneBit(c: seq<State>)
    requires |c| == 1 && Known(c)
    ensures Int(Levels(c), false) == Nat(Levels(c)) == if c[0] == S1 then 1 else 0
  {
    var v := Levels(c);
    assert v == [v[0]] && v[1..] == [];
    assert Nat(v[1..]) == 0;
  }

  /** Adds a constant port, extended to the width of the sum or multiplied out. */
  method EvalPort(p: Port, width: nat, result: seq<State>, ghost z: int) returns (r: seq<State>, ghost z': int)
    requires FullyConst(p.inA) && FullyConst(p.inB) && |result| == width && Carries(result, z)
    ensures |r| == width && Carries(r, z') && forall env :: z' == z + PortVal(p, env)
  {
    hide Bits, Int;
    var a, b := AsConst(p.inA), AsConst(p.inB);
    ghost var x := Int(Levels(a), p.isSigned);
    var summand;
    if |p.inB| == 0 {
      summand := ConstPos(a, p.isSigned, width);
    } else {
      x := x * Int(Levels(b), p.isSigned);
      summand := ConstMul(a, b, p.isSigned, p.isSigned, width);
    }
    BitsInt(Levels(summand), p.isSigned);
    r := Accumulate(result, summand, p.isSigned, p.doSubtract, width, z, x);
    z' := z + Signed(p.doSubtract, x);
    forall env: Env ensures z' == z + PortVal(p, env) {
      assert Levels(a) == Vals(p.inA, env) && Levels(b) == Vals(p.inB, env);
    }
  }

  // ---------------------------------------------------------------- when the strays add nothing

  predicate Vanishes(x: int, width: nat) {
    Bits(x, width) == Bits(0, width)
  }

  function ConstPart(sig: Sig): (v: Vec)
    ensures |v| == |sig| && forall i :: 0 <= i < |sig| ==> v[i] == (sig[i] == One)
  {
    seq(|sig|, i requires 0 <= i < |sig| => sig[i] == One)
  }

  function WirePart(sig: Sig, w: nat): (v: Vec)
    ensures |v| == |sig| && forall i :: 0 <= i < |sig| ==> v[i] == (sig[i] == SigBit.Wire(w))
  {
    seq(|sig|, i requires 0 <= i < |sig| => sig[i] == SigBit.Wire(w))
  }

  function PartVal(p: Port, v: Vec): int {
    if Stray(p) then Signed(p.doSubtract, Int(v, p.isSigned)) else 0
  }

  /** What the constant bits of the strays add up to. */
  function StrayConst(ports: seq<Port>): int {
    if ports == [] then 0
        else StrayConst(ports[..|ports| - 1]) + PartVal(ports[|ports| - 1], ConstPart(ports[|ports| - 1].inB))
  }

  /** What the bits of the strays that are on one wire add up to while it is on. */
  function StrayWeight(ports: seq<Port>, w: nat): int {
    if ports == [] then 0
        else StrayWeight(ports[..|ports| - 1], w) + PartVal(ports[|ports| - 1], WirePart(ports[|ports| - 1].inB, w))
  }

  /** The constant part and the weight of every wire are multiples of `2^width`. */
  ghost predicate Balanced(ports: seq<Port>, width: nat) {
    Vanishes(StrayConst(ports), width) && forall w :: Vanishes(StrayWeight(ports, w), width)
  }

  lemma {:induction false} NatDisjoint(a: Vec, b: Vec, c: Vec)
    requires |a| == |b| == |c| && forall i :: 0 <= i < |c| ==> c[i] == (a[i] || b[i]) && !(a[i] && b[i])
    ensures Nat(c) == Nat(a) + Nat(b)
  {
    if |c| > 0 { NatDisjoint(a[1..], b[1..], c[1..]); }
  }

  lemma PartDisjoint(p: Port, a: Vec, b: Vec, c: Vec)
    requires |a| == |b| == |c| && forall i :: 0 <= i < |c| ==> c[i] == (a[i] || b[i]) && !(a[i] && b[i])
    ensures PartVal(p, c) == PartVal(p, a) + PartVal(p, b)
  {
    NatDisjoint(a, b, c);
  }

  function AllOff(): Env { (w: nat) => false }

  function FirstOn(env: Env, n: nat): Env { (w: nat) => w < n && env(w) }

  lemma {:induction false} StraysOff(ports: seq<Port>)
    ensures StraysVal(ports, AllOff()) == StrayConst(ports)
  {
    hide Int;
    if ports != [] {
      var p := ports[|ports| - 1];
      StraysOff(ports[..|ports| - 1]);
      assert Vals(p.inB, AllOff()) == ConstPart(p.inB);
    }
  }

  /** Turning on one wire adds its weight. */
  lemma {:induction false} StraysOn(ports: seq<Port>, env: Env, env': Env, w: nat)
    requires !env(w) && forall x: nat :: env'(x) == (env(x) || x == w)
    ensures StraysVal(ports, env') == StraysVal(ports, env) + StrayWeight(ports, w)
  {
    hide Int;
    if ports != [] {
      var p := ports[|ports| - 1];
      StraysOn(ports[..|ports| - 1], env, env', w);
      PartDisjoint(p, Vals(p.inB, env), WirePart(p.inB, w), Vals(p.inB, env'));
    }
  }

  lemma {:induction false} StraysSame(ports: seq<Port>, env: Env, env': Env, n: nat)
    requires WiresUnder(ports, n) && forall x: nat :: x < n ==> env(x) == env'(x)
    ensures StraysVal(ports, env) == StraysVal(ports, env')
  {
    hide Int;
    if ports != [] {
      var p := ports[|ports| - 1];
      StraysSame(ports[..|ports| - 1], env, env', n);
      assert SigUnder(p.inB, n);
      assert Vals(p.inB, env) == Vals(p.inB, env');
    }
  }

  predicate SigUnder(sig: Sig, n: nat) {
    forall i :: 0 <= i < |sig| && sig[i].Wire? ==> sig[i].id < n
  }

  predicate WiresUnder(ports: seq<Port>, n: nat) {
    forall k :: 0 <= k < |ports| ==> SigUnder(ports[k].inB, n)
  }

  lemma {:induction false} SigBound(sig: Sig) returns (n: nat)
    ensures SigUnder(sig, n)
  {
    n := 0;
    if sig != [] {
      var last := sig[|sig| - 1];
      n := SigBound(sig[..|sig| - 1]);
      if last.Wire? && last.id >= n { n := last.id + 1; }
    }
  }

  lemma {:induction false} WiresBound(ports: seq<Port>) returns (n: nat)
    ensures WiresUnder(ports, n)
  {
    n := 0;
    if ports != [] {
      var m := SigBound(ports[|ports| - 1].inB);
      n := WiresBound(ports[..|ports| - 1]);
      n := if m > n then m else n;
      forall k | 0 <= k < |ports| ensures SigUnder(ports[k].inB, n) {
        if k < |ports| - 1 { assert ports[..|ports| - 1][k] == ports[k]; }
      }
    }
  }

  lemma {:induction false} BalancedFirst(ports: seq<Port>, width: nat, env: Env, n: nat)
    requires Balanced(ports, width)
    ensures Vanishes(StraysVal(ports, FirstOn(env, n)), width)
  {
    hide Bits, StrayConst, StrayWeight, StraysVal;
    if n == 0 {
      StraysOff(ports);
      var m := WiresBound(ports);
      StraysSame(ports, FirstOn(env, 0), AllOff(), m);
    } else {
      BalancedFirst(ports, width, env, n - 1);
      var s := StraysVal(ports, FirstOn(env, n - 1));
      if env(n - 1) {
        StraysOn(ports, FirstOn(env, n - 1), FirstOn(env, n), n - 1);
        BitsAdd(s, 0, StrayWeight(ports, n - 1), 0, 0, width);
      } else {
        var m := WiresBound(ports);
        StraysSame(ports, FirstOn(env, n - 1), FirstOn(env, n), m);
      }
    }
  }

  ghost predicate AddNothing(ports: seq<Port>, width: nat) {
    forall env: Env :: Vanishes(StraysVal(ports, env), width)
  }

  lemma BalancedVanishes(ports: seq<Port>, width: nat, env: Env)
    requires Balanced(ports, width)
    ensures Vanishes(StraysVal(ports, env), width)
  {
    hide Bits, StrayConst, StrayWeight, StraysVal;
    var n := WiresBound(ports);
    BalancedFirst(ports, width, env, n);
    StraysSame(ports, env, FirstOn(env, n), n);
  }

  lemma VanishingBalanced(ports: seq<Port>, width: nat)
    requires AddNothing(ports, width)
    ensures Balanced(ports, width)
  {
    hide Bits, StrayConst, StrayWeight, StraysVal;
    StraysOff(ports);
    assert Vanishes(StraysVal(ports, AllOff()), width);
    forall w: nat ensures Vanishes(StrayWeight(ports, w), width) {
      var only: Env := x => x == w;
      StraysOn(ports, AllOff(), only, w);
      var c, s := StrayConst(ports), StraysVal(ports, only);
      assert Vanishes(s, width);
      BitsSub(s, 0, c, 0, width);
    }
  }

  /** The strays add nothing under any valuation exactly when they are balanced. */
  lemma BalancedIff(ports: seq<Port>, width: nat)
    ensures AddNothing(ports, width) <==> Balanced(ports, width)
  {
    hide Vanishes, Balanced, StraysVal;
    if Balanced(ports, width) {
      forall env: Env ensures Vanishes(StraysVal(ports, env), width) { BalancedVanishes(ports, width, env); }
    } else if AddNothing(ports, width) {
      VanishingBalanced(ports, width);
    }
  }

  /** Adding a number changes nothing exactly when it vanishes. */
  lemma AddedVanishes(x: int, s: int, width: nat)
    ensures Bits(x + s, width) == Bits(x, width) <==> Vanishes(s, width)
  {
    hide Bits;
    if Bits(x + s, width) == Bits(x, width) { BitsSub(x + s, x, x, x, width); }
    if Vanishes(s, width) { BitsAdd(x, x, s, 0, 0, width); }
  }

  lemma VecVanishes(v: Vec, signed: bool, width: nat)
    ensures Vanishes(Int(v, signed), width) <==> forall i :: 0 <= i < |v| && i < width ==> !v[i]
  {
    hide Bits, Int;
    var e := Extended(v, width, signed);
    ExtendedInt(v, width, signed);
    BitsInt(e, signed);
    BitsPrefix(Int(v, signed), |e|, width);
    ZeroBits(width);
    ExtendedAt(v, width, signed);
    assert Bits(Int(v, signed), width) == e[..width];
    if forall i :: 0 <= i < |v| && i < width ==> !v[i] { assert e[..width] == Zeros(width); }
    if Vanishes(Int(v, signed), width) {
      forall i | 0 <= i < |v| && i < width ensures !v[i] { assert !e[..width][i]; }
    }
  }

  lemma SignedVanishes(sub: bool, x: int, width: nat)
    ensures Vanishes(Signed(sub, x), width) <==> Vanishes(x, width)
  {
    hide Bits;
    if Vanishes(x, width) { BitsSub(0, 0, x, 0, width); }
    if Vanishes(0 - x, width) { BitsSub(0, 0, 0 - x, 0, width); }
  }

  lemma PartVanishes(p: Port, v: Vec, width: nat)
    requires Stray(p)
    ensures Vanishes(PartVal(p, v), width) <==> forall i :: 0 <= i < |v| && i < width ==> !v[i]
  {
    hide Int, Vanishes;
    SignedVanishes(p.doSubtract, Int(v, p.isSigned), width);
    VecVanishes(v, p.isSigned, width);
  }

  predicate ZeroBelow(sig: Sig, width: nat) {
    forall i :: 0 <= i < |sig| && i < width ==> sig[i] == Zero
  }

  lemma {:induction false} OneStray(ports: seq<Port>, k: nat, w: nat)
    requires k < |ports| && forall j :: 0 <= j < |ports| && j != k ==> !Stray(ports[j])
    ensures StrayConst(ports) == PartVal(ports[k], ConstPart(ports[k].inB)) &&
        StrayWeight(ports, w) == PartVal(ports[k], WirePart(ports[k].inB, w))
  {
    hide Int;
    var n := |ports| - 1;
    if k < n {
      OneStray(ports[..n], k, w);
    } else {
      NoStrayParts(ports[..n], w);
    }
  }

  lemma {:induction false} NoStrayParts(ports: seq<Port>, w: nat)
    requires forall j :: 0 <= j < |ports| ==> !Stray(ports[j])
    ensures StrayConst(ports) == 0 && StrayWeight(ports, w) == 0
  {
    if ports != [] { NoStrayParts(ports[..|ports| - 1], w); }
  }

  /** A single stray is balanced exactly when none of its bits below the width matters. */
  lemma SingleStray(ports: seq<Port>, k: nat, width: nat)
    requires k < |ports| && Stray(ports[k]) && forall j :: 0 <= j < |ports| && j != k ==> !Stray(ports[j])
    ensures Balanced(ports, width) <==> ZeroBelow(ports[k].inB, width)
  {
    hide Vanishes, PartVal, StrayConst, StrayWeight;
    var p := ports[k];
    forall w: nat
      ensures StrayConst(ports) == PartVal(p, ConstPart(p.inB)) &&
          StrayWeight(ports, w) == PartVal(p, WirePart(p.inB, w))
    {
      OneStray(ports, k, w);
    }
    OneStray(ports, k, 0);
    PartVanishes(p, ConstPart(p.inB), width);
    forall w: nat
      ensures Vanishes(StrayWeight(ports, w), width) <==>
          forall i :: 0 <= i < |p.inB| && i < width ==> !WirePart(p.inB, w)[i]
    {
      PartVanishes(p, WirePart(p.inB, w), width);
    }
    if Balanced(ports, width) {
      forall i | 0 <= i < |p.inB| && i < width ensures p.inB[i] == Zero {
        assert !ConstPart(p.inB)[i];
        var w := if p.inB[i].Wire? then p.inB[i].id else 0;
        assert Vanishes(StrayWeight(ports, w), width);
        assert !WirePart(p.inB, w)[i];
      }
    }
  }

  /** One port without a first factor is enough to change the sum. */
  lemma StrayChanges()
    ensures !Balanced([Port([], [One], false, false)], 1)
  {
    SingleStray([Port([], [One], false, false)], 0, 1);
  }

  predicate IsOffset(p: Port, width: nat) {
    |p.inA| == width && FullyConst(p.inA) && p.inB == [] && !p.isSigned && !p.doSubtract
  }

  lemma NoBits()
    ensures forall env :: BitsVal([], env) == 0
  {
  }

  lemma NoPorts()
    ensures forall env :: PortsVal([], env) == 0 && StraysVal([], env) == 0
  {
  }

  lemma StraysSnoc(ports: seq<Port>, p: Port, env: Env)
    ensures StraysVal(ports + [p], env) == StraysVal(ports, env) + StrayVal(p, env)
  {
    assert (ports + [p])[..|ports|] == ports;
  }

  lemma UnsignedInt(v: Vec)
    ensures Int(v, false) == Nat(v)
  {
  }

  lemma ZeroCarries(off: seq<State>)
    requires forall i :: 0 <= i < |off| ==> off[i] == S0
    ensures Carries(off, 0)
  {
    ZeroBits(|off|);
    assert Levels(off) == Zeros(|off|);
  }

  /** The port for the offset, or none if it is zero, adds the number the offset carries. */
  lemma OffsetAdded(ports: seq<Port>, off: seq<State>, z: int, env: Env)
    requires Carries(off, z)
    ensures var some := exists i :: 0 <= i < |off| && off[i] == S1;
      var ports' := if some then ports + [Port(ConstSig(off), [], false, false)] else ports;
      Bits(PortsVal(ports', env), |off|) == Bits(PortsVal(ports, env) + z, |off|)
  {
    hide Bits, PortsVal;
    BitsOfVec(Levels(off), z);
    if exists i :: 0 <= i < |off| && off[i] == S1 {
      var p := Port(ConstSig(off), [], false, false);
      PortsSnoc(ports, p, env);
      UnsignedInt(Levels(off));
      assert PortVal(p, env) == Nat(Levels(off));
      BitsAdd(PortsVal(ports, env), PortsVal(ports, env), Nat(Levels(off)), z, 0, |off|);
    } else {
      ZeroCarries(off);
      BitsAdd(PortsVal(ports, env), PortsVal(ports, env), 0, z, 0, |off|);
    }
  }

  // ---------------------------------------------------------------- the circuit of the SAT encoder

  /** Extended with sign or zeros, or cut, to the width of the output. */
  method Widen(v: Vec, signed: bool, width: nat) returns (r: Vec)
    ensures r == Bits(Int(v, signed), width)
  {
    hide Bits, Int;
    r := v;
    while |r| < width
      invariant |v| <= |r| && (|r| <= width || r == v) && r == Extended(v, |r|, signed)
      invariant |r| > 0 && |v| > 0 ==> r[|r| - 1] == if |r| == |v| then v[|v| - 1] else signed && v[|v| - 1]
      invariant |v| == 0 ==> forall i :: 0 <= i < |r| ==> !r[i]
    {
      r := r + [signed && |r| > 0 && r[|r| - 1]];
    }
    ExtendedInt(v, |r|, signed);
    BitsInt(r, signed);
    BitsPrefix(Int(r, signed), |r|, width);
    r := r[..width];
  }

  /** Adds to or subtracts from a vector, modulo its width. */
  method Combine(tmp: Vec, v: Vec, sub: bool, ghost z: int, ghost x: int) returns (r: Vec)
    requires |v| == |tmp| && tmp == Bits(z, |tmp|) && v == Bits(x, |tmp|)
    ensures r == Bits(z + Signed(sub, x), |tmp|)
  {
    hide Bits, Nat;
    BitsOfVec(tmp, z);
    BitsOfVec(v, x);
    if sub {
      r := VecSub(tmp, v);
      BitsSub(Nat(tmp), z, Nat(v), x, |tmp|);
    } else {
      r := VecAdd(tmp, v);
      BitsAdd(Nat(tmp), z, Nat(v), x, 0, |tmp|);
    }
  }

  /** Adds or subtracts a product, one shifted copy of the first factor for every bit of the second. */
  method ShiftAndCombine(tmp: Vec, a: Vec, b: Vec, sub: bool, ghost z: int, ghost x: int, ghost y: int) returns (r: Vec)
    requires |a| == |b| == |tmp| && tmp == Bits(z, |tmp|) && a == Bits(x, |tmp|) && b == Bits(y, |tmp|)
    ensures r == Bits(z + Signed(sub, x * y), |tmp|)
  {
    hide Bits, Nat, Times, Shl;
    r := tmp;
    NoTimes(Nat(a));
    for i := 0 to |b|
      invariant |r| == |tmp| && r == Bits(z + Signed(sub, Times(Nat(a), b[..i])), |tmp|)
    {
      var shifted := (Zeros(i) + a)[..|a|];
      ShiftedBits(a, i);
      assert b[..i + 1] == b[..i] + [b[i]];
      TimesSnoc(Nat(a), b[..i], b[i]);
      var sum := Combine(r, shifted, sub, z + Signed(sub, Times(Nat(a), b[..i])), Shl(Nat(a), i));
      r := VecIte(b[i], sum, r);
    }
    assert b[..|b|] == b;
    TimesIsProduct(Nat(a), b);
    BitsOfVec(a, x);
    BitsOfVec(b, y);
    BitsTimes(Nat(a), x, Nat(b), y, |tmp|);
    if sub {
      BitsSub(z, z, Nat(a) * Nat(b), x * y, |tmp|);
    } else {
      BitsAdd(z, z, Nat(a) * Nat(b), x * y, 0, |tmp|);
    }
  }

  /** The circuit gives the bits of the sum under every valuation. */
  method ImportMacc(ports: seq<Port>, bitPorts: Sig, width: nat, env: Env) returns (tmp: Vec)
    requires |bitPorts| > 0 ==> width > 0
    ensures tmp == Bits(MaccVal(ports, bitPorts, env), width)
  {
    hide Bits, Int, PortsVal, BitsVal;
    tmp := Zeros(width);
    ZeroBits(width);
    NoPorts();
    NoBits();
    for k := 0 to |ports|
      invariant |tmp| == width && tmp == Bits(PortsVal(ports[..k], env), width)
    {
      var port := ports[k];
      assert ports[..k + 1] == ports[..k] + [port];
      PortsSnoc(ports[..k], port, env);
      var a := Widen(Vals(port.inA, env), port.isSigned, width);
      if |port.inB| > 0 {
        var b := Widen(Vals(port.inB, env), port.isSigned, width);
        tmp := ShiftAndCombine(tmp, a, b, port.doSubtract, PortsVal(ports[..k], env),
          Int(Vals(port.inA, env), port.isSigned), Int(Vals(port.inB, env), port.isSigned));
      } else {
        tmp := Combine(tmp, a, port.doSubtract, PortsVal(ports[..k], env), Int(Vals(port.inA, env), port.isSigned));
      }
    }
    assert ports[..|ports|] == ports;
    for i := 0 to |bitPorts|
      invariant |tmp| == width && tmp == Bits(PortsVal(ports, env) + BitsVal(bitPorts[..i], env), width)
    {
      assert bitPorts[..i + 1] == bitPorts[..i] + [bitPorts[i]];
      BitsSnoc(bitPorts[..i], bitPorts[i], env);
      var bit := BitVal(bitPorts[i], env);
      UnitBits(bit, width);
      tmp := Combine(tmp, [bit] + Zeros(width - 1), false, PortsVal(ports, env) + BitsVal(bitPorts[..i], env),
          if bit then 1 else 0);
    }
    assert bitPorts[..|bitPorts|] == bitPorts;
  }

  lemma UnitBits(bit: bool, width: nat)
    requires width > 0
    ensures [bit] + Zeros(width - 1) == Bits(if bit then 1 else 0, width)
  {
    BitsStep(if bit then 1 else 0, width);
    ZeroBits(width - 1);
  }

  // ---------------------------------------------------------------- ports in a cell

  // Port A holds the factors one after the other; the configuration holds, after four bits with the size of a
  // length field, the flags and lengths of every port.

  function PortConfig(p: Port, numBits: nat): seq<bool> {
    [p.isSigned, p.doSubtract] + Bits(|p.inA|, numBits) + Bits(|p.inB|, numBits)
  }

  function Config(ports: seq<Port>, numBits: nat): seq<bool> {
    if ports == [] then [] else PortConfig(ports[0], numBits) + Config(ports[1..], numBits)
  }

  function Factors(ports: seq<Port>): Sig {
    if ports == [] then [] else ports[0].inA + ports[0].inB + Factors(ports[1..])
  }

  /** The ports that reach the cell. */
  function Written(ports: seq<Port>): seq<Port> {
    if ports == [] then []
    else Written(ports[..|ports| - 1]) + if |ports[|ports| - 1].inA| == 0 then [] else [ports[|ports| - 1]]
  }

  /** The port read from the front of the configuration and of the factors. */
  function ReadPort(config: seq<bool>, numBits: nat, portA: Sig): (r: Option<Port>)
    requires |config| >= 2 + 2 * numBits
    ensures r.Some? ==> |r.value.inA| + |r.value.inB| <= |portA|
  {
    var sizeA, sizeB := Nat(config[2..2 + numBits]), Nat(config[2 + numBits..2 + 2 * numBits]);
    if sizeA + sizeB > |portA| then None
    else Some(Port(portA[..sizeA], portA[sizeA..sizeA + sizeB], config[0], config[1]))
  }

  /** All ports of a cell, or nothing if configuration and factors do not fit together. */
  function ReadPorts(config: seq<bool>, numBits: nat, portA: Sig): Option<seq<Port>>
    decreases |config|
  {
    if |portA| == 0 then (if config == [] then Some([]) else None)
    else if |config| < 2 + 2 * numBits then None
    else
      match ReadPort(config, numBits, portA)
      case None => None
      case Some(p) =>
        match ReadPorts(config[2 + 2 * numBits..], numBits, portA[|p.inA| + |p.inB|..])
        case None => None
        case Some(rest) => Some(if |p.inA| == 0 && |p.inB| == 0 then rest else [p] + rest)
  }

  ghost predicate Fits(p: Port, numBits: nat) {
    |p.inA| < Pow2(numBits) && |p.inB| < Pow2(numBits)
  }

  lemma ReadBack(p: Port, numBits: nat, config: seq<bool>, portA: Sig)
    requires Fits(p, numBits)
    ensures |PortConfig(p, numBits)| == 2 + 2 * numBits
    ensures ReadPort(PortConfig(p, numBits) + config, numBits, p.inA + p.inB + portA) == Some(p)
    ensures (PortConfig(p, numBits) + config)[2 + 2 * numBits..] == config
    ensures (p.inA + p.inB + portA)[|p.inA| + |p.inB|..] == portA
  {
    hide Bits, Nat;
    var c, a := PortConfig(p, numBits) + config, p.inA + p.inB + portA;
    NatBits(|p.inA|, numBits);
    NatBits(|p.inB|, numBits);
    assert c[2..2 + numBits] == Bits(|p.inA|, numBits) && c[2 + numBits..2 + 2 * numBits] == Bits(|p.inB|, numBits);
    assert a[..|p.inA|] == p.inA && a[|p.inA|..|p.inA| + |p.inB|] == p.inB;
  }

  /** Reading what was written gives the ports back. */
  lemma {:induction false} RoundTrip(ports: seq<Port>, numBits: nat)
    requires forall i :: 0 <= i < |ports| ==> |ports[i].inA| > 0 && Fits(ports[i], numBits)
    ensures ReadPorts(Config(ports, numBits), numBits, Factors(ports)) == Some(ports)
  {
    if ports != [] {
      var p, rest := ports[0], ports[1..];
      RoundTrip(rest, numBits);
      ReadBack(p, numBits, Config(rest, numBits), Factors(rest));
      assert [p] + rest == ports;
    }
  }

  /** Dropping ports without first factor does not change the sum. */
  lemma {:induction false} WrittenVal(ports: seq<Port>, env: Env)
    ensures PortsVal(Written(ports), env) == PortsVal(ports, env)
  {
    if ports != [] {
      var init, p := ports[..|ports| - 1], ports[|ports| - 1];
      WrittenVal(init, env);
      if |p.inA| == 0 {
        EmptyInt(p.inA, p.isSigned, env);
        assert Written(init) + [] == Written(init);
      } else {
        PortsSnoc(Written(init), p, env);
      }
    }
  }

  lemma {:induction false} WrittenPorts(ports: seq<Port>)
    ensures forall i :: 0 <= i < |Written(ports)| ==> |Written(ports)[i].inA| > 0 && Written(ports)[i] in ports
  {
    if ports != [] { WrittenPorts(ports[..|ports| - 1]); }
  }

  lemma {:induction false} ConfigSnoc(ports: seq<Port>, p: Port, numBits: nat)
    ensures Config(ports + [p], numBits) == Config(ports, numBits) + PortConfig(p, numBits)
    ensures Factors(ports + [p]) == Factors(ports) + (p.inA + p.inB)
  {
    hide PortConfig;
    var all := ports + [p];
    if ports == [] {
      assert all[1..] == [];
      assert Config(all, numBits) == PortConfig(p, numBits) + Config([], numBits);
    } else {
      ConfigSnoc(ports[1..], p, numBits);
      assert all[1..] == ports[1..] + [p];
    }
  }

  /** What a cell with these parameters holds. */
  function Parse(portA: Sig, config: seq<bool>, configWidth: nat): Option<seq<Port>> {
    if configWidth < 4 || |config| < configWidth then None
    else ReadPorts(config[4..configWidth], Nat(config[..4]), portA)
  }

  /** A cell written from a sum is read back as the same sum, without the ports that have no first factor. */
  lemma CellRoundTrip(ports: seq<Port>, numBits: nat)
    requires numBits < 16 && forall i :: 0 <= i < |ports| ==> Fits(ports[i], numBits)
    ensures var config := Bits(numBits, 4) + Config(Written(ports), numBits);
      Parse(Factors(Written(ports)), config, |config|) == Some(Written(ports))
    ensures forall env :: PortsVal(Written(ports), env) == PortsVal(ports, env)
  {
    hide Bits, Config, Factors, Written, Fits, Nat, Pow2, ReadPorts;
    var written := Written(ports);
    var config := Bits(numBits, 4) + Config(written, numBits);
    WrittenPorts(ports);
    Sixteen();
    NatBits(numBits, 4);
    RoundTrip(written, numBits);
    assert config[..4] == Bits(numBits, 4) && config[4..|config|] == Config(written, numBits);
    forall env { WrittenVal(ports, env); }
  }

  function Behind(done: seq<Port>, rest: Option<seq<Port>>): Option<seq<Port>> {
    match rest
    case None => None
    case Some(ports) => Some(done + ports)
  }

  lemma BehindNone(rest: Option<seq<Port>>)
    ensures Behind([], rest) == rest
  {
    if rest.Some? { assert [] + rest.value == rest.value; }
  }

  lemma BehindMore(done: seq<Port>, p: Port, rest: Option<seq<Port>>)
    ensures Behind(done, Behind([], rest)) == Behind(done, rest)
    ensures Behind(done, Behind([p], rest)) == Behind(done + [p], rest)
  {
    if rest.Some? { assert done + ([p] + rest.value) == done + [p] + rest.value && [] + rest.value == rest.value; }
  }

  lemma SubSlice(s: seq<bool>, a: nat, b: nat, i: nat, j: nat)
    requires a <= b <= |s| && i <= j <= b - a
    ensures s[a..b][i..j] == s[a + i..a + j]
  {
    var t := s[a..b];
    forall k | 0 <= k < j - i ensures t[i..j][k] == s[a + i..a + j][k] {
      assert t[i + k] == s[a + i + k];
    }
  }

  lemma ReadEnd(config: seq<bool>, numBits: nat, portA: Sig)
    requires |portA| == 0
    ensures ReadPorts(config, numBits, portA) == if |config| == 0 then Some([]) else None
  {
  }

  lemma ReadStep(config: seq<bool>, numBits: nat, portA: Sig)
    requires |portA| > 0
    ensures ReadPorts(config, numBits, portA) ==
      if |config| < 2 + 2 * numBits || ReadPort(config, numBits, portA).None? then None
      else
        var p := ReadPort(config, numBits, portA).value;
        Behind(if |p.inA| == 0 &&
            |p.inB| == 0 then [] else [p], ReadPorts(config[2 + 2 * numBits..], numBits, portA[|p.inA| + |p.inB|..]))
  {
    hide ReadPort;
    if |config| >= 2 + 2 * numBits && ReadPort(config, numBits, portA).Some? {
      var p := ReadPort(config, numBits, portA).value;
      BehindNone(ReadPorts(config[2 + 2 * numBits..], numBits, portA[|p.inA| + |p.inB|..]));
    }
  }

  lemma ReadPortIs(config: seq<bool>, numBits: nat, portA: Sig, sizeA: nat, sizeB: nat)
    requires |config| >= 2 + 2 * numBits && sizeA == Nat(config[2..2 + numBits]) &&
        sizeB == Nat(config[2 + numBits..2 + 2 * numBits])
    ensures ReadPort(config, numBits, portA) ==
      if sizeA + sizeB > |portA| then None
          else Some(Port(portA[..sizeA], portA[sizeA..sizeA + sizeB], config[0], config[1]))
  {
  }

  lemma NothingWritten(numBits: nat)
    ensures Written([]) == [] && Config([], numBits) == [] && Factors([]) == []
  {
  }

  lemma WrittenSnoc(ports: seq<Port>, k: nat)
    requires k < |ports|
    ensures Written(ports[..k + 1]) == Written(ports[..k]) + if |ports[k].inA| == 0 then [] else [ports[k]]
  {
    assert ports[..k + 1][..k] == ports[..k];
  }

  lemma PortConfigIs(p: Port, numBits: nat)
    ensures PortConfig(p, numBits) == [p.isSigned, p.doSubtract] + Bits(|p.inA|, numBits) + Bits(|p.inB|, numBits)
  {
  }

  lemma Sixteen()
    ensures Pow2(4) == 16
  {
  }

  lemma {:induction false} PowGrows(m: nat, n: nat)
    requires m <= n
    ensures Pow2(m) <= Pow2(n)
  {
    if m < n {
      PowGrows(m, n - 1);
      PowStep(n - 1);
    }
  }

  /** How many bits a length up to `size` takes. */
  method LengthBits(size: nat) returns (numBits: nat)
    ensures size < Pow2(numBits) && (numBits > 0 ==> Pow2(numBits - 1) <= size)
  {
    hide Pow2, Between;
    numBits := 0;
    var rest := size;
    PowZero();
    BetweenFirst(size);
    while rest > 0
      invariant Between(rest, size, numBits) && (numBits > 0 ==> Pow2(numBits - 1) <= size)
    {
      Halve(rest, size, numBits);
      numBits, rest := numBits + 1, rest / 2;
    }
    BetweenLast(size, numBits);
  }

  ghost predicate Between(rest: nat, size: nat, n: nat) {
    rest * Pow2(n) <= size < (rest + 1) * Pow2(n)
  }

  lemma BetweenFirst(size: nat)
    ensures Between(size, size, 0)
  {
    PowZero();
  }

  lemma BetweenLast(size: nat, n: nat)
    requires Between(0, size, n)
    ensures size < Pow2(n)
  {
  }

  lemma Halve(rest: nat, size: nat, n: nat)
    requires rest > 0 && Between(rest, size, n)
    ensures Between(rest / 2, size, n + 1) && Pow2(n) <= size
  {
    hide Pow2;
    PowStep(n);
    var p: nat, h: nat, b: nat := Pow2(n), rest / 2, rest % 2;
    assert rest == 2 * h + b;
    assert rest * p == 2 * (h * p) + b * p && (rest + 1) * p == 2 * (h * p) + (b + 1) * p;
    assert h * (2 * p) == 2 * (h * p) && (h + 1) * (2 * p) == 2 * (h * p) + 2 * p;
    assert b == 0 || b == 1;
    assert 1 * p <= rest * p;
  }

  method WriteLength(size: nat, numBits: nat) returns (bits: seq<bool>)
    ensures bits == Bits(size, numBits)
  {
    hide Bits;
    bits := [];
    var rest := size;
    for i := 0 to numBits
      invariant bits + Bits(rest, numBits - i) == Bits(size, numBits)
    {
      BitsStep(rest, numBits - i);
      assert bits + ([rest % 2 == 1] + Bits(rest / 2, numBits - i - 1)) ==
             bits + [rest % 2 == 1] + Bits(rest / 2, numBits - i - 1);
      bits := bits + [rest % 2 == 1];
      rest := rest / 2;
    }
    NoneLeft(rest);
    assert bits + [] == bits;
  }

  lemma NoneLeft(z: int)
    ensures Bits(z, 0) == []
  {
  }

  method ReadLength(config: seq<bool>, cursor: nat, numBits: nat) returns (size: nat)
    requires cursor + numBits <= |config|
    ensures size == Nat(config[cursor..cursor + numBits])
  {
    hide Nat;
    size := 0;
    var weight := 1;
    NatEmpty();
    PowZero();
    assert config[cursor..cursor + 0] == [];
    for i := 0 to numBits
      invariant size == Nat(config[cursor..cursor + i]) && weight == Pow2(i)
    {
      assert config[cursor..cursor + i + 1] == config[cursor..cursor + i] + [config[cursor + i]];
      NatSnoc(config[cursor..cursor + i], config[cursor + i]);
      PowStep(i);
      if config[cursor + i] { size := size + weight; }
      weight := 2 * weight;
    }
  }
}
