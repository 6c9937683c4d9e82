/**
 Changing the width of ports: a narrow write port made wide, and wide ports split into narrow ones.
 */
module MemWidth {
  import opened Signals
  import opened FlipFlops
  import opened Lanes
  import opened MemPorts
  import opened MemReadControl
  import opened MemTransparency
  import opened MemRdff
  import opened MemWriteSide

  // ---------------------------------------------------------------- addresses

  /** The constant `sub` as an address vector of `k` bits. */
  function ConstAddr(sub: nat, k: nat): (r: Sig)
    ensures |r| == k && forall j :: 0 <= j < k ==> r[j].Const? && r[j].s != Sx
    decreases k
  {
    if k == 0 then [] else [Const(if sub % 2 == 1 then S1 else S0)] + ConstAddr(sub / 2, k - 1)
  }

  lemma {:induction false} ConstAddrValue(sub: nat, k: nat, e: Env)
    ensures Known(EvalSig(ConstAddr(sub, k), e)) && Value(EvalSig(ConstAddr(sub, k), e)) == Low(sub, k)
    decreases k
  {
    hide Eval;
    if k > 0 {
      ConstAddrValue(sub / 2, k - 1, e);
      var v := EvalSig(ConstAddr(sub, k), e);
      assert v[1..] == EvalSig(ConstAddr(sub / 2, k - 1), e);
      ConstEval(if sub % 2 == 1 then S1 else S0, e);
      KnownCons(v);
    }
  }

  lemma {:induction false} TakeValue(a: seq<State>, k: nat)
    requires k <= |a|
    ensures Value(a[..k]) == Low(Value(a), k)
    decreases k
  {
    if k > 0 {
      TakeValue(a[1..], k - 1);
      assert a[..k][1..] == a[1..][..k - 1];
      assert Value(a) / 2 == Value(a[1..]) && Value(a) % 2 == (if a[0] == S1 then 1 else 0);
    }
  }

  /** The address with bits `k` to `max` cleared, as the widened port uses it. */
  function ClearedAddr(addr: Sig, k: nat, max: nat): (r: Sig)
    requires k <= max <= |addr|
    ensures |r| == |addr| && forall j :: max <= j < |addr| ==> r[j] == addr[j]
  {
    addr[..k] + Fill(S0, max - k) + addr[max..]
  }

  lemma {:induction false} ClearedValue(addr: Sig, k: nat, max: nat, e: Env)
    requires k <= max <= |addr| && Known(EvalSig(addr, e))
    ensures Known(EvalSig(ClearedAddr(addr, k, max), e))
    ensures Base(Value(EvalSig(ClearedAddr(addr, k, max), e)), max) == Base(Value(EvalSig(addr, e)), max)
    decreases max
  {
    hide Eval, Value, Low;
    var c := ClearedAddr(addr, k, max);
    if max > 0 {
      var k' := if k > 0 then k - 1 else 0;
      EvalTail(addr, e);
      ClearedValue(addr[1..], k', max - 1, e);
      assert c[1..] == ClearedAddr(addr[1..], k', max - 1);
      EvalTail(c, e);
      assert c[0] == addr[0] || Eval(c[0], e) == S0 by { assert k == 0 ==> c[0] == Fill(S0, max)[0]; }
      KnownCons(EvalSig(c, e));
      ValueBase(EvalSig(c, e), max);
      ValueBase(EvalSig(addr, e), max);
    } else {
      assert c == addr;
    }
  }

  // ---------------------------------------------------------------- widening a write port

  predicate AllConst(x: Sig) {
    forall j :: 0 <= j < |x| ==> x[j].Const?
  }

  /** Enable of a subword: always, never, or when the low address bits say so. */
  function SubEnable(addrLo: Sig, cur: Sig, en: Bit): Bit {
    if addrLo == cur then en else if AllConst(addrLo) then Const(S0) else MuxGate(Const(S0), en, Eq(addrLo, cur))
  }

  function SubData(addrLo: Sig, cur: Sig, data: Bit): Bit {
    if addrLo != cur && AllConst(addrLo) then Const(Sx) else data
  }

  lemma {:induction false} ConstVectors(x: Sig, y: Sig, e: Env)
    requires |x| == |y| && AllConst(x) && AllConst(y) && EvalSig(x, e) == EvalSig(y, e)
    ensures x == y
  {
    forall j | 0 <= j < |x| ensures x[j] == y[j] {
      ConstEval(x[j].s, e);
      ConstEval(y[j].s, e);
      assert EvalSig(x, e)[j] == EvalSig(y, e)[j];
    }
  }

  lemma SubEnableValue(addrLo: Sig, cur: Sig, en: Bit, e: Env)
    requires |addrLo| == |cur| && AllConst(cur) && Known(EvalSig(addrLo, e)) && Known(EvalSig(cur, e))
    requires Eval(en, e) != Sx
    ensures Eval(SubEnable(addrLo, cur, en), e) ==
            AndS(Eval(en, e), FromBool(Value(EvalSig(addrLo, e)) == Value(EvalSig(cur, e))))
  {
    EvalEq(addrLo, cur, e);
    ConstEval(S0, e);
    hide Eval, Value;
    if Value(EvalSig(addrLo, e)) == Value(EvalSig(cur, e)) { AlwaysOrMaybe(addrLo, cur, e); }
  }

  lemma SubEnableOff(addrLo: Sig, cur: Sig, en: Bit, e: Env)
    requires Eval(en, e) == S0
    ensures Eval(SubEnable(addrLo, cur, en), e) == S0
  {
    ConstEval(S0, e);
    hide Eval;
  }

  /** Subword and narrow data bit behind data bit `i` of the widened port. */
  function WideSub(width: nat, k: nat, i: nat): nat
    requires width > 0
  {
    Base(SubOf(width, i), k)
  }

  function WideLane(width: nat, k: nat, i: nat): nat
    requires width > 0
  {
    Flat(width, Low(SubOf(width, i), k), BitOf(width, i))
  }

  lemma WideLaneBound(width: nat, k: nat, i: nat)
    requires width > 0
    ensures WideLane(width, k, i) < Span(width, Pow2(k)) &&
        WideLane(width, k, i) == i - Span(width, WideSub(width, k, i))
  {
    hide Low, Flat, SubOf, BitOf;
    FlatBound(width, Pow2(k), Low(SubOf(width, i), k), BitOf(width, i));
    SplitFlat(width, i);
    FlatAdd(width, WideSub(width, k, i), Low(SubOf(width, i), k), BitOf(width, i));
  }

  function WidenedEn(wp: MemWr, width: nat, max: nat): (r: Sig)
    requires width > 0 && WrShape(wp, width) && max <= |wp.addr|
    ensures |r| == Span(width, Pow2(max))
  {
    seq(Span(width, Pow2(max)), i requires 0 <= i < Span(width, Pow2(max)) => WidenedEnBit(wp, width, max, i))
  }

  function WidenedEnBit(wp: MemWr, width: nat, max: nat, i: nat): Bit
    requires width > 0 && WrShape(wp, width) && max <= |wp.addr|
  {
    WideLaneBound(width, wp.wideLog2, i);
    SubEnable(wp.addr[..max], ConstAddr(WideSub(width, wp.wideLog2, i), max), wp.en[WideLane(width, wp.wideLog2, i)])
  }

  function WidenedData(wp: MemWr, width: nat, max: nat): (r: Sig)
    requires width > 0 && WrShape(wp, width) && max <= |wp.addr|
    ensures |r| == Span(width, Pow2(max))
  {
    seq(Span(width, Pow2(max)), i requires 0 <= i < Span(width, Pow2(max)) => WidenedDataBit(wp, width, max, i))
  }

  function WidenedDataBit(wp: MemWr, width: nat, max: nat, i: nat): Bit
    requires width > 0 && WrShape(wp, width) && max <= |wp.addr|
  {
    WideLaneBound(width, wp.wideLog2, i);
    SubData(wp.addr[..max], ConstAddr(WideSub(width, wp.wideLog2, i), max), wp.data[WideLane(width, wp.wideLog2, i)])
  }

  /** The widened port. */
  function Widened(wp: MemWr, width: nat, max: nat): (r: MemWr)
    requires width > 0 && WrShape(wp, width) && wp.wideLog2 <= max <= |wp.addr|
    ensures WrShape(r, width)
  {
    wp.(addr := ClearedAddr(wp.addr, wp.wideLog2, max), en := WidenedEn(wp, width, max),
        data := WidenedData(wp, width, max), wideLog2 := max)
  }

  /** A narrow port hits a word when the wide one does and the low address bits pick its subword. */
  lemma {:induction false} WideHit(a: nat, w: nat, k: nat, max: nat)
    requires k <= max && Low(a, k) == 0
    ensures Base(a, k) == Base(w, k) <==> Base(a, max) == Base(w, max) && Low(a, max) == Base(Low(w, max), k)
    ensures Base(Low(w, max), k) < Pow2(max) && Low(Low(w, max), k) == Low(w, k)
  {
    hide Low, Pow2;
    LowLow(w, k, max);
    LowLow(a, k, max);
    if Base(a, k) == Base(w, k) {
      BaseBase(a, k, max);
      BaseBase(w, k, max);
    }
  }

  lemma WidenedTouches(wp: MemWr, width: nat, max: nat, e: Env, w: nat, b: nat)
    requires width > 0 && WrShape(wp, width) && wp.wideLog2 <= max <= |wp.addr| && b < width
    requires Aligned(wp.addr, wp.wideLog2) && Known(EvalSig(wp.en, e)) && Known(EvalSig(wp.addr, e))
    ensures Touches(Widened(wp, width, max), width, e, w, b) == Touches(wp, width, e, w, b)
    ensures Touches(wp, width, e, w, b) == S1 ==>
        WriteData(Widened(wp, width, max), width, e, w, b) == WriteData(wp, width, e, w, b)
  {
    hide Eval, Low, Flat, SubOf, BitOf, SubEnable, ConstAddr, Value;
    var k, a, i := wp.wideLog2, Value(EvalSig(wp.addr, e)), Lane(width, max, w, b);
    var addrLo, cur := wp.addr[..max], ConstAddr(Base(Low(w, max), k), max);
    AlignedValue(wp.addr, k, e);
    WideHit(a, w, k, max);
    FlatSplit(width, Low(w, max), b);
    assert EvalSig(addrLo, e) == EvalSig(wp.addr, e)[..max];
    TakeValue(EvalSig(wp.addr, e), max);
    ConstAddrValue(Base(Low(w, max), k), max, e);
    LowOfSmall(Base(Low(w, max), k), max);
    ClearedValue(wp.addr, k, max, e);
    WideLaneBound(width, k, i);
    var en := wp.en[WideLane(width, k, i)];
    assert EvalSig(wp.en, e)[WideLane(width, k, i)] != Sx;
    SubEnableValue(addrLo, cur, en, e);
    if Touches(wp, width, e, w, b) == S1 { AlwaysOrMaybe(addrLo, cur, e); }
  }

  /** A port whose enables are off touches nothing before or after, whatever its address. */
  lemma WidenedIdle(wp: MemWr, width: nat, max: nat, e: Env)
    requires width > 0 && WrShape(wp, width) && wp.wideLog2 <= max <= |wp.addr| && Idle(wp, e)
    ensures Idle(Widened(wp, width, max), e)
  {
    hide Eval, Low, Flat, SubOf, BitOf, SubEnable, ConstAddr, ClearedAddr, WidenedData;
    var r, k := Widened(wp, width, max), wp.wideLog2;
    forall i | 0 <= i < |r.en| ensures Eval(r.en[i], e) == S0 {
      WideLaneBound(width, k, i);
      SubEnableOff(wp.addr[..max], ConstAddr(WideSub(width, k, i), max), wp.en[WideLane(width, k, i)], e);
    }
  }

  lemma IdleTouches(wp: MemWr, width: nat, e: Env, w: nat, b: nat)
    requires WrShape(wp, width) && b < width && Idle(wp, e)
    ensures Touches(wp, width, e, w, b) == S0
  {
    hide Eval, Lane, AddrHit;
  }

  lemma AlwaysOrMaybe(addrLo: Sig, cur: Sig, e: Env)
    requires |addrLo| == |cur| && AllConst(cur) && Known(EvalSig(addrLo, e)) && Known(EvalSig(cur, e))
    requires Value(EvalSig(addrLo, e)) == Value(EvalSig(cur, e))
    ensures addrLo == cur || !AllConst(addrLo)
  {
    hide Eval, Value;
    if AllConst(addrLo) {
      ValueInjective(EvalSig(addrLo, e), EvalSig(cur, e));
      var a, c := EvalSig(addrLo, e), EvalSig(cur, e);
      forall j: nat | j < |a| ensures a[j] == c[j] { assert BitOr0(a, j) == BitOr0(c, j); }
      assert a == c;
      ConstVectors(addrLo, cur, e);
    }
  }

  /** The two memories offer the same write to every stored bit, port by port. */
  predicate SamePort(wp: MemWr, wp': MemWr, width: nat, e0: Env, e1: Env, w: nat, b: nat)
    requires WrShape(wp, width) && WrShape(wp', width) && b < width
  {
    && Writes(wp, width, e0, e1, w, b) == Writes(wp', width, e0, e1, w, b)
    && (Writes(wp, width, e0, e1, w, b) != S0 ==> WriteData(wp, width, e0, w, b) == WriteData(wp', width, e0, w, b))
  }

  lemma {:induction false} SamePortsSame(p: MemRd, m: Ram, n: Ram, k: nat, e0: Env, e1: Env, w: nat, b: nat, cur: State)
    requires RamShape(m) && RamShape(n) && |m.wr| == |n.wr| && b < m.width == n.width && k <= |m.wr|
    requires forall k :: 0 <= k < |m.wr| ==> SamePort(m.wr[k], n.wr[k], m.width, e0, e1, w, b)
    ensures AfterWrites(m, k, e0, e1, w, b, cur) == AfterWrites(n, k, e0, e1, w, b, cur)
    ensures RdShape(p, m.width, |m.wr|) ==> Seen(p, m, k, e0, e1, w, b, cur) == Seen(p, n, k, e0, e1, w, b, cur)
  {
    hide Writes, WriteData, Seen, AfterWrites, WrShape;
    SeenStart(p, m, e0, e1, w, b, cur);
    SeenStart(p, n, e0, e1, w, b, cur);
    if k > 0 {
      SamePortsSame(p, m, n, k - 1, e0, e1, w, b, cur);
      assert SamePort(m.wr[k - 1], n.wr[k - 1], m.width, e0, e1, w, b);
      AfterWritesStep(m, k - 1, e0, e1, w, b, cur);
      AfterWritesStep(n, k - 1, e0, e1, w, b, cur);
      if RdShape(p, m.width, |m.wr|) {
        SeenStep(p, m, k - 1, e0, e1, w, b, cur);
        SeenStep(p, n, k - 1, e0, e1, w, b, cur);
      }
    }
  }

  lemma WidenedWrites(wp: MemWr, width: nat, max: nat, e0: Env, e1: Env, w: nat, b: nat)
    requires width > 0 && WrShape(wp, width) && wp.wideLog2 <= max <= |wp.addr| && b < width
    requires Aligned(wp.addr, wp.wideLog2) && WrKnownStep(wp, e0, e1)
    ensures SamePort(wp, Widened(wp, width, max), width, e0, e1, w, b)
  {
    hide Eval, Touches, Edge, WidenedEn, WidenedData, ClearedAddr, Lane, Known, Idle;
    WritesKnown(wp, width, e0, e1, w, b);
    if !wp.removed {
      WritesTouches(wp, width, e0, e1, w, b);
      WritesTouches(Widened(wp, width, max), width, e0, e1, w, b);
      if Strobe(wp, e0, e1) == S1 {
        if Idle(wp, e0) {
          WidenedIdle(wp, width, max, e0);
          IdleTouches(wp, width, e0, w, b);
          IdleTouches(Widened(wp, width, max), width, e0, w, b);
        } else {
          WidenedTouches(wp, width, max, e0, w, b);
        }
      }
    }
  }

  /** Geometry aligned to `2^k` words, as `widen_prep` computes it. */
  function AlignedStart(start: nat, k: nat): nat {
    Base(start, k)
  }

  function AlignedSize(start: nat, size: nat, k: nat): nat {
    var s := size + Low(start, k);
    if Low(s, k) == 0 then s else Base(s, k) + Pow2(k)
  }

  /** The aligned memory has all the words of the old one, is aligned, and wastes less than one wide word at
      either end. */
  lemma AlignedGeometry(start: nat, size: nat, k: nat)
    ensures var start', size' := AlignedStart(start, k), AlignedSize(start, size, k);
            && start' <= start && start + size <= start' + size' && Low(start', k) == 0 && Low(size', k) == 0
            && start < start' + Pow2(k) && start' + size' < start + size + Pow2(k)
  {
    hide Low;
    LowOfBase(start, k, k);
    var s := size + Low(start, k);
    AlignedAdd(s, k, Pow2(k), k);
    PowAligned(k, k);
  }

  /** The memory after one write port has been widened. */
  function WidenedRam(m: Ram, idx: nat, max: nat): (n: Ram)
    requires RamShape(m) && idx < |m.wr| && m.wr[idx].wideLog2 <= max <= |m.wr[idx].addr|
    ensures RamShape(n) && |n.wr| == |m.wr|
  {
    m.(start := AlignedStart(m.start, max), size := AlignedSize(m.start, m.size, max),
        wr := m.wr[idx := Widened(m.wr[idx], m.width, max)])
  }

  lemma WidenedPorts(m: Ram, idx: nat, max: nat, envs: seq<Env>, t: nat, w: nat, b: nat)
    requires RamShape(m) && idx < |m.wr| && m.wr[idx].wideLog2 <= max <= |m.wr[idx].addr| &&
        Aligned(m.wr[idx].addr, m.wr[idx].wideLog2)
    requires WrKnown(m, {idx}, envs) && t < |envs| - 1 && b < m.width
    ensures forall k ::
        0 <= k < |m.wr| ==> SamePort(m.wr[k], WidenedRam(m, idx, max).wr[k], m.width, envs[t], envs[t + 1], w, b)
  {
    hide Eval, Writes, WriteData, Widened, WrKnownStep;
    forall k | 0 <= k < |m.wr|
      ensures SamePort(m.wr[k], WidenedRam(m, idx, max).wr[k], m.width, envs[t], envs[t + 1], w, b)
    {
      assert WrKnownStep(m.wr[idx], envs[t], envs[t + 1]);
      if k == idx { WidenedWrites(m.wr[k], m.width, max, envs[t], envs[t + 1], w, b); }
    }
  }

  /** Widening a write port leaves the contents at every instant as they were. */
  lemma WidenedSame(m: Ram, idx: nat, max: nat, envs: seq<Env>)
    requires RamShape(m) && idx < |m.wr| && m.wr[idx].wideLog2 <= max <= |m.wr[idx].addr| &&
        Aligned(m.wr[idx].addr, m.wr[idx].wideLog2)
    requires WrKnown(m, {idx}, envs)
    ensures SameWrites(m, WidenedRam(m, idx, max), envs)
  {
    hide Eval, AfterWrites, SamePort, Widened, WrKnown, Aligned, AlignedStart, AlignedSize;
    var n := WidenedRam(m, idx, max);
    forall t: nat, w: nat, b: nat, cur: State | t < |envs| - 1 && b < m.width
      ensures StepSame(m, n, envs, t, w, b, cur)
    {
      WidenedPorts(m, idx, max, envs, t, w, b);
      SamePortsSame(AsReader(m.wr[idx]), m, n, |m.wr|, envs[t], envs[t + 1], w, b, cur);
    }
  }

  lemma WidenedBehind(p: MemRd, m: Ram, idx: nat, max: nat, envs: seq<Env>, t: nat, e: Env, i: nat)
    requires RamShape(m) && idx < |m.wr| && m.wr[idx].wideLog2 <= max <= |m.wr[idx].addr| &&
        Aligned(m.wr[idx].addr, m.wr[idx].wideLog2)
    requires WrKnown(m, {idx}, envs) && t < |envs|
    ensures Refines(Behind(p, m, envs, t, e, i), Behind(p, WidenedRam(m, idx, max), envs, t, e, i))
    ensures InRange(p, m, e, i) ==> InRange(p, WidenedRam(m, idx, max), e, i)
  {
    hide Eval, Stored, SubOf, BitOf, Low, Widened, WrKnown, Aligned, SameWrites, AlignedStart, AlignedSize;
    WidenedSame(m, idx, max, envs);
    AlignedGeometry(m.start, m.size, max);
    SameStored(m, WidenedRam(m, idx, max), envs, t, Word(p, m.width, e, i), BitOf(m.width, i));
  }

  /** Widening a write port disturbs no read port. */
  lemma WidenedReads(p: MemRd, m: Ram, idx: nat, max: nat, envs: seq<Env>)
    requires RamShape(m) && idx < |m.wr| && m.wr[idx].wideLog2 <= max <= |m.wr[idx].addr| &&
        Aligned(m.wr[idx].addr, m.wr[idx].wideLog2)
    requires WrKnown(m, {idx}, envs) && RdShape(p, m.width, |m.wr|) && PortRuns(p, WidenedRam(m, idx, max), envs)
    ensures PortRuns(p, m, envs)
  {
    hide Eval, Seen, Stored, Edge, Widened, SubOf, BitOf, Low, WrKnown, Aligned, SamePort, ReadBit, InRange,
        AlignedStart, AlignedSize;
    var n := WidenedRam(m, idx, max);
    forall t: nat, i: nat | t < |envs| && i < |p.data|
      ensures Refines(ReadBit(p, m, envs, t, i), Eval(p.data[i], envs[t]))
    {
      forall t: nat | t < |envs| ensures Refines(Behind(p, m, envs, t, envs[t], i), Behind(p, n, envs, t, envs[t], i)) {
        WidenedBehind(p, m, idx, max, envs, t, envs[t], i);
      }
      forall t: nat | t < |envs| - 1 ensures SampleBacked(p, m, i, p, n, i, envs, t) {
        WidenedSample(p, m, idx, max, envs, t, i);
      }
      hide Behind, SampleBacked;
      BackedReads(p, m, i, p, n, i, envs, t);
      assert Refines(ReadBit(p, n, envs, t, i), Eval(p.data[i], envs[t]));
    }
  }

  lemma WidenedSample(p: MemRd, m: Ram, idx: nat, max: nat, envs: seq<Env>, t: nat, i: nat)
    requires RamShape(m) && idx < |m.wr| && m.wr[idx].wideLog2 <= max <= |m.wr[idx].addr| &&
        Aligned(m.wr[idx].addr, m.wr[idx].wideLog2)
    requires WrKnown(m, {idx}, envs) && RdShape(p, m.width, |m.wr|) && t < |envs| - 1 && i < |p.data|
    ensures SampleBacked(p, m, i, p, WidenedRam(m, idx, max), i, envs, t)
  {
    hide Eval, Seen, Stored, Edge, Widened, SubOf, BitOf, Low, WrKnown, Aligned, SamePort, SameWrites, AlignedStart,
        AlignedSize;
    var n, e0, e1 := WidenedRam(m, idx, max), envs[t], envs[t + 1];
    var w, b := Word(p, m.width, e0, i), BitOf(m.width, i);
    WidenedBehind(p, m, idx, max, envs, t, e0, i);
    WidenedSame(m, idx, max, envs);
    SameStored(m, n, envs, t, w, b);
    WidenedPorts(m, idx, max, envs, t, w, b);
    SamePortsSame(p, m, n, |m.wr|, e0, e1, w, b, Stored(m, envs, t, w, b));
  }

  lemma WidenedKnown(wp: MemWr, width: nat, max: nat, e0: Env, e1: Env)
    requires width > 0 && WrShape(wp, width) && wp.wideLog2 <= max <= |wp.addr| && WrKnownStep(wp, e0, e1)
    ensures WrKnownStep(Widened(wp, width, max), e0, e1)
  {
    hide Eval, Edge, WrReady, Widened;
    WidenedPriority(wp, width, max);
    if !wp.removed && Strobe(wp, e0, e1) == S1 { WidenedReady(wp, width, max, e0); }
  }

  lemma WidenedReady(wp: MemWr, width: nat, max: nat, e: Env)
    requires width > 0 && WrShape(wp, width) && wp.wideLog2 <= max <= |wp.addr| && WrReady(wp, e)
    ensures WrReady(Widened(wp, width, max), e)
  {
    hide Eval, Low, Flat, SubOf, BitOf, SubEnable, ConstAddr, Value, ClearedAddr;
    var r, k, addrLo := Widened(wp, width, max), wp.wideLog2, wp.addr[..max];
    if Idle(wp, e) {
      WidenedIdle(wp, width, max, e);
    } else {
      ClearedValue(wp.addr, k, max, e);
      assert EvalSig(addrLo, e) == EvalSig(wp.addr, e)[..max];
      forall i | 0 <= i < |r.en| ensures EvalSig(r.en, e)[i] != Sx {
        WideLaneBound(width, k, i);
        ConstAddrValue(WideSub(width, k, i), max, e);
        assert EvalSig(wp.en, e)[WideLane(width, k, i)] != Sx;
        SubEnableValue(addrLo, ConstAddr(WideSub(width, k, i), max), wp.en[WideLane(width, k, i)], e);
      }
    }
  }

  /** Widening keeps enables definite and adds no conflict. */
  lemma WidenedAllowed(m: Ram, idx: nat, max: nat, ks: set<nat>, apart: set<nat>, envs: seq<Env>)
    requires RamShape(m) && idx < |m.wr| && m.wr[idx].wideLog2 <= max <= |m.wr[idx].addr| &&
        Aligned(m.wr[idx].addr, m.wr[idx].wideLog2)
    requires idx in ks && WrKnown(m, ks, envs)
    ensures WrKnown(WidenedRam(m, idx, max), ks, envs)
    ensures NoConflicts(m, apart, envs) ==> NoConflicts(WidenedRam(m, idx, max), apart, envs)
  {
    hide Eval, Writes, WriteData, Widened, WrKnownStep, Aligned, AlignedStart, AlignedSize;
    var n := WidenedRam(m, idx, max);
    assert n.wr[idx].priority == m.wr[idx].priority by { WidenedPriority(m.wr[idx], m.width, max); }
    forall t: nat, k: nat | t + 1 < |envs| && k in ks && k < |m.wr| ensures WrKnownStep(n.wr[k], envs[t], envs[t + 1]) {
      assert WrKnownStep(m.wr[k], envs[t], envs[t + 1]);
      if k == idx { WidenedKnown(m.wr[k], m.width, max, envs[t], envs[t + 1]); }
    }
    forall t: nat, w: nat, b: nat | NoConflicts(m, apart, envs) && t < |envs| - 1 && b < m.width
      ensures NoConflictAt(n, apart, envs, t, w, b)
    {
      assert NoConflictAt(m, apart, envs, t, w, b);
      WidenedPorts(m, idx, max, envs, t, w, b);
    }
  }

  lemma WidenedPriority(wp: MemWr, width: nat, max: nat)
    requires width > 0 && WrShape(wp, width) && wp.wideLog2 <= max <= |wp.addr|
    ensures var r := Widened(wp, width, max); r == wp.(addr := r.addr, en := r.en, data := r.data, wideLog2 := max)
  {
    hide WidenedEn, WidenedData, ClearedAddr;
  }

  lemma WidenedAligned(wp: MemWr, width: nat, max: nat)
    requires width > 0 && WrShape(wp, width) && wp.wideLog2 <= max <= |wp.addr| && Aligned(wp.addr, wp.wideLog2)
    ensures Aligned(Widened(wp, width, max).addr, max)
  {
    hide WidenedEn, WidenedData;
  }

  lemma {:induction false} ZeroAddr(addr: Sig, k: nat)
    requires Aligned(addr, k)
    ensures addr[..k] == ConstAddr(0, k)
    decreases k
  {
    if k > 0 {
      ZeroAddr(addr[1..], k - 1);
      assert addr[..k] == [addr[0]] + addr[1..][..k - 1];
    }
  }

  /** A port that is wide enough already stays. */
  lemma WidenedItself(wp: MemWr, width: nat)
    requires width > 0 && WrShape(wp, width) && Aligned(wp.addr, wp.wideLog2)
    ensures Widened(wp, width, wp.wideLog2) == wp
  {
    hide Low, Flat, SubOf, BitOf, ConstAddr, AllConst;
    var k, r := wp.wideLog2, Widened(wp, width, wp.wideLog2);
    ZeroAddr(wp.addr, k);
    assert r.addr == wp.addr;
    forall i | 0 <= i < |wp.en| ensures r.en[i] == wp.en[i] && r.data[i] == wp.data[i] {
      SubBound(width, Pow2(k), i);
      LowOfSmall(SubOf(width, i), k);
      SplitFlat(width, i);
    }
    assert r.en == wp.en && r.data == wp.data;
  }

  /** Enables and data of the widened port, subword by subword. */
  method WidenPort(wp: MemWr, width: nat, max: nat) returns (en: Sig, data: Sig)
    requires width > 0 && WrShape(wp, width) && wp.wideLog2 <= max <= |wp.addr|
    ensures en == WidenedEn(wp, width, max) && data == WidenedData(wp, width, max)
  {
    hide Eval, Low, Flat, SubOf, BitOf, SubEnable, SubData, ConstAddr, WidenedEn, WidenedData;
    var k, addrLo := wp.wideLog2, wp.addr[..max];
    PowAligned(max, k);
    PowAligned(k, k);
    LowOfSmall(0, k);
    ZeroFlat(width, 0);
    en, data := [], [];
    var sub := 0;
    while sub < Pow2(max)
      invariant sub <= Pow2(max) && Low(sub, k) == 0 && |en| == |data| == Span(width, sub) <= Span(width, Pow2(max))
      invariant en == WidenedEn(wp, width, max)[..|en|] && data == WidenedData(wp, width, max)[..|data|]
    {
      var curAddrLo := ConstAddr(sub, max);
      var moreEn := seq(|wp.en|, i requires 0 <= i < |wp.en| => SubEnable(addrLo, curAddrLo, wp.en[i]));
      var moreData := seq(|wp.data|, i requires 0 <= i < |wp.data| => SubData(addrLo, curAddrLo, wp.data[i]));
      AlignedAdd(sub, k, Pow2(k), k);
      if Pow2(max) < sub + Pow2(k) { OnlyMultiple(sub, Pow2(max), k); }
      RangeFits(width, k, max, sub);
      SpanAdds(width, sub, Pow2(k));
      SubwordBits(wp, width, max, sub, moreEn, moreData);
      en, data := en + moreEn, data + moreData;
      sub := sub + Pow2(k);
    }
  }

  lemma {:induction false} SpanAdds(width: nat, a: nat, b: nat)
    ensures Span(width, a + b) == Span(width, a) + Span(width, b)
  {
    hide Flat;
    FlatAdd(width, a, b, 0);
  }

  /** The bits of one subword of the widened port. */
  lemma SubwordBits(wp: MemWr, width: nat, max: nat, sub: nat, moreEn: Sig, moreData: Sig)
    requires width > 0 && WrShape(wp, width) && wp.wideLog2 <= max <= |wp.addr| && Low(sub, wp.wideLog2) == 0
    requires Span(width, sub) + |wp.en| <= Span(width, Pow2(max)) && |moreEn| == |wp.en| && |moreData| == |wp.data|
    requires forall i :: 0 <= i < |wp.en| ==> moreEn[i] == SubEnable(wp.addr[..max], ConstAddr(sub, max), wp.en[i])
    requires forall i :: 0 <= i < |wp.data| ==> moreData[i] == SubData(wp.addr[..max], ConstAddr(sub, max), wp.data[i])
    ensures var lo, hi := Span(width, sub), Span(width, sub) + |wp.en|;
            WidenedEn(wp, width, max)[lo..hi] == moreEn && WidenedData(wp, width, max)[lo..hi] == moreData
  {
    hide Eval, Low, Flat, SubOf, BitOf, SubEnable, SubData, ConstAddr, WidenedEnBit, WidenedDataBit, Span;
    var lo, n := Span(width, sub), |wp.en|;
    forall i: nat | i < n
      ensures WidenedEnBit(wp, width, max, lo + i) == moreEn[i] && WidenedDataBit(wp, width, max, lo + i) == moreData[i]
    {
      SubwordBit(wp, width, max, sub, i);
    }
    forall i: nat | i < n
      ensures WidenedEn(wp, width, max)[lo..lo + n][i] == moreEn[i] &&
          WidenedData(wp, width, max)[lo..lo + n][i] == moreData[i]
    {
      assert WidenedEn(wp, width, max)[lo + i] == WidenedEnBit(wp, width, max, lo + i);
      assert WidenedData(wp, width, max)[lo + i] == WidenedDataBit(wp, width, max, lo + i);
    }
  }

  lemma SubwordBit(wp: MemWr, width: nat, max: nat, sub: nat, i: nat)
    requires width > 0 && WrShape(wp, width) && wp.wideLog2 <= max <= |wp.addr| && Low(sub, wp.wideLog2) == 0 &&
        i < |wp.en|
    ensures WidenedEnBit(wp, width, max, Span(width, sub) + i) ==
            SubEnable(wp.addr[..max], ConstAddr(sub, max), wp.en[i])
    ensures WidenedDataBit(wp, width, max, Span(width, sub) + i) ==
            SubData(wp.addr[..max], ConstAddr(sub, max), wp.data[i])
  {
    hide Eval, Low, Flat, SubOf, BitOf, SubEnable, SubData, ConstAddr;
    SubRange(width, wp.wideLog2, sub, Span(width, sub) + i);
    WideLaneBound(width, wp.wideLog2, Span(width, sub) + i);
  }

  // ---------------------------------------------------------------- splitting wide ports

  /** Number of narrow ports the first `n` ports give. */
  function Count(wr: seq<MemWr>, n: nat): nat
    requires n <= |wr|
  {
    if n == 0 then 0 else Count(wr, n - 1) + Pow2(wr[n - 1].wideLog2)
  }

  /** A mask over the write ports, repeated for every narrow port. */
  function ExpandMask(wr: seq<MemWr>, n: nat, mask: seq<bool>): (r: seq<bool>)
    requires n <= |wr| && n <= |mask|
    ensures |r| == Count(wr, n)
  {
    if n == 0 then [] else ExpandMask(wr, n - 1, mask) + seq(Pow2(wr[n - 1].wideLog2), _ => mask[n - 1])
  }

  predicate NarrowShape(wr: seq<MemWr>, width: nat) {
    width > 0 && forall k :: 0 <= k < |wr| ==> WrShape(wr[k], width) && |wr[k].priority| == |wr|
  }

  lemma SliceBound(width: nat, sub: nat, n: nat)
    requires sub < n
    ensures Span(width, sub) + width <= Span(width, n)
    decreases n
  {
    if sub + 1 < n { SliceBound(width, sub, n - 1); }
  }

  lemma OneWord(width: nat)
    ensures Span(width, Pow2(0)) == width
  {
    assert Flat(width, 1, 0) == width + Flat(width, 0, 0);
  }

  /** The narrow write port for one subword. */
  function SubWr(wr: seq<MemWr>, k: nat, width: nat, sub: nat): (r: MemWr)
    requires NarrowShape(wr, width) && k < |wr| && sub < Pow2(wr[k].wideLog2)
    ensures WrShape(r, width) && r.wideLog2 == 0
  {
    var wp := wr[k].(priority := ExpandMask(wr, |wr|, wr[k].priority));
    if wp.wideLog2 == 0 then wp else
      SliceBound(width, sub, Pow2(wp.wideLog2));
      OneWord(width);
      var lo := Span(width, sub);
      wp.(wideLog2 := 0, addr := SubAddr(wp.addr, wp.wideLog2, sub), data := wp.data[lo..lo + width],
          en := wp.en[lo..lo + width])
  }

  /** The narrow write ports of the first `n` ports, in order. */
  function NarrowWr(wr: seq<MemWr>, n: nat, width: nat): (r: seq<MemWr>)
    requires NarrowShape(wr, width) && n <= |wr|
    ensures |r| == Count(wr, n) && forall k :: 0 <= k < |r| ==> WrShape(r[k], width)
  {
    if n == 0 then []
    else
      var count := Pow2(wr[n - 1].wideLog2);
      NarrowWr(wr, n - 1, width) + seq(count, sub requires 0 <= sub < count => SubWr(wr, n - 1, width, sub))
  }

  lemma {:induction false} CountMonotone(wr: seq<MemWr>, n: nat, m: nat)
    requires n <= m <= |wr|
    ensures Count(wr, n) <= Count(wr, m)
  {
    if n < m { CountMonotone(wr, n, m - 1); }
  }

  /** Where a narrow port sits. */
  lemma {:induction false} NarrowAt(wr: seq<MemWr>, n: nat, width: nat, k: nat, sub: nat)
    requires NarrowShape(wr, width) && k < n <= |wr| && sub < Pow2(wr[k].wideLog2)
    ensures Count(wr, k) + sub < Count(wr, n)
    ensures NarrowWr(wr, n, width)[Count(wr, k) + sub] == SubWr(wr, k, width, sub)
    decreases n
  {
    hide SubWr, Pow2;
    var first := NarrowWr(wr, n - 1, width);
    if k < n - 1 {
      NarrowAt(wr, n - 1, width, k, sub);
      assert NarrowWr(wr, n, width)[..|first|] == first;
      assert NarrowWr(wr, n, width)[Count(wr, k) + sub] == first[Count(wr, k) + sub];
    } else {
      assert NarrowWr(wr, n, width)[|first| + sub] == SubWr(wr, k, width, sub);
    }
  }

  /** Where its mask bit sits. */
  lemma {:induction false} MaskBitAt(wr: seq<MemWr>, n: nat, mask: seq<bool>, k: nat, sub: nat)
    requires k < n <= |wr| && n <= |mask| && sub < Pow2(wr[k].wideLog2)
    ensures Count(wr, k) + sub < Count(wr, n) && ExpandMask(wr, n, mask)[Count(wr, k) + sub] == mask[k]
    decreases n
  {
    hide Pow2;
    var first := ExpandMask(wr, n - 1, mask);
    if k < n - 1 {
      MaskBitAt(wr, n - 1, mask, k, sub);
      assert ExpandMask(wr, n, mask)[Count(wr, k) + sub] == first[Count(wr, k) + sub];
    } else {
      assert ExpandMask(wr, n, mask)[|first| + sub] == mask[k];
    }
  }

  function NarrowRam(m: Ram): (n: Ram)
    requires RamShape(m) && NarrowShape(m.wr, m.width)
    ensures RamShape(n) && |n.wr| == Count(m.wr, |m.wr|)
  {
    m.(wr := NarrowWr(m.wr, |m.wr|, m.width))
  }

  /** The narrow read port for one subword. */
  function SubRd(p: MemRd, m: Ram, sub: nat): (r: MemRd)
    requires RamShape(m) && RdShape(p, m.width, |m.wr|) && NarrowShape(m.wr, m.width) && sub < Pow2(p.wideLog2)
    ensures RdShape(r, m.width, Count(m.wr, |m.wr|)) && |r.data| == m.width
  {
    var q := p.(transparency := ExpandMask(m.wr, |m.wr|, p.transparency),
        collisionX := ExpandMask(m.wr, |m.wr|, p.collisionX));
    OneWord(m.width);
    if p.wideLog2 == 0 then q else
      SliceBound(m.width, sub, Pow2(p.wideLog2));
      var lo, hi := Span(m.width, sub), Span(m.width, sub) + m.width;
      q.(wideLog2 := 0, addr := SubAddr(p.addr, p.wideLog2, sub), data := p.data[lo..hi],
         arstValue := p.arstValue[lo..hi], srstValue := p.srstValue[lo..hi], initValue := p.initValue[lo..hi])
  }

  lemma {:induction false} FlatSpan(width: nat, sub: nat, b: nat)
    ensures Flat(width, sub, b) == Span(width, sub) + b
  {
    if sub > 0 { FlatSpan(width, sub - 1, b); }
  }

  /** The ports that are split in earnest. */
  function WideOnes(wr: seq<MemWr>): set<nat> {
    set k: nat | k < |wr| && wr[k].wideLog2 > 0
  }

  predicate SplitKnown(wp: MemWr, e0: Env, e1: Env) {
    wp.wideLog2 > 0 ==> WrKnownStep(wp, e0, e1)
  }

  lemma WideKnown(m: Ram, ks: set<nat>, envs: seq<Env>, t: nat)
    requires WideOnes(m.wr) <= ks && WrKnown(m, ks, envs) && t + 1 < |envs|
    ensures forall k :: 0 <= k < |m.wr| ==> SplitKnown(m.wr[k], envs[t], envs[t + 1])
  {
    hide WrKnownStep;
  }

  lemma SubOfNarrow(wr: seq<MemWr>, k: nat, width: nat, e0: Env, e1: Env, w: nat, b: nat)
    requires NarrowShape(wr, width) && k < |wr| && wr[k].wideLog2 == 0 && b < width
    ensures SubWr(wr, k, width, 0).(priority := wr[k].priority) == wr[k]
    ensures Writes(SubWr(wr, k, width, 0), width, e0, e1, w, b) == Writes(wr[k], width, e0, e1, w, b)
  {
    hide Eval, ExpandMask, Writes;
    SameUpToPriority(wr[k], SubWr(wr, k, width, 0), width, e0, e1, w, b);
  }

  /** Only the narrow port of the word's own offset writes it, and writes what the wide port would. */
  lemma SubWrites(wr: seq<MemWr>, k: nat, width: nat, sub: nat, e0: Env, e1: Env, w: nat, b: nat)
    requires NarrowShape(wr, width) && k < |wr| && sub < Pow2(wr[k].wideLog2) && b < width
    requires SplitKnown(wr[k], e0, e1)
    ensures Writes(SubWr(wr, k, width, sub), width, e0, e1, w, b) ==
            if sub == Low(w, wr[k].wideLog2) then Writes(wr[k], width, e0, e1, w, b) else S0
    ensures sub == Low(w, wr[k].wideLog2) ==>
        WriteData(SubWr(wr, k, width, sub), width, e0, w, b) == WriteData(wr[k], width, e0, w, b)
  {
    hide Eval, Low, Edge, ExpandMask, Flat, SubAddr, Touches, Lane, SubWr, WriteData, WrReady;
    var wp, r := wr[k], SubWr(wr, k, width, sub);
    SubWrClock(wr, k, width, sub);
    SubWrData(wr, k, width, sub, e0, w, b);
    if wp.wideLog2 == 0 {
      ZeroLow(w);
      SubOfNarrow(wr, k, width, e0, e1, w, b);
    } else if !wp.removed {
      WritesTouches(wp, width, e0, e1, w, b);
      WritesTouches(r, width, e0, e1, w, b);
      if Strobe(wp, e0, e1) == S1 { SubTouches(wr, k, width, sub, e0, w, b); }
    } else {
      RemovedIdle(wp, width, e0, e1, w, b);
      RemovedIdle(r, width, e0, e1, w, b);
    }
  }

  lemma SubWrClock(wr: seq<MemWr>, k: nat, width: nat, sub: nat)
    requires NarrowShape(wr, width) && k < |wr| && sub < Pow2(wr[k].wideLog2)
    ensures var r := SubWr(wr, k, width, sub);
            r.removed == wr[k].removed && r.clkEnable == wr[k].clkEnable && r.clk == wr[k].clk &&
                r.clkPolarity == wr[k].clkPolarity
  {
    hide ExpandMask, SubAddr, Flat;
  }

  lemma SubWrData(wr: seq<MemWr>, k: nat, width: nat, sub: nat, e: Env, w: nat, b: nat)
    requires NarrowShape(wr, width) && k < |wr| && sub < Pow2(wr[k].wideLog2) && b < width
    ensures sub == Low(w, wr[k].wideLog2) ==>
              WriteData(SubWr(wr, k, width, sub), width, e, w, b) == WriteData(wr[k], width, e, w, b)
  {
    hide Eval, Low, ExpandMask, Flat, SubAddr;
    ZeroLow(w);
    ZeroFlat(width, b);
    FlatSpan(width, sub, b);
    OneWord(width);
    SliceBound(width, sub, Pow2(wr[k].wideLog2));
  }

  lemma SubTouches(wr: seq<MemWr>, k: nat, width: nat, sub: nat, e: Env, w: nat, b: nat)
    requires NarrowShape(wr, width) && k < |wr| && sub < Pow2(wr[k].wideLog2) && b < width && WrReady(wr[k], e)
    ensures Touches(SubWr(wr, k, width, sub), width, e, w, b) ==
            if sub == Low(w, wr[k].wideLog2) then Touches(wr[k], width, e, w, b) else S0
  {
    hide Eval, Low, ExpandMask, Flat, SubAddr, Value;
    var wp, r := wr[k], SubWr(wr, k, width, sub);
    ZeroLow(w);
    ZeroFlat(width, b);
    ZeroLow(Value(EvalSig(r.addr, e)));
    if Idle(wp, e) {
      SubIdle(wr, k, width, sub, e);
      IdleTouches(wp, width, e, w, b);
      IdleTouches(r, width, e, w, b);
    } else if wp.wideLog2 > 0 {
      SubAddrValue(wp.addr, wp.wideLog2, sub, e);
      FlatSpan(width, sub, b);
      LowBase(Value(EvalSig(wp.addr, e)), wp.wideLog2, sub);
      assert EvalSig(wp.en, e)[Lane(width, wp.wideLog2, w, b)] != Sx;
      OneWord(width);
      SliceBound(width, sub, Pow2(wp.wideLog2));
      assert r.en[b] == wp.en[Flat(width, sub, b)];
      if Base(Value(EvalSig(wp.addr, e)), wp.wideLog2) == Base(w, wp.wideLog2) && sub != Low(w, wp.wideLog2) {
        assert Base(Value(EvalSig(wp.addr, e)), wp.wideLog2) + sub != w;
      }
      assert EvalSig(r.en, e)[b] != Sx by { assert EvalSig(wp.en, e)[Flat(width, sub, b)] != Sx; }
    }
  }

  lemma SubIdle(wr: seq<MemWr>, k: nat, width: nat, sub: nat, e: Env)
    requires NarrowShape(wr, width) && k < |wr| && sub < Pow2(wr[k].wideLog2) && Idle(wr[k], e)
    ensures Idle(SubWr(wr, k, width, sub), e)
  {
    hide Eval, ExpandMask, Flat, SubAddr;
    SliceBound(width, sub, Pow2(wr[k].wideLog2));
    OneWord(width);
  }

  lemma ZeroFlat(width: nat, b: nat)
    ensures Flat(width, 0, b) == b
  {
  }

  lemma NotHitNotShown(transparent: bool, collisionX: bool, data: State, rest: State)
    ensures Shown(transparent, collisionX, S0, data, rest) == rest
  {
  }

  /** What the narrow ports of wide port `k` show of a stored bit, after the first `s` of them. */
  lemma {:induction false} SeenSubs(p: MemRd, q: MemRd, m: Ram, k: nat, s: nat, e0: Env, e1: Env, w: nat, b: nat,
      cur: State)
    requires RamShape(m) && NarrowShape(m.wr, m.width) && RdShape(p, m.width, |m.wr|) &&
        RdShape(q, m.width, Count(m.wr, |m.wr|)) && b < m.width
    requires q.transparency == ExpandMask(m.wr, |m.wr|, p.transparency) &&
        q.collisionX == ExpandMask(m.wr, |m.wr|, p.collisionX)
    requires k < |m.wr| && s <= Pow2(m.wr[k].wideLog2) && SplitKnown(m.wr[k], e0, e1)
    requires Count(m.wr, k) + s <= Count(m.wr, |m.wr|)
    requires Seen(q, NarrowRam(m), Count(m.wr, k), e0, e1, w, b, cur) == Seen(p, m, k, e0, e1, w, b, cur)
    ensures Seen(q, NarrowRam(m), Count(m.wr, k) + s, e0, e1, w, b, cur) ==
            Seen(p, m, if Low(w, m.wr[k].wideLog2) < s then k + 1 else k, e0, e1, w, b, cur)
    decreases s
  {
    hide Eval, Writes, WriteData, SubWr, ExpandMask, NarrowWr, Low, SplitKnown, Count, Shown, Seen, Pow2;
    if s > 0 {
      var n, c, sub, width := NarrowRam(m), Count(m.wr, k) + (s - 1), s - 1, m.width;
      SeenSubs(p, q, m, k, sub, e0, e1, w, b, cur);
      NarrowAt(m.wr, |m.wr|, width, k, sub);
      MaskBitAt(m.wr, |m.wr|, p.transparency, k, sub);
      MaskBitAt(m.wr, |m.wr|, p.collisionX, k, sub);
      SubWrites(m.wr, k, width, sub, e0, e1, w, b);
      SeenStep(q, n, c, e0, e1, w, b, cur);
      SeenStep(p, m, k, e0, e1, w, b, cur);
      NotHitNotShown(p.transparency[k], p.collisionX[k], WriteData(n.wr[c], width, e0, w, b),
          Seen(q, n, c, e0, e1, w, b, cur));
    }
  }

  /** The narrow ports together show what the wide ports show. */
  lemma {:induction false} SeenNarrow(p: MemRd, q: MemRd, m: Ram, k: nat, e0: Env, e1: Env, w: nat, b: nat, cur: State)
    requires RamShape(m) && NarrowShape(m.wr, m.width) && RdShape(p, m.width, |m.wr|) &&
        RdShape(q, m.width, Count(m.wr, |m.wr|)) && b < m.width
    requires q.transparency == ExpandMask(m.wr, |m.wr|, p.transparency) &&
        q.collisionX == ExpandMask(m.wr, |m.wr|, p.collisionX)
    requires k <= |m.wr| && forall j :: 0 <= j < |m.wr| ==> SplitKnown(m.wr[j], e0, e1)
    ensures Count(m.wr, k) <= Count(m.wr, |m.wr|)
    ensures Seen(q, NarrowRam(m), Count(m.wr, k), e0, e1, w, b, cur) == Seen(p, m, k, e0, e1, w, b, cur)
    decreases k
  {
    hide Eval, Writes, WriteData, SubWr, ExpandMask, NarrowWr, Low, SplitKnown, NarrowRam, Pow2;
    CountMonotone(m.wr, k, |m.wr|);
    if k > 0 {
      SeenNarrow(p, q, m, k - 1, e0, e1, w, b, cur);
      SeenSubs(p, q, m, k - 1, Pow2(m.wr[k - 1].wideLog2), e0, e1, w, b, cur);
    }
  }

  /** A reader transparent to every port, used to speak about the contents after all writes. */
  function SeeAll(m: Ram, writers: nat): (p: MemRd)
    requires RamShape(m)
    ensures RdShape(p, m.width, writers) && forall k :: 0 <= k < writers ==> p.transparency[k]
  {
    OneWord(m.width);
    var x := seq(m.width, _ => Sx);
    MemRd(false, 0, true, true, false, x, x, x, seq(writers, _ => true), seq(writers, _ => false), Const(S0),
        Const(S1), Const(S0), Const(S0), [], Fill(Sx, m.width))
  }

  lemma {:induction false} ExpandConstant(wr: seq<MemWr>, n: nat, mask: seq<bool>, v: bool)
    requires n <= |wr| && n <= |mask| && forall k :: 0 <= k < |mask| ==> mask[k] == v
    ensures ExpandMask(wr, n, mask) == seq(Count(wr, n), _ => v)
  {
    hide Pow2;
    if n > 0 { ExpandConstant(wr, n - 1, mask, v); }
  }

  /** Splitting the write ports leaves the contents at every instant as they were. */
  lemma NarrowSame(m: Ram, envs: seq<Env>)
    requires RamShape(m) && NarrowShape(m.wr, m.width) && WrKnown(m, WideOnes(m.wr), envs)
    ensures SameWrites(m, NarrowRam(m), envs)
  {
    hide Eval, AfterWrites, Seen, SplitKnown, WideOnes, WrKnown, NarrowWr, Count, ExpandMask;
    var n, p, q := NarrowRam(m), SeeAll(m, |m.wr|), SeeAll(m, Count(m.wr, |m.wr|));
    ExpandConstant(m.wr, |m.wr|, p.transparency, true);
    ExpandConstant(m.wr, |m.wr|, p.collisionX, false);
    forall t: nat, w: nat, b: nat, cur: State | t < |envs| - 1 && b < m.width
      ensures StepSame(m, n, envs, t, w, b, cur)
    {
      var e0, e1 := envs[t], envs[t + 1];
      WideKnown(m, WideOnes(m.wr), envs, t);
      SeenNarrow(p, q, m, |m.wr|, e0, e1, w, b, cur);
      SeenAll(p, m, |m.wr|, e0, e1, w, b, cur);
      SeenAll(q, n, |n.wr|, e0, e1, w, b, cur);
    }
  }

  lemma {:induction false} SubAddrParts(addr: Sig, k: nat, sub: nat)
    requires k <= |addr|
    ensures SubAddr(addr, k, sub) == ConstAddr(sub, k) + addr[k..]
    decreases k
  {
    if k > 0 {
      SubAddrParts(addr[1..], k - 1, sub / 2);
      assert addr[1..][k - 1..] == addr[k..];
    }
  }

  lemma SubRdFields(p: MemRd, m: Ram, sub: nat)
    requires RamShape(m) && RdShape(p, m.width, |m.wr|) && NarrowShape(m.wr, m.width) && sub < Pow2(p.wideLog2)
    ensures var q, lo, hi := SubRd(p, m, sub), Span(m.width, sub), Span(m.width, sub) + m.width;
            && hi <= |p.data|
            && q == p.(wideLog2 := 0, addr := ConstAddr(sub, p.wideLog2) + p.addr[p.wideLog2..],
                       data := p.data[lo..hi], initValue := p.initValue[lo..hi], arstValue := p.arstValue[lo..hi],
                       srstValue := p.srstValue[lo..hi], transparency := ExpandMask(m.wr, |m.wr|, p.transparency),
                       collisionX := ExpandMask(m.wr, |m.wr|, p.collisionX))
  {
    hide ExpandMask, Flat, SubAddr, ConstAddr, Count, RamShape, NarrowShape, RdShape, Pow2, SubRd;
    SliceBound(m.width, sub, Pow2(p.wideLog2));
    RdSizes(p, m.width, |m.wr|);
    SubAddrParts(p.addr, p.wideLog2, sub);
    if p.wideLog2 == 0 {
      OneWord(m.width);
      ZeroFlat(m.width, 0);
      SubRdPlain(p, m, sub);
      NoSub(p.addr, sub);
      assert p.data[0..m.width] == p.data && p.initValue[0..m.width] == p.initValue;
      assert p.arstValue[0..m.width] == p.arstValue && p.srstValue[0..m.width] == p.srstValue;
    } else {
      SubRdSplit(p, m, sub);
    }
  }

  lemma RdSizes(p: MemRd, width: nat, writers: nat)
    requires RdShape(p, width, writers)
    ensures |p.data| == |p.initValue| == |p.arstValue| == |p.srstValue| == Span(width, Pow2(p.wideLog2))
    ensures p.wideLog2 <= |p.addr| && |p.transparency| == |p.collisionX| == writers
  {
  }

  lemma SubRdPlain(p: MemRd, m: Ram, sub: nat)
    requires RamShape(m) && RdShape(p, m.width, |m.wr|) && NarrowShape(m.wr, m.width)
    requires p.wideLog2 == 0 && sub < Pow2(0)
    ensures sub == 0 && |p.transparency| == |p.collisionX| == |m.wr|
    ensures SubRd(p, m, sub) == p.(transparency := ExpandMask(m.wr, |m.wr|, p.transparency),
                                   collisionX := ExpandMask(m.wr, |m.wr|, p.collisionX))
  {
    hide ExpandMask, Flat, Count, RamShape, NarrowShape;
  }

  lemma SubRdSplit(p: MemRd, m: Ram, sub: nat)
    requires RamShape(m) && RdShape(p, m.width, |m.wr|) && NarrowShape(m.wr, m.width) && sub < Pow2(p.wideLog2) &&
        p.wideLog2 > 0
    ensures var q, lo, hi := SubRd(p, m, sub), Span(m.width, sub), Span(m.width, sub) + m.width;
            && hi <= |p.data|
            && q == p.(wideLog2 := 0, addr := SubAddr(p.addr, p.wideLog2, sub),
                       data := p.data[lo..hi], initValue := p.initValue[lo..hi], arstValue := p.arstValue[lo..hi],
                       srstValue := p.srstValue[lo..hi], transparency := ExpandMask(m.wr, |m.wr|, p.transparency),
                       collisionX := ExpandMask(m.wr, |m.wr|, p.collisionX))
  {
    hide ExpandMask, Flat, SubAddr, Count, RamShape, NarrowShape;
    SliceBound(m.width, sub, Pow2(p.wideLog2));
  }

  lemma NoSub(addr: Sig, sub: nat)
    ensures SubAddr(addr, 0, sub) == addr
  {
  }

  lemma SubWrFields(wr: seq<MemWr>, k: nat, width: nat, sub: nat)
    requires NarrowShape(wr, width) && k < |wr| && sub < Pow2(wr[k].wideLog2)
    ensures var p, q, lo, hi := wr[k], SubWr(wr, k, width, sub), Span(width, sub), Span(width, sub) + width;
            && hi <= |p.data| == |p.en| && p.wideLog2 <= |p.addr|
            && q == p.(wideLog2 := 0, addr := ConstAddr(sub, p.wideLog2) + p.addr[p.wideLog2..],
                       data := p.data[lo..hi], en := p.en[lo..hi], priority := ExpandMask(wr, |wr|, p.priority))
  {
    hide ExpandMask, Flat, SubAddr, ConstAddr, Count;
    var p := wr[k];
    SliceBound(width, sub, Pow2(p.wideLog2));
    OneWord(width);
    ZeroFlat(width, 0);
    SubAddrParts(p.addr, p.wideLog2, sub);
    if p.wideLog2 == 0 { assert SubAddr(p.addr, 0, sub) == p.addr by { NoSub(p.addr, sub); } }
  }

  lemma SubRdSlices(p: MemRd, m: Ram, sub: nat)
    requires RamShape(m) && RdShape(p, m.width, |m.wr|) && NarrowShape(m.wr, m.width) && sub < Pow2(p.wideLog2)
    ensures var q, lo, hi := SubRd(p, m, sub), Span(m.width, sub), Span(m.width, sub) + m.width;
            && hi <= |p.data| && q.data == p.data[lo..hi] && q.arstValue == p.arstValue[lo..hi]
            && q.srstValue == p.srstValue[lo..hi] && q.initValue == p.initValue[lo..hi]
  {
    hide ExpandMask, Flat, SubAddr, Count, RamShape, NarrowShape;
    SliceBound(m.width, sub, Pow2(p.wideLog2));
    OneWord(m.width);
    ZeroFlat(m.width, 0);
  }

  /** Bit `b` of subword `sub` of a wide read port is bit `b` of its narrow port. */
  lemma SubRdBit(p: MemRd, m: Ram, sub: nat, b: nat)
    requires RamShape(m) && RdShape(p, m.width, |m.wr|) && NarrowShape(m.wr, m.width)
    requires sub < Pow2(p.wideLog2) && b < m.width
    ensures var q, i := SubRd(p, m, sub), Flat(m.width, sub, b);
            && i < |p.data| && q.data[b] == p.data[i] && q.arstValue[b] == p.arstValue[i]
            && q.srstValue[b] == p.srstValue[i] && q.initValue[b] == p.initValue[i]
            && SubOf(m.width, i) == sub && BitOf(m.width, i) == b && SubOf(m.width, b) == 0 && BitOf(m.width, b) == b
  {
    hide SubRd, Flat, SubOf, BitOf, Pow2, Span, RamShape, NarrowShape;
    SubRdSlices(p, m, sub);
    FlatSplit(m.width, sub, b);
    FlatSplit(m.width, 0, b);
    ZeroFlat(m.width, b);
    FlatBound(m.width, Pow2(p.wideLog2), sub, b);
    FlatSpan(m.width, sub, b);
    var q, lo, hi := SubRd(p, m, sub), Span(m.width, sub), Span(m.width, sub) + m.width;
    assert q.data[b] == p.data[lo..hi][b] && q.arstValue[b] == p.arstValue[lo..hi][b];
    assert q.srstValue[b] == p.srstValue[lo..hi][b] && q.initValue[b] == p.initValue[lo..hi][b];
  }

  /** The two bits address the same word. */
  lemma SubRdWord(p: MemRd, m: Ram, sub: nat, e: Env, b: nat)
    requires RamShape(m) && RdShape(p, m.width, |m.wr|) && NarrowShape(m.wr, m.width)
    requires sub < Pow2(p.wideLog2) && b < m.width && Known(EvalSig(p.addr, e))
    ensures var q := SubRd(p, m, sub);
            Known(EvalSig(q.addr, e)) && Word(q, m.width, e, b) == Word(p, m.width, e, Flat(m.width, sub, b))
  {
    hide Eval, Low, ExpandMask, Flat, SubAddr, SubOf, BitOf;
    SubRdBit(p, m, sub, b);
    ZeroLow(Value(EvalSig(SubRd(p, m, sub).addr, e)));
    if p.wideLog2 > 0 { SubAddrValue(p.addr, p.wideLog2, sub, e); }
  }

  lemma NarrowBacked(p: MemRd, m: Ram, sub: nat, b: nat, envs: seq<Env>)
    requires RamShape(m) && NarrowShape(m.wr, m.width) && RdShape(p, m.width, |m.wr|) && sub < Pow2(p.wideLog2) &&
        b < m.width && |envs| > 0
    requires WrKnown(m, WideOnes(m.wr), envs)
    ensures Flat(m.width, sub, b) < |p.data|
    ensures BackedBy(p, m, Flat(m.width, sub, b), SubRd(p, m, sub), NarrowRam(m), b, envs)
  {
    hide Eval, Low, ExpandMask, Flat, SubAddr, Seen, Stored, SubRd, Edge, NarrowWr, SplitKnown, SubOf, BitOf, Word,
         SameWrites, WideOnes, WrKnown;
    var q, n, i := SubRd(p, m, sub), NarrowRam(m), Flat(m.width, sub, b);
    NarrowSame(m, envs);
    SubRdControls(p, m, sub);
    SubRdBit(p, m, sub, b);
    forall t: nat | t < |envs|
      ensures Refines(Behind(p, m, envs, t, envs[t], i), Behind(q, n, envs, t, envs[t], b))
      ensures InRange(p, m, envs[t], i) ==>
                Behind(p, m, envs, t, envs[t], i) == Behind(q, n, envs, t, envs[t], b)
    {
      if Known(EvalSig(p.addr, envs[t])) { SubRdWord(p, m, sub, envs[t], b); }
      SameStored(m, n, envs, t, Word(p, m.width, envs[t], i), b);
    }
    forall t: nat | t < |envs| - 1 ensures SampleBacked(p, m, i, q, n, b, envs, t) {
      if Known(EvalSig(p.addr, envs[t])) { SubRdWord(p, m, sub, envs[t], b); }
      WideKnown(m, WideOnes(m.wr), envs, t);
      SeenNarrow(p, q, m, |m.wr|, envs[t], envs[t + 1], Word(p, m.width, envs[t], i), b,
          Behind(p, m, envs, t, envs[t], i));
    }
  }

  lemma SubRdControls(p: MemRd, m: Ram, sub: nat)
    requires RamShape(m) && RdShape(p, m.width, |m.wr|) && NarrowShape(m.wr, m.width) && sub < Pow2(p.wideLog2)
    ensures var q := SubRd(p, m, sub);
            && p.clkEnable == q.clkEnable && p.clk == q.clk && p.clkPolarity == q.clkPolarity
            && p.en == q.en && p.arst == q.arst && p.srst == q.srst && p.ceOverSrst == q.ceOverSrst
            && q.transparency == ExpandMask(m.wr, |m.wr|, p.transparency)
            && q.collisionX == ExpandMask(m.wr, |m.wr|, p.collisionX)
  {
    hide ExpandMask, SubAddr, Flat;
  }

  /** If all narrow ports of a wide read port run, the wide port runs. */
  lemma NarrowReads(p: MemRd, m: Ram, envs: seq<Env>)
    requires RamShape(m) && NarrowShape(m.wr, m.width) && RdShape(p, m.width, |m.wr|) && |envs| > 0
    requires WrKnown(m, WideOnes(m.wr), envs)
    requires forall sub :: 0 <= sub < Pow2(p.wideLog2) ==> PortRuns(SubRd(p, m, sub), NarrowRam(m), envs)
    ensures PortRuns(p, m, envs)
  {
    hide Eval, ReadBit, SubRd, NarrowWr, Count, BackedBy, WrKnown, SubOf, BitOf, Flat;
    forall t: nat, i: nat | t < |envs| && i < |p.data|
      ensures Refines(ReadBit(p, m, envs, t, i), Eval(p.data[i], envs[t]))
    {
      var sub, b := SubOf(m.width, i), BitOf(m.width, i);
      SplitFlat(m.width, i);
      SubBound(m.width, Pow2(p.wideLog2), i);
      NarrowBacked(p, m, sub, b, envs);
      BackedReads(p, m, i, SubRd(p, m, sub), NarrowRam(m), b, envs, t);
      SubRdBit(p, m, sub, b);
      assert Refines(ReadBit(SubRd(p, m, sub), NarrowRam(m), envs, t, b), Eval(SubRd(p, m, sub).data[b], envs[t]));
    }
  }

  // ---------------------------------------------------------------- the maps from narrow ports to wide ones

  function WrLogs(wr: seq<MemWr>): (r: seq<nat>)
    ensures |r| == |wr| && forall k :: 0 <= k < |wr| ==> r[k] == wr[k].wideLog2
  {
    seq(|wr|, k requires 0 <= k < |wr| => wr[k].wideLog2)
  }

  function RdLogs(rd: seq<MemRd>): (r: seq<nat>)
    ensures |r| == |rd| && forall k :: 0 <= k < |rd| ==> r[k] == rd[k].wideLog2
  {
    seq(|rd|, k requires 0 <= k < |rd| => rd[k].wideLog2)
  }

  function Total(logs: seq<nat>, n: nat): nat
    requires n <= |logs|
  {
    if n == 0 then 0 else Total(logs, n - 1) + Pow2(logs[n - 1])
  }

  /** Port and subword of every narrow port, in order. */
  function Subs(logs: seq<nat>, n: nat): (r: seq<(nat, nat)>)
    requires n <= |logs|
    ensures |r| == Total(logs, n) && forall x :: 0 <= x < |r| ==> r[x].0 < n && r[x].1 < Pow2(logs[r[x].0])
  {
    if n == 0 then []
    else
      var count := Pow2(logs[n - 1]);
      Subs(logs, n - 1) + seq(count, sub requires 0 <= sub < count => (n - 1, sub as nat))
  }

  lemma {:induction false} SubsAt(logs: seq<nat>, n: nat, k: nat, sub: nat)
    requires k < n <= |logs| && sub < Pow2(logs[k])
    ensures Total(logs, k) + sub < Total(logs, n) && Subs(logs, n)[Total(logs, k) + sub] == (k, sub)
    decreases n
  {
    hide Pow2;
    var first := Subs(logs, n - 1);
    if k < n - 1 {
      SubsAt(logs, n - 1, k, sub);
      assert Subs(logs, n)[Total(logs, k) + sub] == first[Total(logs, k) + sub];
    } else {
      assert Subs(logs, n)[|first| + sub] == (k, sub);
    }
  }

  /** A narrow port sits at its own place. */
  lemma {:induction false} SubsPlace(logs: seq<nat>, n: nat, x: nat)
    requires n <= |logs| && x < Total(logs, n)
    ensures var it := Subs(logs, n)[x]; it.0 < n && it.1 < Pow2(logs[it.0]) && x == Total(logs, it.0) + it.1
    decreases n
  {
    hide Pow2;
    var first := Subs(logs, n - 1);
    if x < |first| {
      SubsPlace(logs, n - 1, x);
      assert Subs(logs, n)[x] == first[x];
    } else {
      assert Subs(logs, n)[x] == (n - 1, x - |first|);
    }
  }

  lemma {:induction false} TotalCount(wr: seq<MemWr>, n: nat)
    requires n <= |wr|
    ensures Total(WrLogs(wr), n) == Count(wr, n)
  {
    hide Pow2;
    if n > 0 { TotalCount(wr, n - 1); }
  }

  /** Narrow write port `x` is the one its map entry names, and a mask is repeated the same way. */
  lemma NarrowMapped(wr: seq<MemWr>, width: nat, mask: seq<bool>, x: nat)
    requires NarrowShape(wr, width) && |mask| == |wr| && x < Total(WrLogs(wr), |wr|)
    ensures Total(WrLogs(wr), |wr|) == Count(wr, |wr|)
    ensures var it := Subs(WrLogs(wr), |wr|)[x];
            && x == Count(wr, it.0) + it.1 && it.0 < |wr| && it.1 < Pow2(wr[it.0].wideLog2)
            && NarrowWr(wr, |wr|, width)[x] == SubWr(wr, it.0, width, it.1)
            && ExpandMask(wr, |wr|, mask)[x] == mask[it.0]
  {
    hide Pow2, SubWr, ExpandMask, NarrowWr, Subs;
    var it := Subs(WrLogs(wr), |wr|)[x];
    SubsPlace(WrLogs(wr), |wr|, x);
    TotalCount(wr, |wr|);
    TotalCount(wr, it.0);
    NarrowAt(wr, |wr|, width, it.0, it.1);
    MaskBitAt(wr, |wr|, mask, it.0, it.1);
  }

  /** The map, built port by port and subword by subword. */
  method PortMap(logs: seq<nat>) returns (r: seq<(nat, nat)>)
    ensures r == Subs(logs, |logs|)
  {
    hide Pow2;
    r := [];
    for i := 0 to |logs|
      invariant r == Subs(logs, i)
    {
      ghost var first := r;
      for sub := 0 to Pow2(logs[i])
        invariant r == first + seq(sub, x => (i, x))
      {
        r := r + [(i, sub)];
      }
    }
  }

  method ExpandByMap(wr: seq<MemWr>, width: nat, wrMap: seq<(nat, nat)>, mask: seq<bool>) returns (r: seq<bool>)
    requires NarrowShape(wr, width) && |mask| == |wr| && wrMap == Subs(WrLogs(wr), |wr|)
    ensures r == ExpandMask(wr, |wr|, mask)
  {
    hide Pow2, ExpandMask, NarrowWr, SubWr, Subs, Count;
    TotalCount(wr, |wr|);
    r := [];
    for x := 0 to |wrMap|
      invariant |r| == x && r == ExpandMask(wr, |wr|, mask)[..x]
    {
      NarrowMapped(wr, width, mask, x);
      r := r + [mask[wrMap[x].0]];
    }
  }

  // ---------------------------------------------------------------- legality of the split memory

  lemma SubKnown(wr: seq<MemWr>, k: nat, width: nat, sub: nat, e0: Env, e1: Env)
    requires NarrowShape(wr, width) && k < |wr| && sub < Pow2(wr[k].wideLog2) && WrKnownStep(wr[k], e0, e1)
    ensures WrKnownStep(SubWr(wr, k, width, sub), e0, e1)
  {
    hide Eval, Edge, WrReady, SubWr;
    SubWrClock(wr, k, width, sub);
    if !wr[k].removed && Strobe(wr[k], e0, e1) == S1 { SubReady(wr, k, width, sub, e0); }
  }

  lemma SubReady(wr: seq<MemWr>, k: nat, width: nat, sub: nat, e: Env)
    requires NarrowShape(wr, width) && k < |wr| && sub < Pow2(wr[k].wideLog2) && WrReady(wr[k], e)
    ensures WrReady(SubWr(wr, k, width, sub), e)
  {
    hide Eval, ExpandMask, Flat, SubAddr, Low;
    var wp, r := wr[k], SubWr(wr, k, width, sub);
    if Idle(wp, e) { SubIdle(wr, k, width, sub, e); }
    if wp.wideLog2 > 0 {
      if Known(EvalSig(wp.addr, e)) { SubAddrValue(wp.addr, wp.wideLog2, sub, e); }
      SliceBound(width, sub, Pow2(wp.wideLog2));
      OneWord(width);
      forall i | 0 <= i < |r.en| ensures EvalSig(r.en, e)[i] != Sx {
        assert r.en[i] == wp.en[Span(width, sub) + i];
        assert EvalSig(wp.en, e)[Span(width, sub) + i] != Sx;
      }
    }
  }

  /** The narrow ports of the given ports. */
  function SplitSet(wr: seq<MemWr>, ks: set<nat>): set<nat> {
    set y: nat | y < |Subs(WrLogs(wr), |wr|)| && Subs(WrLogs(wr), |wr|)[y].0 in ks
  }

  lemma NarrowConflict(m: Ram, apart: set<nat>, e0: Env, e1: Env, w: nat, b: nat, x: nat, y: nat)
    requires RamShape(m) && NarrowShape(m.wr, m.width) && b < m.width && NoConflict(m, apart, e0, e1, w, b)
    requires forall k :: 0 <= k < |m.wr| ==> SplitKnown(m.wr[k], e0, e1)
    requires x < y < Count(m.wr, |m.wr|) && x in SplitSet(m.wr, apart) && y in SplitSet(m.wr, apart)
    requires Writes(NarrowRam(m).wr[x], m.width, e0, e1, w, b) == S1 &&
        Writes(NarrowRam(m).wr[y], m.width, e0, e1, w, b) == S1
    ensures x < |NarrowRam(m).wr[y].priority| && NarrowRam(m).wr[y].priority[x]
  {
    hide Eval, Writes, Pow2, ExpandMask, NarrowWr, SubWr, Subs, Low, Count, SplitKnown;
    TotalCount(m.wr, |m.wr|);
    var places := Subs(WrLogs(m.wr), |m.wr|);
    NarrowMapped(m.wr, m.width, m.wr[places[y].0].priority, x);
    NarrowMapped(m.wr, m.width, m.wr[places[y].0].priority, y);
    var i, j := places[x], places[y];
    SubWrites(m.wr, i.0, m.width, i.1, e0, e1, w, b);
    SubWrites(m.wr, j.0, m.width, j.1, e0, e1, w, b);
    SubWrPriority(m.wr, j.0, m.width, j.1);
    if j.0 < i.0 {
      CountLater(m.wr, j.0, i.0);
      assert false;
    }
  }

  lemma {:induction false} CountLater(wr: seq<MemWr>, j: nat, i: nat)
    requires j < i <= |wr|
    ensures Count(wr, j) + Pow2(wr[j].wideLog2) <= Count(wr, i)
  {
    hide Pow2;
    CountMonotone(wr, j + 1, i);
  }

  lemma SubWrPriority(wr: seq<MemWr>, k: nat, width: nat, sub: nat)
    requires NarrowShape(wr, width) && k < |wr| && sub < Pow2(wr[k].wideLog2)
    ensures SubWr(wr, k, width, sub).priority == ExpandMask(wr, |wr|, wr[k].priority)
  {
    hide ExpandMask, SubAddr, Flat;
  }

  /** Splitting keeps enables definite and adds no conflict. */
  lemma NarrowAllowed(m: Ram, ks: set<nat>, apart: set<nat>, envs: seq<Env>)
    requires RamShape(m) && NarrowShape(m.wr, m.width) && WideOnes(m.wr) <= ks && WrKnown(m, ks, envs)
    ensures WrKnown(NarrowRam(m), SplitSet(m.wr, ks), envs)
    ensures NoConflicts(m, apart, envs) ==> NoConflicts(NarrowRam(m), SplitSet(m.wr, apart), envs)
  {
    hide Eval, Writes, Pow2, ExpandMask, NarrowWr, SubWr, Subs, Low, Count, WrKnownStep, SplitKnown, WideOnes;
    var n := NarrowRam(m);
    TotalCount(m.wr, |m.wr|);
    forall t: nat, x: nat | t + 1 < |envs| && x in SplitSet(m.wr, ks) && x < |n.wr|
      ensures WrKnownStep(n.wr[x], envs[t], envs[t + 1])
    {
      NarrowMapped(m.wr, m.width, m.wr[Subs(WrLogs(m.wr), |m.wr|)[x].0].priority, x);
      var it := Subs(WrLogs(m.wr), |m.wr|)[x];
      SubKnown(m.wr, it.0, m.width, it.1, envs[t], envs[t + 1]);
    }
    forall t: nat, w: nat, b: nat | NoConflicts(m, apart, envs) && t < |envs| - 1 && b < m.width
      ensures NoConflictAt(n, SplitSet(m.wr, apart), envs, t, w, b)
    {
      assert NoConflictAt(m, apart, envs, t, w, b);
      WideKnown(m, ks, envs, t);
      forall x: nat, y: nat | x in SplitSet(m.wr, apart) && y in SplitSet(m.wr, apart) && x < y < |n.wr| &&
          Writes(n.wr[x], n.width, envs[t], envs[t + 1], w, b) == S1 &&
          Writes(n.wr[y], n.width, envs[t], envs[t + 1], w, b) == S1
        ensures x < |n.wr[y].priority| && n.wr[y].priority[x]
      {
        NarrowConflict(m, apart, envs[t], envs[t + 1], w, b, x, y);
      }
    }
  }
}
