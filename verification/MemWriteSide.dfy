/**
 Rewrites of the write ports of a memory: priority made explicit in the enables, a narrow port made wide, and
 wide ports split. Each leaves every stored bit, at every instant of every run, as it was.
 */
module MemWriteSide {
  import opened Signals
  import opened FlipFlops
  import opened Lanes
  import opened MemPorts
  import opened MemReadControl
  import opened MemTransparency

  // ---------------------------------------------------------------- two memories with the same contents

  ghost predicate SameGeometry(m: Ram, n: Ram) {
    m.width == n.width && m.start == n.start && m.size == n.size && m.init == n.init
  }

  /** Every step of the run changes the two memories alike. */
  ghost predicate SameWrites(m: Ram, n: Ram, envs: seq<Env>)
    requires RamShape(m) && RamShape(n)
  {
    m.width == n.width && m.init == n.init &&
    forall t: nat, w: nat, b: nat, cur: State :: t < |envs| - 1 && b < m.width ==> StepSame(m, n, envs, t, w, b, cur)
  }

  predicate StepSame(m: Ram, n: Ram, envs: seq<Env>, t: nat, w: nat, b: nat, cur: State)
    requires RamShape(m) && RamShape(n) && t < |envs| - 1 && b < m.width == n.width
  {
    AfterWrites(m, |m.wr|, envs[t], envs[t + 1], w, b, cur) == AfterWrites(n, |n.wr|, envs[t], envs[t + 1], w, b, cur)
  }

  lemma {:induction false} SameStored(m: Ram, n: Ram, envs: seq<Env>, t: nat, w: nat, b: nat)
    requires RamShape(m) && RamShape(n) && SameWrites(m, n, envs) && t < |envs| && b < m.width
    ensures Stored(m, envs, t, w, b) == Stored(n, envs, t, w, b)
  {
    hide AfterWrites;
    if t > 0 {
      SameStored(m, n, envs, t - 1, w, b);
      assert StepSame(m, n, envs, t - 1, w, b, Stored(m, envs, t - 1, w, b));
    }
  }

  lemma PortNextMonotone(p: MemRd, e0: Env, e1: Env, av: State, sv: State, d: State, d': State, h: State, h': State)
    requires Refines(h, h') && (Edge(p.clk, p.clkPolarity, e0, e1) != S0 ==> Refines(d, d'))
    ensures Refines(PortNext(p, e0, e1, av, sv, d, h), PortNext(p, e0, e1, av, sv, d', h'))
  {
    hide Eval, Edge, Sampled;
    if Edge(p.clk, p.clkPolarity, e0, e1) != S0 {
      SampledMonotone(p.ceOverSrst, Eval(p.en, e0), Eval(p.srst, e0), sv, d, d', h, h');
    }
  }

  lemma SampledMonotone(over: bool, ce: State, srst: State, v: State, d: State, d': State, h: State, h': State)
    requires Refines(d, d') && Refines(h, h')
    ensures Refines(Sampled(over, ce, srst, v, d, h), Sampled(over, ce, srst, v, d', h'))
  {
  }

  /** Bit `i` of one port is backed by bit `j` of another on a memory whose samples refine the first's. */
  ghost predicate BackedBy(p: MemRd, m: Ram, i: nat, q: MemRd, n: Ram, j: nat, envs: seq<Env>)
    requires RamShape(m) && RamShape(n) && RdShape(p, m.width, |m.wr|) && RdShape(q, n.width, |n.wr|) &&
        i < |p.data| && j < |q.data|
  {
    && p.clkEnable == q.clkEnable && p.clk == q.clk && p.clkPolarity == q.clkPolarity && p.en == q.en
    && p.arst == q.arst
    && p.srst == q.srst && p.ceOverSrst == q.ceOverSrst
    && p.arstValue[i] == q.arstValue[j] && p.srstValue[i] == q.srstValue[j] && p.initValue[i] == q.initValue[j]
    && (!p.clkEnable ==>
       forall t: nat :: t < |envs| ==> Refines(Behind(p, m, envs, t, envs[t], i), Behind(q, n, envs, t, envs[t], j)))
    && (p.clkEnable ==> forall t: nat :: t < |envs| - 1 ==> SampleBacked(p, m, i, q, n, j, envs, t))
  }

  /** Where there may be an edge, the sample is refined. */
  predicate SampleBacked(p: MemRd, m: Ram, i: nat, q: MemRd, n: Ram, j: nat, envs: seq<Env>, t: nat)
    requires RamShape(m) && RamShape(n) && RdShape(p, m.width, |m.wr|) && RdShape(q, n.width, |n.wr|) && t < |envs| - 1
  {
    Edge(p.clk, p.clkPolarity, envs[t], envs[t + 1]) != S0 ==>
        Refines(Sample(p, m, envs, t, i), Sample(q, n, envs, t, j))
  }

  lemma {:induction false} BackedReads(p: MemRd, m: Ram, i: nat, q: MemRd, n: Ram, j: nat, envs: seq<Env>, t: nat)
    requires RamShape(m) && RamShape(n) && RdShape(p, m.width, |m.wr|) && RdShape(q, n.width, |n.wr|) &&
        i < |p.data| && j < |q.data|
    requires BackedBy(p, m, i, q, n, j, envs) && t < |envs|
    ensures Refines(ReadBit(p, m, envs, t, i), ReadBit(q, n, envs, t, j))
  {
    hide Eval, Sample, Behind, Decide, Sampled, Edge;
    if t > 0 && p.clkEnable {
      BackedReads(p, m, i, q, n, j, envs, t - 1);
      assert SampleBacked(p, m, i, q, n, j, envs, t - 1);
      PortNextMonotone(p, envs[t - 1], envs[t], p.arstValue[i], p.srstValue[i],
                       Sample(p, m, envs, t - 1, i), Sample(q, n, envs, t - 1, j),
                       ReadBit(p, m, envs, t - 1, i), ReadBit(q, n, envs, t - 1, j));
    }
  }

  // ---------------------------------------------------------------- priority as logic on the enables

  /** The masked port writes exactly where it did and the winner does not. */
  ghost predicate Masked(m: Ram, n: Ram, idx1: nat, idx2: nat, e0: Env, e1: Env)
    requires RamShape(m) && RamShape(n) && idx1 < idx2 < |m.wr| == |n.wr| && m.width == n.width
  {
    && (forall k :: 0 <= k < |m.wr| && k != idx1 ==> n.wr[k].(priority := m.wr[k].priority) == m.wr[k])
    && forall w: nat, b: nat :: b < m.width ==> MaskedAt(m, n, idx1, idx2, e0, e1, w, b)
  }

  predicate MaskedAt(m: Ram, n: Ram, idx1: nat, idx2: nat, e0: Env, e1: Env, w: nat, b: nat)
    requires RamShape(m) && RamShape(n) && idx1 < idx2 < |m.wr| == |n.wr| && b < m.width == n.width
  {
    var w1, w2 := Writes(m.wr[idx1], m.width, e0, e1, w, b), Writes(m.wr[idx2], m.width, e0, e1, w, b);
    && w2 != Sx && Writes(n.wr[idx1], m.width, e0, e1, w, b) == AndS(w1, NotS(w2))
    && WriteData(n.wr[idx1], m.width, e0, w, b) == WriteData(m.wr[idx1], m.width, e0, w, b)
  }

  lemma SameUpToPriority(wp: MemWr, wp': MemWr, width: nat, e0: Env, e1: Env, w: nat, b: nat)
    requires WrShape(wp, width) && b < width && wp'.(priority := wp.priority) == wp
    ensures WrShape(wp', width)
    ensures Writes(wp', width, e0, e1, w, b) == Writes(wp, width, e0, e1, w, b) &&
        WriteData(wp', width, e0, w, b) == WriteData(wp, width, e0, w, b)
  {
    hide Eval, Lane, Edge;
  }

  lemma {:induction false} MaskedSame(m: Ram, n: Ram, idx1: nat, idx2: nat, k: nat, e0: Env, e1: Env, w: nat, b: nat,
      cur: State)
    requires RamShape(m) && RamShape(n) && idx1 < idx2 < |m.wr| == |n.wr| && b < m.width == n.width && k <= |m.wr|
    requires Masked(m, n, idx1, idx2, e0, e1)
    ensures k > idx2 || Writes(m.wr[idx2], m.width, e0, e1, w, b) == S0 ==>
      AfterWrites(m, k, e0, e1, w, b, cur) == AfterWrites(n, k, e0, e1, w, b, cur)
  {
    hide Writes, WriteData, AfterWrites, WrShape;
    SeenStart(AsReader(m.wr[0]), m, e0, e1, w, b, cur);
    SeenStart(AsReader(m.wr[0]), n, e0, e1, w, b, cur);
    if k > 0 {
      MaskedSame(m, n, idx1, idx2, k - 1, e0, e1, w, b, cur);
      assert MaskedAt(m, n, idx1, idx2, e0, e1, w, b);
      AfterWritesStep(m, k - 1, e0, e1, w, b, cur);
      AfterWritesStep(n, k - 1, e0, e1, w, b, cur);
      if k - 1 != idx1 { SameUpToPriority(m.wr[k - 1], n.wr[k - 1], m.width, e0, e1, w, b); }
    }
  }

  /** A port transparent to the loser sees the winner too, by transparency or as an undefined collision. */
  predicate SeesWinner(p: MemRd, idx1: nat, idx2: nat)
    requires idx1 < |p.transparency| && idx2 < |p.transparency| == |p.collisionX|
  {
    p.transparency[idx1] ==> p.transparency[idx2] || p.collisionX[idx2]
  }

  lemma {:induction false} MaskedSeen(p: MemRd, m: Ram, n: Ram, idx1: nat, idx2: nat, k: nat, e0: Env, e1: Env,
      w: nat, b: nat, cur: State)
    requires RamShape(m) && RamShape(n) && idx1 < idx2 < |m.wr| == |n.wr| && b < m.width == n.width && k <= |m.wr|
    requires Masked(m, n, idx1, idx2, e0, e1) && RdShape(p, m.width, |m.wr|) && SeesWinner(p, idx1, idx2)
    ensures k > idx2 || Writes(m.wr[idx2], m.width, e0, e1, w, b) == S0 || !p.transparency[idx1] ==>
              Refines(Seen(p, m, k, e0, e1, w, b, cur), Seen(p, n, k, e0, e1, w, b, cur))
  {
    hide Writes, WriteData, Seen, AfterWrites, WrShape;
    SeenStart(p, m, e0, e1, w, b, cur);
    SeenStart(p, n, e0, e1, w, b, cur);
    if k > 0 {
      MaskedSeen(p, m, n, idx1, idx2, k - 1, e0, e1, w, b, cur);
      assert MaskedAt(m, n, idx1, idx2, e0, e1, w, b);
      SeenStep(p, m, k - 1, e0, e1, w, b, cur);
      SeenStep(p, n, k - 1, e0, e1, w, b, cur);
      if k - 1 != idx1 { SameUpToPriority(m.wr[k - 1], n.wr[k - 1], m.width, e0, e1, w, b); }
    }
  }

  // ---------------------------------------------------------------- the masking gates

  /** A write port looked at as if it read: the words its data bits fall on. */
  function AsReader(wp: MemWr): MemRd {
    MemRd(wp.removed, wp.wideLog2, wp.clkEnable, wp.clkPolarity, false, [], [], [], [], [], wp.clk, Const(S1),
        Const(S0), Const(S0), wp.addr, wp.data)
  }

  predicate Ports(wp1: MemWr, wp2: MemWr, width: nat) {
    && width > 0 && WrShape(wp1, width) && WrShape(wp2, width)
    && Aligned(wp1.addr, wp1.wideLog2) && Aligned(wp2.addr, wp2.wideLog2)
  }

  /** The winner writes what data bit `i` of the loser falls on, as far as this subword can tell. */
  function Overridden(wp1: MemWr, wp2: MemWr, width: nat, sub: nat, i: nat): Bit
    requires Ports(wp1, wp2, width) && 0 <= WLane(AsReader(wp1), wp2, width, sub, i) < |wp2.en|
  {
    var p := AsReader(wp1);
    AndGate(Eq(ReadAddr(p, wp2, sub), WriteAddr(p, wp2, sub)), wp2.en[WLane(p, wp2, width, sub, i)])
  }

  function MaskBit(wp1: MemWr, wp2: MemWr, width: nat, sub: nat, en: Bit, i: nat): Bit
    requires Ports(wp1, wp2, width)
  {
    var p := AsReader(wp1);
    if Covered(p, wp2, width, sub, i) && 0 <= WLane(p, wp2, width, sub, i) < |wp2.en|
    then AndGate(en, NotGate(Overridden(wp1, wp2, width, sub, i))) else en
  }

  function MaskOnce(wp1: MemWr, wp2: MemWr, width: nat, sub: nat, en: Sig): (r: Sig)
    requires Ports(wp1, wp2, width)
    ensures |r| == |en|
  {
    seq(|en|, i requires 0 <= i < |en| => MaskBit(wp1, wp2, width, sub, en[i], i))
  }

  /** The loser's enables after the subwords below `sub` have been masked. */
  function MaskTo(wp1: MemWr, wp2: MemWr, width: nat, sub: nat, en: Sig): (r: Sig)
    requires Ports(wp1, wp2, width) && Low(sub, MinLog(AsReader(wp1), wp2)) == 0
    ensures |r| == |en|
    decreases sub
  {
    if sub == 0 then en else
      StepBack(sub, MinLog(AsReader(wp1), wp2));
      var prev := sub - Pow2(MinLog(AsReader(wp1), wp2));
      MaskOnce(wp1, wp2, width, prev, MaskTo(wp1, wp2, width, prev, en))
  }

  /** Whether the port's address and enable select bit `b` of word `w`, edge aside. */
  function Touches(wp: MemWr, width: nat, e: Env, w: nat, b: nat): State
    requires WrShape(wp, width) && b < width
  {
    AndS(AddrHit(wp.addr, wp.wideLog2, e, w), Eval(wp.en[Lane(width, wp.wideLog2, w, b)], e))
  }

  predicate Fires(wp1: MemWr, wp2: MemWr, width: nat, sub: nat, e: Env, i: nat)
    requires Ports(wp1, wp2, width)
  {
    var p := AsReader(wp1);
    Covered(p, wp2, width, sub, i) && 0 <= WLane(p, wp2, width, sub, i) < |wp2.en| &&
        Eval(Overridden(wp1, wp2, width, sub, i), e) == S1
  }

  lemma OverriddenValue(wp1: MemWr, wp2: MemWr, width: nat, sub: nat, e: Env, i: nat)
    requires Ports(wp1, wp2, width) && i < |wp1.data| && Known(EvalSig(wp1.addr, e)) && Known(EvalSig(wp2.addr, e))
    requires sub < Pow2(MaxLog(AsReader(wp1), wp2)) && Low(sub, MinLog(AsReader(wp1), wp2)) == 0
    requires Covered(AsReader(wp1), wp2, width, sub, i)
    ensures 0 <= WLane(AsReader(wp1), wp2, width, sub, i) < |wp2.en|
    ensures var p := AsReader(wp1);
            Eval(Overridden(wp1, wp2, width, sub, i), e) ==
            AndS(FromBool(Value(EvalSig(ReadAddr(p, wp2, sub), e)) == Value(EvalSig(WriteAddr(p, wp2, sub), e))),
                 Eval(wp2.en[WLane(p, wp2, width, sub, i)], e))
  {
    hide Eval, Low, Flat, SubOf, BitOf;
    var p := AsReader(wp1);
    LayerMatch(p, wp2, width, sub, e, i);
    EvalEq(ReadAddr(p, wp2, sub), WriteAddr(p, wp2, sub), e);
  }

  /** A winner that is ready overrides definitely, and one whose enables are off overrides nothing. */
  lemma OverriddenKnown(wp1: MemWr, wp2: MemWr, width: nat, sub: nat, e: Env, i: nat)
    requires Ports(wp1, wp2, width) && i < |wp1.data| && Known(EvalSig(wp1.addr, e)) && WrReady(wp2, e)
    requires sub < Pow2(MaxLog(AsReader(wp1), wp2)) && Low(sub, MinLog(AsReader(wp1), wp2)) == 0
    requires Covered(AsReader(wp1), wp2, width, sub, i) && 0 <= WLane(AsReader(wp1), wp2, width, sub, i) < |wp2.en|
    ensures Eval(Overridden(wp1, wp2, width, sub, i), e) != Sx
    ensures Eval(Overridden(wp1, wp2, width, sub, i), e) == S1 ==> Known(EvalSig(wp2.addr, e))
  {
    hide Eval, Low, Covered, WLane;
    assert EvalSig(wp2.en, e)[WLane(AsReader(wp1), wp2, width, sub, i)] != Sx;
    if Known(EvalSig(wp2.addr, e)) {
      OverriddenValue(wp1, wp2, width, sub, e, i);
    } else {
      assert Eval(wp2.en[WLane(AsReader(wp1), wp2, width, sub, i)], e) == S0;
    }
  }

  lemma FiresSound(wp1: MemWr, wp2: MemWr, width: nat, sub: nat, e: Env, i: nat)
    requires Ports(wp1, wp2, width) && i < |wp1.data| && Known(EvalSig(wp1.addr, e)) && WrReady(wp2, e)
    requires sub < Pow2(MaxLog(AsReader(wp1), wp2)) && Low(sub, MinLog(AsReader(wp1), wp2)) == 0
    requires Fires(wp1, wp2, width, sub, e, i)
    ensures Touches(wp2, width, e, Word(AsReader(wp1), width, e, i), BitOf(width, i)) == S1
  {
    hide Eval, Low, Flat, SubOf, BitOf, Overridden;
    OverriddenKnown(wp1, wp2, width, sub, e, i);
    OverriddenValue(wp1, wp2, width, sub, e, i);
    LayerMatch(AsReader(wp1), wp2, width, sub, e, i);
  }

  lemma FiresComplete(wp1: MemWr, wp2: MemWr, width: nat, e: Env, i: nat) returns (sub: nat)
    requires Ports(wp1, wp2, width) && i < |wp1.data| && Known(EvalSig(wp1.addr, e))
    requires Touches(wp2, width, e, Word(AsReader(wp1), width, e, i), BitOf(width, i)) == S1
    ensures sub < Pow2(MaxLog(AsReader(wp1), wp2)) && Low(sub, MinLog(AsReader(wp1), wp2)) == 0 &&
        Fires(wp1, wp2, width, sub, e, i)
  {
    hide Eval, Low, Flat, SubOf, BitOf, Overridden;
    var p := AsReader(wp1);
    var a, v, s := Value(EvalSig(p.addr, e)), Value(EvalSig(wp2.addr, e)), SubOf(width, i);
    AlignedValue(p.addr, p.wideLog2, e);
    SubBound(width, Pow2(p.wideLog2), i);
    if Wide(p, wp2) {
      sub := Low(a, wp2.wideLog2);
      WideFound(a, v, p.wideLog2, wp2.wideLog2, s);
      SubAddrValue(wp2.addr, wp2.wideLog2, sub, e);
    } else {
      sub := Base(s, wp2.wideLog2);
      LowOfBase(s, wp2.wideLog2, wp2.wideLog2);
    }
    LayerMatch(p, wp2, width, sub, e, i);
    OverriddenValue(wp1, wp2, width, sub, e, i);
  }

  /** A masked enable is off where some subword fires and unchanged elsewhere. */
  lemma {:induction false} MaskToValue(wp1: MemWr, wp2: MemWr, width: nat, sub: nat, en: Sig, e: Env, i: nat)
    requires Ports(wp1, wp2, width) && i < |wp1.data| == |en| && Known(EvalSig(wp1.addr, e)) && WrReady(wp2, e)
    requires sub <= Pow2(MaxLog(AsReader(wp1), wp2)) && Low(sub, MinLog(AsReader(wp1), wp2)) == 0
    requires Eval(en[i], e) != Sx
    ensures Eval(MaskTo(wp1, wp2, width, sub, en)[i], e) ==
            if exists s: nat ::
                 s < sub && Low(s, MinLog(AsReader(wp1), wp2)) == 0 && Fires(wp1, wp2, width, s, e, i)
            then S0 else Eval(en[i], e)
    decreases sub
  {
    hide Eval, Low, SubOf, Flat, Overridden, WrReady, Covered, WLane;
    var p, min := AsReader(wp1), MinLog(AsReader(wp1), wp2);
    if sub > 0 {
      StepBack(sub, min);
      var prev := sub - Pow2(min);
      MaskToValue(wp1, wp2, width, prev, en, e, i);
      if Covered(p, wp2, width, prev, i) && 0 <= WLane(p, wp2, width, prev, i) < |wp2.en| {
        OverriddenKnown(wp1, wp2, width, prev, e, i);
      }
      if Fires(wp1, wp2, width, prev, e, i) {
      } else if s: nat :| s < sub && Low(s, min) == 0 && Fires(wp1, wp2, width, s, e, i) {
        if s >= prev { OnlyMultiple(prev, s, min); }
      }
    }
  }

  /** An enable that is off stays off. */
  lemma {:induction false} MaskToOff(wp1: MemWr, wp2: MemWr, width: nat, sub: nat, en: Sig, e: Env, i: nat)
    requires Ports(wp1, wp2, width) && i < |en| && Low(sub, MinLog(AsReader(wp1), wp2)) == 0 && Eval(en[i], e) == S0
    ensures Eval(MaskTo(wp1, wp2, width, sub, en)[i], e) == S0
    decreases sub
  {
    hide Eval, Low, Overridden, Covered, WLane, Ports;
    if sub > 0 {
      StepBack(sub, MinLog(AsReader(wp1), wp2));
      MaskToOff(wp1, wp2, width, sub - Pow2(MinLog(AsReader(wp1), wp2)), en, e, i);
    }
  }

  predicate SameActivity(wp1: MemWr, wp2: MemWr) {
    wp1.clkEnable == wp2.clkEnable && (wp1.clkEnable ==> wp1.clk == wp2.clk && wp1.clkPolarity == wp2.clkPolarity)
  }

  /** The loser with all its enables masked. */
  function MaskedPort(wp1: MemWr, wp2: MemWr, width: nat): (wp: MemWr)
    requires Ports(wp1, wp2, width)
    ensures WrShape(wp, width)
  {
    PowAligned(MaxLog(AsReader(wp1), wp2), MinLog(AsReader(wp1), wp2));
    wp1.(en := MaskTo(wp1, wp2, width, Pow2(MaxLog(AsReader(wp1), wp2)), wp1.en))
  }

  lemma LaneWord(wp: MemWr, width: nat, e: Env, w: nat, b: nat)
    requires WrShape(wp, width) && b < width && AddrHit(wp.addr, wp.wideLog2, e, w) == S1
    ensures Word(AsReader(wp), width, e, Lane(width, wp.wideLog2, w, b)) == w &&
        BitOf(width, Lane(width, wp.wideLog2, w, b)) == b
  {
    hide Eval, Low, Flat, SubOf, BitOf;
    FlatSplit(width, Low(w, wp.wideLog2), b);
  }

  lemma MaskedTouches(wp1: MemWr, wp2: MemWr, width: nat, e: Env, w: nat, b: nat)
    requires Ports(wp1, wp2, width) && b < width && WrReady(wp1, e) && WrReady(wp2, e)
    ensures Touches(wp2, width, e, w, b) != Sx
    ensures Touches(MaskedPort(wp1, wp2, width), width, e, w, b) ==
            AndS(Touches(wp1, width, e, w, b), NotS(Touches(wp2, width, e, w, b)))
  {
    hide Eval, Low, Flat, SubOf, BitOf, MaskTo, Fires, Lane;
    var i := Lane(width, wp1.wideLog2, w, b);
    assert EvalSig(wp1.en, e)[i] != Sx && EvalSig(wp2.en, e)[Lane(width, wp2.wideLog2, w, b)] != Sx;
    var max, min := Pow2(MaxLog(AsReader(wp1), wp2)), MinLog(AsReader(wp1), wp2);
    PowAligned(MaxLog(AsReader(wp1), wp2), min);
    if !Known(EvalSig(wp1.addr, e)) {
      MaskToOff(wp1, wp2, width, max, wp1.en, e, i);
    } else if AddrHit(wp1.addr, wp1.wideLog2, e, w) == S1 {
      LaneWord(wp1, width, e, w, b);
      MaskToValue(wp1, wp2, width, max, wp1.en, e, i);
      if Touches(wp2, width, e, w, b) == S1 {
        var s := FiresComplete(wp1, wp2, width, e, i);
      } else if s: nat :| s < max && Low(s, min) == 0 && Fires(wp1, wp2, width, s, e, i) {
        FiresSound(wp1, wp2, width, s, e, i);
      }
    }
  }

  lemma WritesTouches(wp: MemWr, width: nat, e0: Env, e1: Env, w: nat, b: nat)
    requires WrShape(wp, width) && b < width && !wp.removed
    ensures Writes(wp, width, e0, e1, w, b) == AndS(Strobe(wp, e0, e1), Touches(wp, width, e0, w, b))
  {
    hide Eval, Lane, AddrHit, Strobe;
  }

  /** The masked port writes where it did and the winner does not: afterwards the two never enable the same
      stored bit at once. */
  lemma MaskedWrites(wp1: MemWr, wp2: MemWr, width: nat, e0: Env, e1: Env, w: nat, b: nat)
    requires Ports(wp1, wp2, width) && b < width && SameActivity(wp1, wp2) && !wp1.removed && !wp2.removed
    requires WrKnownStep(wp1, e0, e1) && WrKnownStep(wp2, e0, e1)
    ensures Writes(wp2, width, e0, e1, w, b) != Sx
    ensures Writes(MaskedPort(wp1, wp2, width), width, e0, e1, w, b) ==
            AndS(Writes(wp1, width, e0, e1, w, b), NotS(Writes(wp2, width, e0, e1, w, b)))
    ensures WriteData(MaskedPort(wp1, wp2, width), width, e0, w, b) == WriteData(wp1, width, e0, w, b)
  {
    hide Eval, Low, Flat, MaskTo, Touches, Writes, Edge, Lane, WrReady;
    WritesTouches(wp1, width, e0, e1, w, b);
    WritesTouches(wp2, width, e0, e1, w, b);
    WritesTouches(MaskedPort(wp1, wp2, width), width, e0, e1, w, b);
    if Strobe(wp1, e0, e1) == S1 { MaskedTouches(wp1, wp2, width, e0, w, b); }
  }

  /** The memory after priority of `idx2` over `idx1` has been emulated. */
  function Prioritised(m: Ram, idx1: nat, idx2: nat): (n: Ram)
    requires RamShape(m) && idx1 < idx2 < |m.wr| && idx1 < |m.wr[idx2].priority| &&
        Ports(m.wr[idx1], m.wr[idx2], m.width)
    ensures RamShape(n) && |n.wr| == |m.wr|
  {
    var wp1, wp2 := m.wr[idx1], m.wr[idx2];
    m.(wr := m.wr[idx1 := MaskedPort(wp1, wp2, m.width)][idx2 := wp2.(priority := wp2.priority[idx1 := false])])
  }

  predicate Contend(m: Ram, idx1: nat, idx2: nat) {
    && RamShape(m) && idx1 < idx2 < |m.wr| && idx1 < |m.wr[idx2].priority|
    && Ports(m.wr[idx1], m.wr[idx2], m.width) && SameActivity(m.wr[idx1], m.wr[idx2])
    && !m.wr[idx1].removed && !m.wr[idx2].removed
  }

  lemma PrioritisedMasks(m: Ram, idx1: nat, idx2: nat, e0: Env, e1: Env)
    requires Contend(m, idx1, idx2) && WrKnownStep(m.wr[idx1], e0, e1) && WrKnownStep(m.wr[idx2], e0, e1)
    ensures Masked(m, Prioritised(m, idx1, idx2), idx1, idx2, e0, e1)
  {
    hide Eval, Writes, WriteData, MaskedPort, Ports, WrKnownStep, SameActivity;
    forall w: nat, b: nat | b < m.width ensures MaskedAt(m, Prioritised(m, idx1, idx2), idx1, idx2, e0, e1, w, b) {
      MaskedWrites(m.wr[idx1], m.wr[idx2], m.width, e0, e1, w, b);
    }
  }

  /** Emulated priority leaves the contents at every instant as they were. */
  lemma PrioritisedSame(m: Ram, idx1: nat, idx2: nat, envs: seq<Env>)
    requires Contend(m, idx1, idx2) && WrKnown(m, {idx1, idx2}, envs)
    ensures SameWrites(m, Prioritised(m, idx1, idx2), envs)
  {
    hide Eval, AfterWrites, MaskedPort, Masked, WrKnownStep, Ports, SameActivity;
    var n := Prioritised(m, idx1, idx2);
    forall t: nat, w: nat, b: nat, cur: State | t < |envs| - 1 && b < m.width
      ensures StepSame(m, n, envs, t, w, b, cur)
    {
      PrioritisedMasks(m, idx1, idx2, envs[t], envs[t + 1]);
      MaskedSame(m, n, idx1, idx2, |m.wr|, envs[t], envs[t + 1], w, b, cur);
    }
  }

  lemma SameBehind(p: MemRd, m: Ram, n: Ram, envs: seq<Env>, t: nat, e: Env, i: nat)
    requires RamShape(m) && RamShape(n) && SameGeometry(m, n) && SameWrites(m, n, envs) && t < |envs|
    ensures Behind(p, m, envs, t, e, i) == Behind(p, n, envs, t, e, i)
  {
    hide Eval, Stored, SameWrites, SubOf, BitOf, Low;
    SameStored(m, n, envs, t, Word(p, m.width, e, i), BitOf(m.width, i));
  }

  /** Reading through a port that sees the winner is not disturbed by emulated priority. */
  lemma PrioritisedReads(p: MemRd, m: Ram, idx1: nat, idx2: nat, envs: seq<Env>)
    requires Contend(m, idx1, idx2) && WrKnown(m, {idx1, idx2}, envs)
    requires RdShape(p, m.width, |m.wr|) && SeesWinner(p, idx1, idx2)
    requires PortRuns(p, Prioritised(m, idx1, idx2), envs)
    ensures PortRuns(p, m, envs)
  {
    hide Eval, Seen, Stored, Edge, Ports, SameActivity, MaskedPort, SubOf, BitOf, Low, WrKnownStep, SameWrites,
         SeesWinner;
    var n := Prioritised(m, idx1, idx2);
    PrioritisedSame(m, idx1, idx2, envs);
    forall t: nat, i: nat | t < |envs| && i < |p.data|
      ensures Refines(ReadBit(p, m, envs, t, i), Eval(p.data[i], envs[t]))
    {
      forall t: nat | t < |envs| ensures Behind(p, m, envs, t, envs[t], i) == Behind(p, n, envs, t, envs[t], i) {
        SameBehind(p, m, n, envs, t, envs[t], i);
      }
      forall t: nat | t < |envs| - 1 ensures SampleBacked(p, m, i, p, n, i, envs, t) {
        PrioritisedMasks(m, idx1, idx2, envs[t], envs[t + 1]);
        MaskedSeen(p, m, n, idx1, idx2, |m.wr|, envs[t], envs[t + 1], Word(p, m.width, envs[t], i), BitOf(m.width, i),
            Behind(p, m, envs, t, envs[t], i));
      }
      hide ReadBit, Sample, Behind;
      BackedReads(p, m, i, p, n, i, envs, t);
      assert Refines(ReadBit(p, n, envs, t, i), Eval(p.data[i], envs[t]));
    }
  }

  /** Enables stay definite and no new conflict appears, although the ordering between the two is gone. */
  lemma PrioritisedAllowed(m: Ram, idx1: nat, idx2: nat, ks: set<nat>, apart: set<nat>, envs: seq<Env>)
    requires Contend(m, idx1, idx2) && {idx1, idx2} <= ks && WrKnown(m, ks, envs)
    ensures WrKnown(Prioritised(m, idx1, idx2), ks, envs)
    ensures NoConflicts(m, apart, envs) ==> NoConflicts(Prioritised(m, idx1, idx2), apart, envs)
  {
    hide Eval, Writes, WrKnownStep, Masked, MaskedPort, Ports, SameActivity;
    var n := Prioritised(m, idx1, idx2);
    forall t: nat, k: nat | t + 1 < |envs| && k in ks && k < |m.wr| ensures WrKnownStep(n.wr[k], envs[t], envs[t + 1]) {
      assert WrKnownStep(m.wr[k], envs[t], envs[t + 1]) && WrKnownStep(m.wr[idx2], envs[t], envs[t + 1]);
      if k == idx1 {
        MaskedKnown(m.wr[idx1], m.wr[idx2], m.width, envs[t], envs[t + 1]);
      } else {
        KnownUpToPriority(m.wr[k], n.wr[k], envs[t], envs[t + 1]);
      }
    }
    forall t: nat, w: nat, b: nat | NoConflicts(m, apart, envs) && t < |envs| - 1 && b < m.width
      ensures NoConflictAt(n, apart, envs, t, w, b)
    {
      PrioritisedMasks(m, idx1, idx2, envs[t], envs[t + 1]);
      assert NoConflictAt(m, apart, envs, t, w, b);
      MaskedConflicts(m, n, idx1, idx2, apart, envs[t], envs[t + 1], w, b);
    }
  }

  lemma MaskedConflicts(m: Ram, n: Ram, idx1: nat, idx2: nat, apart: set<nat>, e0: Env, e1: Env, w: nat, b: nat)
    requires Contend(m, idx1, idx2) && n == Prioritised(m, idx1, idx2) && b < m.width
    requires Masked(m, n, idx1, idx2, e0, e1) && NoConflict(m, apart, e0, e1, w, b)
    ensures NoConflict(n, apart, e0, e1, w, b)
  {
    hide Eval, Writes, MaskedPort, Ports, SameActivity;
    assert MaskedAt(m, n, idx1, idx2, e0, e1, w, b);
    forall k | 0 <= k < |m.wr| && k != idx1
      ensures Writes(n.wr[k], m.width, e0, e1, w, b) == Writes(m.wr[k], m.width, e0, e1, w, b)
    {
      SameUpToPriority(m.wr[k], n.wr[k], m.width, e0, e1, w, b);
    }
    assert n.wr[idx1].priority == m.wr[idx1].priority by { MaskedPriority(m.wr[idx1], m.wr[idx2], m.width); }
  }

  lemma MaskedPriority(wp1: MemWr, wp2: MemWr, width: nat)
    requires Ports(wp1, wp2, width)
    ensures MaskedPort(wp1, wp2, width) == wp1.(en := MaskedPort(wp1, wp2, width).en)
  {
    hide MaskTo, Ports;
  }

  lemma KnownUpToPriority(wp: MemWr, wp': MemWr, e0: Env, e1: Env)
    requires WrKnownStep(wp, e0, e1) && wp'.(priority := wp.priority) == wp
    ensures WrKnownStep(wp', e0, e1)
  {
    hide Eval, Edge;
  }

  lemma MaskedKnown(wp1: MemWr, wp2: MemWr, width: nat, e0: Env, e1: Env)
    requires Ports(wp1, wp2, width) && SameActivity(wp1, wp2) && !wp1.removed && !wp2.removed
    requires WrKnownStep(wp1, e0, e1) && WrKnownStep(wp2, e0, e1)
    ensures WrKnownStep(MaskedPort(wp1, wp2, width), e0, e1)
  {
    hide Eval, MaskTo, Edge, WrReady, Ports;
    MaskedPriority(wp1, wp2, width);
    if Strobe(wp1, e0, e1) == S1 { MaskedReady(wp1, wp2, width, e0); }
  }

  lemma MaskedReady(wp1: MemWr, wp2: MemWr, width: nat, e: Env)
    requires Ports(wp1, wp2, width) && WrReady(wp1, e) && WrReady(wp2, e)
    ensures WrReady(MaskedPort(wp1, wp2, width), e)
  {
    hide Eval, MaskTo, Low, Fires;
    var wp, max := MaskedPort(wp1, wp2, width), Pow2(MaxLog(AsReader(wp1), wp2));
    PowAligned(MaxLog(AsReader(wp1), wp2), MinLog(AsReader(wp1), wp2));
    forall i | 0 <= i < |wp.en|
      ensures EvalSig(wp.en, e)[i] != Sx && (Eval(wp1.en[i], e) == S0 ==> Eval(wp.en[i], e) == S0)
    {
      assert EvalSig(wp1.en, e)[i] != Sx;
      if Eval(wp1.en[i], e) == S0 {
        MaskToOff(wp1, wp2, width, max, wp1.en, e, i);
      } else {
        MaskToValue(wp1, wp2, width, max, wp1.en, e, i);
      }
    }
  }

  // ---------------------------------------------------------------- building the masks

  function MaskedEnable(addrEq: Bit, en1: Bit, en2: Bit): Bit {
    AndGate(en1, NotGate(AndGate(addrEq, en2)))
  }

  /** One subword: bits with the same pair of enables share the gates. */
  method MaskLayer(wp1: MemWr, wp2: MemWr, width: nat, sub: nat, en: Sig) returns (r: Sig)
    requires Ports(wp1, wp2, width) && |en| == |wp1.data|
    requires sub < Pow2(MaxLog(AsReader(wp1), wp2)) && Low(sub, MinLog(AsReader(wp1), wp2)) == 0
    ensures r == MaskOnce(wp1, wp2, width, sub, en)
  {
    hide Eval, Low, Flat, SubOf, ReadAddr, WriteAddr, ReadOffset, WriteOffset, Covered, WLane, Span, MaskedEnable;
    ghost var p := AsReader(wp1);
    MaskRange(wp1, wp2, width, sub);
    var addrEq := Eq(ReadAddr(AsReader(wp1), wp2, sub), WriteAddr(AsReader(wp1), wp2, sub));
    var ewidth := Span(width, Pow2(MinLog(AsReader(wp1), wp2)));
    var off1, off2 := ReadOffset(AsReader(wp1), wp2, width, sub), WriteOffset(AsReader(wp1), wp2, width, sub);
    var cache: map<(Bit, Bit), Bit> := map[];
    r := en;
    for pos := 0 to ewidth
      invariant |r| == |en|
      invariant forall key :: key in cache ==> cache[key] == MaskedEnable(addrEq, key.0, key.1)
      invariant forall i ::
          0 <= i < |en| ==>
          r[i] == if off1 <= i < off1 + pos then MaskedEnable(addrEq, en[i], wp2.en[off2 + (i - off1)]) else en[i]
    {
      var key := (r[off1 + pos], wp2.en[off2 + pos]);
      if key in cache {
        r := r[off1 + pos := cache[key]];
      } else {
        var masked := MaskedEnable(addrEq, key.0, key.1);
        r, cache := r[off1 + pos := masked], cache[key := masked];
      }
    }
    MaskLayered(wp1, wp2, width, sub, en, r);
  }

  /** The range of the loser's data a subword covers. */
  lemma MaskRange(wp1: MemWr, wp2: MemWr, width: nat, sub: nat)
    requires Ports(wp1, wp2, width) && sub < Pow2(MaxLog(AsReader(wp1), wp2)) &&
        Low(sub, MinLog(AsReader(wp1), wp2)) == 0
    ensures var p := AsReader(wp1);
            var n, r, w := Span(width, Pow2(MinLog(p, wp2))), ReadOffset(p, wp2, width, sub),
                WriteOffset(p, wp2, width, sub);
            && r + n <= |wp1.data| && w + n <= |wp2.data|
            && forall i: nat ::
               i < |wp1.data| ==>
               (Covered(p, wp2, width, sub, i) <==> r <= i < r + n) &&
               (r <= i < r + n ==> WLane(p, wp2, width, sub, i) == w + (i - r))
  {
    hide Low, SubOf, Flat, Span, Pow2, Aligned;
    var p, c := AsReader(wp1), Const(S0);
    var p', wp' := p.(clkEnable := true, clk := c, clkPolarity := true),
        wp2.(clkEnable := true, clk := c, clkPolarity := true, removed := false);
    assert Paired(p', wp', width);
    LayerRange(p', wp', width, sub);
    forall i: nat | i < |wp1.data| ensures Covered(p, wp2, width, sub, i) == Covered(p', wp', width, sub, i) &&
        WLane(p, wp2, width, sub, i) == WLane(p', wp', width, sub, i) { }
  }

  lemma MaskLayered(wp1: MemWr, wp2: MemWr, width: nat, sub: nat, en: Sig, r: Sig)
    requires Ports(wp1, wp2, width) && |en| == |wp1.data| == |r|
    requires sub < Pow2(MaxLog(AsReader(wp1), wp2)) && Low(sub, MinLog(AsReader(wp1), wp2)) == 0
    requires var p := AsReader(wp1);
             var n, off1, off2 := Span(width, Pow2(MinLog(p, wp2))), ReadOffset(p, wp2, width, sub),
                 WriteOffset(p, wp2, width, sub);
             && off1 + n <= |en| && off2 + n <= |wp2.en|
             && var addrEq := Eq(ReadAddr(p, wp2, sub), WriteAddr(p, wp2, sub));
                forall i :: 0 <= i < |en| ==>
                  r[i] == if off1 <= i < off1 + n then MaskedEnable(addrEq, en[i], wp2.en[off2 + (i - off1)]) else en[i]
    ensures r == MaskOnce(wp1, wp2, width, sub, en)
  {
    hide Eval, Below, Low, Flat, SubOf, ReadAddr, WriteAddr, ReadOffset, WriteOffset, Covered, WLane, Span;
    MaskRange(wp1, wp2, width, sub);
    forall i | 0 <= i < |en| ensures r[i] == MaskOnce(wp1, wp2, width, sub, en)[i] { }
  }

  /** The loser's enables with every subword masked. */
  method MaskAll(wp1: MemWr, wp2: MemWr, width: nat) returns (en: Sig)
    requires Ports(wp1, wp2, width)
    ensures en == MaskedPort(wp1, wp2, width).en
  {
    hide Eval, Low, MaskOnce, Pow2, Aligned;
    var min, max := MinLog(AsReader(wp1), wp2), MaxLog(AsReader(wp1), wp2);
    PowAligned(max, min);
    PowAligned(min, min);
    LowOfSmall(0, min);
    en := wp1.en;
    var sub := 0;
    while sub < Pow2(max)
      invariant sub <= Pow2(max) && Low(sub, min) == 0 && |en| == |wp1.en| == |wp1.data|
      invariant en == MaskTo(wp1, wp2, width, sub, wp1.en)
    {
      en := MaskLayer(wp1, wp2, width, sub, en);
      AlignedAdd(sub, min, Pow2(min), min);
      if Pow2(max) < sub + Pow2(min) { OnlyMultiple(sub, Pow2(max), min); }
      sub := sub + Pow2(min);
    }
  }
}
