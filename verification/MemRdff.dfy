/**
 Turning a clocked read port into an asynchronous one: the register moves to the data output, behind
 multiplexers that stand in for the port's transparency and collision behaviour, or, for a port that is
 transparent to every writer and has neither enable nor reset nor initial value, to the address input.
 */
module MemRdff {
  import opened Signals
  import opened FlipFlops
  import opened Lanes
  import opened MemPorts
  import opened MemReadControl
  import opened MemTransparency

  // ---------------------------------------------------------------- register on the data output

  /** One layer of multiplexers over a data vector. */
  function Overlay(p: MemRd, wp: MemWr, width: nat, src: Sig, sub: nat, d: Sig): (r: Sig)
    requires Paired(p, wp, width) && |src| == |wp.data| && |d| == |p.data|
    ensures |r| == |d|
  {
    seq(|d|, i requires 0 <= i < |d| => OverlayBit(p, wp, width, src, sub, d[i], i))
  }

  function OverlayBit(p: MemRd, wp: MemWr, width: nat, src: Sig, sub: nat, d: Bit, i: nat): Bit
    requires Paired(p, wp, width) && |src| == |wp.data|
  {
    var j := WLane(p, wp, width, sub, i);
    if Covered(p, wp, width, sub, i) && 0 <= j < |src| then MuxGate(d, src[j], LayerCond(p, wp, width, sub, i)) else d
  }

  /** The layers of all subwords below `sub`, the last one outermost. */
  function OverlayTo(p: MemRd, wp: MemWr, width: nat, src: Sig, sub: nat, d: Sig): (r: Sig)
    requires Paired(p, wp, width) && |src| == |wp.data| && |d| == |p.data| && Low(sub, MinLog(p, wp)) == 0
    ensures |r| == |d|
    decreases sub
  {
    if sub == 0 then d else
      StepBack(sub, MinLog(p, wp));
      var prev := sub - Pow2(MinLog(p, wp));
      Overlay(p, wp, width, src, prev, OverlayTo(p, wp, width, src, prev, d))
  }

  /** The write data a layer shows: the written data, or a don't-care where a collision is undefined. */
  function BypassSource(p: MemRd, wp: MemWr, k: nat): (s: Sig)
    requires k < |p.transparency|
    ensures |s| == |wp.data|
  {
    if p.transparency[k] then wp.data else Fill(Sx, |wp.data|)
  }

  /** The data vector after the first `n` write ports have been taken into account. */
  function DataAfter(p: MemRd, m: Ram, n: nat, d: Sig): (r: Sig)
    requires RamShape(m) && RdShape(p, m.width, |m.wr|) && n <= |m.wr| && |d| == |p.data| && Bypassable(p, m)
    ensures |r| == |d|
  {
    if n == 0 then d else
      var wp, rest := m.wr[n - 1], DataAfter(p, m, n - 1, d);
      if wp.removed || !(p.transparency[n - 1] || p.collisionX[n - 1]) then rest
      else
        AllSubs(p, wp);
        OverlayTo(p, wp, m.width, BypassSource(p, wp, n - 1), Pow2(MaxLog(p, wp)), rest)
  }

  lemma AllSubs(p: MemRd, wp: MemWr)
    ensures Low(Pow2(MaxLog(p, wp)), MinLog(p, wp)) == 0
  {
    PowAligned(MaxLog(p, wp), MinLog(p, wp));
  }

  /** The writers the masks mention. */
  function SeenBy(p: MemRd): set<nat> {
    set k: nat | k < |p.transparency| && k < |p.collisionX| && (p.transparency[k] || p.collisionX[k])
  }

  /** What `check` demands of every writer the masks mention. */
  predicate Bypassable(p: MemRd, m: Ram)
    requires RamShape(m) && RdShape(p, m.width, |m.wr|)
  {
    forall k ::
        0 <= k < |m.wr| && !m.wr[k].removed && (p.transparency[k] || p.collisionX[k]) ==> Paired(p, m.wr[k], m.width)
  }

  /** Over the layers below `sub` a bit keeps its value unless some layer fires, and then shows its source. */
  lemma {:induction false} OverlayValue(p: MemRd, wp: MemWr, width: nat, src: Sig, sub: nat, d: Sig, e0: Env, e1: Env,
      i: nat) returns (hit: nat)
    requires Paired(p, wp, width) && |src| == |wp.data| && |d| == |p.data| && Low(sub, MinLog(p, wp)) == 0 &&
        sub <= Pow2(MaxLog(p, wp))
    requires i < |p.data| && Known(EvalSig(p.addr, e0)) && WrReady(wp, e0)
    requires Edge(p.clk, p.clkPolarity, e0, e1) == S1
    ensures if hit < sub
            then Low(hit, MinLog(p, wp)) == 0 && HitOf(p, wp, width, hit, e0, i) == S1 &&
                 Eval(OverlayTo(p, wp, width, src, sub, d)[i], e0) == SourceOf(p, wp, width, hit, src, e0, i)
            else Eval(OverlayTo(p, wp, width, src, sub, d)[i], e0) == Eval(d[i], e0) &&
                 forall s: nat :: s < sub && Low(s, MinLog(p, wp)) == 0 ==> HitOf(p, wp, width, s, e0, i) == S0
    decreases sub
  {
    hide Eval, Low, Flat, SubOf, BitOf, Edge, LayerCond, WrReady, Covered;
    var min := MinLog(p, wp);
    hit := sub;
    if sub > 0 {
      StepBack(sub, min);
      var prev := sub - Pow2(min);
      hit := OverlayValue(p, wp, width, src, prev, d, e0, e1, i);
      HitSound(p, wp, width, prev, e0, e1, i);
      if HitOf(p, wp, width, prev, e0, i) == S1 {
        hit := prev;
      } else if hit >= prev {
        hit := sub;
        forall s: nat | s < sub && Low(s, min) == 0 ensures HitOf(p, wp, width, s, e0, i) == S0 {
          if s >= prev { OnlyMultiple(prev, s, min); }
        }
      }
    }
  }

  /** The built data vector shows what the port samples at an edge. */
  lemma {:induction false} DataAfterRefines(p: MemRd, m: Ram, n: nat, d: Sig, e0: Env, e1: Env, i: nat, cur: State)
    requires RamShape(m) && RdShape(p, m.width, |m.wr|) && n <= |m.wr| && |d| == |p.data| && Bypassable(p, m) &&
        i < |p.data|
    requires Known(EvalSig(p.addr, e0)) && Edge(p.clk, p.clkPolarity, e0, e1) == S1
    requires forall k :: k in SeenBy(p) && k < |m.wr| && !m.wr[k].removed ==> WrReady(m.wr[k], e0)
    requires Refines(cur, Eval(d[i], e0))
    ensures Refines(Seen(p, m, n, e0, e1, Word(p, m.width, e0, i), BitOf(m.width, i), cur),
        Eval(DataAfter(p, m, n, d)[i], e0))
  {
    hide Eval, Low, Flat, SubOf, BitOf, Edge, OverlayTo, HitOf, SourceOf, Writes, WriteData, Word, WrReady,
         Paired;
    if n > 0 {
      DataAfterRefines(p, m, n - 1, d, e0, e1, i, cur);
      var wp, w, b := m.wr[n - 1], Word(p, m.width, e0, i), BitOf(m.width, i);
      if wp.removed {
        RemovedIdle(wp, m.width, e0, e1, w, b);
      } else if p.transparency[n - 1] || p.collisionX[n - 1] {
        AllSubs(p, wp);
        var hit := OverlayValue(p, wp, m.width, BypassSource(p, wp, n - 1), Pow2(MaxLog(p, wp)),
            DataAfter(p, m, n - 1, d), e0, e1, i);
        if hit < Pow2(MaxLog(p, wp)) {
          HitSound(p, wp, m.width, hit, e0, e1, i);
        } else {
          NoLayerNoWrite(p, wp, m.width, e0, e1, i);
        }
      }
    }
  }

  lemma NoLayerNoWrite(p: MemRd, wp: MemWr, width: nat, e0: Env, e1: Env, i: nat)
    requires Paired(p, wp, width) && i < |p.data| && Known(EvalSig(p.addr, e0)) && WrReady(wp, e0)
    requires Edge(p.clk, p.clkPolarity, e0, e1) == S1
    requires forall s: nat ::
        s < Pow2(MaxLog(p, wp)) && Low(s, MinLog(p, wp)) == 0 ==> HitOf(p, wp, width, s, e0, i) == S0
    ensures Writes(wp, width, e0, e1, Word(p, width, e0, i), BitOf(width, i)) == S0
  {
    var w, b := Word(p, width, e0, i), BitOf(width, i);
    assert Writes(wp, width, e0, e1, w, b) != Sx by {
      hide Eval, Lane, Word, BitOf, Edge, WrReady;
      WritesKnown(wp, width, e0, e1, w, b);
    }
    hide Eval, Low, HitOf, Writes;
    if Writes(wp, width, e0, e1, w, b) == S1 {
      var s := HitComplete(p, wp, width, e0, e1, i);
    }
  }

  /** The asynchronous port left behind. */
  predicate IsAsync(p: MemRd, q: MemRd) {
    !q.clkEnable && q.wideLog2 == p.wideLog2 && |q.data| == |p.data| && |q.addr| == |p.addr|
  }

  function OutputFf(p: MemRd, d: Sig): (f: Ff)
    requires |d| == |p.data| == |p.arstValue| == |p.srstValue| == |p.initValue|
    ensures f.Valid() && f.width == |p.data| && f.sigQ == p.data && f.valInit == p.initValue
  {
    PortFf(p, true, p.data, d, p.arstValue, p.srstValue, p.initValue)
  }

  lemma OutputFfStep(p: MemRd, d: Sig, envs: seq<Env>, t: nat, i: nat)
    requires |d| == |p.data| == |p.arstValue| == |p.srstValue| == |p.initValue| && i < |p.data| && t < |envs|
    requires IsRun(Net(OutputFf(p, d), [], 0), envs)
    ensures t == 0 ==> Eval(p.data[i], envs[0]) == p.initValue[i]
    ensures t > 0 ==>
              Eval(p.data[i], envs[t]) ==
              PortNext(p, envs[t - 1], envs[t], p.arstValue[i], p.srstValue[i],
                       Eval(d[i], envs[t - 1]), Eval(p.data[i], envs[t - 1]))
  {
    hide Eval, Next, PortNext;
    var f := OutputFf(p, d);
    if t == 0 {
      assert Eval(f.sigQ[i], envs[0]) == f.valInit[i];
    } else {
      assert StepTaken(f, envs, t - 1, i);
      PortFfNext(p, true, p.data, d, p.arstValue, p.srstValue, p.initValue, envs[t - 1], envs[t], i);
    }
  }

  lemma SampleShown(p: MemRd, q: MemRd, m: Ram, envs: seq<Env>, t: nat, i: nat)
    requires RamShape(m) && RdShape(p, m.width, |m.wr|) && RdShape(q, m.width, |m.wr|) && Bypassable(p, m)
    requires IsAsync(p, q) && q.addr == p.addr && WrKnown(m, SeenBy(p), envs) && PortRuns(q, m, envs)
    requires t + 1 < |envs| && i < |p.data| && Edge(p.clk, p.clkPolarity, envs[t], envs[t + 1]) == S1
    ensures Refines(Sample(p, m, envs, t, i), Eval(DataAfter(p, m, |m.wr|, q.data)[i], envs[t]))
  {
    hide Eval, Seen, Stored, DataAfter, Low, SubOf, BitOf, Edge, WrReady, Paired;
    forall k | k in SeenBy(p) && k < |m.wr| && !m.wr[k].removed ensures WrReady(m.wr[k], envs[t]) {
      PairedReady(p, m.wr[k], m, envs, t, k);
    }
    assert Refines(ReadBit(q, m, envs, t, i), Eval(q.data[i], envs[t]));
    assert Behind(p, m, envs, t, envs[t], i) == Behind(q, m, envs, t, envs[t], i);
    if InRange(p, m, envs[t], i) {
      DataAfterRefines(p, m, |m.wr|, q.data, envs[t], envs[t + 1], i, Behind(p, m, envs, t, envs[t], i));
    }
  }

  lemma {:induction false} OutputTracks(p: MemRd, q: MemRd, m: Ram, envs: seq<Env>, t: nat, i: nat)
    requires RamShape(m) && RdShape(p, m.width, |m.wr|) && RdShape(q, m.width, |m.wr|) && Bypassable(p, m) &&
        p.clkEnable
    requires IsAsync(p, q) && q.addr == p.addr && RdKnown(p, envs) && WrKnown(m, SeenBy(p), envs)
    requires PortRuns(q, m, envs)
    requires IsRun(Net(OutputFf(p, DataAfter(p, m, |m.wr|, q.data)), [], 0), envs) && t < |envs| && i < |p.data|
    ensures Refines(ReadBit(p, m, envs, t, i), Eval(p.data[i], envs[t]))
    decreases t
  {
    hide Eval, Sample, PortNext, DataAfter, IsRun, OutputFf, RdKnownStep, WrKnown, PortRuns, Bypassable;
    var d := DataAfter(p, m, |m.wr|, q.data);
    OutputFfStep(p, d, envs, t, i);
    if t > 0 {
      var e0, e1 := envs[t - 1], envs[t];
      OutputTracks(p, q, m, envs, t - 1, i);
      if ChoiceOf(p, e0, e1) == Load { SampleShown(p, q, m, envs, t - 1, i); }
      PortPicks(p, e0, e1, p.arstValue[i], p.srstValue[i], Sample(p, m, envs, t - 1, i), ReadBit(p, m, envs, t - 1, i));
      PortPicks(p, e0, e1, p.arstValue[i], p.srstValue[i], Eval(d[i], e0), Eval(p.data[i], e0));
    }
  }

  /** Moving the register to the data output keeps the port. */
  lemma OutputRdffRefines(p: MemRd, q: MemRd, m: Ram, ffs: seq<Ff>, cells: Cells, envs: seq<Env>)
    requires RamShape(m) && RdShape(p, m.width, |m.wr|) && RdShape(q, m.width, |m.wr|) && Bypassable(p, m) &&
        p.clkEnable
    requires IsAsync(p, q) && q.addr == p.addr && OutputFf(p, DataAfter(p, m, |m.wr|, q.data)) in ffs
    requires RdKnown(p, envs) && WrKnown(m, SeenBy(p), envs) && SoftRuns(ffs, cells, envs) && PortRuns(q, m, envs)
    ensures PortRuns(p, m, envs)
  {
    hide Eval, ReadBit, DataAfter, OutputFf, RdKnown, WrKnown, SoftRuns, Bypassable, Ff.Valid, IsRun;
    SoftFf(ffs, cells, envs, OutputFf(p, DataAfter(p, m, |m.wr|, q.data)));
    forall t: nat, i: nat | t < |envs| && i < |p.data|
      ensures Refines(ReadBit(p, m, envs, t, i), Eval(p.data[i], envs[t]))
    {
      OutputTracks(p, q, m, envs, t, i);
    }
  }

  // ---------------------------------------------------------------- register on the address input

  /** When the register may move to the address: no enable, reset or initial value, and transparent to all. */
  predicate UsesAddress(p: MemRd, m: Ram)
    requires |p.transparency| == |m.wr|
  {
    && |m.wr| > 0 && (forall k :: 0 <= k < |m.wr| ==> p.transparency[k] || m.wr[k].removed)
    && p.en == Const(S1) && p.srst == Const(S0) && p.arst == Const(S0) && AllX(p.initValue)
  }

  /** Constant address bits stay, the others are registered. */
  predicate AddressRegistered(p: MemRd, q: MemRd, ffs: seq<Ff>)
    requires |q.addr| == |p.addr|
  {
    forall j ::
        0 <= j < |p.addr| ==>
        if p.addr[j].Const? then q.addr[j] == p.addr[j] else AddressFf(p, q.addr[j], p.addr[j], ffs)
  }

  /** Some register of the port's clock domain holds this address bit. */
  predicate AddressFf(p: MemRd, q: Bit, d: Bit, ffs: seq<Ff>) {
    exists k :: 0 <= k < |ffs| && HoldsBit(p, ffs[k], q, d)
  }

  predicate HoldsBit(p: MemRd, f: Ff, q: Bit, d: Bit) {
    && |f.sigQ| == |f.sigD|
    && f == PortFf(p, true, f.sigQ, f.sigD, seq(|f.sigQ|, _ => Sx), seq(|f.sigQ|, _ => Sx), seq(|f.sigQ|, _ => Sx))
    && exists j :: 0 <= j < |f.sigQ| && f.sigQ[j] == q && f.sigD[j] == d
  }

  /** A registered address bit is unknown at the start, then follows the address at every edge. */
  lemma AddressBitStep(p: MemRd, q: MemRd, ffs: seq<Ff>, cells: Cells, envs: seq<Env>, t: nat, j: nat)
    requires |q.addr| == |p.addr| && AddressRegistered(p, q, ffs) && SoftRuns(ffs, cells, envs)
    requires p.clkEnable && RdKnown(p, envs) && p.en == Const(S1) && p.srst == Const(S0) && p.arst == Const(S0)
    requires j < |p.addr| && 0 < t < |envs|
    ensures var edge := Edge(p.clk, p.clkPolarity, envs[t - 1], envs[t]);
            && (edge == S1 ==> Eval(q.addr[j], envs[t]) == Eval(p.addr[j], envs[t - 1]))
            && (edge != S1 ==> Eval(q.addr[j], envs[t]) == Eval(q.addr[j], envs[t - 1]))
  {
    if p.addr[j].Const? {
      ConstEval(p.addr[j].s, envs[t]);
      ConstEval(p.addr[j].s, envs[t - 1]);
    } else {
      hide Eval, Next, PortNext, Edge, Consistent;
      assert AddressFf(p, q.addr[j], p.addr[j], ffs);
      var k :| 0 <= k < |ffs| && HoldsBit(p, ffs[k], q.addr[j], p.addr[j]);
      var f := ffs[k];
      var i :| 0 <= i < |f.sigQ| && f.sigQ[i] == q.addr[j] && f.sigD[i] == p.addr[j];
      var e0, e1, x := envs[t - 1], envs[t], seq(|f.sigQ|, _ => Sx);
      assert RdKnownStep(p, e0, e1);
      assert StepTaken(f, envs, t - 1, i);
      PortFfNext(p, true, f.sigQ, f.sigD, x, x, x, e0, e1, i);
      FreeRunning(p, e0, e1, Sx, Sx, Eval(p.addr[j], e0), Eval(q.addr[j], e0));
    }
  }

  lemma AddressStep(p: MemRd, q: MemRd, ffs: seq<Ff>, cells: Cells, envs: seq<Env>, t: nat)
    requires |q.addr| == |p.addr| && AddressRegistered(p, q, ffs) && SoftRuns(ffs, cells, envs)
    requires p.clkEnable && RdKnown(p, envs) && p.en == Const(S1) && p.srst == Const(S0) && p.arst == Const(S0)
    requires 0 < t < |envs|
    ensures EvalSig(q.addr, envs[t]) ==
            if Edge(p.clk, p.clkPolarity, envs[t - 1], envs[t]) == S1 then EvalSig(p.addr, envs[t - 1])
            else EvalSig(q.addr, envs[t - 1])
  {
    hide Eval, Edge, SoftRuns, RdKnown, AddressRegistered;
    forall j | 0 <= j < |p.addr|
      ensures EvalSig(q.addr, envs[t])[j] ==
              if Edge(p.clk, p.clkPolarity, envs[t - 1], envs[t]) == S1 then EvalSig(p.addr, envs[t - 1])[j]
              else EvalSig(q.addr, envs[t - 1])[j]
    {
      AddressBitStep(p, q, ffs, cells, envs, t, j);
    }
  }

  /** A port transparent to every writer samples the contents after the edge. */
  lemma {:induction false} SeenAll(p: MemRd, m: Ram, n: nat, e0: Env, e1: Env, w: nat, b: nat, cur: State)
    requires RamShape(m) && RdShape(p, m.width, |m.wr|) && n <= |m.wr| && b < m.width
    requires forall k :: 0 <= k < |m.wr| ==> p.transparency[k] || m.wr[k].removed
    ensures Seen(p, m, n, e0, e1, w, b, cur) == AfterWrites(m, n, e0, e1, w, b, cur)
  {
    hide Writes, WriteData;
    if n > 0 {
      SeenAll(p, m, n - 1, e0, e1, w, b, cur);
      if m.wr[n - 1].removed { RemovedIdle(m.wr[n - 1], m.width, e0, e1, w, b); }
    }
  }

  lemma NoEdgeNoWrite(wp: MemWr, width: nat, e0: Env, e1: Env, w: nat, b: nat)
    requires WrShape(wp, width) && b < width &&
        (wp.removed || (wp.clkEnable && Edge(wp.clk, wp.clkPolarity, e0, e1) == S0))
    ensures Writes(wp, width, e0, e1, w, b) == S0
  {
    hide Eval, Edge;
  }

  /** Without an edge the contents stay. */
  lemma {:induction false} QuietWrites(p: MemRd, m: Ram, n: nat, e0: Env, e1: Env, w: nat, b: nat, cur: State)
    requires RamShape(m) && RdShape(p, m.width, |m.wr|) && n <= |m.wr| && b < m.width && Bypassable(p, m)
    requires forall k :: 0 <= k < |m.wr| ==> p.transparency[k] || m.wr[k].removed
    requires Edge(p.clk, p.clkPolarity, e0, e1) == S0
    ensures AfterWrites(m, n, e0, e1, w, b, cur) == cur
  {
    hide Writes, WriteData, Edge;
    if n > 0 {
      QuietWrites(p, m, n - 1, e0, e1, w, b, cur);
      NoEdgeNoWrite(m.wr[n - 1], m.width, e0, e1, w, b);
    }
  }

  /** A port without enable and resets loads at every edge and holds otherwise. */
  lemma FreeRunning(p: MemRd, e0: Env, e1: Env, av: State, sv: State, data: State, hold: State)
    requires p.en == Const(S1) && p.srst == Const(S0) && p.arst == Const(S0) && p.clkEnable && RdKnownStep(p, e0, e1)
    ensures Edge(p.clk, p.clkPolarity, e0, e1) != Sx
    ensures PortNext(p, e0, e1, av, sv, data, hold) == if Edge(p.clk, p.clkPolarity, e0, e1) == S1 then data else hold
  {
    ConstEval(S1, e0);
    ConstEval(S0, e0);
    ConstEval(S0, e1);
    hide Eval, Edge;
    PortPicks(p, e0, e1, av, sv, data, hold);
  }

  lemma {:induction false} AddressTracks(p: MemRd, q: MemRd, m: Ram, ffs: seq<Ff>, cells: Cells, envs: seq<Env>,
      t: nat, i: nat)
    requires RamShape(m) && RdShape(p, m.width, |m.wr|) && Bypassable(p, m) && p.clkEnable && UsesAddress(p, m)
    requires IsAsync(p, q) && AddressRegistered(p, q, ffs) && SoftRuns(ffs, cells, envs) && RdKnown(p, envs) &&
        t < |envs| && i < |p.data|
    ensures Refines(ReadBit(p, m, envs, t, i), Behind(q, m, envs, t, envs[t], i))
    decreases t
  {
    hide Eval, Seen, AfterWrites, PortNext, Low, SubOf, BitOf, Edge, RdKnownStep, AddressRegistered, SoftRuns,
         Bypassable;
    if t > 0 {
      var e0, e1 := envs[t - 1], envs[t];
      var w, b := Word(q, m.width, e1, i), BitOf(m.width, i);
      AddressTracks(p, q, m, ffs, cells, envs, t - 1, i);
      AddressStep(p, q, ffs, cells, envs, t);
      FreeRunning(p, e0, e1, p.arstValue[i], p.srstValue[i], Sample(p, m, envs, t - 1, i),
          ReadBit(p, m, envs, t - 1, i));
      if Edge(p.clk, p.clkPolarity, e0, e1) == S1 {
        SeenAll(p, m, |m.wr|, e0, e1, w, b, Stored(m, envs, t - 1, w, b));
      } else {
        QuietWrites(p, m, |m.wr|, e0, e1, w, b, Stored(m, envs, t - 1, w, b));
      }
    }
  }

  /** Moving the register to the address input keeps the port. */
  lemma AddressRdffRefines(p: MemRd, q: MemRd, m: Ram, ffs: seq<Ff>, cells: Cells, envs: seq<Env>)
    requires RamShape(m) && RdShape(p, m.width, |m.wr|) && RdShape(q, m.width, |m.wr|) && Bypassable(p, m) &&
        p.clkEnable && UsesAddress(p, m)
    requires IsAsync(p, q) && q.data == p.data && AddressRegistered(p, q, ffs)
    requires RdKnown(p, envs) && SoftRuns(ffs, cells, envs) && PortRuns(q, m, envs)
    ensures PortRuns(p, m, envs)
  {
    hide Eval, Behind, RdKnown, SoftRuns, AddressRegistered, Bypassable, UsesAddress;
    forall t: nat, i: nat | t < |envs| && i < |p.data|
      ensures Refines(ReadBit(p, m, envs, t, i), Eval(p.data[i], envs[t]))
    {
      AddressTracks(p, q, m, ffs, cells, envs, t, i);
      assert Refines(ReadBit(q, m, envs, t, i), Eval(q.data[i], envs[t]));
    }
  }

  // ---------------------------------------------------------------- building the data vector

  /** One layer, group by group: bits that share a write enable share the comparison. */
  method OverlayLayer(p: MemRd, wp: MemWr, width: nat, src: Sig, sub: nat, d: Sig) returns (r: Sig)
    requires Paired(p, wp, width) && |src| == |wp.data| && |d| == |p.data|
    requires sub < Pow2(MaxLog(p, wp)) && Low(sub, MinLog(p, wp)) == 0
    ensures r == Overlay(p, wp, width, src, sub, d)
  {
    hide Eval, Low, Flat, SubOf, CondOf, ReadAddr, WriteAddr, ReadOffset, WriteOffset, Covered, WLane, Span;
    LayerRange(p, wp, width, sub);
    var raddr, waddr := ReadAddr(p, wp, sub), WriteAddr(p, wp, sub);
    var ewidth, rOff, wOff := Span(width, Pow2(MinLog(p, wp))), ReadOffset(p, wp, width, sub),
        WriteOffset(p, wp, width, sub);
    r := d;
    var pos := 0;
    while pos < ewidth
      invariant pos <= ewidth && |r| == |d|
      invariant OverlaidTo(d, r, src, wp.en, raddr, waddr, rOff, wOff, pos)
    {
      var epos := pos + 1;
      while epos < ewidth && wp.en[wOff + epos] == wp.en[wOff + pos]
        invariant pos < epos <= ewidth
        invariant forall y :: wOff + pos <= y < wOff + epos ==> wp.en[y] == wp.en[wOff + pos]
      {
        epos := epos + 1;
      }
      var merged := MuxSig(r[rOff + pos..rOff + epos], src[wOff + pos..wOff + epos],
          CondOf(raddr, waddr, wp.en[wOff + pos]));
      OverlaidGroup(d, r, src, wp.en, raddr, waddr, rOff, wOff, pos, epos);
      r := r[..rOff + pos] + merged + r[rOff + epos..];
      pos := epos;
    }
    LayerOverlaid(p, wp, width, src, sub, d, r);
  }

  function Overlaid(d: Bit, src: Sig, en: Sig, raddr: Sig, waddr: Sig, j: nat): Bit
    requires j < |src| == |en|
  {
    MuxGate(d, src[j], CondOf(raddr, waddr, en[j]))
  }

  /** The first `n` bits of a layer's range are done. */
  predicate OverlaidTo(d: Sig, r: Sig, src: Sig, en: Sig, raddr: Sig, waddr: Sig, rOff: nat, wOff: nat, n: nat)
    requires |r| == |d| && rOff + n <= |d| && wOff + n <= |src| && |en| == |src|
  {
    forall i :: 0 <= i < |d| ==>
      r[i] == if rOff <= i < rOff + n then Overlaid(d[i], src, en, raddr, waddr, wOff + (i - rOff)) else d[i]
  }

  lemma OverlaidGroup(d: Sig, r: Sig, src: Sig, en: Sig, raddr: Sig, waddr: Sig, rOff: nat, wOff: nat, pos: nat,
      epos: nat)
    requires |r| == |d| && pos < epos && rOff + epos <= |d| && wOff + epos <= |src| && |en| == |src|
    requires OverlaidTo(d, r, src, en, raddr, waddr, rOff, wOff, pos)
    requires forall y :: wOff + pos <= y < wOff + epos ==> en[y] == en[wOff + pos]
    ensures var merged := MuxSig(r[rOff + pos..rOff + epos], src[wOff + pos..wOff + epos],
        CondOf(raddr, waddr, en[wOff + pos]));
            OverlaidTo(d, r[..rOff + pos] + merged + r[rOff + epos..], src, en, raddr, waddr, rOff, wOff, epos)
  {
    hide Eval, Below, CondOf;
    var cond := CondOf(raddr, waddr, en[wOff + pos]);
    var merged := MuxSig(r[rOff + pos..rOff + epos], src[wOff + pos..wOff + epos], cond);
    var r' := r[..rOff + pos] + merged + r[rOff + epos..];
    forall i | 0 <= i < |d|
      ensures r'[i] ==
              if rOff <= i < rOff + epos then Overlaid(d[i], src, en, raddr, waddr, wOff + (i - rOff)) else d[i]
    {
      if rOff + pos <= i < rOff + epos {
        assert r'[i] == merged[i - rOff - pos] == MuxGate(r[i], src[wOff + (i - rOff)], cond);
      }
    }
  }

  lemma LayerOverlaid(p: MemRd, wp: MemWr, width: nat, src: Sig, sub: nat, d: Sig, r: Sig)
    requires Paired(p, wp, width) && |src| == |wp.data| && |d| == |p.data| == |r|
    requires sub < Pow2(MaxLog(p, wp)) && Low(sub, MinLog(p, wp)) == 0
    requires var n, rOff, wOff := Span(width, Pow2(MinLog(p, wp))), ReadOffset(p, wp, width, sub),
        WriteOffset(p, wp, width, sub);
             rOff + n <= |d| && wOff + n <= |src| &&
                 OverlaidTo(d, r, src, wp.en, ReadAddr(p, wp, sub), WriteAddr(p, wp, sub), rOff, wOff, n)
    ensures r == Overlay(p, wp, width, src, sub, d)
  {
    hide Eval, Below, Low, Flat, SubOf, CondOf, ReadAddr, WriteAddr, ReadOffset, WriteOffset, Covered, WLane, Aligned;
    LayerRange(p, wp, width, sub);
    forall i | 0 <= i < |d| ensures r[i] == Overlay(p, wp, width, src, sub, d)[i] { }
  }

  /** All layers of one write port. */
  method OverlayWriter(p: MemRd, wp: MemWr, width: nat, src: Sig, d: Sig) returns (r: Sig)
    requires Paired(p, wp, width) && |src| == |wp.data| && |d| == |p.data|
    ensures Low(Pow2(MaxLog(p, wp)), MinLog(p, wp)) == 0
    ensures r == OverlayTo(p, wp, width, src, Pow2(MaxLog(p, wp)), d)
  {
    hide Eval, Low, Overlay, Pow2, Paired;
    var min, max := MinLog(p, wp), MaxLog(p, wp);
    AllSubs(p, wp);
    LowOfSmall(0, min);
    r := d;
    var sub := 0;
    while sub < Pow2(max)
      invariant sub <= Pow2(max) && Low(sub, min) == 0 && |r| == |d|
      invariant r == OverlayTo(p, wp, width, src, sub, d)
    {
      r := OverlayLayer(p, wp, width, src, sub, r);
      PowAligned(min, min);
      AlignedAdd(sub, min, Pow2(min), min);
      if Pow2(max) < sub + Pow2(min) { OnlyMultiple(sub, Pow2(max), min); }
      sub := sub + Pow2(min);
    }
  }

  /** The overlay depends on the writers only. */
  lemma {:induction false} DataAfterInit(p: MemRd, m: Ram, m': Ram, n: nat, d: Sig)
    requires RamShape(m) && m' == m.(init := m'.init) && RdShape(p, m.width, |m.wr|) && n <= |m.wr| &&
        |d| == |p.data| && Bypassable(p, m)
    ensures RamShape(m') && Bypassable(p, m') && DataAfter(p, m', n, d) == DataAfter(p, m, n, d)
  {
    hide Paired, OverlayTo;
    if n > 0 { DataAfterInit(p, m, m', n - 1, d); }
  }

  /** The port a register has been taken out of. */
  function Asynchronous(p: MemRd, addr: Sig, data: Sig): MemRd {
    var x, none := seq(|data|, _ => Sx), seq(|p.transparency|, _ => false);
    p.(en := Const(S1), clk := Const(S0), arst := Const(S0), srst := Const(S0),
       clkEnable := false, clkPolarity := true, ceOverSrst := false,
       arstValue := x, srstValue := x, initValue := x, transparency := none, collisionX := none,
       addr := addr, data := data)
  }

  /** Nothing of clock, enable, resets, initial value and masks is left; the rest stays. */
  lemma NoClock(p: MemRd, addr: Sig, data: Sig)
    ensures var q := Asynchronous(p, addr, data);
            && q.addr == addr && q.data == data && q.removed == p.removed && q.wideLog2 == p.wideLog2
            && !q.clkEnable && q.clk == Const(S0) && q.clkPolarity && !q.ceOverSrst
            && q.en == Const(S1) && q.arst == Const(S0) && q.srst == Const(S0)
            && |q.initValue| == |q.arstValue| == |q.srstValue| == |data|
            && (forall i :: 0 <= i < |data| ==> q.initValue[i] == q.arstValue[i] == q.srstValue[i] == Sx)
            && |q.transparency| == |q.collisionX| == |p.transparency|
            && forall k :: 0 <= k < |p.transparency| ==> !q.transparency[k] && !q.collisionX[k]
  {
  }

  // ---------------------------------------------------------------- registering the address

  function Wires(addr: Sig, n: nat): (c: nat)
    requires n <= |addr|
    ensures c <= n
  {
    if n == 0 then 0 else Wires(addr, n - 1) + if addr[n - 1].Const? then 0 else 1
  }

  lemma {:induction false} WiresGrow(addr: Sig, n: nat, m: nat)
    requires n <= m <= |addr|
    ensures Wires(addr, n) <= Wires(addr, m)
  {
    if n < m { WiresGrow(addr, n, m - 1); }
  }

  method CountWires(addr: Sig) returns (n: nat)
    ensures n == Wires(addr, |addr|) && (n > 0 <==> exists j :: 0 <= j < |addr| && !addr[j].Const?)
  {
    n := 0;
    for i := 0 to |addr|
      invariant n == Wires(addr, i)
    {
      if !addr[i].Const? { n := n + 1; }
    }
    SomeWire(addr, |addr|);
  }

  lemma {:induction false} SomeWire(addr: Sig, n: nat)
    requires n <= |addr|
    ensures Wires(addr, n) > 0 <==> exists j :: 0 <= j < n && !addr[j].Const?
  {
    if n > 0 { SomeWire(addr, n - 1); }
  }

  /** The address with its wires replaced, in order, by the wires of `q`; `d` collects what they replaced. */
  method SplitAddress(addr: Sig, q: Sig) returns (addr': Sig, d: Sig)
    requires |q| == Wires(addr, |addr|)
    ensures |addr'| == |addr| && |d| == |q|
    ensures forall j :: 0 <= j < |addr| && addr[j].Const? ==> addr'[j] == addr[j]
    ensures forall j :: 0 <= j < |addr| && !addr[j].Const? ==> Moved(addr[j], addr'[j], d, q)
  {
    addr', d := addr, [];
    for i := 0 to |addr|
      invariant |addr'| == |addr| && |d| == Wires(addr, i) <= |q| && addr'[i..] == addr[i..]
      invariant forall j :: 0 <= j < i && addr[j].Const? ==> addr'[j] == addr[j]
      invariant forall j :: 0 <= j < i && !addr[j].Const? ==> Moved(addr[j], addr'[j], d, q)
    {
      WiresGrow(addr, i + 1, |addr|);
      assert addr'[i] == addr'[i..][0] == addr[i];
      if !addr[i].Const? {
        ghost var d0, addr0 := d, addr';
        addr', d := addr'[i := q[|d|]], d + [addr[i]];
        forall j | 0 <= j <= i && !addr[j].Const? ensures Moved(addr[j], addr'[j], d, q) {
          if j < i {
            var k :| 0 <= k < |d0| && k < |q| && d0[k] == addr[j] && q[k] == addr0[j];
            assert d[k] == addr[j] && q[k] == addr'[j];
          } else {
            assert d[|d0|] == addr[j] && q[|d0|] == addr'[j];
          }
        }
      }
    }
  }

  /** Some position of the register takes `d` and drives `q`. */
  predicate Moved(d: Bit, q: Bit, ds: Sig, qs: Sig) {
    exists k :: 0 <= k < |ds| && k < |qs| && ds[k] == d && qs[k] == q
  }

  lemma AddressMoved(p: MemRd, q: MemRd, ds: Sig, qs: Sig, ffs: seq<Ff>)
    requires |q.addr| == |p.addr| && |ds| == |qs|
    requires |qs| > 0 ==> var x := seq(|qs|, _ => Sx); PortFf(p, true, qs, ds, x, x, x) in ffs
    requires forall j :: 0 <= j < |p.addr| && p.addr[j].Const? ==> q.addr[j] == p.addr[j]
    requires forall j :: 0 <= j < |p.addr| && !p.addr[j].Const? ==> Moved(p.addr[j], q.addr[j], ds, qs)
    ensures AddressRegistered(p, q, ffs)
  {
    forall j | 0 <= j < |p.addr| && !p.addr[j].Const? ensures AddressFf(p, q.addr[j], p.addr[j], ffs) {
      var k :| 0 <= k < |ds| && k < |qs| && ds[k] == p.addr[j] && qs[k] == q.addr[j];
      var x := seq(|qs|, _ => Sx);
      var f := PortFf(p, true, qs, ds, x, x, x);
      var n :| 0 <= n < |ffs| && ffs[n] == f;
      assert f.sigQ[k] == q.addr[j] && f.sigD[k] == p.addr[j];
      assert HoldsBit(p, ffs[n], q.addr[j], p.addr[j]);
    }
  }
}
