/**
 Read-first behaviour on a memory that only offers transparent ports: every write is delayed by one clock
 cycle and every read port is made transparent to the delayed writes.

 The simulation invariant is that the delayed memory, with the writes still waiting in the registers applied
 to it, holds what the original memory holds.
 */
module MemReadFirst {
  import opened Signals
  import opened FlipFlops
  import opened Lanes
  import opened MemPorts
  import opened MemReadControl
  import opened MemTransparency
  import opened MemRdff
  import opened MemWriteSide

  /** A register on the write side: clocked like the port, loading at every edge. */
  function WriteFf(wp: MemWr, q: Sig, d: Sig, init: State): (f: Ff)
    requires |q| == |d|
    ensures f.Valid() && f.width == |q| && f.sigQ == q
  {
    PortFf(AsReader(wp), true, q, d, seq(|q|, _ => Sx), seq(|q|, _ => Sx), seq(|q|, _ => init))
  }

  /** `q` is the registered copy of `d`. */
  predicate Registers(wp: MemWr, q: Bit, d: Bit, init: State, ffs: seq<Ff>) {
    exists k :: 0 <= k < |ffs| && RegistersIn(wp, ffs[k], q, d, init)
  }

  predicate RegistersIn(wp: MemWr, f: Ff, q: Bit, d: Bit, init: State) {
    && |f.sigQ| == |f.sigD| && f == WriteFf(wp, f.sigQ, f.sigD, init)
    && exists j :: 0 <= j < |f.sigQ| && f.sigQ[j] == q && f.sigD[j] == d
  }

  predicate AllRegister(wp: MemWr, q: Sig, d: Sig, init: State, ffs: seq<Ff>) {
    |q| == |d| && forall j :: 0 <= j < |q| ==> Registers(wp, q[j], d[j], init, ffs)
  }

  /** The delayed copy of a write port. Its enables start inactive, unless the contents start undefined. */
  predicate Delayed(wp: MemWr, wp': MemWr, enInit: State, ffs: seq<Ff>) {
    && wp' == wp.(addr := wp'.addr, data := wp'.data, en := wp'.en)
    && AllRegister(wp, wp'.addr, wp.addr, Sx, ffs) && AllRegister(wp, wp'.data, wp.data, Sx, ffs)
    && AllRegister(wp, wp'.en, wp.en, enInit, ffs)
  }

  /** One clock domain for everything, as `emulate_read_first_ok` checks. */
  predicate OneDomain(m: Ram, clk: Bit, pol: bool) {
    forall k :: 0 <= k < |m.wr| ==> m.wr[k].clkEnable && m.wr[k].clk == clk && m.wr[k].clkPolarity == pol
  }

  /** All write ports delayed on the same geometry. */
  ghost predicate IsDelayed(m: Ram, n: Ram, clk: Bit, pol: bool, enInit: State, ffs: seq<Ff>)
    requires RamShape(m)
  {
    && RamShape(n) && |n.wr| == |m.wr| && SameGeometry(m, n) && OneDomain(m, clk, pol)
    && (forall k :: 0 <= k < |m.wr| ==> Delayed(m.wr[k], n.wr[k], enInit, ffs))
    && (enInit == S0 || (enInit == Sx && forall w: nat, b: nat :: m.init(w, b) == Sx))
  }

  // ---------------------------------------------------------------- registers

  ghost predicate EdgesKnown(clk: Bit, pol: bool, envs: seq<Env>) {
    forall t: nat :: t + 1 < |envs| ==> Edge(clk, pol, envs[t], envs[t + 1]) != Sx
  }

  lemma RegisterStep(wp: MemWr, q: Bit, d: Bit, init: State, ffs: seq<Ff>, cells: Cells, envs: seq<Env>, t: nat)
    requires Registers(wp, q, d, init, ffs) && SoftRuns(ffs, cells, envs) && t < |envs|
    ensures t == 0 ==> Eval(q, envs[0]) == init
    ensures t > 0 && Edge(wp.clk, wp.clkPolarity, envs[t - 1], envs[t]) == S1 ==>
              Eval(q, envs[t]) == Eval(d, envs[t - 1])
    ensures t > 0 && Edge(wp.clk, wp.clkPolarity, envs[t - 1], envs[t]) == S0 ==>
              Eval(q, envs[t]) == Eval(q, envs[t - 1])
  {
    hide Eval, Next, Edge, Consistent, Decide, Sampled;
    var k :| 0 <= k < |ffs| && RegistersIn(wp, ffs[k], q, d, init);
    var f := ffs[k];
    var j :| 0 <= j < |f.sigQ| && f.sigQ[j] == q && f.sigD[j] == d;
    if t == 0 {
      assert Eval(f.sigQ[j], envs[0]) == f.valInit[j];
    } else {
      var x := seq(|f.sigQ|, _ => Sx);
      assert StepTaken(f, envs, t - 1, j);
      PortFfNext(AsReader(wp), true, f.sigQ, f.sigD, x, x, seq(|f.sigQ|, _ => init), envs[t - 1], envs[t], j);
      PlainNext(wp, envs[t - 1], envs[t], Eval(d, envs[t - 1]), Eval(q, envs[t - 1]));
    }
  }

  lemma PlainNext(wp: MemWr, e0: Env, e1: Env, data: State, hold: State)
    ensures Edge(wp.clk, wp.clkPolarity, e0, e1) == S1 ==> PortNext(AsReader(wp), e0, e1, Sx, Sx, data, hold) == data
    ensures Edge(wp.clk, wp.clkPolarity, e0, e1) == S0 ==> PortNext(AsReader(wp), e0, e1, Sx, Sx, data, hold) == hold
  {
    ConstEval(S1, e0);
    ConstEval(S0, e0);
    ConstEval(S0, e1);
    hide Eval, Edge;
  }

  lemma VectorStep(wp: MemWr, q: Sig, d: Sig, init: State, ffs: seq<Ff>, cells: Cells, envs: seq<Env>, t: nat)
    requires AllRegister(wp, q, d, init, ffs) && SoftRuns(ffs, cells, envs) && 0 < t < |envs|
    requires Edge(wp.clk, wp.clkPolarity, envs[t - 1], envs[t]) != Sx
    ensures EvalSig(q, envs[t]) ==
            EvalSig(if Edge(wp.clk, wp.clkPolarity, envs[t - 1], envs[t]) == S1 then d else q, envs[t - 1])
  {
    hide Eval, Edge, SoftRuns, Registers;
    var x := if Edge(wp.clk, wp.clkPolarity, envs[t - 1], envs[t]) == S1 then d else q;
    forall j | 0 <= j < |q| ensures EvalSig(q, envs[t])[j] == EvalSig(x, envs[t - 1])[j] {
      RegisterStep(wp, q[j], d[j], init, ffs, cells, envs, t);
    }
  }

  // ---------------------------------------------------------------- waiting writes

  /** Whether a port would store into the bit if an edge came now. */
  function Waits(wp: MemWr, width: nat, e: Env, w: nat, b: nat): State
    requires WrShape(wp, width) && b < width
  {
    if wp.removed then S0 else Touches(wp, width, e, w, b)
  }

  /** A stored bit with the first `n` waiting writes applied. */
  function Pending(m: Ram, n: nat, e: Env, w: nat, b: nat, cur: State): State
    requires RamShape(m) && n <= |m.wr| && b < m.width
  {
    if n == 0 then cur
    else IteS(Waits(m.wr[n - 1], m.width, e, w, b), WriteData(m.wr[n - 1], m.width, e, w, b),
              Pending(m, n - 1, e, w, b, cur))
  }

  /** An edge performs the waiting writes, anything else performs none. */
  lemma {:induction false} PendingWrites(m: Ram, n: nat, clk: Bit, pol: bool, e0: Env, e1: Env, w: nat, b: nat,
      cur: State)
    requires RamShape(m) && n <= |m.wr| && b < m.width && OneDomain(m, clk, pol)
    ensures Edge(clk, pol, e0, e1) == S1 ==> AfterWrites(m, n, e0, e1, w, b, cur) == Pending(m, n, e0, w, b, cur)
    ensures Edge(clk, pol, e0, e1) == S0 ==> AfterWrites(m, n, e0, e1, w, b, cur) == cur
  {
    hide Eval, AddrHit, Lane, Edge, WriteData;
    if n > 0 { PendingWrites(m, n - 1, clk, pol, e0, e1, w, b, cur); }
  }

  lemma {:induction false} PendingMonotone(m: Ram, n: nat, e: Env, w: nat, b: nat, cur: State, cur': State)
    requires RamShape(m) && n <= |m.wr| && b < m.width && Refines(cur, cur')
    ensures Refines(Pending(m, n, e, w, b, cur), Pending(m, n, e, w, b, cur'))
  {
    hide Waits, WriteData;
    if n > 0 { PendingMonotone(m, n - 1, e, w, b, cur, cur'); }
  }

  /** Ports whose inputs carry the same levels wait for the same write. */
  lemma SameLevelsWait(wp: MemWr, e: Env, wp': MemWr, e': Env, width: nat, w: nat, b: nat)
    requires WrShape(wp, width) && WrShape(wp', width) && b < width && wp'.removed == wp.removed &&
        wp'.wideLog2 == wp.wideLog2
    requires EvalSig(wp.addr, e) == EvalSig(wp'.addr, e') && EvalSig(wp.data, e) == EvalSig(wp'.data, e') &&
        EvalSig(wp.en, e) == EvalSig(wp'.en, e')
    ensures Waits(wp, width, e, w, b) == Waits(wp', width, e', w, b) &&
        WriteData(wp, width, e, w, b) == WriteData(wp', width, e', w, b)
  {
    hide Eval, Low, Flat;
    var j := Lane(width, wp.wideLog2, w, b);
    assert EvalSig(wp.en, e)[j] == EvalSig(wp'.en, e')[j] && EvalSig(wp.data, e)[j] == EvalSig(wp'.data, e')[j];
  }

  /** After an edge the registers hold the levels the edge was offered; otherwise they hold what they held. */
  lemma LevelsStep(wp: MemWr, wp': MemWr, enInit: State, ffs: seq<Ff>, cells: Cells, envs: seq<Env>, t: nat)
    requires Delayed(wp, wp', enInit, ffs) && SoftRuns(ffs, cells, envs) && 0 < t < |envs|
    requires Edge(wp.clk, wp.clkPolarity, envs[t - 1], envs[t]) != Sx
    ensures var last := if Edge(wp.clk, wp.clkPolarity, envs[t - 1], envs[t]) == S1 then wp else wp';
            && EvalSig(wp'.addr, envs[t]) == EvalSig(last.addr, envs[t - 1])
            && EvalSig(wp'.data, envs[t]) == EvalSig(last.data, envs[t - 1])
            && EvalSig(wp'.en, envs[t]) == EvalSig(last.en, envs[t - 1])
  {
    hide Eval, Edge, SoftRuns, AllRegister, EvalSig;
    VectorStep(wp, wp'.addr, wp.addr, Sx, ffs, cells, envs, t);
    VectorStep(wp, wp'.data, wp.data, Sx, ffs, cells, envs, t);
    VectorStep(wp, wp'.en, wp.en, enInit, ffs, cells, envs, t);
  }

  /** So after an edge the writes it was offered wait, and otherwise those that waited. */
  lemma {:induction false} PendingStep(m: Ram, n: Ram, clk: Bit, pol: bool, enInit: State, ffs: seq<Ff>, cells: Cells,
      envs: seq<Env>, t: nat, k: nat, w: nat, b: nat, cur: State)
    requires RamShape(m) && IsDelayed(m, n, clk, pol, enInit, ffs) && SoftRuns(ffs, cells, envs)
    requires 0 < t < |envs| && k <= |m.wr| && b < m.width && Edge(clk, pol, envs[t - 1], envs[t]) != Sx
    ensures var last := if Edge(clk, pol, envs[t - 1], envs[t]) == S1 then m else n;
            Pending(n, k, envs[t], w, b, cur) == Pending(last, k, envs[t - 1], w, b, cur)
    decreases k
  {
    hide Eval, EvalSig, Edge, SoftRuns, Waits, WriteData, AllRegister;
    if k > 0 {
      PendingStep(m, n, clk, pol, enInit, ffs, cells, envs, t, k - 1, w, b, cur);
      var wp, wp' := m.wr[k - 1], n.wr[k - 1];
      assert Delayed(wp, wp', enInit, ffs);
      LevelsStep(wp, wp', enInit, ffs, cells, envs, t);
      SameLevelsWait(if Edge(clk, pol, envs[t - 1], envs[t]) == S1 then wp else wp', envs[t - 1], wp', envs[t],
                     m.width, w, b);
    }
  }

  /** Enables that start at 0 leave a port idle at the start. */
  lemma StartIdle(wp: MemWr, wp': MemWr, ffs: seq<Ff>, cells: Cells, envs: seq<Env>)
    requires Delayed(wp, wp', S0, ffs) && SoftRuns(ffs, cells, envs) && |envs| > 0
    ensures Idle(wp', envs[0])
  {
    hide Eval, Edge, SoftRuns, Registers;
    forall j | 0 <= j < |wp'.en| ensures Eval(wp'.en[j], envs[0]) == S0 {
      RegisterStep(wp, wp'.en[j], wp.en[j], S0, ffs, cells, envs, 0);
    }
  }

  lemma IdleWaits(wp: MemWr, width: nat, e: Env, w: nat, b: nat)
    requires WrShape(wp, width) && b < width && Idle(wp, e)
    ensures Waits(wp, width, e, w, b) == S0
  {
    hide Eval, AddrHit, Lane;
  }

  /** At the start nothing waits, or there is nothing to lose. */
  lemma {:induction false} PendingStart(m: Ram, n: Ram, clk: Bit, pol: bool, enInit: State, ffs: seq<Ff>,
      cells: Cells, envs: seq<Env>, k: nat, w: nat, b: nat)
    requires RamShape(m) && IsDelayed(m, n, clk, pol, enInit, ffs) && SoftRuns(ffs, cells, envs)
    requires |envs| > 0 && k <= |m.wr| && b < m.width
    ensures Refines(m.init(w, b), Pending(n, k, envs[0], w, b, m.init(w, b)))
    decreases k
  {
    hide Eval, Edge, SoftRuns, WriteData, Waits, Delayed;
    if k > 0 && enInit == S0 {
      PendingStart(m, n, clk, pol, enInit, ffs, cells, envs, k - 1, w, b);
      StartIdle(m.wr[k - 1], n.wr[k - 1], ffs, cells, envs);
      IdleWaits(n.wr[k - 1], m.width, envs[0], w, b);
    }
  }

  /** The simulation invariant: delayed contents plus waiting writes are the original contents. */
  lemma {:induction false} DelayedContents(m: Ram, n: Ram, clk: Bit, pol: bool, enInit: State, ffs: seq<Ff>,
      cells: Cells, envs: seq<Env>, t: nat, w: nat, b: nat)
    requires RamShape(m) && IsDelayed(m, n, clk, pol, enInit, ffs) && SoftRuns(ffs, cells, envs)
    requires t < |envs| && b < m.width && EdgesKnown(clk, pol, envs)
    ensures Refines(Stored(m, envs, t, w, b), Pending(n, |n.wr|, envs[t], w, b, Stored(n, envs, t, w, b)))
    decreases t
  {
    hide Eval, Edge, SoftRuns, Delayed, Pending, AfterWrites;
    if t == 0 {
      PendingStart(m, n, clk, pol, enInit, ffs, cells, envs, |m.wr|, w, b);
    } else {
      var e0, e1, old', new' := envs[t - 1], envs[t], Stored(m, envs, t - 1, w, b), Stored(n, envs, t - 1, w, b);
      DelayedContents(m, n, clk, pol, enInit, ffs, cells, envs, t - 1, w, b);
      DelayedDomain(m, n, clk, pol, enInit, ffs);
      assert Edge(clk, pol, e0, e1) != Sx;
      PendingWrites(m, |m.wr|, clk, pol, e0, e1, w, b, old');
      PendingWrites(n, |n.wr|, clk, pol, e0, e1, w, b, new');
      PendingStep(m, n, clk, pol, enInit, ffs, cells, envs, t, |m.wr|, w, b, Stored(n, envs, t, w, b));
      if Edge(clk, pol, e0, e1) == S1 {
        PendingMonotone(m, |m.wr|, e0, w, b, old', Pending(n, |n.wr|, e0, w, b, new'));
      }
    }
  }

  lemma DelayedDomain(m: Ram, n: Ram, clk: Bit, pol: bool, enInit: State, ffs: seq<Ff>)
    requires RamShape(m) && IsDelayed(m, n, clk, pol, enInit, ffs)
    ensures OneDomain(n, clk, pol)
  {
    hide AllRegister, SameGeometry;
    forall k | 0 <= k < |n.wr| ensures n.wr[k].clkEnable && n.wr[k].clk == clk && n.wr[k].clkPolarity == pol {
      assert Delayed(m.wr[k], n.wr[k], enInit, ffs);
    }
  }

  // ---------------------------------------------------------------- reading

  /** A port transparent to nobody samples the old contents, where it is defined at all. */
  lemma {:induction false} SeenOld(p: MemRd, m: Ram, n: nat, e0: Env, e1: Env, w: nat, b: nat, cur: State)
    requires RamShape(m) && RdShape(p, m.width, |m.wr|) && n <= |m.wr| && b < m.width
    requires forall k :: 0 <= k < |m.wr| ==> !p.transparency[k]
    ensures Refines(Seen(p, m, n, e0, e1, w, b, cur), cur)
  {
    hide Writes, WriteData;
    if n > 0 { SeenOld(p, m, n - 1, e0, e1, w, b, cur); }
  }

  /** The read port afterwards: transparent to every write port. */
  predicate MadeTransparent(p: MemRd, q: MemRd) {
    && q == p.(transparency := q.transparency, collisionX := q.collisionX)
    && |q.transparency| == |p.transparency| && |q.collisionX| == |p.collisionX|
    && (forall k :: 0 <= k < |p.transparency| ==> !p.transparency[k] && q.transparency[k])
    && (forall k :: 0 <= k < |q.collisionX| ==> !q.collisionX[k])
  }

  lemma DelayedSample(p: MemRd, q: MemRd, m: Ram, n: Ram, enInit: State, ffs: seq<Ff>, cells: Cells, envs: seq<Env>,
      t: nat, i: nat)
    requires RamShape(m) && IsDelayed(m, n, p.clk, p.clkPolarity, enInit, ffs) && SoftRuns(ffs, cells, envs)
    requires RdShape(p, m.width, |m.wr|) && RdShape(q, n.width, |n.wr|) && MadeTransparent(p, q)
    requires EdgesKnown(p.clk, p.clkPolarity, envs)
    requires t < |envs| - 1 && i < |p.data|
    ensures SampleBacked(p, m, i, q, n, i, envs, t)
  {
    hide Eval, Edge, SoftRuns, Delayed, Pending, AfterWrites, Seen, Stored, SubOf, BitOf, Low;
    var e0, e1 := envs[t], envs[t + 1];
    if Edge(p.clk, p.clkPolarity, e0, e1) != S0 && InRange(p, m, e0, i) {
      var w, b := Word(p, m.width, e0, i), BitOf(m.width, i);
      assert Edge(p.clk, p.clkPolarity, e0, e1) != Sx;
      SeenOld(p, m, |m.wr|, e0, e1, w, b, Stored(m, envs, t, w, b));
      SeenAll(q, n, |n.wr|, e0, e1, w, b, Stored(n, envs, t, w, b));
      DelayedDomain(m, n, p.clk, p.clkPolarity, enInit, ffs);
      PendingWrites(n, |n.wr|, p.clk, p.clkPolarity, e0, e1, w, b, Stored(n, envs, t, w, b));
      DelayedContents(m, n, p.clk, p.clkPolarity, enInit, ffs, cells, envs, t, w, b);
    }
  }

  /** Delaying all writes and making the port transparent keeps its read-first output in every run. */
  lemma DelayedReads(p: MemRd, q: MemRd, m: Ram, n: Ram, enInit: State, ffs: seq<Ff>, cells: Cells, envs: seq<Env>)
    requires RamShape(m) && IsDelayed(m, n, p.clk, p.clkPolarity, enInit, ffs) && SoftRuns(ffs, cells, envs)
    requires RdShape(p, m.width, |m.wr|) && RdShape(q, n.width, |n.wr|) && MadeTransparent(p, q)
    requires p.clkEnable && EdgesKnown(p.clk, p.clkPolarity, envs)
    requires PortRuns(q, n, envs)
    ensures PortRuns(p, m, envs)
  {
    hide Eval, ReadBit, SampleBacked, Behind, Delayed, SoftRuns, EdgesKnown;
    forall t: nat, i: nat | t < |envs| && i < |p.data|
      ensures Refines(ReadBit(p, m, envs, t, i), Eval(p.data[i], envs[t]))
    {
      forall t: nat | t < |envs| - 1 ensures SampleBacked(p, m, i, q, n, i, envs, t) {
        DelayedSample(p, q, m, n, enInit, ffs, cells, envs, t, i);
      }
      BackedReads(p, m, i, q, n, i, envs, t);
      assert Refines(ReadBit(q, n, envs, t, i), Eval(q.data[i], envs[t]));
    }
  }

  // ---------------------------------------------------------------- legality of the delayed memory

  lemma SameLevelsReady(wp: MemWr, e: Env, wp': MemWr, e': Env)
    requires EvalSig(wp.addr, e) == EvalSig(wp'.addr, e') && EvalSig(wp.en, e) == EvalSig(wp'.en, e')
    requires WrReady(wp, e)
    ensures WrReady(wp', e')
  {
    hide Eval;
    forall i | 0 <= i < |wp'.en| && Idle(wp, e) ensures Eval(wp'.en[i], e') == S0 {
      assert EvalSig(wp'.en, e')[i] == EvalSig(wp.en, e)[i];
    }
  }

  /** With enables that start at 0 the delayed port is ready at every instant: before the first edge it is
      idle, afterwards it holds what the last edge was offered. */
  lemma {:induction false} DelayedReady(wp: MemWr, wp': MemWr, ffs: seq<Ff>, cells: Cells, envs: seq<Env>, t: nat)
    requires Delayed(wp, wp', S0, ffs) && SoftRuns(ffs, cells, envs) && t < |envs|
    requires wp.clkEnable && !wp.removed && EdgesKnown(wp.clk, wp.clkPolarity, envs)
    requires forall t: nat :: t + 1 < |envs| ==> WrKnownStep(wp, envs[t], envs[t + 1])
    ensures WrReady(wp', envs[t])
    decreases t
  {
    hide Eval, Edge, SoftRuns, WrReady, Delayed;
    if t == 0 {
      StartIdle(wp, wp', ffs, cells, envs);
      IdleReady(wp', envs[0]);
    } else {
      DelayedReady(wp, wp', ffs, cells, envs, t - 1);
      assert WrKnownStep(wp, envs[t - 1], envs[t]) && Edge(wp.clk, wp.clkPolarity, envs[t - 1], envs[t]) != Sx;
      LevelsStep(wp, wp', S0, ffs, cells, envs, t);
      var last := if Edge(wp.clk, wp.clkPolarity, envs[t - 1], envs[t]) == S1 then wp else wp';
      SameLevelsReady(last, envs[t - 1], wp', envs[t]);
    }
  }

  lemma IdleReady(wp: MemWr, e: Env)
    requires Idle(wp, e)
    ensures WrReady(wp, e)
  {
    hide Eval;
    forall i | 0 <= i < |wp.en| ensures EvalSig(wp.en, e)[i] != Sx { assert Eval(wp.en[i], e) == S0; }
  }

  /** Two writes of the given ports wait for one bit only in the order priority gives them. */
  predicate KeepApart(m: Ram, ks: set<nat>, e: Env, w: nat, b: nat)
    requires RamShape(m) && b < m.width
  {
    forall j: nat, k: nat ::
      && j in ks && k in ks && j < k < |m.wr|
      && Waits(m.wr[j], m.width, e, w, b) == S1 && Waits(m.wr[k], m.width, e, w, b) == S1
      ==> j < |m.wr[k].priority| && m.wr[k].priority[j]
  }

  lemma {:induction false} DelayedApart(m: Ram, n: Ram, clk: Bit, pol: bool, ffs: seq<Ff>, cells: Cells,
      ks: set<nat>, envs: seq<Env>, t: nat, w: nat, b: nat)
    requires RamShape(m) && IsDelayed(m, n, clk, pol, S0, ffs) && SoftRuns(ffs, cells, envs)
    requires t < |envs| && b < m.width && EdgesKnown(clk, pol, envs) && NoConflicts(m, ks, envs)
    ensures KeepApart(n, ks, envs[t], w, b)
    decreases t
  {
    hide Eval, EvalSig, Edge, SoftRuns, AllRegister, Waits, Writes;
    if t == 0 {
      forall k | 0 <= k < |n.wr| ensures Waits(n.wr[k], n.width, envs[0], w, b) == S0 {
        StartIdle(m.wr[k], n.wr[k], ffs, cells, envs);
        IdleWaits(n.wr[k], n.width, envs[0], w, b);
      }
    } else {
      DelayedApart(m, n, clk, pol, ffs, cells, ks, envs, t - 1, w, b);
      assert NoConflictAt(m, ks, envs, t - 1, w, b) && Edge(clk, pol, envs[t - 1], envs[t]) != Sx;
      forall k | 0 <= k < |n.wr|
        ensures n.wr[k].priority == m.wr[k].priority
        ensures Waits(n.wr[k], n.width, envs[t], w, b) ==
                if Edge(clk, pol, envs[t - 1], envs[t]) == S1 then Writes(m.wr[k], m.width, envs[t - 1], envs[t], w, b)
                else Waits(n.wr[k], n.width, envs[t - 1], w, b)
      {
        WaitsStep(m.wr[k], n.wr[k], m.width, ffs, cells, envs, t, w, b);
      }
    }
  }

  lemma WaitsStep(wp: MemWr, wp': MemWr, width: nat, ffs: seq<Ff>, cells: Cells, envs: seq<Env>, t: nat, w: nat, b: nat)
    requires Delayed(wp, wp', S0, ffs) && SoftRuns(ffs, cells, envs) && 0 < t < |envs| && wp.clkEnable
    requires WrShape(wp, width) && WrShape(wp', width) && b < width
    requires Edge(wp.clk, wp.clkPolarity, envs[t - 1], envs[t]) != Sx
    ensures Waits(wp', width, envs[t], w, b) ==
            if Edge(wp.clk, wp.clkPolarity, envs[t - 1], envs[t]) == S1
            then Writes(wp, width, envs[t - 1], envs[t], w, b)
            else Waits(wp', width, envs[t - 1], w, b)
  {
    hide Eval, EvalSig, Edge, SoftRuns, AllRegister, Touches, Lane, AddrHit;
    LevelsStep(wp, wp', S0, ffs, cells, envs, t);
    var last := if Edge(wp.clk, wp.clkPolarity, envs[t - 1], envs[t]) == S1 then wp else wp';
    SameLevelsWait(last, envs[t - 1], wp', envs[t], width, w, b);
    if !wp.removed { WritesTouches(wp, width, envs[t - 1], envs[t], w, b); }
  }

  /** Delaying the writes keeps them definite and apart when the delayed enables start at 0. */
  lemma DelayedAllowed(m: Ram, n: Ram, clk: Bit, pol: bool, ffs: seq<Ff>, cells: Cells,
      ks: set<nat>, apart: set<nat>, envs: seq<Env>)
    requires RamShape(m) && IsDelayed(m, n, clk, pol, S0, ffs) && SoftRuns(ffs, cells, envs)
    requires EdgesKnown(clk, pol, envs)
    ensures WrKnown(m, ks, envs) ==> WrKnown(n, ks, envs)
    ensures NoConflicts(m, apart, envs) ==> NoConflicts(n, apart, envs)
  {
    hide Eval, Edge, SoftRuns, AllRegister, WrReady, Waits, Touches, Writes, EdgesKnown;
    DelayedDomain(m, n, clk, pol, S0, ffs);
    forall t: nat, k: nat | WrKnown(m, ks, envs) && t + 1 < |envs| && k in ks && k < |n.wr|
      ensures WrKnownStep(n.wr[k], envs[t], envs[t + 1])
    {
      DelayedPortKnown(m.wr[k], n.wr[k], ffs, cells, envs, t);
    }
    forall t: nat, w: nat, b: nat | NoConflicts(m, apart, envs) && t < |envs| - 1 && b < m.width
      ensures NoConflictAt(n, apart, envs, t, w, b)
    {
      DelayedApart(m, n, clk, pol, ffs, cells, apart, envs, t, w, b);
      forall k | 0 <= k < |n.wr| && Writes(n.wr[k], n.width, envs[t], envs[t + 1], w, b) == S1
        ensures Waits(n.wr[k], n.width, envs[t], w, b) == S1
      {
        WritesWaited(n.wr[k], n.width, envs[t], envs[t + 1], w, b);
      }
    }
  }

  lemma WritesWaited(wp: MemWr, width: nat, e0: Env, e1: Env, w: nat, b: nat)
    requires WrShape(wp, width) && b < width && Writes(wp, width, e0, e1, w, b) == S1
    ensures Waits(wp, width, e0, w, b) == S1
  {
    hide Eval, Lane, AddrHit, Edge;
  }

  lemma DelayedPortKnown(wp: MemWr, wp': MemWr, ffs: seq<Ff>, cells: Cells, envs: seq<Env>, t: nat)
    requires Delayed(wp, wp', S0, ffs) && SoftRuns(ffs, cells, envs) && t + 1 < |envs|
    requires wp.clkEnable && EdgesKnown(wp.clk, wp.clkPolarity, envs)
    requires forall t: nat :: t + 1 < |envs| ==> WrKnownStep(wp, envs[t], envs[t + 1])
    ensures WrKnownStep(wp', envs[t], envs[t + 1])
  {
    hide Eval, Edge, SoftRuns, AllRegister, WrReady;
    assert Edge(wp.clk, wp.clkPolarity, envs[t], envs[t + 1]) != Sx;
    if !wp.removed { DelayedReady(wp, wp', ffs, cells, envs, t); }
  }

  // ---------------------------------------------------------------- registering a write port

  /** Drops repeated neighbours; `swizzle` says where each bit went. */
  method CompressEn(en: Sig) returns (sig: Sig, swizzle: seq<nat>)
    requires |en| > 0
    ensures |swizzle| == |en| && forall j :: 0 <= j < |en| ==> swizzle[j] < |sig| && sig[swizzle[j]] == en[j]
    ensures swizzle[|en| - 1] + 1 == |sig| && forall k :: 0 < k < |sig| ==> sig[k - 1] != sig[k]
  {
    sig, swizzle := [en[0]], [];
    var prevBit, idx := en[0], 0;
    for i := 0 to |en|
      invariant |swizzle| == i && |sig| == idx + 1 && sig[idx] == prevBit && (i > 0 ==> swizzle[i - 1] == idx)
      invariant forall j :: 0 <= j < i ==> swizzle[j] < |sig| && sig[swizzle[j]] == en[j]
      invariant forall k :: 0 < k < |sig| ==> sig[k - 1] != sig[k]
    {
      if en[i] != prevBit {
        sig := sig + [en[i]];
        prevBit := en[i];
        idx := idx + 1;
      }
      swizzle := swizzle + [idx];
    }
  }

  /** Undoes `CompressEn`, or carries its effect over to another vector. */
  method DecompressEn(swizzle: seq<nat>, sig: Sig) returns (res: Sig)
    requires forall j :: 0 <= j < |swizzle| ==> swizzle[j] < |sig|
    ensures |res| == |swizzle| && forall j :: 0 <= j < |swizzle| ==> res[j] == sig[swizzle[j]]
  {
    res := [];
    for i := 0 to |swizzle|
      invariant |res| == i && forall j :: 0 <= j < i ==> res[j] == sig[swizzle[j]]
    {
      res := res + [sig[swizzle[i]]];
    }
  }

  lemma RegisterHere(wp: MemWr, q: Sig, d: Sig, init: State, ffs: seq<Ff>, j: nat)
    requires |q| == |d| && WriteFf(wp, q, d, init) in ffs && j < |q|
    ensures Registers(wp, q[j], d[j], init, ffs)
  {
    var f := WriteFf(wp, q, d, init);
    assert f.sigQ == q && f.sigD == d;
    hide WriteFf;
    var k :| 0 <= k < |ffs| && ffs[k] == f;
    assert RegistersIn(wp, ffs[k], q[j], d[j], init);
  }

  lemma RegistersGrow(wp: MemWr, q: Sig, d: Sig, init: State, ffs: seq<Ff>, ffs': seq<Ff>)
    requires AllRegister(wp, q, d, init, ffs) && ffs <= ffs'
    ensures AllRegister(wp, q, d, init, ffs')
  {
    hide RegistersIn;
    forall j | 0 <= j < |q| ensures Registers(wp, q[j], d[j], init, ffs') {
      assert Registers(wp, q[j], d[j], init, ffs);
      var k :| 0 <= k < |ffs| && RegistersIn(wp, ffs[k], q[j], d[j], init);
      assert RegistersIn(wp, ffs'[k], q[j], d[j], init);
    }
  }

  lemma DelayedGrow(wp: MemWr, wp': MemWr, enInit: State, ffs: seq<Ff>, ffs': seq<Ff>)
    requires Delayed(wp, wp', enInit, ffs) && ffs <= ffs'
    ensures Delayed(wp, wp', enInit, ffs')
  {
    hide AllRegister;
    RegistersGrow(wp, wp'.addr, wp.addr, Sx, ffs, ffs');
    RegistersGrow(wp, wp'.data, wp.data, Sx, ffs, ffs');
    RegistersGrow(wp, wp'.en, wp.en, enInit, ffs, ffs');
  }

  /** The three registers of one write port, the enables compressed. */
  lemma DelayedBy(wp: MemWr, wp': MemWr, sig: Sig, swizzle: seq<nat>, newEn: Sig, enInit: State, ffs: seq<Ff>)
    requires |wp'.data| == |wp.data| && |wp'.addr| == |wp.addr| && |wp'.en| == |wp.en| == |swizzle| && |newEn| == |sig|
    requires forall j ::
        0 <= j < |swizzle| ==> swizzle[j] < |sig| && sig[swizzle[j]] == wp.en[j] && wp'.en[j] == newEn[swizzle[j]]
    requires WriteFf(wp, wp'.data, wp.data, Sx) in ffs && WriteFf(wp, wp'.addr, wp.addr, Sx) in ffs &&
        WriteFf(wp, newEn, sig, enInit) in ffs
    requires wp' == wp.(addr := wp'.addr, data := wp'.data, en := wp'.en)
    ensures Delayed(wp, wp', enInit, ffs)
  {
    hide WriteFf, Registers;
    forall j | 0 <= j < |wp.data| ensures Registers(wp, wp'.data[j], wp.data[j], Sx, ffs) {
      RegisterHere(wp, wp'.data, wp.data, Sx, ffs, j);
    }
    forall j | 0 <= j < |wp.addr| ensures Registers(wp, wp'.addr[j], wp.addr[j], Sx, ffs) {
      RegisterHere(wp, wp'.addr, wp.addr, Sx, ffs, j);
    }
    forall j | 0 <= j < |wp.en| ensures Registers(wp, wp'.en[j], wp.en[j], enInit, ffs) {
      RegisterHere(wp, newEn, sig, enInit, ffs, swizzle[j]);
    }
  }
}
