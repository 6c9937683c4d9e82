/**
 The memory helper of `kernel/mem.cc`: ports that its methods rewrite in place, and the registers and cells
 they add to the module.

 What a method promises about a read port is stated over every run: whenever the added logic and the new port
 run, the old data wires carry what the old port allowed.
 */
module Memory {
  import opened Signals
  import opened FlipFlops
  import opened Lanes
  import opened MemPorts
  import opened MemReadControl
  import opened MemTransparency
  import opened MemRdff
  import opened MemWriteSide
  import opened MemWidth
  import opened MemReadFirst
  import opened MemNets
  import opened MemRewiring
  import opened MemLoops

  /** The consistency `check` asserts. */
  predicate Checked(v: MemView) {
    && v.width > 0
    && (forall k :: 0 <= k < |v.wr| ==> CheckedWr(v, k))
    && (forall i :: 0 <= i < |v.rd| ==> CheckedRd(v, i))
  }

  /** Start and size are multiples of `2^wideLog2`. */
  predicate WholeWords(v: MemView, wideLog2: nat) {
    Low(v.start, wideLog2) == 0 && Low(v.size, wideLog2) == 0
  }

  predicate CheckedWr(v: MemView, k: nat)
    requires k < |v.wr|
  {
    var wp := v.wr[k];
    && WrShape(wp, v.width) && Aligned(wp.addr, wp.wideLog2) && |wp.priority| == |v.wr|
    && (!wp.removed ==> WholeWords(v, wp.wideLog2))
    && forall j ::
         0 <= j < |v.wr| && wp.priority[j] && !v.wr[j].removed && !wp.removed ==> j < k && SameActivity(v.wr[j], wp)
  }

  predicate CheckedRd(v: MemView, i: nat)
    requires i < |v.rd|
  {
    var p := v.rd[i];
    && RdShape(p, v.width, |v.wr|) && Aligned(p.addr, p.wideLog2) && (!p.removed ==> WholeWords(v, p.wideLog2))
    && (!p.clkEnable && !p.removed ==> p.en == Const(S1) && p.arst == Const(S0) && p.srst == Const(S0))
    && (forall k :: 0 <= k < |v.wr| ==> !(p.transparency[k] && p.collisionX[k]))
    && (forall k ::
         0 <= k < |v.wr| && (p.transparency[k] || p.collisionX[k]) && !v.wr[k].removed ==> Domain(p, v.wr[k]))
  }

  /** A read port and a write port clocked alike. */
  predicate Domain(p: MemRd, wp: MemWr) {
    p.clkEnable && wp.clkEnable && p.clk == wp.clk && p.clkPolarity == wp.clkPolarity
  }

  lemma CheckedShapes(v: MemView, init: Contents)
    requires Checked(v)
    ensures RamShape(RamOf(v, init)) && forall i :: 0 <= i < |v.rd| ==> RdShape(v.rd[i], v.width, |v.wr|)
  {
    hide RdShape, WrShape, SameActivity, Domain;
    forall k | 0 <= k < |v.wr| ensures WrShape(v.wr[k], v.width) { assert CheckedWr(v, k); }
    forall i | 0 <= i < |v.rd| ensures RdShape(v.rd[i], v.width, |v.wr|) { assert CheckedRd(v, i); }
  }

  lemma CheckedShaped(v: MemView)
    requires Checked(v)
    ensures Shaped(v)
  {
    hide RdShape, WrShape;
    CheckedShapes(v, (_, _) => Sx);
  }

  lemma CheckedBypassable(v: MemView, i: nat, init: Contents)
    requires Checked(v) && i < |v.rd|
    ensures RamShape(RamOf(v, init)) && RdShape(v.rd[i], v.width, |v.wr|) && Bypassable(v.rd[i], RamOf(v, init))
  {
    CheckedShapes(v, init);
    assert CheckedRd(v, i);
    hide SameActivity, RamShape;
    forall k | 0 <= k < |v.wr| && !v.wr[k].removed && (v.rd[i].transparency[k] || v.rd[i].collisionX[k])
      ensures Paired(v.rd[i], v.wr[k], v.width)
    {
      assert CheckedWr(v, k);
    }
  }

  /** What is asked of the controls of a read port. */
  datatype Reader = Any | Decided | Definite

  /** What a statement about runs takes for granted: something of the controls of the read port, that the `writers` are
      definite, and that writes of the ports in `apart` never meet unless priority orders them. */
  datatype Given = Given(reader: Reader, writers: set<nat>, apart: set<nat>)

  const NOTHING := Given(Any, {}, {})
  const DECIDED := Given(Decided, {}, {})
  const CONTROLS := Given(Definite, {}, {})

  predicate AtMost(g: Given, g': Given) {
    && (g.reader == Any || g.reader == g'.reader || g'.reader == Definite)
    && g.writers <= g'.writers && g.apart <= g'.apart
  }

  /** The run meets what is given. */
  ghost predicate Allowed(v: MemView, i: nat, init: Contents, envs: seq<Env>, g: Given)
    requires i < |v.rd|
  {
    && RamShape(RamOf(v, init))
    && (g.reader == Decided ==> RdDecided(v.rd[i], envs)) && (g.reader == Definite ==> RdKnown(v.rd[i], envs))
    && WrKnown(RamOf(v, init), g.writers, envs) && NoConflicts(RamOf(v, init), g.apart, envs)
  }

  ghost predicate Runs(v: MemView, i: nat, init: Contents, envs: seq<Env>)
    requires i < |v.rd|
  {
    && RamShape(RamOf(v, init)) && RdShape(v.rd[i], v.width, |v.wr|)
    && SoftRuns(v.ffs, v.cells, envs) && PortRuns(v.rd[i], RamOf(v, init), envs)
  }

  /** Read port `i`: every run afterwards is a run before, on the wires there were. */
  ghost predicate KeepsRead(a: MemView, b: MemView, i: nat, g: Given) {
    && i < |a.rd| && i < |b.rd|
    && forall init: Contents, envs: seq<Env> ::
         Allowed(a, i, init, envs, g) && Runs(b, i, init, envs) ==> Reads(a, i, init, envs)
  }

  ghost predicate Reads(v: MemView, i: nat, init: Contents, envs: seq<Env>)
    requires i < |v.rd|
  {
    RamShape(RamOf(v, init)) && RdShape(v.rd[i], v.width, |v.wr|) && PortRuns(v.rd[i], RamOf(v, init), envs)
  }

  /** Logic is only added, and only read port `idx` is touched. */
  predicate OnlyPort(a: MemView, b: MemView, idx: nat) {
    && b.width == a.width && b.start == a.start && b.size == a.size && b.wr == a.wr && |b.rd| == |a.rd|
    && (forall i :: 0 <= i < |a.rd| && i != idx ==> b.rd[i] == a.rd[i])
    && a.ffs <= b.ffs && a.cells <= b.cells && a.nextWire <= b.nextWire
  }

  lemma SoftRunsPrefix(a: MemView, b: MemView, envs: seq<Env>)
    requires a.ffs <= b.ffs && a.cells <= b.cells && SoftRuns(b.ffs, b.cells, envs)
    ensures SoftRuns(a.ffs, a.cells, envs)
  {
    hide Eval, IsRun, Ff.Valid;
    forall k | 0 <= k < |a.ffs| ensures a.ffs[k].Valid() && IsRun(Net(a.ffs[k], [], 0), envs) {
      assert a.ffs[k] == b.ffs[k];
    }
    forall t | 0 <= t < |envs| ensures Consistent(a.cells, envs[t]) {
      forall k | 0 <= k < |a.cells| ensures Eval(a.cells[k].0, envs[t]) == Eval(a.cells[k].1, envs[t]) {
        assert a.cells[k] == b.cells[k];
      }
    }
  }

  /** The port's controls stay definite. */
  ghost predicate KeepsKnown(a: MemView, b: MemView, i: nat)
    requires i < |a.rd| && i < |b.rd|
  {
    forall e0: Env, e1: Env :: RdKnownStep(a.rd[i], e0, e1) ==> RdKnownStep(b.rd[i], e0, e1)
  }

  lemma KeepsTransitive(a: MemView, b: MemView, c: MemView, i: nat, g: Given)
    requires KeepsRead(a, b, i, g) && KeepsRead(b, c, i, g) && OnlyPort(a, b, i) && OnlyPort(b, c, i)
    requires KeepsKnown(a, b, i) && g.reader == Definite
    ensures KeepsRead(a, c, i, g)
  {
    hide SoftRuns, PortRuns, RdKnownStep, WrKnown, NoConflicts, RamShape, RdShape;
    forall init: Contents, envs: seq<Env> | Allowed(a, i, init, envs, g) && Runs(c, i, init, envs)
      ensures Reads(a, i, init, envs)
    {
      assert RamOf(a, init) == RamOf(b, init);
      assert Allowed(b, i, init, envs, g);
      SoftRunsPrefix(b, c, envs);
      assert Reads(b, i, init, envs);
      assert Runs(b, i, init, envs);
    }
  }

  lemma FewerApart(m: Ram, ks: set<nat>, more: set<nat>, envs: seq<Env>)
    requires RamShape(m) && NoConflicts(m, more, envs) && ks <= more
    ensures NoConflicts(m, ks, envs)
  {
    hide RamShape, Writes;
    forall t: nat, w: nat, b: nat | t < |envs| - 1 && b < m.width ensures NoConflictAt(m, ks, envs, t, w, b) {
      assert NoConflictAt(m, more, envs, t, w, b);
    }
  }

  lemma AllowedUnder(a: MemView, i: nat, init: Contents, envs: seq<Env>, g: Given, g': Given)
    requires i < |a.rd| && Allowed(a, i, init, envs, g') && AtMost(g, g')
    ensures Allowed(a, i, init, envs, g)
  {
    hide RdKnown, RdDecided, WrKnownStep, RamShape, Writes;
    FewerApart(RamOf(a, init), g.apart, g'.apart, envs);
    if g'.reader == Definite { KnownDecided(a.rd[i], envs); }
  }

  /** Taking more for granted keeps no less. */
  lemma KeepsUnder(a: MemView, b: MemView, i: nat, g: Given, g': Given)
    requires KeepsRead(a, b, i, g) && AtMost(g, g')
    ensures KeepsRead(a, b, i, g')
  {
    hide Runs, Reads, Allowed;
    forall init: Contents, envs: seq<Env> | Allowed(a, i, init, envs, g') && Runs(b, i, init, envs)
      ensures Reads(a, i, init, envs)
    {
      AllowedUnder(a, i, init, envs, g, g');
    }
  }

  lemma OnlyPortTransitive(a: MemView, b: MemView, c: MemView, i: nat)
    requires OnlyPort(a, b, i) && OnlyPort(b, c, i)
    ensures OnlyPort(a, c, i)
  {
  }

  lemma KnownTransitive(a: MemView, b: MemView, c: MemView, i: nat)
    requires i < |a.rd| && i < |b.rd| && i < |c.rd| && KeepsKnown(a, b, i) && KeepsKnown(b, c, i)
    ensures KeepsKnown(a, c, i)
  {
    hide RdKnownStep;
  }

  lemma KeepsItself(a: MemView, i: nat, g: Given)
    requires i < |a.rd|
    ensures KeepsRead(a, a, i, g) && KeepsKnown(a, a, i) && OnlyPort(a, a, i)
  {
    hide SoftRuns, PortRuns, RdKnown, RdKnownStep, WrKnown, NoConflicts, RamShape, RdShape;
  }

  /** A finished emulation step on read port `idx`. */
  ghost predicate Emulated(a: MemView, b: MemView, idx: nat, g: Given) {
    && idx < |a.rd| && Checked(b) && OnlyPort(a, b, idx)
    && KeepsRead(a, b, idx, g) && KeepsKnown(a, b, idx) && (Loopfree(a) ==> Loopfree(b)) && KeepsInputs(a, b)
  }

  lemma EmulatedUnder(a: MemView, b: MemView, idx: nat, g: Given, g': Given)
    requires Emulated(a, b, idx, g) && AtMost(g, g')
    ensures Emulated(a, b, idx, g')
  {
    hide KeepsRead, KeepsKnown, Checked, OnlyPort, Loopfree;
    KeepsUnder(a, b, idx, g, g');
  }

  lemma EmulatedPort(a: MemView, b: MemView, idx: nat, g: Given)
    requires Emulated(a, b, idx, g)
    ensures Checked(b) && |b.rd| == |a.rd| && idx < |b.rd| && a.nextWire <= b.nextWire
  {
  }

  lemma EmulatedOthers(a: MemView, b: MemView, idx: nat, g: Given)
    requires Emulated(a, b, idx, g)
    ensures b.wr == a.wr && |b.rd| == |a.rd| && forall j :: 0 <= j < |a.rd| && j != idx ==> b.rd[j] == a.rd[j]
  {
    hide Checked, KeepsRead, KeepsKnown, Loopfree;
  }

  lemma EmulatedTransitive(a: MemView, b: MemView, c: MemView, idx: nat, g: Given)
    requires Emulated(a, b, idx, g) && Emulated(b, c, idx, g) && g.reader == Definite
    ensures Emulated(a, c, idx, g)
  {
    hide KeepsRead, KeepsKnown, Checked, Loopfree;
    KeepsTransitive(a, b, c, idx, g);
    KnownTransitive(a, b, c, idx);
    OnlyPortTransitive(a, b, c, idx);
    InputsTransitive(a, b, c);
  }

  /** A run of all parts of a memory in which the wires nobody drives follow the environment `base`. */
  ghost predicate RunsOn(v: MemView, init: Contents, base: seq<Env>, envs: seq<Env>) {
    && |envs| == |base| && (forall n :: 0 <= n < |v.rd| ==> Runs(v, n, init, envs))
    && forall t: nat, w: nat :: t < |base| && !Driven(v, w) ==> envs[t](w) == base[t](w)
  }

  /** Whatever the contents and the environment, there is a run. */
  ghost predicate Runnable(v: MemView) {
    forall init: Contents, base: seq<Env> :: |base| > 0 ==> RunsSomehow(v, init, base)
  }

  ghost predicate RunsSomehow(v: MemView, init: Contents, base: seq<Env>) {
    exists envs: seq<Env> :: RunsOn(v, init, base, envs)
  }

  /** Without combinational loops a memory of the right shape can be run. */
  lemma LoopfreeRuns(v: MemView)
    requires Shaped(v)
    ensures Loopfree(v) ==> Runnable(v)
  {
    hide Loopfree, SoftRuns, PortRuns, Driven;
    if Loopfree(v) {
      forall init: Contents, base: seq<Env> | |base| > 0 ensures RunsSomehow(v, init, base) {
        var envs := HasRun(v, init, base);
        ShapedRuns(v, init);
        assert RunsOn(v, init, base, envs);
      }
    }
  }

  lemma ShapedRuns(v: MemView, init: Contents)
    requires Shaped(v)
    ensures RamShape(RamOf(v, init)) && forall n :: 0 <= n < |v.rd| ==> RdShape(v.rd[n], v.width, |v.wr|)
  {
  }

  lemma CheckedRuns(v: MemView)
    requires Checked(v)
    ensures Loopfree(v) ==> Runnable(v)
  {
    hide Loopfree, Runnable, Checked;
    CheckedShaped(v);
    LoopfreeRuns(v);
  }

  lemma EmulatedRuns(a: MemView, b: MemView, idx: nat, g: Given)
    requires Emulated(a, b, idx, g)
    ensures Loopfree(a) ==> Loopfree(b) && Runnable(b)
  {
    hide Loopfree, Runnable, Checked, KeepsRead, KeepsKnown;
    CheckedRuns(b);
  }

  // ---------------------------------------------------------------- runs under given inputs

  ghost function DrivenRank(v: MemView): Rank {
    (w: nat) => if Driven(v, w) then 1 else 0
  }

  /** The controls of read port `i` of `a` and of all its writers read no wire that `b` drives. */
  ghost predicate OutsideControls(a: MemView, b: MemView, i: nat)
    requires i < |a.rd|
  {
    var p, rank := a.rd[i], DrivenRank(b);
    && SigRankBelow([p.clk, p.en, p.arst, p.srst], rank, 1)
    && forall k :: 0 <= k < |a.wr| ==> SigRankBelow([a.wr[k].clk] + a.wr[k].en + a.wr[k].addr, rank, 1)
  }

  /** The wires `v` does not drive carry the same levels. */
  ghost predicate SameInputs(v: MemView, e: Env, e': Env) {
    forall w: nat :: !Driven(v, w) ==> e(w) == e'(w)
  }

  lemma OutsideLevels(x: Sig, v: MemView, e: Env, e': Env)
    requires SigRankBelow(x, DrivenRank(v), 1) && SameInputs(v, e, e')
    ensures forall i :: 0 <= i < |x| ==> Eval(x[i], e) == Eval(x[i], e')
  {
    hide Eval, RankBelow, Driven;
    forall i | 0 <= i < |x| ensures Eval(x[i], e) == Eval(x[i], e') { RankFrame(x[i], DrivenRank(v), 1, e, e'); }
  }

  lemma OutsideReader(p: MemRd, v: MemView, e0: Env, e1: Env, e0': Env, e1': Env)
    requires SigRankBelow([p.clk, p.en, p.arst, p.srst], DrivenRank(v), 1)
    requires SameInputs(v, e0, e0') && SameInputs(v, e1, e1')
    ensures RdKnownStep(p, e0, e1) ==> RdKnownStep(p, e0', e1')
    ensures RdDecidedStep(p, e0, e1) ==> RdDecidedStep(p, e0', e1')
  {
    hide Eval, RankBelow, SameInputs, DrivenRank;
    var x := [p.clk, p.en, p.arst, p.srst];
    OutsideLevels(x, v, e0, e0');
    OutsideLevels(x, v, e1, e1');
    assert x[0] == p.clk && x[1] == p.en && x[2] == p.arst && x[3] == p.srst;
  }

  /** A writer fed from outside writes alike and is as definite. */
  lemma OutsideWriter(wp: MemWr, v: MemView, e0: Env, e1: Env, e0': Env, e1': Env)
    requires SigRankBelow([wp.clk] + wp.en + wp.addr, DrivenRank(v), 1)
    requires SameInputs(v, e0, e0') && SameInputs(v, e1, e1')
    ensures Strobe(wp, e0, e1) == Strobe(wp, e0', e1')
    ensures EvalSig(wp.en, e0) == EvalSig(wp.en, e0') && EvalSig(wp.addr, e0) == EvalSig(wp.addr, e0')
  {
    hide Eval, RankBelow, SameInputs, DrivenRank;
    var x := [wp.clk] + wp.en + wp.addr;
    OutsideLevels(x, v, e0, e0');
    OutsideLevels(x, v, e1, e1');
    assert x[0] == wp.clk;
    forall i | 0 <= i < |wp.en| ensures EvalSig(wp.en, e0)[i] == EvalSig(wp.en, e0')[i] { assert x[1 + i] == wp.en[i]; }
    forall i | 0 <= i < |wp.addr| ensures EvalSig(wp.addr, e0)[i] == EvalSig(wp.addr, e0')[i] {
      assert x[1 + |wp.en| + i] == wp.addr[i];
    }
  }

  /** The port stores into the same bits in the two steps. */
  ghost predicate WritesAlike(wp: MemWr, width: nat, e0: Env, e1: Env, e0': Env, e1': Env)
    requires WrShape(wp, width)
  {
    forall w: nat, b: nat :: b < width ==> Writes(wp, width, e0, e1, w, b) == Writes(wp, width, e0', e1', w, b)
  }

  lemma SameStrobe(wp: MemWr, width: nat, e0: Env, e1: Env, e0': Env, e1': Env)
    requires Strobe(wp, e0, e1) == Strobe(wp, e0', e1')
    requires EvalSig(wp.en, e0) == EvalSig(wp.en, e0') && EvalSig(wp.addr, e0) == EvalSig(wp.addr, e0')
    ensures WrKnownStep(wp, e0, e1) ==> WrKnownStep(wp, e0', e1')
    ensures WrShape(wp, width) ==> WritesAlike(wp, width, e0, e1, e0', e1')
  {
    hide Eval, Strobe;
    assert WrReady(wp, e0) ==> WrReady(wp, e0') by {
      if WrReady(wp, e0) { SameLevelsReady(wp, e0, wp, e0'); }
    }
    forall w: nat, b: nat | WrShape(wp, width) && b < width
      ensures Writes(wp, width, e0, e1, w, b) == Writes(wp, width, e0', e1', w, b)
    {
      var j := Lane(width, wp.wideLog2, w, b);
      assert EvalSig(wp.en, e0)[j] == EvalSig(wp.en, e0')[j];
    }
  }

  /** What is taken for granted depends on the inputs alone if the controls come from outside. */
  lemma OutsideAllowed(a: MemView, b: MemView, i: nat, init: Contents, base: seq<Env>, envs: seq<Env>, g: Given)
    requires i < |a.rd| && OutsideControls(a, b, i) && Allowed(a, i, init, base, g) && |envs| == |base|
    requires forall t: nat :: t < |base| ==> SameInputs(b, base[t], envs[t])
    ensures Allowed(a, i, init, envs, g)
  {
    hide Eval, SigRankBelow, SameInputs, Writes, WrKnownStep, RdKnownStep, RdDecidedStep, WrShape, Strobe;
    var m := RamOf(a, init);
    forall t: nat | t + 1 < |envs|
      ensures RdKnownStep(a.rd[i], base[t], base[t + 1]) ==> RdKnownStep(a.rd[i], envs[t], envs[t + 1])
      ensures RdDecidedStep(a.rd[i], base[t], base[t + 1]) ==> RdDecidedStep(a.rd[i], envs[t], envs[t + 1])
    {
      OutsideReader(a.rd[i], b, base[t], base[t + 1], envs[t], envs[t + 1]);
    }
    forall t: nat, k | t + 1 < |envs| && 0 <= k < |m.wr|
      ensures WrKnownStep(m.wr[k], base[t], base[t + 1]) ==> WrKnownStep(m.wr[k], envs[t], envs[t + 1])
      ensures WritesAlike(m.wr[k], m.width, base[t], base[t + 1], envs[t], envs[t + 1])
    {
      OutsideWriter(m.wr[k], b, base[t], base[t + 1], envs[t], envs[t + 1]);
      SameStrobe(m.wr[k], m.width, base[t], base[t + 1], envs[t], envs[t + 1]);
    }
    forall t: nat, w: nat, bit: nat | t < |envs| - 1 && bit < m.width
      ensures NoConflictAt(m, g.apart, envs, t, w, bit)
    {
      assert NoConflictAt(m, g.apart, base, t, w, bit);
      assert forall k :: 0 <= k < |m.wr| ==>
               WritesAlike(m.wr[k], m.width, base[t], base[t + 1], envs[t], envs[t + 1]);
    }
  }

  /** A rewrite that keeps the reads of a port is not vacuous: for every environment there is a run of the rewritten
      memory, and in it the old port reads what it did if the run meets what was taken for granted. With controls
      from outside it does as soon as the environment does. */
  lemma RewriteRuns(a: MemView, b: MemView, i: nat, init: Contents, base: seq<Env>, g: Given) returns (envs: seq<Env>)
    requires Runnable(b) && KeepsRead(a, b, i, g) && |base| > 0
    ensures RunsOn(b, init, base, envs) && (Allowed(a, i, init, envs, g) ==> Reads(a, i, init, envs))
    ensures OutsideControls(a, b, i) && Allowed(a, i, init, base, g) ==> Reads(a, i, init, envs)
  {
    hide SoftRuns, PortRuns, RamShape, RdShape, Allowed, Reads, Driven, OutsideControls;
    assert RunsSomehow(b, init, base);
    envs :| RunsOn(b, init, base, envs);
    assert Runs(b, i, init, envs);
    if OutsideControls(a, b, i) && Allowed(a, i, init, base, g) { OutsideAllowed(a, b, i, init, base, envs, g); }
  }

  lemma StartEmulation(a: MemView, i: nat, g: Given)
    requires Checked(a) && i < |a.rd|
    ensures Emulated(a, a, i, g)
    ensures var p := a.rd[i]; |p.arstValue| == |p.srstValue| == |p.initValue| == |p.data|
  {
    hide KeepsRead, KeepsKnown, Checked, OnlyPort, RdShape, Loopfree;
    KeepsItself(a, i, g);
    CheckedShapes(a, (_, _) => Sx);
    RdSizes(a.rd[i], a.width, |a.wr|);
  }

  // ---------------------------------------------------------------- stages on one read port

  lemma SyncStage(a: MemView, b: MemView, idx: nat)
    requires Checked(a) && OnlyPort(a, b, idx) && idx < |a.rd| && a.rd[idx].clkEnable
    requires b.rd[idx] == a.rd[idx].(ceOverSrst := b.rd[idx].ceOverSrst, en := b.rd[idx].en, srst := b.rd[idx].srst)
    requires forall e: Env ::
               !Undecided(a.rd[idx].ceOverSrst, Eval(a.rd[idx].en, e), Eval(a.rd[idx].srst, e)) ==>
                 SameSyncEffect(a.rd[idx], b.rd[idx], e)
    ensures KeepsRead(a, b, idx, DECIDED)
  {
    hide Eval, Edge, Undecided, SoftRuns, WrKnown, NoConflicts, RamShape, SameSyncEffect, ReadBit, Checked;
    forall init: Contents, envs: seq<Env> | Allowed(a, idx, init, envs, DECIDED) && Runs(b, idx, init, envs)
      ensures Reads(a, idx, init, envs)
    {
      CheckedShapes(a, init);
      var p, q, m := a.rd[idx], b.rd[idx], RamOf(a, init);
      assert RamOf(b, init) == m;
      forall t: nat | t + 1 < |envs|
        ensures Edge(p.clk, p.clkPolarity, envs[t], envs[t + 1]) == S0 || SameSyncEffect(p, q, envs[t])
      {
        assert RdDecidedStep(p, envs[t], envs[t + 1]);
      }
      forall t: nat, i: nat | t < |envs| && i < |p.data|
        ensures Refines(ReadBit(p, m, envs, t, i), Eval(p.data[i], envs[t]))
      {
        SameSyncReads(p, q, m, envs, t, i);
        assert Refines(ReadBit(q, m, envs, t, i), Eval(q.data[i], envs[t]));
      }
    }
  }

  lemma SyncKnown(a: MemView, b: MemView, idx: nat)
    requires idx < |a.rd| && idx < |b.rd|
    requires var p, q := a.rd[idx], b.rd[idx];
             && q == p.(ceOverSrst := q.ceOverSrst, en := q.en, srst := q.srst)
             && q.en in {p.en, OrGate(p.en, p.srst)} && q.srst in {p.srst, AndGate(p.en, p.srst)}
    ensures KeepsKnown(a, b, idx)
  {
    hide Eval, Edge;
  }

  lemma MaskStage(a: MemView, b: MemView, idx: nat, k: Mask)
    requires Checked(a) && OnlyPort(a, b, idx) && idx < |a.rd| && a.rd[idx].clkEnable
    requires IsMasked(a.rd[idx], b.rd[idx], k) && Selector(a.rd[idx], k) in b.ffs &&
        MasksData(b.cells, a.rd[idx], b.rd[idx], k)
    ensures KeepsRead(a, b, idx, CONTROLS) && KeepsKnown(a, b, idx)
  {
    forall e0: Env, e1: Env | RdKnownStep(a.rd[idx], e0, e1) ensures RdKnownStep(b.rd[idx], e0, e1) {
      ConstEval(S0, e0);
      ConstEval(S0, e1);
      hide Eval, Edge;
    }
    hide Eval, SoftRuns, RdKnown, RdKnownStep, WrKnown, NoConflicts, RamShape, PortRuns, Selector, MasksData, IsMasked,
        Checked;
    forall init: Contents, envs: seq<Env> | Allowed(a, idx, init, envs, CONTROLS) && Runs(b, idx, init, envs)
      ensures Reads(a, idx, init, envs)
    {
      CheckedShapes(a, init);
      assert RamOf(b, init) == RamOf(a, init);
      MaskRefines(a.rd[idx], b.rd[idx], k, b.ffs, b.cells, RamOf(a, init), envs);
    }
  }

  lemma EnableStage(a: MemView, b: MemView, idx: nat, sel: Bit, prev: Sig)
    requires Checked(a) && OnlyPort(a, b, idx) && idx < |a.rd| && a.rd[idx].clkEnable
    requires IsAlwaysOn(a.rd[idx], b.rd[idx]) && HoldsData(b.cells, a.rd[idx], b.rd[idx], sel, prev)
    requires |prev| == |a.rd[idx].data| == |a.rd[idx].arstValue| == |a.rd[idx].srstValue| == |a.rd[idx].initValue|
    requires EnableFf(a.rd[idx], sel) in b.ffs && HoldFf(a.rd[idx], prev) in b.ffs
    ensures KeepsRead(a, b, idx, CONTROLS) && KeepsKnown(a, b, idx)
  {
    forall e0: Env, e1: Env | RdKnownStep(a.rd[idx], e0, e1) ensures RdKnownStep(b.rd[idx], e0, e1) {
      ConstEval(S0, e0);
      ConstEval(S1, e0);
      ConstEval(S0, e1);
      hide Eval, Edge;
    }
    hide Eval, SoftRuns, RdKnown, RdKnownStep, WrKnown, NoConflicts, RamShape, PortRuns, EnableFf, HoldFf,
         HoldsData, IsAlwaysOn, Checked;
    forall init: Contents, envs: seq<Env> | Allowed(a, idx, init, envs, CONTROLS) && Runs(b, idx, init, envs)
      ensures Reads(a, idx, init, envs)
    {
      CheckedShapes(a, init);
      assert RamOf(b, init) == RamOf(a, init);
      EnableRefines(a.rd[idx], b.rd[idx], sel, prev, b.ffs, b.cells, RamOf(a, init), envs);
    }
  }

  lemma CheckedPaired(a: MemView, idx: nat, widx: nat)
    requires Checked(a) && idx < |a.rd| && widx < |a.wr| && !a.wr[widx].removed
    ensures |a.rd[idx].transparency| == |a.rd[idx].collisionX| == |a.wr|
    ensures a.rd[idx].transparency[widx] ==> Paired(a.rd[idx], a.wr[widx], a.width)
  {
    assert CheckedRd(a, idx) && CheckedWr(a, widx);
    hide Checked, SameActivity;
  }

  /** Only entries from `from` on change, and those from transparency to a collision that need not be defined. */
  predicate MasksMoved(p: MemRd, q: MemRd, from: nat) {
    && |q.transparency| == |p.transparency| == |p.collisionX| == |q.collisionX|
    && q == p.(data := q.data, transparency := q.transparency, collisionX := q.collisionX)
    && forall k: nat :: k < |p.transparency| ==>
                          || (q.transparency[k] == p.transparency[k] && q.collisionX[k] == p.collisionX[k])
                          || (from <= k && p.transparency[k] && !q.transparency[k] && q.collisionX[k])
  }

  /** No port after `i` that the read port still sees through is written over `widx`. */
  predicate SettledAbove(p: MemRd, wr: seq<MemWr>, widx: nat, i: nat)
    requires |p.transparency| == |wr|
  {
    forall k: nat ::
        i < k < |wr| && p.transparency[k] && !wr[k].removed && widx < |wr[k].priority| ==> !wr[k].priority[widx]
  }

  lemma SettledStart(p: MemRd, wr: seq<MemWr>, widx: nat)
    requires |p.transparency| == |wr| > 0
    ensures SettledAbove(p, wr, widx, |wr| - 1)
  {
  }

  lemma SettledStep(p: MemRd, wr: seq<MemWr>, widx: nat, i: nat)
    requires |p.transparency| == |wr| && SettledAbove(p, wr, widx, i) && 0 < i < |wr|
    requires p.transparency[i] && !wr[i].removed && widx < |wr[i].priority| ==> !wr[i].priority[widx]
    ensures SettledAbove(p, wr, widx, i - 1)
  {
  }

  lemma SettledMoved(p: MemRd, q: MemRd, wr: seq<MemWr>, widx: nat, i: nat)
    requires |p.transparency| == |wr| && SettledAbove(p, wr, widx, i) && MasksMoved(p, q, i)
    ensures |q.transparency| == |wr| && SettledAbove(q, wr, widx, i)
  {
  }

  lemma MovedItself(p: MemRd, from: nat)
    requires |p.transparency| == |p.collisionX|
    ensures MasksMoved(p, p, from)
  {
  }

  lemma MovedFacts(p: MemRd, q: MemRd, widx: nat)
    requires MasksMoved(p, q, widx + 1) && widx < |p.transparency|
    ensures |q.transparency| == |q.collisionX| == |p.transparency| && q.transparency[widx] == p.transparency[widx]
  {
  }

  lemma MovedBelow(p: MemRd, q: MemRd, from: nat)
    requires MasksMoved(p, q, from)
    ensures |q.transparency| == |p.transparency|
    ensures forall k :: 0 <= k < from && k < |p.transparency| ==> q.transparency[k] == p.transparency[k]
    ensures forall k :: 0 <= k < |p.transparency| && q.transparency[k] ==> p.transparency[k]
  {
  }

  lemma MovedOnce(p: MemRd, q: MemRd, widx: nat)
    requires widx < |p.transparency| == |p.collisionX| && p.transparency[widx]
    requires q == p.(data := q.data, transparency := p.transparency[widx := false],
                     collisionX := p.collisionX[widx := true])
    ensures MasksMoved(p, q, widx)
  {
  }

  lemma MovedTransitive(p: MemRd, q: MemRd, r: MemRd, from: nat, later: nat)
    requires from <= later && MasksMoved(p, q, from) && MasksMoved(q, r, later)
    ensures MasksMoved(p, r, from)
  {
  }

  lemma MovedEarlier(p: MemRd, q: MemRd, from: nat, later: nat)
    requires from <= later && MasksMoved(p, q, later)
    ensures MasksMoved(p, q, from)
  {
  }

  predicate Shifted(p: MemRd, q: MemRd, k: nat) {
    k < |p.transparency| && k < |q.transparency| && p.transparency[k] && !q.transparency[k]
  }

  predicate Clear(p: MemRd, k: nat) {
    k < |p.transparency| && p.transparency[k]
  }

  /** Entries move for `widx`, or because the port writes over one that moves. */
  predicate Pulled(p: MemRd, q: MemRd, wr: seq<MemWr>, widx: nat) {
    forall k :: 0 <= k < |wr| && k != widx && Shifted(p, q, k) ==> !wr[k].removed && PulledBy(p, q, wr, widx, k)
  }

  predicate PulledBy(p: MemRd, q: MemRd, wr: seq<MemWr>, widx: nat, k: nat)
    requires k < |wr|
  {
    exists j :: 0 <= j < |wr[k].priority| && (j == widx || Shifted(p, q, j)) && wr[k].priority[j]
  }

  /** No port the read port still sees through writes over one whose entry moved. */
  predicate Sealed(p: MemRd, q: MemRd, wr: seq<MemWr>) {
    forall j, k ::
        0 <= k < |wr| && 0 <= j < |wr[k].priority| && Shifted(p, q, j) && !wr[k].removed && Clear(q, k) ==>
          !wr[k].priority[j]
  }

  lemma PulledThen(p: MemRd, q: MemRd, r: MemRd, wr: seq<MemWr>, widx: nat, i: nat)
    requires MasksMoved(p, q, widx + 1) && MasksMoved(q, r, i) && widx < i < |wr| == |p.transparency|
    requires Pulled(p, q, wr, widx) && Pulled(q, r, wr, i) && q.transparency[i] && !r.transparency[i]
    requires !wr[i].removed && widx < |wr[i].priority| && wr[i].priority[widx]
    ensures Pulled(p, r, wr, widx)
  {
    forall k | 0 <= k < |wr| && k != widx && Shifted(p, r, k) ensures !wr[k].removed && PulledBy(p, r, wr, widx, k) {
      if Shifted(p, q, k) {
        var j :| 0 <= j < |wr[k].priority| && (j == widx || Shifted(p, q, j)) && wr[k].priority[j];
        assert j == widx || Shifted(p, r, j);
      } else if k != i {
        var j :| 0 <= j < |wr[k].priority| && (j == i || Shifted(q, r, j)) && wr[k].priority[j];
        assert Shifted(p, r, j);
      }
    }
  }

  lemma SealedThen(p: MemRd, q: MemRd, r: MemRd, wr: seq<MemWr>, from: nat, later: nat)
    requires MasksMoved(p, q, from) && MasksMoved(q, r, later) && Sealed(p, q, wr) && Sealed(q, r, wr)
    ensures Sealed(p, r, wr)
  {
    forall j, k | 0 <= k < |wr| && 0 <= j < |wr[k].priority| && Shifted(p, r, j) && !wr[k].removed && Clear(r, k)
      ensures !wr[k].priority[j]
    {
      assert Shifted(p, q, j) || Shifted(q, r, j);
    }
  }

  /** Moving the entry of `widx` last keeps both. */
  lemma PulledLast(p: MemRd, q: MemRd, r: MemRd, wr: seq<MemWr>, widx: nat)
    requires Pulled(p, q, wr, widx) && widx < |q.transparency| && r.transparency == q.transparency[widx := false]
    ensures Pulled(p, r, wr, widx)
  {
    forall k | 0 <= k < |wr| && k != widx && Shifted(p, r, k) ensures !wr[k].removed && PulledBy(p, r, wr, widx, k) {
      assert Shifted(p, q, k);
      var j :| 0 <= j < |wr[k].priority| && (j == widx || Shifted(p, q, j)) && wr[k].priority[j];
      assert j == widx || Shifted(p, r, j);
    }
  }

  lemma SealedLast(p: MemRd, q: MemRd, r: MemRd, wr: seq<MemWr>, widx: nat)
    requires |q.transparency| == |wr| && widx < |wr| && r.transparency == q.transparency[widx := false]
    requires Sealed(p, q, wr) && SettledAbove(q, wr, widx, widx)
    requires forall k :: 0 <= k < widx && !wr[k].removed && widx < |wr[k].priority| ==> !wr[k].priority[widx]
    ensures Sealed(p, r, wr)
  {
    forall j, k | 0 <= k < |wr| && 0 <= j < |wr[k].priority| && Shifted(p, r, j) && !wr[k].removed && Clear(r, k)
      ensures !wr[k].priority[j]
    {
      assert Clear(q, k) && k != widx;
      if j != widx { assert Shifted(p, q, j); }
    }
  }

  /** Priority goes to later ports only. */
  lemma NoEarlierPriority(v: MemView, widx: nat)
    requires Checked(v) && widx < |v.wr| && !v.wr[widx].removed
    ensures forall k :: 0 <= k < widx && !v.wr[k].removed && widx < |v.wr[k].priority| ==> !v.wr[k].priority[widx]
  {
    hide WrShape, SameActivity, CheckedRd, WholeWords, Aligned;
    forall k | 0 <= k < widx && !v.wr[k].removed && widx < |v.wr[k].priority| ensures !v.wr[k].priority[widx] {
      assert CheckedWr(v, k);
    }
  }

  /** Exactly the entries that priority leads to from `widx` move. */
  lemma WhichMove(v: MemView, p: MemRd, q: MemRd, widx: nat)
    requires Checked(v) && widx < |v.wr| == |p.transparency| && MasksMoved(p, q, widx) && p.transparency[widx] &&
        !q.transparency[widx]
    requires Pulled(p, q, v.wr, widx) && Sealed(p, q, v.wr) && !v.wr[widx].removed
    requires forall k :: 0 <= k < |v.wr| ==> |v.wr[k].priority| == |v.wr|
    ensures q == p.(data := q.data, transparency := q.transparency, collisionX := q.collisionX)
    ensures |q.transparency| == |q.collisionX| == |p.collisionX| == |v.wr|
    ensures forall k :: 0 <= k < |v.wr| && q.transparency[k] ==> p.transparency[k]
    ensures forall k :: 0 <= k < |v.wr| ==>
              q.collisionX[k] == (p.collisionX[k] || (p.transparency[k] && !q.transparency[k]))
    ensures forall k :: 0 <= k < |v.wr| && k != widx && p.transparency[k] && !q.transparency[k] ==>
              exists j :: widx <= j < k && p.transparency[j] && !q.transparency[j] && v.wr[k].priority[j]
    ensures forall j, k ::
              0 <= j < |v.wr| && 0 <= k < |v.wr| && p.transparency[j] && !q.transparency[j] && q.transparency[k] ==>
                v.wr[k].removed || !v.wr[k].priority[j]
  {
    hide WrShape, SameActivity, CheckedRd, WholeWords, Aligned;
    forall k | 0 <= k < |v.wr| && k != widx && p.transparency[k] && !q.transparency[k]
      ensures exists j :: widx <= j < k && p.transparency[j] && !q.transparency[j] && v.wr[k].priority[j]
    {
      assert Shifted(p, q, k) && CheckedWr(v, k);
      var j :| 0 <= j < |v.wr[k].priority| && (j == widx || Shifted(p, q, j)) && v.wr[k].priority[j];
    }
    forall j, k | 0 <= j < |v.wr| && 0 <= k < |v.wr| && p.transparency[j] && !q.transparency[j] && q.transparency[k]
      ensures v.wr[k].removed || !v.wr[k].priority[j]
    {
      assert Shifted(p, q, j) && Clear(q, k);
    }
  }

  /** On the way from `p`: entries above `widx` have moved. */
  predicate Moving(p: MemRd, q: MemRd, wr: seq<MemWr>, widx: nat) {
    && |p.transparency| == |q.transparency| == |wr| && MasksMoved(p, q, widx + 1)
    && Pulled(p, q, wr, widx) && Sealed(p, q, wr)
  }

  lemma MovingStart(p: MemRd, wr: seq<MemWr>, widx: nat)
    requires |p.transparency| == |p.collisionX| == |wr|
    ensures Moving(p, p, wr, widx)
  {
  }

  lemma MovingFacts(p: MemRd, q: MemRd, wr: seq<MemWr>, widx: nat)
    requires Moving(p, q, wr, widx) && widx < |wr|
    ensures MasksMoved(p, q, widx + 1) && |q.transparency| == |q.collisionX| == |wr|
    ensures q.transparency[widx] == p.transparency[widx]
  {
    hide Pulled, Sealed;
  }

  lemma MovingThen(p: MemRd, q: MemRd, r: MemRd, wr: seq<MemWr>, widx: nat, i: nat)
    requires Moving(p, q, wr, widx) && MasksMoved(q, r, i) && Pulled(q, r, wr, i) && Sealed(q, r, wr)
    requires widx < i < |wr| && q.transparency[i] && !r.transparency[i]
    requires !wr[i].removed && widx < |wr[i].priority| && wr[i].priority[widx]
    ensures Moving(p, r, wr, widx)
  {
    hide Pulled, Sealed, MasksMoved;
    MovedFacts(p, q, widx);
    MovedBelow(q, r, i);
    PulledThen(p, q, r, wr, widx, i);
    SealedThen(p, q, r, wr, widx + 1, i);
    MovedTransitive(p, q, r, widx + 1, i);
  }

  lemma MovingLast(v: MemView, p: MemRd, q: MemRd, r: MemRd, widx: nat)
    requires Checked(v) && widx < |v.wr| && !v.wr[widx].removed && p in v.rd
    requires Moving(p, q, v.wr, widx) && SettledAbove(q, v.wr, widx, widx)
    requires |q.collisionX| == |v.wr| && q.transparency[widx]
    requires r == q.(data := r.data, transparency := q.transparency[widx := false],
                     collisionX := q.collisionX[widx := true])
    ensures MasksMoved(p, r, widx) && Pulled(p, r, v.wr, widx) && Sealed(p, r, v.wr)
  {
    hide Pulled, Sealed, MasksMoved, Checked, SettledAbove;
    PulledLast(p, q, r, v.wr, widx);
    NoEarlierPriority(v, widx);
    SealedLast(p, q, r, v.wr, widx);
    MovedOnce(q, r, widx);
    MovedEarlier(p, q, widx, widx + 1);
    MovedTransitive(p, q, r, widx, widx);
  }

  lemma PrioritySizes(a: MemView, idx: nat)
    requires Checked(a) && idx < |a.rd|
    ensures |a.rd[idx].transparency| == |a.rd[idx].collisionX| == |a.wr|
    ensures forall k :: 0 <= k < |a.wr| ==> |a.wr[k].priority| == |a.wr|
  {
    hide SameActivity, WrShape, Domain;
    assert CheckedRd(a, idx);
    forall k | 0 <= k < |a.wr| ensures |a.wr[k].priority| == |a.wr| { assert CheckedWr(a, k); }
  }

  /** What emulating one transparency takes for granted. */
  function BypassNeeds(p: MemRd, widx: nat): Given {
    Given(Definite, {widx}, ThroughFrom(p, widx))
  }

  lemma CheckedBypass(a: MemView, b: MemView, widx: nat, idx: nat)
    requires Checked(a) && OnlyPort(a, b, idx) && idx < |a.rd| && widx < |a.wr|
    requires Paired(a.rd[idx], a.wr[widx], a.width)
    requires |a.rd[idx].transparency| == |a.rd[idx].collisionX| == |a.wr| && |b.rd[idx].data| == |a.rd[idx].data|
    requires b.rd[idx] == a.rd[idx].(data := b.rd[idx].data,
                                     transparency := a.rd[idx].transparency[widx := false],
                                     collisionX := a.rd[idx].collisionX[widx := true])
    ensures Checked(b) && KeepsKnown(a, b, idx)
  {
    assert CheckedRd(a, idx);
    hide Checked, Eval, Edge;
    CheckedPort(a, b, idx);
  }

  lemma BypassStage(a: MemView, b: MemView, widx: nat, idx: nat, wq: Sig, ls: seq<Layer>, sub: nat)
    requires Checked(a) && OnlyPort(a, b, idx) && idx < |a.rd| && widx < |a.wr| && !a.wr[widx].removed
    requires |a.rd[idx].transparency| == |a.rd[idx].collisionX| == |a.wr| && a.rd[idx].transparency[widx]
    requires Paired(a.rd[idx], a.wr[widx], a.width) && |wq| == |a.wr[widx].data| &&
        DataFf(a.rd[idx], wq, a.wr[widx].data) in b.ffs
    requires LayersTo(a.rd[idx], a.wr[widx], a.width, wq, ls, sub, b.rd[idx].data, b.ffs, b.cells) && |ls| > 0 &&
        sub >= Pow2(MaxLog(a.rd[idx], a.wr[widx]))
    requires b.rd[idx] == a.rd[idx].(data := b.rd[idx].data,
                                     transparency := a.rd[idx].transparency[widx := false],
                                     collisionX := a.rd[idx].collisionX[widx := true])
    requires SettledAbove(a.rd[idx], a.wr, widx, widx) && (Loopfree(a) ==> Loopfree(b)) && KeepsInputs(a, b)
    ensures Emulated(a, b, idx, BypassNeeds(a.rd[idx], widx))
  {
    hide Eval, SoftRuns, RdKnown, RdKnownStep, RdDecided, WrKnown, NoConflicts, RamShape, RdShape, PortRuns, DataFf,
         Paired, Checked, IsLayer, Low, KeepsKnown, Loopfree;
    var p, q := a.rd[idx], b.rd[idx];
    CheckedBypass(a, b, widx, idx);
    assert IsBypass(p, q, a.wr[widx], widx, a.width, wq, ls, b.ffs, b.cells);
    var g := BypassNeeds(p, widx);
    forall init: Contents, envs: seq<Env> | Allowed(a, idx, init, envs, g) && Runs(b, idx, init, envs)
      ensures Reads(a, idx, init, envs)
    {
      CheckedShapes(a, init);
      assert RamOf(b, init) == RamOf(a, init);
      assert Settled(p, RamOf(a, init), widx);
      assert BypassRun(p, q, RamOf(a, init), widx, wq, ls, b.ffs, b.cells, envs);
      BypassRefines(p, q, RamOf(a, init), widx, wq, ls, b.ffs, b.cells, envs);
    }
  }

  /** The register of a clocked port may move to its address. */
  ghost predicate UsesAddressAt(v: MemView, idx: nat) {
    && idx < |v.rd| && |v.rd[idx].transparency| == |v.wr| && v.rd[idx].clkEnable
    && forall init: Contents :: UsesAddress(v.rd[idx], RamOf(v, init))
  }

  lemma CheckedAsynchronous(a: MemView, b: MemView, idx: nat)
    requires Checked(a) && OnlyPort(a, b, idx) && idx < |a.rd| && |b.rd[idx].data| == |a.rd[idx].data|
    requires b.rd[idx] == Asynchronous(a.rd[idx], b.rd[idx].addr, b.rd[idx].data) &&
        KeepsConstants(a.rd[idx].addr, b.rd[idx].addr)
    ensures Checked(b) && IsAsync(a.rd[idx], b.rd[idx])
  {
    assert CheckedRd(a, idx);
    hide Checked;
    CheckedPort(a, b, idx);
  }

  /** Constant address bits stay. */
  predicate KeepsConstants(addr: Sig, addr': Sig) {
    |addr'| == |addr| && forall j :: 0 <= j < |addr| && addr[j].Const? ==> addr'[j] == addr[j]
  }

  lemma OutputStage(a: MemView, b: MemView, idx: nat, init: Contents)
    requires Checked(a) && OnlyPort(a, b, idx) && idx < |a.rd| && a.rd[idx].clkEnable
    requires b.rd[idx] == Asynchronous(a.rd[idx], a.rd[idx].addr, b.rd[idx].data) &&
        |b.rd[idx].data| == |a.rd[idx].data|
    requires var p, m := a.rd[idx], RamOf(a, init);
             && |p.arstValue| == |p.srstValue| == |p.initValue| == |p.data|
             && RamShape(m) && RdShape(p, m.width, |m.wr|) && Bypassable(p, m)
             && OutputFf(p, DataAfter(p, m, |m.wr|, b.rd[idx].data)) in b.ffs
    requires (Loopfree(a) ==> Loopfree(b)) && KeepsInputs(a, b)
    ensures Emulated(a, b, idx, Given(Definite, SeenBy(a.rd[idx]), {}))
  {
    CheckedAsynchronous(a, b, idx);
    hide Eval, SoftRuns, RdKnown, RdKnownStep, WrKnown, NoConflicts, PortRuns, OutputFf, DataAfter, Checked, Bypassable,
        RamShape;
    var g := Given(Definite, SeenBy(a.rd[idx]), {});
    forall init': Contents, envs: seq<Env> | Allowed(a, idx, init', envs, g) && Runs(b, idx, init', envs)
      ensures Reads(a, idx, init', envs)
    {
      var m, m' := RamOf(a, init), RamOf(a, init');
      assert RamOf(b, init') == m';
      DataAfterInit(a.rd[idx], m, m', |a.wr|, b.rd[idx].data);
      OutputRdffRefines(a.rd[idx], b.rd[idx], m', b.ffs, b.cells, envs);
    }
  }

  lemma AddressStage(a: MemView, b: MemView, idx: nat)
    requires Checked(a) && OnlyPort(a, b, idx) && idx < |a.rd| && a.rd[idx].clkEnable &&
        |a.rd[idx].transparency| == |a.wr|
    requires b.rd[idx] == Asynchronous(a.rd[idx], b.rd[idx].addr, a.rd[idx].data) &&
        KeepsConstants(a.rd[idx].addr, b.rd[idx].addr)
    requires UsesAddress(a.rd[idx], RamOf(a, (_, _) => Sx)) && AddressRegistered(a.rd[idx], b.rd[idx], b.ffs)
    requires (Loopfree(a) ==> Loopfree(b)) && KeepsInputs(a, b)
    ensures Emulated(a, b, idx, CONTROLS)
  {
    CheckedAsynchronous(a, b, idx);
    var m0 := RamOf(a, (_, _) => Sx);
    hide Eval, SoftRuns, RdKnown, WrKnown, NoConflicts, PortRuns, Checked, Bypassable, RamShape, RdShape,
         AddressRegistered, Loopfree;
    forall init: Contents, envs: seq<Env> | Allowed(a, idx, init, envs, CONTROLS) && Runs(b, idx, init, envs)
      ensures Reads(a, idx, init, envs)
    {
      CheckedBypassable(a, idx, init);
      assert RamOf(b, init) == RamOf(a, init);
      assert RamOf(a, init).wr == m0.wr;
      AddressRdffRefines(a.rd[idx], b.rd[idx], RamOf(a, init), b.ffs, b.cells, envs);
    }
  }

  // ---------------------------------------------------------------- stages on every read port

  /** Legal inputs stay legal, and every run afterwards is a run before. */
  ghost predicate Preserved(a: MemView, b: MemView, i: nat, g: Given) {
    KeepsRead(a, b, i, g) && KeepsAllowed(a, b, i, g)
  }

  ghost predicate KeepsAllowed(a: MemView, b: MemView, i: nat, g: Given)
    requires i < |a.rd| && i < |b.rd|
  {
    forall init: Contents, envs: seq<Env> ::
      Allowed(a, i, init, envs, g) && SoftRuns(b.ffs, b.cells, envs) ==> Allowed(b, i, init, envs, g)
  }

  /** Logic is only added, and it closes no combinational loop. */
  ghost predicate Grows(a: MemView, b: MemView) {
    && a.ffs <= b.ffs && a.cells <= b.cells && a.nextWire <= b.nextWire && KeepsInputs(a, b)
    && (Loopfree(a) ==> Loopfree(b))
  }

  /** Every step of every run in which the given writers are definite leaves the same contents behind. */
  ghost predicate KeepsContents(a: MemView, b: MemView, ks: set<nat>) {
    forall init: Contents, envs: seq<Env> ::
      RamShape(RamOf(a, init)) && WrKnown(RamOf(a, init), ks, envs) ==> SameContents(a, b, init, envs)
  }

  ghost predicate SameContents(a: MemView, b: MemView, init: Contents, envs: seq<Env>) {
    RamShape(RamOf(a, init)) && RamShape(RamOf(b, init)) && SameWrites(RamOf(a, init), RamOf(b, init), envs)
  }

  /** Two write ports of `b` never write one stored bit in the same step, in any run in which those of `a` are
      definite. */
  ghost predicate Exclusive(a: MemView, b: MemView, idx1: nat, idx2: nat) {
    forall init: Contents, envs: seq<Env> ::
      WrKnown(RamOf(a, init), {idx1, idx2}, envs) ==> NeverBoth(b, idx1, idx2, envs)
  }

  ghost predicate NeverBoth(v: MemView, idx1: nat, idx2: nat, envs: seq<Env>) {
    && idx1 < |v.wr| && idx2 < |v.wr| && WrShape(v.wr[idx1], v.width) && WrShape(v.wr[idx2], v.width)
    && forall t: nat, w: nat, b: nat :: t < |envs| - 1 && b < v.width ==> !BothWrite(v, idx1, idx2, envs, t, w, b)
  }

  predicate BothWrite(v: MemView, idx1: nat, idx2: nat, envs: seq<Env>, t: nat, w: nat, b: nat)
    requires idx1 < |v.wr| && idx2 < |v.wr| && WrShape(v.wr[idx1], v.width) && WrShape(v.wr[idx2], v.width) &&
        t < |envs| - 1 && b < v.width
  {
    Writes(v.wr[idx1], v.width, envs[t], envs[t + 1], w, b) == S1 &&
        Writes(v.wr[idx2], v.width, envs[t], envs[t + 1], w, b) == S1
  }

  lemma SameWriters(a: MemView, b: MemView, c: MemView, idx1: nat, idx2: nat)
    requires b.width == a.width && b.start == a.start && b.size == a.size && b.wr == a.wr
    requires KeepsContents(b, c, {idx1, idx2}) && Exclusive(b, c, idx1, idx2)
    ensures KeepsContents(a, c, {idx1, idx2}) && Exclusive(a, c, idx1, idx2)
  {
    hide WrKnown, NeverBoth, SameWrites;
    forall init: Contents, envs: seq<Env> | RamShape(RamOf(a, init)) && WrKnown(RamOf(a, init), {idx1, idx2}, envs)
      ensures SameContents(a, c, init, envs)
    {
      assert RamOf(b, init) == RamOf(a, init);
      assert SameContents(b, c, init, envs);
    }
    forall init: Contents, envs: seq<Env> | WrKnown(RamOf(a, init), {idx1, idx2}, envs)
      ensures NeverBoth(c, idx1, idx2, envs)
    {
      assert RamOf(b, init) == RamOf(a, init);
    }
  }

  lemma ContentsItself(a: MemView, ks: set<nat>)
    ensures KeepsContents(a, a, ks)
  {
    hide AfterWrites, WrKnown;
  }

  lemma PreservedItself(a: MemView, i: nat, g: Given)
    requires i < |a.rd|
    ensures Preserved(a, a, i, g)
  {
    hide SoftRuns, PortRuns, RdKnown, WrKnown, NoConflicts, RamShape, RdShape;
  }

  lemma PreservedTransitive(a: MemView, b: MemView, c: MemView, i: nat, g: Given)
    requires Preserved(a, b, i, g) && Preserved(b, c, i, g) && Grows(b, c)
    ensures Preserved(a, c, i, g)
  {
    hide SoftRuns, PortRuns, RdShape, RamShape, Loopfree;
    forall init: Contents, envs: seq<Env> | Allowed(a, i, init, envs, g) && SoftRuns(c.ffs, c.cells, envs)
      ensures Allowed(c, i, init, envs, g) && (Runs(c, i, init, envs) ==> Reads(a, i, init, envs))
    {
      hide Allowed;
      SoftRunsPrefix(b, c, envs);
      assert Allowed(b, i, init, envs, g);
      if Runs(c, i, init, envs) {
        assert Reads(b, i, init, envs);
        assert Runs(b, i, init, envs);
      }
    }
  }

  /** Whatever includes the given is preserved. */
  ghost predicate Preserves(a: MemView, b: MemView, i: nat, least: Given) {
    forall g :: AtMost(least, g) ==> Preserved(a, b, i, g)
  }

  lemma PreservesItself(a: MemView, i: nat, least: Given)
    requires i < |a.rd|
    ensures Preserves(a, a, i, least)
  {
    hide Preserved, AtMost;
    forall g | AtMost(least, g) ensures Preserved(a, a, i, g) { PreservedItself(a, i, g); }
  }

  lemma PreservesTransitive(a: MemView, b: MemView, c: MemView, i: nat, least: Given, least': Given)
    requires Preserves(a, b, i, least) && Preserves(b, c, i, least') && AtMost(least', least) && Grows(b, c)
    ensures Preserves(a, c, i, least)
  {
    hide Preserved, Grows;
    forall g | AtMost(least, g) ensures Preserved(a, c, i, g) {
      assert AtMost(least', g);
      PreservedTransitive(a, b, c, i, g);
    }
  }

  /** A step on one read port preserves every read port. */
  lemma EmulatedPreserves(a: MemView, b: MemView, idx: nat, i: nat, g: Given)
    requires Emulated(a, b, idx, g) && i < |a.rd|
    ensures Preserves(a, b, i, if i == idx then g.(reader := Definite) else NOTHING) && Grows(a, b)
  {
    hide SoftRuns, PortRuns, RdKnownStep, RdDecided, WrKnown, NoConflicts, RamShape, RdShape, Checked, Loopfree;
    var least := if i == idx then g.(reader := Definite) else NOTHING;
    forall g', init: Contents, envs: seq<Env> | AtMost(least, g') && Allowed(a, i, init, envs, g')
      ensures Allowed(b, i, init, envs, g') && (Runs(b, i, init, envs) ==> Reads(a, i, init, envs))
    {
      assert RamOf(b, init) == RamOf(a, init);
      if i == idx { AllowedUnder(a, i, init, envs, g, g'); }
    }
    assert forall g' :: AtMost(least, g') ==> KeepsRead(a, b, i, g') && KeepsAllowed(a, b, i, g');
  }

  predicate SeesWinnerAt(v: MemView, i: nat, idx1: nat, idx2: nat) {
    && i < |v.rd| && idx1 < |v.rd[i].transparency| && idx2 < |v.rd[i].transparency| == |v.rd[i].collisionX|
    && SeesWinner(v.rd[i], idx1, idx2)
  }

  /** The read port would see `idx1` where `idx2` writes over it. */
  predicate MissesWinner(p: MemRd, idx1: nat, idx2: nat) {
    && idx1 < |p.transparency| && idx2 < |p.transparency| && idx2 < |p.collisionX|
    && !p.removed && p.transparency[idx1] && !p.transparency[idx2] && !p.collisionX[idx2]
  }

  lemma WinnerShown(a: MemView, b: MemView, i: nat, idx1: nat, idx2: nat, shown: bool)
    requires Checked(a) && i < |a.rd| == |b.rd| && idx1 < |a.wr| && idx2 < |a.wr|
    requires if shown && MissesWinner(a.rd[i], idx1, idx2)
             then MasksMoved(a.rd[i], b.rd[i], idx1) && !Clear(b.rd[i], idx1) else b.rd[i] == a.rd[i]
    ensures var p, q := a.rd[i], b.rd[i];
            && |p.transparency| == |q.transparency| == |p.collisionX| == |q.collisionX| == |a.wr|
            && q == p.(data := q.data, transparency := q.transparency, collisionX := q.collisionX)
            && MasksMoved(p, q, idx1)
            && (q == p || (!p.removed && p.transparency[idx1] && !q.transparency[idx1] && q.collisionX[idx1]))
            && (shown && !p.removed && p.transparency[idx1] ==>
                  !q.transparency[idx1] || p.transparency[idx2] || p.collisionX[idx2])
            && (p.transparency[idx2] || p.collisionX[idx2] ==> q == p)
  {
    hide Checked;
    PrioritySizes(a, i);
  }

  lemma SeesWinnerHere(v: MemView, i: nat, idx1: nat, idx2: nat)
    requires i < |v.rd| && |v.rd[i].transparency| == |v.rd[i].collisionX| && idx1 < |v.rd[i].transparency| &&
        idx2 < |v.rd[i].transparency|
    ensures SeesWinnerAt(v, i, idx1, idx2) <==> SeesWinner(v.rd[i], idx1, idx2)
  {
  }

  /** What emulating a transparency, and those written over it, takes for granted. */
  function ThroughNeeds(p: MemRd, from: nat): Given {
    Given(Definite, ThroughFrom(p, from), ThroughFrom(p, from))
  }

  /** Ports seen through later were seen through from the start. */
  lemma ThroughMoved(p: MemRd, q: MemRd, widx: nat, i: nat)
    requires MasksMoved(p, q, widx + 1) && widx <= i && widx < |p.transparency| && p.transparency[widx]
    ensures AtMost(ThroughNeeds(q, i), ThroughNeeds(p, widx)) && AtMost(BypassNeeds(q, widx), ThroughNeeds(p, widx))
  {
  }

  /** What emulating priority takes for granted of a read port: two definite writers, and more where transparency has to
      be emulated as well. */
  function PriorityNeeds(p: MemRd, idx1: nat, idx2: nat): Given
    requires idx1 < |p.transparency| && idx2 < |p.transparency| == |p.collisionX|
  {
    if SeesWinner(p, idx1, idx2) then Given(Any, {idx1, idx2}, {})
    else Given(Definite, ThroughFrom(p, idx1) + {idx1, idx2}, ThroughFrom(p, idx1))
  }

  /** What one emulated transparency means for all the read ports. */
  lemma AfterTransparency(a: MemView, b: MemView, c: MemView, i: nat, idx1: nat, idx2: nat)
    requires i < |b.rd| && Emulated(b, c, i, ThroughNeeds(b.rd[i], idx1))
    requires MasksMoved(b.rd[i], c.rd[i], idx1) && |a.rd| == |b.rd| && Grows(a, b) && b.rd[i] == a.rd[i]
    requires idx1 < |b.rd[i].transparency| && idx2 < |b.rd[i].transparency| && !c.rd[i].transparency[idx1]
    requires !SeesWinner(b.rd[i], idx1, idx2)
    requires forall j :: 0 <= j < |b.rd| ==> PriorityPreserves(a, b, j, idx1, idx2)
    requires forall j :: 0 <= j < i && !a.rd[j].removed ==> SeesWinnerAt(b, j, idx1, idx2)
    ensures Checked(c) && |c.rd| == |b.rd| && c.wr == b.wr && c.width == b.width && c.start == b.start &&
        c.size == b.size && Grows(a, c)
    ensures forall j :: 0 <= j < |c.rd| && j != i ==> c.rd[j] == b.rd[j]
    ensures forall j :: 0 <= j < |c.rd| ==> PriorityPreserves(a, c, j, idx1, idx2)
    ensures forall j :: 0 <= j <= i && !a.rd[j].removed ==> SeesWinnerAt(c, j, idx1, idx2)
  {
    hide Checked, KeepsRead, KeepsKnown, Preserves, Loopfree;
    forall j | 0 <= j < |c.rd| ensures PriorityPreserves(a, c, j, idx1, idx2) {
      assert PriorityPreserves(a, b, j, idx1, idx2);
      var g := ThroughNeeds(b.rd[i], idx1);
      EmulatedPreserves(b, c, i, j, g);
      PreservesTransitive(a, b, c, j, PriorityNeeds(a.rd[j], idx1, idx2), if j == i then g else NOTHING);
    }
    forall j | 0 <= j <= i && !a.rd[j].removed ensures SeesWinnerAt(c, j, idx1, idx2) {
      if j < i { assert SeesWinnerAt(b, j, idx1, idx2); }
    }
  }

  ghost predicate PriorityPreserves(a: MemView, b: MemView, i: nat, idx1: nat, idx2: nat) {
    && i < |a.rd| && i < |b.rd|
    && idx1 < |a.rd[i].transparency| && idx2 < |a.rd[i].transparency| == |a.rd[i].collisionX|
    && Preserves(a, b, i, PriorityNeeds(a.rd[i], idx1, idx2))
  }

  lemma PriorityItself(a: MemView, i: nat, idx1: nat, idx2: nat)
    requires Checked(a) && i < |a.rd| && idx1 < |a.wr| && idx2 < |a.wr|
    ensures PriorityPreserves(a, a, i, idx1, idx2)
  {
    hide Checked, Preserves, PriorityNeeds;
    PrioritySizes(a, i);
    PreservesItself(a, i, PriorityNeeds(a.rd[i], idx1, idx2));
  }

  lemma PriorityThen(a: MemView, b: MemView, c: MemView, i: nat, idx1: nat, idx2: nat)
    requires PriorityPreserves(a, b, i, idx1, idx2) && Preserves(b, c, i, Given(Any, {idx1, idx2}, {}))
    requires Grows(b, c) && i < |c.rd|
    ensures PriorityPreserves(a, c, i, idx1, idx2)
  {
    hide Preserves, Grows, ThroughFrom;
    PreservesTransitive(a, b, c, i, PriorityNeeds(a.rd[i], idx1, idx2), Given(Any, {idx1, idx2}, {}));
  }

  /** The write ports after priority of `idx2` over `idx1` has been emulated. */
  function PrioritisedWr(a: MemView, idx1: nat, idx2: nat): seq<MemWr>
    requires idx1 < |a.wr| && idx2 < |a.wr| && idx1 < |a.wr[idx2].priority|
    requires Ports(a.wr[idx1], a.wr[idx2], a.width)
  {
    var wp1, wp2 := a.wr[idx1], a.wr[idx2];
    a.wr[idx1 := MaskedPort(wp1, wp2, a.width)][idx2 := wp2.(priority := wp2.priority[idx1 := false])]
  }

  lemma FewerKnown(m: Ram, ks: set<nat>, more: set<nat>, envs: seq<Env>)
    requires WrKnown(m, more, envs) && ks <= more
    ensures WrKnown(m, ks, envs)
  {
    hide WrKnownStep;
  }

  lemma PriorityStage(a: MemView, b: MemView, idx1: nat, idx2: nat, i: nat)
    requires Checked(a) && i < |a.rd| && idx1 < |a.wr| && idx2 < |a.wr| && !a.wr[idx1].removed && !a.wr[idx2].removed
    requires |a.rd[i].transparency| == |a.rd[i].collisionX| == |a.wr| && |a.wr[idx2].priority| == |a.wr| &&
        a.wr[idx2].priority[idx1]
    requires Ports(a.wr[idx1], a.wr[idx2], a.width) && SeesWinner(a.rd[i], idx1, idx2)
    requires b == a.(wr := PrioritisedWr(a, idx1, idx2))
    ensures Preserves(a, b, i, Given(Any, {idx1, idx2}, {}))
  {
    assert CheckedWr(a, idx2);
    hide SoftRuns, PortRuns, RdKnown, RdDecided, WrKnown, NoConflicts, Checked, RdShape, RamShape, SameActivity, Ports,
        MaskedPort, SeesWinner;
    var least := Given(Any, {idx1, idx2}, {});
    forall g, init: Contents, envs: seq<Env> | AtMost(least, g) && Allowed(a, i, init, envs, g)
      ensures Allowed(b, i, init, envs, g) && (Runs(b, i, init, envs) ==> Reads(a, i, init, envs))
    {
      CheckedShapes(a, init);
      var m := RamOf(a, init);
      assert Contend(m, idx1, idx2);
      assert RamOf(b, init) == Prioritised(m, idx1, idx2);
      PrioritisedAllowed(m, idx1, idx2, g.writers, g.apart, envs);
      FewerKnown(m, {idx1, idx2}, g.writers, envs);
      if Runs(b, i, init, envs) { PrioritisedReads(a.rd[i], m, idx1, idx2, envs); }
    }
    assert forall g :: AtMost(least, g) ==> KeepsRead(a, b, i, g) && KeepsAllowed(a, b, i, g);
  }

  /** The write side of the priority rewrite. */
  lemma PriorityContents(a: MemView, b: MemView, idx1: nat, idx2: nat)
    requires Checked(a) && idx1 < |a.wr| && idx2 < |a.wr| && !a.wr[idx1].removed && !a.wr[idx2].removed
    requires |a.wr[idx2].priority| == |a.wr| && a.wr[idx2].priority[idx1] && Ports(a.wr[idx1], a.wr[idx2], a.width)
    requires b == a.(wr := PrioritisedWr(a, idx1, idx2))
    ensures KeepsContents(a, b, {idx1, idx2}) && Exclusive(a, b, idx1, idx2)
  {
    assert CheckedWr(a, idx2);
    hide WrKnown, Checked, RamShape, SameActivity, Ports, MaskedPort, SameWrites, NeverBoth;
    forall init: Contents, envs: seq<Env> | WrKnown(RamOf(a, init), {idx1, idx2}, envs)
      ensures SameContents(a, b, init, envs) && NeverBoth(b, idx1, idx2, envs)
    {
      CheckedShapes(a, init);
      var m := RamOf(a, init);
      assert Contend(m, idx1, idx2);
      assert RamOf(b, init) == Prioritised(m, idx1, idx2);
      PrioritisedSame(m, idx1, idx2, envs);
      PriorityExclusive(m, b, idx1, idx2, envs);
    }
  }

  lemma PriorityExclusive(m: Ram, b: MemView, idx1: nat, idx2: nat, envs: seq<Env>)
    requires Contend(m, idx1, idx2) && WrKnown(m, {idx1, idx2}, envs) && RamOf(b, m.init) == Prioritised(m, idx1, idx2)
    ensures NeverBoth(b, idx1, idx2, envs)
  {
    hide WrKnownStep, SameActivity, Ports, MaskedPort, Writes, WriteData;
    forall t: nat, w: nat, bit: nat | t < |envs| - 1 && bit < b.width
      ensures !BothWrite(b, idx1, idx2, envs, t, w, bit)
    {
      assert WrKnownStep(m.wr[idx1], envs[t], envs[t + 1]) && WrKnownStep(m.wr[idx2], envs[t], envs[t + 1]);
      MaskedWrites(m.wr[idx1], m.wr[idx2], m.width, envs[t], envs[t + 1], w, bit);
      SameWriter(m.wr[idx2], b.wr[idx2], m.width, envs[t], envs[t + 1], w, bit);
    }
  }

  lemma SameWriter(wp: MemWr, wp': MemWr, width: nat, e0: Env, e1: Env, w: nat, b: nat)
    requires WrShape(wp, width) && b < width && wp' == wp.(priority := wp'.priority)
    ensures WrShape(wp', width) && Writes(wp', width, e0, e1, w, b) == Writes(wp, width, e0, e1, w, b)
  {
    hide Eval, Edge, AddrHit;
  }

  lemma CheckedPriority(a: MemView, b: MemView, idx1: nat, idx2: nat)
    requires Checked(a) && idx1 < |a.wr| && idx2 < |a.wr| && Ports(a.wr[idx1], a.wr[idx2], a.width)
    requires |a.wr[idx2].priority| == |a.wr| && idx1 != idx2
    requires b == a.(wr := PrioritisedWr(a, idx1, idx2))
    ensures Checked(b)
  {
    hide MaskedPort, RdShape, Aligned, WrShape, SameActivity, Domain, Ports;
    MaskedPriority(a.wr[idx1], a.wr[idx2], a.width);
    assert b.wr[idx1] == a.wr[idx1].(en := b.wr[idx1].en) && WrShape(b.wr[idx1], a.width);
    forall k | 0 <= k < |b.wr| ensures SameButEnable(a.wr[k], b.wr[k]) { }
    forall k | 0 <= k < |b.wr| ensures WrShape(b.wr[k], b.width) {
      assert CheckedWr(a, k);
      if k != idx1 { SamePorts(a.wr[k], b.wr[k], a.width); }
    }
    CheckedLessOrder(a, b);
  }

  /** Equal up to enables, with no more priority than before. */
  predicate SameButEnable(wp: MemWr, wp': MemWr) {
    && wp' == wp.(en := wp'.en, priority := wp'.priority) && |wp'.priority| == |wp.priority|
    && forall j :: 0 <= j < |wp.priority| && wp'.priority[j] ==> wp.priority[j]
  }

  lemma CheckedLessOrder(a: MemView, b: MemView)
    requires Checked(a) && b == a.(wr := b.wr) && |b.wr| == |a.wr|
    requires forall k :: 0 <= k < |b.wr| ==> SameButEnable(a.wr[k], b.wr[k]) && WrShape(b.wr[k], b.width)
    ensures Checked(b)
  {
    hide RdShape, Aligned, SameActivity, Domain, WrShape;
    forall k | 0 <= k < |b.wr| ensures CheckedWr(b, k) {
      assert CheckedWr(a, k) && SameButEnable(a.wr[k], b.wr[k]);
      forall j | 0 <= j < |b.wr| && b.wr[k].priority[j] && !b.wr[j].removed && !b.wr[k].removed
        ensures j < k && SameActivity(b.wr[j], b.wr[k])
      {
        assert SameButEnable(a.wr[j], b.wr[j]);
        SameActivityLike(a.wr[j], a.wr[k], b.wr[j], b.wr[k]);
      }
    }
    forall i | 0 <= i < |b.rd| ensures CheckedRd(b, i) {
      assert CheckedRd(a, i);
      forall k | 0 <= k < |b.wr| && Domain(a.rd[i], a.wr[k]) ensures Domain(b.rd[i], b.wr[k]) {
        assert SameButEnable(a.wr[k], b.wr[k]);
        SameDomainLike(a.rd[i], a.wr[k], b.wr[k]);
      }
      forall k | 0 <= k < |b.wr| ensures b.wr[k].removed == a.wr[k].removed { assert SameButEnable(a.wr[k], b.wr[k]); }
    }
  }

  lemma SamePorts(wp: MemWr, wp': MemWr, width: nat)
    requires WrShape(wp, width) && wp'.(priority := wp.priority) == wp
    ensures WrShape(wp', width)
  {
  }

  lemma SameDomainLike(p: MemRd, wp: MemWr, wp': MemWr)
    requires Domain(p, wp) && wp'.clkEnable == wp.clkEnable && wp'.clk == wp.clk && wp'.clkPolarity == wp.clkPolarity
    ensures Domain(p, wp')
  {
  }

  lemma CheckedWriter(a: MemView, idx: nat)
    requires Checked(a) && idx < |a.wr|
    ensures a.width > 0 && WrShape(a.wr[idx], a.width) && Aligned(a.wr[idx].addr, a.wr[idx].wideLog2) &&
        |a.wr[idx].priority| == |a.wr|
  {
    assert CheckedWr(a, idx);
  }

  /** The two ports of an ordered pair. */
  lemma CheckedPair(a: MemView, idx1: nat, idx2: nat)
    requires Checked(a) && idx1 < |a.wr| && idx2 < |a.wr| && !a.wr[idx1].removed && !a.wr[idx2].removed
    ensures Ports(a.wr[idx1], a.wr[idx2], a.width) && |a.wr[idx2].priority| == |a.wr|
    ensures a.wr[idx2].priority[idx1] ==> idx1 < idx2
  {
    assert CheckedWr(a, idx1) && CheckedWr(a, idx2);
    hide Checked;
  }

  /** Aligning to one width keeps the alignment to any other. */
  lemma StillWhole(a: MemView, b: MemView, log: nat, max: nat)
    requires b.start == AlignedStart(a.start, max) && b.size == AlignedSize(a.start, a.size, max)
    ensures WholeWords(a, log) ==> WholeWords(b, log)
  {
    hide Low;
    if log <= max {
      AlignedGeometry(a.start, a.size, max);
      LowLow(b.start, log, max);
      LowLow(b.size, log, max);
      NoLow(log);
    } else {
      LowLow(a.start, max, log);
      LowLow(a.size, max, log);
      NoLow(max);
    }
  }

  lemma {:induction false} NoLow(k: nat)
    ensures Low(0, k) == 0
  {
    if k > 0 { NoLow(k - 1); }
  }

  /** Widening one write port leaves a consistent memory. */
  lemma WidenChecked(a: MemView, b: MemView, idx: nat, max: nat)
    requires Checked(a) && idx < |a.wr| && WrShape(a.wr[idx], a.width) &&
        a.wr[idx].wideLog2 <= max <= |a.wr[idx].addr| && Aligned(a.wr[idx].addr, a.wr[idx].wideLog2)
    requires b == a.(start := AlignedStart(a.start, max), size := AlignedSize(a.start, a.size, max),
                     wr := a.wr[idx := Widened(a.wr[idx], a.width, max)])
    ensures Checked(b)
  {
    hide Widened, RdShape, Aligned, Span, Pow2, AlignedStart, AlignedSize, WholeWords;
    WidenedPriority(a.wr[idx], a.width, max);
    WidenedAligned(a.wr[idx], a.width, max);
    assert WholeWords(b, max) by { NowWhole(a, b, max); }
    forall k | 0 <= k < |b.wr| ensures CheckedWr(b, k) {
      assert CheckedWr(a, k);
      StillWhole(a, b, a.wr[k].wideLog2, max);
    }
    forall i | 0 <= i < |b.rd| ensures CheckedRd(b, i) {
      assert CheckedRd(a, i);
      StillWhole(a, b, a.rd[i].wideLog2, max);
    }
  }

  lemma NowWhole(a: MemView, b: MemView, max: nat)
    requires b.start == AlignedStart(a.start, max) && b.size == AlignedSize(a.start, a.size, max)
    ensures WholeWords(b, max)
  {
    hide AlignedStart, AlignedSize;
    AlignedGeometry(a.start, a.size, max);
  }

  lemma WidenStage(a: MemView, b: MemView, idx: nat, max: nat)
    requires Checked(a) && idx < |a.wr| && WrShape(a.wr[idx], a.width) &&
        a.wr[idx].wideLog2 <= max <= |a.wr[idx].addr| && Aligned(a.wr[idx].addr, a.wr[idx].wideLog2)
    requires b == a.(start := AlignedStart(a.start, max), size := AlignedSize(a.start, a.size, max),
                     wr := a.wr[idx := Widened(a.wr[idx], a.width, max)])
    ensures Checked(b) && KeepsContents(a, b, {idx})
    ensures forall i :: 0 <= i < |a.rd| ==> Preserves(a, b, i, Given(Any, {idx}, {}))
  {
    hide SoftRuns, PortRuns, RdKnown, RdDecided, WrKnown, NoConflicts, Widened, RdShape, Aligned, Span, Pow2,
         AlignedStart, AlignedSize, Checked, RamShape, SameWrites;
    WidenChecked(a, b, idx, max);
    forall init: Contents, envs: seq<Env> | RamShape(RamOf(a, init)) && WrKnown(RamOf(a, init), {idx}, envs)
      ensures SameContents(a, b, init, envs)
    {
      assert RamOf(b, init) == WidenedRam(RamOf(a, init), idx, max);
      WidenedSame(RamOf(a, init), idx, max, envs);
    }
    var least := Given(Any, {idx}, {});
    forall i, g, init: Contents, envs: seq<Env> | 0 <= i < |a.rd| && AtMost(least, g) && Allowed(a, i, init, envs, g)
      ensures Allowed(b, i, init, envs, g) && (Runs(b, i, init, envs) ==> Reads(a, i, init, envs))
    {
      CheckedShapes(a, init);
      var m := RamOf(a, init);
      assert RamOf(b, init) == WidenedRam(m, idx, max);
      WidenedAllowed(m, idx, max, g.writers, g.apart, envs);
      FewerKnown(m, {idx}, g.writers, envs);
      if Runs(b, i, init, envs) { WidenedReads(a.rd[i], m, idx, max, envs); }
    }
    assert forall i, g :: 0 <= i < |a.rd| && AtMost(least, g) ==> KeepsRead(a, b, i, g) && KeepsAllowed(a, b, i, g);
  }

  // ---------------------------------------------------------------- splitting all ports

  /** The same of the narrow ports. */
  function SplitGiven(wr: seq<MemWr>, g: Given): Given {
    g.(writers := SplitSet(wr, g.writers), apart := SplitSet(wr, g.apart))
  }

  /** Read port `i` of a memory whose ports have all been split: it runs when all its narrow ports do. */
  ghost predicate SplitPreserved(a: MemView, b: MemView, i: nat, g: Given)
    requires i < |a.rd|
  {
    var at, n := Total(RdLogs(a.rd), i), Pow2(a.rd[i].wideLog2);
    && at + n <= |b.rd|
    && forall init: Contents, envs: seq<Env> | Allowed(a, i, init, envs, g) ::
         && (forall x :: at <= x < at + n ==> Allowed(b, x, init, envs, SplitGiven(a.wr, g)))
         && ((forall x :: at <= x < at + n ==> Runs(b, x, init, envs)) ==> Reads(a, i, init, envs))
  }

  lemma CheckedSplittable(a: MemView)
    requires Checked(a)
    ensures NarrowShape(a.wr, a.width) && forall i :: 0 <= i < |a.rd| ==> RdShape(a.rd[i], a.width, |a.wr|)
  {
    hide RdShape, WrShape, SameActivity, Domain;
    forall k | 0 <= k < |a.wr| ensures WrShape(a.wr[k], a.width) && |a.wr[k].priority| == |a.wr| {
      assert CheckedWr(a, k);
    }
    forall i | 0 <= i < |a.rd| ensures RdShape(a.rd[i], a.width, |a.wr|) { assert CheckedRd(a, i); }
  }

  /** The split memory: every port replaced by its narrow ports. */
  ghost predicate IsSplit(a: MemView, b: MemView, m: Ram) {
    && RamShape(m) && m == RamOf(a, m.init) && NarrowShape(a.wr, a.width)
    && (forall i :: 0 <= i < |a.rd| ==> RdShape(a.rd[i], a.width, |a.wr|))
    && b == a.(wr := NarrowWr(a.wr, |a.wr|, a.width), rd := b.rd)
    && |b.rd| == Total(RdLogs(a.rd), |a.rd|) && (forall x :: 0 <= x < |b.rd| ==> NarrowRdAt(a, b, m, x))
  }

  predicate NarrowRdAt(a: MemView, b: MemView, m: Ram, x: nat)
    requires RamShape(m) && m.wr == a.wr && m.width == a.width && NarrowShape(a.wr, a.width)
    requires forall i :: 0 <= i < |a.rd| ==> RdShape(a.rd[i], a.width, |a.wr|)
    requires x < |b.rd| == Total(RdLogs(a.rd), |a.rd|)
  {
    var it := Subs(RdLogs(a.rd), |a.rd|)[x];
    b.rd[x] == SubRd(a.rd[it.0], m, it.1)
  }

  lemma SubRdInit(p: MemRd, m: Ram, m': Ram, sub: nat)
    requires RamShape(m) && m' == m.(init := m'.init) && RdShape(p, m.width, |m.wr|) && NarrowShape(m.wr, m.width) &&
        sub < Pow2(p.wideLog2)
    ensures RamShape(m') && SubRd(p, m', sub) == SubRd(p, m, sub)
  {
    hide ExpandMask, SubAddr, Flat;
  }

  lemma SubRdKnown(p: MemRd, m: Ram, sub: nat, envs: seq<Env>)
    requires RamShape(m) && RdShape(p, m.width, |m.wr|) && NarrowShape(m.wr, m.width) && sub < Pow2(p.wideLog2)
    ensures RdKnown(p, envs) ==> RdKnown(SubRd(p, m, sub), envs)
    ensures RdDecided(p, envs) ==> RdDecided(SubRd(p, m, sub), envs)
  {
    hide Eval, Edge, SubRd, RamShape, NarrowShape, RdShape;
    SubRdControls(p, m, sub);
    forall t: nat | t + 1 < |envs|
      ensures RdKnownStep(SubRd(p, m, sub), envs[t], envs[t + 1]) == RdKnownStep(p, envs[t], envs[t + 1])
      ensures RdDecidedStep(SubRd(p, m, sub), envs[t], envs[t + 1]) == RdDecidedStep(p, envs[t], envs[t + 1])
    {
    }
  }

  lemma SplitStage(a: MemView, b: MemView, m: Ram, i: nat, g: Given)
    requires IsSplit(a, b, m) && i < |a.rd| && WideOnes(a.wr) <= g.writers
    ensures SplitPreserved(a, b, i, g)
  {
    hide SoftRuns, PortRuns, RdKnown, RdDecided, WrKnown, SplitSet, WideOnes, NoConflicts, NarrowWr, Subs, SubRd, Pow2,
         RdShape, RamShape, NarrowShape, Total, Eval;
    var logs, p := RdLogs(a.rd), a.rd[i];
    var at, n := Total(logs, i), Pow2(p.wideLog2);
    SubsAt(logs, |logs|, i, n - 1);
    forall init: Contents, envs: seq<Env> | Allowed(a, i, init, envs, g)
      ensures (forall x :: at <= x < at + n ==> Allowed(b, x, init, envs, SplitGiven(a.wr, g))) &&
          ((forall x :: at <= x < at + n ==> Runs(b, x, init, envs)) ==> Reads(a, i, init, envs))
    {
      var m' := RamOf(a, init);
      assert m' == m.(init := init);
      NarrowAllowed(m', g.writers, g.apart, envs);
      assert NarrowRam(m') == RamOf(b, init);
      forall sub: nat | sub < n ensures b.rd[at + sub] == SubRd(p, m', sub) {
        SubsAt(logs, |logs|, i, sub);
        assert NarrowRdAt(a, b, m, at + sub);
        SubRdInit(p, m, m', sub);
      }
      forall x | at <= x < at + n ensures Allowed(b, x, init, envs, SplitGiven(a.wr, g)) {
        var sub: nat := x - at;
        assert b.rd[at + sub] == SubRd(p, m', sub);
        SubRdKnown(p, m', sub, envs);
      }
      if forall x :: at <= x < at + n ==> Runs(b, x, init, envs) {
        SplitRuns(a, b, i, init, envs, g);
      }
    }
  }

  ghost function SplitFrom(a: MemView): (r: seq<(nat, nat)>)
    ensures |r| == Total(RdLogs(a.rd), |a.rd|)
    ensures forall y :: 0 <= y < |r| ==> var it := Subs(RdLogs(a.rd), |a.rd|)[y]; r[y] == (it.0, Span(a.width, it.1))
  {
    var subs := Subs(RdLogs(a.rd), |a.rd|);
    seq(|subs|, y requires 0 <= y < |subs| => (subs[y].0, Span(a.width, subs[y].1)))
  }

  ghost function SplitClocks(a: MemView): (r: seq<nat>)
    ensures |r| == Total(WrLogs(a.wr), |a.wr|) && forall k :: 0 <= k < |r| ==> r[k] == Subs(WrLogs(a.wr), |a.wr|)[k].0
  {
    var subs := Subs(WrLogs(a.wr), |a.wr|);
    seq(|subs|, k requires 0 <= k < |subs| => subs[k].0)
  }

  ghost function SplitHome(a: MemView): (nat, nat) -> (nat, nat)
    requires a.width > 0
  {
    (n: nat, j: nat) => if n <= |a.rd| then (Total(RdLogs(a.rd), n) + SubOf(a.width, j), BitOf(a.width, j)) else (0, 0)
  }

  lemma {:induction false} SubAddrBits(addr: Sig, k: nat, sub: nat, i: nat)
    requires k <= |addr| && i < |addr|
    ensures SubAddr(addr, k, sub)[i].Const? || SubAddr(addr, k, sub)[i] in addr
    decreases k
  {
    if k > 0 && i > 0 { SubAddrBits(addr[1..], k - 1, sub / 2, i - 1); }
  }

  lemma SubRdSlice(p: MemRd, m: Ram, sub: nat)
    requires RamShape(m) && RdShape(p, m.width, |m.wr|) && NarrowShape(m.wr, m.width) && sub < Pow2(p.wideLog2)
    ensures var q, lo := SubRd(p, m, sub), Span(m.width, sub);
      && |q.data| == m.width && lo + m.width <= |p.data| && q.data == p.data[lo..lo + m.width]
      && q.clkEnable == p.clkEnable && q.clk == p.clk && q.arst == p.arst
      && forall i :: 0 <= i < |q.addr| ==> q.addr[i].Const? || q.addr[i] in p.addr
  {
    hide ExpandMask, SubAddr, Flat, WrShape, NarrowShape;
    SliceBound(m.width, sub, Pow2(p.wideLog2));
    OneWord(m.width);
    forall i: nat | i < |p.addr|
      ensures SubAddr(p.addr, p.wideLog2, sub)[i].Const? || SubAddr(p.addr, p.wideLog2, sub)[i] in p.addr
    {
      SubAddrBits(p.addr, p.wideLog2, sub, i);
    }
    if p.wideLog2 == 0 { ZeroFlat(m.width, 0); }
  }

  lemma SplitSlice(a: MemView, b: MemView, m: Ram, y: nat)
    requires IsSplit(a, b, m) && y < |b.rd|
    ensures SliceOf(a, b.rd[y], y, SplitFrom(a)[y], SplitHome(a))
  {
    hide Subs, SubRd, RdShape, NarrowShape, Total, Pow2, Flat, SubOf, BitOf, NarrowWr, WrShape;
    var logs := RdLogs(a.rd);
    var it := Subs(logs, |a.rd|)[y];
    SubsPlace(logs, |a.rd|, y);
    assert NarrowRdAt(a, b, m, y);
    SubRdSlice(a.rd[it.0], m, it.1);
    forall j: nat | j < |b.rd[y].data| ensures SplitHome(a)(it.0, Span(a.width, it.1) + j) == (y, j) {
      FlatSpan(a.width, it.1, j);
      FlatSplit(a.width, it.1, j);
    }
  }

  lemma SplitHere(a: MemView, b: MemView, m: Ram, n: nat, j: nat)
    requires IsSplit(a, b, m) && n < |a.rd| && j < |a.rd[n].data|
    ensures InSlice(b, SplitFrom(a), SplitHome(a)(n, j), n, j)
  {
    hide Subs, SubRd, NarrowShape, Total, Pow2, Flat, SubOf, BitOf, NarrowWr, WrShape;
    var logs, sub, bit := RdLogs(a.rd), SubOf(a.width, j), BitOf(a.width, j);
    assert RdShape(a.rd[n], a.width, |a.wr|);
    SplitFlat(a.width, j);
    FlatBound(a.width, Pow2(a.rd[n].wideLog2), sub, bit);
    FlatSpan(a.width, sub, bit);
    SubsAt(logs, |a.rd|, n, sub);
    assert NarrowRdAt(a, b, m, Total(logs, n) + sub);
    SubRdSlice(a.rd[n], m, sub);
  }

  lemma SplitClock(a: MemView, b: MemView, m: Ram, k: nat)
    requires IsSplit(a, b, m) && k < |b.wr|
    ensures |SplitClocks(a)| == |b.wr| && SplitClocks(a)[k] < |a.wr| && b.wr[k].clk == a.wr[SplitClocks(a)[k]].clk
  {
    hide Subs, NarrowWr, Total, Pow2, Flat, ExpandMask, SubAddr;
    TotalCount(a.wr, |a.wr|);
    NarrowMapped(a.wr, a.width, seq(|a.wr|, _ => false), k);
  }

  /** The write side of splitting all ports, and the read ports have one word. */
  lemma SplitContents(a: MemView, b: MemView, m: Ram)
    requires IsSplit(a, b, m)
    ensures KeepsContents(a, b, WideOnes(a.wr)) && forall x :: 0 <= x < |b.rd| ==> b.rd[x].wideLog2 == 0
  {
    hide WrKnown, WideOnes, NarrowWr, Subs, SubRd, Pow2, RdShape, RamShape, NarrowShape, Total, SameWrites;
    forall init: Contents, envs: seq<Env> | RamShape(RamOf(a, init)) && WrKnown(RamOf(a, init), WideOnes(a.wr), envs)
      ensures SameContents(a, b, init, envs)
    {
      assert RamOf(b, init) == NarrowRam(RamOf(a, init));
      NarrowSame(RamOf(a, init), envs);
    }
    forall x | 0 <= x < |b.rd| ensures b.rd[x].wideLog2 == 0 {
      assert NarrowRdAt(a, b, m, x);
      var it := Subs(RdLogs(a.rd), |a.rd|)[x];
      SubRdNarrow(a.rd[it.0], m, it.1);
    }
  }

  /** Slicing the ports closes no loop. */
  lemma SplitLoopfree(a: MemView, b: MemView, m: Ram)
    requires IsSplit(a, b, m)
    ensures Loopfree(a) ==> Loopfree(b)
  {
    hide Subs, SubRd, RdShape, NarrowShape, Total, NarrowWr, WrShape, SliceOf, InSlice, NarrowRdAt, SplitHome,
        Loopfree, Count;
    TotalCount(a.wr, |a.wr|);
    forall k: nat | k < |b.wr| ensures SplitClocks(a)[k] < |a.wr| && b.wr[k].clk == a.wr[SplitClocks(a)[k]].clk {
      SplitClock(a, b, m, k);
    }
    forall y: nat | y < |b.rd| ensures SliceOf(a, b.rd[y], y, SplitFrom(a)[y], SplitHome(a)) { SplitSlice(a, b, m, y); }
    forall n: nat, j: nat | n < |a.rd| && j < |a.rd[n].data|
      ensures InSlice(b, SplitFrom(a), SplitHome(a)(n, j), n, j)
    {
      SplitHere(a, b, m, n, j);
    }
    assert Resliced(a, b, SplitFrom(a), SplitClocks(a), SplitHome(a));
    ReslicedLoopfree(a, b, SplitFrom(a), SplitClocks(a), SplitHome(a));
  }

  lemma SplitRuns(a: MemView, b: MemView, i: nat, init: Contents, envs: seq<Env>, g: Given)
    requires i < |a.rd| && Allowed(a, i, init, envs, g) && WideOnes(a.wr) <= g.writers
    requires NarrowShape(a.wr, a.width) && RdShape(a.rd[i], a.width, |a.wr|)
    requires RamOf(b, init) == NarrowRam(RamOf(a, init))
    requires var at, n := Total(RdLogs(a.rd), i), Pow2(a.rd[i].wideLog2);
             && at + n <= |b.rd|
             && (forall sub: nat :: sub < n ==> b.rd[at + sub] == SubRd(a.rd[i], RamOf(a, init), sub))
             && (forall x :: at <= x < at + n ==> Runs(b, x, init, envs))
    ensures Reads(a, i, init, envs)
  {
    hide SoftRuns, WrKnown, WideOnes, NoConflicts, NarrowWr, SubRd, Pow2, RdShape, RamShape, NarrowShape, Total,
         Eval, ReadBit;
    var p, m, at := a.rd[i], RamOf(a, init), Total(RdLogs(a.rd), i);
    if |envs| > 0 {
      forall sub | 0 <= sub < Pow2(p.wideLog2) ensures PortRuns(SubRd(p, m, sub), NarrowRam(m), envs) {
        assert Runs(b, at + sub, init, envs);
        assert b.rd[at + sub] == SubRd(p, m, sub);
      }
      FewerKnown(m, WideOnes(a.wr), g.writers, envs);
      NarrowReads(p, m, envs);
    }
  }

  lemma SplitCheckedWr(a: MemView, b: MemView, m: Ram, x: nat)
    requires Checked(a) && IsSplit(a, b, m) && x < |b.wr|
    ensures CheckedWr(b, x)
  {
    hide Checked, Pow2, SubWr, ExpandMask, NarrowWr, Subs, Count, SameActivity, WrShape, RdShape, NarrowRdAt, RamShape;
    var logs, wr := WrLogs(a.wr), a.wr;
    TotalCount(wr, |wr|);
    var it := Subs(logs, |wr|)[x];
    NarrowMapped(wr, a.width, wr[it.0].priority, x);
    SubWrPriority(wr, it.0, a.width, it.1);
    SubWrClock(wr, it.0, a.width, it.1);
    assert CheckedWr(a, it.0) by { CheckedAt(a, it.0); }
    forall j | 0 <= j < |b.wr| && b.wr[x].priority[j] && !b.wr[j].removed && !b.wr[x].removed
      ensures j < x && SameActivity(b.wr[j], b.wr[x])
    {
      var jt := Subs(logs, |wr|)[j];
      NarrowMapped(wr, a.width, wr[it.0].priority, j);
      SubWrClock(wr, jt.0, a.width, jt.1);
      CountLater(wr, jt.0, it.0);
      SameActivityLike(wr[jt.0], wr[it.0], b.wr[j], b.wr[x]);
    }
  }

  lemma CheckedAt(a: MemView, k: nat)
    requires Checked(a) && k < |a.wr|
    ensures CheckedWr(a, k)
  {
  }

  lemma SameActivityLike(v: MemWr, w: MemWr, v': MemWr, w': MemWr)
    requires SameActivity(v, w) && v'.clkEnable == v.clkEnable && v'.clk == v.clk && v'.clkPolarity == v.clkPolarity
    requires w'.clkEnable == w.clkEnable && w'.clk == w.clk && w'.clkPolarity == w.clkPolarity
    ensures SameActivity(v', w')
  {
  }

  lemma SplitCheckedRd(a: MemView, b: MemView, m: Ram, x: nat)
    requires Checked(a) && IsSplit(a, b, m) && x < |b.rd|
    ensures CheckedRd(b, x)
  {
    assert NarrowRdAt(a, b, m, x);
    var it := Subs(RdLogs(a.rd), |a.rd|)[x];
    var p, q := a.rd[it.0], b.rd[x];
    assert CheckedRd(a, it.0);
    hide Checked, Pow2, SubWr, ExpandMask, NarrowWr, Subs, Count, SameActivity, WrShape, SubRd, RamShape, NarrowRdAt;
    SubRdControls(p, m, it.1);
    SubRdNarrow(p, m, it.1);
    ZeroLow(b.start);
    ZeroLow(b.size);
    forall k | 0 <= k < |b.wr|
      ensures !(q.transparency[k] && q.collisionX[k]) &&
          ((q.transparency[k] || q.collisionX[k]) && !b.wr[k].removed ==> Domain(q, b.wr[k]))
    {
      TotalCount(a.wr, |a.wr|);
      var jt := Subs(WrLogs(a.wr), |a.wr|)[k];
      NarrowMapped(a.wr, a.width, p.transparency, k);
      NarrowMapped(a.wr, a.width, p.collisionX, k);
      SubWrClock(a.wr, jt.0, a.width, jt.1);
    }
  }

  lemma SubRdNarrow(p: MemRd, m: Ram, sub: nat)
    requires RamShape(m) && RdShape(p, m.width, |m.wr|) && NarrowShape(m.wr, m.width) && sub < Pow2(p.wideLog2)
    ensures SubRd(p, m, sub).wideLog2 == 0 && SubRd(p, m, sub).removed == p.removed
  {
    hide ExpandMask, SubAddr, Flat;
  }

  lemma SplitChecked(a: MemView, b: MemView, m: Ram)
    requires Checked(a) && IsSplit(a, b, m)
    ensures Checked(b)
  {
    hide CheckedWr, CheckedRd, IsSplit;
    SplitSame(a, b, m);
    forall x | 0 <= x < |b.wr| ensures CheckedWr(b, x) { SplitCheckedWr(a, b, m, x); }
    forall x | 0 <= x < |b.rd| ensures CheckedRd(b, x) { SplitCheckedRd(a, b, m, x); }
  }

  /** A narrow read port is its wide one, with the slices of its subword and every mask bit repeated. */
  predicate NarrowedRd(a: MemView, b: MemView, x: nat) {
    && x < |b.rd| == Total(RdLogs(a.rd), |a.rd|) && |b.wr| == Total(WrLogs(a.wr), |a.wr|)
    && var at := Subs(RdLogs(a.rd), |a.rd|)[x];
    var p, q, lo, hi := a.rd[at.0], b.rd[x], Span(a.width, at.1), Span(a.width, at.1) + a.width;
    && hi <= |p.data| == |p.initValue| == |p.arstValue| == |p.srstValue| && p.wideLog2 <= |p.addr|
    && q == p.(wideLog2 := 0, addr := ConstAddr(at.1, p.wideLog2) + p.addr[p.wideLog2..],
               data := p.data[lo..hi], initValue := p.initValue[lo..hi], arstValue := p.arstValue[lo..hi],
               srstValue := p.srstValue[lo..hi], transparency := q.transparency, collisionX := q.collisionX)
    && Repeated(a.wr, p.transparency, q.transparency) && Repeated(a.wr, p.collisionX, q.collisionX)
  }

  predicate NarrowedWr(a: MemView, b: MemView, x: nat) {
    && x < |b.wr| == Total(WrLogs(a.wr), |a.wr|)
    && var at := Subs(WrLogs(a.wr), |a.wr|)[x];
    var p, q, lo, hi := a.wr[at.0], b.wr[x], Span(a.width, at.1), Span(a.width, at.1) + a.width;
    && hi <= |p.data| == |p.en| && p.wideLog2 <= |p.addr|
    && q == p.(wideLog2 := 0, addr := ConstAddr(at.1, p.wideLog2) + p.addr[p.wideLog2..],
               data := p.data[lo..hi], en := p.en[lo..hi], priority := q.priority)
    && Repeated(a.wr, p.priority, q.priority)
  }

  /** Every narrow write port has the mask bit of its wide one. */
  predicate Repeated(wr: seq<MemWr>, mask: seq<bool>, mask': seq<bool>) {
    && |mask| == |wr| && |mask'| == Total(WrLogs(wr), |wr|)
    && forall y :: 0 <= y < |mask'| ==> mask'[y] == mask[Subs(WrLogs(wr), |wr|)[y].0]
  }

  lemma ExpandRepeats(wr: seq<MemWr>, width: nat, mask: seq<bool>)
    requires NarrowShape(wr, width) && |mask| == |wr|
    ensures Repeated(wr, mask, ExpandMask(wr, |wr|, mask))
  {
    hide Subs, Total, Pow2, ExpandMask, Count, NarrowWr, SubWr, WrShape;
    TotalCount(wr, |wr|);
    forall y | 0 <= y < Total(WrLogs(wr), |wr|)
      ensures ExpandMask(wr, |wr|, mask)[y] == mask[Subs(WrLogs(wr), |wr|)[y].0]
    {
      NarrowMapped(wr, width, mask, y);
    }
  }

  lemma SplitNarrowed(a: MemView, b: MemView, m: Ram)
    requires IsSplit(a, b, m)
    ensures forall x :: 0 <= x < |b.rd| ==> NarrowedRd(a, b, x)
    ensures forall x :: 0 <= x < |b.wr| ==> NarrowedWr(a, b, x)
  {
    hide Subs, SubRd, SubWr, Total, Pow2, Flat, NarrowWr, ExpandMask, SubAddr, ConstAddr, Count, Repeated;
    TotalCount(a.wr, |a.wr|);
    forall x | 0 <= x < |b.rd| ensures NarrowedRd(a, b, x) {
      assert NarrowRdAt(a, b, m, x);
      var at := Subs(RdLogs(a.rd), |a.rd|)[x];
      var p := a.rd[at.0];
      SubRdFields(p, m, at.1);
      ExpandRepeats(a.wr, a.width, p.transparency);
      ExpandRepeats(a.wr, a.width, p.collisionX);
    }
    forall x | 0 <= x < |b.wr| ensures NarrowedWr(a, b, x) {
      var at := Subs(WrLogs(a.wr), |a.wr|)[x];
      NarrowMapped(a.wr, a.width, a.wr[at.0].priority, x);
      SubWrFields(a.wr, at.0, a.width, at.1);
      ExpandRepeats(a.wr, a.width, a.wr[at.0].priority);
    }
  }

  lemma SplitSame(a: MemView, b: MemView, m: Ram)
    requires IsSplit(a, b, m)
    ensures b.width == a.width
  {
  }

  // ---------------------------------------------------------------- read-first ports by delayed writes

  /** One clock for all ports, and some port that must see the old contents. */
  predicate ReadFirstOk(v: MemView) {
    && SameDomain(v)
    && exists i, j :: 0 <= i < |v.rd| && 0 <= j < |v.wr| && IsReadFirst(v, i, j)
  }

  /** One clock for every port, and some pair of ports whose collisions show the old contents. */
  lemma ReadFirstMeans(v: MemView)
    requires forall i :: 0 <= i < |v.rd| ==> |v.rd[i].transparency| == |v.rd[i].collisionX| == |v.wr|
    ensures ReadFirstOk(v) <==>
              && |v.wr| > 0
              && (forall k :: 0 <= k < |v.wr| ==>
                    v.wr[k].clkEnable && v.wr[k].clk == v.wr[0].clk && v.wr[k].clkPolarity == v.wr[0].clkPolarity)
              && (forall i :: 0 <= i < |v.rd| ==> Domain(v.rd[i], v.wr[0]))
              && exists i, j :: 0 <= i < |v.rd| && 0 <= j < |v.wr| &&
                   !v.rd[i].transparency[j] && !v.rd[i].collisionX[j]
  {
    if i, j :| 0 <= i < |v.rd| && 0 <= j < |v.wr| && !v.rd[i].transparency[j] && !v.rd[i].collisionX[j] {
      assert IsReadFirst(v, i, j);
    }
  }

  predicate IsReadFirst(v: MemView, i: nat, j: nat) {
    i < |v.rd| && j < |v.rd[i].transparency| && j < |v.rd[i].collisionX| && !v.rd[i].transparency[j] &&
    !v.rd[i].collisionX[j]
  }

  /** As `KeepsRead`, for contents that start undefined unless the memory is initialised. */
  ghost predicate KeepsReadFrom(a: MemView, b: MemView, i: nat, hasInits: bool, g: Given) {
    && i < |a.rd| && i < |b.rd|
    && forall init: Contents, envs: seq<Env> ::
         Starts(init, hasInits) && Allowed(a, i, init, envs, g) && Runs(b, i, init, envs) ==> Reads(a, i, init, envs)
  }

  ghost predicate Starts(init: Contents, hasInits: bool) {
    hasInits || forall w: nat, b: nat :: init(w, b) == Sx
  }

  /** The read port is transparent only to write ports that are present. */
  predicate SeesPresent(p: MemRd, wr: seq<MemWr>) {
    forall k :: 0 <= k < |p.transparency| && k < |wr| && p.transparency[k] ==> !wr[k].removed
  }

  predicate SameDomain(v: MemView) {
    && |v.wr| > 0
    && (forall k :: 0 <= k < |v.wr| ==>
         v.wr[k].clkEnable && v.wr[k].clk == v.wr[0].clk && v.wr[k].clkPolarity == v.wr[0].clkPolarity)
    && (forall i :: 0 <= i < |v.rd| ==>
         v.rd[i].clkEnable && v.rd[i].clk == v.wr[0].clk && v.rd[i].clkPolarity == v.wr[0].clkPolarity)
  }

  /** Every write port delayed and every read port made transparent. */
  ghost predicate IsReadFirstView(b: MemView, c: MemView, enInit: State) {
    && SameDomain(b) && c.width == b.width && c.start == b.start && c.size == b.size && |c.rd| == |b.rd|
    && |c.wr| == |b.wr|
    && b.ffs <= c.ffs && b.cells <= c.cells && b.nextWire <= c.nextWire
    && (forall k :: 0 <= k < |b.wr| ==> Delayed(b.wr[k], c.wr[k], enInit, c.ffs))
    && (forall i :: 0 <= i < |b.rd| ==> MadeTransparent(b.rd[i], c.rd[i]))
  }

  predicate Opaque(v: MemView, i: nat) {
    i < |v.rd| && |v.rd[i].transparency| == |v.rd[i].collisionX| == |v.wr| &&
        forall k :: 0 <= k < |v.wr| ==> !v.rd[i].transparency[k]
  }

  lemma ClearedUnder(p: MemRd, q: MemRd, j: nat)
    requires MasksMoved(p, q, 0) && j < |q.transparency| && q.transparency[j]
    ensures AtMost(ThroughNeeds(q, j), ThroughNeeds(p, 0))
  {
  }

  /** What clearing the transparency of port `i` means for all read ports. */
  lemma AfterClearing(a: MemView, b: MemView, c: MemView, i: nat)
    requires i < |b.rd| && Emulated(b, c, i, ThroughNeeds(b.rd[i], 0)) && |a.rd| == |b.rd| && b.rd[i] == a.rd[i]
    requires Grows(a, b) && SameDomain(b) && MasksMoved(b.rd[i], c.rd[i], 0) && Opaque(c, i)
    requires forall j :: 0 <= j < |b.rd| ==> Preserves(a, b, j, ThroughNeeds(a.rd[j], 0))
    requires forall j :: 0 <= j < i ==> Opaque(b, j)
    ensures Checked(c) && |c.rd| == |b.rd| && c.wr == b.wr && Grows(a, c) && SameDomain(c)
    ensures forall j :: 0 <= j < |c.rd| ==> Preserves(a, c, j, ThroughNeeds(a.rd[j], 0))
    ensures forall j :: 0 <= j <= i ==> Opaque(c, j)
  {
    hide Checked, KeepsRead, KeepsKnown, Preserves, Loopfree;
    forall j | 0 <= j < |c.rd| ensures Preserves(a, c, j, ThroughNeeds(a.rd[j], 0)) {
      EmulatedPreserves(b, c, i, j, ThroughNeeds(b.rd[i], 0));
      PreservesTransitive(a, b, c, j, ThroughNeeds(a.rd[j], 0), if j == i then ThroughNeeds(b.rd[i], 0) else NOTHING);
    }
    forall j | 0 <= j <= i ensures Opaque(c, j) {
      if j < i { assert Opaque(b, j); }
    }
  }

  lemma ReadFirstStage(b: MemView, c: MemView, i: nat, hasInits: bool)
    requires Checked(b) && IsReadFirstView(b, c, if hasInits then S0 else Sx) && i < |b.rd|
    ensures KeepsReadFrom(b, c, i, hasInits, CONTROLS)
    ensures hasInits ==> forall g :: AtMost(CONTROLS, g) ==> KeepsAllowed(b, c, i, g)
  {
    hide Eval, SoftRuns, PortRuns, RdKnown, WrKnown, NoConflicts, RamShape, RdShape, Delayed, Checked;
    var enInit := if hasInits then S0 else Sx;
    forall init: Contents, envs: seq<Env> | Starts(init, hasInits) && Allowed(b, i, init, envs, CONTROLS) &&
        Runs(c, i, init, envs)
      ensures Reads(b, i, init, envs)
    {
      CheckedShapes(b, init);
      var m, n, p := RamOf(b, init), RamOf(c, init), b.rd[i];
      assert IsDelayed(m, n, p.clk, p.clkPolarity, enInit, c.ffs);
      ReadClock(p, envs);
      DelayedReads(p, c.rd[i], m, n, enInit, c.ffs, c.cells, envs);
    }
    forall init: Contents, envs: seq<Env>, g | hasInits && AtMost(CONTROLS, g) && Allowed(b, i, init, envs, g) &&
        SoftRuns(c.ffs, c.cells, envs)
      ensures Allowed(c, i, init, envs, g)
    {
      CheckedShapes(b, init);
      var m, n, p := RamOf(b, init), RamOf(c, init), b.rd[i];
      DelayedShape(b, c, S0, init);
      assert IsDelayed(m, n, p.clk, p.clkPolarity, S0, c.ffs);
      ReadClock(p, envs);
      TransparentKnown(p, c.rd[i], envs);
      DelayedAllowed(m, n, p.clk, p.clkPolarity, c.ffs, c.cells, g.writers, g.apart, envs);
    }
  }

  lemma DelayedShape(b: MemView, c: MemView, enInit: State, init: Contents)
    requires IsReadFirstView(b, c, enInit) && RamShape(RamOf(b, init))
    ensures RamShape(RamOf(c, init))
  {
    hide MadeTransparent, Registers, SameDomain;
    forall k | 0 <= k < |c.wr| ensures WrShape(c.wr[k], c.width) {
      assert Delayed(b.wr[k], c.wr[k], enInit, c.ffs) && WrShape(b.wr[k], b.width);
    }
  }

  lemma TransparentKnown(p: MemRd, q: MemRd, envs: seq<Env>)
    requires MadeTransparent(p, q) && RdKnown(p, envs)
    ensures RdKnown(q, envs)
  {
    hide Eval, Edge;
    forall t: nat | t + 1 < |envs| ensures RdKnownStep(q, envs[t], envs[t + 1]) {
      assert RdKnownStep(p, envs[t], envs[t + 1]);
    }
  }

  /** First no transparency is left, then every one is set. */
  lemma NowTransparent(a: MemView, b: MemView, c: MemView, i: nat)
    requires i < |a.rd| == |b.rd| == |c.rd| && MasksMoved(a.rd[i], b.rd[i], 0) && MadeTransparent(b.rd[i], c.rd[i])
    requires Opaque(b, i)
    ensures var p, q := a.rd[i], c.rd[i];
            && q == p.(data := q.data, transparency := q.transparency, collisionX := q.collisionX)
            && |q.transparency| == |q.collisionX| == |b.wr|
            && forall k :: 0 <= k < |b.wr| ==> q.transparency[k] && !q.collisionX[k]
  {
  }

  lemma OpaqueHere(b: MemView, c: MemView, i: nat, g: Given)
    requires Emulated(b, c, i, g) && |c.rd[i].transparency| == |c.wr| &&
        forall k :: 0 <= k < |c.wr| ==> !c.rd[i].transparency[k]
    ensures Opaque(c, i)
  {
    PrioritySizes(c, i);
  }

  lemma CheckedEnables(b: MemView)
    requires Checked(b)
    ensures forall k :: 0 <= k < |b.wr| ==> |b.wr[k].en| > 0
  {
    forall k | 0 <= k < |b.wr| ensures |b.wr[k].en| > 0 {
      assert CheckedWr(b, k);
      hide Checked;
      FlatBound(b.width, Pow2(b.wr[k].wideLog2), 0, 0);
    }
  }

  predicate AllWires(s: Sig) {
    forall j :: 0 <= j < |s| ==> s[j].Wire?
  }

  lemma ReadClock(p: MemRd, envs: seq<Env>)
    requires p.clkEnable && RdKnown(p, envs)
    ensures EdgesKnown(p.clk, p.clkPolarity, envs)
  {
    hide Eval, Edge;
    forall t: nat | t + 1 < |envs| ensures Edge(p.clk, p.clkPolarity, envs[t], envs[t + 1]) != Sx {
      assert RdKnownStep(p, envs[t], envs[t + 1]);
    }
  }

  lemma PreservesThenRead(a: MemView, b: MemView, c: MemView, i: nat, hasInits: bool, g: Given)
    requires Preserves(a, b, i, g) && KeepsReadFrom(b, c, i, hasInits, CONTROLS) && Grows(b, c) && AtMost(CONTROLS, g)
    ensures KeepsReadFrom(a, c, i, hasInits, g)
    ensures hasInits && (forall g :: AtMost(CONTROLS, g) ==> KeepsAllowed(b, c, i, g)) ==> Preserves(a, c, i, g)
  {
    hide SoftRuns, PortRuns, RdShape, RamShape, RdKnown, RdDecided, WrKnown, NoConflicts, Loopfree;
    assert Preserved(a, b, i, g);
    forall g', init: Contents, envs: seq<Env> | AtMost(g, g') && Allowed(a, i, init, envs, g') &&
        SoftRuns(c.ffs, c.cells, envs)
      ensures Allowed(b, i, init, envs, g')
      ensures Starts(init, hasInits) && Runs(c, i, init, envs) ==> Reads(a, i, init, envs)
    {
      assert Preserved(a, b, i, g');
      SoftRunsPrefix(b, c, envs);
      assert Allowed(b, i, init, envs, g');
      AllowedUnder(b, i, init, envs, CONTROLS, g');
      if Starts(init, hasInits) && Runs(c, i, init, envs) {
        assert Reads(b, i, init, envs);
        assert Runs(b, i, init, envs);
      }
    }
    if hasInits && forall g :: AtMost(CONTROLS, g) ==> KeepsAllowed(b, c, i, g) {
      forall g' | AtMost(g, g') ensures Preserved(a, c, i, g') { assert KeepsAllowed(b, c, i, g'); }
    }
  }

  /** A delayed address is a register output, so a wide port is no longer visibly aligned. */
  lemma ReadFirstChecked(b: MemView, c: MemView, enInit: State)
    requires Checked(b) && IsReadFirstView(b, c, enInit)
    requires forall k :: 0 <= k < |c.wr| ==> AllWires(c.wr[k].addr)
    ensures Shaped(c) && (Checked(c) <==> forall k :: 0 <= k < |b.wr| ==> b.wr[k].wideLog2 == 0)
  {
    hide SameActivity, Pow2, Span, Registers;
    forall k | 0 <= k < |b.wr| ensures WrShape(c.wr[k], c.width) && (CheckedWr(c, k) <==> b.wr[k].wideLog2 == 0) {
      assert CheckedWr(b, k) && Delayed(b.wr[k], c.wr[k], enInit, c.ffs);
      assert WrShape(c.wr[k], c.width);
      if b.wr[k].wideLog2 > 0 { assert c.wr[k].addr[0].Wire?; }
      forall j | 0 <= j < |c.wr| && c.wr[k].priority[j] && !c.wr[j].removed && !c.wr[k].removed
        ensures j < k && SameActivity(c.wr[j], c.wr[k])
      {
        assert Delayed(b.wr[j], c.wr[j], enInit, c.ffs);
        SameActivityLike(b.wr[j], b.wr[k], c.wr[j], c.wr[k]);
      }
    }
    forall i | 0 <= i < |c.rd| ensures CheckedRd(c, i) && RdShape(c.rd[i], c.width, |c.wr|) {
      assert CheckedRd(b, i) && MadeTransparent(b.rd[i], c.rd[i]);
      forall k | 0 <= k < |c.wr| ensures Domain(c.rd[i], c.wr[k]) { assert Delayed(b.wr[k], c.wr[k], enInit, c.ffs); }
    }
  }

  lemma CheckedPort(a: MemView, b: MemView, idx: nat)
    requires Checked(a) && OnlyPort(a, b, idx) && idx < |a.rd| && CheckedRd(b, idx)
    ensures Checked(b)
  {
    hide WrShape, RdShape, SameActivity, Domain, Aligned;
    forall k | 0 <= k < |b.wr| ensures CheckedWr(b, k) { assert CheckedWr(a, k); }
    forall i | 0 <= i < |b.rd| ensures CheckedRd(b, i) {
      if i != idx { assert CheckedRd(a, i); }
    }
  }

  /** Everything `CheckedRd` asks depends on shape, masks and clock only. */
  lemma CheckedLike(a: MemView, b: MemView, idx: nat)
    requires Checked(a) && OnlyPort(a, b, idx) && idx < |a.rd|
    requires var p, q := a.rd[idx], b.rd[idx];
             && q.wideLog2 == p.wideLog2 && q.addr == p.addr && |q.data| == |p.data| && |q.initValue| == |p.initValue|
             && q.arstValue == p.arstValue && q.srstValue == p.srstValue && q.transparency == p.transparency
             && q.collisionX == p.collisionX
             && p.clkEnable && q.clkEnable && q.clk == p.clk && q.clkPolarity == p.clkPolarity && q.removed == p.removed
    ensures Checked(b)
  {
    assert CheckedRd(a, idx);
    CheckedPort(a, b, idx);
  }

  /** Added logic touches only fresh wires and the old data wires. */
  predicate FreshData(a: MemView, b: MemView, idx: nat) {
    && idx < |a.rd| && idx < |b.rd|
    && forall i ::
       0 <= i < |b.rd[idx].data| ==> b.rd[idx].data[i].Wire? && a.nextWire <= b.rd[idx].data[i].id < b.nextWire
  }

  class Mem {
    var width: nat
    var startOffset: nat
    var size: nat
    var rdPorts: seq<MemRd>
    var wrPorts: seq<MemWr>
    // Whether the memory has any initial contents.
    var hasInits: bool
    // The module around the memory.
    var ffs: seq<Ff>
    var cells: Cells
    var nextWire: nat

    constructor (v: MemView, hasInits: bool)
      ensures View() == v && this.hasInits == hasInits
    {
      width, startOffset, size, rdPorts, wrPorts := v.width, v.start, v.size, v.rd, v.wr;
      ffs, cells, nextWire := v.ffs, v.cells, v.nextWire;
      this.hasInits := hasInits;
    }

    ghost function View(): MemView
      reads this
    {
      MemView(width, startOffset, size, rdPorts, wrPorts, ffs, cells, nextWire)
    }

    /** Makes the synchronous reset win over the enable. */
    method EmulateRdCeOverSrst(idx: nat)
      requires Checked(View()) && idx < |rdPorts| && rdPorts[idx].clkEnable
      modifies this`rdPorts
      ensures Emulated(old(View()), View(), idx, DECIDED)
      ensures Loopfree(old(View())) ==> Loopfree(View()) && Runnable(View())
      ensures |rdPorts| == old(|rdPorts|) &&
          rdPorts[idx] == old(rdPorts[idx]).(ceOverSrst := false, srst := rdPorts[idx].srst)
      ensures var p := old(rdPorts[idx]);
              if p.en != Const(S1) && p.srst != Const(S0) && p.ceOverSrst
              then rdPorts[idx].srst == AndGate(p.en, p.srst) else rdPorts[idx].srst == p.srst
    {
      hide Eval, Undecided, Checked, KeepsRead, KeepsKnown, SameSyncEffect, RdShape, Loopfree, Runnable, KeepsInputs,
          Outputs;
      ghost var a := View();
      var port := rdPorts[idx];
      if port.en == Const(S1) || port.srst == Const(S0) || !port.ceOverSrst {
        rdPorts := rdPorts[idx := port.(ceOverSrst := false)];
      } else {
        rdPorts := rdPorts[idx := port.(ceOverSrst := false, srst := AndGate(port.en, port.srst))];
      }
      CheckedLike(a, View(), idx);
      forall e: Env | !Undecided(port.ceOverSrst, Eval(port.en, e), Eval(port.srst, e))
        ensures SameSyncEffect(port, rdPorts[idx], e)
      {
        if port.en == Const(S1) || port.srst == Const(S0) {
          TiedControls(port, false, e);
        } else if port.ceOverSrst {
          NarrowedReset(port, e);
        } else {
          assert rdPorts[idx] == port;
          SameSyncItself(port, e);
        }
      }
      SameLoopfree(a, View());
      StepInputs(a, View(), idx);
      CheckedRuns(View());
      SyncStage(a, View(), idx);
      SyncKnown(a, View(), idx);
    }

    /** Makes the enable win over the synchronous reset. */
    method EmulateRdSrstOverCe(idx: nat)
      requires Checked(View()) && idx < |rdPorts| && rdPorts[idx].clkEnable
      modifies this`rdPorts
      ensures Emulated(old(View()), View(), idx, DECIDED)
      ensures Loopfree(old(View())) ==> Loopfree(View()) && Runnable(View())
      ensures |rdPorts| == old(|rdPorts|) &&
          rdPorts[idx] == old(rdPorts[idx]).(ceOverSrst := true, en := rdPorts[idx].en)
      ensures var p := old(rdPorts[idx]);
              if p.en != Const(S1) && p.srst != Const(S0) && !p.ceOverSrst
              then rdPorts[idx].en == OrGate(p.en, p.srst) else rdPorts[idx].en == p.en
    {
      hide Eval, Undecided, Checked, KeepsRead, KeepsKnown, SameSyncEffect, RdShape, Loopfree, Runnable, KeepsInputs,
          Outputs;
      ghost var a := View();
      var port := rdPorts[idx];
      if port.en == Const(S1) || port.srst == Const(S0) || port.ceOverSrst {
        rdPorts := rdPorts[idx := port.(ceOverSrst := true)];
      } else {
        rdPorts := rdPorts[idx := port.(ceOverSrst := true, en := OrGate(port.en, port.srst))];
      }
      CheckedLike(a, View(), idx);
      forall e: Env | !Undecided(port.ceOverSrst, Eval(port.en, e), Eval(port.srst, e))
        ensures SameSyncEffect(port, rdPorts[idx], e)
      {
        if port.en == Const(S1) || port.srst == Const(S0) {
          TiedControls(port, true, e);
        } else if !port.ceOverSrst {
          WidenedEnable(port, e);
        } else {
          assert rdPorts[idx] == port;
          SameSyncItself(port, e);
        }
      }
      SameLoopfree(a, View());
      StepInputs(a, View(), idx);
      CheckedRuns(View());
      SyncStage(a, View(), idx);
      SyncKnown(a, View(), idx);
    }

    /** One stage of reset emulation: a register selects between a fixed value and a new port. */
    method AddMask(idx: nat, value: seq<State>, arstSel: State, srstSel: State, initSel: State, arst: Bit, srst: Bit,
        initValue: seq<State>)
      requires Checked(View()) && idx < |rdPorts| && rdPorts[idx].clkEnable
      requires var p := rdPorts[idx];
               && |value| == |initValue| == |p.initValue| == |p.data|
               && Delegated(p.arst, arst, arstSel, p.arstValue, value)
               && Delegated(p.srst, srst, srstSel, p.srstValue, value)
               && forall i :: 0 <= i < |value| ==> Covers(initSel, p.initValue[i], value[i], initValue[i])
      modifies this`rdPorts, this`ffs, this`cells, this`nextWire
      ensures Checked(View()) && OnlyPort(old(View()), View(), idx) && FreshData(old(View()), View(), idx)
      ensures KeepsRead(old(View()), View(), idx, CONTROLS) && KeepsKnown(old(View()), View(), idx)
      ensures (Loopfree(old(View())) ==> Loopfree(View())) && KeepsInputs(old(View()), View())
      ensures |rdPorts| == old(|rdPorts|)
      ensures rdPorts[idx] ==
              old(rdPorts[idx]).(data := rdPorts[idx].data, initValue := initValue, arst := arst, srst := srst)
      ensures |rdPorts[idx].data| == old(|rdPorts[idx].data|)
    {
      hide Eval, Checked, KeepsRead, KeepsKnown, RdShape, Selector, MasksData, Covers, Delegated, Loopfree, MuxCells,
          KeepsInputs, Outputs;
      ghost var a := View();
      var port, n := rdPorts[idx], |rdPorts[idx].data|;
      var sel, newData := Wire(nextWire), Fresh(nextWire + 1, n);
      var k := Mask(sel, value, arstSel, srstSel, initSel);
      nextWire := nextWire + 1 + n;
      ffs := ffs + [Selector(port, k)];
      var muxes := MuxCells(port.data, Consts(value), newData, sel);
      cells := cells + muxes;
      rdPorts := rdPorts[idx := port.(data := newData, initValue := initValue, arst := arst, srst := srst)];
      OnlyPortUpdated(a, View(), idx);
      CheckedLike(a, View(), idx);
      ConstMuxes(cells, port, rdPorts[idx], k, muxes);
      MaskLoops(a, View(), idx, k);
      FreshOutputs(a, a.nextWire, 1);
      FreshOutputs(a, a.nextWire + 1, n);
      StepInputs(a, View(), idx);
      MaskStage(a, View(), idx, k);
    }

    /** The initial value; a reset to the same value that is to be emulated as well shares the multiplexer. */
    method EmulateInitValue(idx: nat, emuArst: bool, emuSrst: bool)
      requires Checked(View()) && idx < |rdPorts| && rdPorts[idx].clkEnable
      modifies this`rdPorts, this`ffs, this`cells, this`nextWire
      ensures Emulated(old(View()), View(), idx, CONTROLS) && |rdPorts| == old(|rdPorts|)
      ensures rdPorts[idx] == old(rdPorts[idx]).(data := rdPorts[idx].data, initValue := rdPorts[idx].initValue,
                                                 arst := rdPorts[idx].arst, srst := rdPorts[idx].srst)
      ensures AllX(rdPorts[idx].initValue) && |rdPorts[idx].initValue| == old(|rdPorts[idx].initValue|)
      ensures !emuArst ==> rdPorts[idx].arst == old(rdPorts[idx].arst)
      ensures !emuSrst ==> rdPorts[idx].srst == old(rdPorts[idx].srst)
    {
      hide Eval, Checked, KeepsRead, KeepsKnown, RdShape, Loopfree, KeepsInputs;
      StartEmulation(View(), idx, CONTROLS);
      if !AllX(rdPorts[idx].initValue) {
        var port := rdPorts[idx];
        var shareArst := port.arst != Const(S0) && emuArst && port.arstValue == port.initValue;
        var shareSrst := port.srst != Const(S0) && emuSrst && port.srstValue == port.initValue;
        AddMask(idx, port.initValue, if shareArst then S0 else S1, if shareSrst then S0 else S1, S0,
                if shareArst then Const(S0) else port.arst, if shareSrst then Const(S0) else port.srst,
                seq(|port.data|, _ => Sx));
      }
    }

    /** The asynchronous reset, sharing its multiplexer with a synchronous reset to the same value. */
    method EmulateAsyncReset(idx: nat, emuSrst: bool)
      requires Checked(View()) && idx < |rdPorts| && rdPorts[idx].clkEnable
      modifies this`rdPorts, this`ffs, this`cells, this`nextWire
      ensures Emulated(old(View()), View(), idx, CONTROLS) && |rdPorts| == old(|rdPorts|)
      ensures rdPorts[idx] ==
              old(rdPorts[idx]).(data := rdPorts[idx].data, arst := Const(S0), srst := rdPorts[idx].srst)
      ensures !emuSrst ==> rdPorts[idx].srst == old(rdPorts[idx].srst)
    {
      hide Eval, Checked, KeepsRead, KeepsKnown, RdShape, Loopfree, KeepsInputs;
      StartEmulation(View(), idx, CONTROLS);
      if rdPorts[idx].arst != Const(S0) {
        var port := rdPorts[idx];
        var shareSrst := port.srst != Const(S0) && emuSrst && port.srstValue == port.arstValue;
        AddMask(idx, port.arstValue, S0, if shareSrst then S0 else S1, if AllX(port.initValue) then Sx else S1,
                Const(S0), if shareSrst then Const(S0) else port.srst, port.initValue);
      }
    }

    /** The synchronous reset. */
    method EmulateSyncReset(idx: nat)
      requires Checked(View()) && idx < |rdPorts| && rdPorts[idx].clkEnable
      modifies this`rdPorts, this`ffs, this`cells, this`nextWire
      ensures Emulated(old(View()), View(), idx, CONTROLS) && |rdPorts| == old(|rdPorts|)
      ensures rdPorts[idx] == old(rdPorts[idx]).(data := rdPorts[idx].data, srst := Const(S0))
    {
      hide Eval, Checked, KeepsRead, KeepsKnown, RdShape, Loopfree, KeepsInputs;
      StartEmulation(View(), idx, CONTROLS);
      if rdPorts[idx].srst != Const(S0) {
        var port := rdPorts[idx];
        AddMask(idx, port.srstValue, S1, S0, if AllX(port.initValue) then Sx else S1,
                port.arst, Const(S0), port.initValue);
      }
    }

    /** Emulates the initial value and the resets as asked for. */
    method EmulateReset(idx: nat, emuInit: bool, emuArst: bool, emuSrst: bool)
      requires Checked(View()) && idx < |rdPorts| && rdPorts[idx].clkEnable
      modifies this`rdPorts, this`ffs, this`cells, this`nextWire
      ensures Emulated(old(View()), View(), idx, CONTROLS)
      ensures Loopfree(old(View())) ==> Loopfree(View()) && Runnable(View())
      ensures |rdPorts| == old(|rdPorts|) &&
          rdPorts[idx] == old(rdPorts[idx]).(data := rdPorts[idx].data, initValue := rdPorts[idx].initValue,
                                             arst := rdPorts[idx].arst, srst := rdPorts[idx].srst)
      ensures rdPorts[idx].removed == old(rdPorts[idx].removed)
      ensures if emuInit
              then |rdPorts[idx].initValue| == old(|rdPorts[idx].initValue|) &&
                   forall i :: 0 <= i < |rdPorts[idx].initValue| ==> rdPorts[idx].initValue[i] == Sx
              else rdPorts[idx].initValue == old(rdPorts[idx].initValue)
      ensures rdPorts[idx].arst == if emuArst then Const(S0) else old(rdPorts[idx].arst)
      ensures rdPorts[idx].srst == if emuSrst then Const(S0) else old(rdPorts[idx].srst)
    {
      hide Checked, Emulated, Runnable, Loopfree;
      ghost var a := View();
      StartEmulation(a, idx, CONTROLS);
      if emuInit {
        EmulateInitValue(idx, emuArst, emuSrst);
      }
      ghost var b := View();
      EmulatedPort(a, b, idx, CONTROLS);
      if emuArst {
        EmulateAsyncReset(idx, emuSrst);
        EmulatedTransitive(a, b, View(), idx, CONTROLS);
      }
      ghost var c := View();
      EmulatedPort(a, c, idx, CONTROLS);
      if emuSrst {
        EmulateSyncReset(idx);
        EmulatedTransitive(a, c, View(), idx, CONTROLS);
        EmulatedPort(a, View(), idx, CONTROLS);
      }
      EmulatedRuns(a, View(), idx, CONTROLS);
    }

    /** The end of the run of bits from `pos` on that share a write enable. */
    method GroupEnd(en: Sig, off: nat, pos: nat, limit: nat) returns (epos: nat)
      requires pos < limit && off + limit <= |en|
      ensures pos < epos <= limit && forall y :: off + pos <= y < off + epos ==> en[y] == en[off + pos]
      ensures epos < limit ==> en[off + epos] != en[off + pos]
    {
      epos := pos + 1;
      while epos < limit && en[off + epos] == en[off + pos]
        invariant pos < epos <= limit && forall y :: off + pos <= y < off + epos ==> en[y] == en[off + pos]
      {
        epos := epos + 1;
      }
    }

    /** One group of a transparency layer: the run of bits from `pos` on that share a write enable gets one registered
        comparison, and one multiplexer per bit. */
    method AddGroup(port: MemRd, wport: MemWr, wdataQ: Sig, sub: nat, before: Sig, rdataA: Sig, conds: Sig,
        ghost g: Bypass, ghost a: MemView) returns (conds': Sig)
      requires a.nextWire <= nextWire && KeepsInputs(a, View()) && Outputs(a, before)
      requires port.wideLog2 <= |port.addr| && wport.wideLog2 <= |wport.addr| && |conds| < |rdataA|
      requires ReadOffset(port, wport, width, sub) + |rdataA| <= |before| &&
          WriteOffset(port, wport, width, sub) + |rdataA| <= |wdataQ| == |wport.en|
      requires BuiltTo(port, wport, width, wdataQ, sub, before, rdataA, conds, |conds|, ffs, cells)
      requires g.port == port && g.before == before && g.off == ReadOffset(port, wport, width, sub) && g.wq == wdataQ
      requires g.woff == WriteOffset(port, wport, width, sub) && rdataA == Fresh(g.first, g.width)
      modifies this`ffs, this`cells, this`nextWire
      ensures |conds| < |conds'| <= |rdataA| && old(ffs) <= ffs && old(cells) <= cells && old(nextWire) <= nextWire
      ensures BuiltTo(port, wport, width, wdataQ, sub, before, rdataA, conds', |conds'|, ffs, cells)
      ensures (Ready(old(View()), g, |conds|) ==> Ready(View(), g, |conds'|)) && KeepsInputs(a, View())
    {
      hide Eval, Below, SigBelow, Ready, Fits, Fresh, MuxCells, Repeat, CondFf, CondOf, ReadAddr, WriteAddr, BuiltTo,
           ReadOffset, WriteOffset, KeepsInputs, Driven;
      var raddr, waddr := ReadAddr(port, wport, sub), WriteAddr(port, wport, sub);
      var rOff, wOff := ReadOffset(port, wport, width, sub), WriteOffset(port, wport, width, sub);
      var pos := |conds|;
      var epos := GroupEnd(wport.en, wOff, pos, |rdataA|);
      var condQ := Wire(nextWire);
      ghost var v := View();
      nextWire := nextWire + 1;
      ghost var ffs0, cells0 := ffs, cells;
      ffs := ffs + [CondFf(port, condQ, CondOf(raddr, waddr, wport.en[wOff + pos]))];
      cells := cells + MuxCells(before[rOff + pos..rOff + epos], rdataA[pos..epos], wdataQ[wOff + pos..wOff + epos],
          condQ);
      conds' := conds + Repeat(condQ, epos - pos);
      GroupBuilt(port, wport, width, wdataQ, sub, before, rdataA, conds, pos, epos, condQ, ffs0, cells0, ffs, cells);
      GroupLoops(v, View(), g, pos, epos, CondOf(raddr, waddr, wport.en[wOff + pos]));
      OutputsDriven(a, v, View());
    }

    /** One layer of soft transparency, between data wires `before` and the new data wires `after`. */
    method AddLayer(port: MemRd, wport: MemWr, wdataQ: Sig, sub: nat, before: Sig, ghost ridx: nat,
        ghost low: set<nat>, ghost a: MemView) returns (after: Sig, ghost l: Layer)
      requires a.nextWire <= nextWire && KeepsInputs(a, View()) && Outputs(a, before)
      requires Paired(port, wport, width) && |wdataQ| == |wport.data| && |before| == |port.data|
      requires sub < Pow2(MaxLog(port, wport)) && Low(sub, MinLog(port, wport)) == 0
      modifies this`ffs, this`cells, this`nextWire
      ensures IsLayer(port, wport, width, wdataQ, l, ffs, cells) && l.sub == sub && l.before == before &&
          l.after == after
      ensures |after| == |before| && old(ffs) <= ffs && old(cells) <= cells && old(nextWire) <= nextWire
      ensures Stacked(old(View()), ridx, port, before, wdataQ, low) ==> Stacked(View(), ridx, port, after, wdataQ, low)
      ensures KeepsInputs(a, View()) && Outputs(a, after)
    {
      hide Eval, Low, Flat, SubOf, IsLayer, BuiltTo, ReadOffset, WriteOffset, Stacked, Ready, Fresh, Mixed, KeepsInputs,
          Driven;
      LayerRange(port, wport, width, sub);
      var ewidth := Span(width, Pow2(MinLog(port, wport)));
      var rdataA := Fresh(nextWire, ewidth);
      ghost var v := View();
      ghost var g := Bypass(ridx, port, before, ReadOffset(port, wport, width, sub), nextWire, ewidth, wdataQ,
          WriteOffset(port, wport, width, sub), low);
      nextWire := nextWire + ewidth;
      FreshOutputs(a, v.nextWire, ewidth);
      OutputsDriven(a, v, View());
      var conds: Sig := [];
      NothingBuilt(port, wport, width, wdataQ, sub, before, rdataA, ffs, cells);
      if Stacked(v, ridx, port, before, wdataQ, low) { StartLayer(v, View(), g); }
      while |conds| < ewidth
        invariant |conds| <= ewidth
        invariant old(ffs) <= ffs && old(cells) <= cells && old(nextWire) <= nextWire
        invariant BuiltTo(port, wport, width, wdataQ, sub, before, rdataA, conds, |conds|, ffs, cells)
        invariant Stacked(v, ridx, port, before, wdataQ, low) ==> Ready(View(), g, |conds|)
        invariant KeepsInputs(a, View())
      {
        conds := AddGroup(port, wport, wdataQ, sub, before, rdataA, conds, g, a);
      }
      BuiltLayer(port, wport, width, wdataQ, sub, before, rdataA, conds, ffs, cells);
      var rOff := ReadOffset(port, wport, width, sub);
      after := before[..rOff] + rdataA + before[rOff + ewidth..];
      l := LayerOf(port, wport, width, sub, before, rdataA, conds);
      if Stacked(v, ridx, port, before, wdataQ, low) { LayerLoops(View(), g, after); }
    }

    /** Replaces the transparency of read port `ridx` with write port `widx` by registered bypass layers. */
    method AddBypass(widx: nat, ridx: nat)
      requires Checked(View()) && ridx < |rdPorts| && widx < |wrPorts| && !wrPorts[widx].removed
      requires |rdPorts[ridx].transparency| == |rdPorts[ridx].collisionX| == |wrPorts| &&
          rdPorts[ridx].transparency[widx]
      requires SettledAbove(rdPorts[ridx], wrPorts, widx, widx)
      modifies this`rdPorts, this`ffs, this`cells, this`nextWire
      ensures Emulated(old(View()), View(), ridx, BypassNeeds(old(rdPorts[ridx]), widx)) && |rdPorts| == old(|rdPorts|)
      ensures rdPorts[ridx] ==
              old(rdPorts[ridx]).(data := rdPorts[ridx].data,
                                  transparency := old(rdPorts[ridx].transparency)[widx := false],
                                  collisionX := old(rdPorts[ridx].collisionX)[widx := true])
    {
      hide Eval, Checked, Low, Flat, SubOf, IsLayer, LayersTo, DataFf, Emulated, RdShape, WrShape, Aligned, Loopfree,
          Stacked, Fresh, KeepsInputs, Outputs;
      ghost var a := View();
      var rport, wport := rdPorts[ridx], wrPorts[widx];
      assert Paired(rport, wport, width) by { CheckedPaired(a, ridx, widx); }
      var min, max := MinLog(rport, wport), MaxLog(rport, wport);
      var wdataQ := Fresh(nextWire, |wport.data|);
      nextWire := nextWire + |wport.data|;
      ffs := ffs + [DataFf(rport, wdataQ, wport.data)];
      var sub, data := 0, rport.data;
      ghost var ls: seq<Layer> := [];
      NoLayers(rport, wport, width, wdataQ, ffs, cells);
      ghost var registered, low := ffs, FreshSet(a.nextWire, |wport.data|);
      if Loopfree(a) { DataLoops(a, View(), ridx, wdataQ, wport.data); }
      FreshOutputs(a, a.nextWire, |wport.data|);
      StepInputs(a, View(), ridx);
      DataOutputs(a, ridx);
      while sub < Pow2(max)
        invariant LayersTo(rport, wport, width, wdataQ, ls, sub, data, ffs, cells) && (sub > 0 ==> |ls| > 0)
        invariant registered <= ffs && a.cells <= cells && a.nextWire <= nextWire && rdPorts == a.rd
        invariant Loopfree(a) ==> Stacked(View(), ridx, rport, data, wdataQ, low)
        invariant KeepsInputs(a, View()) && Outputs(a, data)
        decreases Pow2(max) - sub
      {
        ghost var ffs0, cells0 := ffs, cells;
        LayersFacts(rport, wport, width, wdataQ, ls, sub, data, ffs, cells);
        ghost var l;
        data, l := AddLayer(rport, wport, wdataQ, sub, data, ridx, low, a);
        OneMoreLayer(rport, wport, width, wdataQ, ls, sub, l, ffs0, cells0, ffs, cells);
        ls := ls + [l];
        sub := sub + Pow2(min);
      }
      assert registered[|a.ffs|] in ffs by { assert ffs[|a.ffs|] == registered[|a.ffs|]; }
      ghost var v := View();
      var transparency, collisionX := rport.transparency[widx := false], rport.collisionX[widx := true];
      rdPorts := rdPorts[ridx := rport.(data := data, transparency := transparency, collisionX := collisionX)];
      if Loopfree(a) { EndLayers(v, View(), ridx, rport, data, wdataQ, low); }
      OutputsDriven(a, v, View());
      BypassStage(a, View(), widx, ridx, wdataQ, ls, sub);
    }

    /** Emulates the transparency of read port `ridx` with write port `widx`, and first that with every port written
        over it. */
    method EmulateTransparency(widx: nat, ridx: nat)
      requires Checked(View()) && ridx < |rdPorts| && widx < |wrPorts| && !wrPorts[widx].removed
      requires widx < |rdPorts[ridx].transparency| && rdPorts[ridx].transparency[widx]
      modifies this`rdPorts, this`ffs, this`cells, this`nextWire
      ensures Emulated(old(View()), View(), ridx, ThroughNeeds(old(rdPorts[ridx]), widx))
      ensures |rdPorts| == old(|rdPorts|)
      ensures Loopfree(old(View())) ==> Loopfree(View()) && Runnable(View())
      ensures MasksMoved(old(rdPorts[ridx]), rdPorts[ridx], widx) && !rdPorts[ridx].transparency[widx] &&
          rdPorts[ridx].collisionX[widx]
      ensures var p, q := old(rdPorts[ridx]), rdPorts[ridx];
              && Pulled(p, q, wrPorts, widx) && Sealed(p, q, wrPorts)
              && q == p.(data := q.data, transparency := q.transparency, collisionX := q.collisionX)
              && |p.transparency| == |q.transparency| == |p.collisionX| == |q.collisionX| == |wrPorts|
              && (forall k :: 0 <= k < |wrPorts| ==> |wrPorts[k].priority| == |wrPorts|)
              && (forall k :: 0 <= k < |wrPorts| && q.transparency[k] ==> p.transparency[k])
              && (forall k :: 0 <= k < |wrPorts| ==>
                    q.collisionX[k] == (p.collisionX[k] || (p.transparency[k] && !q.transparency[k])))
              && (forall k :: 0 <= k < |wrPorts| && k != widx && p.transparency[k] && !q.transparency[k] ==>
                    exists j :: widx <= j < k && p.transparency[j] && !q.transparency[j] && wrPorts[k].priority[j])
              && forall j, k ::
                   0 <= j < |wrPorts| && 0 <= k < |wrPorts| && p.transparency[j] && !q.transparency[j] ==>
                     q.transparency[k] ==> wrPorts[k].removed || !wrPorts[k].priority[j]
      decreases |wrPorts| - widx
    {
      hide Checked, Emulated, MasksMoved, SettledAbove, Runnable, Loopfree, AtMost, ThroughFrom, Pulled, Sealed, Moving;
      ghost var a := View();
      ghost var g := ThroughNeeds(rdPorts[ridx], widx);
      StartEmulation(a, ridx, g);
      PrioritySizes(a, ridx);
      MovingStart(a.rd[ridx], wrPorts, widx);
      SettledStart(a.rd[ridx], wrPorts, widx);
      var i := |wrPorts| - 1;
      while i > widx
        invariant widx <= i < |wrPorts|
        invariant Emulated(a, View(), ridx, g) && |rdPorts| == |a.rd|
        invariant Moving(a.rd[ridx], rdPorts[ridx], wrPorts, widx)
        invariant |rdPorts[ridx].transparency| == |wrPorts| && SettledAbove(rdPorts[ridx], wrPorts, widx, i)
      {
        if !wrPorts[i].removed {
          if rdPorts[ridx].transparency[i] && wrPorts[i].priority[widx] {
            ghost var b := View();
            EmulatedPort(a, b, ridx, g);
            EmulateTransparency(i, ridx);
            MovingFacts(a.rd[ridx], b.rd[ridx], wrPorts, widx);
            ThroughMoved(a.rd[ridx], b.rd[ridx], widx, i);
            EmulatedUnder(b, View(), ridx, ThroughNeeds(b.rd[ridx], i), g);
            EmulatedTransitive(a, b, View(), ridx, g);
            MovingThen(a.rd[ridx], b.rd[ridx], rdPorts[ridx], wrPorts, widx, i);
            SettledMoved(b.rd[ridx], rdPorts[ridx], wrPorts, widx, i);
          }
        }
        SettledStep(rdPorts[ridx], wrPorts, widx, i);
        i := i - 1;
      }
      ghost var b := View();
      EmulatedPort(a, b, ridx, g);
      MovingFacts(a.rd[ridx], b.rd[ridx], wrPorts, widx);
      AddBypass(widx, ridx);
      ThroughMoved(a.rd[ridx], b.rd[ridx], widx, widx);
      EmulatedUnder(b, View(), ridx, BypassNeeds(b.rd[ridx], widx), g);
      EmulatedTransitive(a, b, View(), ridx, g);
      EmulatedRuns(a, View(), ridx, g);
      MovingLast(a, a.rd[ridx], b.rd[ridx], rdPorts[ridx], widx);
      WhichMove(a, a.rd[ridx], rdPorts[ridx], widx);
    }

    /** Emulates the transparency to `idx1` of the read ports that would not see `idx2` write over it. */
    method ShowWinner(idx1: nat, idx2: nat)
      requires Checked(View()) && idx1 < |wrPorts| && idx2 < |wrPorts| && !wrPorts[idx1].removed
      modifies this`rdPorts, this`ffs, this`cells, this`nextWire
      ensures Checked(View()) && Grows(old(View()), View()) && |rdPorts| == old(|rdPorts|)
      ensures forall j :: 0 <= j < |rdPorts| ==> PriorityPreserves(old(View()), View(), j, idx1, idx2)
      ensures forall j :: 0 <= j < |rdPorts| && !old(rdPorts)[j].removed ==> SeesWinnerAt(View(), j, idx1, idx2)
      ensures forall j :: 0 <= j < |rdPorts| ==> MasksMoved(old(rdPorts)[j], rdPorts[j], idx1)
      ensures forall j ::
                0 <= j < |rdPorts| ==>
                  if MissesWinner(old(rdPorts)[j], idx1, idx2) then !Clear(rdPorts[j], idx1)
                  else rdPorts[j] == old(rdPorts)[j]
    {
      hide Checked, Emulated, PriorityPreserves, MasksMoved, OnlyPort, SeesWinnerAt, Loopfree, Runnable, ThroughFrom,
          Pulled, Sealed;
      ghost var a := View();
      forall i | 0 <= i < |rdPorts| ensures PriorityPreserves(a, a, i, idx1, idx2) {
        PriorityItself(a, i, idx1, idx2);
      }
      forall i | 0 <= i < |rdPorts| ensures MasksMoved(a.rd[i], a.rd[i], idx1) {
        PrioritySizes(a, i);
        MovedItself(a.rd[i], idx1);
      }
      for i := 0 to |rdPorts|
        invariant Checked(View()) && |rdPorts| == |a.rd| && wrPorts == a.wr && width == a.width &&
            startOffset == a.start && size == a.size && Grows(a, View())
        invariant forall j :: i <= j < |rdPorts| ==> rdPorts[j] == a.rd[j]
        invariant forall j :: 0 <= j < |rdPorts| ==> PriorityPreserves(a, View(), j, idx1, idx2)
        invariant forall j :: 0 <= j < i && !a.rd[j].removed ==> SeesWinnerAt(View(), j, idx1, idx2)
        invariant forall j :: 0 <= j < |rdPorts| ==> MasksMoved(a.rd[j], rdPorts[j], idx1)
        invariant forall j ::
            0 <= j < i ==>
              if MissesWinner(a.rd[j], idx1, idx2) then !Clear(rdPorts[j], idx1) else rdPorts[j] == a.rd[j]
      {
        ghost var b := View();
        PrioritySizes(b, i);
        var rport := rdPorts[i];
        if !rport.removed {
          if rport.transparency[idx1] && !(rport.transparency[idx2] || rport.collisionX[idx2]) {
            EmulateTransparency(idx1, i);
            AfterTransparency(a, b, View(), i, idx1, idx2);
          } else {
            assert SeesWinnerAt(b, i, idx1, idx2) by { SeesWinnerHere(b, i, idx1, idx2); }
          }
        }
      }
    }

    /** Replaces the priority of write port `idx2` over `idx1` by logic on the enables of `idx1`. */
    method EmulatePriority(idx1: nat, idx2: nat)
      requires Checked(View()) && idx1 < |wrPorts| && idx2 < |wrPorts| && !wrPorts[idx1].removed &&
          !wrPorts[idx2].removed
      requires |wrPorts[idx2].priority| == |wrPorts|
      modifies this`rdPorts, this`wrPorts, this`ffs, this`cells, this`nextWire
      ensures Checked(View()) && Grows(old(View()), View()) && |rdPorts| == old(|rdPorts|) &&
          |wrPorts| == old(|wrPorts|)
      ensures Loopfree(old(View())) ==> Loopfree(View()) && Runnable(View())
      ensures KeepsContents(old(View()), View(), {idx1, idx2})
      ensures old(wrPorts[idx2].priority[idx1]) ==> Exclusive(old(View()), View(), idx1, idx2)
      ensures forall i ::
                0 <= i < |rdPorts| && !old(rdPorts)[i].removed ==>
                  PriorityPreserves(old(View()), View(), i, idx1, idx2)
      ensures forall i :: 0 <= i < |rdPorts| ==>
                var p, q := old(rdPorts)[i], rdPorts[i];
                && |p.transparency| == |q.transparency| == |p.collisionX| == |q.collisionX| == |wrPorts|
                && q == p.(data := q.data, transparency := q.transparency, collisionX := q.collisionX)
                && MasksMoved(p, q, idx1)
                && (q == p || (!p.removed && p.transparency[idx1] && !q.transparency[idx1] && q.collisionX[idx1]))
                && (old(wrPorts[idx2].priority[idx1]) && !p.removed && p.transparency[idx1] ==>
                      !q.transparency[idx1] || p.transparency[idx2] || p.collisionX[idx2])
                && (p.transparency[idx2] || p.collisionX[idx2] ==> q == p)
      ensures wrPorts[idx2] == old(wrPorts[idx2]).(priority := old(wrPorts[idx2].priority)[idx1 := false])
      ensures idx1 != idx2 ==> wrPorts[idx1] == old(wrPorts[idx1]).(en := wrPorts[idx1].en)
      ensures forall k :: 0 <= k < |wrPorts| && k != idx1 && k != idx2 ==> wrPorts[k] == old(wrPorts)[k]
      ensures !old(wrPorts[idx2].priority[idx1]) ==> View() == old(View())
    {
      hide Checked, Emulated, PriorityPreserves, MasksMoved, MaskedPort, Ports, OnlyPort, SeesWinnerAt, Loopfree,
          KeepsContents, Exclusive, Runnable, MissesWinner, Clear;
      ghost var a := View();
      forall i | 0 <= i < |rdPorts| ensures PriorityPreserves(a, a, i, idx1, idx2) {
        PriorityItself(a, i, idx1, idx2);
      }
      ContentsItself(a, {idx1, idx2});
      CheckedRuns(a);
      if !wrPorts[idx2].priority[idx1] {
        assert wrPorts[idx2].priority[idx1 := false] == wrPorts[idx2].priority;
        forall i | 0 <= i < |rdPorts| { WinnerShown(a, a, i, idx1, idx2, false); }
        return;
      }
      ShowWinner(idx1, idx2);
      ghost var b := View();
      forall i | 0 <= i < |rdPorts| { WinnerShown(a, b, i, idx1, idx2, true); }
      MaskLoser(idx1, idx2);
      CheckedRuns(View());
      SameWriters(a, b, View(), idx1, idx2);
      forall i | 0 <= i < |rdPorts| && !a.rd[i].removed ensures PriorityPreserves(a, View(), i, idx1, idx2) {
        PriorityThen(a, b, View(), i, idx1, idx2);
      }
    }

    /** Switches the enables of `idx1` off where `idx2` writes the same bit, and drops the priority. */
    method MaskLoser(idx1: nat, idx2: nat)
      requires Checked(View()) && idx1 < |wrPorts| && idx2 < |wrPorts| && !wrPorts[idx1].removed &&
          !wrPorts[idx2].removed
      requires |wrPorts[idx2].priority| == |wrPorts| && wrPorts[idx2].priority[idx1]
      modifies this`wrPorts
      ensures Checked(View()) && Grows(old(View()), View()) && |wrPorts| == old(|wrPorts|)
      ensures KeepsContents(old(View()), View(), {idx1, idx2}) && Exclusive(old(View()), View(), idx1, idx2)
      ensures forall i :: 0 <= i < |rdPorts| && SeesWinnerAt(old(View()), i, idx1, idx2) ==>
                Preserves(old(View()), View(), i, Given(Any, {idx1, idx2}, {}))
      ensures idx1 != idx2 && wrPorts[idx1] == old(wrPorts[idx1]).(en := wrPorts[idx1].en)
      ensures wrPorts[idx2] == old(wrPorts[idx2]).(priority := old(wrPorts[idx2].priority)[idx1 := false])
      ensures forall k :: 0 <= k < |wrPorts| && k != idx1 && k != idx2 ==> wrPorts[k] == old(wrPorts)[k]
    {
      hide Checked, MaskedPort, Ports, SeesWinnerAt, Loopfree, KeepsContents, Exclusive, Preserves, KeepsInputs;
      ghost var b := View();
      CheckedPair(b, idx1, idx2);
      InputsItself(b);
      var en := MaskAll(wrPorts[idx1], wrPorts[idx2], width);
      var priority := wrPorts[idx2].priority[idx1 := false];
      wrPorts := wrPorts[idx1 := wrPorts[idx1].(en := en)][idx2 := wrPorts[idx2].(priority := priority)];
      SameLoopfree(b, View());
      OutputsDriven(b, b, View());
      MaskedPriority(b.wr[idx1], b.wr[idx2], width);
      CheckedPriority(b, View(), idx1, idx2);
      PriorityContents(b, View(), idx1, idx2);
      forall i | 0 <= i < |rdPorts| && SeesWinnerAt(b, i, idx1, idx2)
        ensures Preserves(b, View(), i, Given(Any, {idx1, idx2}, {}))
      {
        PrioritySizes(b, i);
        SeesWinnerHere(b, i, idx1, idx2);
        PriorityStage(b, View(), idx1, idx2, i);
      }
    }

    /** Aligns start and size to `2^wideLog2` words; no word is lost and less than one wide word is added at either
        end. */
    method WidenPrep(wideLog2: nat)
      modifies this`startOffset, this`size
      ensures startOffset == AlignedStart(old(startOffset), wideLog2) &&
          size == AlignedSize(old(startOffset), old(size), wideLog2)
      ensures Low(startOffset, wideLog2) == 0 && Low(size, wideLog2) == 0
      ensures startOffset <= old(startOffset) < startOffset + Pow2(wideLog2)
      ensures old(startOffset + size) <= startOffset + size < old(startOffset + size) + Pow2(wideLog2)
    {
      hide Low;
      AlignedGeometry(startOffset, size, wideLog2);
      var delta := Low(startOffset, wideLog2);
      startOffset := startOffset - delta;
      size := size + delta;
      if Low(size, wideLog2) != 0 {
        // Setting all low bits and adding one.
        size := Base(size, wideLog2) + (Pow2(wideLog2) - 1);
        size := size + 1;
      }
    }

    /** Makes a write port access `2^wideLog2` words. */
    method WidenWrPort(idx: nat, wideLog2: nat)
      requires Checked(View()) && idx < |wrPorts| && wrPorts[idx].wideLog2 <= wideLog2 <= |wrPorts[idx].addr|
      modifies this`startOffset, this`size, this`wrPorts
      ensures Checked(View()) && |wrPorts| == old(|wrPorts|) && wrPorts[idx].wideLog2 == wideLog2
      ensures KeepsContents(old(View()), View(), {idx})
      ensures forall i :: 0 <= i < |rdPorts| ==> Preserves(old(View()), View(), i, Given(Any, {idx}, {}))
      ensures Loopfree(old(View())) ==> Loopfree(View()) && Runnable(View())
      ensures forall k :: 0 <= k < |wrPorts| && k != idx ==> wrPorts[k] == old(wrPorts[k])
      ensures wrPorts[idx] == old(wrPorts[idx]).(addr := wrPorts[idx].addr, en := wrPorts[idx].en,
                                                 data := wrPorts[idx].data, wideLog2 := wideLog2)
      ensures |wrPorts[idx].addr| == old(|wrPorts[idx].addr|) &&
          forall j :: wideLog2 <= j < |wrPorts[idx].addr| ==> wrPorts[idx].addr[j] == old(wrPorts[idx].addr)[j]
      ensures startOffset <= old(startOffset) < startOffset + Pow2(wideLog2) &&
          old(startOffset + size) <= startOffset + size < old(startOffset + size) + Pow2(wideLog2)
    {
      hide Eval, Checked, Preserves, Low, WidenedEn, WidenedData, ClearedAddr, AlignedStart, AlignedSize, Loopfree,
          KeepsContents, Runnable;
      ghost var a := View();
      CheckedWriter(a, idx);
      WidenPrep(wideLog2);
      var port := wrPorts[idx];
      if port.wideLog2 < wideLog2 {
        var en, data := WidenPort(port, width, wideLog2);
        var addr := ClearedAddr(port.addr, port.wideLog2, wideLog2);
        wrPorts := wrPorts[idx := port.(addr := addr, en := en, data := data, wideLog2 := wideLog2)];
      } else {
        WidenedItself(port, width);
        assert wrPorts == wrPorts[idx := port];
      }
      assert wrPorts[idx] == Widened(port, width, wideLog2);
      WidenStage(a, View(), idx, wideLog2);
      SameLoopfree(a, View());
      CheckedRuns(View());
    }

    /** Replaces every wide port by narrow ports, one per word. */
    method Narrow()
      requires Checked(View())
      modifies this`rdPorts, this`wrPorts
      ensures Checked(View()) && |rdPorts| == Total(RdLogs(old(rdPorts)), old(|rdPorts|)) &&
          |wrPorts| == Total(WrLogs(old(wrPorts)), old(|wrPorts|))
      ensures (forall k :: 0 <= k < |wrPorts| ==> wrPorts[k].wideLog2 == 0) &&
          forall k :: 0 <= k < |rdPorts| ==> rdPorts[k].wideLog2 == 0
      ensures KeepsContents(old(View()), View(), WideOnes(old(wrPorts)))
      ensures forall i, g: Given ::
                0 <= i < old(|rdPorts|) && WideOnes(old(wrPorts)) <= g.writers ==>
                  SplitPreserved(old(View()), View(), i, g)
      ensures Loopfree(old(View())) ==> Loopfree(View()) && Runnable(View())
      ensures forall x :: 0 <= x < |rdPorts| ==> NarrowedRd(old(View()), View(), x)
      ensures forall x :: 0 <= x < |wrPorts| ==> NarrowedWr(old(View()), View(), x)
    {
      hide Checked, Pow2, Subs, Count, NarrowWr, ExpandMask, NarrowShape, SubRd, SubWr, RdShape, RamShape,
          SplitPreserved, Loopfree, KeepsContents, Runnable, WideOnes, NarrowedRd, NarrowedWr;
      ghost var a := View();
      ghost var m := RamOf(a, (_, _) => Sx);
      CheckedSplittable(a);
      CheckedShapes(a, m.init);
      TotalCount(a.wr, |a.wr|);
      var newRdMap := PortMap(RdLogs(rdPorts));
      var newWrMap := PortMap(WrLogs(wrPorts));
      var newRdPorts := NarrowRdPorts(newRdMap, newWrMap, m);
      var newWrPorts := NarrowWrPorts(newWrMap);
      rdPorts, wrPorts := newRdPorts, newWrPorts;
      assert IsSplit(a, View(), m);
      SplitChecked(a, View(), m);
      SplitLoopfree(a, View(), m);
      CheckedRuns(View());
      SplitContents(a, View(), m);
      forall i, g: Given | 0 <= i < |a.rd| && WideOnes(a.wr) <= g.writers ensures SplitPreserved(a, View(), i, g) {
        SplitStage(a, View(), m, i, g);
      }
      SplitNarrowed(a, View(), m);
    }

    method NarrowRdPorts(rdMap: seq<(nat, nat)>, wrMap: seq<(nat, nat)>, ghost m: Ram) returns (ports: seq<MemRd>)
      requires RamShape(m) && m.wr == wrPorts && m.width == width && NarrowShape(wrPorts, width)
      requires forall i :: 0 <= i < |rdPorts| ==> RdShape(rdPorts[i], width, |wrPorts|)
      requires rdMap == Subs(RdLogs(rdPorts), |rdPorts|) && wrMap == Subs(WrLogs(wrPorts), |wrPorts|)
      ensures |ports| == |rdMap| &&
          forall y :: 0 <= y < |rdMap| ==> ports[y] == SubRd(rdPorts[rdMap[y].0], m, rdMap[y].1)
    {
      hide Pow2, Subs, NarrowShape, SubRd, RdShape, RamShape;
      ports := [];
      for x := 0 to |rdMap|
        invariant |ports| == x
        invariant forall y :: 0 <= y < x ==> ports[y] == SubRd(rdPorts[rdMap[y].0], m, rdMap[y].1)
      {
        var port := NarrowRdPort(rdPorts[rdMap[x].0], rdMap[x].1, wrMap, m);
        ports := ports + [port];
      }
    }

    method NarrowWrPorts(wrMap: seq<(nat, nat)>) returns (ports: seq<MemWr>)
      requires NarrowShape(wrPorts, width) && wrMap == Subs(WrLogs(wrPorts), |wrPorts|)
      ensures ports == NarrowWr(wrPorts, |wrPorts|, width) && forall y :: 0 <= y < |ports| ==> ports[y].wideLog2 == 0
    {
      hide Pow2, Subs, NarrowWr, ExpandMask, SubWr, Count, WrShape;
      TotalCount(wrPorts, |wrPorts|);
      ports := [];
      for x := 0 to |wrMap|
        invariant |ports| == x && forall y :: 0 <= y < x ==> ports[y].wideLog2 == 0
        invariant ports == NarrowWr(wrPorts, |wrPorts|, width)[..x]
      {
        var port := NarrowWrPort(wrMap[x].0, wrMap[x].1, wrMap);
        NarrowMapped(wrPorts, width, wrPorts[wrMap[x].0].priority, x);
        ports := ports + [port];
      }
    }

    method NarrowRdPort(orig: MemRd, sub: nat, wrMap: seq<(nat, nat)>, ghost m: Ram) returns (port: MemRd)
      requires RamShape(m) && m.wr == wrPorts && m.width == width && RdShape(orig, width, |wrPorts|) &&
          NarrowShape(wrPorts, width)
      requires sub < Pow2(orig.wideLog2) && wrMap == Subs(WrLogs(wrPorts), |wrPorts|)
      ensures port == SubRd(orig, m, sub)
    {
      hide ExpandMask, Subs, Flat, SubAddr, NarrowShape, Pow2;
      var transparency := ExpandByMap(wrPorts, width, wrMap, orig.transparency);
      var collisionX := ExpandByMap(wrPorts, width, wrMap, orig.collisionX);
      port := orig.(transparency := transparency, collisionX := collisionX);
      if orig.wideLog2 > 0 {
        SliceBound(width, sub, Pow2(orig.wideLog2));
        var lo, hi := Span(width, sub), Span(width, sub) + width;
        port := orig.(transparency := transparency, collisionX := collisionX,
                      addr := SubAddr(orig.addr, orig.wideLog2, sub), wideLog2 := 0,
                      data := orig.data[lo..hi], initValue := orig.initValue[lo..hi],
                      arstValue := orig.arstValue[lo..hi], srstValue := orig.srstValue[lo..hi]);
      }
    }

    method NarrowWrPort(k: nat, sub: nat, wrMap: seq<(nat, nat)>) returns (port: MemWr)
      requires NarrowShape(wrPorts, width) && k < |wrPorts| && sub < Pow2(wrPorts[k].wideLog2) &&
          wrMap == Subs(WrLogs(wrPorts), |wrPorts|)
      ensures port == SubWr(wrPorts, k, width, sub)
    {
      hide ExpandMask, Subs, Flat, SubAddr, Pow2;
      var orig := wrPorts[k];
      var priority := ExpandByMap(wrPorts, width, wrMap, orig.priority);
      port := orig.(priority := priority);
      if orig.wideLog2 > 0 {
        SliceBound(width, sub, Pow2(orig.wideLog2));
        var lo, hi := Span(width, sub), Span(width, sub) + width;
        port := orig.(priority := priority, data := orig.data[lo..hi], en := orig.en[lo..hi],
                      addr := SubAddr(orig.addr, orig.wideLog2, sub), wideLog2 := 0);
      }
    }

    /** Whether `EmulateReadFirst` applies. */
    method EmulateReadFirstOk() returns (ok: bool)
      requires forall i :: 0 <= i < |rdPorts| ==> |rdPorts[i].transparency| == |rdPorts[i].collisionX| == |wrPorts|
      ensures ok <==> ReadFirstOk(View())
      ensures ok <==>
                && |wrPorts| > 0
                && (forall k :: 0 <= k < |wrPorts| ==>
                      wrPorts[k].clkEnable && wrPorts[k].clk == wrPorts[0].clk &&
                      wrPorts[k].clkPolarity == wrPorts[0].clkPolarity)
                && (forall i :: 0 <= i < |rdPorts| ==> Domain(rdPorts[i], wrPorts[0]))
                && exists i, j :: 0 <= i < |rdPorts| && 0 <= j < |wrPorts| &&
                     !rdPorts[i].transparency[j] && !rdPorts[i].collisionX[j]
    {
      hide ReadFirstOk, IsReadFirst, SameDomain;
      ReadFirstMeans(View());
      if |wrPorts| == 0 { return false; }
      var clk, clkPolarity := wrPorts[0].clk, wrPorts[0].clkPolarity;
      for k := 0 to |wrPorts|
        invariant forall j ::
            0 <= j < k ==> wrPorts[j].clkEnable && wrPorts[j].clk == clk && wrPorts[j].clkPolarity == clkPolarity
      {
        if !wrPorts[k].clkEnable || wrPorts[k].clk != clk || wrPorts[k].clkPolarity != clkPolarity { return false; }
      }
      ok := false;
      for i := 0 to |rdPorts|
        invariant forall j ::
            0 <= j < i ==> rdPorts[j].clkEnable && rdPorts[j].clk == clk && rdPorts[j].clkPolarity == clkPolarity
        invariant ok <==>
            exists x, j :: 0 <= x < i && 0 <= j < |wrPorts| && !rdPorts[x].transparency[j] && !rdPorts[x].collisionX[j]
      {
        if !rdPorts[i].clkEnable || rdPorts[i].clk != clk || rdPorts[i].clkPolarity != clkPolarity { return false; }
        for j := 0 to |wrPorts|
          invariant ok <==>
              (exists x, y ::
                 0 <= x < i && 0 <= y < |wrPorts| && !rdPorts[x].transparency[y] && !rdPorts[x].collisionX[y]) ||
              exists y :: 0 <= y < j && !rdPorts[i].transparency[y] && !rdPorts[i].collisionX[y]
        {
          if !rdPorts[i].transparency[j] && !rdPorts[i].collisionX[j] {
            ok := true;
          }
        }
      }
    }

    /** Emulates every transparency of one read port. */
    method ClearTransparency(i: nat)
      requires Checked(View()) && i < |rdPorts| && SeesPresent(rdPorts[i], wrPorts)
      modifies this`rdPorts, this`ffs, this`cells, this`nextWire
      ensures Emulated(old(View()), View(), i, ThroughNeeds(old(rdPorts[i]), 0)) && |rdPorts| == old(|rdPorts|) &&
          MasksMoved(old(rdPorts[i]), rdPorts[i], 0)
      ensures |rdPorts[i].transparency| == |wrPorts| && forall k :: 0 <= k < |wrPorts| ==> !rdPorts[i].transparency[k]
    {
      hide Checked, Emulated, AtMost, ThroughFrom, MasksMoved, Loopfree, Runnable;
      ghost var a := View();
      ghost var g := ThroughNeeds(rdPorts[i], 0);
      StartEmulation(a, i, g);
      PrioritySizes(a, i);
      MovedItself(a.rd[i], 0);
      for j := 0 to |wrPorts|
        invariant Emulated(a, View(), i, g) && |rdPorts| == |a.rd| && MasksMoved(a.rd[i], rdPorts[i], 0) &&
            |rdPorts[i].transparency| == |wrPorts|
        invariant forall k :: 0 <= k < j ==> !rdPorts[i].transparency[k]
      {
        if rdPorts[i].transparency[j] {
          ghost var b := View();
          EmulatedPort(a, b, i, g);
          MovedBelow(a.rd[i], b.rd[i], 0);
          EmulateTransparency(j, i);
          MovedBelow(b.rd[i], rdPorts[i], j);
          ClearedUnder(a.rd[i], b.rd[i], j);
          EmulatedUnder(b, View(), i, ThroughNeeds(b.rd[i], j), g);
          EmulatedTransitive(a, b, View(), i, g);
          MovedEarlier(b.rd[i], rdPorts[i], 0, j);
          MovedTransitive(a.rd[i], b.rd[i], rdPorts[i], 0, 0);
        }
      }
    }

    /** Delays one write port by a cycle. */
    method DelayPort(k: nat, enInit: State)
      requires k < |wrPorts| && |wrPorts[k].en| > 0
      modifies this`wrPorts, this`ffs, this`nextWire
      ensures |wrPorts| == old(|wrPorts|) && wrPorts == old(wrPorts)[k := wrPorts[k]] && old(ffs) <= ffs &&
          old(nextWire) <= nextWire
      ensures (Loopfree(old(View())) ==> Loopfree(View())) && KeepsInputs(old(View()), View())
      ensures Delayed(old(wrPorts[k]), wrPorts[k], enInit, ffs) && AllWires(wrPorts[k].addr)
    {
      hide WriteFf, Delayed, Loopfree, Fresh, KeepsInputs, Outputs;
      ghost var a := View();
      var port := wrPorts[k];
      var newData := Fresh(nextWire, |port.data|);
      var newAddr := Fresh(nextWire + |port.data|, |port.addr|);
      var sig, swizzle := CompressEn(port.en);
      var newEn := Fresh(nextWire + |port.data| + |port.addr|, |sig|);
      nextWire := nextWire + |port.data| + |port.addr| + |sig|;
      ffs := ffs + [WriteFf(port, newData, port.data, Sx), WriteFf(port, newAddr, port.addr, Sx),
          WriteFf(port, newEn, sig, enInit)];
      var en := DecompressEn(swizzle, newEn);
      wrPorts := wrPorts[k := port.(data := newData, addr := newAddr, en := en)];
      DelayedBy(port, wrPorts[k], sig, swizzle, newEn, enInit, ffs);
      WriteFfClocked(port, newData, port.data, Sx);
      WriteFfClocked(port, newAddr, port.addr, Sx);
      WriteFfClocked(port, newEn, sig, enInit);
      FreshOutputs(a, a.nextWire, |port.data|);
      FreshOutputs(a, a.nextWire + |port.data|, |port.addr|);
      FreshOutputs(a, a.nextWire + |port.data| + |port.addr|, |sig|);
      InputsItself(a);
      OutputsDriven(a, a, View());
      DelayKeepsLoopfree(a, View(), k, ffs[|a.ffs|], ffs[|a.ffs| + 1], ffs[|a.ffs| + 2]);
    }

    method ClearAllTransparency()
      requires Checked(View()) && SameDomain(View()) &&
          forall i :: 0 <= i < |rdPorts| ==> SeesPresent(rdPorts[i], wrPorts)
      modifies this`rdPorts, this`ffs, this`cells, this`nextWire
      ensures Checked(View()) && SameDomain(View()) && Grows(old(View()), View()) && |rdPorts| == old(|rdPorts|)
      ensures forall j :: 0 <= j < |rdPorts| ==>
                Preserves(old(View()), View(), j, ThroughNeeds(old(rdPorts[j]), 0)) && Opaque(View(), j)
      ensures forall j :: 0 <= j < |rdPorts| ==> MasksMoved(old(rdPorts)[j], rdPorts[j], 0)
    {
      hide Checked, Emulated, Preserves, MasksMoved, SameDomain, Loopfree, ThroughNeeds;
      ghost var a := View();
      forall i | 0 <= i < |rdPorts| ensures Preserves(a, a, i, ThroughNeeds(a.rd[i], 0)) {
        PreservesItself(a, i, ThroughNeeds(a.rd[i], 0));
      }
      for i := 0 to |rdPorts|
        invariant Checked(View()) && SameDomain(View()) && Grows(a, View()) && |rdPorts| == |a.rd|
        invariant forall j :: 0 <= j < |rdPorts| ==> Preserves(a, View(), j, ThroughNeeds(a.rd[j], 0))
        invariant forall j :: 0 <= j < i ==> Opaque(View(), j) && MasksMoved(a.rd[j], rdPorts[j], 0)
        invariant wrPorts == a.wr && forall j :: i <= j < |rdPorts| ==> rdPorts[j] == a.rd[j]
      {
        ghost var b := View();
        ClearTransparency(i);
        EmulatedOthers(b, View(), i, ThroughNeeds(b.rd[i], 0));
        OpaqueHere(b, View(), i, ThroughNeeds(b.rd[i], 0));
        AfterClearing(a, b, View(), i);
      }
    }

    method MakeAllTransparent()
      requires forall i :: 0 <= i < |rdPorts| ==> Opaque(View(), i)
      modifies this`rdPorts
      ensures |rdPorts| == old(|rdPorts|) &&
          forall i :: 0 <= i < |rdPorts| ==> MadeTransparent(old(rdPorts[i]), rdPorts[i])
      ensures (Loopfree(old(View())) ==> Loopfree(View())) && KeepsInputs(old(View()), View())
    {
      hide Loopfree, KeepsInputs;
      ghost var a := View();
      for i := 0 to |rdPorts|
        invariant |rdPorts| == |a.rd| && rdPorts[i..] == a.rd[i..]
        invariant forall x :: 0 <= x < i ==> MadeTransparent(a.rd[x], rdPorts[x])
      {
        assert Opaque(a, i) && rdPorts[i] == rdPorts[i..][0] == a.rd[i];
        var transparency, collisionX := rdPorts[i].transparency, rdPorts[i].collisionX;
        for j := 0 to |wrPorts|
          invariant |transparency| == |collisionX| == |wrPorts| &&
              forall y :: 0 <= y < j ==> transparency[y] && !collisionX[y]
        {
          transparency, collisionX := transparency[j := true], collisionX[j := false];
        }
        rdPorts := rdPorts[i := rdPorts[i].(transparency := transparency, collisionX := collisionX)];
      }
      SameLoopfree(a, View());
      InputsItself(a);
      OutputsDriven(a, a, View());
    }

    method DelayAll(enInit: State)
      requires forall k :: 0 <= k < |wrPorts| ==> |wrPorts[k].en| > 0
      modifies this`wrPorts, this`ffs, this`nextWire
      ensures |wrPorts| == old(|wrPorts|) && old(ffs) <= ffs && old(nextWire) <= nextWire
      ensures (Loopfree(old(View())) ==> Loopfree(View())) && KeepsInputs(old(View()), View())
      ensures forall k ::
          0 <= k < |wrPorts| ==> Delayed(old(wrPorts[k]), wrPorts[k], enInit, ffs) && AllWires(wrPorts[k].addr)
    {
      hide Delayed, Loopfree, KeepsInputs;
      ghost var wr0, ffs0 := wrPorts, ffs;
      InputsItself(View());
      for k := 0 to |wrPorts|
        invariant |wrPorts| == |wr0| && ffs0 <= ffs && old(nextWire) <= nextWire && wrPorts[k..] == wr0[k..]
        invariant (Loopfree(old(View())) ==> Loopfree(View())) && KeepsInputs(old(View()), View())
        invariant forall x :: 0 <= x < k ==> Delayed(wr0[x], wrPorts[x], enInit, ffs) && AllWires(wrPorts[x].addr)
      {
        assert wrPorts[k] == wrPorts[k..][0] == wr0[k];
        ghost var ffs1, wr1, before := ffs, wrPorts, View();
        DelayPort(k, enInit);
        InputsTransitive(old(View()), before, View());
        forall x | 0 <= x < k ensures Delayed(wr0[x], wrPorts[x], enInit, ffs) {
          assert wrPorts[x] == wr1[x];
          DelayedGrow(wr0[x], wr1[x], enInit, ffs1, ffs);
        }
      }
    }

    /** Makes every read port transparent to every write port, delaying the writes so that reads still see the old
        contents. The result satisfies `Checked` exactly when no write port is wide. */
    method EmulateReadFirst()
      requires Checked(View()) && ReadFirstOk(View()) &&
          forall i :: 0 <= i < |rdPorts| ==> SeesPresent(rdPorts[i], wrPorts)
      modifies this`rdPorts, this`wrPorts, this`ffs, this`cells, this`nextWire
      ensures |rdPorts| == old(|rdPorts|) && |wrPorts| == old(|wrPorts|) && Grows(old(View()), View())
      ensures forall i :: 0 <= i < |rdPorts| ==>
                KeepsReadFrom(old(View()), View(), i, hasInits, ThroughNeeds(old(rdPorts[i]), 0))
      ensures hasInits ==>
                forall i :: 0 <= i < |rdPorts| ==> Preserves(old(View()), View(), i, ThroughNeeds(old(rdPorts[i]), 0))
      ensures forall i :: 0 <= i < |rdPorts| ==>
                var p, q := old(rdPorts)[i], rdPorts[i];
                && q == p.(data := q.data, transparency := q.transparency, collisionX := q.collisionX)
                && |q.transparency| == |q.collisionX| == |wrPorts|
                && forall k :: 0 <= k < |wrPorts| ==> q.transparency[k] && !q.collisionX[k]
      ensures forall k :: 0 <= k < |wrPorts| ==>
                Delayed(old(wrPorts)[k], wrPorts[k], if hasInits then S0 else Sx, ffs)
      ensures Loopfree(old(View())) ==> Loopfree(View()) && Runnable(View())
      ensures Shaped(View()) && (Checked(View()) <==> forall k :: 0 <= k < |wrPorts| ==> old(wrPorts[k]).wideLog2 == 0)
    {
      hide Checked, Preserves, KeepsReadFrom, KeepsAllowed, Delayed, Loopfree, Shaped, Runnable, MasksMoved,
          KeepsInputs;
      ghost var a := View();
      ClearAllTransparency();
      ghost var b := View();
      CheckedEnables(b);
      MakeAllTransparent();
      ghost var mid := View();
      DelayAll(if hasInits then S0 else Sx);
      InputsTransitive(b, mid, View());
      InputsTransitive(a, b, View());
      ghost var enInit := if hasInits then S0 else Sx;
      assert IsReadFirstView(b, View(), enInit);
      forall i | 0 <= i < |rdPorts|
        ensures KeepsReadFrom(a, View(), i, hasInits, ThroughNeeds(a.rd[i], 0))
        ensures hasInits ==> Preserves(a, View(), i, ThroughNeeds(a.rd[i], 0))
      {
        ReadFirstStage(b, View(), i, hasInits);
        PreservesThenRead(a, b, View(), i, hasInits, ThroughNeeds(a.rd[i], 0));
      }
      forall i | 0 <= i < |rdPorts| { NowTransparent(a, b, View(), i); }
      ReadFirstChecked(b, View(), enInit);
      LoopfreeRuns(View());
    }

    /** Puts in front of the output register what the port's transparency and collision masks would show. */
    method OverlayWriters(idx: nat, asyncD: Sig, ghost m: Ram) returns (d: Sig)
      requires idx < |rdPorts| && |asyncD| == |rdPorts[idx].data| && m.wr == wrPorts && m.width == width
      requires RamShape(m) && RdShape(rdPorts[idx], width, |wrPorts|) && Bypassable(rdPorts[idx], m)
      ensures |d| == |asyncD| && d == DataAfter(rdPorts[idx], m, |wrPorts|, asyncD)
    {
      hide Paired, OverlayTo, Eval;
      var port := rdPorts[idx];
      d := asyncD;
      for i := 0 to |wrPorts|
        invariant |d| == |asyncD| && d == DataAfter(port, m, i, asyncD)
      {
        if !wrPorts[i].removed && (port.transparency[i] || port.collisionX[i]) {
          d := OverlayWriter(port, wrPorts[i], width, BypassSource(port, wrPorts[i], i), d);
        }
      }
    }

    /** Whether the register can move to the address input. */
    method TransUseAddr(idx: nat) returns (useAddr: bool)
      requires idx < |rdPorts| && |rdPorts[idx].transparency| == |wrPorts|
      ensures forall init: Contents :: useAddr == UsesAddress(rdPorts[idx], RamOf(View(), init))
    {
      hide AllX;
      var port := rdPorts[idx];
      useAddr := true;
      for i := 0 to |wrPorts|
        invariant useAddr <==> forall k :: 0 <= k < i ==> port.transparency[k] || wrPorts[k].removed
      {
        if !port.transparency[i] && !wrPorts[i].removed { useAddr := false; }
      }
      if |wrPorts| == 0 { useAddr := false; }
      if port.en != Const(S1) || port.srst != Const(S0) || port.arst != Const(S0) || !AllX(port.initValue) {
        useAddr := false;
      }
    }

    /** Turns a clocked read port into an asynchronous one with a separate register; tells whether one was added. */
    method ExtractRdff(idx: nat) returns (added: bool)
      requires Checked(View()) && idx < |rdPorts|
      requires rdPorts[idx].clkEnable ==> rdPorts[idx].arst == Const(S0) || rdPorts[idx].srst == Const(S0)
      modifies this`rdPorts, this`ffs, this`nextWire
      ensures Emulated(old(View()), View(), idx, Given(Definite, SeenBy(old(rdPorts[idx])), {}))
      ensures old(UsesAddressAt(View(), idx)) ==> Emulated(old(View()), View(), idx, CONTROLS)
      ensures Loopfree(old(View())) ==> Loopfree(View()) && Runnable(View())
      ensures |rdPorts| == old(|rdPorts|) && !rdPorts[idx].clkEnable
      ensures rdPorts[idx].removed == old(rdPorts[idx].removed) && rdPorts[idx].wideLog2 == old(rdPorts[idx].wideLog2)
      ensures |rdPorts[idx].transparency| == |rdPorts[idx].collisionX| == |wrPorts| &&
          old(|rdPorts[idx].transparency|) == |wrPorts|
      ensures |ffs| == old(|ffs|) + if added then 1 else 0
      ensures old(rdPorts[idx].clkEnable) ==>
                var p, q := old(rdPorts[idx]), rdPorts[idx];
                && q.clk == Const(S0) && q.clkPolarity && !q.ceOverSrst
                && q.en == Const(S1) && q.arst == Const(S0) && q.srst == Const(S0)
                && |q.initValue| == |q.arstValue| == |q.srstValue| == |q.data| == |p.data|
                && (forall i :: 0 <= i < |p.data| ==> q.initValue[i] == q.arstValue[i] == q.srstValue[i] == Sx)
                && forall k :: 0 <= k < |wrPorts| ==> !q.transparency[k] && !q.collisionX[k]
      ensures old(rdPorts[idx].clkEnable) ==>
                var p, q := old(rdPorts[idx]), rdPorts[idx];
                if |wrPorts| > 0 && (forall k :: 0 <= k < |wrPorts| ==> p.transparency[k] || wrPorts[k].removed) &&
                   p.en == Const(S1) && p.arst == Const(S0) && p.srst == Const(S0) && AllX(p.initValue)
                then q.data == p.data && |q.addr| == |p.addr| &&
                     (added <==> exists j :: 0 <= j < |p.addr| && !p.addr[j].Const?)
                else q.addr == p.addr && added && ffs[|ffs| - 1].sigQ == p.data && ffs[|ffs| - 1].valInit == p.initValue
      ensures !old(rdPorts[idx].clkEnable) ==> View() == old(View())
    {
      hide Checked, Emulated, AddressRegistered, Loopfree, Runnable, Asynchronous;
      ghost var a := View();
      var port := rdPorts[idx];
      ghost var g := Given(Definite, SeenBy(port), {});
      StartEmulation(a, idx, g);
      PrioritySizes(a, idx);
      CheckedRuns(a);
      if !port.clkEnable { return false; }
      var useAddr := TransUseAddr(idx);
      SomeData(a, idx);
      if useAddr {
        added := RegisterAddress(idx);
        NoClock(port, rdPorts[idx].addr, port.data);
        AddressStage(a, View(), idx);
        EmulatedUnder(a, View(), idx, CONTROLS, g);
      } else {
        assert !UsesAddress(rdPorts[idx], RamOf(View(), (_, _) => Sx));
        RegisterOutput(idx);
        NoClock(port, port.addr, rdPorts[idx].data);
        added := true;
      }
      EmulatedRuns(a, View(), idx, g);
    }

    /** The register on the data output, behind multiplexers for what the masks would show. */
    method RegisterOutput(idx: nat)
      requires Checked(View()) && idx < |rdPorts| && rdPorts[idx].clkEnable
      modifies this`rdPorts, this`ffs, this`nextWire
      ensures Emulated(old(View()), View(), idx, Given(Definite, SeenBy(old(rdPorts[idx])), {}))
      ensures |rdPorts| == old(|rdPorts|) && |rdPorts[idx].data| == old(|rdPorts[idx].data|)
      ensures rdPorts[idx] == Asynchronous(old(rdPorts[idx]), old(rdPorts[idx].addr), rdPorts[idx].data)
      ensures |ffs| == old(|ffs|) + 1 && ffs[old(|ffs|)].sigQ == old(rdPorts[idx].data) &&
          ffs[old(|ffs|)].valInit == old(rdPorts[idx].initValue)
    {
      hide Eval, Checked, Emulated, OnlyPort, DataAfter, OutputFf, Bypassable, RdShape, RamShape, Loopfree, Below,
          Outputs, KeepsInputs;
      ghost var a := View();
      ghost var init: Contents := (_, _) => Sx;
      var port := rdPorts[idx];
      CheckedBypassable(a, idx, init);
      RdSizes(port, width, |wrPorts|);
      SomeData(a, idx);
      var asyncD := Fresh(nextWire, |port.data|);
      nextWire := nextWire + |port.data|;
      var sigD := OverlayWriters(idx, asyncD, RamOf(a, init));
      ffs := ffs + [OutputFf(port, sigD)];
      rdPorts := rdPorts[idx := Asynchronous(port, port.addr, asyncD)];
      assert OnlyPort(a, View(), idx) by { OnlyPortUpdated(a, View(), idx); }
      OutputKeepsLoopfree(a, View(), idx, sigD);
      FreshOutputs(a, a.nextWire, |port.data|);
      DataOutputs(a, idx);
      StepInputs(a, View(), idx);
      OutputStage(a, View(), idx, init);
    }

    method RegisterAddress(idx: nat) returns (added: bool)
      requires idx < |rdPorts| && |rdPorts[idx].transparency| == |wrPorts|
      modifies this`rdPorts, this`ffs, this`nextWire
      ensures OnlyPort(old(View()), View(), idx) && |rdPorts| == old(|rdPorts|)
      ensures rdPorts[idx] == Asynchronous(old(rdPorts[idx]), rdPorts[idx].addr, old(rdPorts[idx].data)) &&
          KeepsConstants(old(rdPorts[idx].addr), rdPorts[idx].addr)
      ensures AddressRegistered(old(rdPorts[idx]), rdPorts[idx], ffs) && KeepsInputs(old(View()), View()) &&
          |ffs| == old(|ffs|) + if added then 1 else 0
      ensures added <==> exists j :: 0 <= j < old(|rdPorts[idx].addr|) && !old(rdPorts[idx]).addr[j].Const?
      ensures old(rdPorts[idx]).clkEnable && old(rdPorts[idx]).arst == Const(S0) && |old(rdPorts[idx]).data| > 0 ==>
          (Loopfree(old(View())) ==> Loopfree(View()))
    {
      hide Eval, PortFf, AddressRegistered, Loopfree, Below, Fresh, Outputs, KeepsInputs, Wires;
      ghost var a := View();
      var port := rdPorts[idx];
      var n := CountWires(port.addr);
      var sigQ := Fresh(nextWire, n);
      var addr, sigD := SplitAddress(port.addr, sigQ);
      added := n > 0;
      if added {
        var x := seq(n, _ => Sx);
        ffs := ffs + [PortFf(port, true, sigQ, sigD, x, x, x)];
        nextWire := nextWire + n;
      }
      rdPorts := rdPorts[idx := Asynchronous(port, addr, port.data)];
      AddressMoved(port, rdPorts[idx], sigD, sigQ, ffs);
      FreshOutputs(a, a.nextWire, n);
      StepInputs(a, View(), idx);
      assert IsAddressStep(a, View(), idx, sigQ, sigD);
      if port.clkEnable && port.arst == Const(S0) && |port.data| > 0 {
        AddressKeepsLoopfree(a, View(), idx, sigQ, sigD);
      }
    }

    /** A register remembers the previous output and another one selects it while the port is not enabled. */
    method AddHold(idx: nat)
      requires Checked(View()) && idx < |rdPorts| && rdPorts[idx].clkEnable && !rdPorts[idx].ceOverSrst
      modifies this`rdPorts, this`ffs, this`cells, this`nextWire
      ensures Emulated(old(View()), View(), idx, CONTROLS) && FreshData(old(View()), View(), idx)
      ensures Loopfree(old(View())) ==> Loopfree(View()) && Runnable(View())
      ensures |rdPorts| == old(|rdPorts|) && |rdPorts[idx].data| == old(|rdPorts[idx].data|) &&
          rdPorts[idx] == AlwaysOn(old(rdPorts[idx]), rdPorts[idx].data)
    {
      hide Eval, Below, Checked, KeepsRead, KeepsKnown, RdShape, EnableFf, HoldFf, OnlyPort, MuxCells, AlwaysOn,
           Loopfree, Runnable;
      ghost var a := View();
      StartEmulation(a, idx, CONTROLS);
      var port := rdPorts[idx];
      var n := |port.data|;
      var newData, prevData, sel := Fresh(nextWire, n), Fresh(nextWire + n, n), Wire(nextWire + 2 * n);
      nextWire := nextWire + 2 * n + 1;
      ffs := ffs + [EnableFf(port, sel), HoldFf(port, prevData)];
      cells := cells + MuxCells(port.data, prevData, newData, sel);
      rdPorts := rdPorts[idx := AlwaysOn(port, newData)];
      EnableStep(a, View(), idx, sel, prevData);
    }

    /** Emulates the enable of a clocked read port, leaving the port always enabled and without resets. */
    method EmulateRden(idx: nat)
      requires Checked(View()) && idx < |rdPorts| && rdPorts[idx].clkEnable
      modifies this`rdPorts, this`ffs, this`cells, this`nextWire
      ensures Emulated(old(View()), View(), idx, CONTROLS) && FreshData(old(View()), View(), idx)
      ensures Loopfree(old(View())) ==> Loopfree(View()) && Runnable(View())
      ensures |rdPorts| == old(|rdPorts|) &&
          rdPorts[idx] == old(rdPorts[idx]).(data := rdPorts[idx].data, initValue := rdPorts[idx].initValue,
                                             arst := Const(S0), srst := Const(S0), en := Const(S1), ceOverSrst := false)
      ensures rdPorts[idx].removed == old(rdPorts[idx].removed)
      ensures |rdPorts[idx].data| == |rdPorts[idx].initValue| == old(|rdPorts[idx].data|) &&
          forall i :: 0 <= i < |rdPorts[idx].initValue| ==> rdPorts[idx].initValue[i] == Sx
    {
      hide Eval, Emulated, Loopfree, Runnable;
      ghost var a := View();
      EmulateRdCeOverSrst(idx);
      ghost var b := View();
      EmulatedUnder(a, b, idx, DECIDED, CONTROLS);
      EmulatedPort(a, b, idx, CONTROLS);
      AddHold(idx);
      EmulatedTransitive(a, b, View(), idx, CONTROLS);
    }
  }

  lemma MaskLoops(a: MemView, b: MemView, idx: nat, k: Mask)
    requires Checked(a) && idx < |a.rd| == |b.rd| && a.rd[idx].clkEnable && |k.value| == |a.rd[idx].data|
    requires var p, q := a.rd[idx], b.rd[idx];
             && q == p.(data := q.data, initValue := q.initValue, arst := q.arst, srst := q.srst)
             && Delegated(p.arst, q.arst, k.arstSel, p.arstValue, k.value)
    requires k.sel == Wire(a.nextWire) && b.rd[idx].data == Fresh(a.nextWire + 1, |k.value|)
    requires b == a.(rd := a.rd[idx := b.rd[idx]], ffs := a.ffs + [Selector(a.rd[idx], k)],
                     nextWire := a.nextWire + 1 + |k.value|,
                     cells := a.cells + MuxCells(a.rd[idx].data, Consts(k.value), b.rd[idx].data, k.sel))
    ensures Loopfree(a) ==> Loopfree(b)
  {
    hide Eval, Below, Checked, Loopfree, MuxCells, Selector, Consts, Fresh;
    SomeData(a, idx);
    MaskKeepsLoopfree(a, b, idx, k);
  }

  lemma GroupLoops(v: MemView, v': MemView, g: Bypass, pos: nat, epos: nat, d: Bit)
    requires pos < epos <= g.width && g.off + g.width <= |g.before| && g.woff + g.width <= |g.wq|
    requires v' == v.(ffs := v.ffs + [CondFf(g.port, Wire(v.nextWire), d)], nextWire := v.nextWire + 1,
                      cells := v.cells + MuxCells(g.before[g.off + pos..g.off + epos],
                                                  Fresh(g.first, g.width)[pos..epos],
                                                  g.wq[g.woff + pos..g.woff + epos], Wire(v.nextWire)))
    ensures Ready(v, g, pos) ==> Ready(v', g, epos)
  {
    hide Eval, Below, LoopfreeOver, Unused, Fresh, MuxCells, Mixed, Fits;
    if Ready(v, g, pos) {
      PortFfDomain(g.port, true, [Wire(v.nextWire)], [d], [S0], [S0], [if AllX(g.port.initValue) then Sx else S0]);
      GroupReady(v, v', g, pos, epos, CondFf(g.port, Wire(v.nextWire), d));
    }
  }

  lemma LayerLoops(v: MemView, g: Bypass, after: Sig)
    requires Ready(v, g, g.width) && after == g.before[..g.off] + Fresh(g.first, g.width) + g.before[g.off + g.width..]
    ensures Stacked(v, g.ridx, g.port, after, g.wq, g.low)
  {
    hide LoopfreeOver, Unused, Fresh;
    EndLayer(v, g);
  }

  lemma DataLoops(a: MemView, b: MemView, ridx: nat, q: Sig, d: Sig)
    requires Checked(a) && Loopfree(a) && ridx < |a.rd| && a.rd[ridx].clkEnable && |q| == |d|
    requires q == Fresh(a.nextWire, |d|) &&
        b == a.(ffs := a.ffs + [DataFf(a.rd[ridx], q, d)], nextWire := a.nextWire + |d|)
    ensures Stacked(b, ridx, b.rd[ridx], b.rd[ridx].data, q, FreshSet(a.nextWire, |d|))
  {
    hide Loopfree, LoopfreeOver, Checked, Fresh, FreshSet, Stacked;
    SomeData(a, ridx);
    StartLayers(a, b, ridx, DataFf(a.rd[ridx], q, d));
  }

  lemma SomeData(a: MemView, i: nat)
    requires Checked(a) && i < |a.rd|
    ensures |a.rd[i].data| > 0
  {
    assert CheckedRd(a, i);
    SliceBound(a.width, 0, Pow2(a.rd[i].wideLog2));
  }

  /** Constants as the data input of a multiplexer. */
  lemma ConstMuxes(cells: Cells, p: MemRd, q: MemRd, k: Mask, added: Cells)
    requires |p.data| == |q.data| == |k.value| && added == MuxCells(p.data, Consts(k.value), q.data, k.sel)
    requires forall c :: c in added ==> c in cells
    ensures MasksData(cells, p, q, k)
  {
    hide Eval, Below;
    forall i | 0 <= i < |p.data| ensures (p.data[i], MuxGate(Const(k.value[i]), q.data[i], k.sel)) in cells {
      assert Consts(k.value)[i] == Const(k.value[i]);
      assert added[i] in added;
    }
  }

  /** The port without enable, resets and initial value. */
  function AlwaysOn(p: MemRd, data: Sig): (q: MemRd)
    ensures q.data == data && q.en == Const(S1) && q.arst == Const(S0) && q.srst == Const(S0) && AllX(q.initValue)
  {
    p.(data := data, initValue := seq(|data|, _ => Sx), arst := Const(S0), srst := Const(S0), en := Const(S1))
  }

  lemma EnableStep(b: MemView, c: MemView, idx: nat, sel: Bit, prev: Sig)
    requires Checked(b) && idx < |b.rd| == |c.rd| && b.rd[idx].clkEnable && !b.rd[idx].ceOverSrst
    requires var p := b.rd[idx]; |p.data| == |p.arstValue| == |p.srstValue| == |p.initValue|
    requires sel == Wire(b.nextWire + 2 * |b.rd[idx].data|) &&
        prev == Fresh(b.nextWire + |b.rd[idx].data|, |b.rd[idx].data|)
    requires var p, n, data := b.rd[idx], |b.rd[idx].data|, c.rd[idx].data;
             && data == Fresh(b.nextWire, n)
             && c == b.(rd := b.rd[idx := AlwaysOn(p, data)], ffs := b.ffs + [EnableFf(p, sel), HoldFf(p, prev)],
                        cells := b.cells + MuxCells(p.data, prev, data, sel), nextWire := b.nextWire + 2 * n + 1)
    ensures Emulated(b, c, idx, CONTROLS)
    ensures Loopfree(b) ==> Loopfree(c) && Runnable(c)
  {
    hide Eval, Below, Checked, KeepsRead, KeepsKnown, EnableFf, HoldFf, HoldsData, MuxCells, Fresh, Loopfree, Runnable;
    OnlyPortUpdated(b, c, idx);
    CheckedLike(b, c, idx);
    HoldMuxes(b.cells, b.rd[idx], c.rd[idx], sel, prev, MuxCells(b.rd[idx].data, prev, c.rd[idx].data, sel));
    EnableStage(b, c, idx, sel, prev);
    SomeData(b, idx);
    HoldKeepsLoopfree(b, c, idx, sel, prev);
    HoldInputs(b, c, idx, sel, prev);
    CheckedRuns(c);
  }

  lemma HoldInputs(b: MemView, c: MemView, idx: nat, sel: Bit, prev: Sig)
    requires idx < |b.rd| == |c.rd| && |b.rd[idx].data| == |c.rd[idx].data| == |prev|
    requires var p := b.rd[idx]; |p.data| == |p.arstValue| == |p.srstValue| == |p.initValue|
    requires sel == Wire(b.nextWire + 2 * |prev|) && prev == Fresh(b.nextWire + |prev|, |prev|)
    requires c.rd[idx].data == Fresh(b.nextWire, |prev|) && c.rd == b.rd[idx := c.rd[idx]]
    requires c.ffs == b.ffs + [EnableFf(b.rd[idx], sel), HoldFf(b.rd[idx], prev)]
    requires c.cells == b.cells + MuxCells(b.rd[idx].data, prev, c.rd[idx].data, sel)
    ensures KeepsInputs(b, c)
  {
    hide Driven, EnableFf, HoldFf, MuxCells, Fresh, KeepsInputs, Outputs, Eval, Below;
    FreshOutputs(b, b.nextWire, |prev|);
    FreshOutputs(b, b.nextWire + |prev|, |prev|);
    FreshOutputs(b, b.nextWire + 2 * |prev|, 1);
    StepInputs(b, c, idx);
  }

  lemma HoldMuxes(cells: Cells, p: MemRd, q: MemRd, sel: Bit, prev: Sig, added: Cells)
    requires |p.data| == |q.data| == |prev| && added == MuxCells(p.data, prev, q.data, sel)
    ensures HoldsData(cells + added, p, q, sel, prev)
  {
    hide Eval, Below;
    forall i | 0 <= i < |p.data| ensures (p.data[i], MuxGate(prev[i], q.data[i], sel)) in cells + added {
      assert added[i] in added;
    }
  }

  lemma OnlyPortUpdated(a: MemView, b: MemView, idx: nat)
    requires idx < |a.rd| && b.width == a.width && b.start == a.start && b.size == a.size && b.wr == a.wr &&
        |b.rd| == |a.rd|
    requires b.rd == a.rd[idx := b.rd[idx]] && a.ffs <= b.ffs && a.cells <= b.cells && a.nextWire <= b.nextWire
    ensures OnlyPort(a, b, idx)
  {
  }

  lemma SameSyncItself(p: MemRd, e: Env)
    ensures SameSyncEffect(p, p, e)
  {
  }
}
