/**
 Moving the enable, the resets and the initial value of a clocked read port into soft logic.

 Each step of the emulation adds registers in the port's clock domain and multiplexers that drive the old
 data wires. The lemmas here take one run of the new circuit and show, by induction over its instants, that
 the old data wires carry what the old port allowed.
 */
module MemReadControl {
  import opened Signals
  import opened FlipFlops
  import opened Lanes
  import opened MemPorts

  /** All added registers and cells run along with the levels. */
  ghost predicate SoftRuns(ffs: seq<Ff>, cells: Cells, envs: seq<Env>) {
    && (forall k :: 0 <= k < |ffs| ==> ffs[k].Valid() && IsRun(Net(ffs[k], [], 0), envs))
    && (forall t :: 0 <= t < |envs| ==> Consistent(cells, envs[t]))
  }

  // ---------------------------------------------------------------- what a port samples

  lemma {:induction false} SeenSame(p: MemRd, q: MemRd, m: Ram, n: nat, e0: Env, e1: Env, w: nat, b: nat, cur: State)
    requires RamShape(m) && n <= |m.wr| && RdShape(p, m.width, |m.wr|) && RdShape(q, m.width, |m.wr|) && b < m.width
    requires p.transparency == q.transparency && p.collisionX == q.collisionX
    ensures Seen(p, m, n, e0, e1, w, b, cur) == Seen(q, m, n, e0, e1, w, b, cur)
  {
    hide Writes, WriteData;
    if n > 0 { SeenSame(p, q, m, n - 1, e0, e1, w, b, cur); }
  }

  /** The same port up to what it does with the sample. */
  predicate SameSampling(p: MemRd, q: MemRd) {
    && p.transparency == q.transparency && p.collisionX == q.collisionX && p.addr == q.addr && p.wideLog2 == q.wideLog2
    && p.clkEnable && q.clkEnable && |p.data| == |q.data|
  }

  lemma SampleSame(p: MemRd, q: MemRd, m: Ram, envs: seq<Env>, t: nat, i: nat)
    requires RamShape(m) && RdShape(p, m.width, |m.wr|) && RdShape(q, m.width, |m.wr|) && t + 1 < |envs| &&
        SameSampling(p, q)
    ensures Sample(p, m, envs, t, i) == Sample(q, m, envs, t, i)
  {
    hide Seen, Stored;
    SeenSame(p, q, m, |m.wr|, envs[t], envs[t + 1], Word(p, m.width, envs[t], i), BitOf(m.width, i),
        Behind(p, m, envs, t, envs[t], i));
  }

  // ---------------------------------------------------------------- enable over synchronous reset

  /** Enable and synchronous reset of the two ports do the same to any sample. */
  ghost predicate SameSyncEffect(p: MemRd, q: MemRd, e: Env) {
    forall v: State, d: State, h: State ::
      Sampled(p.ceOverSrst, Eval(p.en, e), Eval(p.srst, e), v, d, h) ==
      Sampled(q.ceOverSrst, Eval(q.en, e), Eval(q.srst, e), v, d, h)
  }

  lemma {:induction false} SameSyncReads(p: MemRd, q: MemRd, m: Ram, envs: seq<Env>, t: nat, i: nat)
    requires RamShape(m) && RdShape(p, m.width, |m.wr|) && t < |envs| && i < |p.data| && p.clkEnable
    requires q == p.(ceOverSrst := q.ceOverSrst, en := q.en, srst := q.srst)
    requires forall t: nat :: t + 1 < |envs| ==>
               Edge(p.clk, p.clkPolarity, envs[t], envs[t + 1]) == S0 || SameSyncEffect(p, q, envs[t])
    ensures ReadBit(p, m, envs, t, i) == ReadBit(q, m, envs, t, i)
  {
    hide Eval, Sampled, Sample, Edge;
    if t > 0 {
      SameSyncReads(p, q, m, envs, t - 1, i);
      SampleSame(p, q, m, envs, t - 1, i);
      assert Edge(p.clk, p.clkPolarity, envs[t - 1], envs[t]) == S0 || SameSyncEffect(p, q, envs[t - 1]);
    }
  }

  /** Narrowing the reset by the enable lets the reset win without changing the port, exactly when no undefined enable
      meets an active reset. */
  lemma NarrowedReset(p: MemRd, e: Env)
    requires p.ceOverSrst
    ensures SameSyncEffect(p, p.(ceOverSrst := false, srst := AndGate(p.en, p.srst)), e) <==>
            !Undecided(true, Eval(p.en, e), Eval(p.srst, e))
  {
    hide Eval, Sampled, Undecided;
    ConversionExact(true, Eval(p.en, e), Eval(p.srst, e));
    assert AndS(Eval(p.srst, e), Eval(p.en, e)) == Eval(AndGate(p.en, p.srst), e);
    EffectConverts(p, p.(ceOverSrst := false, srst := AndGate(p.en, p.srst)), e);
  }

  /** Widening the enable by the reset lets the enable win without changing the port, exactly when no undefined reset
      meets an inactive enable. */
  lemma WidenedEnable(p: MemRd, e: Env)
    requires !p.ceOverSrst
    ensures SameSyncEffect(p, p.(ceOverSrst := true, en := OrGate(p.en, p.srst)), e) <==>
            !Undecided(false, Eval(p.en, e), Eval(p.srst, e))
  {
    hide Eval, Sampled, Undecided;
    ConversionExact(false, Eval(p.en, e), Eval(p.srst, e));
    assert OrS(Eval(p.en, e), Eval(p.srst, e)) == Eval(OrGate(p.en, p.srst), e);
    EffectConverts(p, p.(ceOverSrst := true, en := OrGate(p.en, p.srst)), e);
  }

  lemma EffectConverts(p: MemRd, q: MemRd, e: Env)
    requires q.ceOverSrst != p.ceOverSrst
    requires var ce, srst := Eval(p.en, e), Eval(p.srst, e);
             if p.ceOverSrst then Eval(q.en, e) == ce && Eval(q.srst, e) == AndS(srst, ce)
             else Eval(q.en, e) == OrS(ce, srst) && Eval(q.srst, e) == srst
    ensures SameSyncEffect(p, q, e) <==>
            forall v, d, h :: Converts(p.ceOverSrst, Eval(p.en, e), Eval(p.srst, e), v, d, h)
  {
    hide Eval, Sampled;
    forall v: State, d: State, h: State
      ensures Converts(p.ceOverSrst, Eval(p.en, e), Eval(p.srst, e), v, d, h) <==>
              Sampled(p.ceOverSrst, Eval(p.en, e), Eval(p.srst, e), v, d, h) ==
              Sampled(q.ceOverSrst, Eval(q.en, e), Eval(q.srst, e), v, d, h)
    {
    }
  }

  /** With a control tied inactive the order of the two does not matter. */
  lemma TiedControls(p: MemRd, over: bool, e: Env)
    requires p.en == Const(S1) || p.srst == Const(S0)
    ensures SameSyncEffect(p, p.(ceOverSrst := over), e)
  {
    ConstEval(S1, e);
    ConstEval(S0, e);
    hide Eval;
  }

  // ---------------------------------------------------------------- a value multiplexed over the port

  /** What a multiplexer selected by `sel` guarantees about the old port: the fixed value while 0, the new
      port while 1, nothing while the old port is undefined anyway. */
  predicate Covers(sel: State, old': State, value: State, new': State) {
    && (sel == S1 ==> Refines(old', new'))
    && (sel == S0 ==> Refines(old', value))
    && (sel == Sx ==> old' == Sx)
  }

  /** A reset is either kept, and then selects the new port, or dropped, and then selects its value. */
  predicate Handled(level: State, kept: State, sel: State, resetValue: State, value: State) {
    || (level == S0 && kept == S0)
    || (kept == level && sel == S1)
    || (kept == S0 && sel == S0 && Refines(resetValue, value))
  }

  lemma MaskStep(over: bool, edge: State, arst: State, en: State, srst: State, av: State, sv: State, data: State,
                 old': State, new': State, sel: State, value: State, arst': State, srst': State,
                 arstSel: State, srstSel: State)
    requires edge != Sx && arst != Sx && (edge == S1 ==> en != Sx && srst != Sx)
    requires Handled(arst, arst', arstSel, av, value) && Handled(srst, srst', srstSel, sv, value) &&
        Covers(sel, old', value, new')
    ensures Covers(Decide(S0, S0, arst, arstSel, S0, S0, edge, Sampled(over, en, srst, srstSel, S1, sel), sel),
                   Decide(S0, S0, arst, av, S0, S0, edge, Sampled(over, en, srst, sv, data, old'), old'), value,
                   Decide(S0, S0, arst', av, S0, S0, edge, Sampled(over, en, srst', sv, data, new'), new'))
  {
  }

  /** One stage: the selecting wire, the value it shows while 0, and what the resets and the start of the
      run load into the selecting register. */
  datatype Mask = Mask(sel: Bit, value: seq<State>, arstSel: State, srstSel: State, initSel: State)

  function Selector(p: MemRd, k: Mask): (f: Ff)
    ensures f.Valid() && f.width == 1 && f.sigQ == [k.sel]
  {
    PortFf(p, true, [k.sel], [Const(S1)], [k.arstSel], [k.srstSel], [k.initSel])
  }

  predicate Delegated(old': Bit, new': Bit, sel: State, resetValue: seq<State>, value: seq<State>) {
    || (old' == Const(S0) && new' == Const(S0))
    || (new' == old' && sel == S1)
    || (new' == Const(S0) && sel == S0 && value == resetValue)
  }

  predicate IsMasked(p: MemRd, q: MemRd, k: Mask) {
    && q == p.(data := q.data, initValue := q.initValue, arst := q.arst, srst := q.srst)
    && |q.data| == |p.data| == |q.initValue| == |p.initValue| == |k.value|
    && Delegated(p.arst, q.arst, k.arstSel, p.arstValue, k.value)
    && Delegated(p.srst, q.srst, k.srstSel, p.srstValue, k.value)
    && forall i :: 0 <= i < |k.value| ==> Covers(k.initSel, p.initValue[i], k.value[i], q.initValue[i])
  }

  lemma DelegatedHandled(old': Bit, new': Bit, sel: State, resetValue: seq<State>, value: seq<State>, e: Env, i: nat)
    requires Delegated(old', new', sel, resetValue, value) && i < |resetValue| && i < |value|
    ensures Handled(Eval(old', e), Eval(new', e), sel, resetValue[i], value[i])
  {
    ConstEval(S0, e);
    hide Eval;
  }

  lemma SelectorStep(p: MemRd, k: Mask, envs: seq<Env>, t: nat)
    requires t + 1 < |envs| && IsRun(Net(Selector(p, k), [], 0), envs)
    ensures Eval(k.sel, envs[t + 1]) ==
            PortNext(p, envs[t], envs[t + 1], k.arstSel, k.srstSel, S1, Eval(k.sel, envs[t]))
    ensures Eval(k.sel, envs[0]) == k.initSel
  {
    assert StepTaken(Selector(p, k), envs, t, 0);
    PortFfNext(p, true, [k.sel], [Const(S1)], [k.arstSel], [k.srstSel], [k.initSel], envs[t], envs[t + 1], 0);
    ConstEval(S1, envs[t]);
    hide Eval, Next, PortNext;
  }

  lemma {:induction false} MaskCovers(p: MemRd, q: MemRd, k: Mask, m: Ram, envs: seq<Env>, t: nat, i: nat)
    requires RamShape(m) && RdShape(p, m.width, |m.wr|) && RdShape(q, m.width, |m.wr|)
    requires p.clkEnable && RdKnown(p, envs)
    requires IsMasked(p, q, k) && IsRun(Net(Selector(p, k), [], 0), envs) && t < |envs| && i < |p.data|
    ensures Covers(Eval(k.sel, envs[t]), ReadBit(p, m, envs, t, i), k.value[i], ReadBit(q, m, envs, t, i))
  {
    hide Eval, Decide, Sampled, Sample, Edge, IsRun, Selector, Covers;
    if t == 0 {
      assert Eval(k.sel, envs[0]) == k.initSel by { SelectorInit(p, k, envs); }
    } else {
      var e0, e1 := envs[t - 1], envs[t];
      MaskCovers(p, q, k, m, envs, t - 1, i);
      SampleSame(p, q, m, envs, t - 1, i);
      SelectorStep(p, k, envs, t - 1);
      assert RdKnownStep(p, e0, e1);
      DelegatedHandled(p.arst, q.arst, k.arstSel, p.arstValue, k.value, e1, i);
      DelegatedHandled(p.srst, q.srst, k.srstSel, p.srstValue, k.value, e0, i);
      MaskStep(p.ceOverSrst, Edge(p.clk, p.clkPolarity, e0, e1), Eval(p.arst, e1), Eval(p.en, e0), Eval(p.srst, e0),
               p.arstValue[i], p.srstValue[i], Sample(p, m, envs, t - 1, i),
               ReadBit(p, m, envs, t - 1, i), ReadBit(q, m, envs, t - 1, i), Eval(k.sel, e0), k.value[i],
               Eval(q.arst, e1), Eval(q.srst, e0), k.arstSel, k.srstSel);
    }
  }

  lemma SelectorInit(p: MemRd, k: Mask, envs: seq<Env>)
    requires IsRun(Net(Selector(p, k), [], 0), envs)
    ensures Eval(k.sel, envs[0]) == k.initSel
  {
    var f := Selector(p, k);
    assert Eval(f.sigQ[0], envs[0]) == f.valInit[0];
    hide Eval, Next;
  }

  /** The cells of a stage: each old data bit shows the value or the new port. */
  predicate MasksData(cells: Cells, p: MemRd, q: MemRd, k: Mask) {
    |p.data| == |q.data| == |k.value| &&
    forall i :: 0 <= i < |p.data| ==> (p.data[i], MuxGate(Const(k.value[i]), q.data[i], k.sel)) in cells
  }

  lemma CellHolds(cells: Cells, envs: seq<Env>, t: nat, y: Bit, x: Bit)
    requires t < |envs| && Consistent(cells, envs[t]) && (y, x) in cells
    ensures Eval(y, envs[t]) == Eval(x, envs[t])
  {
    hide Eval;
    var k :| 0 <= k < |cells| && cells[k] == (y, x);
    assert Eval(cells[k].0, envs[t]) == Eval(cells[k].1, envs[t]);
  }

  /** One stage of reset or initial-value emulation keeps the port. */
  lemma MaskRefines(p: MemRd, q: MemRd, k: Mask, ffs: seq<Ff>, cells: Cells, m: Ram, envs: seq<Env>)
    requires RamShape(m) && RdShape(p, m.width, |m.wr|) && RdShape(q, m.width, |m.wr|)
    requires p.clkEnable && RdKnown(p, envs)
    requires IsMasked(p, q, k) && Selector(p, k) in ffs && MasksData(cells, p, q, k)
    requires SoftRuns(ffs, cells, envs) && PortRuns(q, m, envs)
    ensures PortRuns(p, m, envs)
  {
    hide Eval, ReadBit, IsRun, Selector, RdKnown, Consistent, IsMasked;
    forall t: nat, i: nat | t < |envs| && i < |p.data|
      ensures Refines(ReadBit(p, m, envs, t, i), Eval(p.data[i], envs[t]))
    {
      MaskCovers(p, q, k, m, envs, t, i);
      CellHolds(cells, envs, t, p.data[i], MuxGate(Const(k.value[i]), q.data[i], k.sel));
      ConstEval(k.value[i], envs[t]);
      assert Refines(ReadBit(q, m, envs, t, i), Eval(q.data[i], envs[t]));
    }
  }

  // ---------------------------------------------------------------- the enable as a hold register

  predicate AllX(v: seq<State>) {
    forall i :: 0 <= i < |v| ==> v[i] == Sx
  }

  /** The register that remembers whether the last edge was enabled. */
  function EnableFf(p: MemRd, sel: Bit): (f: Ff)
    ensures f.Valid() && f.width == 1 && f.sigQ == [sel]
  {
    PortFf(p, false, [sel], [p.en], [S0], [S0], [if AllX(p.initValue) then Sx else S0])
  }

  /** The register that remembers the previous output. */
  function HoldFf(p: MemRd, prev: Sig): (f: Ff)
    requires |prev| == |p.data| == |p.arstValue| == |p.srstValue| == |p.initValue|
    ensures f.Valid() && f.width == |p.data| && f.sigQ == prev
  {
    PortFf(p, false, prev, p.data, p.arstValue, p.srstValue, p.initValue)
  }

  /** The port left behind: always enabled, never reset. */
  predicate IsAlwaysOn(p: MemRd, q: MemRd) {
    && q == p.(data := q.data, initValue := q.initValue, arst := Const(S0), srst := Const(S0), en := Const(S1))
    && |q.data| == |p.data| == |q.initValue| == |p.initValue| && !p.ceOverSrst
  }

  lemma HoldStep(edge: State, arst: State, en: State, srst: State, av: State, sv: State, data: State,
                 old': State, new': State, sel: State, prev: State, out: State)
    requires edge != Sx && arst != Sx && (edge == S1 ==> en != Sx && srst != Sx)
    requires Covers(sel, old', prev, new') && Refines(old', out)
    ensures Covers(Decide(S0, S0, arst, S0, S0, S0, edge, Sampled(false, S1, srst, S0, en, sel), sel),
                   Decide(S0, S0, arst, av, S0, S0, edge, Sampled(false, en, srst, sv, data, old'), old'),
                   Decide(S0, S0, arst, av, S0, S0, edge, Sampled(false, S1, srst, sv, out, prev), prev),
                   Decide(S0, S0, S0, av, S0, S0, edge, Sampled(false, S1, S0, sv, data, new'), new'))
  {
  }

  predicate HoldsData(cells: Cells, p: MemRd, q: MemRd, sel: Bit, prev: Sig) {
    |p.data| == |q.data| == |prev| &&
    forall i :: 0 <= i < |p.data| ==> (p.data[i], MuxGate(prev[i], q.data[i], sel)) in cells
  }

  lemma HoldOutput(p: MemRd, q: MemRd, sel: Bit, prev: Sig, cells: Cells, m: Ram, envs: seq<Env>, t: nat, i: nat)
    requires RamShape(m) && RdShape(p, m.width, |m.wr|) && RdShape(q, m.width, |m.wr|) && t < |envs| && i < |p.data|
    requires HoldsData(cells, p, q, sel, prev) && Consistent(cells, envs[t]) && PortRuns(q, m, envs)
    requires Covers(Eval(sel, envs[t]), ReadBit(p, m, envs, t, i), Eval(prev[i], envs[t]), ReadBit(q, m, envs, t, i))
    ensures Refines(ReadBit(p, m, envs, t, i), Eval(p.data[i], envs[t]))
  {
    hide Eval, ReadBit, Consistent;
    CellHolds(cells, envs, t, p.data[i], MuxGate(prev[i], q.data[i], sel));
    assert Refines(ReadBit(q, m, envs, t, i), Eval(q.data[i], envs[t]));
  }

  lemma EnableSteps(p: MemRd, sel: Bit, prev: Sig, envs: seq<Env>, t: nat, i: nat)
    requires |prev| == |p.data| == |p.arstValue| == |p.srstValue| == |p.initValue| && i < |p.data| && t < |envs|
    requires IsRun(Net(EnableFf(p, sel), [], 0), envs) && IsRun(Net(HoldFf(p, prev), [], 0), envs)
    ensures t == 0 ==>
        Eval(sel, envs[t]) == (if AllX(p.initValue) then Sx else S0) && Eval(prev[i], envs[t]) == p.initValue[i]
    ensures var p' := p.(en := Const(S1), ceOverSrst := false); t > 0 ==>
              && Eval(sel, envs[t]) ==
                 PortNext(p', envs[t - 1], envs[t], S0, S0, Eval(p.en, envs[t - 1]), Eval(sel, envs[t - 1]))
              && Eval(prev[i], envs[t]) ==
                 PortNext(p', envs[t - 1], envs[t], p.arstValue[i], p.srstValue[i],
                          Eval(p.data[i], envs[t - 1]), Eval(prev[i], envs[t - 1]))
  {
    hide Eval, Next, PortNext;
    var f, g := EnableFf(p, sel), HoldFf(p, prev);
    if t == 0 {
      assert Eval(f.sigQ[0], envs[0]) == f.valInit[0] && Eval(g.sigQ[i], envs[0]) == g.valInit[i];
    } else {
      assert StepTaken(f, envs, t - 1, 0) && StepTaken(g, envs, t - 1, i);
      PortFfNext(p, false, [sel], [p.en], [S0], [S0], [if AllX(p.initValue) then Sx else S0], envs[t - 1], envs[t], 0);
      PortFfNext(p, false, prev, p.data, p.arstValue, p.srstValue, p.initValue, envs[t - 1], envs[t], i);
    }
  }

  lemma {:induction false} EnableCovers(p: MemRd, q: MemRd, sel: Bit, prev: Sig, cells: Cells, m: Ram, envs: seq<Env>,
      t: nat, i: nat)
    requires RamShape(m) && RdShape(p, m.width, |m.wr|) && RdShape(q, m.width, |m.wr|)
    requires p.clkEnable && RdKnown(p, envs)
    requires IsAlwaysOn(p, q) && HoldsData(cells, p, q, sel, prev) && PortRuns(q, m, envs) && t < |envs| && i < |p.data|
    requires IsRun(Net(EnableFf(p, sel), [], 0), envs) && IsRun(Net(HoldFf(p, prev), [], 0), envs)
    requires forall t :: 0 <= t < |envs| ==> Consistent(cells, envs[t])
    ensures Covers(Eval(sel, envs[t]), ReadBit(p, m, envs, t, i), Eval(prev[i], envs[t]), ReadBit(q, m, envs, t, i))
  {
    hide Eval, Decide, Sampled, Sample, Edge, IsRun, EnableFf, HoldFf, Consistent, PortRuns;
    EnableSteps(p, sel, prev, envs, t, i);
    if t > 0 {
      var e0, e1 := envs[t - 1], envs[t];
      EnableCovers(p, q, sel, prev, cells, m, envs, t - 1, i);
      HoldOutput(p, q, sel, prev, cells, m, envs, t - 1, i);
      SampleSame(p, q, m, envs, t - 1, i);
      assert RdKnownStep(p, e0, e1);
      ConstEval(S1, e0);
      ConstEval(S0, e0);
      ConstEval(S0, e1);
      HoldStep(Edge(p.clk, p.clkPolarity, e0, e1), Eval(p.arst, e1), Eval(p.en, e0), Eval(p.srst, e0),
               p.arstValue[i], p.srstValue[i], Sample(p, m, envs, t - 1, i),
               ReadBit(p, m, envs, t - 1, i), ReadBit(q, m, envs, t - 1, i),
               Eval(sel, e0), Eval(prev[i], e0), Eval(p.data[i], e0));
    }
  }

  /** Emulating the enable keeps the port. */
  lemma EnableRefines(p: MemRd, q: MemRd, sel: Bit, prev: Sig, ffs: seq<Ff>, cells: Cells, m: Ram, envs: seq<Env>)
    requires RamShape(m) && RdShape(p, m.width, |m.wr|) && RdShape(q, m.width, |m.wr|)
    requires p.clkEnable && RdKnown(p, envs)
    requires IsAlwaysOn(p, q) && HoldsData(cells, p, q, sel, prev) && EnableFf(p, sel) in ffs && HoldFf(p, prev) in ffs
    requires SoftRuns(ffs, cells, envs) && PortRuns(q, m, envs)
    ensures PortRuns(p, m, envs)
  {
    hide Eval, ReadBit, IsRun, EnableFf, HoldFf, RdKnown, Consistent;
    forall t: nat, i: nat | t < |envs| && i < |p.data|
      ensures Refines(ReadBit(p, m, envs, t, i), Eval(p.data[i], envs[t]))
    {
      EnableCovers(p, q, sel, prev, cells, m, envs, t, i);
      HoldOutput(p, q, sel, prev, cells, m, envs, t, i);
    }
  }
}
