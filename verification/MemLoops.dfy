/** None of the memory rewrites closes a combinational loop. */
module MemLoops {
  import opened Signals
  import opened FlipFlops
  import opened Lanes
  import opened MemPorts
  import opened MemReadControl
  import opened MemTransparency
  import opened MemRdff
  import opened MemWidth
  import opened MemReadFirst
  import opened MemNets
  import opened MemRewiring

  /** Within an instant the register reads nothing but the clock and asynchronous reset of the port. */
  predicate InDomain(f: Ff, p: MemRd) {
    f.Valid() && !f.hasAload && !f.hasSr && (f.hasClk ==> f.sigClk == p.clk) && (f.hasArst ==> f.sigArst == p.arst)
  }

  lemma PortFfDomain(p: MemRd, useCe: bool, q: Sig, d: Sig, valArst: seq<State>, valSrst: seq<State>,
      valInit: seq<State>)
    requires |q| == |d| == |valArst| == |valSrst| == |valInit|
    ensures InDomain(PortFf(p, useCe, q, d, valArst, valSrst, valInit), p)
  {
  }

  /** A constant, the new data wire, a new register or an earlier wire. */
  predicate MayRead(x: Bit, new': Bit, s: set<nat>, low: set<nat>, who: Who) {
    x.Const? || x == new' || (x.Wire? && ((x.id in s && who(x.id).FfQ?) || x.id in low))
  }

  lemma MuxNew(old': Bit, x: Bit, y: Bit, sel: Bit, new': Bit, s: set<nat>, low: set<nat>, who: Who)
    requires new'.Wire? && MayRead(x, new', s, low, who) && MayRead(y, new', s, low, who) &&
        MayRead(sel, new', s, low, who)
    ensures NewCell((old', MuxGate(x, y, sel)), old', new', s, low, who)
  {
  }

  // ---------------------------------------------------------------- masks

  function MaskWho(a: MemView, idx: nat): Who {
    (w: nat) => if w <= a.nextWire then FfQ(|a.ffs|, 0) else PortD(idx, w - a.nextWire - 1)
  }

  ghost predicate IsMaskStep(a: MemView, b: MemView, idx: nat, f: Ff, value: Sig) {
    && idx < |a.rd| == |b.rd| && |a.rd[idx].data| > 0 && |value| == |a.rd[idx].data|
    && (forall i :: 0 <= i < |value| ==> value[i].Const?) && SameControls(a.rd[idx], b.rd[idx])
    && InDomain(f, a.rd[idx]) && f.sigQ == [Wire(a.nextWire)] && b.rd[idx].data == Fresh(a.nextWire + 1, |value|)
    && b == a.(rd := a.rd[idx := b.rd[idx]], ffs := a.ffs + [f], nextWire := a.nextWire + 1 + |value|,
               cells := a.cells + MuxCells(a.rd[idx].data, value, b.rd[idx].data, Wire(a.nextWire)))
  }

  lemma MaskLoopfree(a: MemView, b: MemView, idx: nat, f: Ff, value: Sig)
    requires IsMaskStep(a, b, idx, f, value)
    ensures Loopfree(a) ==> Loopfree(b)
  {
    if Loopfree(a) {
      var s, who, n := FreshSet(a.nextWire, 1 + |value|), MaskWho(a, idx), |value|;
      MaskRewire(a, b, idx, f, value, s);
      hide Loopfree, LoopfreeOver, Rewire, Numbered, IsMaskStep;
      LoopfreeOverNone(a, idx);
      LoopfreeNumbered(a);
      FreshUnused(a, s);
      RewireLoopfree(a, b, idx, 0, n, s, {}, who);
      OverLoopfree(b, idx, {} + (set w | w in s && who(w).FfQ?));
    }
  }

  lemma LoopfreeNumbered(v: MemView)
    requires Loopfree(v)
    ensures Numbered(v)
  {
  }

  lemma OverLoopfree(v: MemView, idx: nat, low: set<nat>)
    requires LoopfreeOver(v, idx, low)
    ensures Loopfree(v)
  {
  }

  lemma MaskRewire(a: MemView, b: MemView, idx: nat, f: Ff, value: Sig, s: set<nat>)
    requires IsMaskStep(a, b, idx, f, value) && s == FreshSet(a.nextWire, 1 + |value|)
    ensures Rewire(a, b, idx, 0, |value|, s, {}, MaskWho(a, idx))
  {
    hide NewCell, FreshSet, MovedBit, DrivenBy, MuxCells, Fresh, InDomain;
    var who := MaskWho(a, idx);
    forall w | w in s ensures w < b.nextWire && DrivenBy(b, w, who(w)) { MaskDriven(a, b, idx, f, value, w); }
    forall j | 0 <= j < |value| ensures MovedBit(a, b, idx, 0, |value|, s, {}, who, j) {
      MaskBit(a, b, idx, f, value, s, j);
    }
    assert NewFf(f, |a.ffs|, a.rd[idx], s, who) by { MaskFf(a, b, idx, f, value, s); }
  }

  lemma MaskFf(a: MemView, b: MemView, idx: nat, f: Ff, value: Sig, s: set<nat>)
    requires IsMaskStep(a, b, idx, f, value) && s == FreshSet(a.nextWire, 1 + |value|)
    ensures NewFf(f, |a.ffs|, a.rd[idx], s, MaskWho(a, idx))
  {
    hide FreshSet, MuxCells, Fresh;
  }

  lemma MaskDriven(a: MemView, b: MemView, idx: nat, f: Ff, value: Sig, w: nat)
    requires IsMaskStep(a, b, idx, f, value) && a.nextWire <= w < a.nextWire + 1 + |value|
    ensures DrivenBy(b, w, MaskWho(a, idx)(w))
  {
    hide MuxCells, Fresh, InDomain, Below;
    if w > a.nextWire { assert b.rd[idx].data[w - a.nextWire - 1] == Wire(w); } else { assert b.ffs[|a.ffs|] == f; }
  }

  lemma MaskBit(a: MemView, b: MemView, idx: nat, f: Ff, value: Sig, s: set<nat>, j: nat)
    requires IsMaskStep(a, b, idx, f, value) && s == FreshSet(a.nextWire, 1 + |value|) && j < |value|
    ensures MovedBit(a, b, idx, 0, |value|, s, {}, MaskWho(a, idx), j)
  {
    hide NewCell, FreshSet, MuxCells, Fresh, InDomain, Below, Eval, MuxGate, SigBelow;
    var x, y := a.rd[idx].data[j], b.rd[idx].data[j];
    assert y == Wire(a.nextWire + 1 + j);
    var muxes := MuxCells(a.rd[idx].data, value, b.rd[idx].data, Wire(a.nextWire));
    assert b.cells[|a.cells| + j] == muxes[j];
    MuxNew(x, value[j], y, Wire(a.nextWire), y, s, {}, MaskWho(a, idx));
  }

  /** A mask on the data of a read port closes no loop. */
  lemma MaskKeepsLoopfree(a: MemView, b: MemView, idx: nat, k: Mask)
    requires idx < |a.rd| == |b.rd| && SameControls(a.rd[idx], b.rd[idx]) && |k.value| == |a.rd[idx].data|
    requires k.sel == Wire(a.nextWire) && b.rd[idx].data == Fresh(a.nextWire + 1, |k.value|)
    requires b == a.(rd := a.rd[idx := b.rd[idx]], ffs := a.ffs + [Selector(a.rd[idx], k)],
                     nextWire := a.nextWire + 1 + |k.value|,
                     cells := a.cells + MuxCells(a.rd[idx].data, Consts(k.value), b.rd[idx].data, k.sel))
    ensures Loopfree(a) ==> Loopfree(b)
  {
    hide Loopfree, Eval, MuxCells, SigBelow;
    PortFfDomain(a.rd[idx], true, [k.sel], [Const(S1)], [k.arstSel], [k.srstSel], [k.initSel]);
    MaskLoopfree(a, b, idx, Selector(a.rd[idx], k), Consts(k.value));
  }

  // ---------------------------------------------------------------- the enable

  function HoldWho(a: MemView, idx: nat, n: nat): Who {
    (w: nat) =>
      if w < a.nextWire + n then PortD(idx, if w >= a.nextWire then w - a.nextWire else 0)
      else if w < a.nextWire + 2 * n then FfQ(|a.ffs| + 1, w - a.nextWire - n)
      else FfQ(|a.ffs|, 0)
  }

  ghost predicate IsHoldStep(a: MemView, b: MemView, idx: nat, f: Ff, g: Ff) {
    && idx < |a.rd| == |b.rd| && |a.rd[idx].data| > 0 && SameControls(a.rd[idx], b.rd[idx])
    && var n := |a.rd[idx].data|;
       && InDomain(f, a.rd[idx]) && f.sigQ == [Wire(a.nextWire + 2 * n)] && InDomain(g, a.rd[idx])
       && g.sigQ == Fresh(a.nextWire + n, n)
       && b.rd[idx].data == Fresh(a.nextWire, n)
       && b == a.(rd := a.rd[idx := b.rd[idx]], ffs := a.ffs + [f, g], nextWire := a.nextWire + 2 * n + 1,
                  cells := a.cells + MuxCells(a.rd[idx].data, g.sigQ, b.rd[idx].data, Wire(a.nextWire + 2 * n)))
  }

  lemma HoldRewire(a: MemView, b: MemView, idx: nat, f: Ff, g: Ff, s: set<nat>)
    requires IsHoldStep(a, b, idx, f, g) && s == FreshSet(a.nextWire, 2 * |a.rd[idx].data| + 1)
    ensures Rewire(a, b, idx, 0, |a.rd[idx].data|, s, {}, HoldWho(a, idx, |a.rd[idx].data|))
  {
    hide NewCell, FreshSet, MovedBit, DrivenBy, MuxCells, Fresh, InDomain, NewFf;
    var n, who := |a.rd[idx].data|, HoldWho(a, idx, |a.rd[idx].data|);
    forall w | w in s ensures w < b.nextWire && DrivenBy(b, w, who(w)) { HoldDriven(a, b, idx, f, g, w); }
    forall j | 0 <= j < n ensures MovedBit(a, b, idx, 0, n, s, {}, who, j) { HoldBit(a, b, idx, f, g, s, j); }
    HoldFfs(a, b, idx, f, g, s);
    assert b.ffs[|a.ffs|] == f && b.ffs[|a.ffs| + 1] == g;
  }

  lemma HoldFfs(a: MemView, b: MemView, idx: nat, f: Ff, g: Ff, s: set<nat>)
    requires IsHoldStep(a, b, idx, f, g) && s == FreshSet(a.nextWire, 2 * |a.rd[idx].data| + 1)
    ensures NewFf(f, |a.ffs|, a.rd[idx], s, HoldWho(a, idx, |a.rd[idx].data|)) &&
        NewFf(g, |a.ffs| + 1, a.rd[idx], s, HoldWho(a, idx, |a.rd[idx].data|))
  {
    hide FreshSet, MuxCells, Fresh, Below;
    assert forall i :: 0 <= i < |g.sigQ| ==> g.sigQ[i] == Wire(a.nextWire + |a.rd[idx].data| + i);
  }

  lemma HoldDriven(a: MemView, b: MemView, idx: nat, f: Ff, g: Ff, w: nat)
    requires IsHoldStep(a, b, idx, f, g) && a.nextWire <= w < a.nextWire + 2 * |a.rd[idx].data| + 1
    ensures DrivenBy(b, w, HoldWho(a, idx, |a.rd[idx].data|)(w))
  {
    hide MuxCells, Fresh, InDomain, Below;
    var n := |a.rd[idx].data|;
    if w < a.nextWire + n {
      assert b.rd[idx].data[w - a.nextWire] == Wire(w);
    } else if w < a.nextWire + 2 * n {
      assert g.sigQ[w - a.nextWire - n] == Wire(w) && b.ffs[|a.ffs| + 1] == g;
    } else {
      assert b.ffs[|a.ffs|] == f;
    }
  }

  lemma HoldBit(a: MemView, b: MemView, idx: nat, f: Ff, g: Ff, s: set<nat>, j: nat)
    requires IsHoldStep(a, b, idx, f, g) && s == FreshSet(a.nextWire, 2 * |a.rd[idx].data| + 1) && j < |a.rd[idx].data|
    ensures MovedBit(a, b, idx, 0, |a.rd[idx].data|, s, {}, HoldWho(a, idx, |a.rd[idx].data|), j)
  {
    hide NewCell, FreshSet, MuxCells, Fresh, InDomain, Below, Eval, MuxGate, SigBelow;
    var n, x, y := |a.rd[idx].data|, a.rd[idx].data[j], b.rd[idx].data[j];
    assert y == Wire(a.nextWire + j) && g.sigQ[j] == Wire(a.nextWire + n + j);
    var muxes := MuxCells(a.rd[idx].data, g.sigQ, b.rd[idx].data, Wire(a.nextWire + 2 * n));
    assert b.cells[|a.cells| + j] == muxes[j];
    MuxNew(x, g.sigQ[j], y, Wire(a.nextWire + 2 * n), y, s, {}, HoldWho(a, idx, n));
  }

  lemma HoldLoopfree(a: MemView, b: MemView, idx: nat, f: Ff, g: Ff)
    requires IsHoldStep(a, b, idx, f, g)
    ensures Loopfree(a) ==> Loopfree(b)
  {
    if Loopfree(a) {
      var n := |a.rd[idx].data|;
      var s, who := FreshSet(a.nextWire, 2 * n + 1), HoldWho(a, idx, n);
      HoldRewire(a, b, idx, f, g, s);
      hide Loopfree, LoopfreeOver, Rewire, Numbered, IsHoldStep;
      LoopfreeOverNone(a, idx);
      LoopfreeNumbered(a);
      FreshUnused(a, s);
      RewireLoopfree(a, b, idx, 0, n, s, {}, who);
      OverLoopfree(b, idx, {} + (set w | w in s && who(w).FfQ?));
    }
  }

  /** Holding the previous output closes no loop. */
  lemma HoldKeepsLoopfree(a: MemView, b: MemView, idx: nat, sel: Bit, prev: Sig)
    requires idx < |a.rd| == |b.rd| && SameControls(a.rd[idx], b.rd[idx])
    requires var p := a.rd[idx]; |p.arstValue| == |p.srstValue| == |p.initValue| == |p.data|
    requires sel == Wire(a.nextWire + 2 * |a.rd[idx].data|) &&
        prev == Fresh(a.nextWire + |a.rd[idx].data|, |a.rd[idx].data|)
    requires var p, n := a.rd[idx], |a.rd[idx].data|;
             && b.rd[idx].data == Fresh(a.nextWire, n)
             && b == a.(rd := a.rd[idx := b.rd[idx]], ffs := a.ffs + [EnableFf(p, sel), HoldFf(p, prev)],
                        nextWire := a.nextWire + 2 * n + 1,
                        cells := a.cells + MuxCells(p.data, prev, b.rd[idx].data, sel))
    ensures Loopfree(a) ==> Loopfree(b)
  {
    hide Loopfree, Eval, MuxCells, SigBelow, Fresh, Below;
    var p := a.rd[idx];
    PortFfDomain(p, false, [sel], [p.en], [S0], [S0], [if AllX(p.initValue) then Sx else S0]);
    PortFfDomain(p, false, prev, p.data, p.arstValue, p.srstValue, p.initValue);
    HoldLoopfree(a, b, idx, EnableFf(p, sel), HoldFf(p, prev));
  }

  // ---------------------------------------------------------------- the read register

  /** A register behind an asynchronous port closes no loop. */
  lemma OutputKeepsLoopfree(a: MemView, b: MemView, idx: nat, d: Sig)
    requires idx < |a.rd| && a.rd[idx].clkEnable
    requires var p := a.rd[idx]; |d| == |p.data| == |p.arstValue| == |p.srstValue| == |p.initValue|
    requires var p, n := a.rd[idx], |a.rd[idx].data|;
             b == a.(rd := a.rd[idx := Asynchronous(p, p.addr, Fresh(a.nextWire, n))],
                     ffs := a.ffs + [OutputFf(p, d)], nextWire := a.nextWire + n)
    ensures Loopfree(a) ==> Loopfree(b)
  {
    hide Loopfree, Fresh, Below;
    var p := a.rd[idx];
    PortFfDomain(p, true, p.data, d, p.arstValue, p.srstValue, p.initValue);
    OutputLoopfree(a, b, idx);
  }

  ghost predicate IsAddressStep(a: MemView, b: MemView, idx: nat, q: Sig, d: Sig) {
    && idx < |a.rd| == |b.rd| && |d| == |q| && q == Fresh(a.nextWire, |q|)
    && b.rd[idx] == Asynchronous(a.rd[idx], b.rd[idx].addr, a.rd[idx].data)
    && (forall i :: 0 <= i < |b.rd[idx].addr| ==> b.rd[idx].addr[i].Const? || b.rd[idx].addr[i] in q)
    && var x := seq(|q|, _ => Sx);
       b == a.(rd := a.rd[idx := b.rd[idx]], nextWire := a.nextWire + |q|,
               ffs := if |q| > 0 then a.ffs + [PortFf(a.rd[idx], true, q, d, x, x, x)] else a.ffs)
  }

  /** A register in front of the address closes no loop. */
  lemma AddressKeepsLoopfree(a: MemView, b: MemView, idx: nat, q: Sig, d: Sig)
    requires IsAddressStep(a, b, idx, q, d) && a.rd[idx].clkEnable && a.rd[idx].arst == Const(S0) &&
        |a.rd[idx].data| > 0
    ensures Loopfree(a) ==> Loopfree(b)
  {
    hide Loopfree, Below, Fresh;
    var x := seq(|q|, _ => Sx);
    PortFfDomain(a.rd[idx], true, q, d, x, x, x);
    AddressLoopfree(a, b, idx);
  }

  // ---------------------------------------------------------------- delayed writes

  function DelayWho(a: MemView, n1: nat, n2: nat): Who {
    (w: nat) =>
      if w < a.nextWire + n1 then FfQ(|a.ffs|, if w >= a.nextWire then w - a.nextWire else 0)
      else if w < a.nextWire + n1 + n2 then FfQ(|a.ffs| + 1, w - a.nextWire - n1)
      else FfQ(|a.ffs| + 2, w - a.nextWire - n1 - n2)
  }

  /** Within an instant the register reads nothing but a clock. */
  predicate Clocked(f: Ff, clk: Bit) {
    f.Valid() && !f.hasAload && !f.hasSr && !f.hasArst && (f.hasClk ==> f.sigClk == clk)
  }

  ghost predicate IsDelayStep(a: MemView, b: MemView, k: nat, f: Ff, g: Ff, h: Ff) {
    && k < |a.wr| == |b.wr| && b.wr[k].clk == a.wr[k].clk && Clocked(f, a.wr[k].clk) && Clocked(g, a.wr[k].clk)
    && Clocked(h, a.wr[k].clk)
    && f.sigQ == Fresh(a.nextWire, |f.sigQ|) && g.sigQ == Fresh(a.nextWire + |f.sigQ|, |g.sigQ|)
    && h.sigQ == Fresh(a.nextWire + |f.sigQ| + |g.sigQ|, |h.sigQ|)
    && b == a.(wr := a.wr[k := b.wr[k]], ffs := a.ffs + [f, g, h],
               nextWire := a.nextWire + |f.sigQ| + |g.sigQ| + |h.sigQ|)
  }

  lemma DelayFfs(a: MemView, b: MemView, k: nat, f: Ff, g: Ff, h: Ff, x: nat)
    requires IsDelayStep(a, b, k, f, g, h) && |a.ffs| <= x < |b.ffs|
    ensures Clocked(b.ffs[x], a.wr[k].clk)
    ensures forall i :: 0 <= i < |b.ffs[x].sigQ| ==>
      var q := b.ffs[x].sigQ[i];
          q.Wire? && a.nextWire <= q.id < b.nextWire && DelayWho(a, |f.sigQ|, |g.sigQ|)(q.id) == FfQ(x, i)
  {
    hide Below, Fresh;
    assert b.ffs[|a.ffs|] == f && b.ffs[|a.ffs| + 1] == g && b.ffs[|a.ffs| + 2] == h;
    if x == |a.ffs| {
      assert forall i :: 0 <= i < |f.sigQ| ==> f.sigQ[i] == Wire(a.nextWire + i);
    } else if x == |a.ffs| + 1 {
      assert forall i :: 0 <= i < |g.sigQ| ==> g.sigQ[i] == Wire(a.nextWire + |f.sigQ| + i);
    } else {
      assert forall i :: 0 <= i < |h.sigQ| ==> h.sigQ[i] == Wire(a.nextWire + |f.sigQ| + |g.sigQ| + i);
    }
  }

  lemma DelayDriven(a: MemView, b: MemView, k: nat, f: Ff, g: Ff, h: Ff, w: nat)
    requires IsDelayStep(a, b, k, f, g, h) && a.nextWire <= w < b.nextWire
    ensures var d := DelayWho(a, |f.sigQ|, |g.sigQ|)(w); d.FfQ? && d.k >= |a.ffs| && DrivenBy(b, w, d)
  {
    hide Below, Fresh, Clocked;
    assert b.ffs[|a.ffs|] == f && b.ffs[|a.ffs| + 1] == g && b.ffs[|a.ffs| + 2] == h;
    var n1, n2 := |f.sigQ|, |g.sigQ|;
    if w < a.nextWire + n1 {
      assert f.sigQ[w - a.nextWire] == Wire(w);
    } else if w < a.nextWire + n1 + n2 {
      assert g.sigQ[w - a.nextWire - n1] == Wire(w);
    } else {
      assert h.sigQ[w - a.nextWire - n1 - n2] == Wire(w);
    }
  }

  /** Registers on the inputs of a write port close no loop. */
  lemma DelayKeepsLoopfree(a: MemView, b: MemView, k: nat, f: Ff, g: Ff, h: Ff)
    requires IsDelayStep(a, b, k, f, g, h)
    ensures Loopfree(a) ==> Loopfree(b)
  {
    hide Below, Fresh, Clocked, DelayWho, DrivenBy, Placed, Backed;
    if Loopfree(a) {
      var clk, who := a.wr[k].clk, DelayWho(a, |f.sigQ|, |g.sigQ|);
      assert Below(clk, a.nextWire) by { LoopfreeNumbered(a); }
      forall x | |a.ffs| <= x < |b.ffs|
        ensures Clocked(b.ffs[x], clk)
        ensures forall i ::
            0 <= i < |b.ffs[x].sigQ| ==>
            var q := b.ffs[x].sigQ[i]; q.Wire? && a.nextWire <= q.id < b.nextWire && who(q.id) == FfQ(x, i)
      {
        DelayFfs(a, b, k, f, g, h, x);
      }
      forall w | a.nextWire <= w < b.nextWire ensures who(w).FfQ? && who(w).k >= |a.ffs| && DrivenBy(b, w, who(w)) {
        DelayDriven(a, b, k, f, g, h, w);
      }
      assert WriterDelayed(a, b, clk) by { ClockedAll(a, b, clk); }
      assert NewWires(a, b, who);
      DelayLoopfree(a, b, clk, who);
    }
  }

  lemma ClockedAll(a: MemView, b: MemView, clk: Bit)
    requires Extends(a, b, |a.rd|) && b.cells == a.cells && a.nextWire <= b.nextWire && Below(clk, a.nextWire)
    requires forall x :: |a.ffs| <= x < |b.ffs| ==> Clocked(b.ffs[x], clk)
    ensures WriterDelayed(a, b, clk)
  {
  }

  lemma WriteFfClocked(wp: MemWr, q: Sig, d: Sig, init: State)
    requires |q| == |d|
    ensures Clocked(WriteFf(wp, q, d, init), wp.clk) && WriteFf(wp, q, d, init).sigQ == q
  {
  }

  // ---------------------------------------------------------------- bypass layers

  /** One layer in the making: bits from `off` on of `before` move, in groups, to the wires from `first` on. `low`
      holds the wires `wq` of the registered write data. */
  datatype Bypass = Bypass(ridx: nat, port: MemRd, before: Sig, off: nat, first: nat, width: nat, wq: Sig, woff: nat,
      low: set<nat>)

  /** The memory as if the port already had these data wires. */
  function At(v: MemView, ridx: nat, data: Sig): MemView
    requires ridx < |v.rd|
  {
    v.(rd := v.rd[ridx := v.rd[ridx].(data := data)])
  }

  predicate Fits(v: MemView, g: Bypass) {
    && g.ridx < |v.rd| && v.rd[g.ridx] == g.port && g.port.clkEnable && |g.before| == |g.port.data| > 0
    && g.off + g.width <= |g.before| && g.woff + g.width <= |g.wq| && g.first + g.width <= v.nextWire
    && (forall i :: 0 <= i < |g.wq| ==> g.wq[i].Wire? && g.wq[i].id in g.low) && forall w :: w in g.low ==> w < g.first
  }

  function Mixed(g: Bypass, pos: nat): (data: Sig)
    requires g.off + g.width <= |g.before| && pos <= g.width
    ensures |data| == |g.before|
    ensures forall j ::
        0 <= j < |data| ==> data[j] == if g.off <= j < g.off + pos then Wire(g.first + j - g.off) else g.before[j]
  {
    g.before[..g.off] + Fresh(g.first, pos) + g.before[g.off + pos..]
  }

  /** The first `pos` bits have moved; the wires for the others are still unused. */
  ghost predicate Ready(v: MemView, g: Bypass, pos: nat) {
    && Fits(v, g) && pos <= g.width && LoopfreeOver(At(v, g.ridx, Mixed(g, pos)), g.ridx, g.low)
    && Unused(At(v, g.ridx, Mixed(g, pos)), FreshSet(g.first + pos, g.width - pos))
  }

  ghost predicate IsGroup(v: MemView, v': MemView, g: Bypass, pos: nat, epos: nat, f: Ff) {
    && pos < epos <= g.width && Fits(v, g) && InDomain(f, g.port) && f.sigQ == [Wire(v.nextWire)]
    && v' == v.(ffs := v.ffs + [f], nextWire := v.nextWire + 1,
                cells := v.cells + MuxCells(g.before[g.off + pos..g.off + epos], Fresh(g.first, g.width)[pos..epos],
                    g.wq[g.woff + pos..g.woff + epos], Wire(v.nextWire)))
  }

  function GroupWho(v: MemView, g: Bypass): Who {
    (w: nat) => if w == v.nextWire then FfQ(|v.ffs|, 0)
        else PortD(g.ridx, if w >= g.first then g.off + w - g.first else 0)
  }

  function GroupWires(v: MemView, g: Bypass, pos: nat, epos: nat): (s: set<nat>)
    requires pos <= epos
    ensures forall w :: w in s <==> g.first + pos <= w < g.first + epos || w == v.nextWire
  {
    FreshSet(g.first + pos, epos - pos) + {v.nextWire}
  }

  lemma GroupBit(v: MemView, v': MemView, g: Bypass, pos: nat, epos: nat, f: Ff, j: nat)
    requires IsGroup(v, v', g, pos, epos, f) && j < |g.before|
    ensures MovedBit(At(v, g.ridx, Mixed(g, pos)), At(v', g.ridx, Mixed(g, epos)), g.ridx, g.off + pos, g.off + epos,
        GroupWires(v, g, pos, epos), g.low, GroupWho(v, g), j)
  {
    hide NewCell, FreshSet, MuxCells, Fresh, InDomain, Below, Eval, MuxGate, SigBelow, Mixed;
    if g.off + pos <= j < g.off + epos {
      var x, y, z := g.before[j], Wire(g.first + j - g.off), g.wq[g.woff + j - g.off];
      var lo := g.off + pos;
      var muxes := MuxCells(g.before[lo..g.off + epos], Fresh(g.first, g.width)[pos..epos],
          g.wq[g.woff + pos..g.woff + epos], Wire(v.nextWire));
      assert v'.cells[|v.cells| + j - lo] == muxes[j - lo] == (x, MuxGate(y, z, Wire(v.nextWire)));
      MuxNew(x, y, z, Wire(v.nextWire), y, GroupWires(v, g, pos, epos), g.low, GroupWho(v, g));
    }
  }

  lemma GroupDriven(v: MemView, v': MemView, g: Bypass, pos: nat, epos: nat, f: Ff, w: nat)
    requires IsGroup(v, v', g, pos, epos, f) && w in GroupWires(v, g, pos, epos)
    ensures w < v'.nextWire && DrivenBy(At(v', g.ridx, Mixed(g, epos)), w, GroupWho(v, g)(w))
  {
    hide FreshSet, MuxCells, Fresh, InDomain, Below, SigBelow, Mixed;
    if w == v.nextWire {
      assert v'.ffs[|v.ffs|] == f;
    } else {
      assert Mixed(g, epos)[g.off + w - g.first] == Wire(w);
    }
  }

  lemma GroupRewire(v: MemView, v': MemView, g: Bypass, pos: nat, epos: nat, f: Ff)
    requires IsGroup(v, v', g, pos, epos, f)
    ensures Rewire(At(v, g.ridx, Mixed(g, pos)), At(v', g.ridx, Mixed(g, epos)), g.ridx, g.off + pos, g.off + epos,
        GroupWires(v, g, pos, epos), g.low, GroupWho(v, g))
  {
    hide NewCell, FreshSet, MovedBit, DrivenBy, MuxCells, Fresh, SigBelow, Mixed, MuxGate, GroupWires, Below;
    var s, who, lo, hi := GroupWires(v, g, pos, epos), GroupWho(v, g), g.off + pos, g.off + epos;
    var a, b := At(v, g.ridx, Mixed(g, pos)), At(v', g.ridx, Mixed(g, epos));
    forall w | w in s ensures w < v'.nextWire && DrivenBy(b, w, who(w)) { GroupDriven(v, v', g, pos, epos, f, w); }
    forall j | 0 <= j < |g.before| ensures MovedBit(a, b, g.ridx, lo, hi, s, g.low, who, j) {
      GroupBit(v, v', g, pos, epos, f, j);
    }
    assert v'.ffs[|v.ffs|] == f;
  }

  /** Wires the rewiring does not mention stay unused. */
  lemma RewireUnused(a: MemView, b: MemView, idx: nat, lo: nat, hi: nat, s: set<nat>, low: set<nat>, who: Who,
      rest: set<nat>)
    requires Numbered(a) && Rewire(a, b, idx, lo, hi, s, low, who) && Unused(a, rest) && rest !! s && rest !! low
    ensures Unused(b, rest)
  {
    hide Avoids, Below, Numbered, Driven;
    forall w | w in rest ensures !Driven(b, w) {
      if Driven(b, w) { RewireDriven(a, b, idx, lo, hi, s, low, who, w); }
    }
    forall k | 0 <= k < |b.ffs| ensures b.ffs[k].Valid() && FfAvoids(b.ffs[k], rest) {
      if k >= |a.ffs| { assert NewFf(b.ffs[k], k, a.rd[idx], s, who); }
    }
    forall k | 0 <= k < |b.cells| ensures Avoids(b.cells[k].1, rest) {
      if k >= |a.cells| { CellUnused(a, b, idx, lo, hi, s, low, who, rest, k - |a.cells| + lo); }
    }
    ConstAvoids(b.rd[idx].arst, rest);
  }

  lemma ConstAvoids(x: Bit, s: set<nat>)
    ensures x.Const? ==> Avoids(x, s)
  {
  }

  lemma CellUnused(a: MemView, b: MemView, idx: nat, lo: nat, hi: nat, s: set<nat>, low: set<nat>, who: Who,
      rest: set<nat>, j: nat)
    requires Rewire(a, b, idx, lo, hi, s, low, who) && rest !! s && rest !! low && lo <= j < hi
    ensures Avoids(b.cells[|a.cells| + j - lo].1, rest)
  {
    hide RankBelow, NewFf, DrivenBy;
    assert MovedBit(a, b, idx, lo, hi, s, low, who, j);
    var new' := b.rd[idx].data[j];
    RankImplies(b.cells[|a.cells| + j - lo].1, Readable(new', s, low, who), 1, Outside(rest), 1);
  }

  lemma OverFewer(v: MemView, idx: nat, low: set<nat>, fewer: set<nat>)
    requires LoopfreeOver(v, idx, low) && fewer <= low
    ensures LoopfreeOver(v, idx, fewer) && Numbered(v)
  {
    hide Placed, Backed, Numbered;
    var owner: Owner, rank: Rank :| Placed(v, owner, rank) && Backed(v, owner) && Under(v, idx, low, rank);
    assert Under(v, idx, fewer, rank);
  }

  lemma RewireOver(a: MemView, b: MemView, idx: nat, lo: nat, hi: nat, s: set<nat>, low: set<nat>, who: Who,
      low': set<nat>)
    requires LoopfreeOver(a, idx, low) && Unused(a, s) && low !! s && Rewire(a, b, idx, lo, hi, s, low, who)
    requires forall w :: w in low' ==> w in low || (w in s && who(w).FfQ?)
    ensures LoopfreeOver(b, idx, low')
  {
    hide LoopfreeOver, Unused, Rewire;
    RewireLoopfree(a, b, idx, lo, hi, s, low, who);
    OverFewer(b, idx, low + (set w | w in s && who(w).FfQ?), low');
  }

  lemma UnusedFewer(v: MemView, s: set<nat>, fewer: set<nat>)
    requires Unused(v, s) && fewer <= s
    ensures Unused(v, fewer)
  {
    hide Avoids, Driven;
    forall x: Bit | Avoids(x, s) ensures Avoids(x, fewer) { AvoidsFewer(x, s, fewer); }
  }

  lemma AvoidsFewer(x: Bit, s: set<nat>, fewer: set<nat>)
    requires Avoids(x, s) && fewer <= s
    ensures Avoids(x, fewer)
  {
    hide RankBelow;
    RankImplies(x, Outside(s), 1, Outside(fewer), 1);
  }

  /** One group of a bypass layer closes no loop. */
  lemma GroupReady(v: MemView, v': MemView, g: Bypass, pos: nat, epos: nat, f: Ff)
    requires IsGroup(v, v', g, pos, epos, f) && Ready(v, g, pos)
    ensures Ready(v', g, epos)
  {
    hide Rewire, LoopfreeOver, Unused, InDomain, FreshSet, GroupWires, Mixed, MuxCells, GroupWho, Numbered, Fresh;
    GroupRewire(v, v', g, pos, epos, f);
    var a, b := At(v, g.ridx, Mixed(g, pos)), At(v', g.ridx, Mixed(g, epos));
    var s, who, rest := GroupWires(v, g, pos, epos), GroupWho(v, g), FreshSet(g.first + epos, g.width - epos);
    OverFewer(a, g.ridx, g.low, g.low);
    UnusedFewer(a, FreshSet(g.first + pos, g.width - pos), rest);
    RewireUnused(a, b, g.ridx, g.off + pos, g.off + epos, s, g.low, who, rest);
    assert Unused(a, s) by { GroupUnused(v, g, pos, epos); }
    RewireOver(a, b, g.ridx, g.off + pos, g.off + epos, s, g.low, who, g.low);
  }

  lemma GroupUnused(v: MemView, g: Bypass, pos: nat, epos: nat)
    requires Ready(v, g, pos) && pos <= epos <= g.width
    ensures Unused(At(v, g.ridx, Mixed(g, pos)), GroupWires(v, g, pos, epos))
  {
    hide LoopfreeOver, Unused, FreshSet, Mixed;
    var a := At(v, g.ridx, Mixed(g, pos));
    OverFewer(a, g.ridx, g.low, g.low);
    FreshUnused(a, {v.nextWire});
    UnusedFewer(a, FreshSet(g.first + pos, g.width - pos), FreshSet(g.first + pos, epos - pos));
    UnusedBoth(a, FreshSet(g.first + pos, epos - pos), {v.nextWire});
  }

  lemma UnusedBoth(v: MemView, s: set<nat>, s': set<nat>)
    requires Unused(v, s) && Unused(v, s')
    ensures Unused(v, s + s')
  {
    hide Avoids, Driven;
    forall x: Bit | Avoids(x, s) && Avoids(x, s') ensures Avoids(x, s + s') { AvoidsBoth(x, s, s'); }
  }

  lemma {:induction false} AvoidsBoth(x: Bit, s: set<nat>, s': set<nat>)
    requires Avoids(x, s) && Avoids(x, s')
    ensures Avoids(x, s + s')
    decreases x
  {
    match x
    case Const(_) =>
    case Wire(_) =>
    case Not(a) => AvoidsBoth(a, s, s');
    case And(a, b) => AvoidsBoth(a, s, s'); AvoidsBoth(b, s, s');
    case Or(a, b) => AvoidsBoth(a, s, s'); AvoidsBoth(b, s, s');
    case Xor(a, b) => AvoidsBoth(a, s, s'); AvoidsBoth(b, s, s');
    case Mux(a, b, c) => AvoidsBoth(a, s, s'); AvoidsBoth(b, s, s'); AvoidsBoth(c, s, s');
    case Eq(l, r) =>
      forall i | 0 <= i < |l| ensures Avoids(l[i], s + s') {
        assert Avoids(l[i], s) && Avoids(l[i], s'); AvoidsBoth(l[i], s, s');
      }
      forall i | 0 <= i < |r| ensures Avoids(r[i], s + s') {
        assert Avoids(r[i], s) && Avoids(r[i], s'); AvoidsBoth(r[i], s, s');
      }
  }

  /** Before, between and after the layers: the write data registers come before all the port's data wires. */
  ghost predicate Stacked(v: MemView, ridx: nat, port: MemRd, data: Sig, wq: Sig, low: set<nat>) {
    && ridx < |v.rd| && v.rd[ridx] == port && port.clkEnable && |data| == |port.data| > 0
    && (forall i :: 0 <= i < |wq| ==> wq[i].Wire? && wq[i].id in low) && (forall w :: w in low ==> w < v.nextWire)
    && LoopfreeOver(At(v, ridx, data), ridx, low)
  }

  lemma Reserve(v: MemView, n: nat, idx: nat, low: set<nat>)
    requires LoopfreeOver(v, idx, low) && idx < |v.rd| && v.rd[idx].clkEnable && |v.rd[idx].data| > 0 &&
        forall w :: w in low ==> w < v.nextWire
    ensures LoopfreeOver(v.(nextWire := v.nextWire + n), idx, low) &&
        Unused(v.(nextWire := v.nextWire + n), FreshSet(v.nextWire, n))
  {
    hide LoopfreeOver, Numbered, FreshSet, Avoids, RankBelow;
    var b, who: Who := v.(nextWire := v.nextWire + n), w => FfQ(0, 0);
    OverFewer(v, idx, low, low);
    FreshUnused(v, {});
    FreshUnused(v, FreshSet(v.nextWire, n));
    UnusedLater(v, b, FreshSet(v.nextWire, n));
    assert forall j :: 0 <= j < |v.rd[idx].data| ==> MovedBit(v, b, idx, 0, 0, {}, low, who, j);
    RewireOver(v, b, idx, 0, 0, {}, low, who, low);
  }

  lemma SameDriven(a: MemView, b: MemView, w: nat)
    requires b == a.(nextWire := b.nextWire) && Driven(b, w)
    ensures Driven(a, w)
  {
    var d :| DrivenBy(b, w, d);
    assert DrivenBy(a, w, d);
  }

  lemma UnusedLater(a: MemView, b: MemView, s: set<nat>)
    requires Unused(a, s) && b == a.(nextWire := b.nextWire)
    ensures Unused(b, s)
  {
    hide Avoids, Driven;
    forall w | w in s ensures !Driven(b, w) {
      if Driven(b, w) { SameDriven(a, b, w); }
    }
  }

  lemma StartLayer(v: MemView, v': MemView, g: Bypass)
    requires Stacked(v, g.ridx, g.port, g.before, g.wq, g.low) && v' == v.(nextWire := v.nextWire + g.width)
    requires g.first == v.nextWire && g.off + g.width <= |g.before| && g.woff + g.width <= |g.wq|
    ensures Ready(v', g, 0)
  {
    hide LoopfreeOver, Unused, FreshSet, Fresh;
    var a := At(v, g.ridx, g.before);
    assert Mixed(g, 0) == g.before;
    Reserve(a, g.width, g.ridx, g.low);
  }

  lemma EndLayer(v: MemView, g: Bypass)
    requires Ready(v, g, g.width)
    ensures Stacked(v, g.ridx, g.port, Mixed(g, g.width), g.wq, g.low)
  {
    hide LoopfreeOver, Unused, FreshSet, Mixed, At;
  }

  function DataWho(a: MemView): Who {
    (w: nat) => FfQ(|a.ffs|, if w >= a.nextWire then w - a.nextWire else 0)
  }

  lemma StartRewire(a: MemView, b: MemView, ridx: nat, f: Ff)
    requires ridx < |a.rd| && a.rd[ridx].clkEnable && |a.rd[ridx].data| > 0
    requires InDomain(f, a.rd[ridx]) && f.sigQ == Fresh(a.nextWire, |f.sigQ|) &&
        b == a.(ffs := a.ffs + [f], nextWire := a.nextWire + |f.sigQ|)
    ensures Rewire(a, b, ridx, 0, 0, FreshSet(a.nextWire, |f.sigQ|), {}, DataWho(a))
  {
    hide FreshSet, Fresh, Below, NewCell;
    assert b.ffs[|a.ffs|] == f && forall i :: 0 <= i < |f.sigQ| ==> f.sigQ[i] == Wire(a.nextWire + i);
  }

  /** The write data registers come before everything the port drives. */
  lemma StartLayers(a: MemView, b: MemView, ridx: nat, f: Ff)
    requires Loopfree(a) && ridx < |a.rd| && a.rd[ridx].clkEnable && |a.rd[ridx].data| > 0
    requires InDomain(f, a.rd[ridx]) && f.sigQ == Fresh(a.nextWire, |f.sigQ|) &&
        b == a.(ffs := a.ffs + [f], nextWire := a.nextWire + |f.sigQ|)
    ensures Stacked(b, ridx, b.rd[ridx], b.rd[ridx].data, f.sigQ, FreshSet(a.nextWire, |f.sigQ|))
  {
    hide Loopfree, LoopfreeOver, Numbered, FreshSet, Fresh, Below, Unused, Rewire;
    var s, who := FreshSet(a.nextWire, |f.sigQ|), DataWho(a);
    LoopfreeNumbered(a);
    LoopfreeOverNone(a, ridx);
    FreshUnused(a, s);
    StartRewire(a, b, ridx, f);
    RewireOver(a, b, ridx, 0, 0, s, {}, who, s);
    assert At(b, ridx, b.rd[ridx].data) == b;
  }

  lemma EndLayers(v: MemView, c: MemView, ridx: nat, port: MemRd, data: Sig, wq: Sig, low: set<nat>)
    requires Stacked(v, ridx, port, data, wq, low) && |c.rd| == |v.rd| && c == v.(rd := v.rd[ridx := c.rd[ridx]])
    requires c.rd[ridx] == port.(data := data, transparency := c.rd[ridx].transparency,
                                 collisionX := c.rd[ridx].collisionX)
    ensures Loopfree(c)
  {
    hide Loopfree, LoopfreeOver;
    OverLoopfree(At(v, ridx, data), ridx, low);
    SameLoopfree(At(v, ridx, data), c);
  }
}
