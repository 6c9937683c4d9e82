/**
 Soft transparency: replacing the bypass of a write port into a read port by registers and multiplexers.

 Every subword a mixed-width pair of ports can share contributes one layer of multiplexers. A layer selects
 the registered write data when the registered comparison says that the write hit the sampled subword.
 */
module MemTransparency {
  import opened Signals
  import opened FlipFlops
  import opened Lanes
  import opened MemPorts
  import opened MemReadControl

  // ---------------------------------------------------------------- the four things an instant can do to a port

  datatype Choice = AsyncReset | SyncReset | Load | Hold

  function Pick(c: Choice, arstValue: State, srstValue: State, data: State, hold: State): State {
    match c
    case AsyncReset => arstValue
    case SyncReset => srstValue
    case Load => data
    case Hold => hold
  }

  function ChoiceOf(p: MemRd, e0: Env, e1: Env): Choice {
    if Eval(p.arst, e1) == S1 then AsyncReset
    else if Edge(p.clk, p.clkPolarity, e0, e1) != S1 then Hold
    else if Eval(p.srst, e0) == S1 && (Eval(p.en, e0) == S1 || !p.ceOverSrst) then SyncReset
    else if Eval(p.en, e0) == S1 then Load
    else Hold
  }

  /** With definite controls every register in the port's domain makes the same choice. */
  lemma PortPicks(p: MemRd, e0: Env, e1: Env, arstValue: State, srstValue: State, data: State, hold: State)
    requires p.clkEnable && RdKnownStep(p, e0, e1)
    ensures PortNext(p, e0, e1, arstValue, srstValue, data, hold) ==
            Pick(ChoiceOf(p, e0, e1), arstValue, srstValue, data, hold)
  {
    hide Eval, Edge;
  }

  // ---------------------------------------------------------------- layers of multiplexers over one bit

  /** Whatever layer is selected holds an allowed value, and so does the port if none is. */
  predicate Bypassed(conds: seq<State>, srcs: seq<State>, old': State, new': State)
    requires |conds| == |srcs|
  {
    && (forall j :: 0 <= j < |conds| ==> (conds[j] == S1 ==> Refines(old', srcs[j])) && (conds[j] == Sx ==> old' == Sx))
    && ((forall j :: 0 <= j < |conds| ==> conds[j] == S0) ==> Refines(old', new'))
  }

  function Layered(conds: seq<State>, srcs: seq<State>, k: nat, base: State): State
    requires |conds| == |srcs| && k <= |conds|
    decreases |conds| - k
  {
    if k == |conds| then base else IteS(conds[k], srcs[k], Layered(conds, srcs, k + 1, base))
  }

  lemma {:induction false} LayeredRefines(conds: seq<State>, srcs: seq<State>, k: nat, base: State, old': State,
      new': State)
    requires |conds| == |srcs| && k <= |conds| && Bypassed(conds, srcs, old', new') && Refines(new', base)
    requires forall j :: 0 <= j < k ==> conds[j] == S0
    ensures Refines(old', Layered(conds, srcs, k, base))
    decreases |conds| - k
  {
    if k < |conds| && conds[k] == S0 { LayeredRefines(conds, srcs, k + 1, base, old', new'); }
  }

  // ---------------------------------------------------------------- what turning transparency off changes

  /** Two of the given write ports that hit the same stored bit are ordered by priority. */
  ghost predicate NoConflict(m: Ram, ks: set<nat>, e0: Env, e1: Env, w: nat, b: nat)
    requires RamShape(m) && b < m.width
  {
    forall j: nat, k: nat ::
      && j in ks && k in ks && j < k < |m.wr|
      && Writes(m.wr[j], m.width, e0, e1, w, b) == S1 && Writes(m.wr[k], m.width, e0, e1, w, b) == S1
      ==> j < |m.wr[k].priority| && m.wr[k].priority[j]
  }

  /** The write ports from `from` on that the read port sees through. */
  function ThroughFrom(p: MemRd, from: nat): set<nat> {
    set k: nat | from <= k < |p.transparency| && p.transparency[k]
  }

  /** No port that still bypasses has priority over `widx`. */
  predicate Settled(p: MemRd, m: Ram, widx: nat)
    requires |p.transparency| == |m.wr|
  {
    forall k: nat ::
        widx < k < |m.wr| && p.transparency[k] && !m.wr[k].removed && widx < |m.wr[k].priority| ==>
        !m.wr[k].priority[widx]
  }

  predicate TransparencyOff(p: MemRd, q: MemRd, widx: nat) {
    && widx < |p.transparency| == |p.collisionX| && p.transparency[widx]
    && q.transparency == p.transparency[widx := false] && q.collisionX == p.collisionX[widx := true]
  }

  lemma RemovedIdle(wp: MemWr, width: nat, e0: Env, e1: Env, w: nat, b: nat)
    requires WrShape(wp, width) && b < width && wp.removed
    ensures Writes(wp, width, e0, e1, w, b) == S0
  {
  }

  lemma {:induction false} SeenBypass(p: MemRd, q: MemRd, m: Ram, widx: nat, n: nat, e0: Env, e1: Env, w: nat, b: nat,
      cur: State)
    requires RamShape(m) && n <= |m.wr| && RdShape(p, m.width, |m.wr|) && RdShape(q, m.width, |m.wr|) && b < m.width
    requires TransparencyOff(p, q, widx) && Settled(p, m, widx) && NoConflict(m, ThroughFrom(p, widx), e0, e1, w, b)
    requires Writes(m.wr[widx], m.width, e0, e1, w, b) != Sx
    ensures n <= widx || Writes(m.wr[widx], m.width, e0, e1, w, b) == S0 ==>
      Seen(p, m, n, e0, e1, w, b, cur) == Seen(q, m, n, e0, e1, w, b, cur)
    ensures n > widx && Writes(m.wr[widx], m.width, e0, e1, w, b) == S1 ==>
              Refines(Seen(p, m, n, e0, e1, w, b, cur), WriteData(m.wr[widx], m.width, e0, w, b))
  {
    hide Writes, WriteData, Seen, AfterWrites, WrShape;
    SeenStart(p, m, e0, e1, w, b, cur);
    SeenStart(q, m, e0, e1, w, b, cur);
    if n > 0 {
      if m.wr[n - 1].removed { RemovedIdle(m.wr[n - 1], m.width, e0, e1, w, b); }
      SeenBypass(p, q, m, widx, n - 1, e0, e1, w, b, cur);
      SeenStep(p, m, n - 1, e0, e1, w, b, cur);
      SeenStep(q, m, n - 1, e0, e1, w, b, cur);
    }
  }

  // ---------------------------------------------------------------- the layers of a pair of ports

  predicate Wide(p: MemRd, wp: MemWr) {
    wp.wideLog2 > p.wideLog2
  }

  function MinLog(p: MemRd, wp: MemWr): nat {
    if Wide(p, wp) then p.wideLog2 else wp.wideLog2
  }

  function MaxLog(p: MemRd, wp: MemWr): nat {
    if Wide(p, wp) then wp.wideLog2 else p.wideLog2
  }

  /** Bit `i` of the read port is handled by the layer of subword `sub`. */
  predicate Covered(p: MemRd, wp: MemWr, width: nat, sub: nat, i: nat)
    requires width > 0
  {
    Wide(p, wp) || Base(SubOf(width, i), wp.wideLog2) == sub
  }

  /** The write data bit that layer bypasses into bit `i`. */
  function WLane(p: MemRd, wp: MemWr, width: nat, sub: nat, i: nat): int {
    if Wide(p, wp) then Span(width, sub) + i else i - Span(width, sub)
  }

  function ReadAddr(p: MemRd, wp: MemWr, sub: nat): Sig
    requires p.wideLog2 <= |p.addr|
  {
    if p.wideLog2 > wp.wideLog2 then SubAddr(p.addr, p.wideLog2, sub) else p.addr
  }

  function WriteAddr(p: MemRd, wp: MemWr, sub: nat): Sig
    requires wp.wideLog2 <= |wp.addr|
  {
    if Wide(p, wp) then SubAddr(wp.addr, wp.wideLog2, sub) else wp.addr
  }

  /** The compared addresses agree exactly when the write hits the word behind bit `i`, and then the layer
      bypasses the right lane. */
  lemma LayerMatch(p: MemRd, wp: MemWr, width: nat, sub: nat, e: Env, i: nat)
    requires width > 0 && WrShape(wp, width) && i < Span(width, Pow2(p.wideLog2))
    requires Aligned(p.addr, p.wideLog2) && Aligned(wp.addr, wp.wideLog2)
    requires Known(EvalSig(p.addr, e)) && Known(EvalSig(wp.addr, e))
    requires sub < Pow2(MaxLog(p, wp)) && Low(sub, MinLog(p, wp)) == 0 && Covered(p, wp, width, sub, i)
    ensures Known(EvalSig(ReadAddr(p, wp, sub), e)) && Known(EvalSig(WriteAddr(p, wp, sub), e))
    ensures var hit := Value(EvalSig(ReadAddr(p, wp, sub), e)) == Value(EvalSig(WriteAddr(p, wp, sub), e));
            && (hit ==> AddrHit(wp.addr, wp.wideLog2, e, Word(p, width, e, i)) == S1)
            && (hit ==> WLane(p, wp, width, sub, i) == Lane(width, wp.wideLog2, Word(p, width, e, i), BitOf(width, i)))
            && (!Wide(p, wp) && !hit ==> AddrHit(wp.addr, wp.wideLog2, e, Word(p, width, e, i)) == S0)
    ensures 0 <= WLane(p, wp, width, sub, i) < |wp.data|
  {
    hide Eval, Low, Flat, SubOf, BitOf;
    var a, v := Value(EvalSig(p.addr, e)), Value(EvalSig(wp.addr, e));
    var s, b := SubOf(width, i), BitOf(width, i);
    AlignedValue(p.addr, p.wideLog2, e);
    AlignedValue(wp.addr, wp.wideLog2, e);
    SubBound(width, Pow2(p.wideLog2), i);
    LaneNumbers(width, MinLog(p, wp), MaxLog(p, wp), sub, i);
    if Wide(p, wp) {
      SubAddrValue(wp.addr, wp.wideLog2, sub, e);
      WideNumbers(a, v, p.wideLog2, wp.wideLog2, sub, s);
    } else {
      NarrowNumbers(a, v, p.wideLog2, wp.wideLog2, sub, s);
      if p.wideLog2 > wp.wideLog2 {
        SubAddrValue(p.addr, p.wideLog2, sub, e);
      } else {
        LowOfSmall(s, wp.wideLog2);
      }
    }
  }

  /** A wide write: reading address `a` finds subword `sub + s` of the write exactly at the matching offset. */
  lemma WideNumbers(a: nat, v: nat, kr: nat, kw: nat, sub: nat, s: nat)
    requires kr < kw && Low(a, kr) == 0 && sub < Pow2(kw) && Low(sub, kr) == 0 && s < Pow2(kr)
    ensures Base(a, kr) == a
    ensures a == Base(v, kw) + sub ==> Base(a + s, kw) == Base(v, kw) && Low(a + s, kw) == sub + s
  {
    hide Low;
    BaseRoom(sub, kr, kw, s);
    LowBase(v, kw, sub + s);
  }

  /** A narrow write: it hits word `a + s` exactly when it addresses the aligned subword of it. */
  lemma NarrowNumbers(a: nat, v: nat, kr: nat, kw: nat, sub: nat, s: nat)
    requires kw <= kr && Low(a, kr) == 0 && Low(v, kw) == 0 && sub == Base(s, kw)
    ensures Base(a, kr) == a && Base(v, kw) == v
    ensures a + sub == v <==> Base(v, kw) == Base(a + s, kw)
    ensures Low(a + s, kw) == Low(s, kw)
  {
    hide Low;
    AlignedAdd(a, kr, s, kw);
  }

  lemma LaneNumbers(width: nat, min: nat, max: nat, sub: nat, i: nat)
    requires width > 0 && min <= max && sub < Pow2(max) && Low(sub, min) == 0
    ensures var s, b := SubOf(width, i), BitOf(width, i);
            && (s < Pow2(min) ==>
               Span(width, sub) + i == Flat(width, sub + s, b) && Span(width, sub) + i < Span(width, Pow2(max)))
            && (Base(s, min) == sub ==>
               i - Span(width, sub) == Flat(width, Low(s, min), b) &&
               0 <= i - Span(width, sub) < Span(width, Pow2(min)))
  {
    hide Low, Flat, SubOf, BitOf;
    var s, b := SubOf(width, i), BitOf(width, i);
    SplitFlat(width, i);
    FlatAdd(width, sub, s, b);
    FlatAdd(width, sub, Low(s, min), b);
    FlatBound(width, Pow2(min), Low(s, min), b);
    if s < Pow2(min) {
      BaseRoom(sub, min, max, s);
      FlatBound(width, Pow2(max), sub + s, b);
    }
  }

  /** A wide write that hits the word is found by the layer at the read address's offset. */
  lemma WideFound(a: nat, v: nat, kr: nat, kw: nat, s: nat)
    requires kr < kw && Low(a, kr) == 0 && s < Pow2(kr) && Base(v, kw) == Base(a + s, kw)
    ensures Low(a, kw) < Pow2(kw) && Low(Low(a, kw), kr) == 0 && a == Base(v, kw) + Low(a, kw)
  {
    hide Low;
    LowLow(a, kr, kw);
    BaseRoom(Low(a, kw), kr, kw, s);
    LowBase(a, kw, Low(a, kw) + s);
  }

  /** The condition a layer registers. */
  function LayerCond(p: MemRd, wp: MemWr, width: nat, sub: nat, i: nat): Bit
    requires p.wideLog2 <= |p.addr| && wp.wideLog2 <= |wp.addr| && 0 <= WLane(p, wp, width, sub, i) < |wp.en|
  {
    CondOf(ReadAddr(p, wp, sub), WriteAddr(p, wp, sub), wp.en[WLane(p, wp, width, sub, i)])
  }

  /** The comparison is left out when the two addresses are the same signal. */
  function CondOf(raddr: Sig, waddr: Sig, en: Bit): Bit {
    if raddr != waddr then AndGate(en, Eq(raddr, waddr)) else en
  }

  lemma CondValue(raddr: Sig, waddr: Sig, en: Bit, e: Env)
    requires Known(EvalSig(raddr, e)) && Known(EvalSig(waddr, e))
    ensures Eval(CondOf(raddr, waddr, en), e) ==
            AndS(Eval(en, e), FromBool(Value(EvalSig(raddr, e)) == Value(EvalSig(waddr, e))))
  {
    EvalEq(raddr, waddr, e);
    hide Eval, EvalSig, Value;
  }

  // ---------------------------------------------------------------- the emitted logic

  /** One pass over the data: the vector it replaced, the vector it left, and the registered conditions. */
  datatype Layer = Layer(sub: nat, before: Sig, after: Sig, conds: Sig)

  function CondFf(p: MemRd, q: Bit, d: Bit): (f: Ff)
    ensures f.Valid() && f.width == 1 && f.sigQ == [q]
  {
    PortFf(p, true, [q], [d], [S0], [S0], [if AllX(p.initValue) then Sx else S0])
  }

  /** The write data register: enabled with the port, neither reset nor initialised. */
  function DataFf(p: MemRd, q: Sig, d: Sig): (f: Ff)
    requires |q| == |d|
    ensures f.Valid() && f.width == |d| && f.sigQ == q
  {
    var x := seq(|d|, _ => Sx);
    PortFf(p.(arst := Const(S0), srst := Const(S0)), true, q, d, x, x, x)
  }

  /** The two ports are in one clock domain and respect the shape `check` demands. */
  predicate Paired(p: MemRd, wp: MemWr, width: nat) {
    && width > 0 && WrShape(wp, width) && |p.data| == Span(width, Pow2(p.wideLog2))
    && Aligned(p.addr, p.wideLog2) && Aligned(wp.addr, wp.wideLog2)
    && p.clkEnable && wp.clkEnable && !wp.removed && wp.clk == p.clk && wp.clkPolarity == p.clkPolarity
  }

  predicate LayerShape(p: MemRd, wp: MemWr, l: Layer) {
    && |l.before| == |p.data| && |l.after| == |p.data| && |l.conds| == |p.data|
    && l.sub < Pow2(MaxLog(p, wp)) && Low(l.sub, MinLog(p, wp)) == 0
  }

  predicate LayerBit(p: MemRd, wp: MemWr, width: nat, wq: Sig, l: Layer, ffs: seq<Ff>, cells: Cells, i: nat)
    requires Paired(p, wp, width) && LayerShape(p, wp, l) && |wq| == |wp.data| && i < |p.data|
  {
    if Covered(p, wp, width, l.sub, i) then
      var j := WLane(p, wp, width, l.sub, i);
      && 0 <= j < |wp.en|
      && (l.before[i], MuxGate(l.after[i], wq[j], l.conds[i])) in cells
      && CondFf(p, l.conds[i], LayerCond(p, wp, width, l.sub, i)) in ffs
    else l.after[i] == l.before[i]
  }

  predicate IsLayer(p: MemRd, wp: MemWr, width: nat, wq: Sig, l: Layer, ffs: seq<Ff>, cells: Cells)
    requires Paired(p, wp, width) && |wq| == |wp.data|
  {
    LayerShape(p, wp, l) && forall i: nat :: i < |p.data| ==> LayerBit(p, wp, width, wq, l, ffs, cells, i)
  }

  /** The layers chain from the old data wires to the new ones and leave out no subword. */
  ghost predicate IsBypass(p: MemRd, q: MemRd, wp: MemWr, widx: nat, width: nat, wq: Sig, ls: seq<Layer>,
      ffs: seq<Ff>, cells: Cells)
  {
    && Paired(p, wp, width) && |wq| == |wp.data| && DataFf(p, wq, wp.data) in ffs
    && TransparencyOff(p, q, widx) && |q.data| == |p.data|
    && q == p.(data := q.data, transparency := q.transparency, collisionX := q.collisionX)
    && |ls| > 0 && ls[0].before == p.data && ls[|ls| - 1].after == q.data
    && (forall k :: 0 <= k < |ls| ==> IsLayer(p, wp, width, wq, ls[k], ffs, cells))
    && (forall k: nat :: k + 1 < |ls| ==> Joined(ls, k))
    && (forall sub: nat :: sub < Pow2(MaxLog(p, wp)) && Low(sub, MinLog(p, wp)) == 0 ==> HasLayer(ls, sub))
  }

  predicate Joined(ls: seq<Layer>, k: nat)
    requires k + 1 < |ls|
  {
    ls[k].after == ls[k + 1].before
  }

  predicate HasLayer(ls: seq<Layer>, sub: nat) {
    exists k :: 0 <= k < |ls| && ls[k].sub == sub
  }

  // ---------------------------------------------------------------- one edge

  /** Levels the layers would register for bit `i` at an instant, and the data they would register. */
  function Hits(p: MemRd, wp: MemWr, width: nat, ls: seq<Layer>, e: Env, i: nat): (h: seq<State>)
    requires Paired(p, wp, width) && i < |p.data| && forall k :: 0 <= k < |ls| ==> LayerShape(p, wp, ls[k])
    ensures |h| == |ls|
  {
    seq(|ls|, k requires 0 <= k < |ls| => HitOf(p, wp, width, ls[k].sub, e, i))
  }

  function HitOf(p: MemRd, wp: MemWr, width: nat, sub: nat, e: Env, i: nat): State
    requires Paired(p, wp, width) && i < |p.data|
  {
    if Covered(p, wp, width, sub, i) &&
        0 <= WLane(p, wp, width, sub, i) < |wp.en| then Eval(LayerCond(p, wp, width, sub, i), e) else S0
  }

  function Sources(p: MemRd, wp: MemWr, width: nat, ls: seq<Layer>, data: Sig, e: Env, i: nat): (h: seq<State>)
    requires width > 0 && |data| == |wp.data|
    ensures |h| == |ls|
  {
    seq(|ls|, k requires 0 <= k < |ls| => SourceOf(p, wp, width, ls[k].sub, data, e, i))
  }

  function SourceOf(p: MemRd, wp: MemWr, width: nat, sub: nat, data: Sig, e: Env, i: nat): State
    requires width > 0
  {
    if Covered(p, wp, width, sub, i) &&
        0 <= WLane(p, wp, width, sub, i) < |data| then Eval(data[WLane(p, wp, width, sub, i)], e) else Sx
  }

  /** A port whose enables are off fires no layer, whatever its address. */
  lemma IdleNoHit(p: MemRd, wp: MemWr, width: nat, sub: nat, e: Env, i: nat)
    requires Paired(p, wp, width) && i < |p.data| && Idle(wp, e)
    ensures HitOf(p, wp, width, sub, e, i) == S0
  {
    hide Eval, Covered, WLane;
  }

  /** A layer that fires has found a write to the sampled bit, and holds its data. */
  lemma HitSound(p: MemRd, wp: MemWr, width: nat, sub: nat, e0: Env, e1: Env, i: nat)
    requires Paired(p, wp, width) && i < |p.data| && sub < Pow2(MaxLog(p, wp)) && Low(sub, MinLog(p, wp)) == 0
    requires Known(EvalSig(p.addr, e0)) && WrReady(wp, e0) && Edge(p.clk, p.clkPolarity, e0, e1) == S1
    ensures var w, b := Word(p, width, e0, i), BitOf(width, i); var h := HitOf(p, wp, width, sub, e0, i);
            && h != Sx
            && (h == S1 ==>
               Writes(wp, width, e0, e1, w, b) == S1 &&
               SourceOf(p, wp, width, sub, wp.data, e0, i) == WriteData(wp, width, e0, w, b))
  {
    hide Eval, Low, Flat, SubOf, BitOf, Edge;
    if Idle(wp, e0) {
      IdleNoHit(p, wp, width, sub, e0, i);
    } else if Covered(p, wp, width, sub, i) {
      LayerMatch(p, wp, width, sub, e0, i);
      var j := WLane(p, wp, width, sub, i);
      CondValue(ReadAddr(p, wp, sub), WriteAddr(p, wp, sub), wp.en[j], e0);
      assert EvalSig(wp.en, e0)[j] != Sx;
    }
  }

  /** A write to the sampled bit makes some layer fire. */
  lemma HitComplete(p: MemRd, wp: MemWr, width: nat, e0: Env, e1: Env, i: nat) returns (sub: nat)
    requires Paired(p, wp, width) && i < |p.data|
    requires Known(EvalSig(p.addr, e0)) && Writes(wp, width, e0, e1, Word(p, width, e0, i), BitOf(width, i)) == S1
    ensures sub < Pow2(MaxLog(p, wp)) && Low(sub, MinLog(p, wp)) == 0 && HitOf(p, wp, width, sub, e0, i) == S1
  {
    hide Eval, Low, Flat, SubOf, BitOf, Edge, Value, Pow2, SubAddr;
    var a, v, s := Value(EvalSig(p.addr, e0)), Value(EvalSig(wp.addr, e0)), SubOf(width, i);
    AlignedValue(p.addr, p.wideLog2, e0);
    SubBound(width, Pow2(p.wideLog2), i);
    if Wide(p, wp) {
      sub := Low(a, wp.wideLog2);
      WideFound(a, v, p.wideLog2, wp.wideLog2, s);
      SubAddrValue(wp.addr, wp.wideLog2, sub, e0);
    } else {
      sub := Base(s, wp.wideLog2);
      LowOfBase(s, wp.wideLog2, wp.wideLog2);
    }
    LayerMatch(p, wp, width, sub, e0, i);
    CondValue(ReadAddr(p, wp, sub), WriteAddr(p, wp, sub), wp.en[WLane(p, wp, width, sub, i)], e0);
  }

  /** No two writes of the given ports hit the same stored bit unless one has priority over the other. */
  ghost predicate NoConflicts(m: Ram, ks: set<nat>, envs: seq<Env>)
    requires RamShape(m)
  {
    forall t: nat, w: nat, b: nat :: t < |envs| - 1 && b < m.width ==> NoConflictAt(m, ks, envs, t, w, b)
  }

  ghost predicate NoConflictAt(m: Ram, ks: set<nat>, envs: seq<Env>, t: nat, w: nat, b: nat)
    requires RamShape(m) && b < m.width && t < |envs| - 1
  {
    NoConflict(m, ks, envs[t], envs[t + 1], w, b)
  }

  lemma WritesKnown(wp: MemWr, width: nat, e0: Env, e1: Env, w: nat, b: nat)
    requires WrShape(wp, width) && b < width && WrKnownStep(wp, e0, e1)
    ensures Writes(wp, width, e0, e1, w, b) != Sx
  {
    hide Eval, Edge, Lane;
    if !wp.removed && Strobe(wp, e0, e1) == S1 { assert EvalSig(wp.en, e0)[Lane(width, wp.wideLog2, w, b)] != Sx; }
  }

  /** At an edge of the read port the paired write port is ready. */
  lemma PairedReady(p: MemRd, wp: MemWr, m: Ram, envs: seq<Env>, t: nat, k: nat)
    requires WrKnown(m, {k}, envs) && t + 1 < |envs| && k < |m.wr| && wp == m.wr[k] && Paired(p, wp, m.width)
    requires Edge(p.clk, p.clkPolarity, envs[t], envs[t + 1]) == S1
    ensures WrReady(wp, envs[t])
  {
    hide Edge, WrReady;
    assert WrKnownStep(m.wr[k], envs[t], envs[t + 1]);
  }

  /** Everything a run needs for one write port to be bypassed softly into one read port. */
  ghost predicate BypassRun(p: MemRd, q: MemRd, m: Ram, widx: nat, wq: Sig, ls: seq<Layer>, ffs: seq<Ff>,
      cells: Cells, envs: seq<Env>)
  {
    && RamShape(m) && RdShape(p, m.width, |m.wr|) && RdShape(q, m.width, |m.wr|) && widx < |m.wr|
    && IsBypass(p, q, m.wr[widx], widx, m.width, wq, ls, ffs, cells) && Settled(p, m, widx)
    && RdKnown(p, envs) && WrKnown(m, {widx}, envs) && NoConflicts(m, ThroughFrom(p, widx), envs)
    && SoftRuns(ffs, cells, envs)
  }

  lemma LayersShaped(p: MemRd, q: MemRd, m: Ram, widx: nat, wq: Sig, ls: seq<Layer>, ffs: seq<Ff>, cells: Cells,
      envs: seq<Env>)
    requires BypassRun(p, q, m, widx, wq, ls, ffs, cells, envs)
    ensures Paired(p, m.wr[widx], m.width) && |wq| == |m.wr[widx].data|
    ensures forall k :: 0 <= k < |ls| ==> LayerShape(p, m.wr[widx], ls[k])
  {
    hide RdKnown, WrKnown, Settled, NoConflicts, SoftRuns, LayerBit, Paired, LayerShape;
    forall k | 0 <= k < |ls| ensures LayerShape(p, m.wr[widx], ls[k]) {
      assert IsLayer(p, m.wr[widx], m.width, wq, ls[k], ffs, cells);
    }
  }

  /** At a sampling edge the layers register exactly what makes up for the dropped transparency. */
  lemma SampleBypassed(p: MemRd, q: MemRd, m: Ram, widx: nat, wq: Sig, ls: seq<Layer>, ffs: seq<Ff>, cells: Cells,
      envs: seq<Env>, t: nat, i: nat)
    requires BypassRun(p, q, m, widx, wq, ls, ffs, cells, envs) && t + 1 < |envs| && i < |p.data|
    requires Edge(p.clk, p.clkPolarity, envs[t], envs[t + 1]) == S1
    requires Paired(p, m.wr[widx], m.width) && forall k :: 0 <= k < |ls| ==> LayerShape(p, m.wr[widx], ls[k])
    ensures Bypassed(Hits(p, m.wr[widx], m.width, ls, envs[t], i),
                     Sources(p, m.wr[widx], m.width, ls, m.wr[widx].data, envs[t], i),
                     Sample(p, m, envs, t, i), Sample(q, m, envs, t, i))
  {
    hide Eval, Seen, Writes, WriteData, HitOf, SourceOf, LayerBit, Paired, SoftRuns, Stored, Low, SubOf, BitOf, Flat,
         Edge, WrReady;
    LayersShaped(p, q, m, widx, wq, ls, ffs, cells, envs);
    var e0, e1, wp := envs[t], envs[t + 1], m.wr[widx];
    if !InRange(p, m, e0, i) { return; }
    assert WrReady(wp, e0) by { PairedReady(p, wp, m, envs, t, widx); }
    var w, b, cur := Word(p, m.width, e0, i), BitOf(m.width, i), Behind(p, m, envs, t, e0, i);
    assert NoConflictAt(m, ThroughFrom(p, widx), envs, t, w, b);
    assert WrKnownStep(m.wr[widx], e0, e1);
    WritesKnown(wp, m.width, e0, e1, w, b);
    SeenBypass(p, q, m, widx, |m.wr|, e0, e1, w, b, cur);
    forall k | 0 <= k < |ls|
      ensures HitOf(p, wp, m.width, ls[k].sub, e0, i) != Sx
      ensures HitOf(p, wp, m.width, ls[k].sub, e0, i) == S1 ==>
          Refines(Sample(p, m, envs, t, i), SourceOf(p, wp, m.width, ls[k].sub, wp.data, e0, i))
    {
      HitSound(p, wp, m.width, ls[k].sub, e0, e1, i);
    }
    if Writes(wp, m.width, e0, e1, w, b) == S1 {
      var sub := HitComplete(p, wp, m.width, e0, e1, i);
      assert HasLayer(ls, sub);
      var k :| 0 <= k < |ls| && ls[k].sub == sub;
      assert Hits(p, wp, m.width, ls, e0, i)[k] == S1;
    }
  }

  /** Registering the layers in the port's clock domain keeps them right through every choice. */
  lemma LayersStep(c: Choice, conds: seq<State>, srcs: seq<State>, hits: seq<State>, data: seq<State>,
      conds': seq<State>, srcs': seq<State>, old': State, new': State, sampleOld: State, sampleNew: State,
      av: State, sv: State)
    requires |conds| == |srcs| == |hits| == |data| == |conds'| == |srcs'|
    requires Bypassed(conds, srcs, old', new') && (c == Load ==> Bypassed(hits, data, sampleOld, sampleNew))
    requires forall k :: 0 <= k < |conds| ==> conds'[k] == Pick(c, S0, S0, hits[k], conds[k])
    requires forall k :: 0 <= k < |conds| ==> (c == Load ==> srcs'[k] == data[k]) && (c == Hold ==> srcs'[k] == srcs[k])
    ensures Bypassed(conds', srcs', Pick(c, av, sv, sampleOld, old'), Pick(c, av, sv, sampleNew, new'))
  {
    assert c == Load ==> conds' == hits && srcs' == data;
    assert c == Hold ==> conds' == conds && srcs' == srcs;
  }

  /** Levels of the registered conditions and data behind bit `i`. */
  function Registered(p: MemRd, wp: MemWr, width: nat, ls: seq<Layer>, e: Env, i: nat): (h: seq<State>)
    requires width > 0 && i < |p.data| && forall k :: 0 <= k < |ls| ==> LayerShape(p, wp, ls[k])
    ensures |h| == |ls|
  {
    seq(|ls|, k requires 0 <= k < |ls| => CondLevel(p, wp, width, ls[k], e, i))
  }

  function CondLevel(p: MemRd, wp: MemWr, width: nat, l: Layer, e: Env, i: nat): State
    requires width > 0
  {
    if Covered(p, wp, width, l.sub, i) && i < |l.conds| then Eval(l.conds[i], e) else S0
  }

  lemma CondFfStep(p: MemRd, q: Bit, d: Bit, envs: seq<Env>, t: nat)
    requires t < |envs| && IsRun(Net(CondFf(p, q, d), [], 0), envs) && p.clkEnable && RdKnown(p, envs)
    ensures t == 0 ==> Eval(q, envs[t]) == if AllX(p.initValue) then Sx else S0
    ensures t > 0 ==>
        Eval(q, envs[t]) == Pick(ChoiceOf(p, envs[t - 1], envs[t]), S0, S0, Eval(d, envs[t - 1]), Eval(q, envs[t - 1]))
  {
    hide Eval, Next, ChoiceOf, PortNext, RdKnownStep;
    var f := CondFf(p, q, d);
    if t == 0 {
      assert Eval(f.sigQ[0], envs[0]) == f.valInit[0];
    } else {
      assert StepTaken(f, envs, t - 1, 0);
      PortFfNext(p, true, [q], [d], [S0], [S0], [if AllX(p.initValue) then Sx else S0], envs[t - 1], envs[t], 0);
      PortPicks(p, envs[t - 1], envs[t], S0, S0, Eval(d, envs[t - 1]), Eval(q, envs[t - 1]));
    }
  }

  lemma DataFfStep(p: MemRd, q: Sig, d: Sig, envs: seq<Env>, t: nat, j: nat)
    requires 0 < t < |envs| && |q| == |d| && j < |d| && IsRun(Net(DataFf(p, q, d), [], 0), envs)
    requires p.clkEnable && RdKnown(p, envs)
    ensures ChoiceOf(p, envs[t - 1], envs[t]) == Load ==> Eval(q[j], envs[t]) == Eval(d[j], envs[t - 1])
    ensures ChoiceOf(p, envs[t - 1], envs[t]) == Hold ==> Eval(q[j], envs[t]) == Eval(q[j], envs[t - 1])
  {
    hide Eval, Next, PortNext, Edge;
    var f, x, e0, e1, p' := DataFf(p, q, d), seq(|d|, _ => Sx), envs[t - 1], envs[t],
        p.(arst := Const(S0), srst := Const(S0));
    assert RdKnownStep(p, e0, e1);
    assert StepTaken(f, envs, t - 1, j);
    PortFfNext(p', true, q, d, x, x, x, e0, e1, j);
    ConstEval(S0, e0);
    ConstEval(S0, e1);
    PortPicks(p', e0, e1, Sx, Sx, Eval(d[j], e0), Eval(q[j], e0));
  }

  lemma SoftFf(ffs: seq<Ff>, cells: Cells, envs: seq<Env>, f: Ff)
    requires SoftRuns(ffs, cells, envs) && f in ffs
    ensures f.Valid() && IsRun(Net(f, [], 0), envs)
  {
    hide IsRun, Consistent, Ff.Valid;
  }

  predicate LayerFollows(p: MemRd, wp: MemWr, width: nat, wq: Sig, l: Layer, envs: seq<Env>, t: nat, i: nat)
    requires Paired(p, wp, width) && |wq| == |wp.data| && t < |envs| && i < |p.data|
  {
    if t == 0 then
      var cond := CondLevel(p, wp, width, l, envs[0], i);
      cond == S0 || (AllX(p.initValue) && cond == Sx)
    else
      var e0, e1, c := envs[t - 1], envs[t], ChoiceOf(p, envs[t - 1], envs[t]);
      && CondLevel(p, wp, width, l, e1, i) ==
         Pick(c, S0, S0, HitOf(p, wp, width, l.sub, e0, i), CondLevel(p, wp, width, l, e0, i))
      && (c == Load ==> SourceOf(p, wp, width, l.sub, wq, e1, i) == SourceOf(p, wp, width, l.sub, wp.data, e0, i))
      && (c == Hold ==> SourceOf(p, wp, width, l.sub, wq, e1, i) == SourceOf(p, wp, width, l.sub, wq, e0, i))
  }

  /** The registers of one layer follow the port's choice. */
  lemma LayerRegisters(p: MemRd, q: MemRd, m: Ram, widx: nat, wq: Sig, ls: seq<Layer>, ffs: seq<Ff>, cells: Cells,
      envs: seq<Env>, t: nat, i: nat, k: nat)
    requires BypassRun(p, q, m, widx, wq, ls, ffs, cells, envs) && t < |envs| && i < |p.data| && k < |ls|
    requires Paired(p, m.wr[widx], m.width) && |wq| == |m.wr[widx].data| &&
        forall k :: 0 <= k < |ls| ==> LayerShape(p, m.wr[widx], ls[k])
    ensures LayerFollows(p, m.wr[widx], m.width, wq, ls[k], envs, t, i)
  {
    hide Eval, IsRun, CondFf, DataFf, ChoiceOf, LayerCond, RdKnown, WrKnown, NoConflicts, Settled, SoftRuns, Low,
        SubOf, Flat;
    var wp, l := m.wr[widx], ls[k];
    assert IsLayer(p, wp, m.width, wq, l, ffs, cells);
    assert LayerBit(p, wp, m.width, wq, l, ffs, cells, i);
    if Covered(p, wp, m.width, l.sub, i) {
      var j := WLane(p, wp, m.width, l.sub, i);
      SoftFf(ffs, cells, envs, CondFf(p, l.conds[i], LayerCond(p, wp, m.width, l.sub, i)));
      CondFfStep(p, l.conds[i], LayerCond(p, wp, m.width, l.sub, i), envs, t);
      SoftFf(ffs, cells, envs, DataFf(p, wq, wp.data));
      if t > 0 { DataFfStep(p, wq, wp.data, envs, t, j); }
    }
  }

  /** The registers behind the two ports are controlled alike. */
  predicate SameRegister(p: MemRd, q: MemRd) {
    && p.clkEnable && q.clkEnable && p.clk == q.clk && p.clkPolarity == q.clkPolarity
    && p.en == q.en && p.arst == q.arst && p.srst == q.srst && p.ceOverSrst == q.ceOverSrst
    && p.arstValue == q.arstValue && p.srstValue == q.srstValue && p.initValue == q.initValue
  }

  lemma BypassPorts(p: MemRd, q: MemRd, m: Ram, widx: nat, wq: Sig, ls: seq<Layer>, ffs: seq<Ff>, cells: Cells,
      envs: seq<Env>)
    requires BypassRun(p, q, m, widx, wq, ls, ffs, cells, envs)
    ensures SameRegister(p, q) && |p.data| == |q.data|
  {
    hide IsLayer, HasLayer, RdKnown, WrKnown, NoConflicts, Settled, SoftRuns;
  }

  lemma StartBypassed(conds: seq<State>, srcs: seq<State>, init: seq<State>, i: nat)
    requires |conds| == |srcs| && i < |init|
    requires forall k :: 0 <= k < |conds| ==> conds[k] == S0 || (AllX(init) && conds[k] == Sx)
    ensures Bypassed(conds, srcs, init[i], init[i])
  {
  }

  lemma {:induction false} BypassCovers(p: MemRd, q: MemRd, m: Ram, widx: nat, wq: Sig, ls: seq<Layer>, ffs: seq<Ff>,
      cells: Cells, envs: seq<Env>, t: nat, i: nat)
    requires BypassRun(p, q, m, widx, wq, ls, ffs, cells, envs) && t < |envs| && i < |p.data|
    requires Paired(p, m.wr[widx], m.width) && |wq| == |m.wr[widx].data| &&
        forall k :: 0 <= k < |ls| ==> LayerShape(p, m.wr[widx], ls[k])
    ensures Bypassed(Registered(p, m.wr[widx], m.width, ls, envs[t], i),
                     Sources(p, m.wr[widx], m.width, ls, wq, envs[t], i),
                     ReadBit(p, m, envs, t, i), ReadBit(q, m, envs, t, i))
    decreases t
  {
    hide Eval, IsBypass, Sample, Decide, Sampled, Edge, RdKnownStep, WrKnown, NoConflicts, Settled, SoftRuns, HitOf,
        SourceOf, CondLevel, Paired, LayerShape, Bypassed;
    var wp := m.wr[widx];
    var conds, srcs := Registered(p, wp, m.width, ls, envs[t], i), Sources(p, wp, m.width, ls, wq, envs[t], i);
    forall k | 0 <= k < |ls| ensures LayerFollows(p, wp, m.width, wq, ls[k], envs, t, i) {
      LayerRegisters(p, q, m, widx, wq, ls, ffs, cells, envs, t, i, k);
    }
    BypassPorts(p, q, m, widx, wq, ls, ffs, cells, envs);
    if t == 0 {
      StartBypassed(conds, srcs, p.initValue, i);
    } else {
      var e0, e1 := envs[t - 1], envs[t];
      var c, hits, data := ChoiceOf(p, e0, e1), Hits(p, wp, m.width, ls, e0, i),
          Sources(p, wp, m.width, ls, wp.data, e0, i);
      var sampleOld, sampleNew := Sample(p, m, envs, t - 1, i), Sample(q, m, envs, t - 1, i);
      BypassCovers(p, q, m, widx, wq, ls, ffs, cells, envs, t - 1, i);
      if c == Load {
        SampleBypassed(p, q, m, widx, wq, ls, ffs, cells, envs, t - 1, i);
      }
      PortPicks(p, e0, e1, p.arstValue[i], p.srstValue[i], sampleOld, ReadBit(p, m, envs, t - 1, i));
      PortPicks(p, e0, e1, p.arstValue[i], p.srstValue[i], sampleNew, ReadBit(q, m, envs, t - 1, i));
      LayersStep(c, Registered(p, wp, m.width, ls, e0, i), Sources(p, wp, m.width, ls, wq, e0, i), hits, data,
                 conds, srcs, ReadBit(p, m, envs, t - 1, i), ReadBit(q, m, envs, t - 1, i), sampleOld, sampleNew,
                 p.arstValue[i], p.srstValue[i]);
    }
  }

  /** The old data wire shows the layers over the new one. */
  lemma {:induction false} LayersShown(p: MemRd, q: MemRd, m: Ram, widx: nat, wq: Sig, ls: seq<Layer>, ffs: seq<Ff>,
      cells: Cells, envs: seq<Env>, t: nat, i: nat, k: nat)
    requires BypassRun(p, q, m, widx, wq, ls, ffs, cells, envs) && t < |envs| && i < |p.data| && k <= |ls|
    requires Paired(p, m.wr[widx], m.width) && |wq| == |m.wr[widx].data| &&
        forall k :: 0 <= k < |ls| ==> LayerShape(p, m.wr[widx], ls[k])
    ensures k < |ls| ==>
              Eval(ls[k].before[i], envs[t]) ==
              Layered(Registered(p, m.wr[widx], m.width, ls, envs[t], i),
                  Sources(p, m.wr[widx], m.width, ls, wq, envs[t], i), k, Eval(q.data[i], envs[t]))
    decreases |ls| - k
  {
    hide Eval, Consistent, IsRun, RdKnown, WrKnown, NoConflicts, Settled, CondFf, DataFf, Low, SubOf, Flat, Ff.Valid;
    if k < |ls| {
      var wp, l := m.wr[widx], ls[k];
      LayersShown(p, q, m, widx, wq, ls, ffs, cells, envs, t, i, k + 1);
      assert IsLayer(p, wp, m.width, wq, l, ffs, cells);
      assert LayerBit(p, wp, m.width, wq, l, ffs, cells, i);
      if k + 1 < |ls| { assert Joined(ls, k); }
      if Covered(p, wp, m.width, l.sub, i) {
        CellHolds(cells, envs, t, l.before[i], MuxGate(l.after[i], wq[WLane(p, wp, m.width, l.sub, i)], l.conds[i]));
      }
    }
  }

  /** Soft transparency of one write port keeps the read port. */
  lemma BypassRefines(p: MemRd, q: MemRd, m: Ram, widx: nat, wq: Sig, ls: seq<Layer>, ffs: seq<Ff>, cells: Cells,
      envs: seq<Env>)
    requires BypassRun(p, q, m, widx, wq, ls, ffs, cells, envs) && PortRuns(q, m, envs)
    ensures PortRuns(p, m, envs)
  {
    hide Eval, ReadBit, BypassRun, Bypassed, Registered, Sources, Layered, Paired, LayerShape;
    LayersShaped(p, q, m, widx, wq, ls, ffs, cells, envs);
    FirstLayer(p, q, m, widx, wq, ls, ffs, cells, envs);
    forall t: nat, i: nat | t < |envs| && i < |p.data|
      ensures Refines(ReadBit(p, m, envs, t, i), Eval(p.data[i], envs[t]))
    {
      BypassCovers(p, q, m, widx, wq, ls, ffs, cells, envs, t, i);
      LayersShown(p, q, m, widx, wq, ls, ffs, cells, envs, t, i, 0);
      assert Refines(ReadBit(q, m, envs, t, i), Eval(q.data[i], envs[t]));
      LayeredRefines(Registered(p, m.wr[widx], m.width, ls, envs[t], i),
          Sources(p, m.wr[widx], m.width, ls, wq, envs[t], i), 0,
                     Eval(q.data[i], envs[t]), ReadBit(p, m, envs, t, i), ReadBit(q, m, envs, t, i));
    }
  }

  lemma FirstLayer(p: MemRd, q: MemRd, m: Ram, widx: nat, wq: Sig, ls: seq<Layer>, ffs: seq<Ff>, cells: Cells,
      envs: seq<Env>)
    requires BypassRun(p, q, m, widx, wq, ls, ffs, cells, envs)
    ensures |ls| > 0 && ls[0].before == p.data && |q.data| == |p.data|
    ensures RamShape(m) && RdShape(p, m.width, |m.wr|) && RdShape(q, m.width, |m.wr|) && widx < |m.wr|
  {
    hide IsLayer, HasLayer, RdKnown, WrKnown, NoConflicts, Settled, SoftRuns;
  }

  // ---------------------------------------------------------------- building a layer

  /** Offsets at which a layer's range starts in the read and in the write data. */
  function ReadOffset(p: MemRd, wp: MemWr, width: nat, sub: nat): nat {
    if Wide(p, wp) then 0 else Span(width, sub)
  }

  function WriteOffset(p: MemRd, wp: MemWr, width: nat, sub: nat): nat {
    if Wide(p, wp) then Span(width, sub) else 0
  }

  /** A layer covers one range of data bits, and lanes run in step. */
  lemma LayerRange(p: MemRd, wp: MemWr, width: nat, sub: nat)
    requires Paired(p, wp, width) && sub < Pow2(MaxLog(p, wp)) && Low(sub, MinLog(p, wp)) == 0
    ensures var n, r, w := Span(width, Pow2(MinLog(p, wp))), ReadOffset(p, wp, width, sub),
        WriteOffset(p, wp, width, sub);
            && r + n <= |p.data| && w + n <= |wp.data|
            && forall i: nat ::
               i < |p.data| ==>
               (Covered(p, wp, width, sub, i) <==> r <= i < r + n) &&
               (r <= i < r + n ==> WLane(p, wp, width, sub, i) == w + (i - r))
  {
    hide Low, SubOf, Flat, Pow2, Aligned;
    var min, max := MinLog(p, wp), MaxLog(p, wp);
    RangeFits(width, min, max, sub);
    if !Wide(p, wp) {
      forall i: nat | i < |p.data|
        ensures Base(SubOf(width, i), wp.wideLog2) == sub <==>
            Span(width, sub) <= i < Span(width, sub) + Span(width, Pow2(wp.wideLog2))
      {
        SubRange(width, wp.wideLog2, sub, i);
      }
    }
  }

  lemma RangeFits(width: nat, min: nat, max: nat, sub: nat)
    requires min <= max && sub < Pow2(max) && Low(sub, min) == 0
    ensures Span(width, sub) + Span(width, Pow2(min)) <= Span(width, Pow2(max))
  {
    hide Low, Flat;
    BaseRoom(sub, min, max, Pow2(min) - 1);
    FlatAdd(width, sub, Pow2(min), 0);
    SpanMonotone(width, sub + Pow2(min), Pow2(max));
  }

  lemma {:induction false} SpanMonotone(width: nat, a: nat, b: nat)
    requires a <= b
    ensures Span(width, a) <= Span(width, b)
    decreases b
  {
    if a < b { SpanMonotone(width, a, b - 1); }
  }

  /** One bit of a layer as the building loop establishes it: `x` counts from the start of the range. */
  predicate BuiltBit(p: MemRd, wp: MemWr, width: nat, wq: Sig, sub: nat, before: Sig, rdata: Sig, conds: Sig, x: nat,
      ffs: seq<Ff>, cells: Cells)
    requires p.wideLog2 <= |p.addr| && wp.wideLog2 <= |wp.addr|
  {
    var r, j := ReadOffset(p, wp, width, sub) + x, WriteOffset(p, wp, width, sub) + x;
    && r < |before| && x < |rdata| && x < |conds| && j < |wq| && j < |wp.en|
    && (before[r], MuxGate(rdata[x], wq[j], conds[x])) in cells
    && CondFf(p, conds[x], CondOf(ReadAddr(p, wp, sub), WriteAddr(p, wp, sub), wp.en[j])) in ffs
  }

  /** One multiplexer per data bit. */
  function MuxCells(y: Sig, a: Sig, b: Sig, sel: Bit): (c: Cells)
    requires |y| == |a| == |b|
    ensures |c| == |y| && forall i :: 0 <= i < |y| ==> c[i] == (y[i], MuxGate(a[i], b[i], sel))
  {
    seq(|y|, i requires 0 <= i < |y| => (y[i], MuxGate(a[i], b[i], sel)))
  }

  function Repeat(b: Bit, n: nat): (y: Sig)
    ensures |y| == n && forall i :: 0 <= i < n ==> y[i] == b
  {
    seq(n, _ => b)
  }

  predicate BuiltTo(p: MemRd, wp: MemWr, width: nat, wq: Sig, sub: nat, before: Sig, rdata: Sig, conds: Sig, n: nat,
      ffs: seq<Ff>, cells: Cells)
    requires p.wideLog2 <= |p.addr| && wp.wideLog2 <= |wp.addr|
  {
    forall x: nat :: x < n ==> BuiltBit(p, wp, width, wq, sub, before, rdata, conds, x, ffs, cells)
  }

  lemma NothingBuilt(p: MemRd, wp: MemWr, width: nat, wq: Sig, sub: nat, before: Sig, rdata: Sig, ffs: seq<Ff>,
      cells: Cells)
    requires p.wideLog2 <= |p.addr| && wp.wideLog2 <= |wp.addr|
    ensures BuiltTo(p, wp, width, wq, sub, before, rdata, [], 0, ffs, cells)
  {
  }

  /** One more group of bits that share an enable. */
  lemma GroupBuilt(p: MemRd, wp: MemWr, width: nat, wq: Sig, sub: nat, before: Sig, rdata: Sig, conds: Sig, pos: nat,
      epos: nat, condQ: Bit,
                   ffs: seq<Ff>, cells: Cells, ffs': seq<Ff>, cells': Cells)
    requires p.wideLog2 <= |p.addr| && wp.wideLog2 <= |wp.addr| && |conds| == pos < epos <= |rdata|
    requires ReadOffset(p, wp, width, sub) + epos <= |before| &&
        WriteOffset(p, wp, width, sub) + epos <= |wq| == |wp.en|
    requires var w := WriteOffset(p, wp, width, sub); forall y :: w + pos <= y < w + epos ==> wp.en[y] == wp.en[w + pos]
    requires BuiltTo(p, wp, width, wq, sub, before, rdata, conds, pos, ffs, cells)
    requires var en := wp.en[WriteOffset(p, wp, width, sub) + pos];
             ffs' == ffs + [CondFf(p, condQ, CondOf(ReadAddr(p, wp, sub), WriteAddr(p, wp, sub), en))]
    requires var r, w := ReadOffset(p, wp, width, sub), WriteOffset(p, wp, width, sub);
             cells' == cells + MuxCells(before[r + pos..r + epos], rdata[pos..epos], wq[w + pos..w + epos], condQ)
    ensures BuiltTo(p, wp, width, wq, sub, before, rdata, conds + Repeat(condQ, epos - pos), epos, ffs', cells')
  {
    hide Eval, Below, CondFf, CondOf, ReadAddr, WriteAddr, ReadOffset, WriteOffset;
    var r, w := ReadOffset(p, wp, width, sub), WriteOffset(p, wp, width, sub);
    var added, conds' := MuxCells(before[r + pos..r + epos], rdata[pos..epos], wq[w + pos..w + epos], condQ),
        conds + Repeat(condQ, epos - pos);
    hide BuiltBit;
    forall x: nat | x < epos ensures BuiltBit(p, wp, width, wq, sub, before, rdata, conds', x, ffs', cells') {
      if x < pos {
        assert conds'[x] == conds[x];
        BitGrows(p, wp, width, wq, sub, before, rdata, conds, conds', x, ffs, cells, ffs', cells');
      } else {
        assert added[x - pos] == (before[r + x], MuxGate(rdata[x], wq[w + x], condQ));
        assert cells'[|cells| + (x - pos)] == added[x - pos];
        assert wp.en[w + x] == wp.en[w + pos];
        assert ffs'[|ffs|] in ffs';
        BitDone(p, wp, width, wq, sub, before, rdata, conds', x, ffs', cells');
      }
    }
  }

  lemma BitGrows(p: MemRd, wp: MemWr, width: nat, wq: Sig, sub: nat, before: Sig, rdata: Sig, conds: Sig, conds': Sig,
      x: nat, ffs: seq<Ff>, cells: Cells, ffs': seq<Ff>, cells': Cells)
    requires p.wideLog2 <= |p.addr| && wp.wideLog2 <= |wp.addr| &&
        BuiltBit(p, wp, width, wq, sub, before, rdata, conds, x, ffs, cells)
    requires x < |conds'| && (x < |conds| ==> conds'[x] == conds[x]) && ffs <= ffs' && cells <= cells'
    ensures BuiltBit(p, wp, width, wq, sub, before, rdata, conds', x, ffs', cells')
  {
    hide Eval, Below, CondFf, CondOf, ReadAddr, WriteAddr, ReadOffset, WriteOffset;
  }

  lemma BitDone(p: MemRd, wp: MemWr, width: nat, wq: Sig, sub: nat, before: Sig, rdata: Sig, conds: Sig, x: nat,
      ffs: seq<Ff>, cells: Cells)
    requires p.wideLog2 <= |p.addr| && wp.wideLog2 <= |wp.addr| && x < |rdata| && x < |conds|
    requires var r, j := ReadOffset(p, wp, width, sub) + x, WriteOffset(p, wp, width, sub) + x;
             && r < |before| && j < |wq| && j < |wp.en| && (before[r], MuxGate(rdata[x], wq[j], conds[x])) in cells
             && CondFf(p, conds[x], CondOf(ReadAddr(p, wp, sub), WriteAddr(p, wp, sub), wp.en[j])) in ffs
    ensures BuiltBit(p, wp, width, wq, sub, before, rdata, conds, x, ffs, cells)
  {
    hide Eval, Below, CondFf, CondOf, ReadAddr, WriteAddr, ReadOffset, WriteOffset;
  }

  /** The layer made of a finished range. */
  function LayerOf(p: MemRd, wp: MemWr, width: nat, sub: nat, before: Sig, rdata: Sig, conds: Sig): Layer
    requires ReadOffset(p, wp, width, sub) + |rdata| <= |before|
  {
    var r := ReadOffset(p, wp, width, sub);
    Layer(sub, before, before[..r] + rdata + before[r + |rdata|..], before[..r] + conds + before[r + |rdata|..])
  }

  lemma BuiltLayer(p: MemRd, wp: MemWr, width: nat, wq: Sig, sub: nat, before: Sig, rdata: Sig, conds: Sig,
      ffs: seq<Ff>, cells: Cells)
    requires Paired(p, wp, width) && |wq| == |wp.data| && |before| == |p.data| && sub < Pow2(MaxLog(p, wp)) &&
        Low(sub, MinLog(p, wp)) == 0
    requires |rdata| == |conds| == Span(width, Pow2(MinLog(p, wp))) &&
        ReadOffset(p, wp, width, sub) + |rdata| <= |before|
    requires BuiltTo(p, wp, width, wq, sub, before, rdata, conds, |rdata|, ffs, cells)
    ensures IsLayer(p, wp, width, wq, LayerOf(p, wp, width, sub, before, rdata, conds), ffs, cells)
  {
    hide Low, SubOf, Flat, CondFf, CondOf, ReadAddr, WriteAddr, Covered, WLane;
    LayerRange(p, wp, width, sub);
    var l, r := LayerOf(p, wp, width, sub, before, rdata, conds), ReadOffset(p, wp, width, sub);
    forall i: nat | i < |p.data| ensures LayerBit(p, wp, width, wq, l, ffs, cells, i) {
      if r <= i < r + |rdata| {
        var x: nat := i - r;
        assert BuiltBit(p, wp, width, wq, sub, before, rdata, conds, x, ffs, cells);
        assert l.after[i] == rdata[x] && l.conds[i] == conds[x];
      }
    }
  }

  lemma LayerGrows(p: MemRd, wp: MemWr, width: nat, wq: Sig, l: Layer, ffs: seq<Ff>, cells: Cells, ffs': seq<Ff>,
      cells': Cells)
    requires Paired(p, wp, width) && |wq| == |wp.data| && IsLayer(p, wp, width, wq, l, ffs, cells) && ffs <= ffs' &&
        cells <= cells'
    ensures IsLayer(p, wp, width, wq, l, ffs', cells')
  {
    hide Low, SubOf, Flat, CondFf, LayerCond, Paired, Covered, WLane, LayerShape;
    forall i: nat | i < |p.data| ensures LayerBit(p, wp, width, wq, l, ffs', cells', i) {
      assert LayerBit(p, wp, width, wq, l, ffs, cells, i);
    }
  }

  /** A chain of layers so far: from the old data wires to `data`, for every subword below `sub`. */
  ghost predicate LayersTo(p: MemRd, wp: MemWr, width: nat, wq: Sig, ls: seq<Layer>, sub: nat, data: Sig,
      ffs: seq<Ff>, cells: Cells)
    requires Paired(p, wp, width) && |wq| == |wp.data|
  {
    && |data| == |p.data| && Low(sub, MinLog(p, wp)) == 0
    && (if |ls| == 0 then data == p.data else ls[0].before == p.data && ls[|ls| - 1].after == data)
    && (forall k :: 0 <= k < |ls| ==> IsLayer(p, wp, width, wq, ls[k], ffs, cells))
    && (forall k: nat :: k + 1 < |ls| ==> Joined(ls, k))
    && (forall s: nat :: s < sub && Low(s, MinLog(p, wp)) == 0 ==> HasLayer(ls, s))
  }

  lemma NoLayers(p: MemRd, wp: MemWr, width: nat, wq: Sig, ffs: seq<Ff>, cells: Cells)
    requires Paired(p, wp, width) && |wq| == |wp.data|
    ensures LayersTo(p, wp, width, wq, [], 0, p.data, ffs, cells)
  {
    LowOfSmall(0, MinLog(p, wp));
  }

  lemma LayersFacts(p: MemRd, wp: MemWr, width: nat, wq: Sig, ls: seq<Layer>, sub: nat, data: Sig, ffs: seq<Ff>,
      cells: Cells)
    requires Paired(p, wp, width) && |wq| == |wp.data| && LayersTo(p, wp, width, wq, ls, sub, data, ffs, cells)
    ensures |data| == |p.data| && Low(sub, MinLog(p, wp)) == 0
  {
  }

  lemma OneMoreLayer(p: MemRd, wp: MemWr, width: nat, wq: Sig, ls: seq<Layer>, sub: nat, l: Layer, ffs: seq<Ff>,
      cells: Cells, ffs': seq<Ff>, cells': Cells)
    requires Paired(p, wp, width) && |wq| == |wp.data| && LayersTo(p, wp, width, wq, ls, sub, l.before, ffs, cells)
    requires ffs <= ffs' && cells <= cells' && IsLayer(p, wp, width, wq, l, ffs', cells') && l.sub == sub
    ensures LayersTo(p, wp, width, wq, ls + [l], sub + Pow2(MinLog(p, wp)), l.after, ffs', cells')
  {
    hide Low, Pow2, LayerBit, Paired;
    var ls', min := ls + [l], MinLog(p, wp);
    forall k | 0 <= k < |ls'| ensures IsLayer(p, wp, width, wq, ls'[k], ffs', cells') {
      if k < |ls| { LayerGrows(p, wp, width, wq, ls[k], ffs, cells, ffs', cells'); }
    }
    forall k: nat | k + 1 < |ls'| ensures Joined(ls', k) {
      if k + 1 < |ls| { assert Joined(ls, k); }
    }
    forall s: nat | s < sub + Pow2(min) && Low(s, min) == 0 ensures HasLayer(ls', s) {
      if s < sub {
        var k :| 0 <= k < |ls| && ls[k].sub == s;
        assert ls'[k].sub == s;
      } else {
        OnlyMultiple(sub, s, min);
        assert ls'[|ls|].sub == s;
      }
    }
    PowAligned(min, min);
    AlignedAdd(sub, min, Pow2(min), min);
  }
}
