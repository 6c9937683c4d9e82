/**
 Memory ports: the records of `kernel/mem.h` and what they mean over time.

 The meaning follows the simulation model of the `$mem_v2` cell: on a clock edge a read port samples the
 word it addresses, seeing the simultaneous writes it is transparent to in port order, and a collision with
 a write port it is declared undefined with gives a don't-care; write ports are applied in port order.
 */
module MemPorts {
  import opened Signals
  import opened FlipFlops
  import opened Lanes

  datatype MemRd = MemRd(
    removed: bool, wideLog2: nat, clkEnable: bool, clkPolarity: bool, ceOverSrst: bool,
    arstValue: seq<State>, srstValue: seq<State>, initValue: seq<State>,
    transparency: seq<bool>, collisionX: seq<bool>,
    clk: Bit, en: Bit, arst: Bit, srst: Bit, addr: Sig, data: Sig)

  datatype MemWr = MemWr(
    removed: bool, wideLog2: nat, clkEnable: bool, clkPolarity: bool,
    priority: seq<bool>, clk: Bit, en: Sig, addr: Sig, data: Sig)

  /** Contents before the first instant: state of bit `b` of word `w`. */
  type Contents = (nat, nat) -> State

  /** Geometry and write side of a memory. Reading outside its words gives a don't-care. */
  datatype Ram = Ram(width: nat, start: nat, size: nat, wr: seq<MemWr>, init: Contents)

  predicate WrShape(p: MemWr, width: nat) {
    && |p.en| == Span(width, Pow2(p.wideLog2)) && |p.data| == Span(width, Pow2(p.wideLog2)) && p.wideLog2 <= |p.addr|
  }

  predicate RdShape(p: MemRd, width: nat, writers: nat) {
    var n := Span(width, Pow2(p.wideLog2));
    && |p.data| == n && |p.arstValue| == n && |p.srstValue| == n && |p.initValue| == n && p.wideLog2 <= |p.addr|
    && |p.transparency| == writers && |p.collisionX| == writers
  }

  predicate RamShape(m: Ram) {
    m.width > 0 && forall k :: 0 <= k < |m.wr| ==> WrShape(m.wr[k], m.width)
  }

  // ---------------------------------------------------------------- writing

  /** Whether the address selects word `w`, for a port that accesses `2^k` words at once. */
  function AddrHit(addr: Sig, k: nat, e: Env, w: nat): State {
    var a := EvalSig(addr, e);
    if Known(a) then FromBool(Base(Value(a), k) == Base(w, k)) else Sx
  }

  /** Position of bit `b` of word `w` in the data of such a port. */
  function Lane(width: nat, k: nat, w: nat, b: nat): (i: nat)
    requires b < width
    ensures i < Span(width, Pow2(k))
  {
    FlatBound(width, Pow2(k), Low(w, k), b);
    Flat(width, Low(w, k), b)
  }

  /** Whether a port that is not removed may write between two instants. */
  function Strobe(p: MemWr, e0: Env, e1: Env): State {
    if p.clkEnable then Edge(p.clk, p.clkPolarity, e0, e1) else S1
  }

  /** Whether the port stores into bit `b` of word `w` between two instants. */
  function Writes(p: MemWr, width: nat, e0: Env, e1: Env, w: nat, b: nat): State
    requires WrShape(p, width) && b < width
  {
    if p.removed then S0 else
      AndS(Strobe(p, e0, e1), AndS(AddrHit(p.addr, p.wideLog2, e0, w), Eval(p.en[Lane(width, p.wideLog2, w, b)], e0)))
  }

  function WriteData(p: MemWr, width: nat, e0: Env, w: nat, b: nat): State
    requires WrShape(p, width) && b < width
  {
    Eval(p.data[Lane(width, p.wideLog2, w, b)], e0)
  }

  /** A stored bit after the first `n` ports have been applied in order. */
  function AfterWrites(m: Ram, n: nat, e0: Env, e1: Env, w: nat, b: nat, cur: State): State
    requires RamShape(m) && n <= |m.wr| && b < m.width
  {
    if n == 0 then cur
    else IteS(Writes(m.wr[n - 1], m.width, e0, e1, w, b), WriteData(m.wr[n - 1], m.width, e0, w, b),
              AfterWrites(m, n - 1, e0, e1, w, b, cur))
  }

  /** Bit `b` of word `w` at instant `t`. */
  function Stored(m: Ram, envs: seq<Env>, t: nat, w: nat, b: nat): State
    requires RamShape(m) && t < |envs| && b < m.width
  {
    if t == 0 then m.init(w, b)
    else AfterWrites(m, |m.wr|, envs[t - 1], envs[t], w, b, Stored(m, envs, t - 1, w, b))
  }

  // ---------------------------------------------------------------- reading

  function Word(p: MemRd, width: nat, e: Env, i: nat): nat
    requires width > 0
  {
    Base(Value(EvalSig(p.addr, e)), p.wideLog2) + SubOf(width, i)
  }

  /** The port addresses a word the memory has. */
  predicate InRange(p: MemRd, m: Ram, e: Env, i: nat)
    requires m.width > 0
  {
    Known(EvalSig(p.addr, e)) && m.start <= Word(p, m.width, e, i) < m.start + m.size
  }

  /** What the memory holds behind bit `i` of the port. */
  function Behind(p: MemRd, m: Ram, envs: seq<Env>, t: nat, e: Env, i: nat): State
    requires RamShape(m) && t < |envs|
  {
    if InRange(p, m, e, i) then Stored(m, envs, t, Word(p, m.width, e, i), BitOf(m.width, i)) else Sx
  }

  /** What an edge samples: the stored bit, overlaid by the first `n` write ports as the masks say. */
  function Seen(p: MemRd, m: Ram, n: nat, e0: Env, e1: Env, w: nat, b: nat, cur: State): State
    requires RamShape(m) && n <= |m.wr| && RdShape(p, m.width, |m.wr|) && b < m.width
  {
    if n == 0 then cur else
      Shown(p.transparency[n - 1], p.collisionX[n - 1], Writes(m.wr[n - 1], m.width, e0, e1, w, b),
            WriteData(m.wr[n - 1], m.width, e0, w, b), Seen(p, m, n - 1, e0, e1, w, b, cur))
  }

  /** One simultaneous write as the masks show it. */
  function Shown(transparent: bool, collisionX: bool, hit: State, data: State, rest: State): State {
    if transparent then IteS(hit, data, rest) else if collisionX then IteS(hit, Sx, rest) else rest
  }

  lemma SeenStep(p: MemRd, m: Ram, n: nat, e0: Env, e1: Env, w: nat, b: nat, cur: State)
    requires RamShape(m) && RdShape(p, m.width, |m.wr|) && n < |m.wr| && b < m.width
    ensures Seen(p, m, n + 1, e0, e1, w, b, cur) ==
            Shown(p.transparency[n], p.collisionX[n], Writes(m.wr[n], m.width, e0, e1, w, b),
                  WriteData(m.wr[n], m.width, e0, w, b), Seen(p, m, n, e0, e1, w, b, cur))
  {
    hide Writes, WriteData, Shown;
  }

  lemma SeenStart(p: MemRd, m: Ram, e0: Env, e1: Env, w: nat, b: nat, cur: State)
    requires RamShape(m) && b < m.width
    ensures AfterWrites(m, 0, e0, e1, w, b, cur) == cur
    ensures RdShape(p, m.width, |m.wr|) ==> Seen(p, m, 0, e0, e1, w, b, cur) == cur
  {
  }

  lemma AfterWritesStep(m: Ram, n: nat, e0: Env, e1: Env, w: nat, b: nat, cur: State)
    requires RamShape(m) && n < |m.wr| && b < m.width
    ensures AfterWrites(m, n + 1, e0, e1, w, b, cur) ==
            IteS(Writes(m.wr[n], m.width, e0, e1, w, b), WriteData(m.wr[n], m.width, e0, w, b),
                 AfterWrites(m, n, e0, e1, w, b, cur))
  {
    hide Writes, WriteData;
  }

  function Sample(p: MemRd, m: Ram, envs: seq<Env>, t: nat, i: nat): State
    requires RamShape(m) && RdShape(p, m.width, |m.wr|) && t + 1 < |envs|
  {
    if InRange(p, m, envs[t], i)
    then Seen(p, m, |m.wr|, envs[t], envs[t + 1], Word(p, m.width, envs[t], i), BitOf(m.width, i),
              Behind(p, m, envs, t, envs[t], i))
    else Sx
  }

  /** A register clocked, enabled and reset the way the port is. */
  function PortNext(p: MemRd, e0: Env, e1: Env, arstValue: State, srstValue: State, data: State, hold: State): State {
    Decide(S0, S0, Eval(p.arst, e1), arstValue, S0, S0, Edge(p.clk, p.clkPolarity, e0, e1),
           Sampled(p.ceOverSrst, Eval(p.en, e0), Eval(p.srst, e0), srstValue, data, hold), hold)
  }

  /** Bit `i` of the port at instant `t`: an asynchronous port shows the memory, a clocked one its register. */
  function ReadBit(p: MemRd, m: Ram, envs: seq<Env>, t: nat, i: nat): State
    requires RamShape(m) && RdShape(p, m.width, |m.wr|) && t < |envs| && i < |p.data|
  {
    if !p.clkEnable then Behind(p, m, envs, t, envs[t], i)
    else if t == 0 then p.initValue[i]
    else PortNext(p, envs[t - 1], envs[t], p.arstValue[i], p.srstValue[i],
                  Sample(p, m, envs, t - 1, i), ReadBit(p, m, envs, t - 1, i))
  }

  /** The levels on the data wires are allowed by the port. */
  ghost predicate PortRuns(p: MemRd, m: Ram, envs: seq<Env>)
    requires RamShape(m) && RdShape(p, m.width, |m.wr|)
  {
    forall t: nat, i: nat :: t < |envs| && i < |p.data| ==> Refines(ReadBit(p, m, envs, t, i), Eval(p.data[i], envs[t]))
  }

  // ---------------------------------------------------------------- definite controls

  /** A step in which a clocked port has a definite edge and reset, and a definite enable and synchronous
      reset when it samples. Nothing is asked of the address, or of a port that has no clock. */
  predicate RdKnownStep(p: MemRd, e0: Env, e1: Env) {
    p.clkEnable ==>
      && Edge(p.clk, p.clkPolarity, e0, e1) != Sx && Eval(p.arst, e1) != Sx
      && (Edge(p.clk, p.clkPolarity, e0, e1) == S1 ==> Eval(p.en, e0) != Sx && Eval(p.srst, e0) != Sx)
  }

  ghost predicate RdKnown(p: MemRd, envs: seq<Env>) {
    forall t: nat :: t + 1 < |envs| ==> RdKnownStep(p, envs[t], envs[t + 1])
  }

  /** A step in which, should the port sample, enable and synchronous reset decide what becomes of the sample. */
  predicate RdDecidedStep(p: MemRd, e0: Env, e1: Env) {
    p.clkEnable && Edge(p.clk, p.clkPolarity, e0, e1) != S0 ==>
      !Undecided(p.ceOverSrst, Eval(p.en, e0), Eval(p.srst, e0))
  }

  ghost predicate RdDecided(p: MemRd, envs: seq<Env>) {
    forall t: nat :: t + 1 < |envs| ==> RdDecidedStep(p, envs[t], envs[t + 1])
  }

  lemma KnownDecided(p: MemRd, envs: seq<Env>)
    requires RdKnown(p, envs)
    ensures RdDecided(p, envs)
  {
    hide Eval, Edge;
    forall t: nat | t + 1 < |envs| ensures RdDecidedStep(p, envs[t], envs[t + 1]) {
      assert RdKnownStep(p, envs[t], envs[t + 1]);
    }
  }

  predicate Idle(p: MemWr, e: Env) {
    forall i :: 0 <= i < |p.en| ==> Eval(p.en[i], e) == S0
  }

  /** Definite enables, and an undefined address only while all of them are off. */
  predicate WrReady(p: MemWr, e: Env) {
    Known(EvalSig(p.en, e)) && (Known(EvalSig(p.addr, e)) || Idle(p, e))
  }

  predicate WrKnownStep(p: MemWr, e0: Env, e1: Env) {
    p.removed || Strobe(p, e0, e1) == S0 || (Strobe(p, e0, e1) == S1 && WrReady(p, e0))
  }

  /** The given writers are definite in every step. */
  ghost predicate WrKnown(m: Ram, ks: set<nat>, envs: seq<Env>) {
    forall t: nat, k: nat :: t + 1 < |envs| && k in ks && k < |m.wr| ==> WrKnownStep(m.wr[k], envs[t], envs[t + 1])
  }

  // ---------------------------------------------------------------- registers in the port's clock domain

  /** The register every emulation step builds: the port's clock, and its enable and resets unless they are
      tied to their inactive level. */
  function PortFf(p: MemRd, useCe: bool, q: Sig, d: Sig, valArst: seq<State>, valSrst: seq<State>,
      valInit: seq<State>): (f: Ff)
    requires |q| == |d| == |valArst| == |valSrst| == |valInit|
    ensures f.Valid() && f.width == |q| && f.sigQ == q && f.valInit == valInit
  {
    var hasCe := useCe && p.en != Const(S1);
    Ff(|q|, true, false, hasCe, false, p.srst != Const(S0), p.arst != Const(S0), false,
       hasCe && p.ceOverSrst, false,
       p.clkPolarity, true, true, true, true, true, true,
       q, d, [], p.clk, p.en, Const(S0), p.arst, p.srst, [], [], valArst, valSrst, valInit)
  }

  lemma PortFfNext(p: MemRd, useCe: bool, q: Sig, d: Sig, valArst: seq<State>, valSrst: seq<State>, valInit: seq<State>,
                   e0: Env, e1: Env, i: nat)
    requires |q| == |d| == |valArst| == |valSrst| == |valInit| && i < |q|
    ensures Next(PortFf(p, useCe, q, d, valArst, valSrst, valInit), e0, e1, i) ==
            PortNext(if useCe then p else p.(en := Const(S1), ceOverSrst := false), e0, e1,
                     valArst[i], valSrst[i], Eval(d[i], e0), Eval(q[i], e0))
  {
    assert Eval(Const(S1), e0) == S1 && Eval(Const(S0), e0) == S0 && Eval(Const(S0), e1) == S0;
    hide Eval, Edge;
  }
}
