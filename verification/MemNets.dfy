/**
 A memory with the registers and cells around it as a netlist: when it is free of combinational loops, it has a
 run for every behaviour of its environment.
 */
module MemNets {
  import opened Signals
  import opened FlipFlops
  import opened Lanes
  import opened MemPorts
  import opened MemReadControl

  /** Everything the methods of `Mem` change, at one moment. */
  datatype MemView = MemView(width: nat, start: nat, size: nat, rd: seq<MemRd>, wr: seq<MemWr>, ffs: seq<Ff>,
      cells: Cells, nextWire: nat)

  function RamOf(v: MemView, init: Contents): Ram {
    Ram(v.width, v.start, v.size, v.wr, init)
  }

  /** What drives a wire: a bit of a register, a cell, or a bit of a read port. */
  datatype Driver = FfQ(k: nat, i: nat) | CellY(k: nat) | PortD(p: nat, i: nat)

  type Owner = map<nat, Driver>
  type Rank = nat -> nat

  // ---------------------------------------------------------------- the order of evaluation within an instant

  /** All wires a bit reads come before `r`. */
  predicate RankBelow(x: Bit, rank: Rank, r: nat) {
    match x
    case Const(_) => true
    case Wire(id) => rank(id) < r
    case Not(a) => RankBelow(a, rank, r)
    case And(a, b) => RankBelow(a, rank, r) && RankBelow(b, rank, r)
    case Or(a, b) => RankBelow(a, rank, r) && RankBelow(b, rank, r)
    case Xor(a, b) => RankBelow(a, rank, r) && RankBelow(b, rank, r)
    case Mux(a, b, s) => RankBelow(a, rank, r) && RankBelow(b, rank, r) && RankBelow(s, rank, r)
    case Eq(l, r') =>
      && (forall i :: 0 <= i < |l| ==> RankBelow(l[i], rank, r))
      && (forall i :: 0 <= i < |r'| ==> RankBelow(r'[i], rank, r))
  }

  predicate SigRankBelow(x: Sig, rank: Rank, r: nat) {
    forall i :: 0 <= i < |x| ==> RankBelow(x[i], rank, r)
  }

  ghost predicate AgreeUpTo(e: Env, e': Env, rank: Rank, r: nat) {
    forall w: nat :: rank(w) < r ==> e(w) == e'(w)
  }

  lemma {:induction false} RankFrame(x: Bit, rank: Rank, r: nat, e: Env, e': Env)
    requires RankBelow(x, rank, r) && AgreeUpTo(e, e', rank, r)
    ensures Eval(x, e) == Eval(x, e')
    decreases x
  {
    match x
    case Const(_) =>
    case Wire(_) =>
    case Not(a) => RankFrame(a, rank, r, e, e');
    case And(a, b) => RankFrame(a, rank, r, e, e'); RankFrame(b, rank, r, e, e');
    case Or(a, b) => RankFrame(a, rank, r, e, e'); RankFrame(b, rank, r, e, e');
    case Xor(a, b) => RankFrame(a, rank, r, e, e'); RankFrame(b, rank, r, e, e');
    case Mux(a, b, s) => RankFrame(a, rank, r, e, e'); RankFrame(b, rank, r, e, e'); RankFrame(s, rank, r, e, e');
    case Eq(l, q) =>
      forall i | 0 <= i < |l| ensures Eval(l[i], e) == Eval(l[i], e') { RankFrame(l[i], rank, r, e, e'); }
      forall i | 0 <= i < |q| ensures Eval(q[i], e) == Eval(q[i], e') { RankFrame(q[i], rank, r, e, e'); }
      assert EvalSig(l, e) == EvalSig(l, e') && EvalSig(q, e) == EvalSig(q, e');
  }

  predicate Owns(owner: Owner, x: Bit, d: Driver) {
    x.Wire? && x.id in owner && owner[x.id] == d
  }

  /** What bit `i` of a register reads at the new instant comes before `r`. */
  predicate FfReads(f: Ff, i: nat, rank: Rank, r: nat)
    requires f.Valid() && i < f.width
  {
    && (f.hasClk ==> RankBelow(f.sigClk, rank, r)) && (f.hasArst ==> RankBelow(f.sigArst, rank, r))
    && (f.hasAload ==> RankBelow(f.sigAload, rank, r) && RankBelow(f.sigAd[i], rank, r))
    && (f.hasSr ==> RankBelow(f.sigClr[i], rank, r) && RankBelow(f.sigSet[i], rank, r))
  }

  predicate FfPlaced(f: Ff, k: nat, owner: Owner, rank: Rank) {
    f.Valid() &&
        forall i :: 0 <= i < f.width ==> Owns(owner, f.sigQ[i], FfQ(k, i)) && FfReads(f, i, rank, rank(f.sigQ[i].id))
  }

  predicate CellPlaced(c: (Bit, Bit), k: nat, owner: Owner, rank: Rank) {
    Owns(owner, c.0, CellY(k)) && RankBelow(c.1, rank, rank(c.0.id))
  }

  /** What a read port reads at the new instant: its clock and asynchronous reset, or its address, and the write
      clocks. */
  predicate PortReads(p: MemRd, wr: seq<MemWr>, rank: Rank, r: nat) {
    && (p.clkEnable ==> RankBelow(p.clk, rank, r) && RankBelow(p.arst, rank, r))
    && (!p.clkEnable ==> SigRankBelow(p.addr, rank, r))
    && forall k :: 0 <= k < |wr| ==> RankBelow(wr[k].clk, rank, r)
  }

  predicate PortPlaced(p: MemRd, n: nat, wr: seq<MemWr>, owner: Owner, rank: Rank) {
    forall i :: 0 <= i < |p.data| ==> Owns(owner, p.data[i], PortD(n, i)) && PortReads(p, wr, rank, rank(p.data[i].id))
  }

  /** Every wire has at most one driver, and what a driver reads at once comes before it. */
  ghost predicate Placed(v: MemView, owner: Owner, rank: Rank) {
    && (forall k :: 0 <= k < |v.ffs| ==> FfPlaced(v.ffs[k], k, owner, rank))
    && (forall k :: 0 <= k < |v.cells| ==> CellPlaced(v.cells[k], k, owner, rank))
    && (forall n :: 0 <= n < |v.rd| ==> PortPlaced(v.rd[n], n, v.wr, owner, rank))
  }

  // ---------------------------------------------------------------- the run

  predicate Exists(v: MemView, d: Driver) {
    match d
    case FfQ(k, i) => k < |v.ffs| && v.ffs[k].Valid() && i < v.ffs[k].width
    case CellY(k) => k < |v.cells|
    case PortD(n, i) => n < |v.rd| && i < |v.rd[n].data|
  }

  ghost predicate Shaped(v: MemView) {
    v.width > 0 && (forall k :: 0 <= k < |v.wr| ==> WrShape(v.wr[k], v.width)) &&
        forall n :: 0 <= n < |v.rd| ==> RdShape(v.rd[n], v.width, |v.wr|)
  }

  /** What a driver puts out after the instants so far, given what it reads at once. */
  ghost function Output(v: MemView, init: Contents, past: seq<Env>, e: Env, d: Driver): State
    requires Shaped(v)
  {
    if !Exists(v, d) then Sx else
      match d
      case FfQ(k, i) => if past == [] then v.ffs[k].valInit[i] else Next(v.ffs[k], past[|past| - 1], e, i)
      case CellY(k) => Eval(v.cells[k].1, e)
      case PortD(n, i) => ReadBit(v.rd[n], RamOf(v, init), past + [e], |past|, i)
  }

  /** The levels with everything before rank `r` in place. */
  ghost function Partial(v: MemView, owner: Owner, rank: Rank, init: Contents, past: seq<Env>, base: Env, r: nat): Env
    requires Shaped(v)
    decreases r
  {
    (w: nat) => if w in owner &&
        rank(w) < r then Output(v, init, past, Partial(v, owner, rank, init, past, base, rank(w)), owner[w])
        else base(w)
  }

  ghost function Full(v: MemView, owner: Owner, rank: Rank, init: Contents, past: seq<Env>, base: Env): Env
    requires Shaped(v)
  {
    (w: nat) => if w in owner then Output(v, init, past, Partial(v, owner, rank, init, past, base, rank(w)), owner[w])
        else base(w)
  }

  lemma PartialAgrees(v: MemView, owner: Owner, rank: Rank, init: Contents, past: seq<Env>, base: Env, r: nat)
    requires Shaped(v)
    ensures AgreeUpTo(Partial(v, owner, rank, init, past, base, r), Full(v, owner, rank, init, past, base), rank, r)
  {
    hide Output;
  }

  ghost function RunTo(v: MemView, owner: Owner, rank: Rank, init: Contents, base: seq<Env>, n: nat): (envs: seq<Env>)
    requires Shaped(v) && n <= |base|
    ensures |envs| == n
  {
    if n == 0 then [] else
      var past := RunTo(v, owner, rank, init, base, n - 1);
      past + [Full(v, owner, rank, init, past, base[n - 1])]
  }

  // ---------------------------------------------------------------- what depends on the present instant

  ghost predicate SameClocks(m: Ram, e: Env, e': Env) {
    forall k :: 0 <= k < |m.wr| ==> Eval(m.wr[k].clk, e) == Eval(m.wr[k].clk, e')
  }

  ghost predicate SameNow(p: MemRd, m: Ram, e: Env, e': Env) {
    && SameClocks(m, e, e')
    && (p.clkEnable ==> Eval(p.clk, e) == Eval(p.clk, e') && Eval(p.arst, e) == Eval(p.arst, e'))
    && (!p.clkEnable ==> EvalSig(p.addr, e) == EvalSig(p.addr, e'))
  }

  /** Two histories that differ in the instant `t` only. */
  ghost predicate SamePast(envs: seq<Env>, envs': seq<Env>, t: nat) {
    t < |envs| && t < |envs'| && forall s :: 0 <= s < t ==> envs[s] == envs'[s]
  }

  lemma WritesNow(p: MemWr, width: nat, e0: Env, e1: Env, e1': Env, w: nat, b: nat)
    requires WrShape(p, width) && b < width && Eval(p.clk, e1) == Eval(p.clk, e1')
    ensures Writes(p, width, e0, e1, w, b) == Writes(p, width, e0, e1', w, b)
  {
    hide Eval, AddrHit;
  }

  lemma {:induction false} AfterWritesNow(m: Ram, n: nat, e0: Env, e1: Env, e1': Env, w: nat, b: nat, cur: State)
    requires RamShape(m) && n <= |m.wr| && b < m.width && SameClocks(m, e1, e1')
    ensures AfterWrites(m, n, e0, e1, w, b, cur) == AfterWrites(m, n, e0, e1', w, b, cur)
  {
    hide Eval, Writes, WriteData, WrShape;
    if n > 0 {
      AfterWritesNow(m, n - 1, e0, e1, e1', w, b, cur);
      WritesNow(m.wr[n - 1], m.width, e0, e1, e1', w, b);
    }
  }

  lemma {:induction false} StoredNow(m: Ram, envs: seq<Env>, envs': seq<Env>, t: nat, w: nat, b: nat)
    requires RamShape(m) && SamePast(envs, envs', t) && b < m.width && SameClocks(m, envs[t], envs'[t])
    ensures Stored(m, envs, t, w, b) == Stored(m, envs', t, w, b)
  {
    hide Eval, AfterWrites, WrShape;
    if t > 0 {
      StoredNow(m, envs, envs', t - 1, w, b);
      AfterWritesNow(m, |m.wr|, envs[t - 1], envs[t], envs'[t], w, b, Stored(m, envs, t - 1, w, b));
    }
  }

  lemma {:induction false} SeenNow(p: MemRd, m: Ram, n: nat, e0: Env, e1: Env, e1': Env, w: nat, b: nat, cur: State)
    requires RamShape(m) && n <= |m.wr| && RdShape(p, m.width, |m.wr|) && b < m.width && SameClocks(m, e1, e1')
    ensures Seen(p, m, n, e0, e1, w, b, cur) == Seen(p, m, n, e0, e1', w, b, cur)
  {
    hide Eval, Writes, WriteData, Shown, WrShape;
    if n > 0 {
      SeenNow(p, m, n - 1, e0, e1, e1', w, b, cur);
      WritesNow(m.wr[n - 1], m.width, e0, e1, e1', w, b);
    }
  }

  lemma BehindNow(p: MemRd, m: Ram, envs: seq<Env>, envs': seq<Env>, t: nat, e: Env, e': Env, i: nat)
    requires RamShape(m) && SamePast(envs, envs', t) && SameClocks(m, envs[t], envs'[t]) &&
        EvalSig(p.addr, e) == EvalSig(p.addr, e')
    ensures Behind(p, m, envs, t, e, i) == Behind(p, m, envs', t, e', i)
  {
    hide Eval, Stored, Base, WrShape;
    if InRange(p, m, e, i) { StoredNow(m, envs, envs', t, Word(p, m.width, e, i), BitOf(m.width, i)); }
  }

  lemma SampleNow(p: MemRd, m: Ram, envs: seq<Env>, envs': seq<Env>, t: nat, i: nat)
    requires RamShape(m) && RdShape(p, m.width, |m.wr|) && SamePast(envs, envs', t + 1) &&
        SameClocks(m, envs[t + 1], envs'[t + 1])
    ensures Sample(p, m, envs, t, i) == Sample(p, m, envs', t, i)
  {
    hide Eval, Seen, Behind, WrShape;
    BehindNow(p, m, envs, envs', t, envs[t], envs'[t], i);
    SeenNow(p, m, |m.wr|, envs[t], envs[t + 1], envs'[t + 1], Word(p, m.width, envs[t], i), BitOf(m.width, i),
        Behind(p, m, envs, t, envs[t], i));
  }

  /** A port's output depends on the past and on what it reads at once. */
  lemma {:induction false} ReadNow(p: MemRd, m: Ram, envs: seq<Env>, envs': seq<Env>, t: nat, i: nat)
    requires RamShape(m) && RdShape(p, m.width, |m.wr|) && i < |p.data| && SamePast(envs, envs', t) &&
        SameNow(p, m, envs[t], envs'[t])
    ensures ReadBit(p, m, envs, t, i) == ReadBit(p, m, envs', t, i)
  {
    hide Eval, Behind, Sample, WrShape;
    if !p.clkEnable {
      BehindNow(p, m, envs, envs', t, envs[t], envs'[t], i);
    } else if t > 0 {
      ReadNow(p, m, envs, envs', t - 1, i);
      SampleNow(p, m, envs, envs', t - 1, i);
    }
  }

  lemma NextNow(f: Ff, i: nat, rank: Rank, r: nat, e0: Env, e1: Env, e1': Env)
    requires f.Valid() && i < f.width && FfReads(f, i, rank, r) && AgreeUpTo(e1, e1', rank, r)
    ensures Next(f, e0, e1, i) == Next(f, e0, e1', i)
  {
    hide Eval, RankBelow, AgreeUpTo;
    if f.hasClk { RankFrame(f.sigClk, rank, r, e1, e1'); }
    if f.hasArst { RankFrame(f.sigArst, rank, r, e1, e1'); }
    if f.hasAload { RankFrame(f.sigAload, rank, r, e1, e1'); RankFrame(f.sigAd[i], rank, r, e1, e1'); }
    if f.hasSr { RankFrame(f.sigClr[i], rank, r, e1, e1'); RankFrame(f.sigSet[i], rank, r, e1, e1'); }
  }

  lemma PortNow(p: MemRd, m: Ram, rank: Rank, r: nat, e: Env, e': Env)
    requires PortReads(p, m.wr, rank, r) && AgreeUpTo(e, e', rank, r)
    ensures SameNow(p, m, e, e')
  {
    hide Eval, RankBelow, AgreeUpTo;
    forall k | 0 <= k < |m.wr| ensures Eval(m.wr[k].clk, e) == Eval(m.wr[k].clk, e') {
      RankFrame(m.wr[k].clk, rank, r, e, e');
    }
    if p.clkEnable {
      RankFrame(p.clk, rank, r, e, e');
      RankFrame(p.arst, rank, r, e, e');
    } else {
      forall i | 0 <= i < |p.addr| ensures Eval(p.addr[i], e) == Eval(p.addr[i], e') {
        RankFrame(p.addr[i], rank, r, e, e');
      }
    }
  }

  // ---------------------------------------------------------------- every driver holds in the full levels

  lemma FfHolds(v: MemView, owner: Owner, rank: Rank, init: Contents, past: seq<Env>, base: Env, k: nat, i: nat)
    requires Shaped(v) && Placed(v, owner, rank) && k < |v.ffs| && v.ffs[k].Valid() && i < v.ffs[k].width
    ensures var e := Full(v, owner, rank, init, past, base);
      Eval(v.ffs[k].sigQ[i], e) == if past == [] then v.ffs[k].valInit[i] else Next(v.ffs[k], past[|past| - 1], e, i)
  {
    hide Next, FfReads, RankBelow;
    var f := v.ffs[k];
    assert FfPlaced(f, k, owner, rank);
    assert Owns(owner, f.sigQ[i], FfQ(k, i)) && FfReads(f, i, rank, rank(f.sigQ[i].id));
    var w := f.sigQ[i].id;
    PartialAgrees(v, owner, rank, init, past, base, rank(w));
    if past != [] {
      NextNow(f, i, rank, rank(w), past[|past| - 1], Partial(v, owner, rank, init, past, base, rank(w)),
          Full(v, owner, rank, init, past, base));
    }
  }

  lemma CellHoldsHere(v: MemView, owner: Owner, rank: Rank, init: Contents, past: seq<Env>, base: Env, k: nat)
    requires Shaped(v) && Placed(v, owner, rank) && k < |v.cells|
    ensures var e := Full(v, owner, rank, init, past, base); Eval(v.cells[k].0, e) == Eval(v.cells[k].1, e)
  {
    hide RankBelow;
    assert CellPlaced(v.cells[k], k, owner, rank);
    var w := v.cells[k].0.id;
    PartialAgrees(v, owner, rank, init, past, base, rank(w));
    RankFrame(v.cells[k].1, rank, rank(w), Partial(v, owner, rank, init, past, base, rank(w)),
        Full(v, owner, rank, init, past, base));
  }

  lemma PortHolds(v: MemView, owner: Owner, rank: Rank, init: Contents, past: seq<Env>, base: Env, n: nat, i: nat)
    requires Shaped(v) && Placed(v, owner, rank) && n < |v.rd| && i < |v.rd[n].data|
    ensures var e := Full(v, owner, rank, init, past, base);
      Eval(v.rd[n].data[i], e) == ReadBit(v.rd[n], RamOf(v, init), past + [e], |past|, i)
  {
    hide Full, Output, Partial, Placed, ReadBit, SameNow, Shaped, RdShape, WrShape, AgreeUpTo;
    var p, m := v.rd[n], RamOf(v, init);
    ShapedPort(v, init, n);
    PlacedPort(v, owner, rank, n, i);
    var w := p.data[i].id;
    var e, e' := Partial(v, owner, rank, init, past, base, rank(w)), Full(v, owner, rank, init, past, base);
    FullPort(v, owner, rank, init, past, base, n, i);
    PartialAgrees(v, owner, rank, init, past, base, rank(w));
    PortNow(p, m, rank, rank(w), e, e');
    ReadNow(p, m, past + [e], past + [e'], |past|, i);
  }

  lemma ShapedPort(v: MemView, init: Contents, n: nat)
    requires Shaped(v) && n < |v.rd|
    ensures RamShape(RamOf(v, init)) && RdShape(v.rd[n], v.width, |v.wr|)
  {
  }

  lemma PlacedPort(v: MemView, owner: Owner, rank: Rank, n: nat, i: nat)
    requires Placed(v, owner, rank) && n < |v.rd| && i < |v.rd[n].data|
    ensures Owns(owner, v.rd[n].data[i], PortD(n, i)) && PortReads(v.rd[n], v.wr, rank, rank(v.rd[n].data[i].id))
  {
    assert PortPlaced(v.rd[n], n, v.wr, owner, rank);
  }

  lemma FullPort(v: MemView, owner: Owner, rank: Rank, init: Contents, past: seq<Env>, base: Env, n: nat, i: nat)
    requires Shaped(v) && n < |v.rd| && i < |v.rd[n].data| && Owns(owner, v.rd[n].data[i], PortD(n, i))
    ensures RamShape(RamOf(v, init)) && RdShape(v.rd[n], v.width, |v.wr|)
    ensures Eval(v.rd[n].data[i], Full(v, owner, rank, init, past, base)) ==
      ReadBit(v.rd[n], RamOf(v, init), past + [Partial(v, owner, rank, init, past, base, rank(v.rd[n].data[i].id))],
          |past|, i)
  {
    hide Partial, ReadBit, RdShape, WrShape;
  }

  lemma {:induction false} RunPrefix(v: MemView, owner: Owner, rank: Rank, init: Contents, base: seq<Env>, n: nat,
      t: nat)
    requires Shaped(v) && t < n <= |base|
    ensures RunTo(v, owner, rank, init, base, n)[..t] == RunTo(v, owner, rank, init, base, t)
    ensures RunTo(v, owner, rank, init, base, n)[t] ==
            Full(v, owner, rank, init, RunTo(v, owner, rank, init, base, t), base[t])
  {
    hide Full;
    if t < n - 1 { RunPrefix(v, owner, rank, init, base, n - 1, t); }
  }

  predicate DrivenBy(v: MemView, w: nat, d: Driver) {
    match d
    case FfQ(k, i) => k < |v.ffs| && i < |v.ffs[k].sigQ| && v.ffs[k].sigQ[i] == Wire(w)
    case CellY(k) => k < |v.cells| && v.cells[k].0 == Wire(w)
    case PortD(n, i) => n < |v.rd| && i < |v.rd[n].data| && v.rd[n].data[i] == Wire(w)
  }

  /** The wire is put out by some part of the memory. */
  ghost predicate Driven(v: MemView, w: nat) {
    exists d :: DrivenBy(v, w, d)
  }

  /** Wires the environment was free to drive stay free. */
  ghost predicate KeepsInputs(a: MemView, b: MemView) {
    forall w: nat :: w < a.nextWire && Driven(b, w) ==> Driven(a, w)
  }

  /** New bits, or outputs already. */
  ghost predicate Outputs(a: MemView, s: Sig) {
    forall i :: 0 <= i < |s| && s[i].Wire? && s[i].id < a.nextWire ==> Driven(a, s[i].id)
  }

  lemma InputsTransitive(a: MemView, b: MemView, c: MemView)
    requires KeepsInputs(a, b) && KeepsInputs(b, c) && a.nextWire <= b.nextWire
    ensures KeepsInputs(a, c)
  {
    hide Driven;
  }

  lemma InputsItself(a: MemView)
    ensures KeepsInputs(a, a)
  {
  }

  lemma DataOutputs(a: MemView, n: nat)
    requires n < |a.rd|
    ensures Outputs(a, a.rd[n].data)
  {
    forall i | 0 <= i < |a.rd[n].data| && a.rd[n].data[i].Wire? ensures Driven(a, a.rd[n].data[i].id) {
      assert DrivenBy(a, a.rd[n].data[i].id, PortD(n, i));
    }
  }

  /** Registers and cells that drive such bits only, and read ports that do, leave the inputs alone. */
  lemma OutputsDriven(a: MemView, b: MemView, c: MemView)
    requires KeepsInputs(a, b) && b.ffs <= c.ffs && b.cells <= c.cells && |b.rd| == |c.rd|
    requires forall k :: |b.ffs| <= k < |c.ffs| ==> Outputs(a, c.ffs[k].sigQ)
    requires forall k :: |b.cells| <= k < |c.cells| ==> Outputs(a, [c.cells[k].0])
    requires forall n :: 0 <= n < |c.rd| ==> c.rd[n].data == b.rd[n].data || Outputs(a, c.rd[n].data)
    ensures KeepsInputs(a, c)
  {
    forall w: nat | w < a.nextWire && Driven(c, w) ensures Driven(a, w) {
      var d :| DrivenBy(c, w, d);
      match d
      case FfQ(k, i) =>
        if k < |b.ffs| { assert DrivenBy(b, w, d); } else { assert c.ffs[k].sigQ[i].id == w; }
      case CellY(k) =>
        if k < |b.cells| { assert DrivenBy(b, w, d); } else { assert [c.cells[k].0][0].id == w; }
      case PortD(n, i) =>
        if c.rd[n].data == b.rd[n].data { assert DrivenBy(b, w, d); } else { assert c.rd[n].data[i].id == w; }
    }
  }

  lemma FreshOutputs(a: MemView, first: nat, n: nat)
    requires a.nextWire <= first
    ensures Outputs(a, Fresh(first, n)) && Outputs(a, [Wire(first)])
  {
    hide Driven;
  }

  /** The usual step: new registers drive new wires, new cells drive what the port put out. */
  lemma StepInputs(a: MemView, b: MemView, idx: nat)
    requires idx < |a.rd| == |b.rd| && b.rd == a.rd[idx := b.rd[idx]] && a.ffs <= b.ffs && a.cells <= b.cells
    requires b.rd[idx].data == a.rd[idx].data || Outputs(a, b.rd[idx].data)
    requires forall k :: |a.ffs| <= k < |b.ffs| ==> Outputs(a, b.ffs[k].sigQ)
    requires forall k :: |a.cells| <= k < |b.cells| ==> b.cells[k].0 in a.rd[idx].data
    ensures KeepsInputs(a, b)
  {
    hide Driven;
    DataOutputs(a, idx);
    forall k | |a.cells| <= k < |b.cells| ensures Outputs(a, [b.cells[k].0]) {
      assert b.cells[k].0 in a.rd[idx].data;
    }
    OutputsDriven(a, a, b);
  }

  /** Every driver is one of the memory's. */
  ghost predicate Backed(v: MemView, owner: Owner) {
    forall w :: w in owner ==> DrivenBy(v, w, owner[w])
  }

  /** Wires that are driven, or read within an instant, are numbered below the next unused one. */
  ghost predicate Numbered(v: MemView) {
    && (forall w: nat :: Driven(v, w) ==> w < v.nextWire)
    && (forall k :: 0 <= k < |v.ffs| ==> v.ffs[k].Valid() && FfBelow(v.ffs[k], v.nextWire))
    && (forall k :: 0 <= k < |v.cells| ==> Below(v.cells[k].1, v.nextWire))
    && (forall n ::
       0 <= n < |v.rd| ==>
       Below(v.rd[n].clk, v.nextWire) && Below(v.rd[n].arst, v.nextWire) && SigBelow(v.rd[n].addr, v.nextWire))
    && (forall k :: 0 <= k < |v.wr| ==> Below(v.wr[k].clk, v.nextWire))
  }

  predicate FfBelow(f: Ff, n: nat)
    requires f.Valid()
  {
    && (f.hasClk ==> Below(f.sigClk, n)) && (f.hasArst ==> Below(f.sigArst, n))
    && (f.hasAload ==> Below(f.sigAload, n) && SigBelow(f.sigAd, n))
    && (f.hasSr ==> SigBelow(f.sigClr, n) && SigBelow(f.sigSet, n))
  }

  ghost predicate Loopfree(v: MemView) {
    Numbered(v) && exists owner: Owner, rank: Rank :: Placed(v, owner, rank) && Backed(v, owner)
  }

  /** Whatever the environment does, a memory without combinational loops has a run: all its registers, cells and read
      ports run, and the wires nobody drives follow the environment. */
  lemma HasRun(v: MemView, init: Contents, base: seq<Env>) returns (envs: seq<Env>)
    requires Shaped(v) && Loopfree(v) && |base| > 0
    ensures |envs| == |base| && SoftRuns(v.ffs, v.cells, envs)
    ensures forall n :: 0 <= n < |v.rd| ==> PortRuns(v.rd[n], RamOf(v, init), envs)
    ensures forall t: nat, w: nat :: t < |base| && !Driven(v, w) ==> envs[t](w) == base[t](w)
  {
    var owner: Owner, rank: Rank :| Placed(v, owner, rank) && Backed(v, owner);
    envs := RunTo(v, owner, rank, init, base, |base|);
    RunSoft(v, owner, rank, init, base);
    forall n: nat | n < |v.rd| ensures PortRuns(v.rd[n], RamOf(v, init), envs) {
      RunPort(v, owner, rank, init, base, n);
    }
    forall t: nat, w: nat | t < |base| && !Driven(v, w) ensures envs[t](w) == base[t](w) {
      RunPrefix(v, owner, rank, init, base, |base|, t);
    }
  }

  lemma RunPort(v: MemView, owner: Owner, rank: Rank, init: Contents, base: seq<Env>, n: nat)
    requires Shaped(v) && Placed(v, owner, rank) && n < |v.rd|
    ensures PortRuns(v.rd[n], RamOf(v, init), RunTo(v, owner, rank, init, base, |base|))
  {
    hide ReadBit, Placed, RunTo, Full, Eval;
    var envs := RunTo(v, owner, rank, init, base, |base|);
    var p, m := v.rd[n], RamOf(v, init);
    forall t: nat, i: nat | t < |envs| && i < |p.data|
      ensures Refines(ReadBit(p, m, envs, t, i), Eval(p.data[i], envs[t]))
    {
      var past := RunTo(v, owner, rank, init, base, t);
      RunPrefix(v, owner, rank, init, base, |base|, t);
      PortHolds(v, owner, rank, init, past, base[t], n, i);
      assert forall s :: 0 <= s < t ==> envs[s] == envs[..t][s];
      ReadNow(p, m, envs, past + [envs[t]], t, i);
    }
  }

  lemma RunSoft(v: MemView, owner: Owner, rank: Rank, init: Contents, base: seq<Env>)
    requires Shaped(v) && Placed(v, owner, rank) && |base| > 0
    ensures SoftRuns(v.ffs, v.cells, RunTo(v, owner, rank, init, base, |base|))
  {
    hide RunTo, Full, Eval, Next;
    var envs := RunTo(v, owner, rank, init, base, |base|);
    forall t: nat | t < |envs| ensures Consistent(v.cells, envs[t]) {
      RunPrefix(v, owner, rank, init, base, |base|, t);
      forall k | 0 <= k < |v.cells| ensures Eval(v.cells[k].0, envs[t]) == Eval(v.cells[k].1, envs[t]) {
        CellHoldsHere(v, owner, rank, init, RunTo(v, owner, rank, init, base, t), base[t], k);
      }
    }
    forall k: nat | k < |v.ffs| ensures v.ffs[k].Valid() && IsRun(Net(v.ffs[k], [], 0), envs) {
      assert FfPlaced(v.ffs[k], k, owner, rank);
      RunFf(v, owner, rank, init, base, k);
    }
  }

  lemma RunFf(v: MemView, owner: Owner, rank: Rank, init: Contents, base: seq<Env>, k: nat)
    requires Shaped(v) && Placed(v, owner, rank) && |base| > 0 && k < |v.ffs| && v.ffs[k].Valid()
    ensures IsRun(Net(v.ffs[k], [], 0), RunTo(v, owner, rank, init, base, |base|))
  {
    hide RunTo, Full, Eval, Next, Placed;
    var envs, f := RunTo(v, owner, rank, init, base, |base|), v.ffs[k];
    forall i: nat | i < f.width ensures Eval(f.sigQ[i], envs[0]) == f.valInit[i] {
      RunPrefix(v, owner, rank, init, base, |base|, 0);
      FfHolds(v, owner, rank, init, RunTo(v, owner, rank, init, base, 0), base[0], k, i);
    }
    forall t: nat, i: nat | t + 1 < |envs| && i < f.width ensures StepTaken(f, envs, t, i) {
      RunPrefix(v, owner, rank, init, base, |base|, t + 1);
      var past := RunTo(v, owner, rank, init, base, t + 1);
      assert past[t] == envs[..t + 1][t] == envs[t];
      FfHolds(v, owner, rank, init, past, base[t + 1], k, i);
    }
  }
}
