/**
 Rewriting a memory without closing a combinational loop: registers, multiplexers and split ports added around it
 leave an order in which every instant can be evaluated.
 */
module MemRewiring {
  import opened Signals
  import opened FlipFlops
  import opened Lanes
  import opened MemPorts
  import opened MemReadControl
  import opened MemNets

  // ---------------------------------------------------------------- making room in the order

  function Outside(s: set<nat>): Rank { (w: nat) => if w in s then 1 else 0 }

  /** The bit reads none of these wires. */
  predicate Avoids(x: Bit, s: set<nat>) {
    RankBelow(x, Outside(s), 1)
  }

  predicate SigAvoids(x: Sig, s: set<nat>) {
    forall i :: 0 <= i < |x| ==> Avoids(x[i], s)
  }

  lemma {:induction false} BelowAvoids(x: Bit, n: nat, s: set<nat>)
    requires Below(x, n) && forall w :: w in s ==> n <= w
    ensures Avoids(x, s)
    decreases x
  {
    match x
    case Const(_) =>
    case Wire(_) =>
    case Not(a) => BelowAvoids(a, n, s);
    case And(a, b) => BelowAvoids(a, n, s); BelowAvoids(b, n, s);
    case Or(a, b) => BelowAvoids(a, n, s); BelowAvoids(b, n, s);
    case Xor(a, b) => BelowAvoids(a, n, s); BelowAvoids(b, n, s);
    case Mux(a, b, c) => BelowAvoids(a, n, s); BelowAvoids(b, n, s); BelowAvoids(c, n, s);
    case Eq(l, r) =>
      forall i | 0 <= i < |l| ensures Avoids(l[i], s) { BelowAvoids(l[i], n, s); }
      forall i | 0 <= i < |r| ensures Avoids(r[i], s) { BelowAvoids(r[i], n, s); }
  }

  /** The wires of `s` get new ranks; all others keep their order, with room between them. */
  function Spread(rank: Rank, s: set<nat>, place: Rank): Rank {
    (w: nat) => if w in s then place(w) else 4 * rank(w) + 3
  }

  lemma {:induction false} SpreadBelow(x: Bit, rank: Rank, r: nat, s: set<nat>, place: Rank)
    requires RankBelow(x, rank, r) && Avoids(x, s)
    ensures RankBelow(x, Spread(rank, s, place), 4 * r)
    decreases x
  {
    match x
    case Const(_) =>
    case Wire(_) =>
    case Not(a) => SpreadBelow(a, rank, r, s, place);
    case And(a, b) => SpreadBelow(a, rank, r, s, place); SpreadBelow(b, rank, r, s, place);
    case Or(a, b) => SpreadBelow(a, rank, r, s, place); SpreadBelow(b, rank, r, s, place);
    case Xor(a, b) => SpreadBelow(a, rank, r, s, place); SpreadBelow(b, rank, r, s, place);
    case Mux(a, b, c) =>
      SpreadBelow(a, rank, r, s, place);
      SpreadBelow(b, rank, r, s, place);
      SpreadBelow(c, rank, r, s, place);
    case Eq(l, q) =>
      forall i | 0 <= i < |l| ensures RankBelow(l[i], Spread(rank, s, place), 4 * r) {
        assert Avoids(l[i], s); SpreadBelow(l[i], rank, r, s, place);
      }
      forall i | 0 <= i < |q| ensures RankBelow(q[i], Spread(rank, s, place), 4 * r) {
        assert Avoids(q[i], s); SpreadBelow(q[i], rank, r, s, place);
      }
  }

  /** An order that puts the wires read before `r` before `r'`. */
  lemma {:induction false} RankImplies(x: Bit, rank: Rank, r: nat, rank': Rank, r': nat)
    requires RankBelow(x, rank, r) && forall w: nat :: rank(w) < r ==> rank'(w) < r'
    ensures RankBelow(x, rank', r')
    decreases x
  {
    match x
    case Const(_) =>
    case Wire(_) =>
    case Not(a) => RankImplies(a, rank, r, rank', r');
    case And(a, b) => RankImplies(a, rank, r, rank', r'); RankImplies(b, rank, r, rank', r');
    case Or(a, b) => RankImplies(a, rank, r, rank', r'); RankImplies(b, rank, r, rank', r');
    case Xor(a, b) => RankImplies(a, rank, r, rank', r'); RankImplies(b, rank, r, rank', r');
    case Mux(a, b, c) =>
      RankImplies(a, rank, r, rank', r');
      RankImplies(b, rank, r, rank', r');
      RankImplies(c, rank, r, rank', r');
    case Eq(l, q) =>
      forall i | 0 <= i < |l| ensures RankBelow(l[i], rank', r') { RankImplies(l[i], rank, r, rank', r'); }
      forall i | 0 <= i < |q| ensures RankBelow(q[i], rank', r') { RankImplies(q[i], rank, r, rank', r'); }
  }

  lemma RankLater(x: Bit, rank: Rank, r: nat, r': nat)
    requires RankBelow(x, rank, r) && r <= r'
    ensures RankBelow(x, rank, r')
  {
    RankImplies(x, rank, r, rank, r');
  }

  /** Nobody drives these wires or reads them within an instant. */
  ghost predicate Unused(v: MemView, s: set<nat>) {
    && (forall w :: w in s ==> !Driven(v, w))
    && (forall k :: 0 <= k < |v.ffs| ==> v.ffs[k].Valid() && FfAvoids(v.ffs[k], s))
    && (forall k :: 0 <= k < |v.cells| ==> Avoids(v.cells[k].1, s))
    && (forall n :: 0 <= n < |v.rd| ==> Avoids(v.rd[n].clk, s) && Avoids(v.rd[n].arst, s) && SigAvoids(v.rd[n].addr, s))
    && (forall k :: 0 <= k < |v.wr| ==> Avoids(v.wr[k].clk, s))
  }

  predicate FfAvoids(f: Ff, s: set<nat>)
    requires f.Valid()
  {
    && (f.hasClk ==> Avoids(f.sigClk, s)) && (f.hasArst ==> Avoids(f.sigArst, s))
    && (f.hasAload ==> Avoids(f.sigAload, s) && SigAvoids(f.sigAd, s))
    && (f.hasSr ==> SigAvoids(f.sigClr, s) && SigAvoids(f.sigSet, s))
  }

  lemma FreshUnused(v: MemView, s: set<nat>)
    requires Numbered(v) && forall w :: w in s ==> v.nextWire <= w
    ensures Unused(v, s)
  {
    hide Avoids, Below;
    var n := v.nextWire;
    forall x: Bit | Below(x, n) ensures Avoids(x, s) { BelowAvoids(x, n, s); }
  }

  lemma SpreadFf(f: Ff, i: nat, rank: Rank, r: nat, s: set<nat>, place: Rank, r': nat)
    requires f.Valid() && i < f.width && FfReads(f, i, rank, r) && FfAvoids(f, s) && 4 * r <= r'
    ensures FfReads(f, i, Spread(rank, s, place), r')
  {
    hide RankBelow, Avoids, Spread;
    forall x: Bit | RankBelow(x, rank, r) && Avoids(x, s) ensures RankBelow(x, Spread(rank, s, place), r') {
      SpreadBelow(x, rank, r, s, place);
      RankLater(x, Spread(rank, s, place), 4 * r, r');
    }
  }

  lemma SpreadPort(p: MemRd, wr: seq<MemWr>, rank: Rank, r: nat, s: set<nat>, place: Rank, r': nat)
    requires PortReads(p, wr, rank, r) && 4 * r <= r'
    requires Avoids(p.clk, s) && Avoids(p.arst, s) && SigAvoids(p.addr, s) &&
        forall k :: 0 <= k < |wr| ==> Avoids(wr[k].clk, s)
    ensures PortReads(p, wr, Spread(rank, s, place), r')
  {
    hide RankBelow, Avoids, Spread;
    forall x: Bit | RankBelow(x, rank, r) && Avoids(x, s) ensures RankBelow(x, Spread(rank, s, place), r') {
      SpreadBelow(x, rank, r, s, place);
      RankLater(x, Spread(rank, s, place), 4 * r, r');
    }
  }

  // ---------------------------------------------------------------- rewiring one read port

  /** The drivers after the data wires of read port `idx` have been taken over. */
  ghost function NewOwner(owner: Owner, idx: nat, added: Owner): Owner {
    map w | w in owner.Keys + added.Keys &&
        (w in added || !(owner[w].PortD? && owner[w].p == idx)) :: if w in added then added[w] else owner[w]
  }

  /** Registers and cells are only added, other read ports stay, and the write clocks are the same. */
  predicate Extends(a: MemView, b: MemView, idx: nat) {
    && a.ffs <= b.ffs && a.cells <= b.cells && |b.rd| == |a.rd|
    && (forall n :: 0 <= n < |a.rd| && n != idx ==> b.rd[n] == a.rd[n])
    && |b.wr| == |a.wr| && (forall k :: 0 <= k < |a.wr| ==> b.wr[k].clk == a.wr[k].clk)
  }

  /** Only unused wires and the data wires of the port get new drivers. */
  ghost predicate Takes(owner: Owner, idx: nat, s: set<nat>, added: Owner) {
    forall w :: w in added ==> w in s || (w in owner && owner[w].PortD? && owner[w].p == idx)
  }

  lemma OldOwned(owner: Owner, idx: nat, s: set<nat>, added: Owner, x: Bit, d: Driver)
    requires Owns(owner, x, d) && Takes(owner, idx, s, added) && x.id !in s && !(d.PortD? && d.p == idx)
    ensures Owns(NewOwner(owner, idx, added), x, d)
  {
  }

  /** If what is new has its place, everything has. */
  lemma Rewired(a: MemView, b: MemView, idx: nat, s: set<nat>, owner: Owner, rank: Rank, added: Owner, place: Rank)
    requires Placed(a, owner, rank) && Backed(a, owner) && Unused(a, s) && Extends(a, b, idx) &&
        Takes(owner, idx, s, added)
    requires var owner', rank' := NewOwner(owner, idx, added), Spread(rank, s, place);
      && (forall k :: |a.ffs| <= k < |b.ffs| ==> FfPlaced(b.ffs[k], k, owner', rank'))
      && (forall k :: |a.cells| <= k < |b.cells| ==> CellPlaced(b.cells[k], k, owner', rank'))
      && (idx < |b.rd| ==> PortPlaced(b.rd[idx], idx, b.wr, owner', rank'))
    ensures Placed(b, NewOwner(owner, idx, added), Spread(rank, s, place))
  {
    var owner', rank' := NewOwner(owner, idx, added), Spread(rank, s, place);
    forall k | 0 <= k < |b.ffs| ensures FfPlaced(b.ffs[k], k, owner', rank') {
      if k < |a.ffs| { KeptFf(a, idx, s, owner, rank, added, place, k); }
    }
    forall k | 0 <= k < |b.cells| ensures CellPlaced(b.cells[k], k, owner', rank') {
      if k < |a.cells| { KeptCell(a, idx, s, owner, rank, added, place, k); }
    }
    forall n | 0 <= n < |b.rd| ensures PortPlaced(b.rd[n], n, b.wr, owner', rank') {
      if n != idx { KeptPort(a, b, idx, s, owner, rank, added, place, n); }
    }
  }

  lemma KeptFf(a: MemView, idx: nat, s: set<nat>, owner: Owner, rank: Rank, added: Owner, place: Rank, k: nat)
    requires Placed(a, owner, rank) && Unused(a, s) && Takes(owner, idx, s, added) && k < |a.ffs|
    ensures FfPlaced(a.ffs[k], k, NewOwner(owner, idx, added), Spread(rank, s, place))
  {
    hide FfReads, FfAvoids, NewOwner, Takes;
    var f := a.ffs[k];
    assert FfPlaced(f, k, owner, rank) && FfAvoids(f, s);
    forall i | 0 <= i < f.width
      ensures Owns(NewOwner(owner, idx, added), f.sigQ[i], FfQ(k, i)) &&
          FfReads(f, i, Spread(rank, s, place), Spread(rank, s, place)(f.sigQ[i].id))
    {
      assert Owns(owner, f.sigQ[i], FfQ(k, i)) && DrivenBy(a, f.sigQ[i].id, FfQ(k, i));
      assert Driven(a, f.sigQ[i].id);
      OldOwned(owner, idx, s, added, f.sigQ[i], FfQ(k, i));
      SpreadFf(f, i, rank, rank(f.sigQ[i].id), s, place, 4 * rank(f.sigQ[i].id) + 3);
    }
  }

  lemma KeptCell(a: MemView, idx: nat, s: set<nat>, owner: Owner, rank: Rank, added: Owner, place: Rank, k: nat)
    requires Placed(a, owner, rank) && Unused(a, s) && Takes(owner, idx, s, added) && k < |a.cells|
    ensures CellPlaced(a.cells[k], k, NewOwner(owner, idx, added), Spread(rank, s, place))
  {
    hide RankBelow, Avoids, NewOwner, Takes;
    var c := a.cells[k];
    assert CellPlaced(c, k, owner, rank) && Avoids(c.1, s);
    assert DrivenBy(a, c.0.id, CellY(k));
    assert Driven(a, c.0.id);
    OldOwned(owner, idx, s, added, c.0, CellY(k));
    SpreadBelow(c.1, rank, rank(c.0.id), s, place);
    RankLater(c.1, Spread(rank, s, place), 4 * rank(c.0.id), 4 * rank(c.0.id) + 3);
  }

  lemma KeptPort(a: MemView, b: MemView, idx: nat, s: set<nat>, owner: Owner, rank: Rank, added: Owner, place: Rank,
      n: nat)
    requires Placed(a, owner, rank) && Unused(a, s) && Takes(owner, idx, s, added) && Extends(a, b, idx) &&
        n < |a.rd| && n != idx
    ensures PortPlaced(b.rd[n], n, b.wr, NewOwner(owner, idx, added), Spread(rank, s, place))
  {
    hide RankBelow, Avoids, NewOwner, Takes, Spread;
    var p := a.rd[n];
    assert PortPlaced(p, n, a.wr, owner, rank);
    forall i | 0 <= i < |p.data|
      ensures Owns(NewOwner(owner, idx, added), p.data[i], PortD(n, i)) &&
          PortReads(p, b.wr, Spread(rank, s, place), Spread(rank, s, place)(p.data[i].id))
    {
      assert Owns(owner, p.data[i], PortD(n, i)) && PortReads(p, a.wr, rank, rank(p.data[i].id));
      assert DrivenBy(a, p.data[i].id, PortD(n, i));
      assert Driven(a, p.data[i].id);
      OldOwned(owner, idx, s, added, p.data[i], PortD(n, i));
      SpreadAt(rank, s, place, p.data[i].id);
      SpreadPort(p, a.wr, rank, rank(p.data[i].id), s, place, 4 * rank(p.data[i].id) + 3);
      SameReads(p, a.wr, b.wr, Spread(rank, s, place), 4 * rank(p.data[i].id) + 3);
    }
  }

  lemma SpreadAt(rank: Rank, s: set<nat>, place: Rank, w: nat)
    ensures Spread(rank, s, place)(w) == if w in s then place(w) else 4 * rank(w) + 3
  {
  }

  lemma SameReads(p: MemRd, wr: seq<MemWr>, wr': seq<MemWr>, rank: Rank, r: nat)
    requires PortReads(p, wr, rank, r) && |wr'| == |wr| && forall k :: 0 <= k < |wr| ==> wr'[k].clk == wr[k].clk
    ensures PortReads(p, wr', rank, r)
  {
    hide RankBelow;
  }

  // ---------------------------------------------------------------- registers and multiplexers around a clocked read
  // port

  /** These wires come before the data of the port. */
  ghost predicate Under(v: MemView, idx: nat, low: set<nat>, rank: Rank) {
    && idx < |v.rd|
    && forall w, i ::
         w in low && 0 <= i < |v.rd[idx].data| && v.rd[idx].data[i].Wire? ==> rank(w) < rank(v.rd[idx].data[i].id)
  }

  /** Free of loops, in an order with these wires before the data of the port. */
  ghost predicate LoopfreeOver(v: MemView, idx: nat, low: set<nat>) {
    && Numbered(v)
    && exists owner: Owner, rank: Rank :: Placed(v, owner, rank) && Backed(v, owner) && Under(v, idx, low, rank)
  }

  lemma LoopfreeOverNone(v: MemView, idx: nat)
    requires idx < |v.rd|
    ensures Loopfree(v) <==> LoopfreeOver(v, idx, {})
  {
    if Loopfree(v) {
      var owner: Owner, rank: Rank :| Placed(v, owner, rank) && Backed(v, owner);
      assert Under(v, idx, {}, rank);
    }
  }

  type Who = nat -> Driver

  /** A new register in the clock domain of the port. */
  predicate NewFf(f: Ff, k: nat, p: MemRd, s: set<nat>, who: Who) {
    && f.Valid() && !f.hasAload && !f.hasSr && (f.hasClk ==> f.sigClk == p.clk) && (f.hasArst ==> f.sigArst == p.arst)
    && forall i :: 0 <= i < f.width ==> f.sigQ[i].Wire? && f.sigQ[i].id in s && who(f.sigQ[i].id) == FfQ(k, i)
  }

  /** A new cell that drives an old data wire from the new one, new registers and earlier wires. */
  predicate NewCell(c: (Bit, Bit), old': Bit, new': Bit, s: set<nat>, low: set<nat>, who: Who) {
    c.0 == old' && RankBelow(c.1, Readable(new', s, low, who), 1)
  }

  /** 0 for the wires such a cell may read. */
  function Readable(new': Bit, s: set<nat>, low: set<nat>, who: Who): Rank {
    (w: nat) => if (w in s && who(w).FfQ?) || w in low || new' == Wire(w) then 0 else 1
  }

  /** Data bits from `lo` to `hi` of read port `idx` move to new wires of `s`; cells drive the old ones. `who` says what
      drives the wires of `s`. */
  ghost predicate Rewire(a: MemView, b: MemView, idx: nat, lo: nat, hi: nat, s: set<nat>, low: set<nat>, who: Who) {
    && idx < |a.rd| && Extends(a, b, idx) && a.nextWire <= b.nextWire && lo <= hi <= |a.rd[idx].data|
    && |b.cells| == |a.cells| + hi - lo
    && (forall w :: w in s ==> w < b.nextWire && DrivenBy(b, w, who(w))) && (forall w :: w in low ==> w < b.nextWire)
    && (forall k :: |a.ffs| <= k < |b.ffs| ==> NewFf(b.ffs[k], k, a.rd[idx], s, who))
    && SameControls(a.rd[idx], b.rd[idx])
    && (forall j :: 0 <= j < |a.rd[idx].data| ==> MovedBit(a, b, idx, lo, hi, s, low, who, j))
  }

  predicate SameControls(p: MemRd, q: MemRd) {
    p.clkEnable && q.clkEnable && q.clk == p.clk && (q.arst == p.arst || q.arst.Const?) && q.addr == p.addr &&
        |q.data| == |p.data| && |p.data| > 0
  }

  predicate MovedBit(a: MemView, b: MemView, idx: nat, lo: nat, hi: nat, s: set<nat>, low: set<nat>, who: Who, j: nat)
    requires idx < |a.rd| == |b.rd| && j < |a.rd[idx].data| == |b.rd[idx].data| && lo <= hi &&
        |b.cells| == |a.cells| + hi - lo
  {
    var x, y := a.rd[idx].data[j], b.rd[idx].data[j];
    if lo <= j < hi then y.Wire? && y.id in s && who(y.id) == PortD(idx, j) &&
        NewCell(b.cells[|a.cells| + j - lo], x, y, s, low, who)
    else y == x
  }

  ghost function Added(a: MemView, owner: Owner, idx: nat, lo: nat, hi: nat, s: set<nat>, who: Who): Owner {
    map w | w in owner.Keys + s && (w in s || (owner[w].PortD? && owner[w].p == idx)) ::
      if w in s then who(w) else if lo <= owner[w].i < hi then CellY(|a.cells| + owner[w].i - lo) else owner[w]
  }

  ghost function Places(a: MemView, idx: nat, rank: Rank, least: nat, who: Who): Rank {
    (w: nat) =>
      var d := who(w);
      if d.PortD? && idx < |a.rd| && d.i < |a.rd[idx].data| &&
          a.rd[idx].data[d.i].Wire? then 4 * rank(a.rd[idx].data[d.i].id) + 1 else 4 * least
  }

  /** The lowest rank of a data wire of the port. */
  lemma Least(p: MemRd, n: nat, wr: seq<MemWr>, owner: Owner, rank: Rank) returns (j: nat)
    requires PortPlaced(p, n, wr, owner, rank) && |p.data| > 0
    ensures j < |p.data| && p.data[j].Wire? &&
        forall i :: 0 <= i < |p.data| ==> rank(p.data[j].id) <= rank(p.data[i].id)
  {
    hide PortReads;
    j := 0;
    for i := 1 to |p.data|
      invariant j < |p.data| && p.data[j].Wire? && forall k :: 0 <= k < i ==> rank(p.data[j].id) <= rank(p.data[k].id)
    {
      if rank(p.data[i].id) < rank(p.data[j].id) { j := i; }
    }
  }

  /** Everything the proof of one rewiring talks about. */
  ghost predicate Setting(a: MemView, b: MemView, idx: nat, lo: nat, hi: nat, s: set<nat>, low: set<nat>, who: Who,
      owner: Owner, rank: Rank, j: nat)
  {
    && Placed(a, owner, rank) && Backed(a, owner) && Under(a, idx, low, rank) && Unused(a, s) && low !! s
    && Rewire(a, b, idx, lo, hi, s, low, who)
    && j < |a.rd[idx].data| && a.rd[idx].data[j].Wire? &&
       forall i ::
       0 <= i < |a.rd[idx].data| && a.rd[idx].data[i].Wire? ==> rank(a.rd[idx].data[j].id) <= rank(a.rd[idx].data[i].id)
  }

  ghost function OwnerAfter(a: MemView, idx: nat, lo: nat, hi: nat, s: set<nat>, who: Who, owner: Owner): Owner {
    NewOwner(owner, idx, Added(a, owner, idx, lo, hi, s, who))
  }

  ghost function RankAfter(a: MemView, idx: nat, s: set<nat>, who: Who, rank: Rank, least: nat): Rank {
    Spread(rank, s, Places(a, idx, rank, least, who))
  }

  lemma DataOwned(a: MemView, b: MemView, idx: nat, lo: nat, hi: nat, s: set<nat>, low: set<nat>, who: Who,
      owner: Owner, rank: Rank, j: nat, i: nat)
    requires Setting(a, b, idx, lo, hi, s, low, who, owner, rank, j) && i < |a.rd[idx].data|
    ensures Owns(owner, a.rd[idx].data[i], PortD(idx, i)) &&
        PortReads(a.rd[idx], a.wr, rank, rank(a.rd[idx].data[i].id))
    ensures var w := a.rd[idx].data[i].id;
        w !in s && RankAfter(a, idx, s, who, rank, rank(a.rd[idx].data[j].id))(w) == 4 * rank(w) + 3
    ensures Owns(OwnerAfter(a, idx, lo, hi, s, who, owner), a.rd[idx].data[i],
        if lo <= i < hi then CellY(|a.cells| + i - lo) else PortD(idx, i))
  {
    hide PortReads, Rewire, RankBelow, Avoids;
    assert PortPlaced(a.rd[idx], idx, a.wr, owner, rank);
    assert DrivenBy(a, a.rd[idx].data[i].id, PortD(idx, i));
    assert Driven(a, a.rd[idx].data[i].id);
  }

  lemma FfAdded(a: MemView, b: MemView, idx: nat, lo: nat, hi: nat, s: set<nat>, low: set<nat>, who: Who,
      owner: Owner, rank: Rank, j: nat, k: nat)
    requires Setting(a, b, idx, lo, hi, s, low, who, owner, rank, j) && |a.ffs| <= k < |b.ffs|
    ensures FfPlaced(b.ffs[k], k, OwnerAfter(a, idx, lo, hi, s, who, owner),
        RankAfter(a, idx, s, who, rank, rank(a.rd[idx].data[j].id)))
  {
    hide RankBelow, Avoids, MovedBit, Placed, Unused, Under;
    var p, f, least := a.rd[idx], b.ffs[k], rank(a.rd[idx].data[j].id);
    assert NewFf(f, k, p, s, who);
    DataOwned(a, b, idx, lo, hi, s, low, who, owner, rank, j, j);
    var rank' := RankAfter(a, idx, s, who, rank, least);
    PortAvoids(a, s, idx);
    SpreadBelow(p.clk, rank, least, s, Places(a, idx, rank, least, who));
    SpreadBelow(p.arst, rank, least, s, Places(a, idx, rank, least, who));
    forall i | 0 <= i < f.width
      ensures Owns(OwnerAfter(a, idx, lo, hi, s, who, owner), f.sigQ[i], FfQ(k, i)) &&
          FfReads(f, i, rank', rank'(f.sigQ[i].id))
    {
      assert rank'(f.sigQ[i].id) == 4 * least;
    }
  }

  lemma PortAvoids(a: MemView, s: set<nat>, idx: nat)
    requires Unused(a, s) && idx < |a.rd|
    ensures Avoids(a.rd[idx].clk, s) && Avoids(a.rd[idx].arst, s) && SigAvoids(a.rd[idx].addr, s) &&
        forall k :: 0 <= k < |a.wr| ==> Avoids(a.wr[k].clk, s)
  {
    hide Avoids;
  }

  lemma CellAdded(a: MemView, b: MemView, idx: nat, lo: nat, hi: nat, s: set<nat>, low: set<nat>, who: Who,
      owner: Owner, rank: Rank, j: nat, i: nat)
    requires Setting(a, b, idx, lo, hi, s, low, who, owner, rank, j) && lo <= i < hi
    ensures CellPlaced(b.cells[|a.cells| + i - lo], |a.cells| + i - lo, OwnerAfter(a, idx, lo, hi, s, who, owner),
        RankAfter(a, idx, s, who, rank, rank(a.rd[idx].data[j].id)))
  {
    hide RankBelow, Avoids, Placed, Unused, Backed, Under, OwnerAfter, RankAfter, Readable, NewFf;
    var p, c, least := a.rd[idx], b.cells[|a.cells| + i - lo], rank(a.rd[idx].data[j].id);
    var new' := b.rd[idx].data[i];
    assert MovedBit(a, b, idx, lo, hi, s, low, who, i);
    DataOwned(a, b, idx, lo, hi, s, low, who, owner, rank, j, i);
    var rank', r := RankAfter(a, idx, s, who, rank, least), rank(p.data[i].id);
    var seen := Readable(new', s, low, who);
    forall w: nat | seen(w) < 1 ensures rank'(w) < 4 * r + 3 {
      CellReads(a, b, idx, lo, hi, s, low, who, owner, rank, j, i, w);
    }
    RankImplies(c.1, seen, 1, rank', 4 * r + 3);
  }

  lemma CellReads(a: MemView, b: MemView, idx: nat, lo: nat, hi: nat, s: set<nat>, low: set<nat>, who: Who,
      owner: Owner, rank: Rank, j: nat, i: nat, w: nat)
    requires Setting(a, b, idx, lo, hi, s, low, who, owner, rank, j) && lo <= i < hi &&
        Readable(b.rd[idx].data[i], s, low, who)(w) < 1
    requires a.rd[idx].data[i].Wire? && rank(a.rd[idx].data[j].id) <= rank(a.rd[idx].data[i].id)
    ensures RankAfter(a, idx, s, who, rank, rank(a.rd[idx].data[j].id))(w) < 4 * rank(a.rd[idx].data[i].id) + 3
  {
    hide RankBelow, Avoids, Placed, Unused, NewFf;
    assert MovedBit(a, b, idx, lo, hi, s, low, who, i);
  }

  lemma PortMoved(a: MemView, b: MemView, idx: nat, lo: nat, hi: nat, s: set<nat>, low: set<nat>, who: Who,
      owner: Owner, rank: Rank, j: nat)
    requires Setting(a, b, idx, lo, hi, s, low, who, owner, rank, j)
    ensures PortPlaced(b.rd[idx], idx, b.wr, OwnerAfter(a, idx, lo, hi, s, who, owner),
        RankAfter(a, idx, s, who, rank, rank(a.rd[idx].data[j].id)))
  {
    hide RankBelow, Avoids, Placed, Unused, NewCell;
    var p, q, least := a.rd[idx], b.rd[idx], rank(a.rd[idx].data[j].id);
    var owner', rank', place := OwnerAfter(a, idx, lo, hi, s, who, owner), RankAfter(a, idx, s, who, rank, least),
        Places(a, idx, rank, least, who);
    PortAvoids(a, s, idx);
    forall i | 0 <= i < |q.data|
      ensures Owns(owner', q.data[i], PortD(idx, i)) && PortReads(q, b.wr, rank', rank'(q.data[i].id))
    {
      assert MovedBit(a, b, idx, lo, hi, s, low, who, i);
      DataOwned(a, b, idx, lo, hi, s, low, who, owner, rank, j, i);
      var r := rank(p.data[i].id);
      assert rank'(q.data[i].id) == if lo <= i < hi then 4 * r + 1 else 4 * r + 3;
      SpreadPort(p, a.wr, rank, r, s, place, rank'(q.data[i].id));
      MovedReads(p, q, a.wr, b.wr, rank', rank'(q.data[i].id));
    }
  }

  lemma MovedReads(p: MemRd, q: MemRd, wr: seq<MemWr>, wr': seq<MemWr>, rank: Rank, r: nat)
    requires PortReads(p, wr, rank, r) && SameControls(p, q) && |wr'| == |wr| &&
        forall k :: 0 <= k < |wr| ==> wr'[k].clk == wr[k].clk
    ensures PortReads(q, wr', rank, r)
  {
  }

  lemma RewireBacked(a: MemView, b: MemView, idx: nat, lo: nat, hi: nat, s: set<nat>, low: set<nat>, who: Who,
      owner: Owner, rank: Rank, j: nat)
    requires Setting(a, b, idx, lo, hi, s, low, who, owner, rank, j)
    ensures Backed(b, OwnerAfter(a, idx, lo, hi, s, who, owner))
  {
    var owner' := OwnerAfter(a, idx, lo, hi, s, who, owner);
    forall w | w in owner' ensures DrivenBy(b, w, owner'[w]) { BackedAt(a, b, idx, lo, hi, s, low, who, owner, w); }
  }

  lemma KeptDriver(a: MemView, b: MemView, idx: nat, w: nat, d: Driver)
    requires DrivenBy(a, w, d) && Extends(a, b, idx) && !(d.PortD? && d.p == idx)
    ensures DrivenBy(b, w, d)
  {
  }

  lemma OwnerAt(a: MemView, idx: nat, lo: nat, hi: nat, s: set<nat>, who: Who, owner: Owner, w: nat)
    requires w in OwnerAfter(a, idx, lo, hi, s, who, owner)
    ensures w !in s ==> w in owner
    ensures OwnerAfter(a, idx, lo, hi, s, who, owner)[w] ==
      if w in s then who(w)
      else if owner[w].PortD? && owner[w].p == idx && lo <= owner[w].i < hi then CellY(|a.cells| + owner[w].i - lo)
      else owner[w]
  {
  }

  lemma BackedAt(a: MemView, b: MemView, idx: nat, lo: nat, hi: nat, s: set<nat>, low: set<nat>, who: Who,
      owner: Owner, w: nat)
    requires Backed(a, owner) && Rewire(a, b, idx, lo, hi, s, low, who) &&
        w in OwnerAfter(a, idx, lo, hi, s, who, owner)
    ensures DrivenBy(b, w, OwnerAfter(a, idx, lo, hi, s, who, owner)[w])
  {
    hide RankBelow, NewFf, OwnerAfter;
    OwnerAt(a, idx, lo, hi, s, who, owner, w);
    if w !in s {
      var d := owner[w];
      assert DrivenBy(a, w, d);
      if d.PortD? && d.p == idx {
        assert MovedBit(a, b, idx, lo, hi, s, low, who, d.i);
      } else {
        KeptDriver(a, b, idx, w, d);
      }
    }
  }

  lemma RewireUnder(a: MemView, b: MemView, idx: nat, lo: nat, hi: nat, s: set<nat>, low: set<nat>, who: Who,
      owner: Owner, rank: Rank, j: nat)
    requires Setting(a, b, idx, lo, hi, s, low, who, owner, rank, j)
    ensures Under(b, idx, low + (set w | w in s && who(w).FfQ?),
        RankAfter(a, idx, s, who, rank, rank(a.rd[idx].data[j].id)))
  {
    hide RankBelow, Avoids, Placed, Unused, NewCell;
    var rank' := RankAfter(a, idx, s, who, rank, rank(a.rd[idx].data[j].id));
    forall w, i | w in low + (set w | w in s && who(w).FfQ?) && 0 <= i < |b.rd[idx].data| && b.rd[idx].data[i].Wire?
      ensures rank'(w) < rank'(b.rd[idx].data[i].id)
    {
      assert MovedBit(a, b, idx, lo, hi, s, low, who, i);
      DataOwned(a, b, idx, lo, hi, s, low, who, owner, rank, j, i);
    }
  }

  lemma RewireNumbered(a: MemView, b: MemView, idx: nat, lo: nat, hi: nat, s: set<nat>, low: set<nat>, who: Who)
    requires Numbered(a) && Rewire(a, b, idx, lo, hi, s, low, who)
    ensures Numbered(b)
  {
    hide Below;
    var n := b.nextWire;
    forall x: Bit | Below(x, a.nextWire) ensures Below(x, n) { BelowLater(x, a.nextWire, n); }
    forall k | 0 <= k < |b.ffs| ensures b.ffs[k].Valid() && FfBelow(b.ffs[k], n) {
      if k < |a.ffs| { assert FfBelow(a.ffs[k], a.nextWire) && b.ffs[k] == a.ffs[k]; } else {
        assert NewFf(b.ffs[k], k, a.rd[idx], s, who);
      }
    }
    forall k | 0 <= k < |b.cells| ensures Below(b.cells[k].1, n) {
      if k < |a.cells| {
        assert b.cells[k] == a.cells[k];
      } else {
        NewCellBelow(a, b, idx, lo, hi, s, low, who, k - |a.cells| + lo);
      }
    }
    forall m | 0 <= m < |b.rd| ensures Below(b.rd[m].clk, n) && Below(b.rd[m].arst, n) && SigBelow(b.rd[m].addr, n) {
      assert Below(a.rd[m].clk, a.nextWire) && Below(a.rd[m].arst, a.nextWire) && SigBelow(a.rd[m].addr, a.nextWire);
      ConstBelow(b.rd[m].arst, n);
    }
    forall w: nat | Driven(b, w) ensures w < n { RewireDriven(a, b, idx, lo, hi, s, low, who, w); }
  }

  lemma ConstBelow(x: Bit, n: nat)
    ensures x.Const? ==> Below(x, n)
  {
  }

  lemma NewCellBelow(a: MemView, b: MemView, idx: nat, lo: nat, hi: nat, s: set<nat>, low: set<nat>, who: Who, i: nat)
    requires Rewire(a, b, idx, lo, hi, s, low, who) && lo <= i < hi
    ensures Below(b.cells[|a.cells| + i - lo].1, b.nextWire)
  {
    assert MovedBit(a, b, idx, lo, hi, s, low, who, i);
    hide RankBelow, Below;
    var new' := b.rd[idx].data[i];
    var seen := Readable(new', s, low, who);
    RankImplies(b.cells[|a.cells| + i - lo].1, seen, 1, Itself(), b.nextWire);
    RankIsBelow(b.cells[|a.cells| + i - lo].1, b.nextWire);
  }

  function Itself(): Rank { (w: nat) => w }

  lemma {:induction false} RankIsBelow(x: Bit, n: nat)
    requires RankBelow(x, Itself(), n)
    ensures Below(x, n)
    decreases x
  {
    match x
    case Const(_) =>
    case Wire(_) =>
    case Not(a) => RankIsBelow(a, n);
    case And(a, b) => RankIsBelow(a, n); RankIsBelow(b, n);
    case Or(a, b) => RankIsBelow(a, n); RankIsBelow(b, n);
    case Xor(a, b) => RankIsBelow(a, n); RankIsBelow(b, n);
    case Mux(a, b, c) => RankIsBelow(a, n); RankIsBelow(b, n); RankIsBelow(c, n);
    case Eq(l, r) =>
      forall i | 0 <= i < |l| ensures Below(l[i], n) { RankIsBelow(l[i], n); }
      forall i | 0 <= i < |r| ensures Below(r[i], n) { RankIsBelow(r[i], n); }
  }

  lemma RewireDriven(a: MemView, b: MemView, idx: nat, lo: nat, hi: nat, s: set<nat>, low: set<nat>, who: Who, w: nat)
    requires Numbered(a) && Rewire(a, b, idx, lo, hi, s, low, who) && Driven(b, w)
    ensures w < b.nextWire && (w in s || Driven(a, w))
  {
    hide Below, RankBelow;
    var d :| DrivenBy(b, w, d);
    if d.PortD? && d.p == idx { assert MovedBit(a, b, idx, lo, hi, s, low, who, d.i); }
    if d.FfQ? && d.k >= |a.ffs| { assert NewFf(b.ffs[d.k], d.k, a.rd[idx], s, who); }
    if d.CellY? && d.k >= |a.cells| { assert MovedBit(a, b, idx, lo, hi, s, low, who, d.k - |a.cells| + lo); }
    if w !in s {
      var d' := if d.CellY? && d.k >= |a.cells| then PortD(idx, d.k - |a.cells| + lo) else d;
      assert DrivenBy(a, w, d');
      assert Driven(a, w);
    }
  }

  /** Registers in the clock domain of a read port and multiplexers on its data close no loop. */
  lemma RewireLoopfree(a: MemView, b: MemView, idx: nat, lo: nat, hi: nat, s: set<nat>, low: set<nat>, who: Who)
    requires LoopfreeOver(a, idx, low) && Unused(a, s) && low !! s && Rewire(a, b, idx, lo, hi, s, low, who)
    ensures LoopfreeOver(b, idx, low + (set w | w in s && who(w).FfQ?))
  {
    var owner: Owner, rank: Rank :| Placed(a, owner, rank) && Backed(a, owner) && Under(a, idx, low, rank);
    var j := FindLeast(a, idx, owner, rank);
    hide Placed, Backed, Under, Unused, Rewire, RankBelow, Avoids;
    assert Setting(a, b, idx, lo, hi, s, low, who, owner, rank, j);
    RewirePlaced(a, b, idx, lo, hi, s, low, who, owner, rank, j);
    RewireBacked(a, b, idx, lo, hi, s, low, who, owner, rank, j);
    RewireUnder(a, b, idx, lo, hi, s, low, who, owner, rank, j);
    RewireNumbered(a, b, idx, lo, hi, s, low, who);
  }

  lemma FindLeast(a: MemView, idx: nat, owner: Owner, rank: Rank) returns (j: nat)
    requires Placed(a, owner, rank) && idx < |a.rd| && |a.rd[idx].data| > 0
    ensures j < |a.rd[idx].data| && a.rd[idx].data[j].Wire?
    ensures forall i ::
        0 <= i < |a.rd[idx].data| && a.rd[idx].data[i].Wire? ==>
        rank(a.rd[idx].data[j].id) <= rank(a.rd[idx].data[i].id)
  {
    assert PortPlaced(a.rd[idx], idx, a.wr, owner, rank);
    j := Least(a.rd[idx], idx, a.wr, owner, rank);
  }

  lemma RewirePlaced(a: MemView, b: MemView, idx: nat, lo: nat, hi: nat, s: set<nat>, low: set<nat>, who: Who,
      owner: Owner, rank: Rank, j: nat)
    requires Setting(a, b, idx, lo, hi, s, low, who, owner, rank, j)
    ensures Placed(b, OwnerAfter(a, idx, lo, hi, s, who, owner),
        RankAfter(a, idx, s, who, rank, rank(a.rd[idx].data[j].id)))
  {
    hide Placed, Backed, Under, Unused, RankBelow, Avoids, FfPlaced, CellPlaced, PortPlaced, MovedBit, NewFf;
    var least := rank(a.rd[idx].data[j].id);
    var owner', rank', added, place := OwnerAfter(a, idx, lo, hi, s, who, owner),
        RankAfter(a, idx, s, who, rank, least), Added(a, owner, idx, lo, hi, s, who), Places(a, idx, rank, least, who);
    forall k | |a.ffs| <= k < |b.ffs| ensures FfPlaced(b.ffs[k], k, owner', rank') {
      FfAdded(a, b, idx, lo, hi, s, low, who, owner, rank, j, k);
    }
    forall k | |a.cells| <= k < |b.cells| ensures CellPlaced(b.cells[k], k, owner', rank') {
      CellAdded(a, b, idx, lo, hi, s, low, who, owner, rank, j, k - |a.cells| + lo);
    }
    PortMoved(a, b, idx, lo, hi, s, low, who, owner, rank, j);
    Rewired(a, b, idx, s, owner, rank, added, place);
  }

  // ---------------------------------------------------------------- bounds

  lemma {:induction false} RankBound(x: Bit, rank: Rank) returns (r: nat)
    ensures RankBelow(x, rank, r)
    decreases x
  {
    match x
    case Const(_) => r := 0;
    case Wire(id) => r := rank(id) + 1;
    case Not(a) => r := RankBound(a, rank);
    case And(a, b) =>
      var r1 := RankBound(a, rank);
      var r2 := RankBound(b, rank);
      r := r1 + r2;
      RankJoin(a, r1, b, r2, rank);
    case Or(a, b) =>
      var r1 := RankBound(a, rank);
      var r2 := RankBound(b, rank);
      r := r1 + r2;
      RankJoin(a, r1, b, r2, rank);
    case Xor(a, b) =>
      var r1 := RankBound(a, rank);
      var r2 := RankBound(b, rank);
      r := r1 + r2;
      RankJoin(a, r1, b, r2, rank);
    case Mux(a, b, c) =>
      var r1 := RankBound(a, rank);
      var r2 := RankBound(b, rank);
      var r3 := RankBound(c, rank);
      r := r1 + r2 + r3;
      RankLater(b, rank, r2, r2 + r3);
      RankJoin(a, r1, b, r2 + r3, rank);
      RankLater(c, rank, r3, r);
    case Eq(p, q) =>
      var r1 := SigRankBound(p, rank);
      var r2 := SigRankBound(q, rank);
      r := r1 + r2;
      SigRankLater(p, rank, r1, r);
      SigRankLater(q, rank, r2, r);
  }

  lemma RankJoin(a: Bit, r1: nat, b: Bit, r2: nat, rank: Rank)
    requires RankBelow(a, rank, r1) && RankBelow(b, rank, r2)
    ensures RankBelow(a, rank, r1 + r2) && RankBelow(b, rank, r1 + r2)
  {
    RankLater(a, rank, r1, r1 + r2);
    RankLater(b, rank, r2, r1 + r2);
  }

  lemma SigRankLater(x: Sig, rank: Rank, r: nat, r': nat)
    requires SigRankBelow(x, rank, r) && r <= r'
    ensures SigRankBelow(x, rank, r')
  {
    forall i | 0 <= i < |x| ensures RankBelow(x[i], rank, r') { RankLater(x[i], rank, r, r'); }
  }

  lemma {:induction false} SigRankBound(x: Sig, rank: Rank) returns (r: nat)
    ensures SigRankBelow(x, rank, r)
    decreases x
  {
    r := 0;
    for k := 0 to |x|
      invariant SigRankBelow(x[..k], rank, r)
    {
      var r' := RankBound(x[k], rank);
      SigRankLater(x[..k], rank, r, r + r');
      RankLater(x[k], rank, r', r + r');
      r := r + r';
    }
    assert x[..|x|] == x;
  }

  // ---------------------------------------------------------------- other changes

  /** Nothing that matters within an instant has changed. */
  ghost predicate SameNetlist(a: MemView, b: MemView) {
    && b.ffs == a.ffs && b.cells == a.cells && b.nextWire == a.nextWire && |b.rd| == |a.rd| && |b.wr| == |a.wr|
    && (forall n :: 0 <= n < |a.rd| ==>
         var p, q := a.rd[n], b.rd[n];
         q.clkEnable == p.clkEnable && q.clk == p.clk && q.arst == p.arst && q.addr == p.addr && q.data == p.data)
    && (forall k :: 0 <= k < |a.wr| ==> b.wr[k].clk == a.wr[k].clk)
  }

  lemma SameLoopfree(a: MemView, b: MemView)
    requires SameNetlist(a, b)
    ensures Loopfree(a) ==> Loopfree(b)
  {
    if Loopfree(a) {
      var owner: Owner, rank: Rank :| Placed(a, owner, rank) && Backed(a, owner);
      hide Placed, Backed, Numbered, SameNetlist;
      SamePlaced(a, b, owner, rank);
      SameNumbered(a, b);
    }
  }

  lemma SamePlaced(a: MemView, b: MemView, owner: Owner, rank: Rank)
    requires SameNetlist(a, b) && Placed(a, owner, rank) && Backed(a, owner)
    ensures Placed(b, owner, rank) && Backed(b, owner)
  {
    hide RankBelow, FfPlaced, CellPlaced;
    forall n | 0 <= n < |b.rd| ensures PortPlaced(b.rd[n], n, b.wr, owner, rank) {
      assert PortPlaced(a.rd[n], n, a.wr, owner, rank);
      forall i | 0 <= i < |b.rd[n].data| ensures PortReads(b.rd[n], b.wr, rank, rank(b.rd[n].data[i].id)) {
        assert PortReads(a.rd[n], a.wr, rank, rank(a.rd[n].data[i].id));
      }
    }
    forall w | w in owner ensures DrivenBy(b, w, owner[w]) { assert DrivenBy(a, w, owner[w]); }
  }

  lemma SameNumbered(a: MemView, b: MemView)
    requires SameNetlist(a, b) && Numbered(a)
    ensures Numbered(b)
  {
    hide Below;
    forall w: nat | Driven(b, w) ensures w < b.nextWire {
      var d :| DrivenBy(b, w, d);
      assert DrivenBy(a, w, d);
      assert Driven(a, w);
    }
  }

  /** The register of a clocked read port moves to its data output: the port becomes asynchronous on new wires. */
  ghost predicate OutputMoved(a: MemView, b: MemView, idx: nat) {
    && idx < |a.rd| && Extends(a, b, idx) && |b.ffs| == |a.ffs| + 1 && b.cells == a.cells
    && b.nextWire == a.nextWire + |a.rd[idx].data|
    && a.rd[idx].clkEnable && !b.rd[idx].clkEnable && b.rd[idx].addr == a.rd[idx].addr && b.rd[idx].clk.Const?
    && b.rd[idx].arst.Const?
    && b.rd[idx].data == Fresh(a.nextWire, |a.rd[idx].data|)
    && var f := b.ffs[|a.ffs|];
       f.Valid() && !f.hasAload && !f.hasSr && (f.hasClk ==> f.sigClk == a.rd[idx].clk) &&
           (f.hasArst ==> f.sigArst == a.rd[idx].arst) && f.sigQ == a.rd[idx].data
  }

  function FreshSet(first: nat, n: nat): (s: set<nat>)
    ensures forall w :: w in s <==> first <= w < first + n
  {
    if n == 0 then {} else FreshSet(first, n - 1) + {first + n - 1}
  }

  ghost function OutputOwner(a: MemView, owner: Owner, idx: nat, s: set<nat>): Owner {
    map w | w in owner.Keys + s && (w in s || (owner[w].PortD? && owner[w].p == idx)) ::
      if w in s then PortD(idx, if w >= a.nextWire then w - a.nextWire else 0) else FfQ(|a.ffs|, owner[w].i)
  }

  function Constantly(r: nat): Rank { (w: nat) => r }

  lemma OutputPlaced(a: MemView, b: MemView, idx: nat, owner: Owner, rank: Rank, s: set<nat>, r: nat)
    requires Placed(a, owner, rank) && Backed(a, owner) && OutputMoved(a, b, idx) && Unused(a, s) &&
        s == FreshSet(a.nextWire, |a.rd[idx].data|)
    requires SigRankBelow(a.rd[idx].addr, rank, r) && forall k :: 0 <= k < |a.wr| ==> RankBelow(a.wr[k].clk, rank, r)
    ensures Placed(b, NewOwner(owner, idx, OutputOwner(a, owner, idx, s)), Spread(rank, s, Constantly(4 * r)))
  {
    hide RankBelow, Avoids, FfPlaced, PortPlaced, CellPlaced, Unused, OutputOwner, NewOwner, Spread;
    var added, place := OutputOwner(a, owner, idx, s), Constantly(4 * r);
    OutputFfPlaced(a, b, idx, owner, rank, s, place);
    OutputPortPlaced(a, b, idx, owner, rank, s, r);
    OutputTakes(a, owner, idx, s);
    Rewired(a, b, idx, s, owner, rank, added, place);
  }

  lemma OutputTakes(a: MemView, owner: Owner, idx: nat, s: set<nat>)
    ensures Takes(owner, idx, s, OutputOwner(a, owner, idx, s))
  {
  }

  /** The data wires of a port that is taken over. */
  lemma OldData(a: MemView, idx: nat, owner: Owner, rank: Rank, s: set<nat>, i: nat)
    requires Placed(a, owner, rank) && Unused(a, s) && idx < |a.rd| && i < |a.rd[idx].data|
    ensures Owns(owner, a.rd[idx].data[i], PortD(idx, i)) &&
        PortReads(a.rd[idx], a.wr, rank, rank(a.rd[idx].data[i].id)) && a.rd[idx].data[i].id !in s
  {
    hide PortReads, Avoids, FfAvoids;
    PlacedPort(a, owner, rank, idx, i);
    assert DrivenBy(a, a.rd[idx].data[i].id, PortD(idx, i));
    assert Driven(a, a.rd[idx].data[i].id);
  }

  lemma OutputFfPlaced(a: MemView, b: MemView, idx: nat, owner: Owner, rank: Rank, s: set<nat>, place: Rank)
    requires Placed(a, owner, rank) && OutputMoved(a, b, idx) && Unused(a, s)
    ensures FfPlaced(b.ffs[|a.ffs|], |a.ffs|, NewOwner(owner, idx, OutputOwner(a, owner, idx, s)),
        Spread(rank, s, place))
  {
    hide RankBelow, Avoids, Placed, Unused;
    var owner', rank' := NewOwner(owner, idx, OutputOwner(a, owner, idx, s)), Spread(rank, s, place);
    var p, f := a.rd[idx], b.ffs[|a.ffs|];
    PortAvoids(a, s, idx);
    forall i | 0 <= i < |p.data|
      ensures Owns(owner', p.data[i], FfQ(|a.ffs|, i)) && FfReads(f, i, rank', rank'(p.data[i].id))
    {
      OldData(a, idx, owner, rank, s, i);
      SpreadPort(p, a.wr, rank, rank(p.data[i].id), s, place, 4 * rank(p.data[i].id) + 3);
    }
  }

  lemma OutputPortPlaced(a: MemView, b: MemView, idx: nat, owner: Owner, rank: Rank, s: set<nat>, r: nat)
    requires OutputMoved(a, b, idx) && Unused(a, s) && s == FreshSet(a.nextWire, |a.rd[idx].data|)
    requires SigRankBelow(a.rd[idx].addr, rank, r) && forall k :: 0 <= k < |a.wr| ==> RankBelow(a.wr[k].clk, rank, r)
    ensures PortPlaced(b.rd[idx], idx, b.wr, NewOwner(owner, idx, OutputOwner(a, owner, idx, s)),
        Spread(rank, s, Constantly(4 * r)))
  {
    hide FreshSet, RankBelow, Avoids, Unused;
    var place := Constantly(4 * r);
    var owner', rank' := NewOwner(owner, idx, OutputOwner(a, owner, idx, s)), Spread(rank, s, place);
    var q := b.rd[idx];
    PortAvoids(a, s, idx);
    forall x: Bit | RankBelow(x, rank, r) && Avoids(x, s) ensures RankBelow(x, rank', 4 * r) {
      SpreadBelow(x, rank, r, s, place);
    }
    forall i | 0 <= i < |q.data|
      ensures Owns(owner', q.data[i], PortD(idx, i)) && PortReads(q, b.wr, rank', rank'(q.data[i].id))
    {
      assert q.data[i] == Wire(a.nextWire + i);
    }
  }

  lemma OutputBacked(a: MemView, b: MemView, idx: nat, owner: Owner, s: set<nat>)
    requires Backed(a, owner) && OutputMoved(a, b, idx) && s == FreshSet(a.nextWire, |a.rd[idx].data|)
    ensures Backed(b, NewOwner(owner, idx, OutputOwner(a, owner, idx, s)))
  {
    hide FreshSet;
    var owner' := NewOwner(owner, idx, OutputOwner(a, owner, idx, s));
    forall w | w in owner' ensures DrivenBy(b, w, owner'[w]) {
      if w in s {
        assert b.rd[idx].data[w - a.nextWire] == Wire(w);
      } else {
        assert w in owner && owner'[w] == if owner[w].PortD? &&
            owner[w].p == idx then FfQ(|a.ffs|, owner[w].i) else owner[w];
        OutputKept(a, b, idx, w, owner[w]);
      }
    }
  }

  lemma OutputKept(a: MemView, b: MemView, idx: nat, w: nat, d: Driver)
    requires OutputMoved(a, b, idx) && DrivenBy(a, w, d)
    ensures DrivenBy(b, w, if d.PortD? && d.p == idx then FfQ(|a.ffs|, d.i) else d)
  {
  }

  lemma OutputNumbered(a: MemView, b: MemView, idx: nat)
    requires Numbered(a) && OutputMoved(a, b, idx)
    ensures Numbered(b)
  {
    hide Below;
    var n := b.nextWire;
    forall x: Bit | Below(x, a.nextWire) ensures Below(x, n) { BelowLater(x, a.nextWire, n); }
    forall x: Bit | x.Const? ensures Below(x, n) { ConstBelow(x, n); }
    forall k | 0 <= k < |b.ffs| ensures b.ffs[k].Valid() && FfBelow(b.ffs[k], n) {
      if k < |a.ffs| { assert FfBelow(a.ffs[k], a.nextWire) && b.ffs[k] == a.ffs[k]; }
    }
    forall m | 0 <= m < |b.rd| ensures Below(b.rd[m].clk, n) && Below(b.rd[m].arst, n) && SigBelow(b.rd[m].addr, n) {
      assert Below(a.rd[m].clk, a.nextWire) && Below(a.rd[m].arst, a.nextWire) && SigBelow(a.rd[m].addr, a.nextWire);
    }
    forall w: nat | Driven(b, w) ensures w < n {
      var d :| DrivenBy(b, w, d);
      if d.PortD? && d.p == idx {
        assert b.rd[idx].data[d.i] == Wire(a.nextWire + d.i);
      } else {
        var d' := if d.FfQ? && d.k == |a.ffs| then PortD(idx, d.i) else d;
        assert DrivenBy(a, w, d');
        assert Driven(a, w);
      }
    }
  }

  lemma OutputLoopfree(a: MemView, b: MemView, idx: nat)
    requires OutputMoved(a, b, idx)
    ensures Loopfree(a) ==> Loopfree(b)
  {
    if Loopfree(a) {
      var owner: Owner, rank: Rank :| Placed(a, owner, rank) && Backed(a, owner);
      hide Placed, Backed, RankBelow;
      var s := FreshSet(a.nextWire, |a.rd[idx].data|);
      FreshUnused(a, s);
      var r := ReadsBound(a, idx, rank);
      OutputPlaced(a, b, idx, owner, rank, s, r);
      OutputBacked(a, b, idx, owner, s);
      OutputNumbered(a, b, idx);
    }
  }

  lemma ReadsBound(a: MemView, idx: nat, rank: Rank) returns (r: nat)
    requires idx < |a.rd|
    ensures SigRankBelow(a.rd[idx].addr, rank, r) && forall k :: 0 <= k < |a.wr| ==> RankBelow(a.wr[k].clk, rank, r)
  {
    hide RankBelow;
    r := SigRankBound(a.rd[idx].addr, rank);
    for k := 0 to |a.wr|
      invariant SigRankBelow(a.rd[idx].addr, rank, r) && forall j :: 0 <= j < k ==> RankBelow(a.wr[j].clk, rank, r)
    {
      var r' := RankBound(a.wr[k].clk, rank);
      SigRankLater(a.rd[idx].addr, rank, r, r + r');
      forall j | 0 <= j < k ensures RankBelow(a.wr[j].clk, rank, r + r') { RankLater(a.wr[j].clk, rank, r, r + r'); }
      RankLater(a.wr[k].clk, rank, r', r + r');
      r := r + r';
    }
  }

  /** The register of a clocked read port moves to its address input: the port becomes asynchronous on the same data
      wires. */
  ghost predicate AddressMovedOut(a: MemView, b: MemView, idx: nat) {
    && idx < |a.rd| && Extends(a, b, idx) && |b.ffs| <= |a.ffs| + 1 && b.cells == a.cells && a.nextWire <= b.nextWire
    && a.rd[idx].clkEnable && !b.rd[idx].clkEnable && b.rd[idx].clk.Const? && b.rd[idx].arst.Const?
    && b.rd[idx].data == a.rd[idx].data && |a.rd[idx].data| > 0
    && (forall i ::
       0 <= i < |b.rd[idx].addr| ==>
       b.rd[idx].addr[i].Const? || (b.rd[idx].addr[i].Wire? && a.nextWire <= b.rd[idx].addr[i].id < b.nextWire))
    && (|b.ffs| == |a.ffs| ==> b.nextWire == a.nextWire)
    && (|b.ffs| > |a.ffs| ==> var f := b.ffs[|a.ffs|];
         && f.Valid() && !f.hasAload && !f.hasSr && !f.hasArst && (f.hasClk ==> f.sigClk == a.rd[idx].clk)
         && f.sigQ == Fresh(a.nextWire, f.width) && b.nextWire == a.nextWire + f.width)
  }

  ghost function AddressOwner(a: MemView, owner: Owner, idx: nat, s: set<nat>): Owner {
    map w | w in owner.Keys + s && (w in s || (owner[w].PortD? && owner[w].p == idx)) ::
      if w in s then FfQ(|a.ffs|, if w >= a.nextWire then w - a.nextWire else 0) else owner[w]
  }

  lemma AddressPlaced(a: MemView, b: MemView, idx: nat, owner: Owner, rank: Rank, s: set<nat>, j: nat)
    requires Placed(a, owner, rank) && Backed(a, owner) && AddressMovedOut(a, b, idx) && Unused(a, s) &&
        s == FreshSet(a.nextWire, b.nextWire - a.nextWire)
    requires j < |a.rd[idx].data| && a.rd[idx].data[j].Wire?
    requires forall i ::
        0 <= i < |a.rd[idx].data| && a.rd[idx].data[i].Wire? ==>
        rank(a.rd[idx].data[j].id) <= rank(a.rd[idx].data[i].id)
    ensures Placed(b, NewOwner(owner, idx, AddressOwner(a, owner, idx, s)),
        Spread(rank, s, Constantly(4 * rank(a.rd[idx].data[j].id))))
  {
    hide RankBelow, Avoids, FfPlaced, PortPlaced, CellPlaced, Unused, AddressOwner, NewOwner, Spread;
    var least := rank(a.rd[idx].data[j].id);
    var added, place := AddressOwner(a, owner, idx, s), Constantly(4 * least);
    AddressFfPlaced(a, b, idx, owner, rank, s, j);
    AddressPortPlaced(a, b, idx, owner, rank, s, j);
    AddressTakes(a, owner, idx, s);
    Rewired(a, b, idx, s, owner, rank, added, place);
  }

  lemma AddressTakes(a: MemView, owner: Owner, idx: nat, s: set<nat>)
    ensures Takes(owner, idx, s, AddressOwner(a, owner, idx, s))
  {
  }

  lemma AddressFfPlaced(a: MemView, b: MemView, idx: nat, owner: Owner, rank: Rank, s: set<nat>, j: nat)
    requires Placed(a, owner, rank) && AddressMovedOut(a, b, idx) && Unused(a, s) &&
        s == FreshSet(a.nextWire, b.nextWire - a.nextWire)
    requires j < |a.rd[idx].data| && a.rd[idx].data[j].Wire?
    ensures |b.ffs| > |a.ffs| ==>
      FfPlaced(b.ffs[|a.ffs|], |a.ffs|, NewOwner(owner, idx, AddressOwner(a, owner, idx, s)),
          Spread(rank, s, Constantly(4 * rank(a.rd[idx].data[j].id))))
  {
    hide FreshSet, RankBelow, Avoids, Placed, Unused;
    var p, least := a.rd[idx], rank(a.rd[idx].data[j].id);
    var place := Constantly(4 * least);
    var owner', rank' := NewOwner(owner, idx, AddressOwner(a, owner, idx, s)), Spread(rank, s, place);
    PortAvoids(a, s, idx);
    OldData(a, idx, owner, rank, s, j);
    SpreadPort(p, a.wr, rank, least, s, place, 4 * least);
    if |b.ffs| > |a.ffs| {
      var f := b.ffs[|a.ffs|];
      forall i | 0 <= i < f.width
        ensures Owns(owner', f.sigQ[i], FfQ(|a.ffs|, i)) && FfReads(f, i, rank', rank'(f.sigQ[i].id))
      {
        assert f.sigQ[i] == Wire(a.nextWire + i);
      }
    }
  }

  lemma AddressPortPlaced(a: MemView, b: MemView, idx: nat, owner: Owner, rank: Rank, s: set<nat>, j: nat)
    requires Placed(a, owner, rank) && AddressMovedOut(a, b, idx) && Unused(a, s) &&
        s == FreshSet(a.nextWire, b.nextWire - a.nextWire)
    requires j < |a.rd[idx].data| && a.rd[idx].data[j].Wire?
    requires forall i ::
        0 <= i < |a.rd[idx].data| && a.rd[idx].data[i].Wire? ==>
        rank(a.rd[idx].data[j].id) <= rank(a.rd[idx].data[i].id)
    ensures PortPlaced(b.rd[idx], idx, b.wr, NewOwner(owner, idx, AddressOwner(a, owner, idx, s)),
        Spread(rank, s, Constantly(4 * rank(a.rd[idx].data[j].id))))
  {
    hide FreshSet, RankBelow, Avoids, Placed, Unused;
    var p, q, least := a.rd[idx], b.rd[idx], rank(a.rd[idx].data[j].id);
    var place := Constantly(4 * least);
    var owner', rank' := NewOwner(owner, idx, AddressOwner(a, owner, idx, s)), Spread(rank, s, place);
    PortAvoids(a, s, idx);
    forall i | 0 <= i < |q.data|
      ensures Owns(owner', q.data[i], PortD(idx, i)) && PortReads(q, b.wr, rank', rank'(q.data[i].id))
    {
      OldData(a, idx, owner, rank, s, i);
      var w := p.data[i].id;
      SpreadPort(p, a.wr, rank, rank(w), s, place, 4 * rank(w) + 3);
      forall k | 0 <= k < |q.addr| ensures RankBelow(q.addr[k], rank', 4 * rank(w) + 3) {
        AddressBit(q.addr[k], rank', 4 * rank(w) + 3);
      }
    }
  }

  lemma AddressBit(x: Bit, rank: Rank, r: nat)
    requires x.Const? || (x.Wire? && rank(x.id) < r)
    ensures RankBelow(x, rank, r)
  {
  }

  lemma AddressLoopfree(a: MemView, b: MemView, idx: nat)
    requires AddressMovedOut(a, b, idx)
    ensures Loopfree(a) ==> Loopfree(b)
  {
    if Loopfree(a) {
      var owner: Owner, rank: Rank :| Placed(a, owner, rank) && Backed(a, owner);
      var j := FindLeast(a, idx, owner, rank);
      hide Placed, RankBelow;
      var s := FreshSet(a.nextWire, b.nextWire - a.nextWire);
      FreshUnused(a, s);
      AddressPlaced(a, b, idx, owner, rank, s, j);
      AddressBacked(a, b, idx, owner, s);
      AddressNumbered(a, b, idx);
    }
  }

  lemma AddressBacked(a: MemView, b: MemView, idx: nat, owner: Owner, s: set<nat>)
    requires Backed(a, owner) && AddressMovedOut(a, b, idx) && s == FreshSet(a.nextWire, b.nextWire - a.nextWire)
    ensures Backed(b, NewOwner(owner, idx, AddressOwner(a, owner, idx, s)))
  {
    var owner' := NewOwner(owner, idx, AddressOwner(a, owner, idx, s));
    forall w | w in owner' ensures DrivenBy(b, w, owner'[w]) {
      if w in s {
        assert |b.ffs| > |a.ffs| && b.ffs[|a.ffs|].sigQ[w - a.nextWire] == Wire(w);
      } else {
        assert w in owner && owner'[w] == owner[w];
        AddressKept(a, b, idx, w, owner[w]);
      }
    }
  }

  lemma AddressKept(a: MemView, b: MemView, idx: nat, w: nat, d: Driver)
    requires AddressMovedOut(a, b, idx) && DrivenBy(a, w, d)
    ensures DrivenBy(b, w, d)
  {
  }

  lemma AddressNumbered(a: MemView, b: MemView, idx: nat)
    requires Numbered(a) && AddressMovedOut(a, b, idx)
    ensures Numbered(b)
  {
    hide Below;
    var n := b.nextWire;
    forall x: Bit | Below(x, a.nextWire) ensures Below(x, n) { BelowLater(x, a.nextWire, n); }
    forall x: Bit | x.Const? || (x.Wire? && x.id < n) ensures Below(x, n) { WireBelow(x, n); }
    forall k | 0 <= k < |b.ffs| ensures b.ffs[k].Valid() && FfBelow(b.ffs[k], n) {
      if k < |a.ffs| { assert FfBelow(a.ffs[k], a.nextWire) && b.ffs[k] == a.ffs[k]; }
    }
    forall m | 0 <= m < |b.rd| ensures Below(b.rd[m].clk, n) && Below(b.rd[m].arst, n) && SigBelow(b.rd[m].addr, n) {
      assert Below(a.rd[m].clk, a.nextWire) && Below(a.rd[m].arst, a.nextWire) && SigBelow(a.rd[m].addr, a.nextWire);
    }
    forall w: nat | Driven(b, w) ensures w < n {
      var d :| DrivenBy(b, w, d);
      if d.FfQ? && d.k == |a.ffs| {
        assert b.ffs[d.k].sigQ[d.i] == Wire(a.nextWire + d.i);
      } else {
        assert DrivenBy(a, w, d);
        assert Driven(a, w);
      }
    }
  }

  lemma WireBelow(x: Bit, n: nat)
    ensures x.Const? || (x.Wire? && x.id < n) ==> Below(x, n)
  {
  }

  /** Registers on the inputs of a write port: only registers in its clock domain are added. */
  ghost predicate WriterDelayed(a: MemView, b: MemView, clk: Bit) {
    && Extends(a, b, |a.rd|) && b.cells == a.cells && a.nextWire <= b.nextWire && Below(clk, a.nextWire)
    && (forall k ::
       |a.ffs| <= k < |b.ffs| ==>
       var f := b.ffs[k]; f.Valid() && !f.hasAload && !f.hasSr && !f.hasArst && (f.hasClk ==> f.sigClk == clk))
  }

  /** `who` says which of the new registers drives which of the new wires. */
  ghost predicate NewWires(a: MemView, b: MemView, who: Who) {
    && (forall k, i :: |a.ffs| <= k < |b.ffs| && 0 <= i < |b.ffs[k].sigQ| ==>
          var x := b.ffs[k].sigQ[i]; x.Wire? && a.nextWire <= x.id < b.nextWire && who(x.id) == FfQ(k, i))
    && (forall w :: a.nextWire <= w < b.nextWire ==> who(w).FfQ? && who(w).k >= |a.ffs| && DrivenBy(b, w, who(w)))
  }

  ghost function DelayOwner(s: set<nat>, who: Who): Owner {
    map w | w in s :: who(w)
  }

  lemma DelayLoopfree(a: MemView, b: MemView, clk: Bit, who: Who)
    requires WriterDelayed(a, b, clk) && NewWires(a, b, who)
    ensures Loopfree(a) ==> Loopfree(b)
  {
    if Loopfree(a) {
      var owner: Owner, rank: Rank :| Placed(a, owner, rank) && Backed(a, owner);
      var s := FreshSet(a.nextWire, b.nextWire - a.nextWire);
      var r := RankBound(clk, rank);
      hide RankBelow;
      FreshUnused(a, s);
      BelowAvoids(clk, a.nextWire, s);
      DelayPlaced(a, b, clk, who, owner, rank, s, r);
      DelayBacked(a, b, clk, who, owner, s);
      DelayNumbered(a, b, clk, who);
    }
  }

  lemma DelayPlaced(a: MemView, b: MemView, clk: Bit, who: Who, owner: Owner, rank: Rank, s: set<nat>, r: nat)
    requires WriterDelayed(a, b, clk) && NewWires(a, b, who) && Placed(a, owner, rank) && Backed(a, owner) &&
        Unused(a, s)
    requires s == FreshSet(a.nextWire, b.nextWire - a.nextWire) && RankBelow(clk, rank, r) && Avoids(clk, s)
    ensures Placed(b, NewOwner(owner, |a.rd|, DelayOwner(s, who)), Spread(rank, s, Constantly(4 * r)))
  {
    hide FreshSet, RankBelow, Avoids;
    var added, place := DelayOwner(s, who), Constantly(4 * r);
    var owner', rank' := NewOwner(owner, |a.rd|, added), Spread(rank, s, place);
    SpreadBelow(clk, rank, r, s, place);
    forall k | |a.ffs| <= k < |b.ffs| ensures FfPlaced(b.ffs[k], k, owner', rank') {
      var f := b.ffs[k];
      forall i | 0 <= i < f.width
        ensures Owns(owner', f.sigQ[i], FfQ(k, i)) && FfReads(f, i, rank', rank'(f.sigQ[i].id))
      {
        assert f.sigQ[i].Wire? && f.sigQ[i].id in s;
      }
    }
    Rewired(a, b, |a.rd|, s, owner, rank, added, place);
  }

  lemma DelayBacked(a: MemView, b: MemView, clk: Bit, who: Who, owner: Owner, s: set<nat>)
    requires WriterDelayed(a, b, clk) && NewWires(a, b, who) && Backed(a, owner) &&
        s == FreshSet(a.nextWire, b.nextWire - a.nextWire)
    ensures Backed(b, NewOwner(owner, |a.rd|, DelayOwner(s, who)))
  {
    var owner' := NewOwner(owner, |a.rd|, DelayOwner(s, who));
    forall w | w in owner' ensures DrivenBy(b, w, owner'[w]) {
      if w !in s {
        assert DrivenBy(a, w, owner[w]);
        KeptDriver(a, b, |a.rd|, w, owner[w]);
      }
    }
  }

  lemma DelayNumbered(a: MemView, b: MemView, clk: Bit, who: Who)
    requires WriterDelayed(a, b, clk) && NewWires(a, b, who) && Numbered(a)
    ensures Numbered(b)
  {
    hide Below;
    var n := b.nextWire;
    forall x: Bit | Below(x, a.nextWire) ensures Below(x, n) { BelowLater(x, a.nextWire, n); }
    forall k | 0 <= k < |b.ffs| ensures b.ffs[k].Valid() && FfBelow(b.ffs[k], n) {
      if k < |a.ffs| { assert FfBelow(a.ffs[k], a.nextWire) && b.ffs[k] == a.ffs[k]; }
    }
    forall w: nat | Driven(b, w) ensures w < n {
      var d :| DrivenBy(b, w, d);
      if d.FfQ? && d.k >= |a.ffs| {
        assert b.ffs[d.k].sigQ[d.i].Wire?;
      } else {
        assert DrivenBy(a, w, d);
        assert Driven(a, w);
      }
    }
  }

  // ---------------------------------------------------------------- splitting ports

  /** Read port `y` shows the data of port `from[y].0` from bit `from[y].1` on; `home` says where every bit went. */
  ghost predicate Resliced(a: MemView, b: MemView, from: seq<(nat, nat)>, clocks: seq<nat>,
      home: (nat, nat) -> (nat, nat))
  {
    && b.ffs == a.ffs && b.cells == a.cells && b.nextWire == a.nextWire && |from| == |b.rd| && |clocks| == |b.wr|
    && (forall k :: 0 <= k < |b.wr| ==> clocks[k] < |a.wr| && b.wr[k].clk == a.wr[clocks[k]].clk)
    && (forall y :: 0 <= y < |b.rd| ==> SliceOf(a, b.rd[y], y, from[y], home))
    && (forall n: nat, j: nat :: n < |a.rd| && j < |a.rd[n].data| ==> InSlice(b, from, home(n, j), n, j))
  }

  ghost predicate SliceOf(a: MemView, q: MemRd, y: nat, at: (nat, nat), home: (nat, nat) -> (nat, nat)) {
    && at.0 < |a.rd| && at.1 + |q.data| <= |a.rd[at.0].data| && q.data == a.rd[at.0].data[at.1..at.1 + |q.data|]
    && q.clkEnable == a.rd[at.0].clkEnable && q.clk == a.rd[at.0].clk && q.arst == a.rd[at.0].arst
    && (forall i :: 0 <= i < |q.addr| ==> q.addr[i].Const? || q.addr[i] in a.rd[at.0].addr)
    && (forall j: nat :: j < |q.data| ==> home(at.0, at.1 + j) == (y, j))
  }

  predicate InSlice(b: MemView, from: seq<(nat, nat)>, here: (nat, nat), n: nat, j: nat) {
    here.0 < |b.rd| == |from| && here.1 < |b.rd[here.0].data| && from[here.0] == (n, j - here.1)
  }

  ghost function SliceOwner(owner: Owner, home: (nat, nat) -> (nat, nat)): Owner {
    map w | w in owner :: if owner[w].PortD? then var h := home(owner[w].p, owner[w].i); PortD(h.0, h.1) else owner[w]
  }

  lemma ReslicedPort(a: MemView, b: MemView, from: seq<(nat, nat)>, clocks: seq<nat>, home: (nat, nat) -> (nat, nat),
      owner: Owner, rank: Rank, y: nat)
    requires Resliced(a, b, from, clocks, home) && Placed(a, owner, rank) && y < |b.rd|
    ensures PortPlaced(b.rd[y], y, b.wr, SliceOwner(owner, home), rank)
  {
    hide RankBelow;
    var q, at := b.rd[y], from[y];
    assert SliceOf(a, q, y, at, home);
    var p := a.rd[at.0];
    forall j | 0 <= j < |q.data|
      ensures Owns(SliceOwner(owner, home), q.data[j], PortD(y, j)) && PortReads(q, b.wr, rank, rank(q.data[j].id))
    {
      PlacedPort(a, owner, rank, at.0, at.1 + j);
      assert q.data[j] == p.data[at.1 + j] && home(at.0, at.1 + j) == (y, j);
      forall i | 0 <= i < |q.addr| && !q.clkEnable ensures RankBelow(q.addr[i], rank, rank(q.data[j].id)) {
        if q.addr[i].Const? { AddressBit(q.addr[i], rank, rank(q.data[j].id)); }
      }
    }
  }

  lemma ReslicedBacked(a: MemView, b: MemView, from: seq<(nat, nat)>, clocks: seq<nat>,
      home: (nat, nat) -> (nat, nat), owner: Owner)
    requires Resliced(a, b, from, clocks, home) && Backed(a, owner)
    ensures Backed(b, SliceOwner(owner, home))
  {
    forall w | w in owner ensures DrivenBy(b, w, SliceOwner(owner, home)[w]) {
      assert DrivenBy(a, w, owner[w]);
      if owner[w].PortD? { SliceDriven(a, b, from, clocks, home, owner[w].p, owner[w].i); }
    }
  }

  lemma SliceDriven(a: MemView, b: MemView, from: seq<(nat, nat)>, clocks: seq<nat>, home: (nat, nat) -> (nat, nat),
      n: nat, j: nat)
    requires Resliced(a, b, from, clocks, home) && n < |a.rd| && j < |a.rd[n].data|
    ensures var h := home(n, j); h.0 < |b.rd| && h.1 < |b.rd[h.0].data| && b.rd[h.0].data[h.1] == a.rd[n].data[j]
  {
    var h := home(n, j);
    assert InSlice(b, from, h, n, j);
    assert SliceOf(a, b.rd[h.0], h.0, from[h.0], home);
  }

  lemma ReslicedNumbered(a: MemView, b: MemView, from: seq<(nat, nat)>, clocks: seq<nat>,
      home: (nat, nat) -> (nat, nat))
    requires Resliced(a, b, from, clocks, home) && Numbered(a)
    ensures Numbered(b)
  {
    hide Below;
    var n := b.nextWire;
    forall x: Bit | x.Const? ensures Below(x, n) { ConstBelow(x, n); }
    forall y | 0 <= y < |b.rd| ensures Below(b.rd[y].clk, n) && Below(b.rd[y].arst, n) && SigBelow(b.rd[y].addr, n) {
      assert SliceOf(a, b.rd[y], y, from[y], home);
      assert SigBelow(a.rd[from[y].0].addr, n);
    }
    forall w: nat | Driven(b, w) ensures w < n {
      var d :| DrivenBy(b, w, d);
      if d.PortD? { assert SliceOf(a, b.rd[d.p], d.p, from[d.p], home); }
      assert DrivenBy(a, w, if d.PortD? then PortD(from[d.p].0, from[d.p].1 + d.i) else d);
      assert Driven(a, w);
    }
  }

  lemma ReslicedLoopfree(a: MemView, b: MemView, from: seq<(nat, nat)>, clocks: seq<nat>,
      home: (nat, nat) -> (nat, nat))
    requires Resliced(a, b, from, clocks, home)
    ensures Loopfree(a) ==> Loopfree(b)
  {
    if Loopfree(a) {
      var owner: Owner, rank: Rank :| Placed(a, owner, rank) && Backed(a, owner);
      var owner' := SliceOwner(owner, home);
      forall y | 0 <= y < |b.rd| ensures PortPlaced(b.rd[y], y, b.wr, owner', rank) {
        ReslicedPort(a, b, from, clocks, home, owner, rank, y);
      }
      hide RankBelow, PortPlaced;
      forall k | 0 <= k < |b.ffs| ensures FfPlaced(b.ffs[k], k, owner', rank) {
        assert FfPlaced(a.ffs[k], k, owner, rank);
      }
      forall k | 0 <= k < |b.cells| ensures CellPlaced(b.cells[k], k, owner', rank) {
        assert CellPlaced(a.cells[k], k, owner, rank);
      }
      assert Placed(b, owner', rank);
      ReslicedBacked(a, b, from, clocks, home, owner);
      ReslicedNumbered(a, b, from, clocks, home);
    }
  }
}
