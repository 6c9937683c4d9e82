/**
 Initial contents of a memory: merging the overlapping and touching initialisers of `Mem` keeps, bit by bit,
 what the last writer left.

 Bits are numbered flatly: bit `b` of address `a` is number `a * width + b`.
 */
module MemInits {
  import opened Signals

  datatype MemInit = MemInit(removed: bool, addr: int, data: seq<State>, en: seq<State>)

  predicate WellFormed(init: MemInit, w: nat) {
    w > 0 && |init.en| == w && |init.data| % w == 0
  }

  function AddrEnd(init: MemInit, w: nat): int
    requires w > 0
  {
    init.addr + |init.data| / w
  }

  // ---------------------------------------------------------------- last writer wins

  predicate InRange(init: MemInit, w: nat, p: int) {
    init.addr * w <= p < init.addr * w + |init.data|
  }

  predicate Covers(init: MemInit, w: nat, p: int)
    requires WellFormed(init, w)
  {
    !init.removed && InRange(init, w, p) && init.en[(p - init.addr * w) % w] == S1
  }

  predicate AllFormed(inits: seq<MemInit>, w: nat) {
    forall i :: 0 <= i < |inits| ==> WellFormed(inits[i], w)
  }

  /** The initial state of bit `p`: what the last initialiser that covers it says. */
  function InitAt(inits: seq<MemInit>, w: nat, p: int): State
    requires AllFormed(inits, w)
  {
    if |inits| == 0 then Sx
    else
      var last := inits[|inits| - 1];
      if Covers(last, w, p) then last.data[p - last.addr * w] else InitAt(inits[..|inits| - 1], w, p)
  }

  lemma {:induction false} LastCover(inits: seq<MemInit>, w: nat, p: int) returns (k: int)
    requires AllFormed(inits, w)
    ensures -1 <= k < |inits|
    ensures forall i :: k < i < |inits| ==> !Covers(inits[i], w, p)
    ensures k >= 0 ==> Covers(inits[k], w, p)
    ensures InitAt(inits, w, p) == if k < 0 then Sx else inits[k].data[p - inits[k].addr * w]
  {
    if |inits| == 0 {
      k := -1;
    } else if Covers(inits[|inits| - 1], w, p) {
      k := |inits| - 1;
    } else {
      k := LastCover(inits[..|inits| - 1], w, p);
    }
  }

  /** Initialisers that cover `p` at the same places with the same states. */
  ghost predicate SameCover(x: MemInit, y: MemInit, w: nat, p: int)
    requires WellFormed(x, w) && WellFormed(y, w)
  {
    && (Covers(x, w, p) <==> Covers(y, w, p))
    && (Covers(x, w, p) ==> x.data[p - x.addr * w] == y.data[p - y.addr * w])
  }

  lemma {:induction false} SameInit(before: seq<MemInit>, after: seq<MemInit>, w: nat, p: int)
    requires AllFormed(before, w) && AllFormed(after, w) && |before| <= |after|
    requires forall i :: 0 <= i < |before| ==> SameCover(before[i], after[i], w, p)
    requires forall i :: |before| <= i < |after| ==> !Covers(after[i], w, p)
    ensures InitAt(before, w, p) == InitAt(after, w, p)
  {
    hide InitAt, Covers;
    var k := LastCover(before, w, p);
    var k' := LastCover(after, w, p);
    assert k >= 0 ==> SameCover(before[k], after[k], w, p);
    assert 0 <= k' < |before| ==> SameCover(before[k'], after[k'], w, p);
  }

  function Selected(inits: seq<MemInit>, list: seq<nat>): (s: seq<MemInit>)
    requires forall j :: 0 <= j < |list| ==> list[j] < |inits|
    ensures |s| == |list| && forall j :: 0 <= j < |list| ==> s[j] == inits[list[j]]
  {
    seq(|list|, j requires 0 <= j < |list| => inits[list[j]])
  }

  predicate Increasing(list: seq<nat>) {
    forall i, j :: 0 <= i < j < |list| ==> list[i] < list[j]
  }

  /** Only the selected initialisers matter for a bit that no other one covers. */
  lemma SelectedSame(inits: seq<MemInit>, list: seq<nat>, w: nat, p: int)
    requires AllFormed(inits, w) && Increasing(list) && forall j :: 0 <= j < |list| ==> list[j] < |inits|
    requires forall i :: 0 <= i < |inits| && Covers(inits[i], w, p) ==> i in list
    ensures AllFormed(Selected(inits, list), w) && InitAt(Selected(inits, list), w, p) == InitAt(inits, w, p)
  {
    hide InitAt, Covers, WellFormed;
    var k := LastCover(inits, w, p);
    var j := LastCover(Selected(inits, list), w, p);
    if k >= 0 {
      var m :| 0 <= m < |list| && list[m] == k;
      assert Selected(inits, list)[m] == inits[k];
      assert m == j;
    }
  }

  // ---------------------------------------------------------------- chunks of addresses

  datatype Chunk = Chunk(from: int, to: int)

  /** In order, with at least one free address between any two. */
  predicate Separated(chunks: seq<Chunk>) {
    && (forall i :: 0 <= i < |chunks| ==> chunks[i].from <= chunks[i].to)
    && (forall i, j :: 0 <= i < j < |chunks| ==> chunks[i].to < chunks[j].from)
  }

  ghost predicate Touched(chunks: seq<Chunk>, x: int) {
    exists i :: 0 <= i < |chunks| && chunks[i].from <= x < chunks[i].to
  }

  predicate Within(chunk: Chunk, from: int, to: int) {
    chunk.from <= from && to <= chunk.to
  }

  ghost predicate Inside(chunks: seq<Chunk>, from: int, to: int) {
    exists i :: 0 <= i < |chunks| && Within(chunks[i], from, to)
  }

  /** First chunk that starts after `x`. */
  method UpperBound(chunks: seq<Chunk>, x: int) returns (k: nat)
    requires Separated(chunks)
    ensures k <= |chunks|
    ensures forall i :: 0 <= i < k ==> chunks[i].from <= x
    ensures forall i :: k <= i < |chunks| ==> chunks[i].from > x
  {
    k := 0;
    while k < |chunks| && chunks[k].from <= x
      invariant k <= |chunks| && forall i :: 0 <= i < k ==> chunks[i].from <= x
    {
      k := k + 1;
    }
  }

  /** The chunks from `it` to `itEnd` give way to one that spans them and the new addresses. */
  ghost predicate Splicing(chunks: seq<Chunk>, it: nat, itEnd: nat, addr: int, addrEnd: int, c: Chunk) {
    && Separated(chunks) && it <= itEnd <= |chunks| && addr <= addrEnd
    && (forall i :: 0 <= i < it ==> chunks[i].to < addr)
    && (forall i :: it <= i < itEnd ==> chunks[i].from <= addrEnd && addr <= chunks[i].to)
    && (forall i :: itEnd <= i < |chunks| ==> addrEnd < chunks[i].from)
    && c.from == (if it < itEnd && chunks[it].from < addr then chunks[it].from else addr)
    && c.to == (if it < itEnd && chunks[itEnd - 1].to > addrEnd then chunks[itEnd - 1].to else addrEnd)
  }

  lemma Merged(chunks: seq<Chunk>, it: nat, itEnd: nat, addr: int, addrEnd: int, c: Chunk)
    requires Splicing(chunks, it, itEnd, addr, addrEnd, c)
    ensures Within(c, addr, addrEnd)
    ensures forall i :: it <= i < itEnd ==> Within(c, chunks[i].from, chunks[i].to)
    ensures forall i :: 0 <= i < it ==> chunks[i].to < c.from
    ensures forall i :: itEnd <= i < |chunks| ==> c.to < chunks[i].from
  {
  }

  /** What the spanning chunk holds was there before or is new. */
  lemma MergedTouched(chunks: seq<Chunk>, it: nat, itEnd: nat, addr: int, addrEnd: int, c: Chunk, x: int)
    requires Splicing(chunks, it, itEnd, addr, addrEnd, c) && c.from <= x < c.to
    ensures Touched(chunks, x) || addr <= x < addrEnd
  {
    if x < addr {
      assert chunks[it].from <= x < chunks[it].to;
    } else if x >= addrEnd {
      assert chunks[itEnd - 1].from <= x < chunks[itEnd - 1].to;
    }
  }

  /** Where a chunk has gone. */
  function NewPlace(it: nat, itEnd: nat, i: nat): int {
    if i < it then i else if i < itEnd then it else i - itEnd + it + 1
  }

  ghost predicate SpliceOf(chunks: seq<Chunk>, it: nat, itEnd: nat, c: Chunk, r: seq<Chunk>) {
    it <= itEnd <= |chunks| && r == chunks[..it] + [c] + chunks[itEnd..]
  }

  lemma SpliceIs(chunks: seq<Chunk>, it: nat, itEnd: nat, c: Chunk, r: seq<Chunk>)
    requires it <= itEnd <= |chunks| && r == chunks[..it] + [c] + chunks[itEnd..]
    ensures SpliceOf(chunks, it, itEnd, c, r)
  {
  }

  lemma SpliceAt(chunks: seq<Chunk>, it: nat, itEnd: nat, c: Chunk, r: seq<Chunk>, j: nat)
    requires SpliceOf(chunks, it, itEnd, c, r) && j < |r|
    ensures r[j] == if j < it then chunks[j] else if j == it then c else chunks[j - it - 1 + itEnd]
  {
  }

  lemma SplicePlace(chunks: seq<Chunk>, it: nat, itEnd: nat, c: Chunk, r: seq<Chunk>, i: nat)
    requires SpliceOf(chunks, it, itEnd, c, r) && i < |chunks|
    ensures 0 <= NewPlace(it, itEnd, i) < |r| && r[NewPlace(it, itEnd, i)] == if it <= i < itEnd then c else chunks[i]
  {
  }

  lemma SplicedSeparated(chunks: seq<Chunk>, it: nat, itEnd: nat, addr: int, addrEnd: int, c: Chunk, r: seq<Chunk>)
    requires Splicing(chunks, it, itEnd, addr, addrEnd, c) && SpliceOf(chunks, it, itEnd, c, r)
    ensures Separated(r)
  {
    Merged(chunks, it, itEnd, addr, addrEnd, c);
    hide SpliceOf;
    forall i, j | 0 <= i < j < |r| ensures r[i].to < r[j].from {
      SpliceAt(chunks, it, itEnd, c, r, i);
      SpliceAt(chunks, it, itEnd, c, r, j);
    }
    forall i | 0 <= i < |r| ensures r[i].from <= r[i].to {
      SpliceAt(chunks, it, itEnd, c, r, i);
    }
  }

  lemma SplicedInside(chunks: seq<Chunk>, it: nat, itEnd: nat, addr: int, addrEnd: int, c: Chunk, r: seq<Chunk>,
      from: int, to: int)
    requires Splicing(chunks, it, itEnd, addr, addrEnd, c) && SpliceOf(chunks, it, itEnd, c, r) &&
        Inside(chunks, from, to)
    ensures Inside(r, from, to)
  {
    Merged(chunks, it, itEnd, addr, addrEnd, c);
    hide SpliceOf;
    var i :| 0 <= i < |chunks| && Within(chunks[i], from, to);
    SplicePlace(chunks, it, itEnd, c, r, i);
    assert Within(r[NewPlace(it, itEnd, i)], from, to);
  }

  lemma SplicedTouched(chunks: seq<Chunk>, it: nat, itEnd: nat, addr: int, addrEnd: int, c: Chunk, r: seq<Chunk>,
      x: int)
    requires Splicing(chunks, it, itEnd, addr, addrEnd, c) && SpliceOf(chunks, it, itEnd, c, r)
    ensures Touched(r, x) <==> Touched(chunks, x) || addr <= x < addrEnd
  {
    Merged(chunks, it, itEnd, addr, addrEnd, c);
    assert |r| > it && r[it] == c;
    hide SpliceOf, Splicing;
    if Touched(r, x) {
      var i :| 0 <= i < |r| && r[i].from <= x < r[i].to;
      SpliceAt(chunks, it, itEnd, c, r, i);
      if i == it { MergedTouched(chunks, it, itEnd, addr, addrEnd, c, x); }
    }
    if Touched(chunks, x) {
      var i :| 0 <= i < |chunks| && chunks[i].from <= x < chunks[i].to;
      SplicePlace(chunks, it, itEnd, c, r, i);
      assert r[NewPlace(it, itEnd, i)].from <= x < r[NewPlace(it, itEnd, i)].to;
    }
    if addr <= x < addrEnd { assert r[it].from <= x < r[it].to; }
  }

  lemma Spliced(chunks: seq<Chunk>, it: nat, itEnd: nat, addr: int, addrEnd: int, c: Chunk, r: seq<Chunk>)
    requires Splicing(chunks, it, itEnd, addr, addrEnd, c) && SpliceOf(chunks, it, itEnd, c, r)
    ensures Separated(r) && Inside(r, addr, addrEnd)
    ensures forall from, to :: Inside(chunks, from, to) ==> Inside(r, from, to)
    ensures forall x :: Touched(r, x) <==> Touched(chunks, x) || addr <= x < addrEnd
  {
    hide Splicing, Separated, Touched;
    SplicedSeparated(chunks, it, itEnd, addr, addrEnd, c, r);
    Merged(chunks, it, itEnd, addr, addrEnd, c);
    assert Within(r[it], addr, addrEnd);
    forall from, to | Inside(chunks, from, to) ensures Inside(r, from, to) {
      SplicedInside(chunks, it, itEnd, addr, addrEnd, c, r, from, to);
    }
    forall x ensures Touched(r, x) <==> Touched(chunks, x) || addr <= x < addrEnd {
      SplicedTouched(chunks, it, itEnd, addr, addrEnd, c, r, x);
    }
  }

  /** Takes in the addresses from `addr` up to `addrEnd`, merging every chunk they overlap or touch. */
  method AddChunk(chunks: seq<Chunk>, addr: int, addrEnd: int) returns (r: seq<Chunk>)
    requires Separated(chunks) && addr <= addrEnd
    ensures Separated(r) && Inside(r, addr, addrEnd)
    ensures forall from, to :: Inside(chunks, from, to) ==> Inside(r, from, to)
    ensures forall x :: Touched(r, x) <==> Touched(chunks, x) || addr <= x < addrEnd
  {
    hide Touched, Inside, SpliceOf;
    var itEnd := UpperBound(chunks, addrEnd);
    var it := itEnd;
    while it > 0 && chunks[it - 1].to >= addr
      invariant 0 <= it <= itEnd && forall i :: it <= i < itEnd ==> chunks[i].to >= addr
    {
      it := it - 1;
    }
    var from, to := addr, addrEnd;
    if it != itEnd {
      if chunks[it].from < from { from := chunks[it].from; }
      if chunks[itEnd - 1].to > to { to := chunks[itEnd - 1].to; }
    }
    r := chunks[..it] + [Chunk(from, to)] + chunks[itEnd..];
    SpliceIs(chunks, it, itEnd, Chunk(from, to), r);
    Spliced(chunks, it, itEnd, addr, addrEnd, Chunk(from, to), r);
  }

  /** The chunk with number `k` holds the addresses of the initialiser. */
  ghost predicate Home(chunks: seq<Chunk>, init: MemInit, w: nat, k: nat)
    requires w > 0
  {
    k < |chunks| && Within(chunks[k], init.addr, AddrEnd(init, w))
  }

  predicate InChunk(chunk: Chunk, w: nat, p: int) {
    chunk.from * w <= p < chunk.to * w
  }

  lemma Scale(x: int, y: int, w: nat)
    requires x <= y
    ensures x * w <= y * w
  {
  }

  lemma EndFlat(init: MemInit, w: nat)
    requires WellFormed(init, w)
    ensures AddrEnd(init, w) * w == init.addr * w + |init.data|
  {
    var n := |init.data| / w;
    assert n * w == |init.data|;
    assert (init.addr + n) * w == init.addr * w + n * w;
  }

  /** The bits of an initialiser lie in the chunk of its addresses. */
  lemma RangeInChunk(init: MemInit, w: nat, chunk: Chunk, p: int)
    requires WellFormed(init, w) && Within(chunk, init.addr, AddrEnd(init, w)) && InRange(init, w, p)
    ensures InChunk(chunk, w, p)
  {
    EndFlat(init, w);
    Scale(chunk.from, init.addr, w);
    Scale(AddrEnd(init, w), chunk.to, w);
  }

  lemma OneChunk(chunks: seq<Chunk>, w: nat, i: nat, j: nat, p: int)
    requires Separated(chunks) && i < |chunks| && j < |chunks| && InChunk(chunks[i], w, p) && InChunk(chunks[j], w, p)
    ensures i == j
  {
    if i < j { Scale(chunks[i].to, chunks[j].from, w); }
    if j < i { Scale(chunks[j].to, chunks[i].from, w); }
  }

  // ---------------------------------------------------------------- merging the initialisers of one chunk

  /** Whatever is not enabled becomes undefined, and everything enabled. */
  method MaskData(init: MemInit, w: nat) returns (r: MemInit)
    requires WellFormed(init, w) && !init.removed
    ensures WellFormed(r, w) && !r.removed && r.addr == init.addr && |r.data| == |init.data| && r.en == FullEnable(w)
    ensures forall p :: InRange(init, w, p) ==> r.data[p - init.addr * w] == InitAt([init], w, p)
  {
    var data := init.data;
    if init.en != FullEnable(w) {
      for i := 0 to |init.data|
        invariant |data| == |init.data|
        invariant forall j :: 0 <= j < i ==> data[j] == if init.en[j % w] == S1 then init.data[j] else Sx
        invariant forall j :: i <= j < |data| ==> data[j] == init.data[j]
      {
        if init.en[i % w] != S1 { data := data[i := Sx]; }
      }
    }
    r := MemInit(false, init.addr, data, FullEnable(w));
    forall p | InRange(init, w, p) ensures r.data[p - init.addr * w] == InitAt([init], w, p) {
      assert InitAt([], w, p) == Sx && [init][..0] == [];
    }
  }

  function FullEnable(w: nat): (s: seq<State>)
    ensures |s| == w && forall i :: 0 <= i < w ==> s[i] == S1
  {
    seq(w, i => S1)
  }

  lemma InitAtSnoc(earlier: seq<MemInit>, init: MemInit, w: nat, p: int)
    requires AllFormed(earlier, w) && WellFormed(init, w)
    ensures InitAt(earlier + [init], w, p) == if Covers(init, w, p) then init.data[p - init.addr * w]
        else InitAt(earlier, w, p)
  {
    assert (earlier + [init])[..|earlier|] == earlier;
  }

  /** Writes the enabled bits of an initialiser, where they fall into the data. */
  method WriteBits(d: seq<State>, init: MemInit, w: nat, offset: int) returns (r: seq<State>)
    requires WellFormed(init, w)
    ensures |r| == |d|
    ensures forall q :: 0 <= q < |r| ==>
      r[q] == if offset <= q < offset + |init.data| &&
          init.en[(q - offset) % w] == S1 then init.data[q - offset] else d[q]
  {
    r := d;
    for i := 0 to |init.data|
      invariant |r| == |d|
      invariant forall q :: 0 <= q < |r| ==>
        r[q] == if offset <= q < offset + i && init.en[(q - offset) % w] == S1 then init.data[q - offset] else d[q]
    {
      if 0 <= i + offset < |r| && init.en[i % w] == S1 { r := r[i + offset := init.data[i]]; }
    }
  }

  /** Position `q` of data that starts at address `base` holds the last writer's state. */
  ghost predicate HoldsInit(d: seq<State>, inits: seq<MemInit>, w: nat, base: int)
    requires AllFormed(inits, w)
  {
    forall q :: 0 <= q < |d| ==> d[q] == InitAt(inits, w, base * w + q)
  }

  /** Writes an initialiser over the data of the earlier ones. */
  method Overwrite(d: seq<State>, init: MemInit, w: nat, base: int, ghost earlier: seq<MemInit>) returns (r: seq<State>)
    requires WellFormed(init, w) && !init.removed && AllFormed(earlier, w) && HoldsInit(d, earlier, w, base)
    ensures |r| == |d| && AllFormed(earlier + [init], w) && HoldsInit(r, earlier + [init], w, base)
  {
    hide InitAt;
    var offset := (init.addr - base) * w;
    assert offset == init.addr * w - base * w;
    r := WriteBits(d, init, w, offset);
    forall q | 0 <= q < |r| ensures r[q] == InitAt(earlier + [init], w, base * w + q) {
      InitAtSnoc(earlier, init, w, base * w + q);
      assert base * w + q - init.addr * w == q - offset;
    }
  }

  /** An initialiser of the chunk writes only inside the merged data. */
  lemma OffsetFits(init: MemInit, w: nat, chunk: Chunk)
    requires WellFormed(init, w) && Within(chunk, init.addr, AddrEnd(init, w))
    ensures 0 <= (init.addr - chunk.from) * w
    ensures (init.addr - chunk.from) * w + |init.data| <= (chunk.to - chunk.from) * w
  {
    EndFlat(init, w);
    Scale(0, init.addr - chunk.from, w);
    Scale(AddrEnd(init, w), chunk.to, w);
    assert (init.addr - chunk.from) * w == init.addr * w - chunk.from * w;
    assert (chunk.to - chunk.from) * w == chunk.to * w - chunk.from * w;
  }

  // ---------------------------------------------------------------- the initialisers by chunk

  predicate HasEnabled(init: MemInit) {
    S1 in init.en
  }

  function Pruned(init: MemInit): MemInit {
    if HasEnabled(init) then init else init.(removed := true)
  }

  predicate Words(init: MemInit, w: nat, x: int)
    requires w > 0
  {
    !init.removed && init.addr <= x < AddrEnd(init, w)
  }

  /** Some initialiser that is not removed holds address `x`. */
  ghost predicate LiveAt(inits: seq<MemInit>, w: nat, x: int)
    requires w > 0
  {
    exists i :: 0 <= i < |inits| && Words(inits[i], w, x)
  }

  ghost predicate Housed(inits: seq<MemInit>, w: nat, chunks: seq<Chunk>, home: seq<nat>)
    requires w > 0
  {
    |home| == |inits| && forall i :: 0 <= i < |inits| && !inits[i].removed ==> Home(chunks, inits[i], w, home[i])
  }

  /** The initialisers of chunk `k`, in order. */
  ghost predicate Listed(inits: seq<MemInit>, home: seq<nat>, k: nat, list: seq<nat>)
    requires |home| == |inits|
  {
    Increasing(list) && forall i: nat :: i in list <==> i < |inits| && !inits[i].removed && home[i] == k
  }

  /** At most one initialiser is left for the chunk, and it is fully enabled. */
  ghost predicate Settled(inits: seq<MemInit>, w: nat, home: seq<nat>, k: nat)
    requires |home| == |inits|
  {
    && (forall i :: 0 <= i < |inits| && !inits[i].removed && home[i] == k ==> inits[i].en == FullEnable(w))
    && (forall i, j ::
         0 <= i < j < |inits| && !inits[i].removed && !inits[j].removed && home[i] == home[j] ==> home[i] != k)
  }

  ghost predicate Grouped(inits: seq<MemInit>, w: nat, chunks: seq<Chunk>, home: seq<nat>, byChunk: seq<seq<nat>>,
      rest: set<nat>)
  {
    && AllFormed(inits, w) && w > 0 && Separated(chunks) && Housed(inits, w, chunks, home) && |byChunk| == |chunks|
    && (forall k :: k in rest ==> k < |chunks| && Listed(inits, home, k, byChunk[k]))
    && (forall k: nat :: k < |chunks| && k !in rest ==> Settled(inits, w, home, k))
    && (forall x :: Touched(chunks, x) ==> LiveAt(inits, w, x))
  }

  /** Initialisers of other chunks do not reach into this one. */
  lemma OnlyListed(inits: seq<MemInit>, w: nat, chunks: seq<Chunk>, home: seq<nat>, k: nat, list: seq<nat>, p: int)
    requires AllFormed(inits, w) && w > 0 && Separated(chunks) && Housed(inits, w, chunks, home) && k < |chunks|
    requires Listed(inits, home, k, list) && InChunk(chunks[k], w, p)
    ensures forall i :: 0 <= i < |inits| && Covers(inits[i], w, p) ==> i in list
  {
    forall i | 0 <= i < |inits| && Covers(inits[i], w, p) ensures i in list {
      assert Home(chunks, inits[i], w, home[i]);
      RangeInChunk(inits[i], w, chunks[home[i]], p);
      OneChunk(chunks, w, home[i], k, p);
    }
  }

  lemma NotListed(inits: seq<MemInit>, w: nat, chunks: seq<Chunk>, home: seq<nat>, k: nat, list: seq<nat>, p: int)
    requires AllFormed(inits, w) && w > 0 && Housed(inits, w, chunks, home) && k < |chunks|
    requires Listed(inits, home, k, list) && !InChunk(chunks[k], w, p)
    ensures forall i :: i in list ==> i < |inits| && !InRange(inits[i], w, p)
  {
    forall i | i in list && i < |inits| ensures !InRange(inits[i], w, p) {
      assert Home(chunks, inits[i], w, home[i]);
      if InRange(inits[i], w, p) { RangeInChunk(inits[i], w, chunks[k], p); }
    }
  }

  // ---------------------------------------------------------------- a chunk with several initialisers

  function Dropped(inits: seq<MemInit>, list: seq<nat>): (r: seq<MemInit>)
    ensures |r| == |inits| &&
        forall i :: 0 <= i < |r| ==> r[i] == if i in list then inits[i].(removed := true) else inits[i]
  {
    seq(|inits|, i requires 0 <= i < |inits| => if i in list then inits[i].(removed := true) else inits[i])
  }

  lemma DroppedMore(inits: seq<MemInit>, list: seq<nat>, j: nat)
    requires j < |list| && list[j] < |inits| && list[j] !in list[..j]
    ensures Dropped(inits, list[..j + 1]) == Dropped(inits, list[..j])[list[j] := inits[list[j]].(removed := true)]
  {
    assert list[..j + 1] == list[..j] + [list[j]];
  }

  /** The merged initialiser takes the place of those it was made from. */
  ghost predicate Merging(inits: seq<MemInit>, w: nat, chunk: Chunk, list: seq<nat>, init: MemInit)
    requires AllFormed(inits, w) && forall j :: 0 <= j < |list| ==> list[j] < |inits|
  {
    && WellFormed(init, w) && !init.removed && init.addr == chunk.from && init.en == FullEnable(w)
    && |init.data| == (chunk.to - chunk.from) * w && AllFormed(Selected(inits, list), w)
    && HoldsInit(init.data, Selected(inits, list), w, chunk.from)
  }

  lemma ListBounds(inits: seq<MemInit>, home: seq<nat>, k: nat, list: seq<nat>)
    requires |home| == |inits| && Listed(inits, home, k, list)
    ensures forall j :: 0 <= j < |list| ==> list[j] < |inits| && !inits[list[j]].removed && home[list[j]] == k
  {
    forall j | 0 <= j < |list| ensures list[j] < |inits| && !inits[list[j]].removed && home[list[j]] == k {
      assert list[j] in list;
    }
  }

  lemma MergedSpan(w: nat, chunk: Chunk, init: MemInit, p: int)
    requires WellFormed(init, w) && init.addr == chunk.from && |init.data| == (chunk.to - chunk.from) * w &&
        chunk.from <= chunk.to
    ensures InRange(init, w, p) <==> InChunk(chunk, w, p)
    ensures AddrEnd(init, w) == chunk.to
  {
    assert (chunk.to - chunk.from) * w == chunk.to * w - chunk.from * w;
    EndFlat(init, w);
    var n := |init.data| / w;
    assert n * w == (chunk.to - chunk.from) * w;
    Cancel(n, chunk.to - chunk.from, w);
  }

  lemma Cancel(x: int, y: int, w: nat)
    requires w > 0 && x * w == y * w
    ensures x == y
  {
    if x < y { ScaleLess(x, y, w); }
    if y < x { ScaleLess(y, x, w); }
  }

  lemma ScaleLess(x: int, y: int, w: nat)
    requires x < y && w > 0
    ensures x * w < y * w
  {
    assert y * w == x * w + (y - x) * w;
    Scale(1, y - x, w);
  }

  lemma MergeInside(inits: seq<MemInit>, w: nat, chunks: seq<Chunk>, home: seq<nat>, k: nat, list: seq<nat>,
      init: MemInit, p: int)
    requires AllFormed(inits, w) && w > 0 && Separated(chunks) && Housed(inits, w, chunks, home) && k < |chunks| &&
        Listed(inits, home, k, list)
    requires (forall j :: 0 <= j < |list| ==> list[j] < |inits|) && Merging(inits, w, chunks[k], list, init)
    requires Covers(init, w, p) && InChunk(chunks[k], w, p)
    ensures init.data[p - init.addr * w] == InitAt(inits, w, p)
  {
    OnlyListed(inits, w, chunks, home, k, list, p);
    assert Increasing(list);
    hide InitAt, Housed, Listed, Separated;
    SelectedSame(inits, list, w, p);
    var c := chunks[k];
    assert init.data[p - c.from * w] == InitAt(Selected(inits, list), w, c.from * w + (p - c.from * w));
  }

  lemma MergeOutside(inits: seq<MemInit>, w: nat, chunks: seq<Chunk>, home: seq<nat>, k: nat, list: seq<nat>, p: int)
    requires AllFormed(inits, w) && w > 0 && Housed(inits, w, chunks, home) && k < |chunks| &&
        Listed(inits, home, k, list)
    requires !InChunk(chunks[k], w, p)
    ensures AllFormed(Dropped(inits, list), w) && InitAt(Dropped(inits, list), w, p) == InitAt(inits, w, p)
  {
    var after := Dropped(inits, list);
    NotListed(inits, w, chunks, home, k, list, p);
    forall i | 0 <= i < |inits| ensures WellFormed(after[i], w) && SameCover(inits[i], after[i], w, p) {
    }
    SameInit(inits, after, w, p);
  }

  lemma MergeKeeps(inits: seq<MemInit>, w: nat, chunks: seq<Chunk>, home: seq<nat>, k: nat, list: seq<nat>,
      init: MemInit, p: int)
    requires AllFormed(inits, w) && w > 0 && Separated(chunks) && Housed(inits, w, chunks, home) && k < |chunks| &&
        Listed(inits, home, k, list)
    requires (forall j :: 0 <= j < |list| ==> list[j] < |inits|) && Merging(inits, w, chunks[k], list, init)
    ensures AllFormed(Dropped(inits, list) + [init], w)
    ensures InitAt(Dropped(inits, list) + [init], w, p) == InitAt(inits, w, p)
  {
    assert chunks[k].from <= chunks[k].to;
    hide InitAt, Housed, Listed, Separated, HoldsInit;
    assert AllFormed(Dropped(inits, list), w);
    MergedSpan(w, chunks[k], init, p);
    InitAtSnoc(Dropped(inits, list), init, w, p);
    if InChunk(chunks[k], w, p) {
      MergeInside(inits, w, chunks, home, k, list, init, p);
    } else {
      MergeOutside(inits, w, chunks, home, k, list, p);
    }
  }

  lemma MergeGroups(inits: seq<MemInit>, w: nat, chunks: seq<Chunk>, home: seq<nat>, byChunk: seq<seq<nat>>,
      rest: set<nat>, k: nat, init: MemInit)
    requires Grouped(inits, w, chunks, home, byChunk, rest) && k in rest
    requires (forall j :: 0 <= j < |byChunk[k]| ==> byChunk[k][j] < |inits|) &&
        Merging(inits, w, chunks[k], byChunk[k], init)
    ensures Grouped(Dropped(inits, byChunk[k]) + [init], w, chunks, home + [k], byChunk, rest - {k})
  {
    var list := byChunk[k];
    var after, home' := Dropped(inits, list) + [init], home + [k];
    MergedSpan(w, chunks[k], init, 0);
    assert Listed(inits, home, k, list);
    forall i | 0 <= i < |after| && !after[i].removed ensures Home(chunks, after[i], w, home'[i]) {
      if i < |inits| { assert Home(chunks, inits[i], w, home[i]); }
    }
    forall m | m in rest - {k} ensures Listed(after, home', m, byChunk[m]) {
      assert Listed(inits, home, m, byChunk[m]);
    }
    forall m: nat | m < |chunks| && m !in rest - {k} ensures Settled(after, w, home', m) {
      if m != k { assert Settled(inits, w, home, m); }
    }
    forall x | Touched(chunks, x) ensures LiveAt(after, w, x) {
      MergeLive(inits, w, chunks, home, k, list, init, x);
    }
  }

  lemma MergeLive(inits: seq<MemInit>, w: nat, chunks: seq<Chunk>, home: seq<nat>, k: nat, list: seq<nat>,
      init: MemInit, x: int)
    requires AllFormed(inits, w) && w > 0 && k < |chunks| && |home| == |inits| && Listed(inits, home, k, list) &&
        Housed(inits, w, chunks, home)
    requires WellFormed(init, w) && !init.removed && init.addr == chunks[k].from &&
        AddrEnd(init, w) == chunks[k].to && LiveAt(inits, w, x)
    ensures LiveAt(Dropped(inits, list) + [init], w, x)
  {
    var after := Dropped(inits, list) + [init];
    var i :| 0 <= i < |inits| && Words(inits[i], w, x);
    assert Home(chunks, inits[i], w, home[i]);
    if i in list {
      assert Words(after[|inits|], w, x);
    } else {
      assert Words(after[i], w, x);
    }
  }

  // ---------------------------------------------------------------- a chunk with one initialiser

  ghost predicate Masking(inits: seq<MemInit>, w: nat, i: nat, init: MemInit)
    requires AllFormed(inits, w) && i < |inits|
  {
    && WellFormed(init, w) && !init.removed && init.addr == inits[i].addr && |init.data| == |inits[i].data|
    && init.en == FullEnable(w)
    && forall p :: InRange(inits[i], w, p) ==> init.data[p - init.addr * w] == InitAt([inits[i]], w, p)
  }

  lemma MaskKeeps(inits: seq<MemInit>, w: nat, chunks: seq<Chunk>, home: seq<nat>, k: nat, i: nat, init: MemInit,
      p: int)
    requires AllFormed(inits, w) && w > 0 && Separated(chunks) && Housed(inits, w, chunks, home) && k < |chunks| &&
        Listed(inits, home, k, [i])
    requires i < |inits| && Masking(inits, w, i, init)
    ensures AllFormed(inits[i := init], w) && InitAt(inits[i := init], w, p) == InitAt(inits, w, p)
  {
    var after := inits[i := init];
    if InRange(inits[i], w, p) {
      assert i in [i];
      assert Home(chunks, inits[i], w, home[i]);
      RangeInChunk(inits[i], w, chunks[k], p);
      OnlyListed(inits, w, chunks, home, k, [i], p);
      SelectedSame(inits, [i], w, p);
      assert Selected(inits, [i]) == [inits[i]];
      var last := LastCover(after, w, p);
      assert Covers(after[i], w, p);
    } else {
      forall j | 0 <= j < |inits| ensures SameCover(inits[j], after[j], w, p) {
      }
      SameInit(inits, after, w, p);
    }
  }

  lemma MaskGroups(inits: seq<MemInit>, w: nat, chunks: seq<Chunk>, home: seq<nat>, byChunk: seq<seq<nat>>,
      rest: set<nat>, k: nat, i: nat, init: MemInit)
    requires Grouped(inits, w, chunks, home, byChunk, rest) && k in rest && byChunk[k] == [i] && i < |inits| &&
        Masking(inits, w, i, init)
    ensures Grouped(inits[i := init], w, chunks, home, byChunk, rest - {k})
  {
    var after := inits[i := init];
    assert Listed(inits, home, k, [i]) && i in [i];
    forall j | 0 <= j < |after| && !after[j].removed ensures Home(chunks, after[j], w, home[j]) {
      assert Home(chunks, inits[j], w, home[j]);
    }
    forall m | m in rest - {k} ensures Listed(after, home, m, byChunk[m]) {
      assert Listed(inits, home, m, byChunk[m]);
    }
    forall m: nat | m < |chunks| && m !in rest - {k} ensures Settled(after, w, home, m) {
      if m != k {
        assert Settled(inits, w, home, m);
      } else {
        forall j: nat | j < |inits| && !inits[j].removed && home[j] == k ensures j == i { assert j in [i]; }
      }
    }
    forall x | Touched(chunks, x) ensures LiveAt(after, w, x) {
      assert LiveAt(inits, w, x);
      var j :| 0 <= j < |inits| && Words(inits[j], w, x);
      assert Words(after[j], w, x);
    }
  }

  // ---------------------------------------------------------------- the memory

  /** With a free address between them. */
  predicate Apart(x: MemInit, y: MemInit, w: nat)
    requires w > 0
  {
    AddrEnd(x, w) < y.addr || AddrEnd(y, w) < x.addr
  }

  lemma NoChunks(w: nat)
    requires w > 0
    ensures Separated([]) && forall x :: !Touched([], x) && !LiveAt([], w, x)
  {
  }

  lemma StillFormed(init: MemInit, w: nat)
    requires WellFormed(init, w)
    ensures WellFormed(init.(removed := true), w)
  {
  }

  lemma EndAfter(init: MemInit, w: nat)
    requires WellFormed(init, w)
    ensures init.addr <= AddrEnd(init, w)
  {
  }

  lemma LiveMore(inits: seq<MemInit>, init: MemInit, w: nat, x: int)
    requires w > 0
    ensures LiveAt(inits + [init], w, x) <==> LiveAt(inits, w, x) || Words(init, w, x)
  {
    var more := inits + [init];
    assert more[|inits|] == init;
    if LiveAt(inits, w, x) {
      var i :| 0 <= i < |inits| && Words(inits[i], w, x);
      assert Words(more[i], w, x);
    }
  }

  /** The chunk just below the upper bound is the one that holds the initialiser. */
  lemma ChunkBelow(chunks: seq<Chunk>, init: MemInit, w: nat, upper: nat)
    requires Separated(chunks) && WellFormed(init, w) && Inside(chunks, init.addr, AddrEnd(init, w)) &&
        upper <= |chunks|
    requires forall i :: 0 <= i < upper ==> chunks[i].from <= init.addr
    requires forall i :: upper <= i < |chunks| ==> chunks[i].from > init.addr
    ensures upper > 0 && Home(chunks, init, w, upper - 1)
  {
    EndAfter(init, w);
    var i :| 0 <= i < |chunks| && Within(chunks[i], init.addr, AddrEnd(init, w));
    assert i < upper;
    assert chunks[upper - 1].from <= init.addr;
  }

  lemma ListMore(inits: seq<MemInit>, home: seq<nat>, m: nat, list: seq<nat>, init: MemInit, k: nat)
    requires |home| == |inits| && Listed(inits, home, m, list)
    ensures Listed(inits + [init], home + [k], m, if !init.removed && k == m then list + [|inits|] else list)
  {
    var list' := if !init.removed && k == m then list + [|inits|] else list;
    forall j | 0 <= j < |list| ensures list[j] < |inits| { assert list[j] in list; }
    forall i: nat ensures i in list' <==> i < |inits| + 1 && !(inits + [init])[i].removed && (home + [k])[i] == m {
      assert i in list' <==> i in list || (!init.removed && k == m && i == |inits|);
    }
  }

  lemma NothingAt(w: nat)
    ensures forall p :: InitAt([], w, p) == Sx
  {
  }

  lemma GroupFacts(inits: seq<MemInit>, w: nat, chunks: seq<Chunk>, home: seq<nat>, byChunk: seq<seq<nat>>,
      rest: set<nat>, k: nat)
    requires Grouped(inits, w, chunks, home, byChunk, rest) && k in rest
    ensures w > 0 && AllFormed(inits, w) && Separated(chunks) && Housed(inits, w, chunks, home) && |home| == |inits|
    ensures |byChunk| == |chunks| && k < |chunks| && Listed(inits, home, k, byChunk[k]) && Increasing(byChunk[k]) &&
        chunks[k].from <= chunks[k].to
    ensures forall j :: 0 <= j < |byChunk[k]| ==>
      byChunk[k][j] < |inits| && !inits[byChunk[k][j]].removed &&
          Within(chunks[k], inits[byChunk[k][j]].addr, AddrEnd(inits[byChunk[k][j]], w))
  {
    ListBounds(inits, home, k, byChunk[k]);
    forall j | 0 <= j < |byChunk[k]|
      ensures Within(chunks[k], inits[byChunk[k][j]].addr, AddrEnd(inits[byChunk[k][j]], w))
    {
      assert Home(chunks, inits[byChunk[k][j]], w, home[byChunk[k][j]]);
    }
  }

  lemma MaskIs(inits: seq<MemInit>, w: nat, i: nat, init: MemInit)
    requires AllFormed(inits, w) && i < |inits|
    requires WellFormed(init, w) && !init.removed && init.addr == inits[i].addr && |init.data| == |inits[i].data| &&
        init.en == FullEnable(w)
    requires forall p :: InRange(inits[i], w, p) ==> init.data[p - init.addr * w] == InitAt([inits[i]], w, p)
    ensures Masking(inits, w, i, init)
  {
  }

  lemma MergeIs(inits: seq<MemInit>, w: nat, chunk: Chunk, list: seq<nat>, init: MemInit)
    requires AllFormed(inits, w) && (forall j :: 0 <= j < |list| ==> list[j] < |inits|) &&
        AllFormed(Selected(inits, list), w)
    requires w > 0 && !init.removed && init.addr == chunk.from && init.en == FullEnable(w) &&
        |init.data| == (chunk.to - chunk.from) * w
    requires HoldsInit(init.data, Selected(inits, list), w, chunk.from)
    ensures Merging(inits, w, chunk, list, init)
  {
    Multiple(chunk.to - chunk.from, w);
  }

  lemma Multiple(n: int, w: nat)
    requires w > 0
    ensures (n * w) % w == 0
  {
    var q, r := (n * w) / w, (n * w) % w;
    assert (n - q) * w == r;
    if n - q > 0 { Scale(1, n - q, w); }
    if n - q < 0 { Scale(n - q, -1, w); }
  }

  // ---------------------------------------------------------------- bit by bit

  /** The initialiser is present, has word `x` and enables bit `b` of it. */
  predicate CoversBit(init: MemInit, w: nat, x: int, b: nat)
    requires WellFormed(init, w) && b < w
  {
    !init.removed && init.addr <= x && (x - init.addr) * w + b < |init.data| && init.en[b] == S1
  }

  /** Initialiser `k` is the last that covers the bit; -1 if none does. */
  ghost predicate LastFor(inits: seq<MemInit>, w: nat, x: int, b: nat, k: int)
    requires AllFormed(inits, w) && b < w
  {
    && -1 <= k < |inits| && (k >= 0 ==> CoversBit(inits[k], w, x, b))
    && forall i :: k < i < |inits| ==> !CoversBit(inits[i], w, x, b)
  }

  function BitFor(init: MemInit, w: nat, x: int, b: nat): State
    requires WellFormed(init, w) && b < w && CoversBit(init, w, x, b)
  {
    NonNegative(x - init.addr, w);
    init.data[(x - init.addr) * w + b]
  }

  /** State `s` is what the last initialiser that covers the bit says, or undefined if none does. */
  ghost predicate IsBit(inits: seq<MemInit>, w: nat, x: int, b: nat, s: State)
    requires AllFormed(inits, w) && b < w
  {
    exists k :: LastFor(inits, w, x, b, k) && s == if k < 0 then Sx else BitFor(inits[k], w, x, b)
  }

  lemma NonNegative(n: nat, w: nat)
    ensures n * w >= 0
  {
  }

  lemma CoversSame(init: MemInit, w: nat, x: int, b: nat)
    requires WellFormed(init, w) && b < w
    ensures CoversBit(init, w, x, b) <==> Covers(init, w, x * w + b)
    ensures CoversBit(init, w, x, b) ==> BitFor(init, w, x, b) == init.data[x * w + b - init.addr * w]
  {
    var n := x - init.addr;
    assert x * w + b - init.addr * w == n * w + b;
    if n >= 0 {
      NonNegative(n, w);
      BitPlace(n, w, b);
    } else {
      Scale(n, -1, w);
    }
  }

  lemma BitPlace(n: nat, w: nat, b: nat)
    requires b < w
    ensures (n * w + b) % w == b && (n * w + b) / w == n
  {
    var m := n * w + b;
    var q, r := m / w, m % w;
    assert (n - q) * w == r - b;
    if n - q > 0 { Scale(1, n - q, w); }
    if n - q < 0 { Scale(n - q, -1, w); }
  }

  lemma BitHere(inits: seq<MemInit>, w: nat, x: int, b: nat)
    requires AllFormed(inits, w) && b < w
    ensures IsBit(inits, w, x, b, InitAt(inits, w, x * w + b))
  {
    var k := LastCover(inits, w, x * w + b);
    hide Covers, CoversBit, InitAt, WellFormed, BitFor;
    forall i | 0 <= i < |inits| ensures CoversBit(inits[i], w, x, b) <==> Covers(inits[i], w, x * w + b) {
      CoversSame(inits[i], w, x, b);
    }
    if k >= 0 { CoversSame(inits[k], w, x, b); }
    assert LastFor(inits, w, x, b, k);
  }

  lemma BitShown(d: seq<State>, inits: seq<MemInit>, w: nat, start: int, q: nat)
    requires w > 0 && AllFormed(inits, w) && HoldsInit(d, inits, w, start) && q < |d|
    ensures IsBit(inits, w, start + q / w, q % w, d[q])
  {
    hide InitAt, IsBit, AllFormed, HoldsInit;
    var n, b := q / w, q % w;
    BitHere(inits, w, start + n, b);
    assert q == n * w + b;
    assert (start + n) * w + b == start * w + q;
    HeldAt(d, inits, w, start, q);
  }

  lemma HeldAt(d: seq<State>, inits: seq<MemInit>, w: nat, start: int, q: nat)
    requires AllFormed(inits, w) && HoldsInit(d, inits, w, start) && q < |d|
    ensures d[q] == InitAt(inits, w, start * w + q)
  {
    hide InitAt;
  }

  class MemInitList {
    const width: nat
    const startOffset: int
    const size: nat
    var inits: seq<MemInit>

    ghost predicate Valid()
      reads this
    {
      width > 0 && AllFormed(inits, width)
    }

    constructor (width: nat, startOffset: int, size: nat, inits: seq<MemInit>)
      requires width > 0 && AllFormed(inits, width)
      ensures Valid() && this.inits == inits && this.width == width && this.startOffset == startOffset &&
          this.size == size
    {
      this.width, this.startOffset, this.size, this.inits := width, startOffset, size, inits;
    }

    /** The initial states of all bits, word after word. */
    ghost function InitData(): (d: seq<State>)
      requires Valid()
      reads this
      ensures |d| == width * size
    {
      var inits', width', start := inits, width, startOffset * width;
      seq(width * size, q requires 0 <= q < width' * size => InitAt(inits', width', start + q))
    }

    /** Applies the initialisers in order. */
    method ApplyInits() returns (d: seq<State>)
      requires Valid()
      ensures |d| == width * size && HoldsInit(d, inits, width, startOffset)
    {
      hide InitAt;
      NothingAt(width);
      d := seq(width * size, q => Sx);
      for k := 0 to |inits|
        invariant |d| == width * size
        invariant HoldsInit(d, inits[..k], width, startOffset)
      {
        assert inits[..k + 1] == inits[..k] + [inits[k]];
        if inits[k].removed {
          forall q | 0 <= q < |d| ensures d[q] == InitAt(inits[..k + 1], width, startOffset * width + q) {
            InitAtSnoc(inits[..k], inits[k], width, startOffset * width + q);
          }
        } else {
          d := Overwrite(d, inits[k], width, startOffset, inits[..k]);
        }
      }
      assert inits[..|inits|] == inits;
    }

    /** Word by word from the first address on: every bit is that of the last initialiser that has the word and enables
        the bit, and undefined if there is none. */
    method GetInitData() returns (d: seq<State>)
      requires Valid()
      ensures d == InitData() && |d| == width * size
      ensures forall q :: 0 <= q < |d| ==> IsBit(inits, width, startOffset + q / width, q % width, d[q])
    {
      hide InitAt, IsBit, Valid, HoldsInit;
      d := ApplyInits();
      assert AllFormed(inits, width) by { Formed(); }
      DataHeld(d);
      forall q | 0 <= q < |d| ensures IsBit(inits, width, startOffset + q / width, q % width, d[q]) {
        BitShown(d, inits, width, startOffset, q);
      }
    }

    lemma Formed()
      requires Valid()
      ensures width > 0 && AllFormed(inits, width)
    {
    }

    lemma DataHeld(d: seq<State>)
      requires Valid() && |d| == width * size && HoldsInit(d, inits, width, startOffset)
      ensures d == InitData()
    {
      hide InitAt;
    }

    /** Removes what enables nothing and finds the chunks of all other addresses. */
    method FindChunks() returns (chunks: seq<Chunk>)
      requires Valid()
      modifies this`inits
      ensures Valid() && |inits| == old(|inits|) && forall i :: 0 <= i < |inits| ==> inits[i] == Pruned(old(inits)[i])
      ensures Separated(chunks) && forall x :: Touched(chunks, x) <==> LiveAt(inits, width, x)
      ensures forall i ::
          0 <= i < |inits| && !inits[i].removed ==> Inside(chunks, inits[i].addr, AddrEnd(inits[i], width))
    {
      hide Inside, Touched, LiveAt, Separated, WellFormed, AddrEnd;
      chunks := [];
      NoChunks(width);
      for k := 0 to |inits|
        invariant Valid() && |inits| == old(|inits|) && Separated(chunks)
        invariant forall i :: 0 <= i < k ==> inits[i] == Pruned(old(inits)[i])
        invariant forall i :: k <= i < |inits| ==> inits[i] == old(inits)[i]
        invariant forall x :: Touched(chunks, x) <==> LiveAt(inits[..k], width, x)
        invariant forall i ::
            0 <= i < k && !inits[i].removed ==> Inside(chunks, inits[i].addr, AddrEnd(inits[i], width))
      {
        ghost var before := inits[..k];
        if !inits[k].removed && !HasEnabled(inits[k]) {
          StillFormed(inits[k], width);
          inits := inits[k := inits[k].(removed := true)];
        }
        if !inits[k].removed {
          EndAfter(inits[k], width);
          chunks := AddChunk(chunks, inits[k].addr, AddrEnd(inits[k], width));
        }
        assert inits[..k + 1] == before + [inits[k]];
        forall x ensures LiveAt(inits[..k + 1], width, x) <==> LiveAt(before, width, x) || Words(inits[k], width, x) {
          LiveMore(before, inits[k], width, x);
        }
      }
      assert inits[..|inits|] == inits;
    }

    /** Lists, for every chunk, the initialisers that lie in it. */
    method GroupInits(chunks: seq<Chunk>) returns (byChunk: seq<seq<nat>>, ghost home: seq<nat>)
      requires Valid() && Separated(chunks)
      requires forall i ::
          0 <= i < |inits| && !inits[i].removed ==> Inside(chunks, inits[i].addr, AddrEnd(inits[i], width))
      ensures |byChunk| == |chunks| && Housed(inits, width, chunks, home)
      ensures forall k :: 0 <= k < |chunks| ==> Listed(inits, home, k, byChunk[k])
    {
      hide WellFormed, AddrEnd, Home;
      byChunk, home := seq(|chunks|, k => []), [];
      for i := 0 to |inits|
        invariant |byChunk| == |chunks| && |home| == i
        invariant forall j :: 0 <= j < i && !inits[j].removed ==> Home(chunks, inits[j], width, home[j])
        invariant forall k :: 0 <= k < |chunks| ==> Listed(inits[..i], home, k, byChunk[k])
      {
        ghost var home0, byChunk0 := home, byChunk;
        var k := 0;
        if !inits[i].removed {
          EndAfter(inits[i], width);
          var upper := UpperBound(chunks, inits[i].addr);
          ChunkBelow(chunks, inits[i], width, upper);
          k := upper - 1;
          byChunk := byChunk[k := byChunk[k] + [i]];
        }
        home := home + [k];
        assert inits[..i + 1] == inits[..i] + [inits[i]];
        forall m | 0 <= m < |chunks| ensures Listed(inits[..i + 1], home, m, byChunk[m]) {
          assert Listed(inits[..i], home0, m, byChunk0[m]);
          ListMore(inits[..i], home0, m, byChunk0[m], inits[i], k);
        }
      }
      assert inits[..|inits|] == inits;
    }

    /** Merges the listed initialisers, later ones over earlier ones, and removes them. */
    method CombineInits(chunk: Chunk, list: seq<nat>) returns (cdata: seq<State>)
      requires Valid() && chunk.from <= chunk.to && Increasing(list)
      requires forall j :: 0 <= j < |list| ==>
        list[j] < |inits| && !inits[list[j]].removed &&
            Within(chunk, inits[list[j]].addr, AddrEnd(inits[list[j]], width))
      modifies this`inits
      ensures inits == Dropped(old(inits), list) && |cdata| == (chunk.to - chunk.from) * width
      ensures AllFormed(Selected(old(inits), list), width)
      ensures HoldsInit(cdata, Selected(old(inits), list), width, chunk.from)
    {
      hide WellFormed, AddrEnd, InitAt;
      ghost var start, chosen := inits, Selected(inits, list);
      Scale(0, chunk.to - chunk.from, width);
      cdata := seq((chunk.to - chunk.from) * width, q => Sx);
      NothingAt(width);
      for j := 0 to |list|
        invariant |inits| == |start| && |cdata| == (chunk.to - chunk.from) * width && inits == Dropped(start, list[..j])
        invariant HoldsInit(cdata, chosen[..j], width, chunk.from)
      {
        var idx := list[j];
        assert idx !in list[..j] && inits[idx] == start[idx] == chosen[j];
        OffsetFits(inits[idx], width, chunk);
        cdata := Overwrite(cdata, inits[idx], width, chunk.from, chosen[..j]);
        inits := inits[idx := inits[idx].(removed := true)];
        DroppedMore(start, list, j);
        assert chosen[..j + 1] == chosen[..j] + [chosen[j]];
      }
      assert chosen[..|list|] == chosen && list[..|list|] == list;
    }

    /** Leaves one fully enabled initialiser for the chunk. */
    method SettleChunk(chunks: seq<Chunk>, byChunk: seq<seq<nat>>, k: nat, ghost home: seq<nat>,
        ghost rest: set<nat>) returns (ghost home': seq<nat>)
      requires Grouped(inits, width, chunks, home, byChunk, rest) && k in rest
      modifies this`inits
      ensures Grouped(inits, width, chunks, home', byChunk, rest - {k})
      ensures forall p :: InitAt(inits, width, p) == InitAt(old(inits), width, p)
    {
      hide WellFormed, AddrEnd, InitAt, Grouped, Merging, Masking, Listed, Housed;
      ghost var start := inits;
      GroupFacts(inits, width, chunks, home, byChunk, rest, k);
      var list, chunk := byChunk[k], chunks[k];
      if |list| == 1 {
        var i := list[0];
        assert list == [i];
        var init := MaskData(inits[i], width);
        inits := inits[i := init];
        home' := home;
        MaskIs(start, width, i, init);
        MaskGroups(start, width, chunks, home, byChunk, rest, k, i, init);
        forall p ensures InitAt(inits, width, p) == InitAt(start, width, p) {
          MaskKeeps(start, width, chunks, home, k, i, init, p);
        }
      } else {
        var cdata := CombineInits(chunk, list);
        var init := MemInit(false, chunk.from, cdata, FullEnable(width));
        inits := inits + [init];
        home' := home + [k];
        MergeIs(start, width, chunk, list, init);
        MergeGroups(start, width, chunks, home, byChunk, rest, k, init);
        forall p ensures InitAt(inits, width, p) == InitAt(start, width, p) {
          MergeKeeps(start, width, chunks, home, k, list, init, p);
        }
      }
    }

    method CoalesceInits()
      requires Valid()
      modifies this`inits
      ensures Valid()
      // What every bit starts with stays the same.
      ensures forall p :: InitAt(inits, width, p) == InitAt(old(inits), width, p)
      ensures InitData() == old(InitData())
      ensures forall i :: 0 <= i < |inits| && !inits[i].removed ==> inits[i].en == FullEnable(width)
      ensures forall i, j ::
                0 <= i < j < |inits| && !inits[i].removed && !inits[j].removed ==> Apart(inits[i], inits[j], width)
      // The addresses that are initialised are those that were, by something with an enabled bit.
      ensures forall x ::
          LiveAt(inits, width, x) <==>
          exists i :: 0 <= i < |old(inits)| && HasEnabled(old(inits)[i]) && Words(old(inits)[i], width, x)
    {
      hide InitAt, Grouped, Housed, Listed, Settled, Inside, Separated, Touched, LiveAt, WellFormed, AddrEnd;
      ghost var start := inits;
      var chunks := FindChunks();
      ghost var pruned := inits;
      forall p ensures InitAt(inits, width, p) == InitAt(start, width, p) { PrunedSame(start, inits, width, p); }
      var byChunk, home := GroupInits(chunks);
      var rest := set k: nat | k < |chunks| && byChunk[k] != [];
      GroupStart(inits, width, chunks, home, byChunk, rest);
      while rest != {}
        invariant Valid() && Grouped(inits, width, chunks, home, byChunk, rest)
        invariant forall p :: InitAt(inits, width, p) == InitAt(start, width, p)
        decreases rest
      {
        var k: nat :| k in rest;
        home := SettleChunk(chunks, byChunk, k, home, rest);
        GroupFormed(inits, width, chunks, home, byChunk, rest - {k});
        rest := rest - {k};
      }
      AllSettled(inits, width, chunks, home, byChunk);
      forall x
        ensures LiveAt(inits, width, x) <==>
            exists i :: 0 <= i < |start| && HasEnabled(start[i]) && Words(start[i], width, x)
      {
        LiveSame(inits, width, chunks, home, byChunk, x);
        PrunedLive(start, pruned, width, x);
      }
    }
  }

  lemma PrunedSame(start: seq<MemInit>, pruned: seq<MemInit>, w: nat, p: int)
    requires AllFormed(start, w) && AllFormed(pruned, w) && |pruned| == |start| &&
        forall i :: 0 <= i < |start| ==> pruned[i] == Pruned(start[i])
    ensures InitAt(pruned, w, p) == InitAt(start, w, p)
  {
    forall i | 0 <= i < |start| ensures SameCover(start[i], pruned[i], w, p) {
      if Covers(start[i], w, p) { assert start[i].en[(p - start[i].addr * w) % w] in start[i].en; }
    }
    SameInit(start, pruned, w, p);
  }

  lemma PrunedLive(start: seq<MemInit>, pruned: seq<MemInit>, w: nat, x: int)
    requires w > 0 && |pruned| == |start| && forall i :: 0 <= i < |start| ==> pruned[i] == Pruned(start[i])
    ensures LiveAt(pruned, w, x) <==> exists i :: 0 <= i < |start| && HasEnabled(start[i]) && Words(start[i], w, x)
  {
    if LiveAt(pruned, w, x) {
      var i :| 0 <= i < |pruned| && Words(pruned[i], w, x);
      assert HasEnabled(start[i]) && Words(start[i], w, x);
    }
    forall i | 0 <= i < |start| && HasEnabled(start[i]) && Words(start[i], w, x) ensures LiveAt(pruned, w, x) {
      assert Words(pruned[i], w, x);
    }
  }

  lemma GroupStart(inits: seq<MemInit>, w: nat, chunks: seq<Chunk>, home: seq<nat>, byChunk: seq<seq<nat>>,
      rest: set<nat>)
    requires w > 0 && AllFormed(inits, w) && Separated(chunks) && Housed(inits, w, chunks, home) &&
        |byChunk| == |chunks|
    requires forall k :: 0 <= k < |chunks| ==> Listed(inits, home, k, byChunk[k])
    requires forall k: nat :: k in rest <==> k < |chunks| && byChunk[k] != []
    requires forall x :: Touched(chunks, x) ==> LiveAt(inits, w, x)
    ensures Grouped(inits, w, chunks, home, byChunk, rest)
  {
    forall k: nat | k < |chunks| && k !in rest ensures Settled(inits, w, home, k) {
      assert Listed(inits, home, k, []);
      forall i: nat | i < |inits| && !inits[i].removed ensures home[i] != k { assert i !in []; }
    }
  }

  lemma GroupFormed(inits: seq<MemInit>, w: nat, chunks: seq<Chunk>, home: seq<nat>, byChunk: seq<seq<nat>>,
      rest: set<nat>)
    requires Grouped(inits, w, chunks, home, byChunk, rest)
    ensures w > 0 && AllFormed(inits, w)
  {
  }

  lemma AllSettled(inits: seq<MemInit>, w: nat, chunks: seq<Chunk>, home: seq<nat>, byChunk: seq<seq<nat>>)
    requires Grouped(inits, w, chunks, home, byChunk, {})
    ensures forall i :: 0 <= i < |inits| && !inits[i].removed ==> inits[i].en == FullEnable(w)
    ensures forall i, j ::
              0 <= i < j < |inits| && !inits[i].removed && !inits[j].removed ==> Apart(inits[i], inits[j], w)
  {
    forall i | 0 <= i < |inits| && !inits[i].removed ensures inits[i].en == FullEnable(w) {
      assert Home(chunks, inits[i], w, home[i]) && Settled(inits, w, home, home[i]);
    }
    forall i, j | 0 <= i < j < |inits| && !inits[i].removed && !inits[j].removed ensures Apart(inits[i], inits[j], w) {
      assert Home(chunks, inits[i], w, home[i]) && Home(chunks, inits[j], w, home[j]) &&
          Settled(inits, w, home, home[i]);
      EndAfter(inits[i], w);
      EndAfter(inits[j], w);
    }
  }

  lemma LiveSame(inits: seq<MemInit>, w: nat, chunks: seq<Chunk>, home: seq<nat>, byChunk: seq<seq<nat>>, x: int)
    requires Grouped(inits, w, chunks, home, byChunk, {})
    ensures LiveAt(inits, w, x) <==> Touched(chunks, x)
  {
    if LiveAt(inits, w, x) {
      var i :| 0 <= i < |inits| && Words(inits[i], w, x);
      assert Home(chunks, inits[i], w, home[i]);
      assert chunks[home[i]].from <= x < chunks[home[i]].to;
    }
  }
}
