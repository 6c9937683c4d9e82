/**
 The pool of bit patterns of `kernel/bitpattern.h`, kept in a verified hash table: which concrete bit vectors
 are left while cases are taken out of it.
 */
module BitPatterns {
  import opened Hashlib

  /** The states a constant bit can have; the patterns of the pool use 0, 1 and `Sa`, which stands for both. */
  datatype Symbol = S0 | S1 | Sx | Sz | Sa | Sm {
    predicate Defined() { S0? || S1? }
  }

  type Pattern = seq<Symbol>

  // ---------------------------------------------------------------- what patterns mean

  ghost predicate Agrees(s: Symbol, b: bool) {
    (s == S0 ==> !b) && (s == S1 ==> b)
  }

  /** The concrete vector is one of the vectors of the pattern. */
  ghost predicate Fits(p: Pattern, v: seq<bool>) {
    |v| == |p| && forall i :: 0 <= i < |p| ==> Agrees(p[i], v[i])
  }

  /** The concrete vector is still in the pool. */
  ghost predicate Holds(ps: seq<Pattern>, v: seq<bool>) {
    exists k :: 0 <= k < |ps| && Fits(ps[k], v)
  }

  predicate Clash(a: Symbol, b: Symbol) {
    a.Defined() && b.Defined() && a != b
  }

  predicate Compatible(a: Pattern, b: Pattern)
    requires |a| == |b|
  {
    forall i :: 0 <= i < |a| ==> !Clash(a[i], b[i])
  }

  function Common(a: Pattern, b: Pattern): (v: seq<bool>)
    requires |a| == |b|
  {
    seq(|a|, i requires 0 <= i < |a| => a[i] == S1 || b[i] == S1)
  }

  /** Two patterns are compatible exactly when they have a vector in common. */
  lemma Overlap(a: Pattern, b: Pattern)
    requires |a| == |b|
    ensures Compatible(a, b) <==> exists v :: Fits(a, v) && Fits(b, v)
  {
    if Compatible(a, b) {
      var v := Common(a, b);
      forall i | 0 <= i < |a| ensures Agrees(a[i], v[i]) && Agrees(b[i], v[i]) {
        assert !Clash(a[i], b[i]);
      }
      assert Fits(a, v) && Fits(b, v);
    }
    forall v, i | Fits(a, v) && Fits(b, v) && 0 <= i < |a| ensures !Clash(a[i], b[i]) {
      assert Agrees(a[i], v[i]) && Agrees(b[i], v[i]);
    }
  }

  function Opposite(s: Symbol): Symbol {
    if s == S1 then S0 else S1
  }

  /** The positions where a pattern is split to cut `bits` out of it. */
  predicate SplitsAt(p: Pattern, bits: Pattern, i: nat)
    requires i < |p| == |bits|
  {
    p[i] == Sa && bits[i] != Sa
  }

  function Split(p: Pattern, bits: Pattern, i: nat): (r: Pattern)
    requires i < |p| == |bits|
    ensures |r| == |p|
  {
    p[i := Opposite(bits[i])]
  }

  predicate Plain(p: Pattern) {
    forall i :: 0 <= i < |p| ==> p[i].Defined() || p[i] == Sa
  }

  /** The splits of a pattern are exactly its vectors outside `bits`. */
  lemma SplitExact(p: Pattern, bits: Pattern, v: seq<bool>)
    requires |p| == |bits| && Plain(p) && Plain(bits) && Compatible(p, bits)
    ensures (Fits(p, v) && !Fits(bits, v)) <==>
        exists i :: 0 <= i < |p| && SplitsAt(p, bits, i) && Fits(Split(p, bits, i), v)
  {
    if Fits(p, v) && !Fits(bits, v) {
      var i :| 0 <= i < |bits| && !Agrees(bits[i], v[i]);
      assert !Clash(p[i], bits[i]) && Agrees(p[i], v[i]);
      assert SplitsAt(p, bits, i) && Fits(Split(p, bits, i), v);
    }
    forall i | 0 <= i < |p| && SplitsAt(p, bits, i) && Fits(Split(p, bits, i), v) ensures Fits(p, v) && !Fits(bits, v) {
      assert Agrees(Split(p, bits, i)[i], v[i]);
      forall j | 0 <= j < |p| ensures Agrees(p[j], v[j]) { assert Agrees(Split(p, bits, i)[j], v[j]); }
    }
  }

  lemma SplitApart(p: Pattern, bits: Pattern, i: nat)
    requires i < |p| == |bits| && Plain(p) && Plain(bits) && SplitsAt(p, bits, i)
    ensures Plain(Split(p, bits, i)) && !Compatible(Split(p, bits, i), bits)
  {
    assert Clash(Split(p, bits, i)[i], bits[i]);
  }

  // ---------------------------------------------------------------- one step of taking

  /** The patterns have been visited from the end down to `it`. */
  ghost predicate Taking(before: seq<Pattern>, ps: seq<Pattern>, bits: Pattern, it: int) {
    && -1 <= it < |ps| && it < |before| && ps[..it + 1] == before[..it + 1]
    && (forall k :: 0 <= k < |ps| ==> |ps[k]| == |bits| && Plain(ps[k]))
    && (forall k :: it < k < |ps| ==> !Compatible(ps[k], bits))
    && (forall v :: !Fits(bits, v) ==> (Holds(ps, v) <==> Holds(before, v)))
    && (forall k :: it < k < |before| ==> CutInto(before[k], ps, bits))
  }

  /** A visited pattern is still there, or all its splits are. */
  ghost predicate CutInto(p: Pattern, ps: seq<Pattern>, bits: Pattern) {
    |p| == |bits| &&
    if Compatible(p, bits) then forall i :: 0 <= i < |p| && SplitsAt(p, bits, i) ==> Split(p, bits, i) in ps
    else p in ps
  }

  ghost predicate IsSplit(p: Pattern, bits: Pattern, q: Pattern)
    requires |p| == |bits|
  {
    exists i :: 0 <= i < |p| && SplitsAt(p, bits, i) && q == Split(p, bits, i)
  }

  /** The patterns after some splits of `p` have been put in. */
  ghost predicate Splitting(ps: seq<Pattern>, now: seq<Pattern>, p: Pattern, bits: Pattern, n: nat)
    requires |p| == |bits| && n <= |p|
  {
    && ps <= now
    && (forall i :: 0 <= i < n && SplitsAt(p, bits, i) ==> Split(p, bits, i) in now)
    && (forall k :: |ps| <= k < |now| ==> IsSplit(p, bits, now[k]))
  }

  lemma SplittingNone(ps: seq<Pattern>, p: Pattern, bits: Pattern)
    requires |p| == |bits|
    ensures Splitting(ps, ps, p, bits, 0)
  {
  }

  lemma SplittingKeeps(ps: seq<Pattern>, now: seq<Pattern>, it: nat, bits: Pattern, i: nat)
    requires it < |ps| && |ps[it]| == |bits| && i <= |bits| && Splitting(ps, now, ps[it], bits, i)
    ensures |now| >= |ps| && now[it] == ps[it]
  {
  }

  lemma SplittingMore(ps: seq<Pattern>, now: seq<Pattern>, p: Pattern, bits: Pattern, i: nat)
    requires i < |p| == |bits| && Splitting(ps, now, p, bits, i)
    ensures !SplitsAt(p, bits, i) || Split(p, bits, i) in now ==> Splitting(ps, now, p, bits, i + 1)
    ensures SplitsAt(p, bits, i) ==> Splitting(ps, now + [Split(p, bits, i)], p, bits, i + 1)
  {
    var more := now + [Split(p, bits, i)];
    assert more[|now|] == Split(p, bits, i);
    forall q | q in now ensures q in more { }
  }

  lemma SkipOne(before: seq<Pattern>, ps: seq<Pattern>, bits: Pattern, it: nat)
    requires Taking(before, ps, bits, it) && !Compatible(ps[it], bits)
    ensures Taking(before, ps, bits, it - 1)
  {
    assert ps[it] == ps[..it + 1][it] == before[..it + 1][it];
    assert ps[..it] == ps[..it + 1][..it];
    assert before[..it] == before[..it + 1][..it];
  }

  lemma CutIntoOut(before: seq<Pattern>, ps: seq<Pattern>, now: seq<Pattern>, bits: Pattern, it: nat)
    requires Taking(before, ps, bits, it) && Plain(bits) && Compatible(ps[it], bits)
    requires Splitting(ps, now, ps[it], bits, |bits|) && forall k :: 0 <= k < |before| ==> Plain(before[k])
    ensures forall k :: it <= k < |before| ==> CutInto(before[k], SwapOut(now, it), bits)
  {
    hide Compatible, Plain, Fits, Holds, Splitting;
    var p := ps[it];
    assert p == ps[..it + 1][it] == before[..it + 1][it];
    SplittingKeeps(ps, now, it, bits, |bits|);
    SplittingAll(ps, now, p, bits);
    forall k | it <= k < |before| ensures CutInto(before[k], SwapOut(now, it), bits) {
      CutIntoStays(before[k], if k == it then now else ps, now, bits, it);
    }
  }

  lemma SplittingAll(ps: seq<Pattern>, now: seq<Pattern>, p: Pattern, bits: Pattern)
    requires |p| == |bits| && Compatible(p, bits) && Splitting(ps, now, p, bits, |bits|)
    ensures CutInto(p, now, bits) && ps <= now
  {
  }

  lemma TakeOut(before: seq<Pattern>, ps: seq<Pattern>, now: seq<Pattern>, bits: Pattern, it: nat)
    requires Taking(before, ps, bits, it) && Plain(bits) && Compatible(ps[it], bits)
    requires Splitting(ps, now, ps[it], bits, |bits|) && forall k :: 0 <= k < |before| ==> Plain(before[k])
    ensures Taking(before, SwapOut(now, it), bits, it - 1)
  {
    var p, after := ps[it], SwapOut(now, it);
    assert forall k :: 0 <= k < it ==> after[k] == ps[k] == before[..it + 1][k];
    assert after[..it] == before[..it];
    forall k | 0 <= k < |now| && k >= |ps| ensures |now[k]| == |bits| && Plain(now[k]) && !Compatible(now[k], bits) {
      var i :| 0 <= i < |p| && SplitsAt(p, bits, i) && now[k] == Split(p, bits, i);
      SplitApart(p, bits, i);
    }
    forall k | 0 <= k < |now| ensures |now[k]| == |bits| && Plain(now[k]) && (k > it ==> !Compatible(now[k], bits)) {
      if k < |ps| { assert now[k] == ps[k]; }
    }
    CutIntoOut(before, ps, now, bits, it);
    forall v | !Fits(bits, v) ensures Holds(after, v) <==> Holds(before, v) {
      SplitExact(p, bits, v);
      if Holds(ps, v) { HoldsAfter(ps, now, bits, it, v); }
      if Holds(after, v) { HeldBefore(ps, now, bits, it, v); }
    }
  }

  lemma CutIntoStays(q: Pattern, ps: seq<Pattern>, now: seq<Pattern>, bits: Pattern, it: nat)
    requires it < |now| && |now[it]| == |bits| && Compatible(now[it], bits) && Plain(q) && Plain(bits) && ps <= now &&
        CutInto(q, ps, bits)
    ensures CutInto(q, SwapOut(now, it), bits)
  {
    assert forall r :: r in ps ==> r in now;
    if Compatible(q, bits) {
      forall i | 0 <= i < |q| && SplitsAt(q, bits, i) ensures Split(q, bits, i) in SwapOut(now, it) {
        SplitApart(q, bits, i);
        InSwapped(now, it, Split(q, bits, i));
      }
    } else {
      InSwapped(now, it, q);
    }
  }

  lemma HoldsFew(p: Pattern)
    ensures forall v :: (Holds([p], v) <==> Fits(p, v)) && !Holds([], v)
  {
    forall v | Fits(p, v) ensures Holds([p], v) { assert Fits([p][0], v); }
  }

  lemma InSwapped(now: seq<Pattern>, it: nat, q: Pattern)
    requires it < |now| && q in now && q != now[it]
    ensures q in SwapOut(now, it)
  {
    var k :| 0 <= k < |now| && now[k] == q;
    assert SwapOut(now, it)[if k == |now| - 1 then it else k] == q;
  }

  lemma HoldsAfter(ps: seq<Pattern>, now: seq<Pattern>, bits: Pattern, it: nat, v: seq<bool>)
    requires it < |ps| && |ps[it]| == |bits| && Plain(ps[it]) && Plain(bits) && Compatible(ps[it], bits)
    requires Splitting(ps, now, ps[it], bits, |bits|) && Holds(ps, v) && !Fits(bits, v)
    ensures Holds(SwapOut(now, it), v)
  {
    var p := ps[it];
    var k :| 0 <= k < |ps| && Fits(ps[k], v);
    var q := ps[k];
    if q == p {
      SplitExact(p, bits, v);
      var i :| 0 <= i < |p| && SplitsAt(p, bits, i) && Fits(Split(p, bits, i), v);
      q := Split(p, bits, i);
      assert q[i] != p[i];
    } else {
      assert now[k] == q;
    }
    InSwapped(now, it, q);
  }

  lemma HeldBefore(ps: seq<Pattern>, now: seq<Pattern>, bits: Pattern, it: nat, v: seq<bool>)
    requires it < |ps| && |ps[it]| == |bits| && Plain(ps[it]) && Plain(bits) && Compatible(ps[it], bits)
    requires Splitting(ps, now, ps[it], bits, |bits|) && Holds(SwapOut(now, it), v)
    ensures Holds(ps, v)
  {
    var k :| 0 <= k < |now| - 1 && Fits(SwapOut(now, it)[k], v);
    var m := if k == it then |now| - 1 else k;
    assert Fits(now[m], v);
    if m < |ps| {
      assert Fits(ps[m], v);
    } else {
      SplitExact(ps[it], bits, v);
      assert Fits(ps[it], v);
    }
  }

  // ---------------------------------------------------------------- the pool

  function Sig2Bits(sig: Pattern): (bits: Pattern)
    ensures |bits| == |sig| && Plain(bits) && forall v :: Fits(bits, v) <==> Fits(sig, v)
  {
    var bits := seq(|sig|, i requires 0 <= i < |sig| => if sig[i].Defined() then sig[i] else Sa);
    assert forall v: seq<bool>, i :: 0 <= i < |sig| == |v| ==> (Agrees(bits[i], v[i]) <==> Agrees(sig[i], v[i]));
    bits
  }

  class BitPatternPool {
    const width: nat
    const database: Dict<Pattern, ()>

    ghost predicate Shaped()
      reads this, database
    {
      && database.Valid()
      && (forall k :: 0 <= k < |Patterns()| ==> |Patterns()[k]| == width && Plain(Patterns()[k]))
    }

    /** Between two calls the pool is complete; while patterns are being cut it need not be. */
    ghost predicate Valid()
      reads this, database
    {
      Shaped() && Complete(Patterns())
    }

    ghost function Patterns(): (ps: seq<Pattern>)
      reads database
      ensures |ps| == |database.entries|
    {
      KeysOf(Items(database.entries))
    }

    /** The vectors left in the pool. */
    ghost predicate Has(v: seq<bool>)
      reads database
    {
      Holds(Patterns(), v)
    }

    constructor (sig: Pattern, hash: Pattern -> nat, tableSize: nat -> nat)
      requires forall n :: tableSize(n) >= n
      ensures Valid() && fresh(database) && width == |sig|
      ensures width > 0 ==> forall v :: Has(v) <==> Fits(sig, v)
      ensures width == 0 ==> forall v :: !Has(v)
    {
      hide Dict.Valid, Fits, Holds, Plain, ToMap, Complete;
      width := |sig|;
      HoldsFew(Sig2Bits(sig));
      CompleteFew(Sig2Bits(sig));
      var d := new Dict<Pattern, ()>(hash, tableSize);
      if |sig| > 0 {
        var i, inserted := d.Insert(Sig2Bits(sig), ());
        assert KeysOf(Items(d.entries)) == [Sig2Bits(sig)];
      }
      assert |sig| == 0 ==> KeysOf(Items(d.entries)) == [];
      database := d;
    }

    method Match(a: Pattern, b: Pattern) returns (r: bool)
      requires |a| == |b| == width
      ensures r <==> Compatible(a, b)
      ensures r <==> exists v :: Fits(a, v) && Fits(b, v)
    {
      Overlap(a, b);
      for i := 0 to width
        invariant forall j :: 0 <= j < i ==> !Clash(a[j], b[j])
      {
        if Clash(a[i], b[i]) { return false; }
      }
      return true;
    }

    method HasAny(sig: Pattern) returns (r: bool)
      requires Valid() && |sig| == width
      ensures r <==> exists v :: Has(v) && Fits(sig, v)
    {
      hide Dict.Valid, Fits, ToMap;
      var bits := Sig2Bits(sig);
      var it := |database.entries| - 1;
      while it >= 0
        invariant -1 <= it < |database.entries|
        invariant forall k :: it < k < |Patterns()| ==> !Compatible(Patterns()[k], bits)
      {
        assert database.entries[it].key == Patterns()[it];
        r := Match(database.entries[it].key, bits);
        if r {
          Overlap(Patterns()[it], bits);
          return true;
        }
        it := it - 1;
      }
      forall v | Has(v) ensures !Fits(bits, v) { NoneLeft(Patterns(), bits, v); }
      return false;
    }

    /** Looks for one pattern that holds every vector of `sig`; nothing is missed, however the pool was cut. */
    method HasAll(sig: Pattern) returns (r: bool)
      requires Valid() && |sig| == width
      ensures r <==> forall v :: Fits(sig, v) ==> Has(v)
    {
      hide Dict.Valid, Fits, ToMap;
      var bits := Sig2Bits(sig);
      assert forall k :: 0 <= k < |Patterns()| ==> (Contains(Patterns()[k], sig) <==> Contains(Patterns()[k], bits));
      var it := |database.entries| - 1;
      while it >= 0
        invariant -1 <= it < |database.entries|
        invariant forall k :: it < k < |Patterns()| ==> !Contains(Patterns()[k], bits)
      {
        assert database.entries[it].key == Patterns()[it];
        r := Match(database.entries[it].key, bits);
        if r {
          r := Looser(database.entries[it].key, bits);
        }
        ContainsMeans(Patterns()[it], bits);
        if r {
          assert Contains(Patterns()[it], bits);
          return true;
        }
        it := it - 1;
      }
      assert !Within(Patterns(), sig);
      return false;
    }

    method Looser(p: Pattern, bits: Pattern) returns (r: bool)
      requires |p| == |bits| == width
      ensures r <==> forall i :: 0 <= i < width && p[i].Defined() ==> bits[i].Defined()
    {
      for i := 0 to width
        invariant forall j :: 0 <= j < i && p[j].Defined() ==> bits[j].Defined()
      {
        if !bits[i].Defined() && p[i].Defined() { return false; }
      }
      return true;
    }

    /** Takes the vectors of `sig`, and no others, out of the pool. */
    method Take(sig: Pattern) returns (status: bool)
      requires Valid() && |sig| == width
      modifies database
      ensures Valid() && forall v :: Has(v) <==> old(Has(v)) && !Fits(sig, v)
      ensures status <==> exists v :: old(Has(v)) && Fits(sig, v)
    {
      hide Dict.Valid, Fits, Holds, Compatible, Splitting, ToMap, Plain, Complete, CutInto;
      status := false;
      var bits := Sig2Bits(sig);
      ghost var before := Patterns();
      var it := |database.entries| - 1;
      while it >= 0
        invariant Shaped() && Taking(before, Patterns(), bits, it)
        invariant status <==> exists k :: it < k < |before| && Compatible(before[k], bits)
        decreases it
      {
        ghost var ps := Patterns();
        assert database.entries[it].key == ps[it] == ps[..it + 1][it] == before[..it + 1][it] == before[it];
        var matching := Match(database.entries[it].key, bits);
        if matching {
          it := TakeOne(it, bits, before);
          status := true;
        } else {
          SkipOne(before, ps, bits, it);
          it := it - 1;
        }
      }
      Taken(before, Patterns(), bits);
      CompleteTaken(before, Patterns(), bits);
      assert status <==> exists v :: Holds(before, v) && Fits(bits, v);
    }

    method TakeOne(it: nat, bits: Pattern, ghost before: seq<Pattern>) returns (next: int)
      requires Shaped() && it < |Patterns()| && |bits| == width && Plain(bits)
      requires Taking(before, Patterns(), bits, it) && Compatible(Patterns()[it], bits) &&
          forall k :: 0 <= k < |before| ==> Plain(before[k])
      modifies database
      ensures Shaped() && next == it - 1 && Taking(before, Patterns(), bits, next)
    {
      hide Dict.Valid, Fits, Holds, Compatible, Splitting, ToMap, Plain, CutInto;
      ghost var ps := Patterns();
      SplitOff(it, bits);
      TakeOut(before, ps, Patterns(), bits, it);
      ghost var now := Items(database.entries);
      SplittingKeeps(ps, Patterns(), it, bits, width);
      next := database.EraseAt(it);
      assert Patterns() == SwapOut(KeysOf(now), it);
    }

    /** Puts in the parts of pattern `it` that lie outside `bits`. */
    method SplitOff(it: nat, bits: Pattern)
      requires Shaped() && it < |Patterns()| && |bits| == width && Plain(bits)
      modifies database
      ensures Shaped() && Splitting(old(Patterns()), Patterns(), old(Patterns()[it]), bits, width)
    {
      hide Dict.Valid, Fits, Holds, Compatible, ToMap, Splitting, UniqueKeys;
      ghost var ps := Patterns();
      ghost var p := ps[it];
      SplittingNone(ps, p, bits);
      for i := 0 to width
        invariant Shaped() && Splitting(ps, Patterns(), p, bits, i)
      {
        ghost var now := Patterns();
        SplittingKeeps(ps, now, it, bits, i);
        assert database.entries[it].key == now[it];
        SplittingMore(ps, now, p, bits, i);
        if database.entries[it].key[i] != Sa || bits[i] == Sa { continue; }
        var pattern := database.entries[it].key[i := if bits[i] == S1 then S0 else S1];
        SplitApart(p, bits, i);
        database.HasKey(pattern);
        var index, inserted := database.Insert(pattern, ());
        assert Patterns() == if inserted then now + [pattern] else now;
      }
    }

    method TakeAll() returns (status: bool)
      requires Valid()
      modifies database
      ensures Valid() && (forall v :: !Has(v)) && (status <==> exists v :: old(Has(v)))
    {
      hide Dict.Valid, Fits, ToMap, Complete;
      CompleteFew([]);
      if |Patterns()| > 0 {
        ghost var v := Inhabited(Patterns()[0]);
        assert Has(v);
      }
      if |database.entries| == 0 { return false; }
      database.Clear();
      assert Patterns() == [];
      return true;
    }

    method Empty() returns (r: bool)
      requires Valid()
      ensures r <==> forall v :: !Has(v)
    {
      hide Dict.Valid, Fits, ToMap;
      if |Patterns()| > 0 {
        ghost var v := Inhabited(Patterns()[0]);
        assert Has(v);
      }
      return |database.entries| == 0;
    }
  }

  lemma Taken(before: seq<Pattern>, ps: seq<Pattern>, bits: Pattern)
    requires Taking(before, ps, bits, -1) && forall k :: 0 <= k < |before| ==> |before[k]| == |bits|
    ensures forall v :: Holds(ps, v) <==> Holds(before, v) && !Fits(bits, v)
    ensures (exists k :: 0 <= k < |before| && Compatible(before[k], bits)) <==>
        exists v :: Holds(before, v) && Fits(bits, v)
  {
    forall v | Holds(ps, v) ensures !Fits(bits, v) { NoneLeft(ps, bits, v); }
    forall k | 0 <= k < |before| && Compatible(before[k], bits) ensures exists v :: Holds(before, v) && Fits(bits, v) {
      Overlap(before[k], bits);
      var v :| Fits(before[k], v) && Fits(bits, v);
      assert Holds(before, v);
    }
    forall v | Holds(before, v) && Fits(bits, v) ensures exists k :: 0 <= k < |before| && Compatible(before[k], bits) {
      var k :| 0 <= k < |before| && Fits(before[k], v);
      Overlap(before[k], bits);
    }
  }

  lemma Inhabited(p: Pattern) returns (v: seq<bool>)
    ensures Fits(p, v)
  {
    v := Common(p, p);
  }

  // ---------------------------------------------------------------- containment

  ghost predicate Contains(p: Pattern, q: Pattern) {
    forall v :: Fits(q, v) ==> Fits(p, v)
  }

  function Filled(p: Pattern, b: bool): (v: seq<bool>) {
    seq(|p|, i requires 0 <= i < |p| => if p[i].Defined() then p[i] == S1 else b)
  }

  lemma ContainsMeans(p: Pattern, q: Pattern)
    requires |p| == |q|
    ensures Contains(p, q) <==> Compatible(p, q) && forall i :: 0 <= i < |p| && p[i].Defined() ==> q[i].Defined()
  {
    if Contains(p, q) {
      forall b ensures Fits(q, Filled(q, b)) && Fits(p, Filled(q, b)) {
      }
      forall i | 0 <= i < |p| ensures !Clash(p[i], q[i]) && (p[i].Defined() ==> q[i].Defined()) {
        assert Fits(p, Filled(q, true)) && Fits(p, Filled(q, false));
        assert Agrees(p[i], Filled(q, true)[i]) && Agrees(p[i], Filled(q, false)[i]);
      }
    } else if Compatible(p, q) {
      var v :| Fits(q, v) && !Fits(p, v);
      var i :| 0 <= i < |p| && !Agrees(p[i], v[i]);
      assert Agrees(q[i], v[i]) && !Clash(p[i], q[i]);
    }
  }

  ghost predicate Covered(ps: seq<Pattern>, q: Pattern) {
    forall v :: Fits(q, v) ==> Holds(ps, v)
  }

  ghost predicate Within(ps: seq<Pattern>, q: Pattern) {
    exists k :: 0 <= k < |ps| && Contains(ps[k], q)
  }

  /** A pattern whose vectors are all in the pool lies within a single pattern of the pool. */
  ghost predicate Complete(ps: seq<Pattern>) {
    forall q :: Covered(ps, q) ==> Within(ps, q)
  }

  lemma CompleteFew(p: Pattern)
    ensures Complete([]) && Complete([p])
  {
    hide Fits;
    HoldsFew(p);
    forall q ensures !Covered([], q) {
      var v := Inhabited(q);
      assert !Holds([], v);
    }
    forall q | Covered([p], q) ensures Within([p], q) {
      forall v | Fits(q, v) ensures Fits(p, v) { assert Holds([p], v); }
      assert Contains([p][0], q);
    }
  }

  /** Taking vectors out of a complete pool leaves a complete pool. */
  lemma CompleteTaken(before: seq<Pattern>, ps: seq<Pattern>, bits: Pattern)
    requires Complete(before) && Taking(before, ps, bits, -1) && Plain(bits) &&
        forall k :: 0 <= k < |before| ==> |before[k]| == |bits| && Plain(before[k])
    ensures Complete(ps)
  {
    hide Fits, Plain, Holds, Compatible;
    Taken(before, ps, bits);
    forall q | Covered(ps, q) ensures Within(ps, q) {
      assert Covered(before, q);
      var k :| 0 <= k < |before| && Contains(before[k], q);
      assert CutInto(before[k], ps, bits);
      assert forall v :: Fits(q, v) ==> !Fits(bits, v);
      StillWithin(before[k], q, ps, bits);
    }
  }

  lemma StillWithin(p: Pattern, q: Pattern, ps: seq<Pattern>, bits: Pattern)
    requires |p| == |bits| && Plain(p) && Plain(bits) && Contains(p, q) && CutInto(p, ps, bits) &&
        forall v :: Fits(q, v) ==> !Fits(bits, v)
    ensures Within(ps, q)
  {
    var v := Inhabited(q);
    assert Fits(p, v) && |q| == |p|;
    Overlap(q, bits);
    ContainsMeans(p, q);
    var i :| 0 <= i < |q| && Clash(q[i], bits[i]);
    var r := p;
    if Compatible(p, bits) {
      assert !Clash(p[i], bits[i]) && !Clash(p[i], q[i]);
      r := Split(p, bits, i);
      assert r[i] == q[i];
      ContainsMeans(r, q);
    }
    assert r in ps;
    var n :| 0 <= n < |ps| && ps[n] == r;
    assert Contains(ps[n], q);
  }

  lemma NoneLeft(ps: seq<Pattern>, bits: Pattern, v: seq<bool>)
    requires forall k :: 0 <= k < |ps| ==> |ps[k]| == |bits| && !Compatible(ps[k], bits)
    requires Holds(ps, v)
    ensures !Fits(bits, v)
  {
    var k :| 0 <= k < |ps| && Fits(ps[k], v);
    Overlap(ps[k], bits);
  }
}
