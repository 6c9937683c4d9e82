/**
 Union-find with path compression and re-rooting (`mfp` of `kernel/hashlib.h`), and `SigMap` of
 `kernel/sigtools.h` on top of it: which signal bits are connected, and the one bit that stands for all of them.
 */
module SigMaps {
  import opened Hashlib

  // ---------------------------------------------------------------- parent forests

  /** `parents` is a forest: along it `depth` falls and `rep` stays, and a root is its own representative. */
  ghost predicate Forest(parents: seq<int>, depth: seq<nat>, rep: seq<nat>) {
    |depth| == |parents| == |rep| && forall i :: 0 <= i < |parents| ==> Placed(parents, depth, rep, i)
  }

  ghost predicate Placed(parents: seq<int>, depth: seq<nat>, rep: seq<nat>, i: nat)
    requires |depth| == |parents| == |rep| && i < |parents|
  {
    if parents[i] == -1 then rep[i] == i
    else 0 <= parents[i] < |parents| && depth[parents[i]] < depth[i] && rep[i] == rep[parents[i]]
  }

  lemma ForestSizes(parents: seq<int>, depth: seq<nat>, rep: seq<nat>)
    requires Forest(parents, depth, rep)
    ensures |depth| == |parents| == |rep|
  {
  }

  /** A representative is a root, its own representative, and above everything it represents. */
  lemma {:induction false} Rooted(parents: seq<int>, depth: seq<nat>, rep: seq<nat>, i: nat)
    requires Forest(parents, depth, rep) && i < |parents|
    ensures rep[i] < |parents| && parents[rep[i]] == -1 && rep[rep[i]] == rep[i] &&
        (i != rep[i] ==> parents[i] != -1 && depth[rep[i]] < depth[i])
    decreases depth[i]
  {
    assert Placed(parents, depth, rep, i);
    if parents[i] != -1 { Rooted(parents, depth, rep, parents[i]); }
  }

  /** All links on the way to the root may be shortened. */
  lemma Shortcut(parents: seq<int>, depth: seq<nat>, rep: seq<nat>, k: nat)
    requires Forest(parents, depth, rep) && k < |parents| && k != rep[k]
    ensures Forest(parents[k := rep[k]], depth, rep)
  {
    Rooted(parents, depth, rep, k);
    var parents' := parents[k := rep[k]];
    forall i | 0 <= i < |parents| ensures Placed(parents', depth, rep, i) { assert Placed(parents, depth, rep, i); }
  }

  function MergedRep(rep: seq<nat>, i: nat, j: nat): (r: seq<nat>)
    ensures |r| == |rep| && forall x :: 0 <= x < |rep| ==> r[x] == if rep[x] == i then j else rep[x]
  {
    seq(|rep|, x requires 0 <= x < |rep| => if rep[x] == i then j else rep[x])
  }

  /** Hanging one root below another. */
  lemma HangBelow(parents: seq<int>, depth: seq<nat>, rep: seq<nat>, i: nat, j: nat) returns (depth': seq<nat>)
    requires Forest(parents, depth, rep) && i < |parents| && j < |parents| && i != j && rep[i] == i && rep[j] == j
    ensures Forest(parents[i := j], depth', MergedRep(rep, i, j))
  {
    depth' := seq(|depth|, x requires 0 <= x < |depth| => if rep[x] == i then depth[x] + depth[j] + 1 else depth[x]);
    Rooted(parents, depth, rep, j);
    var parents', rep' := parents[i := j], MergedRep(rep, i, j);
    forall x | 0 <= x < |parents| ensures Placed(parents', depth', rep', x) {
      assert Placed(parents, depth, rep, x);
    }
  }

  /** The forest while `IPromote` walks: the visited nodes point at `i`, and `k` is next. */
  ghost predicate Walking(parents: seq<int>, depth: seq<nat>, rep: seq<nat>, now: seq<int>, i: nat, k: int,
      visited: set<nat>)
    requires Forest(parents, depth, rep) && i < |parents|
  {
    && |now| == |parents| && -1 <= k < |parents| && (forall x :: x in visited ==> x < |parents| && rep[x] == rep[i])
    && (forall x: nat :: x < |parents| ==> now[x] == if x in visited then i else parents[x])
    && (if k == -1 then i in visited && rep[i] in visited
       else rep[k] == rep[i] && k !in visited && (visited == {} ==> k == i) && (visited != {} ==> i in visited))
    && (k != -1 ==> forall x :: x in visited ==> depth[k] < depth[x])
  }

  lemma WalkStart(parents: seq<int>, depth: seq<nat>, rep: seq<nat>, i: nat)
    requires Forest(parents, depth, rep) && i < |parents|
    ensures Walking(parents, depth, rep, parents, i, i, {})
  {
  }

  lemma WalkStep(parents: seq<int>, depth: seq<nat>, rep: seq<nat>, now: seq<int>, i: nat, k: nat, visited: set<nat>)
    requires Forest(parents, depth, rep) && i < |parents| && k < |parents| &&
        Walking(parents, depth, rep, now, i, k, visited)
    ensures now[k] == parents[k] && Walking(parents, depth, rep, now[k := i], i, now[k], visited + {k})
    ensures now[k] != -1 ==> 0 <= now[k] < |parents| && depth[now[k]] < depth[k]
  {
    assert Placed(parents, depth, rep, k);
    Rooted(parents, depth, rep, k);
  }

  /** Re-rooting at `i`. */
  lemma WalkDone(parents: seq<int>, depth: seq<nat>, rep: seq<nat>, now: seq<int>, i: nat,
      visited: set<nat>) returns (depth': seq<nat>)
    requires Forest(parents, depth, rep) && i < |parents| && Walking(parents, depth, rep, now, i, -1, visited)
    ensures Forest(now[i := -1], depth', MergedRep(rep, rep[i], i))
  {
    depth' := seq(|depth|,
        x requires 0 <= x < |depth| => if x == i then 0 else if x in visited then 1 else depth[x] + 2);
    var parents', rep' := now[i := -1], MergedRep(rep, rep[i], i);
    forall x | 0 <= x < |parents| ensures Placed(parents', depth', rep', x) {
      assert Placed(parents, depth, rep, x);
    }
  }

  lemma NewRoot(parents: seq<int>, depth: seq<nat>, rep: seq<nat>)
    requires Forest(parents, depth, rep)
    ensures Forest(parents + [-1], depth + [0], rep + [|rep|])
  {
    forall i | 0 <= i <= |parents| ensures Placed(parents + [-1], depth + [0], rep + [|rep|], i) {
      if i < |parents| { assert Placed(parents, depth, rep, i); }
    }
  }

  class Mfp<K(==)> {
    const database: Dict<K, ()>
    var parents: seq<int>
    ghost var depth: seq<nat>
    ghost var rep: seq<nat>

    ghost predicate Valid()
      reads this, database
    {
      database.Valid() && |parents| == |database.entries| && Forest(parents, depth, rep)
    }

    /** The key of every index. */
    ghost function Keys(): (s: seq<K>)
      reads this, database
      ensures |s| == |database.entries|
    {
      KeysOf(Items(database.entries))
    }

    constructor (hash: K -> nat, tableSize: nat -> nat)
      requires forall n :: tableSize(n) >= n
      ensures Valid() && fresh(database) && Keys() == []
    {
      database := new Dict(hash, tableSize);
      parents, depth, rep := [], [], [];
    }

    /** The index of a key; a new key becomes a root of its own. */
    method Index(key: K) returns (i: nat)
      requires Valid()
      modifies this`parents, this`depth, this`rep, database
      ensures Valid() && i < |Keys()| && Keys()[i] == key
      ensures if key in old(Keys()) then Keys() == old(Keys()) && rep == old(rep)
          else Keys() == old(Keys()) + [key] && rep == old(rep) + [i]
    {
      hide Chained, UniqueKeys, UniqueItems, ToMap, Forest;
      ghost var items := Items(database.entries);
      var inserted;
      KeysAreMap(database.entries, key);
      i, inserted := database.Insert(key, ());
      if inserted {
        assert Keys() == KeysOf(items) + [key];
        NewRoot(parents, depth, rep);
        parents := parents + [-1];
        depth, rep := depth + [0], rep + [|rep|];
      }
    }

    /** The root above `i`. Everything on the way is hung directly below it. */
    method IFind(i: nat) returns (p: nat)
      requires Valid() && i < |parents|
      modifies this`parents
      ensures Valid() && p == rep[i] && p < |parents|
    {
      hide Chained, UniqueKeys;
      p := i;
      while parents[p] != -1
        invariant p < |parents| && rep[p] == rep[i]
        decreases depth[p]
      {
        assert Placed(parents, depth, rep, p);
        p := parents[p];
      }
      assert Placed(parents, depth, rep, p);
      var k: int := i;
      while k != p
        invariant Forest(parents, depth, rep) && |parents| == old(|parents|) && 0 <= k < |parents| && rep[k] == p
        decreases depth[k]
      {
        Rooted(parents, depth, rep, k);
        assert Placed(parents, depth, rep, k);
        Shortcut(parents, depth, rep, k);
        var nextK := parents[k];
        parents := parents[k := p];
        k := nextK;
      }
    }

    /** Joins the classes of `i` and `j`; the representative of `j` stands for both. */
    method IMerge(i: nat, j: nat)
      requires Valid() && i < |parents| && j < |parents|
      modifies this`parents, this`depth, this`rep
      ensures Valid() && rep == MergedRep(old(rep), old(rep)[i], old(rep)[j])
      ensures forall x :: 0 <= x < |rep| ==>
                rep[x] == if old(rep)[x] == old(rep)[i] then old(rep)[j] else old(rep)[x]
    {
      hide Chained, UniqueKeys, Forest;
      var ri := IFind(i);
      var rj := IFind(j);
      Rooted(parents, depth, rep, i);
      Rooted(parents, depth, rep, j);
      if ri != rj {
        ghost var d := HangBelow(parents, depth, rep, ri, rj);
        parents := parents[ri := rj];
        depth, rep := d, MergedRep(rep, ri, rj);
      } else {
        assert MergedRep(rep, ri, rj) == rep;
      }
    }

    /** Makes `i` the representative of its class. */
    method IPromote(i: nat)
      requires Valid() && i < |parents|
      modifies this`parents, this`depth, this`rep
      ensures Valid() && rep == MergedRep(old(rep), old(rep)[i], i)
      ensures forall x :: 0 <= x < |rep| ==> rep[x] == if old(rep)[x] == old(rep)[i] then i else old(rep)[x]
    {
      hide Chained, UniqueKeys, Forest, Walking;
      ghost var before := parents;
      ghost var visited: set<nat> := {};
      WalkStart(before, depth, rep, i);
      ForestSizes(before, depth, rep);
      var k: int := i;
      while k != -1
        invariant depth == old(depth) && rep == old(rep)
        invariant Forest(before, depth, rep) && |depth| == |parents| == |before| && -1 <= k < |before| &&
            Walking(before, depth, rep, parents, i, k, visited)
        decreases if k == -1 then 0 else depth[k] + 1
      {
        WalkStep(before, depth, rep, parents, i, k, visited);
        var nextK := parents[k];
        parents := parents[k := i];
        var here: nat := k;
        visited := visited + {here};
        k := nextK;
      }
      ghost var d := WalkDone(before, depth, rep, parents, i, visited);
      parents := parents[i := -1];
      depth, rep := d, MergedRep(rep, rep[i], i);
    }

    /** The key that stands for `key`; a key nobody has mentioned stands for itself. */
    method Find(key: K) returns (r: K)
      requires Valid()
      modifies this`parents, database
      ensures Valid() && Keys() == old(Keys()) && StandsFor(Keys(), rep, key, r)
    {
      hide Chained, UniqueKeys, UniqueItems, ToMap, Forest;
      KeysAreMap(database.entries, key);
      var i := database.Find(key);
      if i < 0 { return key; }
      var p := IFind(i);
      assert Keys()[i] == key;
      r := database.entries[p].key;
      ForestSizes(parents, depth, rep);
      assert r == Keys()[rep[i]];
    }

    /** Makes a key that has been mentioned the representative of its class. */
    method Promote(key: K)
      requires Valid()
      modifies this`parents, this`depth, this`rep, database
      ensures Valid() && Keys() == old(Keys())
      ensures if key in Keys() then exists i ::
          0 <= i < |Keys()| && Keys()[i] == key && rep == MergedRep(old(rep), old(rep)[i], i) else rep == old(rep)
    {
      hide Chained, UniqueKeys, UniqueItems, ToMap, Forest;
      KeysAreMap(database.entries, key);
      var i := database.Find(key);
      if i >= 0 {
        assert Keys()[i] == key;
        IPromote(i);
      }
    }
  }

  /** `r` is the representative of `key`. */
  ghost predicate StandsFor<K>(keys: seq<K>, rep: seq<nat>, key: K, r: K)
    requires |rep| == |keys|
  {
    if key in keys then exists i ::
        0 <= i < |keys| && keys[i] == key && rep[i] < |keys| && keys[rep[i]] == r else r == key
  }

  // ---------------------------------------------------------------- connections

  datatype SigBit = WireBit(wire: nat, offset: nat) | ConstBit(state: nat)

  ghost predicate Step(pairs: set<(SigBit, SigBit)>, x: SigBit, y: SigBit) {
    (x, y) in pairs || (y, x) in pairs
  }

  ghost predicate Path(pairs: set<(SigBit, SigBit)>, p: seq<SigBit>) {
    |p| > 0 && forall k :: 0 < k < |p| ==> Step(pairs, p[k - 1], p[k])
  }

  /** Related by the equivalence closure of the pairs. */
  ghost predicate Connected(pairs: set<(SigBit, SigBit)>, x: SigBit, y: SigBit) {
    exists p: seq<SigBit> :: Path(pairs, p) && p[0] == x && p[|p| - 1] == y
  }

  lemma ConnectedItself(pairs: set<(SigBit, SigBit)>, x: SigBit)
    ensures Connected(pairs, x, x)
  {
    assert Path(pairs, [x]);
  }

  lemma ConnectedStep(pairs: set<(SigBit, SigBit)>, x: SigBit, y: SigBit)
    requires Step(pairs, x, y)
    ensures Connected(pairs, x, y)
  {
    assert Path(pairs, [x, y]);
  }

  lemma ConnectedJoin(pairs: set<(SigBit, SigBit)>, x: SigBit, y: SigBit, z: SigBit)
    requires Connected(pairs, x, y) && Connected(pairs, y, z)
    ensures Connected(pairs, x, z)
  {
    var p :| Path(pairs, p) && p[0] == x && p[|p| - 1] == y;
    var q :| Path(pairs, q) && q[0] == y && q[|q| - 1] == z;
    var r := p + q[1..];
    forall k | 0 < k < |r| ensures Step(pairs, r[k - 1], r[k]) {
      if k < |p| {
        assert Step(pairs, p[k - 1], p[k]);
      } else {
        var m := k - |p| + 1;
        assert Step(pairs, q[m - 1], q[m]);
      }
    }
    assert r[|r| - 1] == z;
  }

  lemma ConnectedBack(pairs: set<(SigBit, SigBit)>, x: SigBit, y: SigBit)
    requires Connected(pairs, x, y)
    ensures Connected(pairs, y, x)
  {
    var p :| Path(pairs, p) && p[0] == x && p[|p| - 1] == y;
    var r := seq(|p|, k requires 0 <= k < |p| => p[|p| - 1 - k]);
    forall k | 0 < k < |r| ensures Step(pairs, r[k - 1], r[k]) {
      var m := |p| - k;
      assert Step(pairs, p[m - 1], p[m]);
    }
    assert Path(pairs, r);
  }

  lemma ConnectedMore(pairs: set<(SigBit, SigBit)>, more: set<(SigBit, SigBit)>, x: SigBit, y: SigBit)
    requires Connected(pairs, x, y) && pairs <= more
    ensures Connected(more, x, y)
  {
    var p :| Path(pairs, p) && p[0] == x && p[|p| - 1] == y;
    forall k | 0 < k < |p| ensures Step(more, p[k - 1], p[k]) { assert Step(pairs, p[k - 1], p[k]); }
    assert Path(more, p);
  }

  // ---------------------------------------------------------------- the map

  /** Both bits are known and in one class. */
  ghost predicate Together(keys: seq<SigBit>, rep: seq<nat>, x: SigBit, y: SigBit)
    requires |rep| == |keys|
  {
    exists i, j :: 0 <= i < |keys| && 0 <= j < |keys| && keys[i] == x && keys[j] == y && rep[i] == rep[j]
  }

  ghost predicate AllTogether(keys: seq<SigBit>, rep: seq<nat>, pairs: set<(SigBit, SigBit)>) {
    |rep| == |keys| && forall p :: p in pairs ==> Together(keys, rep, p.0, p.1)
  }

  /** The classes are exactly what the merged pairs connect. */
  ghost predicate Classes(keys: seq<SigBit>, rep: seq<nat>, merged: set<(SigBit, SigBit)>) {
    && |rep| == |keys| && (forall p :: p in merged ==> Together(keys, rep, p.0, p.1))
    && forall i, j :: 0 <= i < |keys| && 0 <= j < |keys| && rep[i] == rep[j] ==> Connected(merged, keys[i], keys[j])
  }

  /** A constant stands for its class. */
  ghost predicate ConstRooted(keys: seq<SigBit>, rep: seq<nat>)
    requires |rep| == |keys|
  {
    forall i :: 0 <= i < |keys| && keys[i].ConstBit? ==> rep[i] == i
  }

  /** No two different constants are equated. */
  ghost predicate NoClash(pairs: set<(SigBit, SigBit)>) {
    forall s: nat, t: nat :: s != t ==> !Connected(pairs, ConstBit(s), ConstBit(t))
  }

  lemma ClassesNew(keys: seq<SigBit>, rep: seq<nat>, merged: set<(SigBit, SigBit)>, key: SigBit)
    requires Classes(keys, rep, merged) && Rooting(rep) && ConstRooted(keys, rep)
    ensures Classes(keys + [key], rep + [|rep|], merged) && Rooting(rep + [|rep|]) &&
        ConstRooted(keys + [key], rep + [|rep|])
  {
    hide Connected;
    var keys', rep' := keys + [key], rep + [|rep|];
    forall p | p in merged ensures Together(keys', rep', p.0, p.1) { TogetherLater(keys, rep, keys', rep', p.0, p.1); }
    forall i, j | 0 <= i < |keys'| && 0 <= j < |keys'| && rep'[i] == rep'[j]
      ensures Connected(merged, keys'[i], keys'[j])
    {
      if i < |keys| && j < |keys| {
        assert Connected(merged, keys[i], keys[j]);
      } else {
        assert i == j;
        ConnectedItself(merged, keys'[i]);
      }
    }
  }

  lemma TogetherLater(keys: seq<SigBit>, rep: seq<nat>, keys': seq<SigBit>, rep': seq<nat>, x: SigBit, y: SigBit)
    requires |rep| == |keys| && |rep'| == |keys'| && keys <= keys' && rep <= rep' && Together(keys, rep, x, y)
    ensures Together(keys', rep', x, y)
  {
    var i, j :| 0 <= i < |keys| && 0 <= j < |keys| && keys[i] == x && keys[j] == y && rep[i] == rep[j];
    assert keys'[i] == x && keys'[j] == y && rep'[i] == rep'[j];
  }

  /** Every representative represents itself. */
  ghost predicate Rooting(rep: seq<nat>) {
    forall i :: 0 <= i < |rep| ==> rep[i] < |rep| && rep[rep[i]] == rep[i]
  }

  /** The same classes, whoever represents them. */
  ghost predicate SamePartition(rep: seq<nat>, rep': seq<nat>) {
    |rep'| == |rep| && forall i, j :: 0 <= i < |rep| && 0 <= j < |rep| ==> (rep'[i] == rep'[j] <==> rep[i] == rep[j])
  }

  lemma PromotedPartition(rep: seq<nat>, i: nat)
    requires Rooting(rep) && i < |rep|
    ensures SamePartition(rep, MergedRep(rep, rep[i], i)) && Rooting(MergedRep(rep, rep[i], i))
  {
  }

  lemma ClassesSame(keys: seq<SigBit>, rep: seq<nat>, rep': seq<nat>, merged: set<(SigBit, SigBit)>)
    requires Classes(keys, rep, merged) && SamePartition(rep, rep')
    ensures Classes(keys, rep', merged)
  {
    hide Connected;
    forall p | p in merged ensures Together(keys, rep', p.0, p.1) {
      var i, j :| 0 <= i < |keys| && 0 <= j < |keys| && keys[i] == p.0 && keys[j] == p.1 && rep[i] == rep[j];
      assert rep'[i] == rep'[j];
    }
  }

  /** Joining the classes of `i` and `j` and recording the pair. */
  lemma ClassesMerged(keys: seq<SigBit>, rep: seq<nat>, merged: set<(SigBit, SigBit)>, i: nat, j: nat)
    requires Classes(keys, rep, merged) && Rooting(rep) && i < |keys| && j < |keys|
    ensures Classes(keys, MergedRep(rep, rep[i], rep[j]), merged + {(keys[i], keys[j])}) &&
        Rooting(MergedRep(rep, rep[i], rep[j]))
  {
    hide Connected;
    var rep', merged' := MergedRep(rep, rep[i], rep[j]), merged + {(keys[i], keys[j])};
    forall p | p in merged' ensures Together(keys, rep', p.0, p.1) {
      if p in merged {
        var x, y :| 0 <= x < |keys| && 0 <= y < |keys| && keys[x] == p.0 && keys[y] == p.1 && rep[x] == rep[y];
        assert rep'[x] == rep'[y];
      } else {
        assert rep'[i] == rep'[j];
      }
    }
    forall x, y | 0 <= x < |keys| && 0 <= y < |keys| && rep'[x] == rep'[y]
      ensures Connected(merged', keys[x], keys[y])
    {
      MergedConnected(keys, rep, merged, i, j, x, y);
    }
  }

  lemma MergedConnected(keys: seq<SigBit>, rep: seq<nat>, merged: set<(SigBit, SigBit)>, i: nat, j: nat, x: nat, y: nat)
    requires Classes(keys, rep, merged) && Rooting(rep) && i < |keys| && j < |keys| && x < |keys| && y < |keys|
    requires MergedRep(rep, rep[i], rep[j])[x] == MergedRep(rep, rep[i], rep[j])[y]
    ensures Connected(merged + {(keys[i], keys[j])}, keys[x], keys[y])
  {
    hide Connected;
    var merged' := merged + {(keys[i], keys[j])};
    ConnectedStep(merged', keys[i], keys[j]);
    ConnectedBack(merged', keys[i], keys[j]);
    if rep[x] == rep[y] {
      ConnectedMore(merged, merged', keys[x], keys[y]);
    } else if rep[x] == rep[i] {
      ConnectedMore(merged, merged', keys[x], keys[i]);
      ConnectedMore(merged, merged', keys[j], keys[y]);
      ConnectedJoin(merged', keys[x], keys[i], keys[j]);
      ConnectedJoin(merged', keys[x], keys[j], keys[y]);
    } else {
      ConnectedMore(merged, merged', keys[x], keys[j]);
      ConnectedMore(merged, merged', keys[i], keys[y]);
      ConnectedJoin(merged', keys[x], keys[j], keys[i]);
      ConnectedJoin(merged', keys[x], keys[i], keys[y]);
    }
  }

  /** Two bits share a representative exactly when the merged pairs connect them. */
  lemma SharedIffConnected(keys: seq<SigBit>, rep: seq<nat>, merged: set<(SigBit, SigBit)>, x: SigBit, y: SigBit,
      rx: SigBit, ry: SigBit)
    requires Classes(keys, rep, merged) && Rooting(rep) && Unique(keys) && StandsFor(keys, rep, x, rx) &&
        StandsFor(keys, rep, y, ry)
    ensures rx == ry <==> Connected(merged, x, y)
  {
    hide Connected, Classes;
    if rx == ry {
      SharedConnected(keys, rep, merged, x, y, rx, ry);
    }
    if Connected(merged, x, y) {
      assert AllTogether(keys, rep, merged) by { ClassesTogether(keys, rep, merged); }
      ConnectedShared(keys, rep, merged, x, y, rx, ry);
    }
  }

  lemma ClassesTogether(keys: seq<SigBit>, rep: seq<nat>, merged: set<(SigBit, SigBit)>)
    requires Classes(keys, rep, merged)
    ensures AllTogether(keys, rep, merged)
  {
  }

  ghost predicate Unique(keys: seq<SigBit>) {
    forall i, j :: 0 <= i < j < |keys| ==> keys[i] != keys[j]
  }

  lemma SharedConnected(keys: seq<SigBit>, rep: seq<nat>, merged: set<(SigBit, SigBit)>, x: SigBit, y: SigBit,
      rx: SigBit, ry: SigBit)
    requires Classes(keys, rep, merged) && Rooting(rep) && Unique(keys) && StandsFor(keys, rep, x, rx) &&
        StandsFor(keys, rep, y, ry) && rx == ry
    ensures Connected(merged, x, y)
  {
    hide Connected;
    if x in keys && y in keys {
      var i :| 0 <= i < |keys| && keys[i] == x && rep[i] < |keys| && keys[rep[i]] == rx;
      var j :| 0 <= j < |keys| && keys[j] == y && rep[j] < |keys| && keys[rep[j]] == ry;
      assert rep[i] == rep[j];
    } else {
      assert x == y;
      ConnectedItself(merged, x);
    }
  }

  lemma ConnectedShared(keys: seq<SigBit>, rep: seq<nat>, pairs: set<(SigBit, SigBit)>, x: SigBit, y: SigBit,
      rx: SigBit, ry: SigBit)
    requires AllTogether(keys, rep, pairs) && Unique(keys) && StandsFor(keys, rep, x, rx) &&
        StandsFor(keys, rep, y, ry) && Connected(pairs, x, y)
    ensures rx == ry
  {
    var p :| Path(pairs, p) && p[0] == x && p[|p| - 1] == y;
    if |p| > 1 {
      AlongPath(keys, rep, pairs, p);
      var i, j :| 0 <= i < |keys| && 0 <= j < |keys| && keys[i] == x && keys[j] == y && rep[i] == rep[j];
    } else {
      assert x == y;
    }
  }

  lemma {:induction false} AlongPath(keys: seq<SigBit>, rep: seq<nat>, pairs: set<(SigBit, SigBit)>, p: seq<SigBit>)
    requires AllTogether(keys, rep, pairs) && Unique(keys) && Path(pairs, p) && |p| > 1
    ensures Together(keys, rep, p[0], p[|p| - 1])
    decreases |p|
  {
    hide Connected;
    var n := |p| - 1;
    assert Step(pairs, p[n - 1], p[n]);
    if (p[n - 1], p[n]) in pairs {
      assert Together(keys, rep, p[n - 1], p[n]);
    } else {
      assert (p[n], p[n - 1]) in pairs;
      TogetherBack(keys, rep, p[n], p[n - 1]);
    }
    if n > 1 {
      AlongPath(keys, rep, pairs, p[..n]);
      TogetherJoin(keys, rep, p[0], p[n - 1], p[n]);
    }
  }

  lemma TogetherBack(keys: seq<SigBit>, rep: seq<nat>, x: SigBit, y: SigBit)
    requires |rep| == |keys| && Together(keys, rep, x, y)
    ensures Together(keys, rep, y, x)
  {
  }

  lemma TogetherJoin(keys: seq<SigBit>, rep: seq<nat>, x: SigBit, y: SigBit, z: SigBit)
    requires |rep| == |keys| && Unique(keys) && Together(keys, rep, x, y) && Together(keys, rep, y, z)
    ensures Together(keys, rep, x, z)
  {
    var i, j :| 0 <= i < |keys| && 0 <= j < |keys| && keys[i] == x && keys[j] == y && rep[i] == rep[j];
    var k, l :| 0 <= k < |keys| && 0 <= l < |keys| && keys[k] == y && keys[l] == z && rep[k] == rep[l];
    assert j == k;
  }

  // ---------------------------------------------------------------- one added pair

  lemma ForestRooting(parents: seq<int>, depth: seq<nat>, rep: seq<nat>)
    requires Forest(parents, depth, rep)
    ensures Rooting(rep) && |rep| == |parents|
  {
    forall i | 0 <= i < |rep| ensures rep[i] < |rep| && rep[rep[i]] == rep[i] { Rooted(parents, depth, rep, i); }
  }

  lemma TogetherMerged(keys: seq<SigBit>, rep: seq<nat>, r: nat, s: nat, x: SigBit, y: SigBit)
    requires |rep| == |keys| && Together(keys, rep, x, y)
    ensures Together(keys, MergedRep(rep, r, s), x, y)
  {
    var i, j :| 0 <= i < |keys| && 0 <= j < |keys| && keys[i] == x && keys[j] == y && rep[i] == rep[j];
    assert MergedRep(rep, r, s)[i] == MergedRep(rep, r, s)[j];
  }

  /** What the map knows: its classes, constants first, and all pairs it was given unless they clash. */
  ghost predicate Knows(keys: seq<SigBit>, rep: seq<nat>, added: set<(SigBit, SigBit)>, merged: set<(SigBit, SigBit)>) {
    && Classes(keys, rep, merged) && Rooting(rep) && Unique(keys) && ConstRooted(keys, rep) && merged <= added
    && (NoClash(added) ==> forall p :: p in added ==> Together(keys, rep, p.0, p.1))
  }

  lemma KnowsFacts(keys: seq<SigBit>, rep: seq<nat>, added: set<(SigBit, SigBit)>, merged: set<(SigBit, SigBit)>)
    requires Knows(keys, rep, added, merged)
    ensures |rep| == |keys| && Rooting(rep) && Unique(keys)
  {
  }

  lemma KnowsNew(keys: seq<SigBit>, rep: seq<nat>, added: set<(SigBit, SigBit)>, merged: set<(SigBit, SigBit)>,
      key: SigBit)
    requires Knows(keys, rep, added, merged) && key !in keys
    ensures Knows(keys + [key], rep + [|rep|], added, merged)
  {
    hide NoClash, Connected;
    ClassesNew(keys, rep, merged, key);
    if NoClash(added) {
      forall p | p in added ensures Together(keys + [key], rep + [|rep|], p.0, p.1) {
        TogetherLater(keys, rep, keys + [key], rep + [|rep|], p.0, p.1);
      }
    }
  }

  lemma KnowsPromoted(keys: seq<SigBit>, rep: seq<nat>, added: set<(SigBit, SigBit)>, merged: set<(SigBit, SigBit)>,
      i: nat)
    requires Knows(keys, rep, added, merged) && i < |keys| && keys[rep[i]].WireBit?
    ensures Knows(keys, MergedRep(rep, rep[i], i), added, merged)
  {
    hide NoClash, Connected;
    PromotedPartition(rep, i);
    ClassesSame(keys, rep, MergedRep(rep, rep[i], i), merged);
    if NoClash(added) {
      forall p | p in added ensures Together(keys, MergedRep(rep, rep[i], i), p.0, p.1) {
        TogetherMerged(keys, rep, rep[i], i, p.0, p.1);
      }
    }
  }

  lemma LessClash(pairs: set<(SigBit, SigBit)>, more: set<(SigBit, SigBit)>)
    requires NoClash(more) && pairs <= more
    ensures NoClash(pairs)
  {
    hide Connected;
    forall s: nat, t: nat | s != t ensures !Connected(pairs, ConstBit(s), ConstBit(t)) {
      if Connected(pairs, ConstBit(s), ConstBit(t)) {
        ConnectedMore(pairs, more, ConstBit(s), ConstBit(t));
        assert false;
      }
    }
  }

  /** Representatives after a pair has been merged and constants have been promoted. */
  function JoinedRep(keys: seq<SigBit>, rep: seq<nat>, ri: nat, rj: nat): (r: seq<nat>)
    requires |rep| == |keys| && ri < |keys| && rj < |keys|
    ensures |r| == |rep|
  {
    var rep1 := MergedRep(rep, ri, rj);
    var rep2 := if keys[ri].ConstBit? then MergedRep(rep1, rep1[ri], ri) else rep1;
    if keys[rj].ConstBit? then MergedRep(rep2, rep2[rj], rj) else rep2
  }

  lemma KnowsJoined(keys: seq<SigBit>, rep: seq<nat>, added: set<(SigBit, SigBit)>, merged: set<(SigBit, SigBit)>,
      i: nat, j: nat)
    requires Knows(keys, rep, added, merged) && i < |keys| && j < |keys| &&
        (keys[rep[i]].WireBit? || keys[rep[j]].WireBit?)
    ensures var pair := (keys[i], keys[j]);
        Knows(keys, JoinedRep(keys, rep, rep[i], rep[j]), added + {pair}, merged + {pair})
  {
    hide NoClash, Connected;
    var ri, rj, pair := rep[i], rep[j], (keys[i], keys[j]);
    var rep1 := MergedRep(rep, ri, rj);
    var rep2 := if keys[ri].ConstBit? then MergedRep(rep1, rep1[ri], ri) else rep1;
    var rep3 := JoinedRep(keys, rep, ri, rj);
    ClassesMerged(keys, rep, merged, i, j);
    if keys[ri].ConstBit? {
      PromotedPartition(rep1, ri);
      ClassesSame(keys, rep1, rep2, merged + {pair});
    }
    if keys[rj].ConstBit? {
      PromotedPartition(rep2, rj);
      ClassesSame(keys, rep2, rep3, merged + {pair});
    }
    if NoClash(added + {pair}) {
      LessClash(added, added + {pair});
      forall p | p in added + {pair} ensures Together(keys, rep3, p.0, p.1) {
        if p in added { JoinedTogether(keys, rep, ri, rj, p.0, p.1); }
      }
    }
  }

  lemma JoinedTogether(keys: seq<SigBit>, rep: seq<nat>, ri: nat, rj: nat, x: SigBit, y: SigBit)
    requires |rep| == |keys| && ri < |keys| && rj < |keys| && Together(keys, rep, x, y)
    ensures Together(keys, JoinedRep(keys, rep, ri, rj), x, y)
  {
    hide Together;
    var rep1 := MergedRep(rep, ri, rj);
    var rep2 := if keys[ri].ConstBit? then MergedRep(rep1, rep1[ri], ri) else rep1;
    TogetherMerged(keys, rep, ri, rj, x, y);
    if keys[ri].ConstBit? { TogetherMerged(keys, rep1, rep1[ri], ri, x, y); }
    if keys[rj].ConstBit? { TogetherMerged(keys, rep2, rep2[rj], rj, x, y); }
  }

  /** Two classes represented by constants are left alone: either they are one class or the pairs clash. */
  lemma KnowsSkipped(keys: seq<SigBit>, rep: seq<nat>, added: set<(SigBit, SigBit)>, merged: set<(SigBit, SigBit)>,
      i: nat, j: nat)
    requires Knows(keys, rep, added, merged) && i < |keys| && j < |keys| && keys[rep[i]].ConstBit? &&
        keys[rep[j]].ConstBit?
    ensures Knows(keys, rep, added + {(keys[i], keys[j])}, merged)
  {
    hide Connected;
    var pair := (keys[i], keys[j]);
    var more := added + {pair};
    if NoClash(more) {
      LessClash(added, more);
      if rep[i] != rep[j] {
        ConnectedMore(merged, more, keys[rep[i]], keys[i]);
        ConnectedMore(merged, more, keys[j], keys[rep[j]]);
        ConnectedStep(more, keys[i], keys[j]);
        ConnectedJoin(more, keys[rep[i]], keys[i], keys[j]);
        ConnectedJoin(more, keys[rep[i]], keys[j], keys[rep[j]]);
        assert false;
      }
      assert Together(keys, rep, pair.0, pair.1);
    }
  }

  /** Unless the given pairs equate two constants, sharing a representative is the closure of those pairs. */
  lemma SharedIffClosure(keys: seq<SigBit>, rep: seq<nat>, added: set<(SigBit, SigBit)>,
      merged: set<(SigBit, SigBit)>, x: SigBit, y: SigBit, rx: SigBit, ry: SigBit)
    requires Knows(keys, rep, added, merged) && NoClash(added) && StandsFor(keys, rep, x, rx) &&
        StandsFor(keys, rep, y, ry)
    ensures rx == ry <==> Connected(added, x, y)
  {
    hide Connected, NoClash, StandsFor, Together, ConstRooted, Unique, Rooting;
    if rx == ry {
      SharedConnected(keys, rep, merged, x, y, rx, ry);
      ConnectedMore(merged, added, x, y);
    }
    if Connected(added, x, y) { ConnectedShared(keys, rep, added, x, y, rx, ry); }
  }

  /** A class holds at most one constant, which is then its representative. */
  lemma ConstantStands(keys: seq<SigBit>, rep: seq<nat>, added: set<(SigBit, SigBit)>, merged: set<(SigBit, SigBit)>,
      x: SigBit, rx: SigBit, s: nat)
    requires Knows(keys, rep, added, merged) && StandsFor(keys, rep, x, rx) && Connected(merged, x, ConstBit(s))
    ensures rx == ConstBit(s)
  {
    hide Connected, NoClash, Together;
    var c := ConstBit(s);
    if c in keys {
      var i :| 0 <= i < |keys| && keys[i] == c;
      assert rep[i] == i;
    }
    assert StandsFor(keys, rep, c, c);
    SharedIffConnected(keys, rep, merged, x, c, rx, c);
  }

  // ---------------------------------------------------------------- the representative as a function

  ghost function RepOf(keys: seq<SigBit>, rep: seq<nat>, x: SigBit): SigBit
    requires |rep| == |keys| && Rooting(rep)
  {
    if x in keys then
      var i :| 0 <= i < |keys| && keys[i] == x;
      keys[rep[i]]
    else x
  }

  lemma RepIs(keys: seq<SigBit>, rep: seq<nat>, i: nat)
    requires |rep| == |keys| && Rooting(rep) && Unique(keys) && i < |keys|
    ensures RepOf(keys, rep, keys[i]) == keys[rep[i]]
  {
  }

  lemma StandsRep(keys: seq<SigBit>, rep: seq<nat>, x: SigBit, r: SigBit)
    requires |rep| == |keys| && Rooting(rep) && Unique(keys) && StandsFor(keys, rep, x, r)
    ensures RepOf(keys, rep, x) == r
  {
    if x in keys {
      var i :| 0 <= i < |keys| && keys[i] == x && rep[i] < |keys| && keys[rep[i]] == r;
      RepIs(keys, rep, i);
    }
  }

  /** A bit nobody has mentioned stands for itself alone. */
  lemma RepKnown(keys: seq<SigBit>, rep: seq<nat>, x: SigBit, bit: SigBit)
    requires |rep| == |keys| && Rooting(rep) && Unique(keys) && bit !in keys
    ensures RepOf(keys, rep, bit) == bit && (RepOf(keys, rep, x) == bit ==> x == bit)
  {
    if x in keys {
      var i :| 0 <= i < |keys| && keys[i] == x;
      RepIs(keys, rep, i);
    }
  }

  lemma RepNew(keys: seq<SigBit>, rep: seq<nat>, key: SigBit, x: SigBit)
    requires |rep| == |keys| && Rooting(rep) && Unique(keys) && key !in keys && Rooting(rep + [|rep|]) &&
        Unique(keys + [key])
    ensures RepOf(keys + [key], rep + [|rep|], x) == RepOf(keys, rep, x)
  {
    if x in keys {
      var i :| 0 <= i < |keys| && keys[i] == x;
      RepIs(keys, rep, i);
      RepIs(keys + [key], rep + [|rep|], i);
    } else if x == key {
      RepIs(keys + [key], rep + [|rep|], |keys|);
    }
  }

  /** Who stands for the class of `r` once the classes of `a` and `b` are joined: a constant if there is one, else `b`.
      Two constants are not joined. */
  function Joined(a: SigBit, b: SigBit, r: SigBit): SigBit {
    if a.ConstBit? && b.ConstBit? then r
    else if r == a || r == b then (if a.ConstBit? then a else b)
    else r
  }

  lemma RepJoined(keys: seq<SigBit>, rep: seq<nat>, i: nat, j: nat, x: SigBit)
    requires |rep| == |keys| && Rooting(rep) && Unique(keys) && i < |keys| && j < |keys|
    requires keys[rep[i]].WireBit? || keys[rep[j]].WireBit?
    requires Rooting(JoinedRep(keys, rep, rep[i], rep[j])) && (x !in keys ==> x != keys[rep[i]] && x != keys[rep[j]])
    ensures RepOf(keys, JoinedRep(keys, rep, rep[i], rep[j]), x) ==
            Joined(keys[rep[i]], keys[rep[j]], RepOf(keys, rep, x))
  {
    if x in keys {
      var k :| 0 <= k < |keys| && keys[k] == x;
      RepIs(keys, rep, k);
      RepIs(keys, JoinedRep(keys, rep, rep[i], rep[j]), k);
    }
  }

  /** Who stands for `x` once the first `n` pairs have been joined. */
  ghost function RepWith(keys: seq<SigBit>, rep: seq<nat>, from: seq<SigBit>, to: seq<SigBit>, n: nat,
      x: SigBit): SigBit
    requires |rep| == |keys| && Rooting(rep) && n <= |from| == |to|
  {
    if n == 0 then RepOf(keys, rep, x)
    else
      Joined(RepWith(keys, rep, from, to, n - 1, from[n - 1]), RepWith(keys, rep, from, to, n - 1, to[n - 1]),
             RepWith(keys, rep, from, to, n - 1, x))
  }

  /** Promoting index `i` changes who stands for its class and for no other. */
  lemma RepPromoted(keys: seq<SigBit>, rep: seq<nat>, i: nat, x: SigBit)
    requires |rep| == |keys| && Rooting(rep) && Unique(keys) && i < |keys| && Rooting(MergedRep(rep, rep[i], i))
    ensures RepOf(keys, MergedRep(rep, rep[i], i), x) ==
            if RepOf(keys, rep, x) == keys[rep[i]] then keys[i] else RepOf(keys, rep, x)
  {
    if x in keys {
      var k :| 0 <= k < |keys| && keys[k] == x;
      RepIs(keys, rep, k);
      RepIs(keys, MergedRep(rep, rep[i], i), k);
    }
  }

  class SigMap {
    const database: Mfp<SigBit>
    // All pairs given to `Add`, and those among them that joined two classes or lay in one.
    ghost var added: set<(SigBit, SigBit)>
    ghost var merged: set<(SigBit, SigBit)>

    ghost predicate Valid()
      reads this, database, database.database
    {
      database.Valid() && Knows(database.Keys(), database.rep, added, merged)
    }

    /** The representative of every bit. */
    ghost function Rep(x: SigBit): SigBit
      requires Valid()
      reads this, database, database.database
    {
      KnowsHere();
      RepOf(database.Keys(), database.rep, x)
    }

    constructor (hash: SigBit -> nat, tableSize: nat -> nat)
      requires forall n :: tableSize(n) >= n
      ensures Valid() && fresh(database) && fresh(database.database) && added == {} && database.Keys() == []
      ensures forall x :: Rep(x) == x
    {
      database := new Mfp(hash, tableSize);
      added, merged := {}, {};
      new;
      ForestSizes(database.parents, database.depth, database.rep);
    }

    /** The root index of a bit, which is remembered if it is new. */
    method Lookup(bit: SigBit) returns (p: nat, ghost i: nat)
      requires Valid()
      modifies database, database.database
      ensures Valid() && old(database.Keys()) <= database.Keys() && old(database.rep) <= database.rep
      ensures i < |database.Keys()| == |database.rep| && database.Keys()[i] == bit &&
          p == database.rep[i] < |database.Keys()|
      ensures forall x :: Rep(x) == old(Rep(x))
    {
      hide Dict.Valid, Forest, Knows, RepOf, Rooting, Unique;
      KnowsHere();
      ghost var keys, rep := database.Keys(), database.rep;
      if bit !in keys {
        KnowsNew(keys, rep, added, merged, bit);
        KnowsFacts(keys + [bit], rep + [|rep|], added, merged);
        forall x ensures RepOf(keys + [bit], rep + [|rep|], x) == RepOf(keys, rep, x) { RepNew(keys, rep, bit, x); }
      }
      var index := database.Index(bit);
      p := database.IFind(index);
      i := index;
    }

    lemma KnowsHere()
      requires Valid()
      ensures |database.rep| == |database.Keys()| == |database.parents| && Rooting(database.rep) &&
          Unique(database.Keys())
    {
      ForestRooting(database.parents, database.depth, database.rep);
    }

    method AddPair(from: SigBit, to: SigBit)
      requires Valid()
      modifies this, database, database.database
      ensures Valid() && added == old(added) + {(from, to)}
      ensures forall x :: Rep(x) == Joined(old(Rep(from)), old(Rep(to)), old(Rep(x)))
      // A constant stands for the joined class, else who stood for `to`; two constants are kept apart.
      ensures var a, b := old(Rep(from)), old(Rep(to));
              forall x :: Rep(x) == if (a.WireBit? || b.WireBit?) && old(Rep(x)) in {a, b}
                                    then (if a.ConstBit? then a else b) else old(Rep(x))
    {
      hide Dict.Valid, Forest, Knows, RepOf, Rooting, Unique;
      ghost var i, j;
      var bfi, bti;
      bfi, i := Lookup(from);
      bti, j := Lookup(to);
      KnowsHere();
      var bf, bt := database.database.entries[bfi].key, database.database.entries[bti].key;
      ghost var keys, rep := database.Keys(), database.rep;
      assert keys[bfi] == bf && keys[bti] == bt;
      RepIs(keys, rep, i);
      RepIs(keys, rep, j);
      if bf.WireBit? || bt.WireBit? {
        KnowsJoined(keys, rep, added, merged, i, j);
        KnowsFacts(keys, JoinedRep(keys, rep, bfi, bti), added + {(from, to)}, merged + {(from, to)});
        forall x ensures RepOf(keys, JoinedRep(keys, rep, bfi, bti), x) == Joined(bf, bt, RepOf(keys, rep, x)) {
          RepJoined(keys, rep, i, j, x);
        }
        database.IMerge(bfi, bti);
        if bf.ConstBit? { database.IPromote(bfi); }
        if bt.ConstBit? { database.IPromote(bti); }
        added, merged := added + {(from, to)}, merged + {(from, to)};
      } else {
        KnowsSkipped(keys, rep, added, merged, i, j);
        added := added + {(from, to)};
      }
    }

    /** Connects two signals bit by bit. */
    method Add(from: seq<SigBit>, to: seq<SigBit>)
      requires Valid() && |from| == |to|
      modifies this, database, database.database
      ensures Valid() && added == old(added) + PairsOf(from, to, |from|)
      // Exactly the pairs are joined, one after the other.
      ensures |old(database.rep)| == |old(database.Keys())| && Rooting(old(database.rep))
      ensures forall x :: Rep(x) == RepWith(old(database.Keys()), old(database.rep), from, to, |from|, x)
    {
      hide Dict.Valid, Forest, Knows, RepOf, Rooting;
      KnowsHere();
      for i := 0 to |from|
        invariant Valid() && added == old(added) + PairsOf(from, to, i)
        invariant forall x :: Rep(x) == RepWith(old(database.Keys()), old(database.rep), from, to, i, x)
      {
        AddPair(from[i], to[i]);
      }
    }

    /** Makes a bit the representative of its class, unless a constant is. */
    method AddBit(bit: SigBit)
      requires Valid()
      modifies database, database.database
      ensures Valid() && database.Keys() == old(database.Keys()) && SamePartition(old(database.rep), database.rep)
      ensures StandsFor(database.Keys(), database.rep, bit, bit) ||
          exists s: nat :: StandsFor(database.Keys(), database.rep, bit, ConstBit(s))
      ensures forall x ::
                Rep(x) == if old(Rep(bit)).WireBit? && old(Rep(x)) == old(Rep(bit)) then bit else old(Rep(x))
    {
      hide Dict.Valid, Forest, Knows, RepOf, Rooting, Unique;
      KnowsHere();
      var b := database.Find(bit);
      ghost var keys, rep := database.Keys(), database.rep;
      StandsRep(keys, rep, bit, b);
      if b.WireBit? {
        forall i | 0 <= i < |keys| && keys[i] == bit
          ensures Knows(keys, MergedRep(rep, rep[i], i), added, merged) && Rooting(MergedRep(rep, rep[i], i))
          ensures SamePartition(rep, MergedRep(rep, rep[i], i))
          ensures forall x :: RepOf(keys, MergedRep(rep, rep[i], i), x) ==
                                if RepOf(keys, rep, x) == b then bit else RepOf(keys, rep, x)
        {
          SameIndex(keys, rep, added, merged, i, bit, b);
          KnowsPromoted(keys, rep, added, merged, i);
          KnowsFacts(keys, MergedRep(rep, rep[i], i), added, merged);
          PromotedPartition(rep, i);
          forall x ensures RepOf(keys, MergedRep(rep, rep[i], i), x) ==
                             if RepOf(keys, rep, x) == b then bit else RepOf(keys, rep, x)
          {
            RepPromoted(keys, rep, i, x);
          }
        }
        database.Promote(bit);
        if bit !in keys {
          RepKnown(keys, rep, bit, bit);
          forall x ensures RepOf(keys, rep, x) == b ==> x == bit { RepKnown(keys, rep, x, bit); }
        }
      } else {
        assert StandsFor(keys, rep, bit, ConstBit(b.state));
      }
    }

    /** The representative of a bit. */
    method Apply(bit: SigBit) returns (r: SigBit)
      requires Valid()
      modifies database, database.database
      ensures Valid() && database.Keys() == old(database.Keys()) && database.rep == old(database.rep)
      ensures StandsFor(database.Keys(), database.rep, bit, r) && r == Rep(bit) && forall x :: Rep(x) == old(Rep(x))
      ensures forall s: nat :: Connected(merged, bit, ConstBit(s)) ==> r == ConstBit(s)
    {
      hide Dict.Valid, Forest, Knows, Connected, RepOf, Rooting, Unique;
      KnowsHere();
      r := database.Find(bit);
      StandsRep(database.Keys(), database.rep, bit, r);
      forall s: nat | Connected(merged, bit, ConstBit(s)) ensures r == ConstBit(s) {
        ConstantStands(database.Keys(), database.rep, added, merged, bit, r, s);
      }
    }

    /** The representatives of a signal: two of its bits get the same one exactly when they are connected. */
    method ApplyAll(sig: seq<SigBit>) returns (r: seq<SigBit>)
      requires Valid()
      modifies database, database.database
      ensures Valid() && database.Keys() == old(database.Keys()) && database.rep == old(database.rep)
      ensures |r| == |sig| && (forall i :: 0 <= i < |sig| ==> r[i] == old(Rep(sig[i])))
      ensures forall x :: Rep(x) == old(Rep(x))
      ensures NoClash(added) ==>
          forall i, j :: 0 <= i < |sig| && 0 <= j < |sig| ==> (r[i] == r[j] <==> Connected(added, sig[i], sig[j]))
    {
      hide Dict.Valid, Forest, Knows, Connected, StandsFor, NoClash, RepOf;
      r := [];
      KnowsHere();
      for k := 0 to |sig|
        invariant Valid() && database.Keys() == old(database.Keys()) && database.rep == old(database.rep) && |r| == k
        invariant |database.rep| == |database.Keys()| &&
            forall i :: 0 <= i < k ==> StandsFor(database.Keys(), database.rep, sig[i], r[i])
        invariant (forall i :: 0 <= i < k ==> r[i] == old(Rep(sig[i]))) && forall x :: Rep(x) == old(Rep(x))
      {
        var b := Apply(sig[k]);
        r := r + [b];
      }
      if NoClash(added) {
        forall i, j | 0 <= i < |sig| && 0 <= j < |sig| ensures r[i] == r[j] <==> Connected(added, sig[i], sig[j]) {
          SharedIffClosure(database.Keys(), database.rep, added, merged, sig[i], sig[j], r[i], r[j]);
        }
      }
    }
  }

  ghost function PairsOf(from: seq<SigBit>, to: seq<SigBit>, n: nat): set<(SigBit, SigBit)>
    requires n <= |from| == |to|
  {
    if n == 0 then {} else PairsOf(from, to, n - 1) + {(from[n - 1], to[n - 1])}
  }

  lemma SameIndex(keys: seq<SigBit>, rep: seq<nat>, added: set<(SigBit, SigBit)>, merged: set<(SigBit, SigBit)>,
      i: nat, bit: SigBit, b: SigBit)
    requires Knows(keys, rep, added, merged) && i < |keys| && keys[i] == bit && StandsFor(keys, rep, bit, b)
    ensures rep[i] < |keys| && keys[rep[i]] == b
  {
    hide Classes, NoClash;
  }
}
