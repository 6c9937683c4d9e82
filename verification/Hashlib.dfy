/**
 The hash table of `kernel/hashlib.h`: densely stored entries, chained through their `next` fields into
 buckets, an erase that moves the last entry into the gap, and a lookup that rebuilds the buckets when they
 have become too few.

 `chains` follows the links of every bucket as a sequence of entry numbers. The table of `pool` and `idict` is
 the same one without values.
 */
module Hashlib {
  datatype Entry<K, V> = Entry(key: K, value: V, next: int)

  // ---------------------------------------------------------------- chains of entries

  /** Entry number at a position of a chain, or the end mark. */
  function At(c: seq<nat>, j: nat): int {
    if j < |c| then c[j] else -1
  }

  /** Starting from `head` the links run through exactly the chain `c`. */
  predicate Linked<K, V>(entries: seq<Entry<K, V>>, head: int, c: seq<nat>) {
    head == At(c, 0) && forall j :: 0 <= j < |c| ==> LinkAt(entries, c, j)
  }

  predicate LinkAt<K, V>(entries: seq<Entry<K, V>>, c: seq<nat>, j: nat)
    requires j < |c|
  {
    c[j] < |entries| && entries[c[j]].next == At(c, j + 1)
  }

  predicate Distinct(c: seq<nat>) {
    forall i, j :: 0 <= i < j < |c| ==> c[i] != c[j]
  }

  function Slot<K>(hash: K -> nat, key: K, size: nat): (b: nat)
    requires size > 0
    ensures b < size
  {
    hash(key) % size
  }

  /** A bucket: linked, without repetition, holding only live entries that hash to it. */
  predicate Bucket<K, V>(hash: K -> nat, size: nat, entries: seq<Entry<K, V>>, head: int, c: seq<nat>, live: set<nat>,
      b: nat)
    requires size > 0
  {
    Linked(entries, head, c) && Distinct(c) &&
        forall j :: 0 <= j < |c| ==> c[j] in live && c[j] < |entries| && Slot(hash, entries[c[j]].key, size) == b
  }

  /** The buckets together hold every live entry. */
  predicate Chained<K, V>(hash: K -> nat, hashtable: seq<int>, entries: seq<Entry<K, V>>, chains: seq<seq<nat>>,
      live: set<nat>)
  {
    && |chains| == |hashtable| > 0 && (forall i :: i in live ==> i < |entries|)
    && (forall b :: 0 <= b < |hashtable| ==> Bucket(hash, |hashtable|, entries, hashtable[b], chains[b], live, b))
    && (forall i :: i in live ==> i in chains[Slot(hash, entries[i].key, |hashtable|)])
  }

  function Indices(n: nat): (s: set<nat>)
    ensures forall i: nat :: i in s <==> i < n
  {
    if n == 0 then {} else Indices(n - 1) + {n - 1}
  }

  lemma {:induction false} MoreIndices(n: nat)
    ensures Indices(n) + {n} == Indices(n + 1)
  {
  }

  ghost predicate SameLive<K, V>(entries: seq<Entry<K, V>>, entries': seq<Entry<K, V>>, live: set<nat>) {
    forall i :: i in live ==> i < |entries| && i < |entries'| && entries'[i] == entries[i]
  }

  lemma EmptyTable<K, V>(hash: K -> nat, hashtable: seq<int>, entries: seq<Entry<K, V>>, chains: seq<seq<nat>>)
    requires |chains| == |hashtable| > 0 && forall b :: 0 <= b < |hashtable| ==> hashtable[b] == -1 && chains[b] == []
    ensures Chained(hash, hashtable, entries, chains, Indices(0))
  {
  }

  /** A bucket none of whose entries change. */
  lemma OtherBucket<K, V>(hash: K -> nat, size: nat, entries: seq<Entry<K, V>>, entries': seq<Entry<K, V>>, head: int,
      c: seq<nat>, live: set<nat>, live': set<nat>, x: nat)
    requires size > 0 && Bucket(hash, size, entries, head, c, live, x) && |entries'| >= |entries|
    requires forall i ::
        i in live && i < |entries| && Slot(hash, entries[i].key, size) == x ==> entries'[i] == entries[i] && i in live'
    ensures Bucket(hash, size, entries', head, c, live', x)
  {
    hide Slot;
    forall y | 0 <= y < |c| ensures LinkAt(entries', c, y) && entries'[c[y]] == entries[c[y]] && c[y] in live' {
      assert LinkAt(entries, c, y) && c[y] in live && Slot(hash, entries[c[y]].key, size) == x;
    }
  }

  lemma BucketAt<K, V>(hash: K -> nat, hashtable: seq<int>, entries: seq<Entry<K, V>>, chains: seq<seq<nat>>,
      live: set<nat>, b: nat)
    requires Chained(hash, hashtable, entries, chains, live) && b < |hashtable|
    ensures Bucket(hash, |hashtable|, entries, hashtable[b], chains[b], live, b)
  {
  }

  lemma PushBucket<K, V>(hash: K -> nat, size: nat, entries: seq<Entry<K, V>>, head: int, c: seq<nat>, live: set<nat>,
      entries': seq<Entry<K, V>>, i: nat)
    requires size > 0 && i !in live && i < |entries'| && SameLive(entries, entries', live) && entries'[i].next == head
    requires Bucket(hash, size, entries, head, c, live, Slot(hash, entries'[i].key, size))
    ensures Bucket(hash, size, entries', i, [i] + c, live + {i}, Slot(hash, entries'[i].key, size))
  {
    hide Slot;
    var b, c' := Slot(hash, entries'[i].key, size), [i] + c;
    forall j | 0 <= j < |c'|
      ensures c'[j] in live + {i} && LinkAt(entries', c', j) && Slot(hash, entries'[c'[j]].key, size) == b
    {
      if j > 0 { assert c'[j] == c[j - 1] && c[j - 1] in live && LinkAt(entries, c, j - 1); }
    }
    forall x, y | 0 <= x < y < |c'| ensures c'[x] != c'[y] {
      assert c'[y] == c[y - 1] && c[y - 1] in live;
      if x > 0 { assert c'[x] == c[x - 1]; }
    }
  }

  /** Putting a new entry in front of its bucket. */
  lemma PushFront<K, V>(hash: K -> nat, hashtable: seq<int>, entries: seq<Entry<K, V>>, chains: seq<seq<nat>>,
      live: set<nat>, entries': seq<Entry<K, V>>, i: nat)
    requires Chained(hash, hashtable, entries, chains, live) && SameLive(entries, entries', live) && i !in live &&
        i < |entries'| && |entries'| >= |entries|
    requires entries'[i].next == hashtable[Slot(hash, entries'[i].key, |hashtable|)]
    ensures var b := Slot(hash, entries'[i].key, |hashtable|);
            Chained(hash, hashtable[b := i], entries', chains[b := [i] + chains[b]], live + {i})
  {
    hide Slot, Bucket;
    var b, size := Slot(hash, entries'[i].key, |hashtable|), |hashtable|;
    var hashtable', chains', live' := hashtable[b := i], chains[b := [i] + chains[b]], live + {i};
    forall x | 0 <= x < size ensures Bucket(hash, size, entries', hashtable'[x], chains'[x], live', x) {
      BucketAt(hash, hashtable, entries, chains, live, x);
      if x == b {
        PushBucket(hash, size, entries, hashtable[b], chains[b], live, entries', i);
      } else {
        OtherBucket(hash, size, entries, entries', hashtable[x], chains[x], live, live', x);
      }
    }
    forall x | x in live' ensures x in chains'[Slot(hash, entries'[x].key, size)] {
      if x != i { assert x in chains[Slot(hash, entries[x].key, size)]; } else { assert chains'[b][0] == i; }
    }
  }

  /** A chain without its `j`-th element. */
  function Without(c: seq<nat>, j: nat): seq<nat>
    requires j < |c|
  {
    c[..j] + c[j + 1..]
  }

  function Replaced(c: seq<nat>, j: nat, x: nat): seq<nat>
    requires j < |c|
  {
    c[j := x]
  }

  /** The table after the link that leads to position `j` of bucket `b` has been turned to `to`. */
  function Redirect<K, V>(entries: seq<Entry<K, V>>, c: seq<nat>, j: nat, to: int): seq<Entry<K, V>>
    requires j <= |c| && (j > 0 ==> c[j - 1] < |entries|)
  {
    if j == 0 then entries else entries[c[j - 1] := entries[c[j - 1]].(next := to)]
  }

  function RedirectHead(hashtable: seq<int>, b: nat, j: nat, to: int): seq<int>
    requires b < |hashtable|
  {
    if j == 0 then hashtable[b := to] else hashtable
  }

  lemma InChain<K, V>(hash: K -> nat, hashtable: seq<int>, entries: seq<Entry<K, V>>, chains: seq<seq<nat>>,
      live: set<nat>, i: nat)
    requires Chained(hash, hashtable, entries, chains, live) && i in live
    ensures i < |entries| && i in chains[Slot(hash, entries[i].key, |hashtable|)]
  {
  }

  lemma TableSize<K, V>(hash: K -> nat, hashtable: seq<int>, entries: seq<Entry<K, V>>, chains: seq<seq<nat>>,
      live: set<nat>)
    requires Chained(hash, hashtable, entries, chains, live)
    ensures |chains| == |hashtable| > 0
  {
  }

  /** The bucket an entry is taken out of. */
  lemma UnlinkBucket<K, V>(hash: K -> nat, size: nat, entries: seq<Entry<K, V>>, head: int, c: seq<nat>, live: set<nat>,
      b: nat, j: nat)
    requires size > 0 && Bucket(hash, size, entries, head, c, live, b) && j < |c|
    ensures c[j] < |entries| && (j > 0 ==> c[j - 1] < |entries|)
    ensures var to := entries[c[j]].next;
            Bucket(hash, size, Redirect(entries, c, j, to),
                if j == 0 then to else head, Without(c, j), live - {c[j]}, b)
  {
    hide Slot;
    assert LinkAt(entries, c, j) && (j > 0 ==> LinkAt(entries, c, j - 1));
    var index, to, c' := c[j], entries[c[j]].next, Without(c, j);
    var entries' := Redirect(entries, c, j, to);
    forall x | 0 <= x < |c'|
      ensures c'[x] in live - {index} && LinkAt(entries', c', x) && Slot(hash, entries'[c'[x]].key, size) == b
    {
      var y := if x < j then x else x + 1;
      assert c'[x] == c[y] && c[y] in live && c[y] != index && LinkAt(entries, c, y);
    }
    forall x, y | 0 <= x < y < |c'| ensures c'[x] != c'[y] {
      assert c[if x < j then x else x + 1] != c[if y < j then y else y + 1];
    }
  }

  /** Taking an entry out of its bucket. */
  lemma Unlink<K, V>(hash: K -> nat, hashtable: seq<int>, entries: seq<Entry<K, V>>, chains: seq<seq<nat>>,
      live: set<nat>, b: nat, j: nat)
    requires Chained(hash, hashtable, entries, chains, live) && b < |hashtable| && j < |chains[b]|
    ensures var c := chains[b]; c[j] < |entries| && (j > 0 ==> c[j - 1] < |entries|)
    ensures var c := chains[b];
            var to := entries[c[j]].next;
            Chained(hash, RedirectHead(hashtable, b, j, to), Redirect(entries, c, j, to), chains[b := Without(c, j)],
                live - {c[j]})
  {
    hide Slot, Bucket;
    var c, size := chains[b], |hashtable|;
    BucketAt(hash, hashtable, entries, chains, live, b);
    UnlinkBucket(hash, size, entries, hashtable[b], c, live, b, j);
    var to := entries[c[j]].next;
    var hashtable', entries', chains', live' := RedirectHead(hashtable, b, j, to), Redirect(entries, c, j, to),
        chains[b := Without(c, j)], live - {c[j]};
    InBucket(hash, size, entries, hashtable[b], c, live, b, j);
    if j > 0 { InBucket(hash, size, entries, hashtable[b], c, live, b, j - 1); }
    forall x | 0 <= x < size ensures Bucket(hash, size, entries', hashtable'[x], chains'[x], live', x) {
      if x != b {
        BucketAt(hash, hashtable, entries, chains, live, x);
        OtherBucket(hash, size, entries, entries', hashtable[x], chains[x], live, live', x);
      }
    }
    forall i | i in live' ensures i in chains'[Slot(hash, entries'[i].key, size)] {
      assert i in chains[Slot(hash, entries[i].key, size)];
      if Slot(hash, entries[i].key, size) == b { StaysWithout(c, j, i); }
    }
  }

  lemma InBucket<K, V>(hash: K -> nat, size: nat, entries: seq<Entry<K, V>>, head: int, c: seq<nat>, live: set<nat>,
      b: nat, j: nat)
    requires size > 0 && Bucket(hash, size, entries, head, c, live, b) && j < |c|
    ensures c[j] < |entries| && c[j] in live && Slot(hash, entries[c[j]].key, size) == b
  {
    assert LinkAt(entries, c, j);
  }

  lemma StaysWithout(c: seq<nat>, j: nat, i: nat)
    requires j < |c| && i in c && i != c[j]
    ensures i in Without(c, j)
  {
    var y :| 0 <= y < |c| && c[y] == i;
    assert Without(c, j)[if y < j then y else y - 1] == i;
  }

  /** The bucket of an entry that moves to a free place. */
  lemma RelinkBucket<K, V>(hash: K -> nat, size: nat, entries: seq<Entry<K, V>>, head: int, c: seq<nat>, live: set<nat>,
      b: nat, j: nat, index: nat)
    requires size > 0 && Bucket(hash, size, entries, head, c, live, b) && j < |c| && index !in live && index < |entries|
    ensures c[j] < |entries| && (j > 0 ==> c[j - 1] < |entries|)
    ensures Bucket(hash, size, Redirect(entries, c, j, index)[index := entries[c[j]]],
        if j == 0 then index else head, Replaced(c, j, index), live - {c[j]} + {index}, b)
  {
    hide Slot;
    assert LinkAt(entries, c, j) && (j > 0 ==> LinkAt(entries, c, j - 1));
    var from, c' := c[j], Replaced(c, j, index);
    var entries', live' := Redirect(entries, c, j, index)[index := entries[from]], live - {from} + {index};
    forall x | 0 <= x < |c'|
      ensures c'[x] in live' && LinkAt(entries', c', x) && Slot(hash, entries'[c'[x]].key, size) == b
    {
      assert c[x] in live && (x != j ==> c[x] != from) && c[x] != index && LinkAt(entries, c, x);
    }
    forall x, y | 0 <= x < y < |c'| ensures c'[x] != c'[y] { assert c[x] != c[y] && c[x] in live && c[y] in live; }
  }

  /** Moving an entry to a free place. */
  lemma Relink<K, V>(hash: K -> nat, hashtable: seq<int>, entries: seq<Entry<K, V>>, chains: seq<seq<nat>>,
      live: set<nat>, b: nat, j: nat, index: nat)
    requires Chained(hash, hashtable, entries, chains, live) && b < |hashtable| && j < |chains[b]| &&
        index !in live && index < |entries|
    ensures var c := chains[b]; c[j] < |entries| && (j > 0 ==> c[j - 1] < |entries|)
    ensures var c := chains[b];
            Chained(hash, RedirectHead(hashtable, b, j, index),
                Redirect(entries, c, j, index)[index := entries[c[j]]], chains[b := Replaced(c, j, index)],
                live - {c[j]} + {index})
  {
    hide Slot, Bucket;
    var c, size := chains[b], |hashtable|;
    BucketAt(hash, hashtable, entries, chains, live, b);
    RelinkBucket(hash, size, entries, hashtable[b], c, live, b, j, index);
    var from, c', live' := c[j], Replaced(c, j, index), live - {c[j]} + {index};
    var hashtable', entries', chains' := RedirectHead(hashtable, b, j, index),
        Redirect(entries, c, j, index)[index := entries[from]], chains[b := c'];
    InBucket(hash, size, entries, hashtable[b], c, live, b, j);
    if j > 0 { InBucket(hash, size, entries, hashtable[b], c, live, b, j - 1); }
    forall x | 0 <= x < size ensures Bucket(hash, size, entries', hashtable'[x], chains'[x], live', x) {
      if x != b {
        BucketAt(hash, hashtable, entries, chains, live, x);
        OtherBucket(hash, size, entries, entries', hashtable[x], chains[x], live, live', x);
      }
    }
    forall i | i in live' ensures i in chains'[Slot(hash, entries'[i].key, size)] {
      if i == index {
        assert c'[j] == i;
      } else {
        assert i in chains[Slot(hash, entries[i].key, size)];
        if Slot(hash, entries[i].key, size) == b {
          var y :| 0 <= y < |c| && c[y] == i;
          assert c'[y] == i;
        }
      }
    }
  }

  /** Entries nobody links to can be cut off. */
  lemma Truncate<K, V>(hash: K -> nat, hashtable: seq<int>, entries: seq<Entry<K, V>>, chains: seq<seq<nat>>, n: nat)
    requires Chained(hash, hashtable, entries, chains, Indices(n)) && n <= |entries|
    ensures Chained(hash, hashtable, entries[..n], chains, Indices(n))
  {
    hide Slot;
    forall b | 0 <= b < |hashtable|
      ensures Bucket(hash, |hashtable|, entries[..n], hashtable[b], chains[b], Indices(n), b)
    {
      assert Bucket(hash, |hashtable|, entries, hashtable[b], chains[b], Indices(n), b);
      forall j | 0 <= j < |chains[b]| ensures LinkAt(entries[..n], chains[b], j) {
        assert LinkAt(entries, chains[b], j) && chains[b][j] in Indices(n);
      }
    }
  }

  // ---------------------------------------------------------------- what the table stores

  ghost predicate UniqueKeys<K, V>(entries: seq<Entry<K, V>>) {
    forall i, j :: 0 <= i < j < |entries| ==> entries[i].key != entries[j].key
  }

  /** Keys and values, in storage order. Iteration runs from the last to the first. */
  function Items<K, V>(entries: seq<Entry<K, V>>): (s: seq<(K, V)>)
    ensures |s| == |entries| && forall i :: 0 <= i < |entries| ==> s[i] == (entries[i].key, entries[i].value)
  {
    seq(|entries|, i requires 0 <= i < |entries| => (entries[i].key, entries[i].value))
  }

  ghost predicate UniqueItems<K, V>(items: seq<(K, V)>) {
    forall i, j :: 0 <= i < j < |items| ==> items[i].0 != items[j].0
  }

  ghost function ToMap<K, V>(items: seq<(K, V)>): map<K, V>
    requires UniqueItems(items)
  {
    map i | 0 <= i < |items| :: items[i].0 := items[i].1
  }

  lemma MapHas<K, V>(items: seq<(K, V)>, i: nat)
    requires UniqueItems(items) && i < |items|
    ensures items[i].0 in ToMap(items) && ToMap(items)[items[i].0] == items[i].1
  {
  }

  lemma MapFrom<K, V>(items: seq<(K, V)>, key: K) returns (i: nat)
    requires UniqueItems(items) && key in ToMap(items)
    ensures i < |items| && items[i] == (key, ToMap(items)[key])
  {
    var j :| 0 <= j < |items| && items[j].0 == key;
    i := j;
  }

  lemma MapLacks<K, V>(items: seq<(K, V)>, key: K)
    requires UniqueItems(items) && forall i :: 0 <= i < |items| ==> items[i].0 != key
    ensures key !in ToMap(items)
  {
  }

  lemma MapAppend<K, V>(items: seq<(K, V)>, key: K, value: V)
    requires UniqueItems(items) && key !in ToMap(items)
    ensures UniqueItems(items + [(key, value)]) && ToMap(items + [(key, value)]) == ToMap(items)[key := value]
  {
    var more := items + [(key, value)];
    forall i | 0 <= i < |items| ensures items[i].0 != key { MapHas(items, i); }
    hide ToMap;
    forall k | k in ToMap(more)
      ensures k in ToMap(items)[key := value] && ToMap(more)[k] == ToMap(items)[key := value][k]
    {
      var i := MapFrom(more, k);
      if i < |items| { MapHas(items, i); }
    }
    forall k | k in ToMap(items)[key := value] ensures k in ToMap(more) {
      if k == key {
        MapHas(more, |items|);
      } else {
        var i := MapFrom(items, k);
        MapHas(more, i);
      }
    }
  }

  /** What swap-with-last leaves. */
  function SwapOut<T>(s: seq<T>, index: nat): (r: seq<T>)
    requires index < |s|
    ensures |r| == |s| - 1 && forall i :: 0 <= i < |r| ==> r[i] == s[if i == index then |s| - 1 else i]
  {
    s[index := s[|s| - 1]][..|s| - 1]
  }

  lemma MapSwapOut<K, V>(items: seq<(K, V)>, index: nat)
    requires UniqueItems(items) && index < |items|
    ensures UniqueItems(SwapOut(items, index)) && ToMap(SwapOut(items, index)) == ToMap(items) - {items[index].0}
  {
    hide ToMap, SwapOut;
    var rest, last := SwapOut(items, index), |items| - 1;
    forall k | k in ToMap(rest) ensures k in ToMap(items) - {items[index].0} && ToMap(rest)[k] == ToMap(items)[k] {
      var i := MapFrom(rest, k);
      MapHas(items, if i == index then last else i);
    }
    forall k | k in ToMap(items) - {items[index].0} ensures k in ToMap(rest) {
      var i := MapFrom(items, k);
      MapHas(rest, if i == last then index else i);
    }
  }

  class Dict<K(==), V> {
    const hash: K -> nat
    // How large a table is taken for at least this many buckets.
    const tableSize: nat -> nat
    var hashtable: seq<int>
    var entries: seq<Entry<K, V>>
    ghost var chains: seq<seq<nat>>

    ghost predicate Valid()
      reads this
    {
      && (forall n :: tableSize(n) >= n) && UniqueKeys(entries)
      && if |hashtable| == 0 then entries == [] else Chained(hash, hashtable, entries, chains, Indices(|entries|))
    }

    ghost function Contents(): map<K, V>
      requires Valid()
      reads this
    {
      ToMap(Items(entries))
    }

    constructor (hash: K -> nat, tableSize: nat -> nat)
      requires forall n :: tableSize(n) >= n
      ensures Valid() && Contents() == map[] && entries == []
    {
      this.hash, this.tableSize := hash, tableSize;
      hashtable, entries, chains := [], [], [];
    }

    function DoHash(key: K): (h: nat)
      reads this
      ensures |hashtable| > 0 ==> h == Slot(hash, key, |hashtable|)
    {
      if |hashtable| > 0 then hash(key) % |hashtable| else 0
    }

    /** Puts entry `i` in front of its bucket. */
    method LinkIn(i: nat)
      requires i < |entries| && Chained(hash, hashtable, entries, chains, Indices(i))
      modifies this`hashtable, this`entries, this`chains
      ensures |entries| == old(|entries|) && |hashtable| == old(|hashtable|) && Items(entries) == old(Items(entries))
      ensures forall j :: i < j < |entries| ==> entries[j] == old(entries[j])
      ensures Chained(hash, hashtable, entries, chains, Indices(i + 1))
    {
      hide Chained, Slot, Indices;
      ghost var before, ht, ch := entries, hashtable, chains;
      TableSize(hash, hashtable, entries, chains, Indices(i));
      var h := DoHash(entries[i].key);
      entries := entries[i := entries[i].(next := hashtable[h])];
      hashtable := hashtable[h := i];
      chains := chains[h := [i] + chains[h]];
      PushFront(hash, ht, before, ch, Indices(i), entries, i);
      MoreIndices(i);
    }

    /** Rebuilds all buckets, for some capacity the entries fit in. */
    method DoRehash()
      requires (forall n :: tableSize(n) >= n) && UniqueKeys(entries)
      requires forall i :: 0 <= i < |entries| ==> -1 <= entries[i].next < |entries|
      modifies this`hashtable, this`entries, this`chains
      ensures Valid() && Items(entries) == old(Items(entries)) && (|entries| > 0 ==> |hashtable| > 0)
    {
      hide Chained, UniqueKeys, Slot, Indices;
      ghost var en := entries;
      var capacity: nat :| capacity >= |entries|;
      var size := tableSize(3 * capacity);
      hashtable := seq(size, _ => -1);
      chains := seq(size, _ => []);
      if size > 0 { EmptyTable(hash, hashtable, entries, chains); }
      for i := 0 to |entries|
        invariant |entries| == |en| && |hashtable| == size && Items(entries) == Items(en)
        invariant forall j :: i <= j < |entries| ==> -1 <= entries[j].next < |entries|
        invariant size > 0 ==> Chained(hash, hashtable, entries, chains, Indices(i))
      {
        assert -1 <= entries[i].next < |entries|;
        LinkIn(i);
      }
      SameUnique(en, entries);
    }

    /** Finds the entry of a key. Rebuilds the table first when it is more than half as large as its buckets. */
    method DoLookup(key: K, h: nat) returns (index: int, h': nat)
      requires Valid() && h == DoHash(key)
      modifies this`hashtable, this`entries, this`chains
      ensures Valid() && Items(entries) == old(Items(entries)) && h' == DoHash(key) &&
          (|hashtable| == 0 <==> old(|hashtable|) == 0)
      ensures -1 <= index < |entries| && (index >= 0 ==> entries[index].key == key)
      ensures index < 0 ==> forall i :: 0 <= i < |entries| ==> entries[i].key != key
    {
      hide Chained, UniqueKeys;
      if |hashtable| == 0 { return -1, h; }
      h' := h;
      if |entries| * 2 > |hashtable| {
        NextInRange();
        DoRehash();
        h' := DoHash(key);
      }
      TableSize(hash, hashtable, entries, chains, Indices(|entries|));
      index := hashtable[h'];
      ghost var c, j := chains[h'], 0;
      BucketAt(hash, hashtable, entries, chains, Indices(|entries|), h');
      while index >= 0 && entries[index].key != key
        invariant 0 <= j <= |c| && index == At(c, j) && -1 <= index < |entries|
        invariant forall x :: 0 <= x < j ==> entries[c[x]].key != key
        decreases |c| - j
      {
        assert LinkAt(entries, c, j);
        index := entries[index].next;
        j := j + 1;
        assert -1 <= index < |entries|;
      }
      if index < 0 {
        forall i | 0 <= i < |entries| ensures entries[i].key != key {
          if entries[i].key == key {
            InChain(hash, hashtable, entries, chains, Indices(|entries|), i);
            assert false;
          }
        }
      }
    }

    /** Every link points at an entry or is the end mark. */
    lemma NextInRange()
      requires Valid() && |hashtable| > 0
      ensures forall i :: 0 <= i < |entries| ==> -1 <= entries[i].next < |entries|
    {
      hide Chained, UniqueKeys;
      TableSize(hash, hashtable, entries, chains, Indices(|entries|));
      forall i | 0 <= i < |entries| ensures -1 <= entries[i].next < |entries| {
        var b := Slot(hash, entries[i].key, |hashtable|);
        BucketAt(hash, hashtable, entries, chains, Indices(|entries|), b);
        InChain(hash, hashtable, entries, chains, Indices(|entries|), i);
        var j :| 0 <= j < |chains[b]| && chains[b][j] == i;
        assert LinkAt(entries, chains[b], j);
        if j + 1 < |chains[b]| { assert chains[b][j + 1] in Indices(|entries|); }
      }
    }

    method DoInsert(key: K, value: V, h: nat) returns (index: nat)
      requires Valid() && h == DoHash(key) && forall i :: 0 <= i < |entries| ==> entries[i].key != key
      modifies this`hashtable, this`entries, this`chains
      ensures Valid() && Items(entries) == old(Items(entries)) + [(key, value)] && index == old(|entries|)
    {
      hide Chained;
      ghost var before := entries;
      if |hashtable| == 0 {
        entries := entries + [Entry(key, value, -1)];
        DoRehash();
      } else {
        ghost var ht, ch := hashtable, chains;
        TableSize(hash, hashtable, entries, chains, Indices(|entries|));
        entries := entries + [Entry(key, value, hashtable[h])];
        hashtable := hashtable[h := |entries| - 1];
        chains := chains[h := [|entries| - 1] + chains[h]];
        PushFront(hash, ht, before, ch, Indices(|before|), entries, |before|);
        assert Indices(|before|) + {|before|} == Indices(|entries|);
      }
      index := |entries| - 1;
      assert Items(entries) == Items(before) + [(key, value)];
    }

    /** Inserts unless the key is present; gives the place of the key's entry. */
    method Insert(key: K, value: V) returns (index: nat, inserted: bool)
      requires Valid()
      modifies this`hashtable, this`entries, this`chains
      ensures Valid() && index < |entries| && entries[index].key == key && (inserted <==> key !in old(Contents()))
      ensures Contents() == if inserted then old(Contents())[key := value] else old(Contents())
      ensures Items(entries) == if inserted then old(Items(entries)) + [(key, value)] else old(Items(entries))
    {
      hide Chained, ToMap, DoHash;
      var h := DoHash(key);
      var i, h' := DoLookup(key, h);
      ghost var items := Items(entries);
      if i >= 0 {
        MapHas(items, i);
        return i, false;
      }
      MapLacks(items, key);
      i := DoInsert(key, value, h');
      MapAppend(items, key, value);
      return i, true;
    }

    /** The place of a key, or -1. */
    method Find(key: K) returns (index: int)
      requires Valid()
      modifies this`hashtable, this`entries, this`chains
      ensures Valid() && Items(entries) == old(Items(entries)) && -1 <= index < |entries|
      ensures if index < 0 then key !in old(Contents()) else Items(entries)[index].0 == key && key in old(Contents())
    {
      hide Chained, ToMap, DoHash;
      var h := DoHash(key);
      var h';
      index, h' := DoLookup(key, h);
      if index >= 0 { MapHas(Items(entries), index); } else { MapLacks(Items(entries), key); }
    }

    method Count(key: K) returns (n: nat)
      requires Valid()
      modifies this`hashtable, this`entries, this`chains
      ensures Valid() && Items(entries) == old(Items(entries)) && n == if key in old(Contents()) then 1 else 0
    {
      hide Chained, ToMap, DoHash;
      var h := DoHash(key);
      var i, h' := DoLookup(key, h);
      if i >= 0 { MapHas(Items(entries), i); } else { MapLacks(Items(entries), key); }
      n := if i < 0 then 0 else 1;
    }

    /** Walks bucket `b` to the position of entry `index` and turns the link to it to `to`. */
    method TurnLink(b: nat, index: nat, to: int) returns (ghost j: nat)
      requires b < |hashtable| == |chains| && index in chains[b] && Linked(entries, hashtable[b], chains[b]) &&
          Distinct(chains[b])
      modifies this`hashtable, this`entries
      ensures j < |chains[b]| && chains[b][j] == index && (j > 0 ==> chains[b][j - 1] < old(|entries|))
      ensures hashtable == RedirectHead(old(hashtable), b, j, to) && entries == Redirect(old(entries), chains[b], j, to)
    {
      ghost var c := chains[b];
      ghost var n :| 0 <= n < |c| && c[n] == index;
      j := n;
      var k := hashtable[b];
      assert LinkAt(entries, c, 0);
      assert 0 <= k < |entries|;
      if k == index {
        assert j == 0;
        hashtable := hashtable[b := to];
      } else {
        ghost var x := 0;
        while entries[k].next != index
          invariant 0 <= x < n && k == c[x] && LinkAt(entries, c, x)
          decreases n - x
        {
          assert LinkAt(entries, c, x + 1);
          k := entries[k].next;
          x := x + 1;
          assert 0 <= k < |entries|;
        }
        assert c[x + 1] == index;
        entries := entries[k := entries[k].(next := to)];
      }
    }

    /** Removes entry `index` from its bucket, moves the last entry into its place and drops the last place. */
    method DoErase(index: int, h: nat) returns (n: nat)
      requires Valid() && index < |entries| && (0 <= index ==> h == DoHash(entries[index].key))
      modifies this`hashtable, this`entries, this`chains
      ensures Valid() && n == if index < 0 then 0 else 1
      ensures index < 0 ==> entries == old(entries)
      ensures index >= 0 ==> Items(entries) == SwapOut(old(Items(entries)), index)
    {
      hide Chained, UniqueKeys, SwapOut, Without, Redirect, RedirectHead;
      if |hashtable| == 0 || index < 0 { return 0; }
      ghost var ht, en, ch, live := hashtable, entries, chains, Indices(|entries|);
      BucketAt(hash, hashtable, entries, chains, live, h);
      InChain(hash, hashtable, entries, chains, live, index);
      TableSize(hash, hashtable, entries, chains, live);
      ghost var j := TurnLink(h, index, entries[index].next);
      chains := chains[h := Without(ch[h], j)];
      Unlink(hash, ht, en, ch, live, h, j);
      RedirectItems(en, ch[h], j, en[index].next);
      var backIdx := |entries| - 1;
      if index != backIdx { MoveBack(index, en); } else { assert live - {index} == Indices(backIdx); }
      DropLast(entries, en, index);
      Truncate(hash, hashtable, entries, chains, backIdx);
      entries := entries[..backIdx];
      UniqueAfter(en, entries, index);
      TableSize(hash, hashtable, entries, chains, Indices(|entries|));
      if |entries| == 0 {
        assert entries == [];
        hashtable := [];
      }
      return 1;
    }

    /** Moves the last entry to the free place `index`. */
    method MoveBack(index: nat, ghost en: seq<Entry<K, V>>)
      requires |en| == |entries| && index < |entries| - 1 && Items(entries) == Items(en)
      requires Chained(hash, hashtable, entries, chains, Indices(|entries|) - {index})
      modifies this`hashtable, this`entries, this`chains
      ensures |entries| == old(|entries|) && Chained(hash, hashtable, entries, chains, Indices(|entries| - 1))
      ensures forall i ::
          0 <= i < |entries| - 1 ==> Items(entries)[i] == Items(en)[if i == index then |entries| - 1 else i]
    {
      var backIdx := |entries| - 1;
      hide Chained, UniqueKeys, Redirect, RedirectHead;
      ghost var ht, before, ch, live := hashtable, entries, chains, Indices(|entries|) - {index};
      TableSize(hash, hashtable, entries, chains, live);
      var b := DoHash(entries[backIdx].key);
      BucketAt(hash, hashtable, entries, chains, live, b);
      InChain(hash, hashtable, entries, chains, live, backIdx);
      ghost var j := TurnLink(b, backIdx, index);
      BackUntouched(before, ch[b], j, index, backIdx);
      entries := entries[index := entries[backIdx]];
      chains := chains[b := Replaced(ch[b], j, index)];
      Relink(hash, ht, before, ch, live, b, j, index);
      assert live - {backIdx} + {index} == Indices(backIdx);
    }

    /** Erases a key. */
    method Erase(key: K) returns (n: nat)
      requires Valid()
      modifies this`hashtable, this`entries, this`chains
      ensures Valid() && Contents() == old(Contents()) - {key} && n == if key in old(Contents()) then 1 else 0
      // The last entry takes the place of the erased one, and the others stay where they are.
      ensures if n == 0 then Items(entries) == old(Items(entries))
              else exists i :: 0 <= i < old(|entries|) && old(entries)[i].key == key &&
                     Items(entries) == SwapOut(old(Items(entries)), i)
    {
      hide Chained, ToMap, DoHash, SwapOut;
      var h := DoHash(key);
      var index, h' := DoLookup(key, h);
      ghost var items := Items(entries);
      if index >= 0 {
        MapHas(items, index);
        MapSwapOut(items, index);
      } else {
        MapLacks(items, key);
      }
      n := DoErase(index, h');
    }

    /** Erases through an iterator, which steps on to the entry before. */
    method EraseAt(index: nat) returns (next: int)
      requires Valid() && index < |entries|
      modifies this`hashtable, this`entries, this`chains
      ensures Valid() && next == index - 1 && Items(entries) == SwapOut(old(Items(entries)), index)
      ensures Contents() == old(Contents()) - {old(entries[index].key)}
    {
      hide Chained, ToMap, DoHash, SwapOut;
      var h := DoHash(entries[index].key);
      MapSwapOut(Items(entries), index);
      var n := DoErase(index, h);
      next := index - 1;
    }

    lemma HasKey(key: K)
      requires Valid()
      ensures key in Contents() <==> key in KeysOf(Items(entries))
    {
      KeysAreMap(entries, key);
    }

    method Clear()
      requires Valid()
      modifies this`hashtable, this`entries, this`chains
      ensures Valid() && entries == [] && Contents() == map[]
    {
      hashtable, entries, chains := [], [], [];
    }

    /** A loop that erases what it does not keep while it iterates: it still visits every original entry exactly
        once, from the last to the first. */
    method EraseIf(drop: (K, V) -> bool) returns (ghost visited: seq<(K, V)>)
      requires Valid()
      modifies this`hashtable, this`entries, this`chains
      ensures Valid() && |visited| == old(|entries|)
      ensures forall i :: 0 <= i < |visited| ==> visited[i] == old(Items(entries))[|visited| - 1 - i]
      ensures Contents() == map k | k in old(Contents()) && !drop(k, old(Contents())[k]) :: old(Contents())[k]
    {
      hide Chained, UniqueKeys, UniqueItems, ToMap, SwapOut, Kept;
      ghost var items := Items(entries);
      KeptStart(items, drop);
      ItemsUnique(entries);
      visited := [];
      var it := |entries| - 1;
      while it != -1
        invariant Valid() && -1 <= it < |entries| <= |items| && |visited| == |items| - 1 - it
        invariant forall i :: 0 <= i <= it ==> Items(entries)[i] == items[i]
        invariant forall i :: 0 <= i < |visited| ==> visited[i] == items[|items| - 1 - i]
        invariant Kept(items, Items(entries), it, drop)
        decreases it
      {
        ghost var now := Items(entries);
        visited := visited + [now[it]];
        if drop(entries[it].key, entries[it].value) {
          KeptDrop(items, now, it, drop);
          it := EraseAt(it);
        } else {
          KeptStep(items, now, it, drop);
          it := it - 1;
        }
      }
      ItemsUnique(entries);
      KeptMap(items, Items(entries), drop);
    }
  }

  lemma ItemsUnique<K, V>(entries: seq<Entry<K, V>>)
    requires UniqueKeys(entries)
    ensures UniqueItems(Items(entries))
  {
  }

  /** Everything after `it` is kept, and what is gone was to be dropped. */
  ghost predicate Kept<K, V>(items: seq<(K, V)>, now: seq<(K, V)>, it: int, drop: (K, V) -> bool) {
    && (forall i :: 0 <= i < |now| ==> now[i] in items && (i > it ==> !drop(now[i].0, now[i].1)))
    && (forall i :: 0 <= i < |items| && !drop(items[i].0, items[i].1) ==> items[i] in now)
  }

  lemma KeptStart<K, V>(items: seq<(K, V)>, drop: (K, V) -> bool)
    ensures Kept(items, items, |items| - 1, drop)
  {
  }

  lemma KeptStep<K, V>(items: seq<(K, V)>, now: seq<(K, V)>, it: nat, drop: (K, V) -> bool)
    requires Kept(items, now, it, drop) && it < |now| && !drop(now[it].0, now[it].1)
    ensures Kept(items, now, it - 1, drop)
  {
  }

  lemma KeptDrop<K, V>(items: seq<(K, V)>, now: seq<(K, V)>, it: nat, drop: (K, V) -> bool)
    requires Kept(items, now, it, drop) && it < |now| && drop(now[it].0, now[it].1)
    ensures Kept(items, SwapOut(now, it), it - 1, drop)
  {
    hide SwapOut;
    var rest, last := SwapOut(now, it), |now| - 1;
    forall i | 0 <= i < |items| && !drop(items[i].0, items[i].1) ensures items[i] in rest {
      var j :| 0 <= j < |now| && now[j] == items[i];
      assert rest[if j == last then it else j] == items[i];
    }
  }

  lemma KeptMap<K, V>(items: seq<(K, V)>, now: seq<(K, V)>, drop: (K, V) -> bool)
    requires UniqueItems(items) && UniqueItems(now) && Kept(items, now, -1, drop)
    ensures ToMap(now) == map k | k in ToMap(items) && !drop(k, ToMap(items)[k]) :: ToMap(items)[k]
  {
    hide ToMap, UniqueItems;
    var kept := map k | k in ToMap(items) && !drop(k, ToMap(items)[k]) :: ToMap(items)[k];
    forall k | k in ToMap(now) ensures k in kept && kept[k] == ToMap(now)[k] {
      var i := MapFrom(now, k);
      var j :| 0 <= j < |items| && items[j] == now[i];
      MapHas(items, j);
    }
    forall k | k in kept ensures k in ToMap(now) {
      var i := MapFrom(items, k);
      var j :| 0 <= j < |now| && now[j] == items[i];
      MapHas(now, j);
    }
  }

  lemma SameUnique<K, V>(en: seq<Entry<K, V>>, entries: seq<Entry<K, V>>)
    requires UniqueKeys(en) && Items(entries) == Items(en)
    ensures UniqueKeys(entries)
  {
    forall i | 0 <= i < |entries| ensures entries[i].key == en[i].key { assert Items(entries)[i] == Items(en)[i]; }
  }

  lemma UniqueAfter<K, V>(en: seq<Entry<K, V>>, entries: seq<Entry<K, V>>, index: nat)
    requires UniqueKeys(en) && index < |en| && Items(entries) == SwapOut(Items(en), index)
    ensures UniqueKeys(entries)
  {
    forall i | 0 <= i < |entries| ensures entries[i].key == en[if i == index then |en| - 1 else i].key {
      assert Items(entries)[i] == SwapOut(Items(en), index)[i];
    }
  }

  lemma DropLast<K, V>(moved: seq<Entry<K, V>>, en: seq<Entry<K, V>>, index: nat)
    requires |moved| == |en| && index < |en|
    requires forall i :: 0 <= i < |en| - 1 ==> Items(moved)[i] == Items(en)[if i == index then |en| - 1 else i]
    ensures Items(moved[..|en| - 1]) == SwapOut(Items(en), index)
  {
    hide SwapOut;
    forall i | 0 <= i < |en| - 1 ensures Items(moved[..|en| - 1])[i] == SwapOut(Items(en), index)[i] {
      assert Items(moved[..|en| - 1])[i] == Items(moved)[i];
    }
  }

  lemma RedirectItems<K, V>(entries: seq<Entry<K, V>>, c: seq<nat>, j: nat, to: int)
    requires j <= |c| && (j > 0 ==> c[j - 1] < |entries|)
    ensures Items(Redirect(entries, c, j, to)) == Items(entries)
  {
  }

  /** Turning the link to the last entry leaves that entry alone. */
  lemma BackUntouched<K, V>(entries: seq<Entry<K, V>>, c: seq<nat>, j: nat, to: int, back: nat)
    requires j < |c| && Distinct(c) && c[j] == back < |entries| && (j > 0 ==> c[j - 1] < |entries|)
    ensures Redirect(entries, c, j, to)[back] == entries[back] && Items(Redirect(entries, c, j, to)) == Items(entries)
  {
  }

  /** The keys of a table, by index. */
  function KeysOf<K, V>(items: seq<(K, V)>): (s: seq<K>)
    ensures |s| == |items| && forall i :: 0 <= i < |items| ==> s[i] == items[i].0
  {
    seq(|items|, i requires 0 <= i < |items| => items[i].0)
  }

  lemma KeysAreMap<K, V>(entries: seq<Entry<K, V>>, key: K)
    requires UniqueKeys(entries)
    ensures UniqueItems(Items(entries)) && (key in KeysOf(Items(entries)) <==> key in ToMap(Items(entries)))
  {
    ItemsUnique(entries);
    hide UniqueKeys, UniqueItems, ToMap;
    var items := Items(entries);
    if key in KeysOf(items) {
      var i :| 0 <= i < |items| && KeysOf(items)[i] == key;
      MapHas(items, i);
    }
    if key in ToMap(items) {
      var i := MapFrom(items, key);
      assert KeysOf(items)[i] == key;
    }
  }
}
