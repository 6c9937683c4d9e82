/** The map of `kernel/utils.h` whose state can be saved and restored, any number of levels deep. */
module StackMaps {
  import opened Options

  /** What was at a key. */
  function At<K, V>(m: map<K, V>, k: K): Option<V> {
    if k in m then Some(m[k]) else None
  }

  /** The state with the backed-up values put back. */
  function Restored<K, V>(current: map<K, V>, backup: map<K, Option<V>>): map<K, V> {
    map k | k in current.Keys + backup.Keys && (if k in backup then backup[k].Some? else k in current) ::
      if k in backup then backup[k].value else current[k]
  }

  /** A key is backed up before its first change. */
  function BackUp<K, V>(current: map<K, V>, backup: map<K, Option<V>>, k: K): map<K, Option<V>> {
    if k in backup then backup else backup[k := At(current, k)]
  }

  ghost predicate SameBut<K(!new), V>(m: map<K, V>, m': map<K, V>, k: K) {
    forall x :: x != k ==> At(m, x) == At(m', x)
  }

  /** Changing a backed-up key does not change what will be restored. */
  lemma ChangeKeeps<K(!new), V>(current: map<K, V>, backup: map<K, Option<V>>, k: K, changed: map<K, V>)
    requires SameBut(current, changed, k)
    ensures Restored(changed, BackUp(current, backup, k)) == Restored(current, backup)
  {
    var r, r' := Restored(current, backup), Restored(changed, BackUp(current, backup, k));
    forall x ensures At(r, x) == At(r', x) {
      assert x != k ==> At(current, x) == At(changed, x);
    }
    SameMap(r, r');
  }

  lemma SameMap<K(!new), V>(m: map<K, V>, m': map<K, V>)
    requires forall x :: At(m, x) == At(m', x)
    ensures m == m'
  {
    forall x ensures x in m <==> x in m' { assert At(m, x) == At(m', x); }
    forall x | x in m ensures m[x] == m'[x] { assert At(m, x) == At(m', x); }
  }

  /** Undoing the changes since the save at level `i` gives the state saved there. */
  ghost predicate Level<K, V>(backup: map<K, Option<V>>, saved: seq<map<K, V>>, current: map<K, V>, i: nat)
    requires i < |saved|
  {
    Restored(if i + 1 < |saved| then saved[i + 1] else current, backup) == saved[i]
  }

  class StackMap<K(==, !new), V> {
    var backups: seq<map<K, Option<V>>>
    var current: map<K, V>
    // The states at the calls of `Save` that have not been restored.
    ghost var saved: seq<map<K, V>>

    ghost predicate Valid()
      reads this
    {
      |saved| == |backups| && forall i :: 0 <= i < |saved| ==> Level(backups[i], saved, current, i)
    }

    constructor (m: map<K, V>)
      ensures Valid() && current == m && saved == []
    {
      backups, current, saved := [], m, [];
    }

    method Change(k: K, changed: map<K, V>)
      requires Valid() && SameBut(current, changed, k)
      modifies this`backups, this`current
      ensures Valid() && current == changed && |backups| == |old(backups)|
      ensures |backups| > 0 ==> backups[|backups| - 1].Keys == old(backups)[|backups| - 1].Keys + {k}
    {
      if |backups| > 0 {
        var top := |backups| - 1;
        ChangeKeeps(current, backups[top], k, changed);
        assert Level(backups[top], saved, current, top);
        backups := backups[top := BackUp(current, backups[top], k)];
      }
      current := changed;
      forall i | 0 <= i < |saved| ensures Level(backups[i], saved, current, i) {
        assert Level(old(backups)[i], saved, old(current), i);
      }
    }

    method Set(k: K, v: V)
      requires Valid()
      modifies this`backups, this`current
      ensures Valid() && current == old(current)[k := v] && |backups| == |old(backups)|
    {
      Change(k, current[k := v]);
    }

    method Unset(k: K)
      requires Valid()
      modifies this`backups, this`current
      ensures Valid() && current == old(current) - {k} && |backups| == |old(backups)|
    {
      Change(k, current - {k});
    }

    /** Replaces the whole contents. */
    method Assign(other: map<K, V>)
      requires Valid()
      modifies this`backups, this`current
      ensures Valid() && current == other && |backups| == |old(backups)|
    {
      var rest := current.Keys;
      while rest != {}
        invariant Valid() && current == old(current) && rest <= current.Keys && |backups| == |old(backups)|
        invariant |backups| > 0 ==> forall k :: k in current && k !in rest ==> k in backups[|backups| - 1]
        decreases rest
      {
        var k :| k in rest;
        Change(k, current);
        rest := rest - {k};
      }
      if |backups| > 0 { ClearKeeps(current, backups[|backups| - 1]); }
      forall i | 0 <= i < |saved| ensures Level(backups[i], saved, map[], i) {
        assert Level(backups[i], saved, current, i);
      }
      current := map[];
      rest := other.Keys;
      while rest != {}
        invariant Valid() && rest <= other.Keys && current == (map k | k in other && k !in rest :: other[k]) &&
            |backups| == |old(backups)|
        decreases rest
      {
        var k :| k in rest;
        Set(k, other[k]);
        rest := rest - {k};
      }
      assert current == other;
    }

    method Save()
      requires Valid()
      modifies this
      ensures Valid() && current == old(current) && saved == old(saved) + [current]
    {
      RestoredNothing(current);
      backups, saved := backups + [map[]], saved + [current];
      forall i | 0 <= i < |saved| ensures Level(backups[i], saved, current, i) {
        if i < |saved| - 1 { assert Level(old(backups)[i], old(saved), current, i); }
      }
    }

    /** Goes back to the state of the last `Save`. */
    method Restore()
      requires Valid() && |saved| > 0
      modifies this
      ensures Valid() && current == old(saved)[|old(saved)| - 1] && saved == old(saved)[..|old(saved)| - 1]
    {
      var top := |backups| - 1;
      var b := backups[top];
      var rest := b.Keys;
      ghost var start := current;
      var m := current;
      while rest != {}
        invariant rest <= b.Keys && forall x :: At(m, x) == if x in b && x !in rest then b[x] else At(start, x)
        decreases rest
      {
        var k :| k in rest;
        if b[k].Some? {
          m := m[k := b[k].value];
        } else {
          m := m - {k};
        }
        rest := rest - {k};
      }
      forall x ensures At(m, x) == At(Restored(start, b), x) { }
      SameMap(m, Restored(start, b));
      assert Level(b, saved, start, top);
      current := m;
      backups, saved := backups[..top], saved[..top];
      forall i | 0 <= i < |saved| ensures Level(backups[i], saved, current, i) {
        assert Level(old(backups)[i], old(saved), start, i);
      }
    }
  }

  lemma RestoredNothing<K, V>(current: map<K, V>)
    ensures Restored(current, map[]) == current
  {
  }

  lemma ClearKeeps<K, V>(current: map<K, V>, backup: map<K, Option<V>>)
    requires forall k :: k in current ==> k in backup
    ensures Restored(map[], backup) == Restored(current, backup)
  {
  }
}
