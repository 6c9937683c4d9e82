/** The depth-first topological sort with loop reports. */
module TopoSorts {
  // database[n] holds the predecessors of n, the nodes that must come before it.
  type Graph<T> = map<T, set<T>>

  // Every predecessor is itself a node.
  ghost predicate Closed<T(!new)>(g: Graph<T>) {
    forall n :: n in g ==> g[n] <= g.Keys
  }

  // Each element of the path is followed by one of its predecessors.
  ghost predicate Chain<T(!new)>(g: Graph<T>, path: seq<T>) {
    && (forall i :: 0 <= i < |path| ==> path[i] in g)
    && (forall i :: 0 < i < |path| ==> path[i] in g[path[i - 1]])
  }

  ghost predicate Cycle<T(!new)>(g: Graph<T>, c: seq<T>) {
    && |c| > 0
    && Chain(g, c)
    && c[0] in g[c[|c| - 1]]
  }

  ghost predicate Acyclic<T(!new)>(g: Graph<T>) {
    forall c: seq<T> :: !Cycle(g, c)
  }

  function Nodes<T>(s: seq<T>): set<T> {
    set x | x in s
  }

  ghost predicate RealLoop<T(!new)>(g: Graph<T>, loop: set<T>) {
    exists c: seq<T> :: Cycle(g, c) && Nodes(c) == loop
  }

  ghost predicate Distinct<T(!new)>(s: seq<T>) {
    forall i, j :: 0 <= i < j < |s| ==> s[i] != s[j]
  }

  ghost predicate Together<T(!new)>(loops: set<set<T>>, a: T, b: T) {
    exists loop :: loop in loops && a in loop && b in loop
  }

  ghost predicate OnLoop<T(!new)>(g: Graph<T>, a: T, b: T) {
    exists c: seq<T> :: Cycle(g, c) && a in c && b in c
  }

  // The edge from predecessor p to n was found to close a loop.
  ghost predicate Closing<T(!new)>(g: Graph<T>, p: T, n: T, found: bool, analyze: bool, loops: set<set<T>>) {
    found && OnLoop(g, p, n) && (analyze ==> Together(loops, p, n))
  }

  // Predecessor p of the i-th output is already there, or the edge was found to close a loop.
  ghost predicate Before<T(!new)>(g: Graph<T>, sorted: seq<T>, i: nat, p: T, found: bool, analyze: bool,
      loops: set<set<T>>)
    requires i < |sorted|
  {
    p in sorted[..i] || Closing(g, p, sorted[i], found, analyze, loops)
  }

  ghost predicate Ordered<T(!new)>(g: Graph<T>, sorted: seq<T>, found: bool, analyze: bool, loops: set<set<T>>) {
    forall i, p ::
      0 <= i < |sorted| && sorted[i] in g && p in g[sorted[i]] ==> Before(g, sorted, i, p, found, analyze, loops)
  }

  class TopoSort<T(==, !new)> {
    var analyzeLoops: bool
    var foundLoops: bool
    var database: Graph<T>
    var loops: set<set<T>>
    var sorted: seq<T>

    ghost predicate Valid()
      reads this
    {
      Closed(database)
    }

    constructor ()
      ensures Valid() && database == map[] && analyzeLoops && !foundLoops && loops == {} && sorted == []
    {
      analyzeLoops, foundLoops := true, false;
      database, loops, sorted := map[], {}, [];
    }

    method Node(n: T)
      requires Valid()
      modifies this`database
      ensures Valid() && database.Keys == old(database.Keys) + {n}
      ensures forall m :: m in database ==> database[m] == if m in old(database) then old(database)[m] else {}
    {
      if n !in database {
        database := database[n := {}];
      }
    }

    method Edge(left: T, right: T)
      requires Valid()
      modifies this`database
      ensures Valid() && database.Keys == old(database.Keys) + {left, right}
      ensures forall m :: m in database ==>
        database[m] == (if m in old(database) then old(database)[m] else {}) + (if m == right then {left} else {})
    {
      Node(left);
      Node(right);
      database := database[right := database[right] + {left}];
    }

    // What the search has established so far.
    ghost predicate Progress(marked: set<T>)
      reads this
    {
      && Valid()
      && marked == Nodes(sorted) && marked <= database.Keys && Distinct(sorted)
      && Ordered(database, sorted, foundLoops, analyzeLoops, loops)
      && (forall loop :: loop in loops ==> RealLoop(database, loop))
      && (foundLoops ==> !Acyclic(database))
      && (analyzeLoops ==> (foundLoops <==> loops != {}))
      && (!analyzeLoops ==> loops == {})
    }

    ghost predicate Searching(active: set<T>, stack: seq<T>, path: seq<T>)
      reads this
    {
      && Chain(database, path) && Distinct(path) && active == Nodes(path)
      && stack == (if analyzeLoops then path else [])
    }

    method CollectLoop(n: T, stack: seq<T>) returns (loop: set<T>)
      requires Chain(database, stack) && Distinct(stack) && n in stack && n in database[stack[|stack| - 1]]
      ensures RealLoop(database, loop) && n in loop && stack[|stack| - 1] in loop
      ensures exists k :: 0 <= k < |stack| && stack[k] == n && loop == Nodes(stack[k..])
    {
      loop := {};
      var i := |stack|;
      while i > 0
        invariant 0 <= i <= |stack| && n in stack[..i] && loop == Nodes(stack[i..])
      {
        i := i - 1;
        assert stack[i..] == [stack[i]] + stack[i + 1..];
        loop := loop + {stack[i]};
        if stack[i] == n {
          assert Cycle(database, stack[i..]);
          return;
        }
      }
    }

    lemma PathCloses(n: T, path: seq<T>, at: nat)
      requires Chain(database, path) && at < |path| && path[at] == n && n in database[path[|path| - 1]]
      ensures !Acyclic(database) && OnLoop(database, n, path[|path| - 1])
    {
      var c := path[at..];
      assert Cycle(database, c) && c[0] == n && c[|c| - 1] == path[|path| - 1];
    }

    // The search has come back to a node it is still working on.
    method ReportLoop(n: T, ghost marked: set<T>, ghost active: set<T>, stack: seq<T>, ghost path: seq<T>)
      requires Progress(marked) && Searching(active, stack, path) && n in active && n in database[path[|path| - 1]]
      modifies this`foundLoops, this`loops
      ensures Progress(marked) && foundLoops && loops >= old(loops)
      ensures Closing(database, n, path[|path| - 1], foundLoops, analyzeLoops, loops)
    {
      ghost var at := At(path, n);
      PathCloses(n, path, at);
      ghost var before := loops;
      foundLoops := true;
      if analyzeLoops {
        var loop := CollectLoop(n, stack);
        loops := loops + {loop};
      }
      OrderedMore(database, sorted, old(foundLoops), analyzeLoops, before, loops);
    }

    method SortWorker(n: T, marked: set<T>, active: set<T>, stack: seq<T>, ghost path: seq<T>) returns (marked': set<T>)
      requires Progress(marked) && Searching(active, stack, path) && active !! marked && n in database
      requires |path| > 0 ==> n in database[path[|path| - 1]]
      modifies this`foundLoops, this`loops, this`sorted
      ensures Progress(marked') && marked <= marked' && active !! marked'
      ensures loops >= old(loops) && (old(foundLoops) ==> foundLoops)
      ensures
        || n in marked'
        || (n in active && Closing(database, n, path[|path| - 1], foundLoops, analyzeLoops, loops))
      decreases database.Keys - active, 0
    {
      marked' := marked;
      if n in active {
        ReportLoop(n, marked, active, stack, path);
        return;
      }
      if n in marked {
        return;
      }
      if database[n] != {} {
        var stack' := if analyzeLoops then stack + [n] else stack;
        marked' := Predecessors(n, marked, active + {n}, stack', path + [n]);
      }
      assert n !in marked';
      Append(n, marked');
      marked' := marked' + {n};
    }

    method Predecessors(n: T, marked: set<T>, active: set<T>, stack: seq<T>,
        ghost path: seq<T>) returns (marked': set<T>)
      requires Progress(marked) && Searching(active, stack, path) && active !! marked
      requires |path| > 0 && path[|path| - 1] == n && n in database
      modifies this`foundLoops, this`loops, this`sorted
      ensures Progress(marked') && marked <= marked' && active !! marked'
      ensures loops >= old(loops) && (old(foundLoops) ==> foundLoops)
      ensures forall p ::
                p in database[n] ==> p in marked' || Closing(database, p, n, foundLoops, analyzeLoops, loops)
      decreases database.Keys - active, 1
    {
      marked' := marked;
      var rest := database[n];
      while rest != {}
        invariant Progress(marked') && Searching(active, stack, path) && marked <= marked' && active !! marked'
        invariant loops >= old(loops) && (old(foundLoops) ==> foundLoops) && rest <= database[n]
        invariant forall p ::
                    p in database[n] - rest ==>
                      p in marked' || Closing(database, p, n, foundLoops, analyzeLoops, loops)
        decreases rest
      {
        var left :| left in rest;
        ghost var loopsBefore := loops;
        marked' := SortWorker(left, marked', active, stack, path);
        forall p | Together(loopsBefore, p, n) ensures Together(loops, p, n) { TogetherMore(loopsBefore, loops, p, n); }
        rest := rest - {left};
      }
    }

    // All predecessors of n are done, so n can follow them.
    method Append(n: T, ghost marked: set<T>)
      requires Progress(marked) && n in database && n !in marked
      requires forall p ::
                 p in database[n] ==> p in marked || Closing(database, p, n, foundLoops, analyzeLoops, loops)
      modifies this`sorted
      ensures Progress(marked + {n})
    {
      ghost var before := sorted;
      sorted := sorted + [n];
      forall i, p | 0 <= i < |sorted| && sorted[i] in database && p in database[sorted[i]]
        ensures Before(database, sorted, i, p, foundLoops, analyzeLoops, loops)
      {
        if i < |before| {
          assert Before(database, before, i, p, foundLoops, analyzeLoops, loops);
          assert sorted[..i] == before[..i];
        } else {
          assert sorted[..i] == before;
        }
      }
    }

    // What holds once every node has been visited.
    lemma Finished(marked: set<T>)
      requires Progress(marked) && database.Keys <= marked
      ensures Nodes(sorted) == database.Keys && (!foundLoops <==> Acyclic(database))
      ensures forall i, p ::
                0 <= i < |sorted| && p in database[sorted[i]] ==>
                  p in sorted[..i] || Closing(database, p, sorted[i], foundLoops, analyzeLoops, loops)
      ensures analyzeLoops ==> forall c :: Cycle(database, c) ==> Reported(loops, c)
    {
      hide Cycle, Closing, RealLoop, Reported;
      forall c | Cycle(database, c) ensures foundLoops && (analyzeLoops ==> Reported(loops, c)) {
        CycleReported(database, sorted, foundLoops, analyzeLoops, loops, c);
      }
      forall i, p | 0 <= i < |sorted| && p in database[sorted[i]]
        ensures p in sorted[..i] || Closing(database, p, sorted[i], foundLoops, analyzeLoops, loops)
      {
        assert Before(database, sorted, i, p, foundLoops, analyzeLoops, loops);
      }
    }

    method Sort() returns (ok: bool)
      requires Valid()
      modifies this`foundLoops, this`loops, this`sorted
      // Each node exactly once.
      ensures Distinct(sorted) && Nodes(sorted) == database.Keys
      ensures (ok <==> Acyclic(database)) && foundLoops == !ok
      ensures if analyzeLoops then loops == {} <==> ok else loops == {}
      ensures ok ==> forall i, p :: 0 <= i < |sorted| && p in database[sorted[i]] ==> p in sorted[..i]
      // Only an edge of a loop may run backwards, and if loops are analyzed one of them shows it.
      ensures forall i, p ::
                0 <= i < |sorted| && p in database[sorted[i]] ==>
                  || p in sorted[..i]
                  || (OnLoop(database, p, sorted[i]) && (analyzeLoops ==> Together(loops, p, sorted[i])))
      ensures forall loop :: loop in loops ==> RealLoop(database, loop)
      ensures analyzeLoops ==> forall c :: Cycle(database, c) ==> Reported(loops, c)
    {
      hide Cycle, Acyclic, OnLoop, Together, RealLoop, Reported;
      loops, sorted, foundLoops := {}, [], false;
      var marked: set<T> := {};
      var rest := database.Keys;
      while rest != {}
        invariant Progress(marked) && rest <= database.Keys && database.Keys - rest <= marked
        decreases rest
      {
        var n :| n in rest;
        marked := SortWorker(n, marked, {}, [], []);
        rest := rest - {n};
      }
      ok := !foundLoops;
      Finished(marked);
    }
  }

  lemma TogetherMore<T(!new)>(loops: set<set<T>>, more: set<set<T>>, a: T, b: T)
    requires loops <= more && Together(loops, a, b)
    ensures Together(more, a, b)
  {
  }

  lemma OrderedMore<T(!new)>(g: Graph<T>, sorted: seq<T>, found: bool, analyze: bool, loops: set<set<T>>,
      more: set<set<T>>)
    requires Ordered(g, sorted, found, analyze, loops) && loops <= more
    ensures Ordered(g, sorted, true, analyze, more)
  {
    forall i, p | 0 <= i < |sorted| && sorted[i] in g && p in g[sorted[i]]
      ensures Before(g, sorted, i, p, true, analyze, more)
    {
      assert Before(g, sorted, i, p, found, analyze, loops);
    }
  }

  // Some edge of the cycle lies inside a reported loop.
  ghost predicate Reported<T(!new)>(loops: set<set<T>>, c: seq<T>) {
    exists i :: 0 <= i < |c| && EdgeReported(loops, c, i)
  }

  ghost predicate EdgeReported<T(!new)>(loops: set<set<T>>, c: seq<T>, i: nat)
    requires i < |c|
  {
    Together(loops, if i + 1 == |c| then c[0] else c[i + 1], c[i])
  }

  lemma At<T(!new)>(s: seq<T>, x: T) returns (i: nat)
    requires x in s
    ensures i < |s| && s[i] == x
  {
    i :| 0 <= i < |s| && s[i] == x;
  }

  // Along edges that close no loop, the output position falls.
  lemma {:induction false} Falls<T(!new)>(g: Graph<T>, sorted: seq<T>, found: bool, analyze: bool, loops: set<set<T>>,
      c: seq<T>, n: nat, from: nat)
    returns (at: nat)
    requires Closed(g) && Ordered(g, sorted, found, analyze, loops) && Distinct(sorted) && Nodes(sorted) == g.Keys
    requires Chain(g, c) && n < |c| && from < |sorted| && sorted[from] == c[0]
    requires !found || (analyze && forall i :: 0 <= i < |c| ==> !EdgeReported(loops, c, i))
    ensures at < |sorted| && sorted[at] == c[n] && at + n <= from
  {
    if n == 0 {
      at := from;
    } else {
      var before := Falls(g, sorted, found, analyze, loops, c, n - 1, from);
      assert Before(g, sorted, before, c[n], found, analyze, loops);
      assert !found || !EdgeReported(loops, c, n - 1);
      at := At(sorted[..before], c[n]);
    }
  }

  lemma CycleReported<T(!new)>(g: Graph<T>, sorted: seq<T>, found: bool, analyze: bool, loops: set<set<T>>, c: seq<T>)
    requires Closed(g) && Ordered(g, sorted, found, analyze, loops) && Distinct(sorted) && Nodes(sorted) == g.Keys &&
        Cycle(g, c)
    ensures found && (analyze ==> Reported(loops, c))
  {
    if !found || (analyze && !Reported(loops, c)) {
      assert c[0] in Nodes(sorted);
      var from := At(sorted, c[0]);
      var last := |c| - 1;
      assert !found || !EdgeReported(loops, c, last);
      var at := Falls(g, sorted, found, analyze, loops, c, last, from);
      assert false;
    }
  }
}
