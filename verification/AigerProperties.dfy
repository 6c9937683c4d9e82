/**
 What the liveness and fairness properties written by the AIGER backend mean over infinite runs.
 */
module AigerProperties {
  import opened Aiger

  // ---------------------------------------------------------------- infinite runs

  type Stream = nat -> bool

  ghost predicate InfinitelyOften(p: Stream) {
    forall n: nat :: HappensFrom(p, n)
  }

  ghost predicate HappensFrom(p: Stream, n: nat) {
    exists t: nat :: n <= t && p(t)
  }

  ghost predicate NeverFrom(p: Stream, n: nat) {
    forall t: nat :: n <= t ==> !p(t)
  }

  /** At some moment the enable holds and from then on the property bit never does. */
  ghost predicate Violated(en: Stream, a: Stream) {
    exists t: nat :: en(t) && NeverFrom(a, t)
  }

  /** The latches of a liveness property. */
  ghost predicate LiveLatches(s: Stream, en: Stream, a: Stream, q1: Stream, q2: Stream) {
    !q1(0) && !q2(0) && forall t: nat :: LiveStep(s, en, a, q1, q2, t)
  }

  predicate LiveStep(s: Stream, en: Stream, a: Stream, q1: Stream, q2: Stream, t: nat) {
    q1(t + 1) == ((s(t) && en(t)) || q1(t)) && q2(t + 1) == ((q1(t + 1) && a(t)) || q2(t))
  }

  lemma {:induction false} LatchesStay(s: Stream, en: Stream, a: Stream, q1: Stream, q2: Stream, t: nat, u: nat)
    requires LiveLatches(s, en, a, q1, q2) && t <= u
    ensures (q1(t) ==> q1(u)) && (q2(t) ==> q2(u))
    decreases u
  {
    if t < u {
      LatchesStay(s, en, a, q1, q2, t, u - 1);
      assert LiveStep(s, en, a, q1, q2, u - 1);
    }
  }

  /** A set first latch goes back to a moment that was picked while enabled. */
  lemma {:induction false} PickedBefore(s: Stream, en: Stream, a: Stream, q1: Stream, q2: Stream,
      t: nat) returns (t0: nat)
    requires LiveLatches(s, en, a, q1, q2) && q1(t)
    ensures t0 < t && s(t0) && en(t0)
    decreases t
  {
    assert LiveStep(s, en, a, q1, q2, t - 1);
    if s(t - 1) && en(t - 1) { t0 := t - 1; } else { t0 := PickedBefore(s, en, a, q1, q2, t - 1); }
  }

  lemma JusticeSound(s: Stream, en: Stream, a: Stream, q1: Stream, q2: Stream, out: Stream)
    requires LiveLatches(s, en, a, q1, q2) && (forall t: nat :: out(t) == (q1(t) && !q2(t))) && InfinitelyOften(out)
    ensures Violated(en, a)
  {
    assert HappensFrom(out, 0);
    var t1: nat :| out(t1);
    var t0 := PickedBefore(s, en, a, q1, q2, t1);
    forall t: nat | t0 <= t ensures !a(t) {
      if a(t) {
        assert LiveStep(s, en, a, q1, q2, t0);
        LatchesStay(s, en, a, q1, q2, t0 + 1, t + 1);
        assert LiveStep(s, en, a, q1, q2, t);
        assert HappensFrom(out, t + 1);
        var u: nat :| t + 1 <= u && out(u);
        LatchesStay(s, en, a, q1, q2, t + 1, u);
        assert false;
      }
    }
    assert NeverFrom(a, t0);
  }

  /** Picking the violating moment keeps the first latch set and the second clear for ever. */
  lemma {:induction false} PickedOnce(s: Stream, en: Stream, a: Stream, q1: Stream, q2: Stream, t0: nat, t: nat)
    requires LiveLatches(s, en, a, q1, q2) && en(t0) && NeverFrom(a, t0) && forall t: nat :: s(t) == (t == t0)
    ensures q1(t) == (t0 < t) && !q2(t)
    decreases t
  {
    if t > 0 {
      PickedOnce(s, en, a, q1, q2, t0, t - 1);
      assert LiveStep(s, en, a, q1, q2, t - 1);
    }
  }

  lemma JusticeComplete(s: Stream, en: Stream, a: Stream, q1: Stream, q2: Stream, out: Stream, t0: nat)
    requires LiveLatches(s, en, a, q1, q2) && en(t0) && NeverFrom(a, t0) && (forall t: nat :: s(t) == (t == t0)) &&
        (forall t: nat :: out(t) == (q1(t) && !q2(t)))
    ensures InfinitelyOften(out)
  {
    forall n: nat ensures HappensFrom(out, n) {
      var t := n + t0 + 1;
      PickedOnce(s, en, a, q1, q2, t0, t);
      assert out(t);
    }
  }

  /** The latch of a fairness property. */
  ghost predicate FairLatch(en: Stream, a: Stream, q: Stream) {
    !q(0) && forall t: nat :: FairStep(en, a, q, t)
  }

  predicate FairStep(en: Stream, a: Stream, q: Stream, t: nat) {
    q(t + 1) == ((q(t) || en(t)) && !a(t))
  }

  lemma {:induction false} StillWaiting(en: Stream, a: Stream, q: Stream, t0: nat, t: nat)
    requires FairLatch(en, a, q) && en(t0) && NeverFrom(a, t0) && t0 < t
    ensures q(t)
    decreases t
  {
    assert FairStep(en, a, q, t - 1);
    if t0 < t - 1 { StillWaiting(en, a, q, t0, t - 1); }
  }

  /** A set latch goes back to an enable that has not been answered. */
  lemma {:induction false} WaitsSince(en: Stream, a: Stream, q: Stream, t: nat) returns (t0: nat)
    requires FairLatch(en, a, q) && q(t)
    ensures t0 < t && en(t0) && forall u: nat :: t0 <= u < t ==> !a(u)
    decreases t
  {
    assert FairStep(en, a, q, t - 1);
    if en(t - 1) { t0 := t - 1; } else { t0 := WaitsSince(en, a, q, t - 1); }
  }

  /** The fairness literal holds infinitely often exactly when every enable is answered at that time or later. */
  lemma FairnessMeans(en: Stream, a: Stream, q: Stream, out: Stream)
    requires FairLatch(en, a, q) && forall t: nat :: out(t) == !q(t)
    ensures InfinitelyOften(out) <==> !Violated(en, a)
  {
    if Violated(en, a) {
      var t0: nat :| en(t0) && NeverFrom(a, t0);
      forall t: nat | t0 + 1 <= t ensures !out(t) { StillWaiting(en, a, q, t0, t); }
      assert !HappensFrom(out, t0 + 1);
    } else {
      forall n: nat ensures HappensFrom(out, n) {
        if q(n) {
          var t0 := WaitsSince(en, a, q, n);
          assert !NeverFrom(a, t0);
          var t: nat :| t0 <= t && a(t);
          assert FairStep(en, a, q, t);
          assert out(t + 1);
        } else {
          assert out(n);
        }
      }
    }
  }

  // ---------------------------------------------------------------- the written properties

  /** A run of a finished graph: its reset levels and its input stream. */
  datatype Run = Run(n: Netlist, rank: nat -> nat, c: Layout, gates: seq<(nat, nat)>, latchin: seq<nat>, start: Val,
      ins: nat -> Val) {
    ghost predicate Legal() {
      Built(n, rank, c, gates, latchin) && Starts(n, c, start)
    }

    ghost function At(t: nat): Val
      requires Legal()
    {
      RunAt(c, gates, latchin, start, ins, t)
    }

    /** A bit over time in the netlist run the graph follows. */
    ghost function Trace(b: Bit): Stream
      requires Legal() && Driven(n, b)
    {
      (t: nat) => NetBit(n, rank, NetIns(ins), StateOf(n, c, At(0)), t, b)
    }

    ghost function VarTrace(x: nat): Stream
      requires Legal()
    {
      (t: nat) => At(t)(x)
    }

    ghost function LitTrace(lit: nat): Stream
      requires Legal() && IsLit(c.Base(), gates, lit)
    {
      (t: nat) => LitVal(c.Base(), gates, At(t), lit)
    }

    /** The same run with another choice of moments for liveness property `k`. */
    function WithPick(k: nat, s: Stream): (r: Run)
      requires c.live <= c.inputs
      ensures r == this.(ins := r.ins)
    {
      this.(ins := (t: nat) => (x: nat) => if x == LiveInput(c, k) then s(t) else ins(t)(x))
    }
  }

  /** The netlist does not see the picked moments. */
  lemma Unpicked(r: Run, b: Bit, k: nat, s: Stream, t: nat)
    requires r.Legal() && Driven(r.n, b) && k < r.c.live <= r.c.inputs
    ensures r.WithPick(k, s).Legal() && r.WithPick(k, s).Trace(b)(t) == r.Trace(b)(t)
  {
    hide Loopfree, Latched, LitVal, Ordered, HasMarker, NetBit;
    var r' := r.WithPick(k, s);
    var st, st' := StateOf(r.n, r.c, r.At(0)), StateOf(r.n, r.c, r'.At(0));
    forall l: nat | l < |r.n.data| ensures st(l) == st'(l) { }
    forall t: nat, i: nat | i < r.n.inputs ensures NetIns(r.ins)(t)(i) == NetIns(r'.ins)(t)(i) {
      assert NetIns(r.ins)(t)(i) == r.ins(t)(i + 1) && NetIns(r'.ins)(t)(i) == r'.ins(t)(i + 1);
      assert r'.ins(t)(i + 1) == r.ins(t)(i + 1);
    }
    NetBitAgree(r.n, r.rank, NetIns(r.ins), NetIns(r'.ins), st, st', t, b);
  }

  lemma PickSeen(r: Run, k: nat, s: Stream, t: nat)
    requires r.Legal() && k < r.c.live <= r.c.inputs
    ensures r.WithPick(k, s).Legal() && r.WithPick(k, s).VarTrace(LiveInput(r.c, k))(t) == s(t)
  {
    hide Loopfree, Latched, LitVal, Ordered, HasMarker;
    var r' := r.WithPick(k, s);
    assert r'.At(t)(LiveInput(r.c, k)) == r'.ins(t)(LiveInput(r.c, k));
  }

  lemma BitSeen(r: Run, b: Bit, t: nat)
    requires r.Legal() && Driven(r.n, b)
    ensures BitFn(r.n, r.rank, r.c, b)(r.At(t)) == r.Trace(b)(t)
  {
    hide BitVal, NetBit, Loopfree, LaidOut, Latched;
    SimulatesBit(r.n, r.rank, r.c, r.gates, r.latchin, r.start, r.ins, t, b);
    assert r.Trace(b)(t) == NetBit(r.n, r.rank, NetIns(r.ins), StateOf(r.n, r.c, r.At(0)), t, b);
    assert BitFn(r.n, r.rank, r.c, b)(r.At(t)) == BitVal(r.n, r.rank, r.c, r.At(t), b);
  }

  lemma StartsClear(r: Run, x: nat)
    requires r.Legal() && r.c.inputs + |r.n.data| < x <= r.c.Base()
    ensures !r.VarTrace(x)(0)
  {
    hide Loopfree, Latched;
    assert ResetTo(ResetOf(r.n, r.c, x - r.c.inputs - 1), r.start(r.c.inputs + (x - r.c.inputs - 1) + 1));
    assert r.At(0)(x) == RunVal(r.c, r.gates, r.latchin, r.start, r.ins, 0, x) == r.start(x);
  }

  /** One step of a latch, by the meaning of its input. */
  lemma VarStep(r: Run, t: nat, x: nat, f: Fn)
    requires r.Legal() && r.c.inputs < x <= r.c.Base() && x - r.c.inputs - 1 < |r.latchin| &&
        LitFn(r.c.Base(), r.gates, r.latchin[x - r.c.inputs - 1], f)
    ensures r.VarTrace(x)(t + 1) == f(r.At(t))
  {
    hide Built, Starts, LitFn;
    RunStep(r.n, r.rank, r.c, r.gates, r.latchin, r.start, r.ins, t, x, f);
    assert r.VarTrace(x)(t + 1) == r.At(t + 1)(x);
  }

  // ---------------------------------------------------------------- liveness

  /** A liveness property as the writer leaves it. */
  ghost predicate HasLiveness(r: Run, p: (Bit, Bit), out: nat, k: nat) {
    && r.Legal() && k < r.c.live <= r.c.inputs && Driven(r.n, p.0) && Driven(r.n, p.1)
    && r.c.OwnLatches(r.n) + 2 * k + 2 <= r.c.Base()
    && r.c.OwnLatches(r.n) - r.c.inputs + 2 * k + 1 < |r.latchin|
    && LiveBuiltAt(r.n, r.rank, r.c, r.gates, r.latchin, out, p, k)
    && IsLit(r.c.Base(), r.gates, out)
  }

  /** What `Build` promises gives every liveness property that form. */
  lemma BuiltLiveness(r: Run, justice: seq<nat>, liveness: seq<(Bit, Bit)>, k: nat)
    requires r.Legal() && LiveBuilt(r.n, r.rank, r.c, r.gates, r.latchin, justice, liveness, |liveness|) &&
        k < |liveness| == r.c.live
    requires Driven(r.n, liveness[k].0) && Driven(r.n, liveness[k].1)
    ensures HasLiveness(r, liveness[k], justice[k], k)
  {
    hide LitVal, LitIs, Loopfree, Latched, PickedFn, MetFn, JusticeFn, HasMarker;
    assert LiveBuiltAt(r.n, r.rank, r.c, r.gates, r.latchin, justice[k], liveness[k], k);
  }

  lemma LivenessSteps(r: Run, p: (Bit, Bit), out: nat, k: nat)
    requires HasLiveness(r, p, out, k)
    ensures var own := r.c.OwnLatches(r.n) + 2 * k;
            LiveLatches(r.VarTrace(LiveInput(r.c, k)), r.Trace(p.1), r.Trace(p.0), r.VarTrace(own + 1),
                r.VarTrace(own + 2))
  {
    hide Run.Legal, LitFn, Run.At, NetBit, LitVal, BitFn, Driven;
    var own := r.c.OwnLatches(r.n) + 2 * k;
    var s, en, a, q1, q2 := r.VarTrace(LiveInput(r.c, k)), r.Trace(p.1), r.Trace(p.0), r.VarTrace(own + 1),
        r.VarTrace(own + 2);
    StartsClear(r, own + 1);
    StartsClear(r, own + 2);
    forall t: nat ensures LiveStep(s, en, a, q1, q2, t) {
      VarStep(r, t, own + 1, PickedFn(r.n, r.rank, r.c, k, p));
      VarStep(r, t, own + 2, MetFn(r.n, r.rank, r.c, k, p));
      BitSeen(r, p.0, t);
      BitSeen(r, p.1, t);
    }
  }

  lemma JusticeSeen(r: Run, p: (Bit, Bit), out: nat, k: nat, t: nat)
    requires HasLiveness(r, p, out, k)
    ensures var own := r.c.OwnLatches(r.n) + 2 * k;
        r.LitTrace(out)(t) == (r.VarTrace(own + 1)(t) && !r.VarTrace(own + 2)(t))
  {
    hide Run.Legal, Run.At, LitVal, PickedFn, MetFn;
    assert LitIs(r.c.Base(), r.gates, r.At(t), out, JusticeFn(r.n, r.c, k)(r.At(t)));
  }

  /** Some choice of the extra input makes the justice literal true infinitely often exactly when the property is
      violated: at some time EN holds and A is false from then on. */
  lemma LivenessMeans(r: Run, p: (Bit, Bit), out: nat, k: nat)
    requires HasLiveness(r, p, out, k)
    ensures forall s: Stream :: HasLiveness(r.WithPick(k, s), p, out, k)
    ensures (exists s: Stream :: InfinitelyOften(r.WithPick(k, s).LitTrace(out))) <==>
        Violated(r.Trace(p.1), r.Trace(p.0))
  {
    hide InfinitelyOften, LiveBuiltAt, Built, Starts, Run.LitTrace, Run.Trace;
    if s: Stream :| InfinitelyOften(r.WithPick(k, s).LitTrace(out)) { PickViolates(r, p, out, k, s); }
    if Violated(r.Trace(p.1), r.Trace(p.0)) {
      var t0: nat :| r.Trace(p.1)(t0) && NeverFrom(r.Trace(p.0), t0);
      PickFinds(r, p, out, k, t0);
      assert InfinitelyOften(r.WithPick(k, (t: nat) => t == t0).LitTrace(out));
    }
  }

  lemma PickViolates(r: Run, p: (Bit, Bit), out: nat, k: nat, s: Stream)
    requires HasLiveness(r, p, out, k) && HasLiveness(r.WithPick(k, s), p, out, k) &&
        InfinitelyOften(r.WithPick(k, s).LitTrace(out))
    ensures Violated(r.Trace(p.1), r.Trace(p.0))
  {
    hide InfinitelyOften, LiveBuiltAt, LiveLatches, Run.Legal, Run.LitTrace, Run.Trace, Run.VarTrace, Run.WithPick,
        Driven;
    var r', own := r.WithPick(k, s), r.c.OwnLatches(r.n) + 2 * k;
    LivenessSteps(r', p, out, k);
    forall t: nat ensures r'.LitTrace(out)(t) == (r'.VarTrace(own + 1)(t) && !r'.VarTrace(own + 2)(t)) {
      JusticeSeen(r', p, out, k, t);
    }
    JusticeSound(r'.VarTrace(LiveInput(r.c, k)), r'.Trace(p.1), r'.Trace(p.0), r'.VarTrace(own + 1),
        r'.VarTrace(own + 2), r'.LitTrace(out));
    var t0: nat :| r'.Trace(p.1)(t0) && NeverFrom(r'.Trace(p.0), t0);
    Unpicked(r, p.1, k, s, t0);
    forall t: nat | t0 <= t ensures !r.Trace(p.0)(t) { Unpicked(r, p.0, k, s, t); }
    assert NeverFrom(r.Trace(p.0), t0);
  }

  lemma PickFinds(r: Run, p: (Bit, Bit), out: nat, k: nat, t0: nat)
    requires HasLiveness(r, p, out, k) && r.Trace(p.1)(t0) && NeverFrom(r.Trace(p.0), t0) &&
        HasLiveness(r.WithPick(k, (t: nat) => t == t0), p, out, k)
    ensures InfinitelyOften(r.WithPick(k, (t: nat) => t == t0).LitTrace(out))
  {
    hide InfinitelyOften, LiveBuiltAt, LiveLatches, Run.Legal, Run.LitTrace, Run.Trace, Run.VarTrace, Run.WithPick,
        Driven;
    var s: Stream := (t: nat) => t == t0;
    var r', own := r.WithPick(k, (t: nat) => t == t0), r.c.OwnLatches(r.n) + 2 * k;
    LivenessSteps(r', p, out, k);
    forall t: nat ensures r'.LitTrace(out)(t) == (r'.VarTrace(own + 1)(t) && !r'.VarTrace(own + 2)(t)) {
      JusticeSeen(r', p, out, k, t);
    }
    Unpicked(r, p.1, k, (t: nat) => t == t0, t0);
    forall t: nat | t0 <= t ensures !r'.Trace(p.0)(t) { Unpicked(r, p.0, k, (t: nat) => t == t0, t); }
    assert NeverFrom(r'.Trace(p.0), t0);
    forall t: nat ensures r'.VarTrace(LiveInput(r.c, k))(t) == (t == t0) { PickSeen(r, k, (t: nat) => t == t0, t); }
    JusticeComplete(r'.VarTrace(LiveInput(r.c, k)), r'.Trace(p.1), r'.Trace(p.0), r'.VarTrace(own + 1),
        r'.VarTrace(own + 2), r'.LitTrace(out), t0);
  }

  // ---------------------------------------------------------------- fairness

  ghost predicate HasFairness(r: Run, p: (Bit, Bit), out: nat, k: nat) {
    && r.Legal() && k < r.c.fair && Driven(r.n, p.0) && Driven(r.n, p.1)
    && r.c.OwnLatches(r.n) + 2 * r.c.live + k + 1 <= r.c.Base()
    && r.c.OwnLatches(r.n) - r.c.inputs + 2 * r.c.live + k < |r.latchin|
    && FairBuiltAt(r.n, r.rank, r.c, r.gates, r.latchin, out, p, k)
    && IsLit(r.c.Base(), r.gates, out)
  }

  lemma BuiltFairness(r: Run, fair: seq<nat>, fairness: seq<(Bit, Bit)>, k: nat)
    requires r.Legal() && FairBuilt(r.n, r.rank, r.c, r.gates, r.latchin, fair, fairness, |fairness|) &&
        k < |fairness| == r.c.fair
    requires Driven(r.n, fairness[k].0) && Driven(r.n, fairness[k].1)
    ensures HasFairness(r, fairness[k], fair[k], k)
  {
    hide LitVal, LitIs, Loopfree, Latched, WaitFn, FairFn, HasMarker;
    assert FairBuiltAt(r.n, r.rank, r.c, r.gates, r.latchin, fair[k], fairness[k], k);
  }

  /** The fairness literal holds infinitely often exactly when every EN is followed, at that time or later, by A. */
  lemma FairnessWritten(r: Run, p: (Bit, Bit), out: nat, k: nat)
    requires HasFairness(r, p, out, k)
    ensures InfinitelyOften(r.LitTrace(out)) <==> !Violated(r.Trace(p.1), r.Trace(p.0))
  {
    hide Run.Legal, Run.At, NetBit, LitVal, BitFn, Driven, InfinitelyOften, Violated;
    var x := r.c.OwnLatches(r.n) + 2 * r.c.live + k + 1;
    var en, a, q := r.Trace(p.1), r.Trace(p.0), r.VarTrace(x);
    StartsClear(r, x);
    forall t: nat ensures FairStep(en, a, q, t) {
      VarStep(r, t, x, WaitFn(r.n, r.rank, r.c, k, p));
      BitSeen(r, p.0, t);
      BitSeen(r, p.1, t);
    }
    forall t: nat ensures r.LitTrace(out)(t) == !q(t) {
      assert LitIs(r.c.Base(), r.gates, r.At(t), out, FairFn(r.n, r.c, k)(r.At(t)));
    }
    FairnessMeans(en, a, q, r.LitTrace(out));
  }

  // ---------------------------------------------------------------- what `Build` leaves

  /** Every liveness property in the finished graph: its justice literal can be made true infinitely often, by a choice
      of its extra input, exactly in the runs that violate it. */
  lemma BuiltLivenessMeans(r: Run, justice: seq<nat>, liveness: seq<(Bit, Bit)>, k: nat)
    requires r.Legal() && LiveBuilt(r.n, r.rank, r.c, r.gates, r.latchin, justice, liveness, |liveness|) &&
        k < |liveness| == r.c.live
    requires Driven(r.n, liveness[k].0) && Driven(r.n, liveness[k].1)
    ensures r.c.live <= r.c.inputs && (forall s: Stream :: r.WithPick(k, s).Legal()) &&
        IsLit(r.c.Base(), r.gates, justice[k])
    ensures (exists s: Stream :: InfinitelyOften(r.WithPick(k, s).LitTrace(justice[k]))) <==>
        Violated(r.Trace(liveness[k].1), r.Trace(liveness[k].0))
  {
    hide InfinitelyOften, LiveBuiltAt, Built, Starts, Run.LitTrace, Run.Trace, Violated;
    BuiltLiveness(r, justice, liveness, k);
    LivenessMeans(r, liveness[k], justice[k], k);
    forall s: Stream ensures r.WithPick(k, s).Legal() {
      assert HasLiveness(r.WithPick(k, s), liveness[k], justice[k], k);
    }
  }

  /** Every fairness property in the finished graph: its literal is true infinitely often exactly in the runs that meet
      it. */
  lemma BuiltFairnessMeans(r: Run, fair: seq<nat>, fairness: seq<(Bit, Bit)>, k: nat)
    requires r.Legal() && FairBuilt(r.n, r.rank, r.c, r.gates, r.latchin, fair, fairness, |fairness|) &&
        k < |fairness| == r.c.fair
    requires Driven(r.n, fairness[k].0) && Driven(r.n, fairness[k].1)
    ensures IsLit(r.c.Base(), r.gates, fair[k])
    ensures InfinitelyOften(r.LitTrace(fair[k])) <==> !Violated(r.Trace(fairness[k].1), r.Trace(fairness[k].0))
  {
    hide InfinitelyOften, FairBuiltAt, Built, Starts, Run.LitTrace, Run.Trace, Violated;
    BuiltFairness(r, fair, fairness, k);
    FairnessWritten(r, fairness[k], fair[k], k);
  }
}
