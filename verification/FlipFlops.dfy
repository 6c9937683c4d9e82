/**
 Flip-flops and latches: the priority order that decides Q, and the rewrites that move features of a
 register into surrounding logic or into other features.

 `Next` is the reference step. A rewrite is right when the rewritten register takes the same step from
 every pair of instants; the run theorems at the end lift that to whole input streams.
 */
module FlipFlops {
  import opened Signals

  datatype Ff = Ff(
    width: nat,
    hasClk: bool, hasGclk: bool, hasCe: bool, hasAload: bool, hasSrst: bool, hasArst: bool, hasSr: bool,
    ceOverSrst: bool, isFine: bool,
    polClk: bool, polCe: bool, polAload: bool, polArst: bool, polSrst: bool, polClr: bool, polSet: bool,
    sigQ: Sig, sigD: Sig, sigAd: Sig,
    sigClk: Bit, sigCe: Bit, sigAload: Bit, sigArst: Bit, sigSrst: Bit,
    sigClr: Sig, sigSet: Sig,
    valArst: seq<State>, valSrst: seq<State>, valInit: seq<State>)
  {
    /** The shape every register description has; which features may be combined is not part of it. */
    predicate Valid() {
      && |sigQ| == width && |valInit| == width
      && (hasClk || hasGclk ==> |sigD| == width)
      && (hasAload ==> |sigAd| == width)
      && (hasSr ==> |sigClr| == width && |sigSet| == width)
      && (hasArst ==> |valArst| == width)
      && (hasSrst ==> |valSrst| == width)
      && (isFine ==> width == 1)
      && (hasCe || hasSrst ==> hasClk)
      && (hasGclk ==> !hasClk && !hasAload && !hasArst && !hasSr)
    }

    predicate WiresBelow(n: nat) {
      && SigBelow(sigQ, n)
      && (hasClk || hasGclk ==> SigBelow(sigD, n))
      && (hasAload ==> SigBelow(sigAd, n) && Below(sigAload, n))
      && (hasSr ==> SigBelow(sigClr, n) && SigBelow(sigSet, n))
      && (hasClk ==> Below(sigClk, n))
      && (hasCe ==> Below(sigCe, n))
      && (hasArst ==> Below(sigArst, n))
      && (hasSrst ==> Below(sigSrst, n))
    }
  }

  // ---------------------------------------------------------------- the reference step

  /** Whether a control input of the given polarity is active. */
  function Active(x: Bit, polarity: bool, e: Env): State {
    if polarity then Eval(x, e) else NotS(Eval(x, e))
  }

  /** Whether the clock becomes active between two instants. */
  function Edge(clk: Bit, polarity: bool, e0: Env, e1: Env): State {
    AndS(NotS(Active(clk, polarity, e0)), Active(clk, polarity, e1))
  }

  /** What a clock edge stores, given the levels of enable and synchronous reset. */
  function Sampled(ceOverSrst: bool, ce: State, srst: State, value: State, data: State, hold: State): State {
    if ceOverSrst then IteS(ce, IteS(srst, value, data), hold) else IteS(srst, value, IteS(ce, data, hold))
  }

  /** Clear over set over asynchronous reset over asynchronous load over the clock edge over keeping
      the value. */
  function Decide(clr: State, st: State, arst: State, arstValue: State, aload: State, ad: State,
                  edge: State, sampled: State, hold: State): State {
    IteS(clr, S0, IteS(st, S1, IteS(arst, arstValue, IteS(aload, ad, IteS(edge, sampled, hold)))))
  }

  // Levels of the features of bit `i`; an absent feature is never active.
  function Ce(f: Ff, e: Env): State { if f.hasCe then Active(f.sigCe, f.polCe, e) else S1 }
  function Srst(f: Ff, e: Env): State { if f.hasSrst then Active(f.sigSrst, f.polSrst, e) else S0 }
  function Arst(f: Ff, e: Env): State { if f.hasArst then Active(f.sigArst, f.polArst, e) else S0 }
  function Aload(f: Ff, e: Env): State { if f.hasAload then Active(f.sigAload, f.polAload, e) else S0 }
  function Clr(f: Ff, e: Env, i: nat): State requires f.Valid() && i < f.width {
    if f.hasSr then Active(f.sigClr[i], f.polClr, e) else S0
  }
  function Set(f: Ff, e: Env, i: nat): State requires f.Valid() && i < f.width {
    if f.hasSr then Active(f.sigSet[i], f.polSet, e) else S0
  }
  function SrstValue(f: Ff, i: nat): State requires f.Valid() && i < f.width { if f.hasSrst then f.valSrst[i] else S0 }
  function ArstValue(f: Ff, i: nat): State requires f.Valid() && i < f.width { if f.hasArst then f.valArst[i] else S0 }
  function LoadValue(f: Ff, e: Env, i: nat): State requires f.Valid() &&
      i < f.width { if f.hasAload then Eval(f.sigAd[i], e) else S0 }

  function Clocked(f: Ff, e0: Env, i: nat): State
    requires f.Valid() && i < f.width
  {
    if !f.hasClk then Eval(f.sigQ[i], e0)
    else Sampled(f.ceOverSrst, Ce(f, e0), Srst(f, e0), SrstValue(f, i), Eval(f.sigD[i], e0), Eval(f.sigQ[i], e0))
  }

  /** Bit `i` of the register at `e1`, the instant after `e0`. */
  function Next(f: Ff, e0: Env, e1: Env, i: nat): State
    requires f.Valid() && i < f.width
  {
    if f.hasGclk then Eval(f.sigD[i], e0)
    else Decide(Clr(f, e1, i), Set(f, e1, i), Arst(f, e1), ArstValue(f, i), Aload(f, e1), LoadValue(f, e1, i),
                if f.hasClk then Edge(f.sigClk, f.polClk, e0, e1) else S0, Clocked(f, e0, i), Eval(f.sigQ[i], e0))
  }

  /** An undefined enable meets an active reset it gates, or an undefined reset an inactive enable it overrides. */
  predicate Undecided(ceOverSrst: bool, ce: State, srst: State) {
    if ceOverSrst then ce == Sx && srst == S1 else ce == S0 && srst == Sx
  }

  /** Where a clock enable and a synchronous reset compete for what a possible edge stores, the outcome is decided;
      every other input, and the clock, may be undefined. */
  predicate KnownControls(f: Ff, e0: Env, e1: Env) {
    f.hasCe && f.hasSrst && Edge(f.sigClk, f.polClk, e0, e1) != S0 ==>
      !Undecided(f.ceOverSrst, Ce(f, e0), Srst(f, e0))
  }

  /** Two registers on the same output that start alike and take the same step everywhere. */
  ghost predicate SameBehaviour(a: Ff, b: Ff) {
    && a.Valid() && b.Valid()
    && a.width == b.width && a.sigQ == b.sigQ && a.valInit == b.valInit
    && (forall e0: Env, e1: Env :: KnownControls(a, e0, e1) ==> KnownControls(b, e0, e1))
    && (forall e0: Env, e1: Env, i: nat ::
          i < a.width && KnownControls(a, e0, e1) ==> Next(a, e0, e1, i) == Next(b, e0, e1, i))
  }

  type Cells = seq<(Bit, Bit)>

  /** The levels respect every added cell: its output carries what the cell computes. */
  predicate Consistent(cells: Cells, e: Env) {
    forall k :: 0 <= k < |cells| ==> Eval(cells[k].0, e) == Eval(cells[k].1, e)
  }

  /** A register together with the cells added around it and the next unused wire number. */
  datatype Net = Net(ff: Ff, cells: Cells, nextWire: nat) {
    predicate Valid() {
      && ff.Valid() && ff.WiresBelow(nextWire)
      && forall k :: 0 <= k < |cells| ==> Below(cells[k].0, nextWire) && Below(cells[k].1, nextWire)
    }
  }

  lemma SameBehaviourReflexive(a: Ff)
    requires a.Valid()
    ensures SameBehaviour(a, a)
  {
    hide Next, KnownControls;
  }

  lemma SameBehaviourTransitive(a: Ff, b: Ff, c: Ff)
    requires SameBehaviour(a, b) && SameBehaviour(b, c)
    ensures SameBehaviour(a, c)
  {
    hide Next, KnownControls;
    forall e0: Env, e1: Env, i: nat | i < a.width && KnownControls(a, e0, e1)
      ensures Next(a, e0, e1, i) == Next(c, e0, e1, i)
    {
      assert Next(a, e0, e1, i) == Next(b, e0, e1, i);
    }
  }

  // ---------------------------------------------------------------- asynchronous reset as load

  predicate IsArstToAload(a: Ff, b: Ff) {
    && a.hasArst && !a.hasAload
    && b == a.(polAload := a.polArst, sigAload := a.sigArst, sigAd := Consts(a.valArst),
               hasAload := true, hasArst := false)
  }

  lemma LoadIsReset(clr: State, st: State, arst: State, value: State, edge: State, sampled: State, hold: State)
    ensures Decide(clr, st, arst, value, S0, S0, edge, sampled, hold) ==
            Decide(clr, st, S0, S0, arst, value, edge, sampled, hold)
  {
  }

  lemma ArstToAloadStep(a: Ff, b: Ff, e0: Env, e1: Env, i: nat)
    requires a.Valid() && b.Valid() && IsArstToAload(a, b) && i < a.width
    ensures Next(a, e0, e1, i) == Next(b, e0, e1, i)
  {
    assert Eval(b.sigAd[i], e1) == a.valArst[i];
    hide Eval, Decide, Sampled, Edge;
    LoadIsReset(Clr(a, e1, i), Set(a, e1, i), Arst(a, e1), a.valArst[i],
                if a.hasClk then Edge(a.sigClk, a.polClk, e0, e1) else S0, Clocked(a, e0, i), Eval(a.sigQ[i], e0));
  }

  lemma ArstToAloadSame(a: Ff, b: Ff)
    requires a.Valid() && IsArstToAload(a, b)
    ensures SameBehaviour(a, b)
  {
    assert b.Valid();
    hide Next;
    forall e0: Env, e1: Env, i: nat | i < a.width ensures Next(a, e0, e1, i) == Next(b, e0, e1, i) {
      ArstToAloadStep(a, b, e0, e1, i);
    }
  }

  // ---------------------------------------------------------------- asynchronous reset as set and clear

  /** What the rewrite makes of one bit: the reset drives the side its value asks for. */
  predicate ResetBit(a: Ff, clr: Bit, st: Bit, k: nat)
    requires a.Valid() && a.hasArst && k < a.width
  {
    var idle := Const(if a.polArst then S0 else S1);
    if a.valArst[k] == S1 then st == a.sigArst && clr == idle else clr == a.sigArst && st == idle
  }

  predicate IsArstToSr(a: Ff, b: Ff)
    requires a.Valid() && b.Valid()
  {
    && a.hasArst && !a.hasSr
    && b == a.(polClr := a.polArst, polSet := a.polArst, sigClr := b.sigClr, sigSet := b.sigSet,
               hasSr := true, hasArst := false)
    && forall k: nat :: k < a.width ==> ResetBit(a, b.sigClr[k], b.sigSet[k], k)
  }

  lemma SetClearIsReset(arst: State, value: State, aload: State, ad: State, edge: State, sampled: State, hold: State)
    ensures value == S1 ==>
        Decide(S0, arst, S0, S0, aload, ad, edge, sampled, hold) ==
        Decide(S0, S0, arst, value, aload, ad, edge, sampled, hold)
    ensures value == S0 ==>
        Decide(arst, S0, S0, S0, aload, ad, edge, sampled, hold) ==
        Decide(S0, S0, arst, value, aload, ad, edge, sampled, hold)
    ensures value == Sx ==>
        Refines(Decide(S0, S0, arst, value, aload, ad, edge, sampled, hold),
        Decide(arst, S0, S0, S0, aload, ad, edge, sampled, hold))
  {
  }

  lemma ResetLevels(a: Ff, b: Ff, e: Env, i: nat)
    requires a.Valid() && b.Valid() && IsArstToSr(a, b) && i < a.width
    ensures Clr(b, e, i) == (if a.valArst[i] == S1 then S0 else Arst(a, e))
    ensures Set(b, e, i) == (if a.valArst[i] == S1 then Arst(a, e) else S0)
  {
    assert ResetBit(a, b.sigClr[i], b.sigSet[i], i);
  }

  lemma ArstToSrStep(a: Ff, b: Ff, e0: Env, e1: Env, i: nat)
    requires a.Valid() && b.Valid() && IsArstToSr(a, b) && i < a.width
    ensures Refines(Next(a, e0, e1, i), Next(b, e0, e1, i))
    ensures a.valArst[i] != Sx ==> Next(a, e0, e1, i) == Next(b, e0, e1, i)
  {
    hide Eval, Decide, Sampled, Edge;
    ResetLevels(a, b, e1, i);
    SetClearIsReset(Arst(a, e1), a.valArst[i], Aload(a, e1), LoadValue(a, e1, i),
                    if a.hasClk then Edge(a.sigClk, a.polClk, e0, e1) else S0, Clocked(a, e0, i), Eval(a.sigQ[i], e0));
  }

  /** While the reset is active the bits with a reset value of 1 are set and all others cleared. */
  lemma ArstToSrForced(a: Ff, b: Ff, e0: Env, e1: Env, i: nat)
    requires a.Valid() && b.Valid() && IsArstToSr(a, b) && i < a.width && Arst(a, e1) == S1
    ensures Next(b, e0, e1, i) == if a.valArst[i] == S1 then S1 else S0
  {
    hide Eval, Sampled, Edge;
    ResetLevels(a, b, e1, i);
  }

  /** Where the reset value is undefined the rewritten register may pick any value; elsewhere it agrees. */
  ghost predicate ResetRefined(a: Ff, b: Ff) {
    && a.Valid() && b.Valid() && a.width == b.width
    && forall e0: Env, e1: Env, i: nat :: i < a.width ==>
         Refines(Next(a, e0, e1, i), Next(b, e0, e1, i))
  }

  lemma ArstToSrSame(a: Ff, b: Ff)
    requires a.Valid() && b.Valid() && IsArstToSr(a, b)
    ensures Known(a.valArst) ==> SameBehaviour(a, b)
    ensures ResetRefined(a, b)
  {
    hide Next, Eval;
    forall e0: Env, e1: Env, i: nat | i < a.width
      ensures Refines(Next(a, e0, e1, i), Next(b, e0, e1, i))
      ensures a.valArst[i] != Sx ==> Next(a, e0, e1, i) == Next(b, e0, e1, i)
    {
      ArstToSrStep(a, b, e0, e1, i);
    }
  }

  // ---------------------------------------------------------------- asynchronous load as set and clear

  /** Clear is load of a 0, set is load of a 1. */
  predicate LoadBit(a: Ff, clr: Sig, st: Sig, polClr: bool, polSet: bool, e: Env, i: nat)
    requires a.Valid() && i < a.width == |clr| == |st|
  {
    && Active(clr[i], polClr, e) == AndS(Aload(a, e), NotS(LoadValue(a, e, i)))
    && Active(st[i], polSet, e) == AndS(Aload(a, e), LoadValue(a, e, i))
  }

  ghost predicate IsAloadToSr(a: Ff, b: Ff)
    requires a.Valid() && b.Valid()
  {
    && a.hasAload && !a.hasSr
    && b == a.(polClr := b.polClr, polSet := b.polSet, sigClr := b.sigClr, sigSet := b.sigSet,
               hasSr := true, hasAload := false)
    && forall e: Env, i: nat :: i < a.width ==> LoadBit(a, b.sigClr, b.sigSet, b.polClr, b.polSet, e, i)
  }

  /** Where an asynchronous reset and a load compete, both carry definite levels. */
  predicate KnownLoad(f: Ff, e: Env) {
    f.hasArst && f.hasAload ==> Eval(f.sigArst, e) != Sx && Eval(f.sigAload, e) != Sx
  }

  lemma SetClearIsLoad(arst: State, value: State, aload: State, ad: State, edge: State, sampled: State, hold: State)
    requires arst == S0 || (arst != Sx && aload != Sx)
    ensures Decide(AndS(aload, NotS(ad)), AndS(aload, ad), arst, value, S0, S0, edge, sampled, hold) ==
            if arst == S1 && aload == S1 then ad else Decide(S0, S0, arst, value, aload, ad, edge, sampled, hold)
  {
  }

  lemma AloadToSrStep(a: Ff, b: Ff, e0: Env, e1: Env, i: nat)
    requires a.Valid() && b.Valid() && IsAloadToSr(a, b) && i < a.width && KnownLoad(a, e1)
    ensures Next(b, e0, e1, i) == if Arst(a, e1) == S1 &&
        Aload(a, e1) == S1 then Eval(a.sigAd[i], e1) else Next(a, e0, e1, i)
  {
    assert LoadBit(a, b.sigClr, b.sigSet, b.polClr, b.polSet, e1, i);
    hide Eval, Decide, Sampled, Edge;
    SetClearIsLoad(Arst(a, e1), ArstValue(a, i), Aload(a, e1), LoadValue(a, e1, i),
                   if a.hasClk then Edge(a.sigClk, a.polClk, e0, e1) else S0, Clocked(a, e0, i), Eval(a.sigQ[i], e0));
  }

  /** Exactly how the rewritten register behaves: the load now wins over an asynchronous reset. */
  ghost predicate LoadPromoted(a: Ff, b: Ff) {
    && a.Valid() && b.Valid() && a.hasAload && a.width == b.width
    && forall e0: Env, e1: Env, i: nat :: i < a.width && KnownLoad(a, e1) ==>
         Next(b, e0, e1, i) == if Arst(a, e1) == S1 &&
             Aload(a, e1) == S1 then Eval(a.sigAd[i], e1) else Next(a, e0, e1, i)
  }

  lemma AloadToSrSame(a: Ff, b: Ff)
    requires a.Valid() && b.Valid() && IsAloadToSr(a, b)
    ensures !a.hasArst ==> SameBehaviour(a, b)
    ensures LoadPromoted(a, b)
  {
    hide Next, Eval, LoadBit;
    forall e0: Env, e1: Env, i: nat | i < a.width && KnownLoad(a, e1)
      ensures Next(b, e0, e1, i) == if Arst(a, e1) == S1 &&
          Aload(a, e1) == S1 then Eval(a.sigAd[i], e1) else Next(a, e0, e1, i)
    {
      AloadToSrStep(a, b, e0, e1, i);
    }
  }

  /** A latch with asynchronous reset whose reset, load and data are separate wires. */
  predicate IsAdlatch(a: Ff) {
    && a.Valid() && a.width > 0 && a.hasAload && !a.hasClk && !a.hasGclk && !a.hasSr && !a.hasCe && !a.hasSrst
    && a.sigArst.Wire? && a.sigAload.Wire? && a.sigArst.id != a.sigAload.id
    && (forall i ::
       0 <= i < a.width ==> a.sigAd[i].Wire? && a.sigAd[i].id != a.sigArst.id && a.sigAd[i].id != a.sigAload.id)
  }

  /** For a latch on separate wires the rewrite is right exactly when there is no asynchronous reset. */
  lemma AloadToSrExact(a: Ff, b: Ff)
    requires IsAdlatch(a) && b.Valid() && IsAloadToSr(a, b)
    ensures SameBehaviour(a, b) <==> !a.hasArst
  {
    AloadToSrSame(a, b);
    if a.hasArst {
      var level := if a.valArst[0] == S1 then S0 else S1;
      var e: Env := (w: nat) =>
        if w == a.sigArst.id then FromBool(a.polArst)
        else if w == a.sigAload.id then FromBool(a.polAload) else level;
      assert forall i :: 0 <= i < a.width ==> Eval(a.sigAd[i], e) == level;
      assert Eval(a.sigArst, e) == e(a.sigArst.id) && Eval(a.sigAload, e) == e(a.sigAload.id);
      assert e(a.sigArst.id) == FromBool(a.polArst);
      assert e(a.sigAload.id) == FromBool(a.polAload);
      assert KnownControls(a, e, e);
      assert Arst(a, e) == S1 && Aload(a, e) == S1;
      assert Next(b, e, e, 0) == level;
      assert Next(a, e, e, 0) == a.valArst[0] by { hide Eval, Clocked, Edge; }
    }
  }

  // ---------------------------------------------------------------- enable against synchronous reset

  /** The fixed-up control: the enable is widened by the reset, or the reset is narrowed by the enable. */
  predicate FixedUp(a: Ff, b: Ff, e: Env) {
    if b.ceOverSrst then Ce(b, e) == OrS(Ce(a, e), Srst(a, e)) && b.sigSrst == a.sigSrst
    else Srst(b, e) == AndS(Srst(a, e), Ce(a, e)) && b.sigCe == a.sigCe
  }

  ghost predicate IsConverted(a: Ff, b: Ff) {
    && a.hasCe && a.hasSrst
    && b == a.(sigCe := b.sigCe, sigSrst := b.sigSrst, ceOverSrst := !a.ceOverSrst)
    && forall e: Env :: FixedUp(a, b, e)
  }

  /** The other order with the control fixed up samples the same. */
  predicate Converts(ceOverSrst: bool, ce: State, srst: State, v: State, d: State, h: State) {
    Sampled(ceOverSrst, ce, srst, v, d, h) ==
    if ceOverSrst then Sampled(false, ce, AndS(srst, ce), v, d, h) else Sampled(true, OrS(ce, srst), srst, v, d, h)
  }

  lemma SampledConverted(ceOverSrst: bool, ce: State, srst: State, v: State, d: State, h: State)
    requires !Undecided(ceOverSrst, ce, srst)
    ensures Converts(ceOverSrst, ce, srst, v, d, h)
  {
  }

  /** The conversion keeps what is sampled, whatever the data, exactly when the outcome is decided. */
  lemma ConversionExact(ceOverSrst: bool, ce: State, srst: State)
    ensures (forall v, d, h :: Converts(ceOverSrst, ce, srst, v, d, h)) <==> !Undecided(ceOverSrst, ce, srst)
  {
    if Undecided(ceOverSrst, ce, srst) {
      assert !Converts(ceOverSrst, ce, srst, S0, S1, S0);
    }
  }

  lemma ClockedConverted(a: Ff, b: Ff, e0: Env, i: nat)
    requires a.Valid() && b.Valid() && IsConverted(a, b) && i < a.width
    requires !Undecided(a.ceOverSrst, Ce(a, e0), Srst(a, e0))
    ensures Clocked(a, e0, i) == Clocked(b, e0, i)
  {
    hide Eval, Sampled;
    assert FixedUp(a, b, e0);
    SampledConverted(a.ceOverSrst, Ce(a, e0), Srst(a, e0), SrstValue(a, i), Eval(a.sigD[i], e0), Eval(a.sigQ[i], e0));
  }

  lemma ConvertStep(a: Ff, b: Ff, e0: Env, e1: Env, i: nat)
    requires a.Valid() && b.Valid() && IsConverted(a, b) && i < a.width && KnownControls(a, e0, e1)
    ensures Next(a, e0, e1, i) == Next(b, e0, e1, i)
  {
    hide Eval, Sampled, Clocked, Edge, Undecided;
    if Edge(a.sigClk, a.polClk, e0, e1) != S0 { ClockedConverted(a, b, e0, i); }
  }

  lemma ConvertKnown(a: Ff, b: Ff, e0: Env, e1: Env)
    requires a.Valid() && b.Valid() && IsConverted(a, b)
    ensures KnownControls(b, e0, e1)
  {
    hide Eval, Edge;
    assert FixedUp(a, b, e0);
  }

  lemma ConvertSame(a: Ff, b: Ff)
    requires a.Valid() && b.Valid() && IsConverted(a, b)
    ensures SameBehaviour(a, b)
  {
    hide Next, KnownControls, FixedUp;
    forall e0: Env, e1: Env ensures KnownControls(b, e0, e1) { ConvertKnown(a, b, e0, e1); }
    forall e0: Env, e1: Env, i: nat | i < a.width && KnownControls(a, e0, e1)
      ensures Next(a, e0, e1, i) == Next(b, e0, e1, i)
    {
      ConvertStep(a, b, e0, e1, i);
    }
  }

  // ---------------------------------------------------------------- enable and synchronous reset as logic on D

  /** D is now chosen between the old data and the current output by the enable. */
  predicate Gated(a: Ff, b: Ff, e: Env, i: nat)
    requires i < |a.sigD| && i < |b.sigD| && i < |a.sigQ|
  {
    Eval(b.sigD[i], e) == IteS(Ce(a, e), Eval(a.sigD[i], e), Eval(a.sigQ[i], e))
  }

  /** D is now chosen between the old data and the reset value by the synchronous reset. */
  predicate ResetInto(a: Ff, b: Ff, e: Env, i: nat)
    requires i < |a.sigD| && i < |b.sigD| && i < |a.valSrst|
  {
    Eval(b.sigD[i], e) == IteS(Srst(a, e), a.valSrst[i], Eval(a.sigD[i], e))
  }

  ghost predicate IsUnmappedCe(a: Ff, b: Ff)
    requires a.Valid() && b.Valid()
  {
    && a.hasCe && !(a.hasSrst && a.ceOverSrst)
    && |b.sigD| == |a.sigD| && b == a.(sigD := b.sigD, hasCe := false)
    && forall e: Env, i: nat :: i < a.width ==> Gated(a, b, e, i)
  }

  lemma UnmapCeStep(a: Ff, b: Ff, e0: Env, e1: Env, i: nat)
    requires a.Valid() && b.Valid() && IsUnmappedCe(a, b) && i < a.width
    ensures Next(a, e0, e1, i) == Next(b, e0, e1, i)
  {
    hide Eval, Decide, Edge;
    assert Gated(a, b, e0, i);
    assert Clocked(a, e0, i) == Clocked(b, e0, i);
  }

  lemma UnmapCeSame(a: Ff, b: Ff)
    requires a.Valid() && b.Valid() && IsUnmappedCe(a, b)
    ensures SameBehaviour(a, b)
  {
    hide Next, Eval;
    forall e0: Env, e1: Env, i: nat | i < a.width ensures Next(a, e0, e1, i) == Next(b, e0, e1, i) {
      UnmapCeStep(a, b, e0, e1, i);
    }
  }

  ghost predicate IsUnmappedSrst(a: Ff, b: Ff)
    requires a.Valid() && b.Valid()
  {
    && a.hasSrst && !(a.hasCe && !a.ceOverSrst)
    && |b.sigD| == |a.sigD| && b == a.(sigD := b.sigD, hasSrst := false)
    && forall e: Env, i: nat :: i < a.width ==> ResetInto(a, b, e, i)
  }

  lemma UnmapSrstStep(a: Ff, b: Ff, e0: Env, e1: Env, i: nat)
    requires a.Valid() && b.Valid() && IsUnmappedSrst(a, b) && i < a.width
    ensures Next(a, e0, e1, i) == Next(b, e0, e1, i)
  {
    hide Eval, Decide, Edge;
    assert ResetInto(a, b, e0, i);
    assert Clocked(a, e0, i) == Clocked(b, e0, i);
  }

  lemma UnmapSrstSame(a: Ff, b: Ff)
    requires a.Valid() && b.Valid() && IsUnmappedSrst(a, b)
    ensures SameBehaviour(a, b)
  {
    hide Next, Eval;
    forall e0: Env, e1: Env, i: nat | i < a.width ensures Next(a, e0, e1, i) == Next(b, e0, e1, i) {
      UnmapSrstStep(a, b, e0, e1, i);
    }
  }

  // ---------------------------------------------------------------- storing bits inverted

  function FlipIf(flip: bool, s: State): State {
    if flip then NotS(s) else s
  }

  function FlipAll(v: seq<State>, bits: set<nat>): (r: seq<State>)
    ensures |r| == |v| && forall i :: 0 <= i < |v| ==> r[i] == FlipIf(i in bits, v[i])
  {
    seq(|v|, i requires 0 <= i < |v| => FlipIf(i in bits, v[i]))
  }

  /** Inversion of the given bits: an inverter on a fine cell, an exclusive or with a mask on a coarse one. */
  function Inverted(fine: bool, x: Sig, bits: set<nat>): (y: Sig)
    requires bits != {} && (forall b :: b in bits ==> b < |x|) && (fine ==> |x| == 1)
    ensures |y| == |x|
    ensures forall e: Env, i: nat :: i < |x| ==> Eval(y[i], e) == FlipIf(i in bits, Eval(x[i], e))
    ensures forall n: nat :: SigBelow(x, n) ==> SigBelow(y, n)
  {
    if fine then
      assert 0 in bits by { var b :| b in bits; }
      NotSig(x)
    else XorSig(x, seq(|x|, i requires 0 <= i < |x| => Const(if i in bits then S1 else S0)))
  }

  function OutputCells(fine: bool, oldQ: Sig, newQ: Sig, bits: set<nat>): (cells: Cells)
    requires |oldQ| == |newQ|
    requires bits != {} && (forall b :: b in bits ==> b < |newQ|) && (fine ==> |newQ| == 1)
    ensures |cells| == |oldQ|
    ensures forall i: nat :: i < |oldQ| ==> Drives(cells[i], oldQ[i], newQ[i], i in bits)
    ensures forall i: nat, n: nat ::
              i < |oldQ| && SigBelow(newQ, n) && SigBelow(oldQ, n) ==> Below(cells[i].0, n) && Below(cells[i].1, n)
  {
    var y := Inverted(fine, newQ, bits);
    seq(|oldQ|, i requires 0 <= i < |oldQ| => (oldQ[i], y[i]))
  }

  /** The cell drives `old` with `new`, inverted if asked for. */
  ghost predicate Drives(cell: (Bit, Bit), old': Bit, new': Bit, flip: bool) {
    cell.0 == old' && forall e: Env :: Eval(cell.1, e) == FlipIf(flip, Eval(new', e))
  }

  /** Inputs of bit `i` seen through the inversion; an inverted bit exchanges set and clear, and the old
      clear keeps winning. */
  predicate FlippedBit(m: Ff, n: Ff, flip: bool, e: Env, i: nat)
    requires m.Valid() && n.Valid() && i < m.width == n.width && m.hasClk == n.hasClk && m.hasGclk == n.hasGclk
  {
    && (m.hasClk || m.hasGclk ==> Eval(n.sigD[i], e) == FlipIf(flip, Eval(m.sigD[i], e)))
    && (m.hasAload ==> LoadValue(n, e, i) == FlipIf(flip, LoadValue(m, e, i)))
    && Clr(n, e, i) == (if flip then AndS(Set(m, e, i), NotS(Clr(m, e, i))) else Clr(m, e, i))
    && Set(n, e, i) == (if flip then Clr(m, e, i) else Set(m, e, i))
  }

  ghost predicate IsFlipped(m: Ff, n: Ff, bits: set<nat>)
    requires m.Valid() && n.Valid()
  {
    && n == m.(sigQ := n.sigQ, sigD := n.sigD, sigAd := n.sigAd, sigClr := n.sigClr, sigSet := n.sigSet,
               polClr := n.polClr, polSet := n.polSet, valArst := n.valArst, valSrst := n.valSrst, valInit := n.valInit)
    && n.valInit == FlipAll(m.valInit, bits)
    && (m.hasArst ==> n.valArst == FlipAll(m.valArst, bits))
    && (m.hasSrst ==> n.valSrst == FlipAll(m.valSrst, bits))
    && forall e: Env, i: nat :: i < m.width ==> FlippedBit(m, n, i in bits, e, i)
  }

  lemma SampledFlipped(over: bool, ce: State, srst: State, v: State, d: State, h: State, v': State, d': State,
      h': State)
    requires d' == NotS(d) && h' == NotS(h) && (srst == S0 || v' == NotS(v))
    ensures Sampled(over, ce, srst, v', d', h') == NotS(Sampled(over, ce, srst, v, d, h))
  {
  }

  lemma DecideFlipped(clr: State, st: State, arst: State, av: State, al: State, ad: State, edge: State, s: State,
      h: State, av': State, ad': State, s': State, h': State)
    requires s' == NotS(s) && h' == NotS(h)
    requires (arst == S0 || av' == NotS(av)) && (al == S0 || ad' == NotS(ad))
    ensures Decide(AndS(st, NotS(clr)), clr, arst, av', al, ad', edge, s', h') ==
            NotS(Decide(clr, st, arst, av, al, ad, edge, s, h))
  {
  }

  lemma ClockedFlipped(m: Ff, n: Ff, bits: set<nat>, e0: Env, i: nat)
    requires m.Valid() && n.Valid() && IsFlipped(m, n, bits) && i < m.width
    requires Eval(n.sigQ[i], e0) == FlipIf(i in bits, Eval(m.sigQ[i], e0))
    ensures Clocked(n, e0, i) == FlipIf(i in bits, Clocked(m, e0, i))
  {
    assert FlippedBit(m, n, i in bits, e0, i);
    hide Eval, Sampled;
    if m.hasClk && i in bits {
      SampledFlipped(m.ceOverSrst, Ce(m, e0), Srst(m, e0), SrstValue(m, i), Eval(m.sigD[i], e0), Eval(m.sigQ[i], e0),
                     SrstValue(n, i), Eval(n.sigD[i], e0), Eval(n.sigQ[i], e0));
    }
  }

  lemma FlipStep(m: Ff, n: Ff, bits: set<nat>, e0: Env, e1: Env, i: nat)
    requires m.Valid() && n.Valid() && IsFlipped(m, n, bits) && i < m.width
    requires Eval(n.sigQ[i], e0) == FlipIf(i in bits, Eval(m.sigQ[i], e0))
    ensures Next(n, e0, e1, i) == FlipIf(i in bits, Next(m, e0, e1, i))
  {
    hide Eval, Decide, Clocked, Edge;
    assert FlippedBit(m, n, i in bits, e0, i) && FlippedBit(m, n, i in bits, e1, i);
    ClockedFlipped(m, n, bits, e0, i);
    if i in bits {
      DecideFlipped(Clr(m, e1, i), Set(m, e1, i), Arst(m, e1), ArstValue(m, i), Aload(m, e1), LoadValue(m, e1, i),
                    if m.hasClk then Edge(m.sigClk, m.polClk, e0, e1) else S0, Clocked(m, e0, i), Eval(m.sigQ[i], e0),
                    ArstValue(n, i), LoadValue(n, e1, i), Clocked(n, e0, i), Eval(n.sigQ[i], e0));
    }
  }

  lemma FlipKnown(m: Ff, n: Ff, bits: set<nat>, e0: Env, e1: Env)
    requires m.Valid() && n.Valid() && IsFlipped(m, n, bits) && KnownControls(m, e0, e1)
    ensures KnownControls(n, e0, e1)
  {
    hide Eval, Edge;
  }

  /** `n` stores `bits` inverted with respect to `m`, on a fresh register output; the added cells drive
      the old output from the new one. */
  ghost predicate Flipped(m: Net, n: Net, bits: set<nat>) {
    && m.Valid() && n.Valid() && IsFlipped(m.ff, n.ff, bits)
    && n.ff.sigQ == Fresh(m.nextWire, m.ff.width) && n.nextWire == m.nextWire + m.ff.width
    && |n.cells| == |m.cells| + m.ff.width && n.cells[..|m.cells|] == m.cells
    && forall i: nat :: i < m.ff.width ==> Drives(n.cells[|m.cells| + i], m.ff.sigQ[i], n.ff.sigQ[i], i in bits)
  }

  lemma NetLater(m: Net, n: nat)
    requires m.Valid() && m.nextWire <= n
    ensures m.(nextWire := n).Valid()
  {
    var f := m.ff;
    SigBelowLater(f.sigQ, m.nextWire, n);
    if f.hasClk || f.hasGclk { SigBelowLater(f.sigD, m.nextWire, n); }
    if f.hasAload { SigBelowLater(f.sigAd, m.nextWire, n); BelowLater(f.sigAload, m.nextWire, n); }
    if f.hasSr { SigBelowLater(f.sigClr, m.nextWire, n); SigBelowLater(f.sigSet, m.nextWire, n); }
    if f.hasClk { BelowLater(f.sigClk, m.nextWire, n); }
    if f.hasCe { BelowLater(f.sigCe, m.nextWire, n); }
    if f.hasArst { BelowLater(f.sigArst, m.nextWire, n); }
    if f.hasSrst { BelowLater(f.sigSrst, m.nextWire, n); }
    forall k | 0 <= k < |m.cells| ensures Below(m.cells[k].0, n) && Below(m.cells[k].1, n) {
      BelowLater(m.cells[k].0, m.nextWire, n);
      BelowLater(m.cells[k].1, m.nextWire, n);
    }
  }

  /** The whole description after flipping, once set and clear have been exchanged. */
  function FlippedData(m: Ff, newQ: Sig, clr: Sig, st: Sig, polClr: bool, polSet: bool, bits: set<nat>): (n: Ff)
    requires m.Valid() && |newQ| == m.width && bits != {} && (forall b :: b in bits ==> b < m.width)
    requires m.hasSr ==> |clr| == m.width && |st| == m.width
    ensures n.Valid() && n.width == m.width && n.sigQ == newQ
  {
    var d := if m.hasClk || m.hasGclk then Inverted(m.isFine, m.sigD, bits) else m.sigD;
    var ad := if m.hasAload then Inverted(m.isFine, m.sigAd, bits) else m.sigAd;
    var valArst, valSrst, valInit := FlipAll(m.valArst, bits), FlipAll(m.valSrst, bits), FlipAll(m.valInit, bits);
    m.(sigQ := newQ, sigD := d, sigAd := ad, sigClr := clr, sigSet := st, polClr := polClr, polSet := polSet,
       valArst := valArst, valSrst := valSrst, valInit := valInit)
  }

  lemma FlippedDataWires(m: Ff, newQ: Sig, clr: Sig, st: Sig, polClr: bool, polSet: bool, bits: set<nat>, n: nat)
    requires m.Valid() && |newQ| == m.width && bits != {} && (forall b :: b in bits ==> b < m.width)
    requires m.hasSr ==> |clr| == m.width && |st| == m.width && SigBelow(clr, n) && SigBelow(st, n)
    requires m.WiresBelow(n) && SigBelow(newQ, n)
    ensures FlippedData(m, newQ, clr, st, polClr, polSet, bits).WiresBelow(n)
  {
    hide Below;
  }

  lemma FlippedDataFlips(m: Ff, newQ: Sig, clr: Sig, st: Sig, polClr: bool, polSet: bool, bits: set<nat>)
    requires m.Valid() && |newQ| == m.width && bits != {} && (forall b :: b in bits ==> b < m.width)
    requires m.hasSr ==> |clr| == m.width && |st| == m.width
    requires m.hasSr ==> forall e: Env, i: nat :: i < m.width ==>
               && Active(clr[i], polClr, e) ==
                  (if i in bits then AndS(Set(m, e, i), NotS(Clr(m, e, i))) else Clr(m, e, i))
               && Active(st[i], polSet, e) == (if i in bits then Clr(m, e, i) else Set(m, e, i))
    ensures IsFlipped(m, FlippedData(m, newQ, clr, st, polClr, polSet, bits), bits)
  {
    hide Eval;
    var n := FlippedData(m, newQ, clr, st, polClr, polSet, bits);
    forall e: Env, i: nat | i < m.width ensures FlippedBit(m, n, i in bits, e, i) {
    }
  }

  lemma FlippedNet(m: Net, clr: Sig, st: Sig, polClr: bool, polSet: bool, bits: set<nat>)
    requires m.Valid() && bits != {} && (forall b :: b in bits ==> b < m.ff.width)
    requires m.ff.hasSr ==>
        |clr| == m.ff.width && |st| == m.ff.width && SigBelow(clr, m.nextWire) && SigBelow(st, m.nextWire)
    requires m.ff.hasSr ==> forall e: Env, i: nat :: i < m.ff.width ==>
               && Active(clr[i], polClr, e) ==
                  (if i in bits then AndS(Set(m.ff, e, i), NotS(Clr(m.ff, e, i))) else Clr(m.ff, e, i))
               && Active(st[i], polSet, e) == (if i in bits then Clr(m.ff, e, i) else Set(m.ff, e, i))
    ensures var newQ := Fresh(m.nextWire, m.ff.width);
            Flipped(m, Net(FlippedData(m.ff, newQ, clr, st, polClr, polSet, bits),
                           m.cells + OutputCells(m.ff.isFine, m.ff.sigQ, newQ, bits), m.nextWire + m.ff.width), bits)
  {
    hide Eval, Below, SigBelow, FlippedBit, Active, Set, Clr, FlippedData, IsFlipped, Flipped, OutputCells;
    var newQ, next := Fresh(m.nextWire, m.ff.width), m.nextWire + m.ff.width;
    NetLater(m, next);
    if m.ff.hasSr {
      SigBelowLater(clr, m.nextWire, next);
      SigBelowLater(st, m.nextWire, next);
    }
    FlippedDataWires(m.ff, newQ, clr, st, polClr, polSet, bits, next);
    FlippedDataFlips(m.ff, newQ, clr, st, polClr, polSet, bits);
    FlippedCells(m, FlippedData(m.ff, newQ, clr, st, polClr, polSet, bits), newQ, next, bits);
  }

  lemma FlippedCells(m: Net, f: Ff, newQ: Sig, next: nat, bits: set<nat>)
    requires m.Valid() && m.(nextWire := next).Valid() && bits != {} && (forall b :: b in bits ==> b < m.ff.width)
    requires newQ == Fresh(m.nextWire, m.ff.width) && next == m.nextWire + m.ff.width
    requires SigBelow(m.ff.sigQ, next) && |m.ff.sigQ| == |newQ| == m.ff.width && (m.ff.isFine ==> |newQ| == 1)
    requires f.Valid() && f.WiresBelow(next) && f.sigQ == newQ && IsFlipped(m.ff, f, bits)
    ensures Flipped(m, Net(f, m.cells + OutputCells(m.ff.isFine, m.ff.sigQ, newQ, bits), next), bits)
  {
    hide Eval, Below, SigBelow, IsFlipped, Ff.Valid, Ff.WiresBelow, Drives, OutputCells;
    var oldQ := m.ff.sigQ;
    var added := OutputCells(m.ff.isFine, oldQ, newQ, bits);
    var n := Net(f, m.cells + added, next);
    forall k | 0 <= k < |n.cells| ensures Below(n.cells[k].0, next) && Below(n.cells[k].1, next) {
      if k >= |m.cells| { assert n.cells[k] == added[k - |m.cells|]; } else { assert n.cells[k] == m.cells[k]; }
    }
    forall i: nat | i < m.ff.width ensures Drives(n.cells[|m.cells| + i], oldQ[i], newQ[i], i in bits) {
      assert n.cells[|m.cells| + i] == added[i];
    }
  }

  // ---------------------------------------------------------------- the rewrites

  /** The features no asynchronous rewrite touches. */
  predicate SameSync(a: Ff, b: Ff) {
    && a.hasClk == b.hasClk && a.hasGclk == b.hasGclk && a.hasCe == b.hasCe && a.hasSrst == b.hasSrst
    && a.ceOverSrst == b.ceOverSrst && a.isFine == b.isFine
  }

  /** The features no synchronous rewrite touches. */
  predicate SameAsync(a: Ff, b: Ff) {
    && a.hasClk == b.hasClk && a.hasGclk == b.hasGclk && a.hasAload == b.hasAload
    && a.hasArst == b.hasArst && a.hasSr == b.hasSr && a.isFine == b.isFine
  }

  datatype Op =
    | AsyncResetToLoad
    | AsyncResetToSetClear
    | LoadToSetClear
    | EnableOverReset(val: bool)
    | EnableToLogic
    | SyncResetToLogic
    | Invert(bits: set<nat>)

  /** What the source asserts before a rewrite, and for the two that can change behaviour the condition
      under which they do not: a defined reset value, and no reset that the load would overtake. */
  predicate Legal(op: Op, f: Ff) {
    match op
    case AsyncResetToLoad => f.hasArst && !f.hasAload
    case AsyncResetToSetClear => f.hasArst && !f.hasSr && Known(f.valArst)
    case LoadToSetClear => f.hasAload && !f.hasSr && !f.hasArst
    case EnableOverReset(_) => true
    case EnableToLogic => true
    case SyncResetToLogic => true
    case Invert(bits) => bits != {} && forall b :: b in bits ==> b < f.width
  }

  /** A legal rewrite leaves the register without what it replaces; any other leaves it alone. */
  ghost predicate Performed(op: Op, m: Net, n: Net) {
    if !Legal(op, m.ff) then n == m
    else
      match op
      case AsyncResetToLoad => n.ff.hasAload && !n.ff.hasArst
      case AsyncResetToSetClear => n.ff.hasSr && !n.ff.hasArst
      case LoadToSetClear => n.ff.hasSr && !n.ff.hasAload
      case EnableOverReset(val) =>
        && n.ff.hasCe == m.ff.hasCe && n.ff.hasSrst == m.ff.hasSrst
        && (n.ff.hasCe && n.ff.hasSrst ==> n.ff.ceOverSrst == val)
      case EnableToLogic => !n.ff.hasCe
      case SyncResetToLogic => !n.ff.hasSrst
      case Invert(bits) => Flipped(m, n, bits)
  }

  lemma FlippedValid(m: Net, n: Net, bits: set<nat>)
    requires Flipped(m, n, bits)
    ensures n.Valid() && Rewritten(m, n)
  {
    hide IsFlipped, Ff.WiresBelow, Ff.Valid;
  }

  lemma ChainGrows(chain: seq<Net>, n: Net)
    requires IsChain(chain) && n.Valid() && Rewritten(chain[|chain| - 1], n)
    ensures IsChain(chain + [n])
  {
    hide Rewritten, Net.Valid;
    forall k: nat | k < |chain| ensures Linked(chain + [n], k) {
      if k < |chain| - 1 { assert Linked(chain, k); }
    }
  }

  class FfData {
    // The description being rewritten.
    var f: Ff
    // The module the register lives in: cells driving existing wires, and its wire counter.
    var cells: Cells
    var nextWire: nat

    constructor (f: Ff, cells: Cells, nextWire: nat)
      ensures View() == Net(f, cells, nextWire)
    {
      this.f, this.cells, this.nextWire := f, cells, nextWire;
    }

    ghost function View(): Net
      reads this
    {
      Net(f, cells, nextWire)
    }

    /** Asynchronous reset becomes an asynchronous load of the reset value. */
    method ArstToAload()
      requires f.Valid() && f.hasArst && !f.hasAload
      modifies this`f
      ensures old(f).WiresBelow(nextWire) ==> f.WiresBelow(nextWire)
      ensures f.Valid() && f.hasAload && !f.hasArst && f.hasSr == old(f.hasSr) && SameSync(old(f), f)
      ensures SameBehaviour(old(f), f)
    {
      ghost var a := f;
      f := f.(polAload := f.polArst, sigAload := f.sigArst, sigAd := Consts(f.valArst), hasAload := true,
          hasArst := false);
      hide SameBehaviour, Eval, Below;
      ArstToAloadSame(a, f);
    }

    /** Asynchronous reset becomes per-bit set and clear. An undefined reset bit becomes a clear, so it
        is refined; defined reset values are kept exactly. */
    method ArstToSr()
      requires f.Valid() && f.hasArst && !f.hasSr
      modifies this`f
      ensures old(f).WiresBelow(nextWire) ==> f.WiresBelow(nextWire)
      ensures f.Valid() && f.hasSr && !f.hasArst && f.hasAload == old(f.hasAload) && SameSync(old(f), f)
      ensures Known(old(f).valArst) ==> SameBehaviour(old(f), f)
      ensures ResetRefined(old(f), f)
      ensures forall e0: Env, e1: Env, i: nat ::
                i < f.width && Arst(old(f), e1) == S1 ==>
                  Next(f, e0, e1, i) == if old(f).valArst[i] == S1 then S1 else S0
    {
      hide SameBehaviour, ResetRefined, Next, Arst, Eval;
      ghost var a := f;
      var idle := Const(if f.polArst then S0 else S1);
      var clr, st := seq(f.width, _ => idle), seq(f.width, _ => idle);
      for i := 0 to f.width
        invariant f == a && |clr| == a.width && |st| == a.width
        invariant forall k: nat :: k < i ==> ResetBit(a, clr[k], st[k], k)
        invariant forall k :: i <= k < a.width ==> clr[k] == st[k] == idle
      {
        if f.valArst[i] == S1 {
          st := st[i := f.sigArst];
        } else {
          clr := clr[i := f.sigArst];
        }
      }
      f := f.(polClr := f.polArst, polSet := f.polArst, sigClr := clr, sigSet := st, hasSr := true, hasArst := false);
      ArstToSrSame(a, f);
      forall e0: Env, e1: Env, i: nat | i < f.width && Arst(a, e1) == S1
        ensures Next(f, e0, e1, i) == if a.valArst[i] == S1 then S1 else S0
      {
        ArstToSrForced(a, f, e0, e1, i);
      }
    }

    /** Asynchronous load becomes per-bit set and clear. Set and clear outrank an asynchronous reset,
        the load did not: with a reset present the behaviour changes exactly when reset and load are
        active together. */
    method AloadToSr()
      requires f.Valid() && f.hasAload && !f.hasSr
      modifies this`f
      ensures old(f).WiresBelow(nextWire) ==> f.WiresBelow(nextWire)
      ensures f.Valid() && f.hasSr && !f.hasAload && f.hasArst == old(f.hasArst) && SameSync(old(f), f)
      ensures !f.hasArst ==> SameBehaviour(old(f), f)
      ensures LoadPromoted(old(f), f)
    {
      hide SameBehaviour, LoadPromoted, Eval, Below, LoadBit, KnownControls;
      ghost var a := f;
      var clr, st, polClr, polSet := LoadControls();
      f := f.(polClr := polClr, polSet := polSet, sigClr := clr, sigSet := st, hasSr := true, hasAload := false);
      AloadToSrSame(a, f);
    }

    /** Set and clear that have the effect of the load. */
    method LoadControls() returns (clr: Sig, st: Sig, polClr: bool, polSet: bool)
      requires f.Valid() && f.hasAload
      ensures |clr| == f.width && |st| == f.width
      ensures forall n: nat :: SigBelow(f.sigAd, n) && Below(f.sigAload, n) ==> SigBelow(clr, n) && SigBelow(st, n)
      ensures forall e: Env, i: nat :: i < f.width ==> LoadBit(f, clr, st, polClr, polSet, e, i)
    {
      hide Eval, Below;
      if !f.isFine {
        polClr := false;
        polSet := true;
        if f.polAload {
          clr := MuxSig(Fill(S1, f.width), f.sigAd, f.sigAload);
          st := MuxSig(Fill(S0, f.width), f.sigAd, f.sigAload);
        } else {
          clr := MuxSig(f.sigAd, Fill(S1, f.width), f.sigAload);
          st := MuxSig(f.sigAd, Fill(S0, f.width), f.sigAload);
        }
      } else {
        polClr := f.polAload;
        polSet := f.polAload;
        if f.polAload {
          clr := [AndGate(f.sigAload, NotGate(f.sigAd[0]))];
          st := [AndGate(f.sigAload, f.sigAd[0])];
        } else {
          clr := [OrGate(f.sigAload, f.sigAd[0])];
          st := [OrGate(f.sigAload, NotGate(f.sigAd[0]))];
        }
      }
    }

    /** Changes which of clock enable and synchronous reset wins, fixing up the losing control. */
    method ConvertCeOverSrst(val: bool)
      requires f.Valid()
      modifies this`f
      ensures old(f).WiresBelow(nextWire) ==> f.WiresBelow(nextWire)
      ensures f.Valid() && (f.hasCe && f.hasSrst ==> f.ceOverSrst == val)
      ensures SameAsync(old(f), f) && f.hasCe == old(f.hasCe) && f.hasSrst == old(f.hasSrst)
      ensures SameBehaviour(old(f), f)
    {
      hide SameBehaviour, Eval, Below;
      ghost var a := f;
      if !f.hasCe || !f.hasSrst || f.ceOverSrst == val {
        SameBehaviourReflexive(f);
        return;
      }
      var ce, srst := f.sigCe, f.sigSrst;
      if val {
        // Coarse cells spell the inverted reset as a separate inverter, fine cells use a combined gate.
        if f.polCe {
          ce := if f.polSrst then OrGate(ce, srst) else OrGate(ce, NotGate(srst));
        } else {
          ce := if f.polSrst then AndGate(ce, NotGate(srst)) else AndGate(ce, srst);
        }
      } else {
        if f.polSrst {
          srst := if f.polCe then AndGate(srst, ce) else AndGate(srst, NotGate(ce));
        } else {
          srst := if f.polCe then OrGate(srst, NotGate(ce)) else OrGate(srst, ce);
        }
      }
      f := f.(sigCe := ce, sigSrst := srst, ceOverSrst := val);
      forall e: Env ensures FixedUp(a, f, e) {}
      ConvertSame(a, f);
    }

    /** The clock enable becomes a feedback multiplexer on D. */
    method UnmapCe()
      requires f.Valid()
      modifies this`f
      ensures old(f).WiresBelow(nextWire) ==> f.WiresBelow(nextWire)
      ensures f.Valid() && !f.hasCe
      ensures SameAsync(old(f), f) && f.hasSrst == old(f.hasSrst && !(f.hasCe && f.ceOverSrst))
      ensures SameBehaviour(old(f), f)
      decreases if f.hasSrst && f.ceOverSrst then 1 else 0
    {
      hide SameBehaviour, Eval, Below;
      ghost var a := f;
      SameBehaviourReflexive(a);
      if !f.hasCe {
        return;
      }
      if f.hasSrst && f.ceOverSrst {
        UnmapSrst();
      }
      ghost var mid := f;
      var d := if f.polCe then MuxSig(f.sigQ, f.sigD, f.sigCe) else MuxSig(f.sigD, f.sigQ, f.sigCe);
      f := f.(sigD := d, hasCe := false);
      forall e: Env, i: nat | i < f.width ensures Gated(mid, f, e, i) {}
      UnmapCeSame(mid, f);
      SameBehaviourTransitive(a, mid, f);
    }

    /** The synchronous reset becomes a multiplexer on D. */
    method UnmapSrst()
      requires f.Valid()
      modifies this`f
      ensures old(f).WiresBelow(nextWire) ==> f.WiresBelow(nextWire)
      ensures f.Valid() && !f.hasSrst
      ensures SameAsync(old(f), f) && f.hasCe == old(f.hasCe && !(f.hasSrst && !f.ceOverSrst))
      ensures SameBehaviour(old(f), f)
      decreases if f.hasCe && !f.ceOverSrst then 1 else 0
    {
      hide SameBehaviour, Eval, Below;
      ghost var a := f;
      SameBehaviourReflexive(a);
      if !f.hasSrst {
        return;
      }
      if f.hasCe && !f.ceOverSrst {
        UnmapCe();
      }
      ghost var mid := f;
      var value := Consts(f.valSrst);
      var d := if f.polSrst then MuxSig(f.sigD, value, f.sigSrst) else MuxSig(value, f.sigD, f.sigSrst);
      f := f.(sigD := d, hasSrst := false);
      forall e: Env, i: nat | i < f.width ensures ResetInto(mid, f, e, i) {}
      UnmapSrstSame(mid, f);
      SameBehaviourTransitive(a, mid, f);
    }

    /** Set and clear after flipping. A fine cell folds the priority fix into one gate; a coarse cell first
        makes both active high and then exchanges the flipped bits. */
    method FlipSetClear(bits: set<nat>) returns (clr: Sig, st: Sig, polClr: bool, polSet: bool)
      requires f.Valid() && f.hasSr && (forall b :: b in bits ==> b < f.width) && bits != {}
      ensures |clr| == f.width && |st| == f.width
      ensures forall n: nat :: SigBelow(f.sigClr, n) && SigBelow(f.sigSet, n) ==> SigBelow(clr, n) && SigBelow(st, n)
      ensures forall e: Env, i: nat :: i < f.width ==>
                && Active(clr[i], polClr, e) ==
                   (if i in bits then AndS(Set(f, e, i), NotS(Clr(f, e, i))) else Clr(f, e, i))
                && Active(st[i], polSet, e) == (if i in bits then Clr(f, e, i) else Set(f, e, i))
    {
      hide Eval, Below;
      if f.isFine {
        assert forall b :: b in bits ==> b == 0;
        polClr, polSet := f.polSet, f.polClr;
        if f.polSet {
          clr := [if f.polClr then AndGate(f.sigSet[0], NotGate(f.sigClr[0])) else AndGate(f.sigSet[0], f.sigClr[0])];
        } else {
          clr := [if f.polClr then OrGate(f.sigSet[0], f.sigClr[0]) else OrGate(f.sigSet[0], NotGate(f.sigClr[0]))];
        }
        st := f.sigClr;
      } else {
        clr, st := SwapSetClear(bits);
        polClr, polSet := true, true;
      }
    }

    method SwapSetClear(bits: set<nat>) returns (clr: Sig, st: Sig)
      requires f.Valid() && f.hasSr && forall b :: b in bits ==> b < f.width
      ensures |clr| == f.width && |st| == f.width
      ensures forall n: nat :: SigBelow(f.sigClr, n) && SigBelow(f.sigSet, n) ==> SigBelow(clr, n) && SigBelow(st, n)
      ensures forall e: Env, i: nat :: i < f.width ==>
                Eval(clr[i], e) == (if i in bits then AndS(Set(f, e, i), NotS(Clr(f, e, i))) else Clr(f, e, i)) &&
                Eval(st[i], e) == (if i in bits then Clr(f, e, i) else Set(f, e, i))
    {
      hide Eval, Below;
      var notClr: Sig;
      clr, st := f.sigClr, f.sigSet;
      if !f.polClr {
        notClr := clr;
        clr := NotSig(clr);
      } else {
        notClr := NotSig(clr);
      }
      if !f.polSet {
        st := NotSig(st);
      }
      var masked := AndSig(st, notClr);
      ghost var clr0, st0 := clr, st;
      var rest := bits;
      while rest != {}
        invariant rest <= bits && |clr| == f.width && |st| == f.width
        invariant forall i: nat :: i < f.width ==>
                    if i in bits && i !in rest then st[i] == clr0[i] && clr[i] == masked[i]
                    else st[i] == st0[i] && clr[i] == clr0[i]
      {
        var bit :| bit in rest;
        st := st[bit := clr[bit]];
        clr := clr[bit := masked[bit]];
        rest := rest - {bit};
      }
    }

    /** Stores the given bits inverted: inverts data inputs, reset and initial values, exchanges set and
        clear with the priority fix, and drives the old output from a fresh, re-inverted one. */
    method FlipBits(bits: set<nat>)
      requires View().Valid() && forall b :: b in bits ==> b < f.width
      modifies this
      ensures bits == {} ==> View() == old(View())
      ensures bits != {} ==> Flipped(old(View()), View(), bits)
    {
      hide Eval, Below, Flipped, FlippedData, OutputCells, Drives;
      if bits == {} {
        return;
      }
      ghost var m := View();
      var newQ := Fresh(nextWire, f.width);
      var clr, st, polClr, polSet := f.sigClr, f.sigSet, f.polClr, f.polSet;
      if f.hasSr {
        clr, st, polClr, polSet := FlipSetClear(bits);
      }
      var added := OutputCells(f.isFine, f.sigQ, newQ, bits);
      FlippedNet(m, clr, st, polClr, polSet, bits);
      cells := cells + added;
      f := FlippedData(f, newQ, clr, st, polClr, polSet, bits);
      nextWire := nextWire + f.width;
    }

    /** Performs one rewrite if the register allows it. */
    method Apply(op: Op)
      requires View().Valid()
      modifies this
      ensures View().Valid()
      ensures View() == old(View()) || Rewritten(old(View()), View())
      ensures Performed(op, old(View()), View())
    {
      hide SameBehaviour, Flipped, ResetRefined, LoadPromoted, Ff.WiresBelow, Ff.Valid, Next;
      if !Legal(op, f) {
        return;
      }
      match op
      case AsyncResetToLoad => ArstToAload();
      case AsyncResetToSetClear => ArstToSr();
      case LoadToSetClear => AloadToSr();
      case EnableOverReset(val) => ConvertCeOverSrst(val);
      case EnableToLogic => UnmapCe();
      case SyncResetToLogic => UnmapSrst();
      case Invert(bits) =>
        FlipBits(bits);
        FlippedValid(old(View()), View(), bits);
    }

    /** Performs the rewrites in order, skipping those the register does not allow. */
    method ApplyAll(ops: seq<Op>) returns (ghost chain: seq<Net>, ghost steps: seq<Net>)
      requires View().Valid()
      modifies this
      ensures IsChain(chain) && chain[0] == old(View()) && chain[|chain| - 1] == View()
      ensures |steps| == |ops| + 1 && steps[0] == old(View()) && steps[|ops|] == View()
      ensures forall k :: 0 <= k < |ops| ==> Performed(ops[k], steps[k], steps[k + 1])
    {
      hide Rewritten, Net.Valid, Performed;
      chain, steps := [View()], [View()];
      for k := 0 to |ops|
        invariant IsChain(chain) && chain[0] == old(View()) && chain[|chain| - 1] == View() && View().Valid()
        invariant |steps| == k + 1 && steps[0] == old(View()) && steps[k] == View()
        invariant forall j :: 0 <= j < k ==> Performed(ops[j], steps[j], steps[j + 1])
      {
        ghost var before := View();
        Apply(ops[k]);
        steps := steps + [View()];
        if View() != before {
          ChainGrows(chain, View());
          chain := chain + [View()];
        }
      }
    }
  }

  // ---------------------------------------------------------------- whole runs

  /** A finite run: every instant respects the cells, the register starts at its initial value and then
      takes its steps. */
  ghost predicate IsRun(n: Net, envs: seq<Env>)
    requires n.ff.Valid()
  {
    && |envs| > 0
    && (forall t :: 0 <= t < |envs| ==> Consistent(n.cells, envs[t]))
    && (forall i: nat :: i < n.ff.width ==> Eval(n.ff.sigQ[i], envs[0]) == n.ff.valInit[i])
    && (forall t: nat, i: nat :: t + 1 < |envs| && i < n.ff.width ==> StepTaken(n.ff, envs, t, i))
  }

  ghost predicate StepTaken(f: Ff, envs: seq<Env>, t: nat, i: nat)
    requires f.Valid() && i < f.width && t + 1 < |envs|
  {
    Eval(f.sigQ[i], envs[t + 1]) == Next(f, envs[t], envs[t + 1], i)
  }

  ghost predicate KnownRun(f: Ff, envs: seq<Env>)
    requires f.Valid()
  {
    forall t: nat :: t + 1 < |envs| ==> KnownControls(f, envs[t], envs[t + 1])
  }

  /** One legal rewrite. */
  ghost predicate Rewritten(m: Net, n: Net) {
    && m.Valid() && n.Valid()
    && ((SameBehaviour(m.ff, n.ff) && n.cells == m.cells && n.nextWire == m.nextWire) ||
       exists bits :: Flipped(m, n, bits))
  }

  lemma FlippedConsistent(m: Net, n: Net, bits: set<nat>, e: Env)
    requires Flipped(m, n, bits)
    ensures Consistent(n.cells, e) <==>
            Consistent(m.cells, e) &&
                forall i: nat :: i < m.ff.width ==> Eval(m.ff.sigQ[i], e) == FlipIf(i in bits, Eval(n.ff.sigQ[i], e))
  {
    hide Eval, Below, IsFlipped, Ff.WiresBelow;
    forall k | 0 <= k < |m.cells| ensures n.cells[k] == m.cells[k] { assert n.cells[k] == n.cells[..|m.cells|][k]; }
    forall i: nat | i < m.ff.width
      ensures n.cells[|m.cells| + i].0 == m.ff.sigQ[i] &&
              Eval(n.cells[|m.cells| + i].1, e) == FlipIf(i in bits, Eval(n.ff.sigQ[i], e))
    {
      assert Drives(n.cells[|m.cells| + i], m.ff.sigQ[i], n.ff.sigQ[i], i in bits);
    }
    if Consistent(n.cells, e) {
      forall i: nat | i < m.ff.width ensures Eval(m.ff.sigQ[i], e) == FlipIf(i in bits, Eval(n.ff.sigQ[i], e)) {
        assert Eval(n.cells[|m.cells| + i].0, e) == Eval(n.cells[|m.cells| + i].1, e);
      }
    }
    if Consistent(m.cells, e) &&
        forall i: nat :: i < m.ff.width ==> Eval(m.ff.sigQ[i], e) == FlipIf(i in bits, Eval(n.ff.sigQ[i], e)) {
      forall k | 0 <= k < |n.cells| ensures Eval(n.cells[k].0, e) == Eval(n.cells[k].1, e) {
        if k < |m.cells| {
          assert Eval(m.cells[k].0, e) == Eval(m.cells[k].1, e);
        } else {
          var i: nat := k - |m.cells|;
          assert i < m.ff.width && n.cells[k] == n.cells[|m.cells| + i];
          assert Eval(n.cells[|m.cells| + i].1, e) == FlipIf(i in bits, Eval(n.ff.sigQ[i], e));
        }
      }
    }
  }

  lemma KnownCarries(m: Net, n: Net, envs: seq<Env>)
    requires Rewritten(m, n) && KnownRun(m.ff, envs)
    ensures KnownRun(n.ff, envs)
  {
    hide Eval, Below, Next, KnownControls, Ff.WiresBelow, FlippedBit;
    if bits :| Flipped(m, n, bits) {
      forall t: nat | t + 1 < |envs| ensures KnownControls(n.ff, envs[t], envs[t + 1]) {
        FlipKnown(m.ff, n.ff, bits, envs[t], envs[t + 1]);
      }
    }
  }

  /** Every run after a rewrite is a run before it: the old output takes the same values. */
  lemma RewriteKeepsRuns(m: Net, n: Net, envs: seq<Env>)
    requires Rewritten(m, n) && IsRun(n, envs) && KnownRun(m.ff, envs)
    ensures IsRun(m, envs) && KnownRun(n.ff, envs)
  {
    hide Eval, Below, Next, KnownControls, Ff.WiresBelow, FlippedBit;
    if bits :| Flipped(m, n, bits) {
      KnownCarries(m, n, envs);
      forall t | 0 <= t < |envs|
        ensures Consistent(m.cells, envs[t])
        ensures forall i: nat ::
            i < m.ff.width ==> Eval(m.ff.sigQ[i], envs[t]) == FlipIf(i in bits, Eval(n.ff.sigQ[i], envs[t]))
      {
        FlippedConsistent(m, n, bits, envs[t]);
      }
      forall t: nat, i: nat | t + 1 < |envs| && i < m.ff.width ensures StepTaken(m.ff, envs, t, i) {
        assert StepTaken(n.ff, envs, t, i);
        FlipStep(m.ff, n.ff, bits, envs[t], envs[t + 1], i);
      }
    } else {
      forall t: nat, i: nat | t + 1 < |envs| && i < m.ff.width ensures StepTaken(m.ff, envs, t, i) {
        assert StepTaken(n.ff, envs, t, i);
      }
    }
  }

  ghost predicate IsChain(chain: seq<Net>) {
    && |chain| > 0 && (forall k :: 0 <= k < |chain| ==> chain[k].Valid())
    && forall k: nat :: k < |chain| - 1 ==> Linked(chain, k)
  }

  ghost predicate Linked(chain: seq<Net>, k: nat)
    requires k < |chain| - 1
  {
    Rewritten(chain[k], chain[k + 1])
  }

  lemma ChainTail(chain: seq<Net>)
    requires IsChain(chain) && |chain| > 1
    ensures IsChain(chain[1..]) && Rewritten(chain[0], chain[1])
  {
    hide Rewritten, Net.Valid;
    assert Linked(chain, 0);
    forall k: nat | k < |chain| - 2 ensures Linked(chain[1..], k) { assert Linked(chain, k + 1); }
  }

  /** Any finite sequence of legal rewrites: every run of the result drives the original output exactly as
      the original register would. */
  lemma {:induction false} ChainKeepsRuns(chain: seq<Net>, envs: seq<Env>)
    requires IsChain(chain)
    requires IsRun(chain[|chain| - 1], envs) && KnownRun(chain[0].ff, envs)
    ensures IsRun(chain[0], envs) && KnownRun(chain[|chain| - 1].ff, envs)
    decreases |chain|
  {
    hide Net.Valid, Rewritten, IsRun, KnownRun;
    if |chain| > 1 {
      ChainTail(chain);
      KnownCarries(chain[0], chain[1], envs);
      ChainKeepsRuns(chain[1..], envs);
      RewriteKeepsRuns(chain[0], chain[1], envs);
    }
  }

  // ---------------------------------------------------------------- extending a run to the new wires

  lemma AsyncFrame(f: Ff, e: Env, e': Env, i: nat, n: nat)
    requires f.Valid() && f.WiresBelow(n) && AgreeBelow(e, e', n) && i < f.width
    ensures Arst(f, e) == Arst(f, e') && Aload(f, e) == Aload(f, e')
    ensures Clr(f, e, i) == Clr(f, e', i) && Set(f, e, i) == Set(f, e', i) && LoadValue(f, e, i) == LoadValue(f, e', i)
  {
    hide Eval, Below;
    if f.hasArst { EvalFrame(f.sigArst, e, e', n); }
    if f.hasAload { EvalFrame(f.sigAload, e, e', n); EvalFrame(f.sigAd[i], e, e', n); }
    if f.hasSr { EvalFrame(f.sigClr[i], e, e', n); EvalFrame(f.sigSet[i], e, e', n); }
  }

  lemma SyncFrame(f: Ff, e: Env, e': Env, i: nat, n: nat)
    requires f.Valid() && f.WiresBelow(n) && AgreeBelow(e, e', n) && i < f.width
    ensures Ce(f, e) == Ce(f, e') && Srst(f, e) == Srst(f, e')
    ensures Eval(f.sigQ[i], e) == Eval(f.sigQ[i], e')
    ensures f.hasClk || f.hasGclk ==> Eval(f.sigD[i], e) == Eval(f.sigD[i], e')
    ensures f.hasClk ==> Active(f.sigClk, f.polClk, e) == Active(f.sigClk, f.polClk, e')
  {
    hide Eval, Below;
    EvalFrame(f.sigQ[i], e, e', n);
    if f.hasCe { EvalFrame(f.sigCe, e, e', n); }
    if f.hasSrst { EvalFrame(f.sigSrst, e, e', n); }
    if f.hasClk || f.hasGclk { EvalFrame(f.sigD[i], e, e', n); }
    if f.hasClk { EvalFrame(f.sigClk, e, e', n); }
  }

  lemma NextFrame(f: Ff, e0: Env, e1: Env, e0': Env, e1': Env, i: nat, n: nat)
    requires f.Valid() && f.WiresBelow(n) && AgreeBelow(e0, e0', n) && AgreeBelow(e1, e1', n) && i < f.width
    ensures Next(f, e0, e1, i) == Next(f, e0', e1', i)
  {
    hide Eval, Below, Decide, Sampled, Ce, Srst, Arst, Aload, Clr, Set, LoadValue, Active, Ff.WiresBelow;
    SyncFrame(f, e0, e0', i, n);
    SyncFrame(f, e1, e1', i, n);
    AsyncFrame(f, e1, e1', i, n);
  }

  lemma KnownFrame(f: Ff, e0: Env, e1: Env, e0': Env, e1': Env, n: nat)
    requires f.Valid() && f.WiresBelow(n) && AgreeBelow(e0, e0', n) && AgreeBelow(e1, e1', n)
    requires KnownControls(f, e0, e1)
    ensures KnownControls(f, e0', e1')
  {
    hide Eval, Below;
    if f.hasCe && f.hasSrst {
      EvalFrame(f.sigCe, e0, e0', n);
      EvalFrame(f.sigSrst, e0, e0', n);
      EvalFrame(f.sigClk, e0, e0', n);
      EvalFrame(f.sigClk, e1, e1', n);
    }
  }

  /** The levels of an instant with the fresh register outputs filled in. */
  function Extended(m: Net, bits: set<nat>, e: Env): Env
    requires m.ff.Valid()
  {
    (w: nat) => if m.nextWire <= w < m.nextWire + m.ff.width
                then FlipIf((w - m.nextWire) in bits, Eval(m.ff.sigQ[w - m.nextWire], e)) else e(w)
  }

  lemma ExtendedOutputs(m: Net, n: Net, bits: set<nat>, e: Env)
    requires Flipped(m, n, bits)
    ensures AgreeBelow(e, Extended(m, bits, e), m.nextWire)
    ensures forall i: nat ::
        i < m.ff.width ==> Eval(n.ff.sigQ[i], Extended(m, bits, e)) == FlipIf(i in bits, Eval(m.ff.sigQ[i], e))
  {
    hide IsFlipped, Drives, Below, Ff.WiresBelow;
    var e' := Extended(m, bits, e);
    forall i: nat | i < m.ff.width ensures Eval(n.ff.sigQ[i], e') == FlipIf(i in bits, Eval(m.ff.sigQ[i], e)) {
      assert n.ff.sigQ[i] == Wire(m.nextWire + i);
    }
  }

  lemma ExtendedConsistent(m: Net, n: Net, bits: set<nat>, e: Env)
    requires Flipped(m, n, bits) && Consistent(m.cells, e)
    ensures AgreeBelow(e, Extended(m, bits, e), m.nextWire)
    ensures Consistent(n.cells, Extended(m, bits, e))
    ensures forall i: nat ::
        i < m.ff.width ==> Eval(n.ff.sigQ[i], Extended(m, bits, e)) == FlipIf(i in bits, Eval(m.ff.sigQ[i], e))
  {
    hide Eval, Below, IsFlipped, Extended, Drives;
    var e' := Extended(m, bits, e);
    ExtendedOutputs(m, n, bits, e);
    forall k | 0 <= k < |m.cells| ensures Eval(m.cells[k].0, e') == Eval(m.cells[k].1, e') {
      EvalFrame(m.cells[k].0, e, e', m.nextWire);
      EvalFrame(m.cells[k].1, e, e', m.nextWire);
    }
    forall i: nat | i < m.ff.width ensures Eval(m.ff.sigQ[i], e') == Eval(m.ff.sigQ[i], e) {
      EvalFrame(m.ff.sigQ[i], e, e', m.nextWire);
    }
    FlippedConsistent(m, n, bits, e');
  }

  /** Every run before a rewrite can be continued to the wires the rewrite added. */
  lemma RewriteExtendsRuns(m: Net, n: Net, envs: seq<Env>) returns (envs': seq<Env>)
    requires Rewritten(m, n) && IsRun(m, envs) && KnownRun(m.ff, envs)
    ensures |envs'| == |envs| && IsRun(n, envs') && KnownRun(n.ff, envs')
    ensures forall t :: 0 <= t < |envs| ==> AgreeBelow(envs[t], envs'[t], m.nextWire)
    ensures m.nextWire <= n.nextWire
  {
    hide Eval, Below, Next, KnownControls, Ff.WiresBelow, FlippedBit, Extended;
    if bits :| Flipped(m, n, bits) {
      envs' := seq(|envs|, t requires 0 <= t < |envs| => Extended(m, bits, envs[t]));
      forall t | 0 <= t < |envs|
        ensures AgreeBelow(envs[t], envs'[t], m.nextWire) && Consistent(n.cells, envs'[t])
        ensures forall i: nat ::
            i < m.ff.width ==> Eval(n.ff.sigQ[i], envs'[t]) == FlipIf(i in bits, Eval(m.ff.sigQ[i], envs[t]))
      {
        ExtendedConsistent(m, n, bits, envs[t]);
      }
      forall t: nat | t + 1 < |envs| ensures KnownControls(n.ff, envs'[t], envs'[t + 1]) {
        KnownFrame(m.ff, envs[t], envs[t + 1], envs'[t], envs'[t + 1], m.nextWire);
        FlipKnown(m.ff, n.ff, bits, envs'[t], envs'[t + 1]);
      }
      forall t: nat, i: nat | t + 1 < |envs| && i < m.ff.width ensures StepTaken(n.ff, envs', t, i) {
        assert StepTaken(m.ff, envs, t, i);
        NextFrame(m.ff, envs[t], envs[t + 1], envs'[t], envs'[t + 1], i, m.nextWire);
        WiresOfQ(m.ff, m.nextWire, i);
        EvalFrame(m.ff.sigQ[i], envs[t], envs'[t], m.nextWire);
        FlipStep(m.ff, n.ff, bits, envs'[t], envs'[t + 1], i);
      }
    } else {
      envs' := envs;
      forall t: nat, i: nat | t + 1 < |envs| && i < m.ff.width ensures StepTaken(n.ff, envs', t, i) {
        assert StepTaken(m.ff, envs, t, i);
      }
    }
  }

  lemma WiresOfQ(f: Ff, n: nat, i: nat)
    requires f.Valid() && f.WiresBelow(n) && i < f.width
    ensures Below(f.sigQ[i], n)
  {
  }

  /** Any finite sequence of legal rewrites: every run of the original register is, on the original wires,
      a run of the result. Together with `ChainKeepsRuns` the two have the same externally visible runs. */
  lemma {:induction false} ChainExtendsRuns(chain: seq<Net>, envs: seq<Env>) returns (envs': seq<Env>)
    requires IsChain(chain) && IsRun(chain[0], envs) && KnownRun(chain[0].ff, envs)
    ensures |envs'| == |envs| && IsRun(chain[|chain| - 1], envs')
    ensures forall t :: 0 <= t < |envs| ==> AgreeBelow(envs[t], envs'[t], chain[0].nextWire)
    decreases |chain|
  {
    hide Net.Valid, Rewritten, IsRun, KnownRun;
    envs' := envs;
    if |chain| > 1 {
      ChainTail(chain);
      var envs1 := RewriteExtendsRuns(chain[0], chain[1], envs);
      envs' := ChainExtendsRuns(chain[1..], envs1);
      forall t | 0 <= t < |envs| ensures AgreeBelow(envs[t], envs'[t], chain[0].nextWire) {
        assert AgreeBelow(envs[t], envs1[t], chain[0].nextWire) && AgreeBelow(envs1[t], envs'[t], chain[1].nextWire);
      }
    }
  }
}
