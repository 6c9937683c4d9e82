/**
 Index arithmetic of wide ports: splitting an address into an aligned base and a low part, and a flat data
 index into a subword and a bit. Everything is defined by recursion so that it stays linear.
 */
module Lanes {
  import opened Signals

  /** The low `k` bits of an address. */
  function Low(v: nat, k: nat): (r: nat)
    ensures r <= v && r < Pow2(k)
    decreases k
  {
    if k == 0 then 0 else v % 2 + 2 * Low(v / 2, k - 1)
  }

  /** The address with its low `k` bits cleared. */
  function Base(v: nat, k: nat): nat {
    v - Low(v, k)
  }

  lemma {:induction false} LowBase(v: nat, k: nat, sub: nat)
    requires sub < Pow2(k)
    ensures Low(Base(v, k) + sub, k) == sub && Base(Base(v, k) + sub, k) == Base(v, k)
    decreases k
  {
    if k > 0 {
      LowBase(v / 2, k - 1, sub / 2);
      assert Base(v, k) == 2 * Base(v / 2, k - 1);
      assert (Base(v, k) + sub) / 2 == Base(v / 2, k - 1) + sub / 2 && (Base(v, k) + sub) % 2 == sub % 2;
    }
  }

  /** The low bits of the low bits are the low bits. */
  lemma {:induction false} LowLow(v: nat, k: nat, m: nat)
    requires k <= m
    ensures Low(Low(v, m), k) == Low(v, k)
    decreases m
  {
    if k > 0 {
      LowLow(v / 2, k - 1, m - 1);
      assert Low(v, m) / 2 == Low(v / 2, m - 1) && Low(v, m) % 2 == v % 2;
    }
  }

  /** Clearing more low bits subsumes clearing fewer. */
  lemma {:induction false} BaseBase(v: nat, k: nat, m: nat)
    requires k <= m
    ensures Base(Base(v, k), m) == Base(v, m)
    decreases m
  {
    if k > 0 {
      BaseBase(v / 2, k - 1, m - 1);
      assert Base(v, k) == 2 * Base(v / 2, k - 1);
      assert Base(v, k) / 2 == Base(v / 2, k - 1) && Base(v, k) % 2 == 0;
    }
  }

  lemma {:induction false} LowOfBase(v: nat, k: nat, m: nat)
    requires k <= m
    ensures Low(Base(v, m), k) == 0
    decreases m
  {
    if k > 0 {
      LowOfBase(v / 2, k - 1, m - 1);
      assert Base(v, m) == 2 * Base(v / 2, m - 1);
      assert Base(v, m) / 2 == Base(v / 2, m - 1) && Base(v, m) % 2 == 0;
    }
  }

  /** Adding to an address aligned on `m` bits changes only the part below. */
  lemma {:induction false} AlignedAdd(v: nat, m: nat, s: nat, k: nat)
    requires k <= m
    ensures Low(Base(v, m) + s, k) == Low(s, k) && Base(Base(v, m) + s, k) == Base(v, m) + Base(s, k)
    decreases m
  {
    if k > 0 {
      AlignedAdd(v / 2, m - 1, s / 2, k - 1);
      assert Base(v, m) == 2 * Base(v / 2, m - 1);
      assert (Base(v, m) + s) / 2 == Base(v / 2, m - 1) + s / 2 && (Base(v, m) + s) % 2 == s % 2;
    }
  }

  /** A number below `2^m` keeps below it when its low bits are cleared, and has room for any low part. */
  lemma {:induction false} BaseRoom(s: nat, k: nat, m: nat, x: nat)
    requires k <= m && s < Pow2(m) && x < Pow2(k)
    ensures Base(s, k) + x < Pow2(m)
    decreases m
  {
    if k > 0 {
      BaseRoom(s / 2, k - 1, m - 1, x / 2);
      assert Base(s, k) == 2 * Base(s / 2, k - 1);
    }
  }

  lemma {:induction false} LowOfSmall(s: nat, k: nat)
    requires s < Pow2(k)
    ensures Low(s, k) == s
    decreases k
  {
    if k > 0 { LowOfSmall(s / 2, k - 1); }
  }

  /** The multiple of `2^k` before a positive one. */
  lemma {:induction false} StepBack(sub: nat, k: nat)
    requires sub > 0 && Low(sub, k) == 0
    ensures sub >= Pow2(k) && Low(sub - Pow2(k), k) == 0
    decreases k
  {
    if k > 0 {
      StepBack(sub / 2, k - 1);
      assert (sub - Pow2(k)) / 2 == sub / 2 - Pow2(k - 1);
    }
  }

  lemma OnlyMultiple(prev: nat, s: nat, k: nat)
    requires Low(prev, k) == 0 && Low(s, k) == 0 && prev <= s < prev + Pow2(k)
    ensures s == prev
  {
    hide Low;
    AlignedAdd(prev, k, s - prev, k);
    LowOfSmall(s - prev, k);
  }

  lemma {:induction false} PowAligned(max: nat, min: nat)
    requires min <= max
    ensures Low(Pow2(max), min) == 0
    decreases min
  {
    if min > 0 {
      PowAligned(max - 1, min - 1);
      assert Pow2(max) / 2 == Pow2(max - 1) && Pow2(max) % 2 == 0;
    }
  }

  /** Flat index of bit `b` of subword `sub`. */
  function Flat(width: nat, sub: nat, b: nat): nat {
    if sub == 0 then b else width + Flat(width, sub - 1, b)
  }

  /** Number of bits in `n` subwords. */
  function Span(width: nat, n: nat): nat {
    Flat(width, n, 0)
  }

  function SubOf(width: nat, i: nat): nat
    requires width > 0
    decreases i
  {
    if i < width then 0 else 1 + SubOf(width, i - width)
  }

  function BitOf(width: nat, i: nat): (b: nat)
    requires width > 0
    ensures b < width
    decreases i
  {
    if i < width then i else BitOf(width, i - width)
  }

  lemma {:induction false} FlatSplit(width: nat, sub: nat, b: nat)
    requires b < width
    ensures SubOf(width, Flat(width, sub, b)) == sub && BitOf(width, Flat(width, sub, b)) == b
  {
    if sub > 0 { FlatSplit(width, sub - 1, b); }
  }

  lemma {:induction false} SplitFlat(width: nat, i: nat)
    requires width > 0
    ensures Flat(width, SubOf(width, i), BitOf(width, i)) == i
    decreases i
  {
    if i >= width { SplitFlat(width, i - width); }
  }

  lemma {:induction false} FlatAdd(width: nat, s: nat, sub: nat, b: nat)
    ensures Flat(width, s + sub, b) == Span(width, s) + Flat(width, sub, b)
  {
    if s > 0 { FlatAdd(width, s - 1, sub, b); }
  }

  lemma {:induction false} FlatBound(width: nat, n: nat, sub: nat, b: nat)
    requires b < width
    ensures Flat(width, sub, b) < Span(width, n) <==> sub < n
    decreases n
  {
    if n > 0 && sub > 0 { FlatBound(width, n - 1, sub - 1, b); }
  }

  lemma SubBound(width: nat, n: nat, i: nat)
    requires width > 0
    ensures i < Span(width, n) <==> SubOf(width, i) < n
  {
    SplitFlat(width, i);
    FlatBound(width, n, SubOf(width, i), BitOf(width, i));
  }

  /** The data bits of the subwords from an aligned `sub` on are one contiguous range. */
  lemma SubRange(width: nat, k: nat, sub: nat, i: nat)
    requires width > 0 && Low(sub, k) == 0
    ensures Base(SubOf(width, i), k) == sub <==> Span(width, sub) <= i < Span(width, sub) + Span(width, Pow2(k))
  {
    hide Low, SubOf, Flat, Pow2;
    var s := SubOf(width, i);
    SubBound(width, sub, i);
    SubBound(width, sub + Pow2(k), i);
    FlatAdd(width, sub, Pow2(k), 0);
    if sub <= s < sub + Pow2(k) {
      AlignedAdd(sub, k, s - sub, k);
      LowOfSmall(s - sub, k);
    }
  }

  /** The address vector with its low `k` bits replaced by those of `sub`, as `sub_addr` builds it. */
  function SubAddr(addr: Sig, k: nat, sub: nat): (r: Sig)
    requires k <= |addr|
    ensures |r| == |addr|
    decreases k
  {
    if k == 0 then addr else [Const(if sub % 2 == 1 then S1 else S0)] + SubAddr(addr[1..], k - 1, sub / 2)
  }

  lemma ZeroLow(v: nat)
    ensures Low(v, 0) == 0
  {
  }

  lemma {:induction false} SubAddrValue(addr: Sig, k: nat, sub: nat, e: Env)
    requires k <= |addr| && sub < Pow2(k) && Known(EvalSig(addr, e))
    ensures Known(EvalSig(SubAddr(addr, k, sub), e))
    ensures Value(EvalSig(SubAddr(addr, k, sub), e)) == Base(Value(EvalSig(addr, e)), k) + sub
    decreases k
  {
    hide Eval, Value, Low;
    if k > 0 {
      var r, rest := SubAddr(addr, k, sub), SubAddr(addr[1..], k - 1, sub / 2);
      var v, a := EvalSig(r, e), EvalSig(addr, e);
      EvalTail(addr, e);
      SubAddrValue(addr[1..], k - 1, sub / 2, e);
      assert r[1..] == rest;
      EvalTail(r, e);
      ConstEval(if sub % 2 == 1 then S1 else S0, e);
      KnownCons(v);
      ValueBase(a, k);
      ValueBase(v, k);
    } else {
      ZeroLow(Value(EvalSig(addr, e)));
    }
  }

  lemma ConstEval(s: State, e: Env)
    ensures Eval(Const(s), e) == s
  {
  }

  lemma KnownCons(v: seq<State>)
    requires |v| > 0 && v[0] != Sx && Known(v[1..])
    ensures Known(v)
  {
    forall i | 0 <= i < |v| ensures v[i] != Sx {
      if i > 0 { assert v[i] == v[1..][i - 1]; }
    }
  }

  lemma {:induction false} ValueBase(a: seq<State>, k: nat)
    requires |a| > 0 && k > 0
    ensures Base(Value(a), k) == 2 * Base(Value(a[1..]), k - 1) &&
        Value(a) == (if a[0] == S1 then 1 else 0) + 2 * Value(a[1..])
  {
    assert Value(a) / 2 == Value(a[1..]);
  }

  lemma EvalTail(a: Sig, e: Env)
    requires |a| > 0
    ensures EvalSig(a[1..], e) == EvalSig(a, e)[1..]
  {
    hide Eval;
  }

  /** The low `k` address bits are tied to 0, as `check` demands of a port that wide. */
  predicate Aligned(addr: Sig, k: nat) {
    k <= |addr| && forall j :: 0 <= j < k ==> addr[j] == Const(S0)
  }

  lemma {:induction false} AlignedValue(addr: Sig, k: nat, e: Env)
    requires Aligned(addr, k)
    ensures Low(Value(EvalSig(addr, e)), k) == 0
    decreases k
  {
    hide Eval;
    if k > 0 {
      AlignedValue(addr[1..], k - 1, e);
      assert EvalSig(addr, e)[1..] == EvalSig(addr[1..], e);
      ConstEval(S0, e);
    }
  }
}
