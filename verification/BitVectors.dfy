/**
 Bit vectors, lowest bit first, and the integers they stand for modulo a power of two. The vector operations have
 the meaning their names in the SAT encoder suggest.
 */
module BitVectors {
  import opened Signals

  type Vec = seq<bool>

  function Nat(v: Vec): nat {
    if v == [] then 0 else (if v[0] then 1 else 0) + 2 * Nat(v[1..])
  }

  /** The low `w` bits of an integer in two's complement. */
  function Bits(z: int, w: nat): (v: Vec)
    ensures |v| == w
    decreases w
  {
    if w == 0 then [] else [z % 2 == 1] + Bits(z / 2, w - 1)
  }

  lemma {:induction false} BitsStep(z: int, w: nat)
    requires w > 0
    ensures Bits(z, w) == [z % 2 == 1] + Bits(z / 2, w - 1)
  {
  }

  /** The integer a vector stands for. */
  function Int(v: Vec, signed: bool): int {
    if signed && |v| > 0 && v[|v| - 1] then Nat(v) - Pow2(|v|) else Nat(v)
  }

  // ---------------------------------------------------------------- vectors and numbers

  lemma NatEmpty()
    ensures Nat([]) == 0
  {
  }

  lemma PowStep(n: nat)
    ensures Pow2(n + 1) == 2 * Pow2(n)
  {
  }

  lemma PowZero()
    ensures Pow2(0) == 1
  {
  }

  /** The bits of a constant, an undefined bit counting as 0. */
  function Levels(val: seq<State>): (v: Vec)
    ensures |v| == |val| && forall i :: 0 <= i < |val| ==> v[i] == (val[i] == S1)
  {
    seq(|val|, i requires 0 <= i < |val| => val[i] == S1)
  }

  lemma {:induction false} NatBound(v: Vec)
    ensures Nat(v) < Pow2(|v|)
  {
    if v != [] { NatBound(v[1..]); }
  }

  lemma {:induction false} BitsNat(v: Vec)
    ensures Bits(Nat(v), |v|) == v
  {
    if v != [] {
      BitsNat(v[1..]);
      assert Nat(v) / 2 == Nat(v[1..]) && (Nat(v) % 2 == 1) == v[0];
    }
  }

  lemma {:induction false} NatBits(z: nat, w: nat)
    requires z < Pow2(w)
    ensures Nat(Bits(z, w)) == z
    decreases w
  {
    if w > 0 {
      NatBits(z / 2, w - 1);
      assert Bits(z, w)[1..] == Bits(z / 2, w - 1);
    }
  }

  lemma {:induction false} BitsPrefix(z: int, w: nat, k: nat)
    requires k <= w
    ensures Bits(z, w)[..k] == Bits(z, k)
    decreases w
  {
    if k > 0 {
      BitsPrefix(z / 2, w - 1, k - 1);
      assert Bits(z, w)[..k] == [z % 2 == 1] + Bits(z / 2, w - 1)[..k - 1];
    }
  }

  /** A power of two does not show in that many bits. */
  lemma {:induction false} BitsShift(z: int, w: nat)
    ensures Bits(z - Pow2(w), w) == Bits(z, w) && Bits(z + Pow2(w), w) == Bits(z, w)
    decreases w
  {
    if w > 0 {
      BitsShift(z / 2, w - 1);
      var p := Pow2(w - 1);
      assert (z - 2 * p) / 2 == z / 2 - p && (z - 2 * p) % 2 == z % 2;
      assert (z + 2 * p) / 2 == z / 2 + p && (z + 2 * p) % 2 == z % 2;
    }
  }

  lemma {:induction false} BitsInt(v: Vec, signed: bool)
    ensures Bits(Int(v, signed), |v|) == v
  {
    BitsNat(v);
    BitsShift(Nat(v), |v|);
  }

  lemma {:induction false} BitsAdd(x: int, x': int, y: int, y': int, c: int, w: nat)
    requires Bits(x, w) == Bits(x', w) && Bits(y, w) == Bits(y', w) && 0 <= c <= 1
    ensures Bits(x + y + c, w) == Bits(x' + y' + c, w)
    decreases w
  {
    if w > 0 {
      Heads(x, x', w);
      Heads(y, y', w);
      var d := (x % 2 + y % 2 + c) / 2;
      BitsAdd(x / 2, x' / 2, y / 2, y' / 2, d, w - 1);
      assert (x + y + c) / 2 == x / 2 + y / 2 + d && (x' + y' + c) / 2 == x' / 2 + y' / 2 + d;
      assert (x + y + c) % 2 == (x' + y' + c) % 2;
    }
  }

  lemma Heads(x: int, x': int, w: nat)
    requires w > 0 && Bits(x, w) == Bits(x', w)
    ensures x % 2 == x' % 2 && Bits(x / 2, w - 1) == Bits(x' / 2, w - 1)
  {
    assert Bits(x, w)[0] == Bits(x', w)[0];
    assert Bits(x, w)[1..] == Bits(x / 2, w - 1) && Bits(x', w)[1..] == Bits(x' / 2, w - 1);
  }

  lemma {:induction false} BitsNot(x: int, x': int, w: nat)
    requires Bits(x, w) == Bits(x', w)
    ensures Bits(-1 - x, w) == Bits(-1 - x', w)
    decreases w
  {
    if w > 0 {
      Heads(x, x', w);
      BitsNot(x / 2, x' / 2, w - 1);
      assert (-1 - x) / 2 == -1 - x / 2 && (-1 - x') / 2 == -1 - x' / 2 && (-1 - x) % 2 == (-1 - x') % 2;
    }
  }

  lemma BitsNeg(x: int, x': int, w: nat)
    requires Bits(x, w) == Bits(x', w)
    ensures Bits(-x, w) == Bits(-x', w)
  {
    BitsNot(x, x', w);
    BitsAdd(-1 - x, -1 - x', 0, 0, 1, w);
    assert -1 - x + 0 + 1 == -x && -1 - x' + 0 + 1 == -x';
  }

  lemma BitsSub(x: int, x': int, y: int, y': int, w: nat)
    requires Bits(x, w) == Bits(x', w) && Bits(y, w) == Bits(y', w)
    ensures Bits(x - y, w) == Bits(x' - y', w)
  {
    BitsNot(y, y', w);
    BitsAdd(x, x', -1 - y, -1 - y', 1, w);
    assert x + (-1 - y) + 1 == x - y && x' + (-1 - y') + 1 == x' - y';
  }

  /** Vectors that agree in the bits shown stand for numbers that agree in them. */
  lemma BitsOfVec(v: Vec, z: int)
    requires v == Bits(z, |v|)
    ensures Bits(Nat(v), |v|) == Bits(z, |v|)
  {
    BitsNat(v);
  }

  // ---------------------------------------------------------------- padding and shifting

  function Zeros(n: nat): (v: Vec)
    ensures |v| == n && forall i :: 0 <= i < n ==> !v[i]
  {
    seq(n, _ => false)
  }

  lemma {:induction false} NatPad(v: Vec, n: nat)
    ensures Nat(v + Zeros(n)) == Nat(v)
    decreases |v|, n
  {
    var p := v + Zeros(n);
    if v != [] {
      NatPad(v[1..], n);
      assert p[1..] == v[1..] + Zeros(n);
    } else if n > 0 {
      NatPad([], n - 1);
      assert p[1..] == [] + Zeros(n - 1);
    }
  }

  lemma {:induction false} NatTake(v: Vec, n: nat)
    requires n <= |v| && Nat(v) < Pow2(n)
    ensures Nat(v[..n]) == Nat(v)
  {
    if n > 0 {
      NatTake(v[1..], n - 1);
      assert v[..n][1..] == v[1..][..n - 1];
    }
  }

  /** `x` times a power of two. */
  function Shl(x: nat, i: nat): nat {
    if i == 0 then x else 2 * Shl(x, i - 1)
  }

  lemma {:induction false} ShlGrows(x: nat, i: nat)
    requires x > 0
    ensures Shl(x, i) >= Pow2(i)
  {
    if i > 0 { ShlGrows(x, i - 1); }
  }

  lemma {:induction false} NatShift(v: Vec, i: nat)
    ensures Nat(Zeros(i) + v) == Shl(Nat(v), i)
    decreases i
  {
    var p := Zeros(i) + v;
    if i > 0 {
      NatShift(v, i - 1);
      assert p[1..] == Zeros(i - 1) + v;
    } else {
      assert p == v;
    }
  }

  /** `x` times the number in a vector, as a sum of shifted copies. */
  function Times(x: int, v: Vec): int {
    if v == [] then 0 else (if v[0] then x else 0) + 2 * Times(x, v[1..])
  }

  lemma {:induction false} TimesIsProduct(x: int, v: Vec)
    ensures Times(x, v) == x * Nat(v)
  {
    if v != [] {
      TimesIsProduct(x, v[1..]);
      Distribute(x, if v[0] then 1 else 0, Nat(v[1..]));
    }
  }

  lemma Distribute(x: int, h: int, t: int)
    requires h == 0 || h == 1
    ensures x * (h + 2 * t) == (if h == 1 then x else 0) + 2 * (x * t)
  {
  }

  lemma {:induction false} TimesSet(x: nat, v: Vec, i: nat)
    requires i < |v| && !v[i]
    ensures Times(x, v[i := true]) == Times(x, v) + Shl(x, i)
    decreases |v|
  {
    var w := v[i := true];
    if i > 0 {
      TimesSet(x, v[1..], i - 1);
      assert w[1..] == v[1..][i - 1 := true];
    } else {
      assert w[1..] == v[1..];
    }
  }

  lemma {:induction false} TimesZeros(x: int, n: nat)
    ensures Times(x, Zeros(n)) == 0
  {
    if n > 0 {
      TimesZeros(x, n - 1);
      assert Zeros(n)[1..] == Zeros(n - 1);
    }
  }

  // ---------------------------------------------------------------- vector operations

  function VecNeg(a: Vec): Vec { Bits(0 - Nat(a), |a|) }

  function VecAdd(a: Vec, b: Vec): Vec { Bits(Nat(a) + Nat(b), |a|) }

  function VecSub(a: Vec, b: Vec): Vec { Bits(Nat(a) - Nat(b), |a|) }

  predicate VecGe(a: Vec, b: Vec) { Nat(a) >= Nat(b) }

  function VecIte(c: bool, a: Vec, b: Vec): Vec { if c then a else b }

  predicate AnyBit(a: Vec) { exists i :: 0 <= i < |a| && a[i] }

  lemma {:induction false} AnyBitNat(a: Vec)
    ensures AnyBit(a) <==> Nat(a) != 0
  {
    if a != [] {
      AnyBitNat(a[1..]);
      if AnyBit(a[1..]) {
        var i :| 0 <= i < |a[1..]| && a[1..][i];
        assert a[i + 1];
      }
      if AnyBit(a) {
        var i :| 0 <= i < |a| && a[i];
        if i > 0 { assert a[1..][i - 1]; }
      }
    }
  }

  // ---------------------------------------------------------------- extension

  /** Extended to `n` bits: with the top bit if signed, else with zeros. */
  function Extended(v: Vec, n: nat, signed: bool): (r: Vec)
    ensures |r| == if n <= |v| then |v| else n
    decreases n
  {
    if n <= |v| then v else Extended(v, n - 1, signed) + [signed && |v| > 0 && v[|v| - 1]]
  }

  lemma {:induction false} NatSnoc(v: Vec, b: bool)
    ensures Nat(v + [b]) == Nat(v) + if b then Pow2(|v|) else 0
  {
    if v == [] {
      assert (v + [b])[1..] == [];
    } else {
      NatSnoc(v[1..], b);
      assert (v + [b])[1..] == v[1..] + [b];
    }
  }

  /** What extension adds. */
  lemma {:induction false} ExtendedAt(v: Vec, n: nat, signed: bool)
    ensures forall i :: 0 <= i < |v| ==> Extended(v, n, signed)[i] == v[i]
    ensures forall i :: |v| <= i < n ==> Extended(v, n, signed)[i] == (signed && |v| > 0 && v[|v| - 1])
    decreases n
  {
    if n > |v| { ExtendedAt(v, n - 1, signed); }
  }

  /** Extension keeps the number. */
  lemma {:induction false} ExtendedInt(v: Vec, n: nat, signed: bool)
    ensures Int(Extended(v, n, signed), signed) == Int(v, signed)
    ensures n > |v| > 0 ==> Extended(v, n, signed)[n - 1] == (signed && v[|v| - 1])
    decreases n
  {
    if n > |v| {
      ExtendedInt(v, n - 1, signed);
      var e, top := Extended(v, n - 1, signed), signed && |v| > 0 && v[|v| - 1];
      NatSnoc(e, top);
      if |v| > 0 && n - 1 > |v| { assert e[n - 2] == top; }
      if |v| == 0 { ExtendedEmpty(n, signed); ExtendedEmpty(n - 1, signed); EmptyOnly(v); }
    }
  }

  lemma EmptyOnly(v: Vec)
    requires |v| == 0
    ensures v == []
  {
  }

  lemma {:induction false} ExtendedEmpty(n: nat, signed: bool)
    ensures Extended([], n, signed) == Zeros(n) && Nat(Zeros(n)) == 0
  {
    NatPad([], n);
    assert [] + Zeros(n) == Zeros(n);
    if n > 0 { ExtendedEmpty(n - 1, signed); }
  }
}
