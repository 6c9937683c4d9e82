/**
 Division and multiplication compiled two ways: the constant folder of `kernel/calc.cc`, which works on big
 integers, and the bit-level circuits of `kernel/satgen.cc`, a restoring division with sign fix-ups and a
 shift-and-add multiplier. A circuit is modelled by what it computes for given input levels.
 */
module Division {
  import opened Signals
  import opened BitVectors

  // ---------------------------------------------------------------- the constant folder

  predicate Negative(z: int) { z < 0 }

  function Abs(z: int): nat { if z < 0 then -z else z }

  datatype Kind = Div | Mod | DivFloor | ModFloor

  /** The folder's big-integer arithmetic, for a divisor other than zero. */
  function Fold(kind: Kind, a: int, b: int): int
    requires b != 0
  {
    var x, y := Abs(a), Abs(b);
    match kind
    case Div => if Negative(a) != Negative(b) then -(x / y) else x / y
    case Mod => if Negative(a) then -(x % y) else x % y
    case DivFloor => if Negative(a) == Negative(b) || x == 0 then x / y else -((x + y - 1) / y)
    case ModFloor =>
      var truncated := if Negative(a) then -(x % y) else x % y;
      if truncated == 0 || Negative(a) == Negative(b) then truncated
      else if Negative(b) then truncated - y else truncated + y
  }

  lemma DivMod(x: nat, y: nat, q: nat, r: nat)
    requires y > 0 && x == y * q + r && r < y
    ensures x / y == q && x % y == r
  {
    var q' := x / y;
    assert y * q' + x % y == x;
    Apart(y, q, q');
    Apart(y, q', q);
  }

  lemma Apart(y: nat, a: int, b: int)
    ensures a < b ==> y * a + y <= y * b
  {
    if a < b {
      var d := b - a - 1;
      assert y * b == y * (a + 1 + d) == y * a + y + y * d;
      assert 0 <= y * d;
    }
  }

  /** Section 5.1.5 of IEEE Std 1364-2005: division truncates toward zero and a remainder has the sign of the dividend.
      */
  lemma TruncatingLaw(a: int, b: int)
    requires b != 0
    ensures a == b * Fold(Div, a, b) + Fold(Mod, a, b) && Abs(Fold(Mod, a, b)) < Abs(b)
    ensures Fold(Mod, a, b) == 0 || (Fold(Mod, a, b) < 0 <==> a < 0)
  {
    var x: int, y: int := Abs(a), Abs(b);
    var q: int, r: int := x / y, x % y;
    assert x == y * q + r;
    assert b * -q == -(b * q) && (-y) * q == -(y * q);
  }

  /** The floored pair in terms of the quotient and remainder of the magnitudes. */
  lemma FloorCases(a: int, b: int, q: int, r: int)
    requires b != 0 && q == Abs(a) / Abs(b) && r == Abs(a) % Abs(b)
    ensures var exact := Negative(a) == Negative(b) || r == 0;
      && Fold(DivFloor, a, b) == (if Negative(a) == Negative(b) then q else if r == 0 then -q else -(q + 1))
      && Fold(ModFloor, a, b) ==
         (if exact then (if Negative(a) then -r else r) else if Negative(b) then r - Abs(b) else Abs(b) - r)
  {
    CeilingStep(Abs(a), Abs(b));
  }

  lemma FloorExact(a: int, b: int, q: int, r: int)
    requires b != 0 && Abs(a) == Abs(b) * q + r
    ensures Negative(a) == Negative(b) ==> a == b * q + if Negative(a) then -r else r
    ensures Negative(a) != Negative(b) && r == 0 ==> a == b * -q
    ensures Negative(a) != Negative(b) ==> a == b * -(q + 1) + if Negative(b) then r - Abs(b) else Abs(b) - r
  {
    Signs(Abs(b), q);
    Signs(Abs(b), q + 1);
    assert Abs(b) * (q + 1) == Abs(b) * q + Abs(b);
  }

  /** The floored pair rounds toward minus infinity and its remainder has the sign of the divisor. */
  lemma FlooringLaw(a: int, b: int)
    requires b != 0
    ensures a == b * Fold(DivFloor, a, b) + Fold(ModFloor, a, b)
    ensures if b > 0 then 0 <= Fold(ModFloor, a, b) < b else b < Fold(ModFloor, a, b) <= 0
  {
    hide Fold;
    var q: int, r: int := Abs(a) / Abs(b), Abs(a) % Abs(b);
    FloorCases(a, b, q, r);
    FloorExact(a, b, q, r);
  }

  lemma Signs(y: int, q: int)
    ensures (-y) * q == -(y * q) && y * -q == -(y * q) && (-y) * -q == y * q
  {
  }

  lemma CeilingStep(x: nat, y: nat)
    requires y > 0
    ensures (x + y - 1) / y == if x % y == 0 then x / y else x / y + 1
  {
    var q, r := x / y, x % y;
    assert x == y * q + r;
    if r == 0 {
      DivMod(x + y - 1, y, q, y - 1);
    } else {
      assert y * (q + 1) == y * q + y;
      DivMod(x + y - 1, y, q + 1, r - 1);
    }
  }

  /** Undefined bits are read as the sign: as 1 in a negative constant and as 0 in any other. */
  function Settled(val: seq<State>, asSigned: bool): (r: seq<State>)
    ensures |r| == |val| && Known(r) && (Known(val) ==> r == val)
  {
    var sign := if asSigned && |val| > 0 && val[|val| - 1] == S1 then S1 else S0;
    seq(|val|, i requires 0 <= i < |val| => if val[i] == Sx then sign else val[i])
  }

  predicate ReadAs(val: seq<State>, asSigned: bool, v: Vec)
    requires |v| == |val|
  {
    forall i :: 0 <= i < |val| ==>
      v[i] == if asSigned && val[|val| - 1] == S1 then val[i] != S0 else val[i] == S1
  }

  /** A constant as a big integer, the way the folder reads it: a negative one as the complement of its bits plus one.
      */
  method Const2Big(val: seq<State>, asSigned: bool, undef: bool) returns (z: int, undef': bool)
    ensures undef' <==> undef || !Known(val)
    ensures z == Int(Levels(Settled(val, asSigned)), asSigned)
    // Undefined bits of a negative constant count as 1, those of any other as 0.
    ensures forall v: Vec :: |v| == |val| && ReadAs(val, asSigned, v) ==> z == Int(v, asSigned)
  {
    var numBits, inverted := |val|, false;
    if asSigned && numBits > 0 && val[numBits - 1] == S1 {
      inverted := true;
      numBits := numBits - 1;
    }
    undef' := undef;
    var mag: Vec := [];
    for i := 0 to numBits
      invariant |mag| == i && (undef' <==> undef || !Known(val[..i]))
      invariant forall k :: 0 <= k < i ==> mag[k] == ((Settled(val, asSigned)[k] == S1) != inverted)
    {
      assert val[..i + 1] == val[..i] + [val[i]];
      if val[i] != Sx {
        mag := mag + [(val[i] == S1) != inverted];
      } else {
        mag := mag + [false];
        undef' := true;
      }
    }
    z := if inverted then -(Nat(mag) + 1) else Nat(mag);
    if inverted { assert val == val[..numBits] + [S1]; } else { assert val == val[..numBits]; }
    Magnitude(Levels(Settled(val, asSigned)), mag, inverted, asSigned);
    forall v: Vec | |v| == |val| && ReadAs(val, asSigned, v) ensures z == Int(v, asSigned) {
      assert v == Levels(Settled(val, asSigned));
    }
  }

  lemma {:induction false} NatComplement(v: Vec, w: Vec)
    requires |v| == |w| && forall i :: 0 <= i < |v| ==> v[i] != w[i]
    ensures Nat(v) + Nat(w) + 1 == Pow2(|v|)
  {
    if v != [] { NatComplement(v[1..], w[1..]); }
  }

  lemma Magnitude(v: Vec, mag: Vec, inverted: bool, asSigned: bool)
    requires inverted <==> asSigned && |v| > 0 && v[|v| - 1]
    requires |mag| == (if inverted then |v| - 1 else |v|) && forall k :: 0 <= k < |mag| ==> mag[k] == (v[k] != inverted)
    ensures Int(v, asSigned) == if inverted then -(Nat(mag) + 1) else Nat(mag)
  {
    if inverted {
      var low := v[..|v| - 1];
      assert v == low + [true];
      NatSnoc(low, true);
      NatComplement(low, mag);
    } else {
      assert mag == v;
    }
  }

  /** A big integer as a constant: a negative one through the complement of its magnitude less one. */
  method Big2Const(z: int, len: nat, undef: bool) returns (r: seq<State>)
    ensures |r| == len && (undef ==> forall i :: 0 <= i < len ==> r[i] == Sx)
    ensures !undef ==> Known(r) && Levels(r) == Bits(z, len)
  {
    hide Bits;
    if undef { return seq(len, _ => Sx); }
    var rest := if z < 0 then -z - 1 else z;
    r := [];
    // What is still to be shown.
    ghost var left := z;
    for i := 0 to len
      invariant |r| == i && Known(r) && 0 <= rest && left == (if z < 0 then -1 - rest else rest)
      invariant Levels(r) + Bits(left, len - i) == Bits(z, len)
    {
      var bit := (rest % 2 == 1) != (z < 0);
      BitsStep(left, len - i);
      assert bit == (left % 2 == 1);
      ghost var r0 := r;
      r := r + [if bit then S1 else S0];
      assert Levels(r) == Levels(r0) + [bit];
      assert Levels(r0) + ([bit] + Bits(left / 2, len - i - 1)) == Levels(r0) + [bit] + Bits(left / 2, len - i - 1);
      rest := rest / 2;
      left := left / 2;
    }
    assert Levels(r) + [] == Levels(r);
  }

  /** One of the four folding functions. Undefined operands and a zero divisor give an undefined result. */
  method ConstDivide(kind: Kind, arg1: seq<State>, arg2: seq<State>, signed1: bool, signed2: bool,
      len: nat) returns (r: seq<State>)
    ensures |r| == len
    ensures if Known(arg1) && Known(arg2) && Int(Levels(arg2), signed2) != 0
            then Known(r) && Levels(r) == Bits(Fold(kind, Int(Levels(arg1), signed1), Int(Levels(arg2), signed2)), len)
            else forall i :: 0 <= i < len ==> r[i] == Sx
  {
    hide Bits, Fold, Int;
    var a, undef := Const2Big(arg1, signed1, false);
    var b;
    b, undef := Const2Big(arg2, signed2, undef);
    if b == 0 { return seq(len, _ => Sx); }
    r := Big2Const(Fold(kind, a, b), len, undef);
  }

  // ---------------------------------------------------------------- the circuits

  /** Brings both operands to a common width that the result fits in as well. */
  method ExtendSignalWidth(a: Vec, b: Vec, yLen: nat, signed: bool) returns (a': Vec, b': Vec)
    ensures var n := CommonWidth(a, b, yLen); a' == Extended(a, n, signed) && b' == Extended(b, n, signed)
    // The least common width, on which the numbers stay what they were.
    ensures |a| <= |a'| == |b'| && |b| <= |a'| && yLen <= |a'| && |a'| in {|a|, |b|, yLen}
    ensures Int(a', signed) == Int(a, signed) && Int(b', signed) == Int(b, signed)
  {
    hide Int, Bits, Nat;
    var n := CommonWidth(a, b, yLen);
    a', b' := a, b;
    assert a == Extended(a, |a|, signed) && b == Extended(b, |b|, signed);
    while |a'| < |b| || |a'| < yLen
      invariant |a| <= |a'| <= n && a' == Extended(a, |a'|, signed)
      decreases n - |a'|
    {
      TopBit(a, |a'|, signed);
      a' := a' + [signed && |a'| > 0 && a'[|a'| - 1]];
    }
    while |b'| < |a'| || |b'| < yLen
      invariant |b| <= |b'| <= n && b' == Extended(b, |b'|, signed)
      decreases n - |b'|
    {
      TopBit(b, |b'|, signed);
      b' := b' + [signed && |b'| > 0 && b'[|b'| - 1]];
    }
    ExtendedInt(a, n, signed);
    ExtendedInt(b, n, signed);
  }

  function CommonWidth(a: Vec, b: Vec, yLen: nat): nat {
    var m := if |a| < |b| then |b| else |a|;
    if m < yLen then yLen else m
  }

  lemma TopBit(v: Vec, n: nat, signed: bool)
    requires |v| <= n
    ensures var e := Extended(v, n, signed); (signed && |e| > 0 && e[|e| - 1]) == (signed && |v| > 0 && v[|v| - 1])
  {
    if |v| == 0 {
      EmptyOnly(v);
      ExtendedEmpty(n, signed);
    } else {
      ExtendedInt(v, n, signed);
    }
  }

  /** Restoring division of unsigned vectors, quotient bits from the top. */
  method Restoring(a: Vec, b: Vec) returns (y: Vec, rem: Vec)
    requires |a| == |b| && Nat(b) > 0
    ensures |y| == |rem| == |a| && Nat(y) == Nat(a) / Nat(b) && Nat(rem) == Nat(a) % Nat(b)
  {
    hide Nat, Times, Bits, Shl;
    var n := |a|;
    rem, y := a, Zeros(n);
    NatBound(a);
    ShlGrows(Nat(b), n);
    TimesZeros(Nat(b), n);
    var i := n;
    while i > 0
      invariant 0 <= i <= n && |rem| == |y| == n && forall j :: 0 <= j < i ==> !y[j]
      invariant Nat(a) == Times(Nat(b), y) + Nat(rem) && Nat(rem) < Shl(Nat(b), i) && Nat(rem) < Pow2(n)
    {
      i := i - 1;
      ShlStep(Nat(b), i);
      var wide := rem + Zeros(n);
      var shifted := Zeros(i) + b;
      shifted := shifted + Zeros(|wide| - |shifted|);
      NatPad(rem, n);
      NatShift(b, i);
      NatPad(Zeros(i) + b, |wide| - |Zeros(i) + b|);
      var fits := VecGe(wide, shifted);
      if fits {
        TimesSet(Nat(b), y, i);
        SubFits(wide, shifted);
      } else {
        assert y[i := false] == y;
      }
      y := y[i := fits];
      wide := VecIte(fits, VecSub(wide, shifted), wide);
      NatTake(wide, n);
      rem := wide[..n];
    }
    TimesIsProduct(Nat(b), y);
    ShlZero(Nat(b));
    DivMod(Nat(a), Nat(b), Nat(y), Nat(rem));
  }

  lemma ShlStep(x: nat, i: nat)
    ensures Shl(x, i + 1) == 2 * Shl(x, i)
  {
  }

  lemma ShlZero(x: nat)
    ensures Shl(x, 0) == x
  {
  }

  lemma SubFits(a: Vec, b: Vec)
    requires Nat(a) >= Nat(b)
    ensures Nat(VecSub(a, b)) == Nat(a) - Nat(b) && |VecSub(a, b)| == |a|
  {
    NatBound(a);
    NatBits(Nat(a) - Nat(b), |a|);
  }

  /** Magnitude of an operand: itself, or negated when it is signed and its top bit is set. */
  function MagnitudeOf(v: Vec, signed: bool): (r: Vec)
    requires |v| > 0
  {
    if signed then VecIte(v[|v| - 1], VecNeg(v), v) else v
  }

  lemma MagnitudeValue(v: Vec, signed: bool)
    requires |v| > 0
    ensures |MagnitudeOf(v, signed)| == |v| && Nat(MagnitudeOf(v, signed)) == Abs(Int(v, signed))
    ensures Negative(Int(v, signed)) <==> signed && v[|v| - 1]
  {
    NatBound(v);
    if signed && v[|v| - 1] {
      var low := v[..|v| - 1];
      assert v == low + [true];
      NatSnoc(low, true);
      NegValue(v);
    }
  }

  lemma NegValue(v: Vec)
    requires Nat(v) > 0
    ensures |VecNeg(v)| == |v| && Nat(VecNeg(v)) == Pow2(|v|) - Nat(v)
  {
    hide Nat, Bits, Pow2;
    NatBound(v);
    BitsShift(0 - Nat(v), |v|);
    NatBits(Pow2(|v|) - Nat(v), |v|);
  }

  /** The division cell: operands brought to one width, magnitudes divided, signs repaired. */
  method ImportDivide(kind: Kind, a: Vec, b: Vec, aSigned: bool, bSigned: bool, yLen: nat) returns (y: Vec)
    requires Nat(b) != 0
    ensures Int(b, aSigned && bSigned) != 0
    ensures |y| >= yLen && y[..yLen] == Bits(Fold(kind, Int(a, aSigned && bSigned), Int(b, aSigned && bSigned)), yLen)
  {
    hide Nat, Bits, Int, Extended, Fold, MagnitudeOf, Forms, Repaired;
    var signed := aSigned && bSigned;
    var a', b' := ExtendSignalWidth(a, b, yLen, signed);
    ghost var n := |a'|;
    ExtendedInt(a, CommonWidth(a, b, yLen), signed);
    ExtendedInt(b, CommonWidth(a, b, yLen), signed);
    NonZero(b, signed);
    EmptyNat(b);
    MagnitudeValue(a', signed);
    MagnitudeValue(b', signed);
    var yU, chain := Restoring(MagnitudeOf(a', signed), MagnitudeOf(b', signed));
    y := Repaired(kind, a', b', yU, chain, signed);
    FoldForms(Int(a', signed), Int(b', signed), Nat(yU), Nat(chain));
    RepairedRight(kind, a', b', yU, chain, signed);
    BitsPrefix(Fold(kind, Int(a', signed), Int(b', signed)), n, yLen);
  }

  lemma NonZero(b: Vec, signed: bool)
    requires Nat(b) != 0
    ensures Int(b, signed) != 0
  {
    NatBound(b);
  }

  lemma EmptyNat(b: Vec)
    requires Nat(b) != 0
    ensures |b| > 0
  {
  }

  /** The sign fix-ups on quotient and remainder. */
  function Repaired(kind: Kind, a: Vec, b: Vec, yU: Vec, chain: Vec, signed: bool): Vec
    requires |a| == |b| == |yU| == |chain| > 0
  {
    var n := |a|;
    var aTop, bTop := a[n - 1], b[n - 1];
    var moduloTrunc := if signed then VecIte(aTop, VecNeg(chain), chain) else chain;
    var flooredEqTrunc := if signed then aTop == bTop || !AnyBit(moduloTrunc) else true;
    match kind
    case Div => if signed then VecIte(aTop != bTop, VecNeg(yU), yU) else yU
    case Mod => moduloTrunc
    case DivFloor =>
      if signed then VecIte(aTop != bTop, VecNeg(VecIte(AnyBit(moduloTrunc), VecAdd(yU, Bits(1, n)), yU)), yU) else yU
    case ModFloor => VecIte(flooredEqTrunc, moduloTrunc, VecAdd(moduloTrunc, b))
  }

  lemma NegBits(v: Vec, z: int)
    requires v == Bits(z, |v|)
    ensures VecNeg(v) == Bits(-z, |v|)
  {
    hide Nat, Bits;
    BitsOfVec(v, z);
    BitsNeg(Nat(v), z, |v|);
  }

  lemma AddBits(v: Vec, z: int, w: Vec, y: int)
    requires |v| == |w| && v == Bits(z, |v|) && w == Bits(y, |w|)
    ensures VecAdd(v, w) == Bits(z + y, |v|)
  {
    hide Nat, Bits;
    BitsOfVec(v, z);
    BitsOfVec(w, y);
    BitsAdd(Nat(v), z, Nat(w), y, 0, |v|);
  }

  /** The remainder with the dividend's sign. */
  lemma ModuloTrunc(chain: Vec, neg: bool)
    ensures var m := VecIte(neg, VecNeg(chain), chain);
            |m| == |chain| && m == Bits(if neg then 0 - Nat(chain) else Nat(chain), |chain|) &&
                (AnyBit(m) <==> Nat(chain) != 0)
  {
    hide Nat, Bits;
    BitsNat(chain);
    AnyBitNat(VecIte(neg, VecNeg(chain), chain));
    NatBound(chain);
    if Nat(chain) > 0 { NegValue(chain); } else { ZeroNeg(chain); }
  }

  lemma ZeroNeg(v: Vec)
    requires Nat(v) == 0
    ensures Nat(VecNeg(v)) == 0
  {
    BitsNat(v);
  }

  /** Quotient and remainder of the magnitudes, and the operands' signs as the circuit sees them. */
  predicate Divided(a: Vec, b: Vec, yU: Vec, chain: Vec, signed: bool) {
    && |a| == |b| == |yU| == |chain| > 0 && Int(b, signed) != 0
    && Forms(Int(a, signed), Int(b, signed), Nat(yU), Nat(chain))
    && (Negative(Int(a, signed)) <==> signed && a[|a| - 1]) && (Negative(Int(b, signed)) <==> signed && b[|b| - 1])
  }

  lemma RepairedRight(kind: Kind, a: Vec, b: Vec, yU: Vec, chain: Vec, signed: bool)
    requires Divided(a, b, yU, chain, signed)
    ensures Repaired(kind, a, b, yU, chain, signed) == Bits(Fold(kind, Int(a, signed), Int(b, signed)), |a|)
  {
    hide Divided, Repaired, Bits, Fold, Int;
    match kind
    case Div => DivRight(a, b, yU, chain, signed);
    case Mod => ModRight(a, b, yU, chain, signed);
    case DivFloor => DivFloorRight(a, b, yU, chain, signed);
    case ModFloor => ModFloorRight(a, b, yU, chain, signed);
  }

  lemma DivRight(a: Vec, b: Vec, yU: Vec, chain: Vec, signed: bool)
    requires Divided(a, b, yU, chain, signed)
    ensures Repaired(Div, a, b, yU, chain, signed) == Bits(Fold(Div, Int(a, signed), Int(b, signed)), |a|)
  {
    hide Nat, Bits, Int, VecNeg, VecAdd, AnyBit, Fold;
    BitsNat(yU);
    NegBits(yU, Nat(yU));
  }

  lemma ModRight(a: Vec, b: Vec, yU: Vec, chain: Vec, signed: bool)
    requires Divided(a, b, yU, chain, signed)
    ensures Repaired(Mod, a, b, yU, chain, signed) == Bits(Fold(Mod, Int(a, signed), Int(b, signed)), |a|)
  {
    hide Nat, Bits, Int, VecNeg, VecAdd, AnyBit, Fold;
    ModuloTrunc(chain, signed && a[|a| - 1]);
  }

  lemma DivFloorRight(a: Vec, b: Vec, yU: Vec, chain: Vec, signed: bool)
    requires Divided(a, b, yU, chain, signed)
    ensures Repaired(DivFloor, a, b, yU, chain, signed) == Bits(Fold(DivFloor, Int(a, signed), Int(b, signed)), |a|)
  {
    hide Nat, Bits, Int, VecNeg, VecAdd, AnyBit, Fold;
    var n, q: int := |a|, Nat(yU);
    ModuloTrunc(chain, signed && a[n - 1]);
    BitsNat(yU);
    NegBits(yU, q);
    AddBits(yU, q, Bits(1, n), 1);
    AddSize(yU, Bits(1, n));
    NegBits(VecAdd(yU, Bits(1, n)), q + 1);
  }

  lemma ModFloorRight(a: Vec, b: Vec, yU: Vec, chain: Vec, signed: bool)
    requires Divided(a, b, yU, chain, signed)
    ensures Repaired(ModFloor, a, b, yU, chain, signed) == Bits(Fold(ModFloor, Int(a, signed), Int(b, signed)), |a|)
  {
    hide Nat, Bits, Int, VecNeg, VecAdd, AnyBit, Fold;
    var neg, r: int := signed && a[|a| - 1], Nat(chain);
    ModuloTrunc(chain, neg);
    BitsInt(b, signed);
    AddBits(VecIte(neg, VecNeg(chain), chain), if neg then 0 - r else r, b, Int(b, signed));
  }

  lemma AddSize(a: Vec, b: Vec)
    ensures |VecAdd(a, b)| == |a|
  {
  }

  /** The folder's results in terms of the quotient and remainder of the magnitudes. */
  predicate Forms(a: int, b: int, q: nat, r: nat)
    requires b != 0
  {
    var differ, m := Negative(a) != Negative(b), if Negative(a) then 0 - r else r;
    && Fold(Div, a, b) == (if differ then 0 - q else q) && Fold(Mod, a, b) == m
    && Fold(DivFloor, a, b) == (if !differ then q else if r == 0 then 0 - q else 0 - (q + 1))
    && Fold(ModFloor, a, b) == if r == 0 || !differ then m else m + b
  }

  lemma FoldForms(a: int, b: int, q: nat, r: nat)
    requires b != 0 && q == Abs(a) / Abs(b) && r == Abs(a) % Abs(b)
    ensures Forms(a, b, q, r)
  {
    CeilingStep(Abs(a), Abs(b));
  }

  /** Both ways at once: for defined operands and a divisor other than zero the circuit shows what the folder computes.
      */
  method DivideBothWays(kind: Kind, a: seq<State>, b: seq<State>, aSigned: bool, bSigned: bool,
      len: nat) returns (circuit: Vec, folded: seq<State>)
    requires Known(a) && Known(b) && Nat(Levels(b)) != 0
    ensures |folded| == len <= |circuit| && Known(folded) && circuit[..len] == Levels(folded)
  {
    hide Bits, Fold, Int, Nat;
    var signed := aSigned && bSigned;
    circuit := ImportDivide(kind, Levels(a), Levels(b), aSigned, bSigned, len);
    folded := ConstDivide(kind, a, b, signed, signed, len);
  }

  // ---------------------------------------------------------------- multiplication

  lemma {:induction false} TimesSnoc(x: nat, v: Vec, b: bool)
    ensures Times(x, v + [b]) == Times(x, v) + if b then Shl(x, |v|) else 0
  {
    if v == [] {
      assert (v + [b])[1..] == [];
    } else {
      TimesSnoc(x, v[1..], b);
      assert (v + [b])[1..] == v[1..] + [b];
    }
  }

  lemma {:induction false} BitsMultiple(z: int, k: int, w: nat)
    ensures Bits(z + k * Pow2(w), w) == Bits(z, w)
    decreases Abs(k)
  {
    hide Bits, Pow2;
    if k > 0 {
      BitsMultiple(z, k - 1, w);
      assert z + k * Pow2(w) == z + (k - 1) * Pow2(w) + Pow2(w);
      BitsShift(z + (k - 1) * Pow2(w), w);
    } else if k < 0 {
      BitsMultiple(z, k + 1, w);
      assert z + k * Pow2(w) == z + (k + 1) * Pow2(w) - Pow2(w);
      BitsShift(z + (k + 1) * Pow2(w), w);
    }
  }

  /** Numbers with the same low bits differ by a multiple. */
  lemma {:induction false} Congruent(x: int, x': int, w: nat) returns (k: int)
    requires Bits(x, w) == Bits(x', w)
    ensures x == x' + k * Pow2(w)
    decreases w
  {
    hide Bits, Pow2;
    if w == 0 {
      PowZero();
      k := x - x';
    } else {
      Heads(x, x', w);
      k := Congruent(x / 2, x' / 2, w - 1);
      PowStep(w - 1);
      assert k * (2 * Pow2(w - 1)) == 2 * (k * Pow2(w - 1));
    }
  }

  lemma BitsScale(x: int, x': int, y: int, w: nat)
    requires Bits(x, w) == Bits(x', w)
    ensures Bits(x * y, w) == Bits(x' * y, w)
  {
    hide Bits, Pow2;
    var k := Congruent(x, x', w);
    Regroup(x', k, Pow2(w), y);
    BitsMultiple(x' * y, k * y, w);
  }

  lemma Regroup(x: int, k: int, p: int, y: int)
    ensures (x + k * p) * y == x * y + (k * y) * p
  {
    assert (x + k * p) * y == x * y + (k * p) * y;
    assert (k * p) * y == (k * y) * p;
  }

  lemma BitsTimes(x: int, x': int, y: int, y': int, w: nat)
    requires Bits(x, w) == Bits(x', w) && Bits(y, w) == Bits(y', w)
    ensures Bits(x * y, w) == Bits(x' * y', w)
  {
    hide Bits;
    BitsScale(x, x', y, w);
    BitsScale(y, y', x', w);
    assert x' * y == y * x' && x' * y' == y' * x';
  }

  /** Signs do not matter for the low half of a product. */
  lemma ProductBits(a: Vec, b: Vec, signed: bool)
    requires |a| == |b|
    ensures Bits(Nat(a) * Nat(b), |a|) == Bits(Int(a, signed) * Int(b, signed), |a|)
  {
    hide Bits, Nat, Int;
    BitsNat(a);
    BitsNat(b);
    BitsInt(a, signed);
    BitsInt(b, signed);
    BitsTimes(Nat(a), Int(a, signed), Nat(b), Int(b, signed), |a|);
  }

  /** The shift-and-add multiplier. */
  method ImportMul(a: Vec, b: Vec, aSigned: bool, bSigned: bool, yLen: nat) returns (y: Vec)
    ensures |y| >= yLen && y[..yLen] == Bits(Int(a, aSigned && bSigned) * Int(b, aSigned && bSigned), yLen)
  {
    var signed := aSigned && bSigned;
    var a', b' := ExtendSignalWidth(a, b, yLen, signed);
    ExtendedInt(a, CommonWidth(a, b, yLen), signed);
    ExtendedInt(b, CommonWidth(a, b, yLen), signed);
    hide Nat, Bits, Int, Extended, Times, Shl;
    var n := |a'|;
    y := Zeros(n);
    ZeroBits(n);
    NoTimes(Nat(a'));
    for i := 0 to n
      invariant |y| == n && y == Bits(Times(Nat(a'), b'[..i]), n)
    {
      var shifted := (Zeros(i) + a')[..n];
      ShiftedBits(a', i);
      assert b'[..i + 1] == b'[..i] + [b'[i]];
      TimesSnoc(Nat(a'), b'[..i], b'[i]);
      AddBits(y, Times(Nat(a'), b'[..i]), shifted, Shl(Nat(a'), i));
      y := VecIte(b'[i], VecAdd(y, shifted), y);
    }
    assert b'[..n] == b';
    TimesIsProduct(Nat(a'), b');
    ProductBits(a', b', signed);
    BitsPrefix(Int(a', signed) * Int(b', signed), n, yLen);
  }

  lemma NoTimes(x: int)
    ensures Times(x, []) == 0
  {
  }

  lemma {:induction false} ZeroBits(n: nat)
    ensures Zeros(n) == Bits(0, n)
  {
    if n > 0 {
      ZeroBits(n - 1);
      assert Zeros(n) == [false] + Zeros(n - 1);
    }
  }

  lemma ShiftedBits(a: Vec, i: nat)
    ensures |(Zeros(i) + a)[..|a|]| == |a| && (Zeros(i) + a)[..|a|] == Bits(Shl(Nat(a), i), |a|)
  {
    hide Bits, Nat, Shl;
    NatShift(a, i);
    BitsNat(Zeros(i) + a);
    BitsPrefix(Nat(Zeros(i) + a), i + |a|, |a|);
  }

  method ConstMul(arg1: seq<State>, arg2: seq<State>, signed1: bool, signed2: bool, len: nat) returns (r: seq<State>)
    ensures |r| == len
    ensures if Known(arg1) && Known(arg2)
            then Known(r) && Levels(r) == Bits(Int(Levels(arg1), signed1) * Int(Levels(arg2), signed2), len)
            else forall i :: 0 <= i < len ==> r[i] == Sx
  {
    hide Bits, Int;
    var a, undef := Const2Big(arg1, signed1, false);
    var b;
    b, undef := Const2Big(arg2, signed2, undef);
    r := Big2Const(a * b, len, undef);
  }

  method ConstAdd(arg1: seq<State>, arg2: seq<State>, signed1: bool, signed2: bool, len: nat) returns (r: seq<State>)
    ensures |r| == len
    ensures if Known(arg1) && Known(arg2)
            then Known(r) && Levels(r) == Bits(Int(Levels(arg1), signed1) + Int(Levels(arg2), signed2), len)
            else forall i :: 0 <= i < len ==> r[i] == Sx
  {
    hide Bits, Int;
    var a, undef := Const2Big(arg1, signed1, false);
    var b;
    b, undef := Const2Big(arg2, signed2, undef);
    r := Big2Const(a + b, len, undef);
  }

  method ConstSub(arg1: seq<State>, arg2: seq<State>, signed1: bool, signed2: bool, len: nat) returns (r: seq<State>)
    ensures |r| == len
    ensures if Known(arg1) && Known(arg2)
            then Known(r) && Levels(r) == Bits(Int(Levels(arg1), signed1) - Int(Levels(arg2), signed2), len)
            else forall i :: 0 <= i < len ==> r[i] == Sx
  {
    hide Bits, Int;
    var a, undef := Const2Big(arg1, signed1, false);
    var b;
    b, undef := Const2Big(arg2, signed2, undef);
    r := Big2Const(a - b, len, undef);
  }

  /** Extending and cutting to the result width copies the bits, undefined ones too, and keeps the low bits of the
      number. */
  method ConstPos(arg: seq<State>, signed: bool, len: nat) returns (r: seq<State>)
    ensures |r| == len &&
        forall i ::
        0 <= i < len ==> r[i] == if i < |arg| then arg[i] else if |arg| > 0 && signed then arg[|arg| - 1] else S0
    ensures Levels(r) == Bits(Int(Levels(arg), signed), len) && (Known(arg) ==> Known(r))
  {
    hide Bits, Int;
    var padding := if |arg| > 0 && signed then arg[|arg| - 1] else S0;
    r := arg;
    while |r| < len
      invariant |arg| <= |r| && (|r| <= len || r == arg) &&
          (forall i :: 0 <= i < |r| ==> r[i] == if i < |arg| then arg[i] else padding)
      invariant Levels(r) == Extended(Levels(arg), |r|, signed)
    {
      r := r + [padding];
      assert Extended(Levels(arg), |r|, signed) == Levels(r);
    }
    ExtendedInt(Levels(arg), |r|, signed);
    BitsInt(Levels(r), signed);
    BitsPrefix(Int(Levels(r), signed), |r|, len);
    assert Levels(r[..len]) == Levels(r)[..len];
    r := r[..len];
  }
}
