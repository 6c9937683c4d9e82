/** Constant folding of powers: the modular square-and-multiply loop gives the low bits of the power. */
module Power {
  import opened Signals
  import opened BitVectors
  import opened Division

  function Pow(x: int, n: nat): int {
    if n == 0 then 1 else x * Pow(x, n - 1)
  }

  lemma {:induction false} PowNonzero(x: int, n: nat)
    requires x != 0
    ensures Pow(x, n) != 0
  {
    if n > 0 { PowNonzero(x, n - 1); }
  }

  /** The power, under a negative exponent the integer quotient of 1 by it. Zero has no power then. */
  function PowerOf(a: int, b: int): int
    requires a != 0 || b >= 0
  {
    if b >= 0 then Pow(a, b) else PowNonzero(a, -b); 1 / Pow(a, -b)
  }

  lemma {:induction false} PowSum(x: int, m: nat, n: nat)
    ensures Pow(x, m + n) == Pow(x, m) * Pow(x, n)
  {
    if m > 0 {
      PowSum(x, m - 1, n);
      assert x * (Pow(x, m - 1) * Pow(x, n)) == x * Pow(x, m - 1) * Pow(x, n);
    }
  }

  lemma {:induction false} PowSquare(x: int, n: nat)
    ensures Pow(x * x, n) == Pow(x, 2 * n)
  {
    if n > 0 {
      PowSquare(x, n - 1);
      PowTwice(x, 2 * (n - 1));
    }
  }

  lemma PowTwice(x: int, n: nat)
    ensures Pow(x, n + 2) == x * x * Pow(x, n)
  {
    assert Pow(x, n + 2) == x * Pow(x, n + 1) && Pow(x, n + 1) == x * Pow(x, n);
    assert x * (x * Pow(x, n)) == x * x * Pow(x, n);
  }

  lemma {:induction false} PowNegative(x: int, n: nat)
    ensures Pow(-x, n) == if n % 2 == 0 then Pow(x, n) else -Pow(x, n)
  {
    if n > 0 {
      PowNegative(x, n - 1);
      var p := Pow(x, n - 1);
      assert (-x) * p == -(x * p) && (-x) * (-p) == x * p;
    }
  }

  lemma {:induction false} PowPositive(x: int, n: nat)
    requires x >= 0
    ensures Pow(x, n) >= 0 && (x == 0 && n > 0 ==> Pow(x, n) == 0)
  {
    if n > 0 { PowPositive(x, n - 1); }
  }

  lemma {:induction false} PowOne(n: nat)
    ensures Pow(1, n) == 1
  {
    if n > 0 { PowOne(n - 1); }
  }

  lemma {:induction false} PowGrows(x: int, n: nat)
    requires n > 0 && (x > 1 || x < -1)
    ensures Abs(Pow(x, n)) > 1
  {
    if n == 1 {
      assert Pow(x, 1) == x * Pow(x, 0) == x;
    } else {
      PowGrows(x, n - 1);
      var p := Pow(x, n - 1);
      assert Abs(x * p) == Abs(x) * Abs(p);
    }
  }

  /** The quotient is 1 or -1 for the bases 1 and -1, by the parity of the exponent, and 0 for all others. */
  lemma NegativeExponent(a: int, b: int)
    requires a != 0 && b < 0
    ensures PowerOf(a, b) == if a == 1 then 1 else if a == -1 then (if (-b) % 2 == 0 then 1 else -1) else 0
    ensures 0 <= 1 - PowerOf(a, b) * Pow(a, -b) < Abs(Pow(a, -b)) && Pow(a, -b) != 0
  {
    hide Pow;
    PowNonzero(a, -b);
    if a == 1 || a == -1 {
      PowOne(-b);
      PowNegative(1, -b);
    } else {
      PowGrows(a, -b);
    }
  }

  /** Powers of numbers with the same low bits have the same low bits. */
  lemma {:induction false} BitsPow(x: int, x': int, n: nat, w: nat)
    requires Bits(x, w) == Bits(x', w)
    ensures Bits(Pow(x, n), w) == Bits(Pow(x', n), w)
  {
    hide Bits;
    if n > 0 {
      BitsPow(x, x', n - 1, w);
      BitsTimes(x, x', Pow(x, n - 1), Pow(x', n - 1), w);
    }
  }

  lemma BitsMod(x: int, w: nat)
    ensures Bits(x % Pow2(w), w) == Bits(x, w)
  {
    hide Bits, Pow2;
    var p: int := Pow2(w);
    assert x == x % p + (x / p) * p;
    BitsMultiple(x % p, x / p, w);
  }

  /** One round of square and multiply. */
  lemma Round(y: int, a: int, b: nat, w: nat, y': int, a': int)
    requires b > 0 && Bits(y', w) == Bits(if b % 2 == 1 then y * a else y, w) && Bits(a', w) == Bits(a * a, w)
    ensures Bits(y' * Pow(a', b / 2), w) == Bits(y * Pow(a, b), w)
  {
    hide Bits, Pow;
    var h := b / 2;
    BitsPow(a', a * a, h, w);
    var z := if b % 2 == 1 then y * a else y;
    BitsTimes(y', z, Pow(a', h), Pow(a * a, h), w);
    PowSquare(a, h);
    if b % 2 == 1 {
      assert b == 2 * h + 1;
      PowNext(a, 2 * h);
      assert y * a * Pow(a, 2 * h) == y * (a * Pow(a, 2 * h));
    } else {
      assert b == 2 * h;
    }
  }

  lemma PowNext(a: int, n: nat)
    ensures Pow(a, n + 1) == a * Pow(a, n) && Pow(a, 0) == 1
  {
  }

  method PowerModulo(a0: int, b0: nat, len: nat) returns (y: int)
    requires a0 >= 0
    ensures y >= 0 && Bits(y, len) == Bits(Pow(a0, b0), len)
  {
    hide Bits, Pow, Pow2;
    var modulus := 1;
    PowZero();
    for i := 0 to len
      invariant modulus == Pow2(i)
    {
      PowStep(i);
      modulus := modulus * 2;
    }
    var a, b := a0, b0;
    y := 1;
    while b > 0
      invariant y >= 0 && a >= 0 && Bits(y * Pow(a, b), len) == Bits(Pow(a0, b0), len)
    {
      ghost var y0 := y;
      BitsMod(y * a, len);
      BitsMod(a * a, len);
      if b % 2 == 1 { y := (y * a) % modulus; }
      Round(y0, a, b, len, y, (a * a) % modulus);
      b := b / 2;
      a := (a * a) % modulus;
    }
    PowNext(a, 0);
  }

  /** The folder. An undefined operand makes the result undefined, except that a base whose bits are 0 or undefined
      counts as 0 under a positive exponent. */
  method ConstPow(arg1: seq<State>, arg2: seq<State>, signed1: bool, signed2: bool, len: nat) returns (r: seq<State>)
    ensures |r| == len
    ensures var a, b := Int(Levels(Settled(arg1, signed1)), signed1), Int(Levels(Settled(arg2, signed2)), signed2);
      if (a == 0 && b < 0) ||
          (!(Known(arg1) && Known(arg2)) && !(a == 0 && b > 0)) then forall i :: 0 <= i < len ==> r[i] == Sx
      else Known(r) && Levels(r) == Bits(PowerOf(a, b), len)
  {
    hide Bits, Int, Pow, Pow2;
    var a, undef := Const2Big(arg1, signed1, false);
    var b;
    b, undef := Const2Big(arg2, signed2, undef);
    var y := 1;
    if a == 0 && b < 0 { return seq(len, _ => Sx); }
    if a == 0 && b > 0 {
      PowPositive(0, b);
      ZeroBits(len);
      r := seq(len, _ => S0);
      assert Levels(r) == Zeros(len);
      return;
    }
    if b < 0 {
      NegativeExponent(a, b);
      if a < -1 || a > 1 { y := 0; }
      if a == -1 { y := if (-b) % 2 == 0 then 1 else -1; }
    }
    if b > 0 {
      var flip := false;
      if a < 0 && b % 2 == 1 { flip := true; }
      PowNegative(-a, b);
      y := PowerModulo(if a < 0 then -a else a, b, len);
      if flip {
        BitsNeg(y, Pow(-a, b), len);
        y := -y;
      }
    }
    PowNext(a, 0);
    r := Big2Const(y, len, undef);
  }
}
