/**
 The binary gate section of an AIGER file, `aiger_encode` and the delta loop of `write_aiger` in
 `backends/aiger/aiger.cc`, together with the reader the format asks for.
 */
module AigerFile {
  import opened Aiger

  /** Seven bits a byte, the low ones first; the top bit says that more follow. */
  function Encoded(x: nat): (s: seq<nat>)
    ensures |s| > 0 && forall i :: 0 <= i < |s| ==> s[i] < 256
  {
    if x >= 128 then [x % 128 + 128] + Encoded(x / 128) else [x]
  }

  method AigerEncode(x: nat) returns (s: seq<nat>)
    ensures s == Encoded(x) && Decoded(s) == (x, |s|)
    // The last byte ends the number, and no byte is there for nothing.
    ensures |s| > 0 && s[|s| - 1] < 128 && (forall i :: 0 <= i < |s| - 1 ==> 128 <= s[i] < 256)
    ensures |s| > 1 ==> s[|s| - 1] > 0
  {
    hide Encoded, Decoded;
    EncodedShape(x);
    RoundTrip(x, []);
    assert Encoded(x) + [] == Encoded(x);
    s := [];
    var rest := x;
    while rest >= 128
      invariant s + Encoded(rest) == Encoded(x)
    {
      EncodedStep(rest);
      assert s + ([rest % 128 + 128] + Encoded(rest / 128)) == s + [rest % 128 + 128] + Encoded(rest / 128);
      s := s + [rest % 128 + 128];
      rest := rest / 128;
    }
    EncodedStep(rest);
    s := s + [rest];
  }

  lemma {:induction false} EncodedStep(x: nat)
    ensures Encoded(x) == if x >= 128 then [x % 128 + 128] + Encoded(x / 128) else [x]
  {
  }

  lemma {:induction false} EncodedShape(x: nat)
    ensures var s := Encoded(x);
            && s[|s| - 1] < 128 && (forall i :: 0 <= i < |s| - 1 ==> 128 <= s[i] < 256)
            && (x > 0 ==> s[|s| - 1] > 0) && (|s| > 1 ==> x > 0)
  {
    if x >= 128 { EncodedShape(x / 128); }
  }

  /** A number read from the front of some bytes, and how many bytes it took. */
  function Decoded(s: seq<nat>): (nat, nat) {
    if s == [] then (0, 0)
    else if s[0] < 128 then (s[0], 1)
    else var (v, k) := Decoded(s[1..]); (s[0] - 128 + 128 * v, k + 1)
  }

  lemma {:induction false} RoundTrip(x: nat, rest: seq<nat>)
    ensures Decoded(Encoded(x) + rest) == (x, |Encoded(x)|)
  {
    var s := Encoded(x) + rest;
    if x >= 128 {
      RoundTrip(x / 128, rest);
      assert s[1..] == Encoded(x / 128) + rest;
    }
  }

  /** The gates from number `i` on, each as two differences. */
  function GateBytes(base: nat, gates: seq<(nat, nat)>, i: nat): seq<nat>
    requires Ordered(base, gates) && i <= |gates|
    decreases |gates| - i
  {
    if i == |gates| then []
    else Encoded(2 * (base + i) + 2 - gates[i].0) + Encoded(gates[i].0 - gates[i].1) + GateBytes(base, gates, i + 1)
  }

  /** The bytes of a gate: how far its larger input lies below its own literal, then how far the smaller input lies
      below that. */
  predicate GateAt(lhs: nat, gate: (nat, nat), s: seq<nat>, lo: nat, hi: nat) {
    && lo <= hi <= |s| && gate.1 <= gate.0 <= lhs
    && s[lo..hi] == Encoded(lhs - gate.0) + Encoded(gate.0 - gate.1)
  }

  lemma GateStays(lhs: nat, gate: (nat, nat), s: seq<nat>, lo: nat, hi: nat, more: seq<nat>)
    requires GateAt(lhs, gate, s, lo, hi)
    ensures GateAt(lhs, gate, s + more, lo, hi)
  {
    hide Encoded;
    assert (s + more)[lo..hi] == s[lo..hi];
  }

  /** The bytes of gate `i` end where those of the next one begin. */
  method WriteGates(base: nat, gates: seq<(nat, nat)>) returns (s: seq<nat>, ghost at: seq<nat>)
    requires Ordered(base, gates)
    ensures s == GateBytes(base, gates, 0)
    ensures |at| == |gates| + 1 && at[0] == 0 && at[|gates|] == |s|
    ensures forall i :: 0 <= i < |gates| ==> GateAt(2 * (base + i) + 2, gates[i], s, at[i], at[i + 1])
  {
    hide Encoded, GateAt;
    s, at := [], [0];
    for i := 0 to |gates|
      invariant s + GateBytes(base, gates, i) == GateBytes(base, gates, 0)
      invariant |at| == i + 1 && at[0] == 0 && at[i] == |s|
      invariant forall j :: 0 <= j < i ==> GateAt(2 * (base + j) + 2, gates[j], s, at[j], at[j + 1])
    {
      var lhs := 2 * (base + i) + 2;
      var delta0 := AigerEncode(lhs - gates[i].0);
      var delta1 := AigerEncode(gates[i].0 - gates[i].1);
      GateAppended(base, gates, i, s, delta0, delta1);
      forall j | 0 <= j < i ensures GateAt(2 * (base + j) + 2, gates[j], s + (delta0 + delta1), at[j], at[j + 1]) {
        GateStays(2 * (base + j) + 2, gates[j], s, at[j], at[j + 1], delta0 + delta1);
      }
      s := s + (delta0 + delta1);
      at := at + [|s|];
    }
  }

  lemma GateAppended(base: nat, gates: seq<(nat, nat)>, i: nat, s: seq<nat>, delta0: seq<nat>, delta1: seq<nat>)
    requires Ordered(base, gates) && i < |gates|
    requires delta0 == Encoded(2 * (base + i) + 2 - gates[i].0) && delta1 == Encoded(gates[i].0 - gates[i].1)
    ensures s + GateBytes(base, gates, i) == s + (delta0 + delta1) + GateBytes(base, gates, i + 1)
    ensures GateAt(2 * (base + i) + 2, gates[i], s + (delta0 + delta1), |s|, |s| + |delta0| + |delta1|)
  {
    hide Encoded;
    var rest := GateBytes(base, gates, i + 1);
    assert s + (delta0 + delta1 + rest) == s + (delta0 + delta1) + rest;
    assert (s + (delta0 + delta1))[|s|..] == delta0 + delta1;
  }

  /** The next `n` gates, the first with variable `base + 1 + i`, as a reader rebuilds them. */
  function ReadGates(base: nat, i: nat, n: nat, s: seq<nat>): seq<(int, int)>
    decreases n
  {
    if n == 0 then [] else
      var (delta0, k0) := Decoded(s);
      var s1 := if k0 <= |s| then s[k0..] else [];
      var (delta1, k1) := Decoded(s1);
      var rhs0 := 2 * (base + i) + 2 - delta0;
      [(rhs0, rhs0 - delta1)] + ReadGates(base, i + 1, n - 1, if k1 <= |s1| then s1[k1..] else [])
  }

  /** Reading what was written gives the gates back. */
  lemma {:induction false} GatesReadBack(base: nat, gates: seq<(nat, nat)>, i: nat)
    requires Ordered(base, gates) && i <= |gates|
    ensures ReadGates(base, i, |gates| - i, GateBytes(base, gates, i)) == gates[i..]
    decreases |gates| - i
  {
    hide Encoded, Decoded;
    if i < |gates| {
      var d0, d1, rest := 2 * (base + i) + 2 - gates[i].0, gates[i].0 - gates[i].1, GateBytes(base, gates, i + 1);
      var s := GateBytes(base, gates, i);
      assert s == Encoded(d0) + (Encoded(d1) + rest);
      RoundTrip(d0, Encoded(d1) + rest);
      assert s[|Encoded(d0)|..] == Encoded(d1) + rest;
      RoundTrip(d1, rest);
      assert (Encoded(d1) + rest)[|Encoded(d1)|..] == rest;
      GatesReadBack(base, gates, i + 1);
      assert gates[i..] == [gates[i]] + gates[i + 1..];
    }
  }
}
