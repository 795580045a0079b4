/**
  Exact probability by enumeration of the possible worlds.

  A world is a subset of the input gates, encoded as a bit mask over the
  input list: bit `j` of the mask says whether the `j`-th input is true.
  Its weight is the product, over the inputs, of the input's probability
  when it is true and of its complement when it is false.
*/
module PossibleWorlds {
  import opened Circuits
  import opened Evaluation

  /** The width of the unsigned 64-bit mask counter. */
  const WordBits: nat := 64

  function Pow2(n: nat): (r: nat)
    ensures r >= 1
  {
    if n == 0 then 1 else 2 * Pow2(n - 1)
  }

  /** The inputs that are true in world `mask`: `ins[j]` for every set bit `j`. */
  function World(ins: seq<GateId>, mask: nat): set<GateId>
  {
    if ins == [] then {}
    else (if mask % 2 == 1 then {ins[0]} else {}) + World(ins[1..], mask / 2)
  }

  /** The joint probability of world `mask` over the inputs `ins`. */
  function Weight(c: Circuit, ins: seq<GateId>, mask: nat): real
    requires GatesExist(c, ins)
  {
    if ins == [] then 1.0
    else
      var p := c.gates[ins[0]].prob;
      (if mask % 2 == 1 then p else 1.0 - p) * Weight(c, ins[1..], mask / 2)
  }

  /** The total weight of the worlds `0 .. n-1`. */
  function WeightSum(c: Circuit, ins: seq<GateId>, n: nat): real
    requires GatesExist(c, ins)
  {
    if n == 0 then 0.0 else WeightSum(c, ins, n - 1) + Weight(c, ins, n - 1)
  }

  /** The weight world `mask` contributes: its weight when `g` evaluates true in it. */
  function WorldTerm(c: Circuit, g: GateId, mask: nat): real
    requires ValidGate(c, g)
  {
    if Evaluate(c, g, World(c.inputs, mask)) == Ok(true) then Weight(c, c.inputs, mask) else 0.0
  }

  /** The weight of the worlds `0 .. n-1` in which `g` evaluates true. */
  function WorldsSum(c: Circuit, g: GateId, n: nat): real
    requires ValidGate(c, g)
  {
    if n == 0 then 0.0 else WorldsSum(c, g, n - 1) + WorldTerm(c, g, n - 1)
  }

  /** The exact probability of `g`: the weight of all the worlds in which it is true. */
  function Probability(c: Circuit, g: GateId): real
    requires ValidGate(c, g)
  {
    WorldsSum(c, g, Pow2(|c.inputs|))
  }

  /** The number of values of an unsigned 64-bit word, 2^64. */
  const Word64: nat := 0x1_0000_0000_0000_0000

  lemma {:induction false} Pow2Add(a: nat, b: nat)
    ensures Pow2(a + b) == Pow2(a) * Pow2(b)
    decreases b
  {
    if b > 0 {
      Pow2Add(a, b - 1);
    }
  }

  lemma Pow2Constants()
    ensures Pow2(31) == 0x8000_0000
    ensures Pow2(32) == 0x1_0000_0000
    ensures Pow2(64) == Word64
  {
    assert Pow2(1) == 2;
    Pow2Add(1, 1);
    assert Pow2(2) == 4;
    Pow2Add(2, 2);
    assert Pow2(4) == 16;
    Pow2Add(4, 4);
    assert Pow2(8) == 0x100;
    Pow2Add(8, 8);
    assert Pow2(16) == 0x1_0000;
    Pow2Add(16, 16);
    assert Pow2(32) == 0x1_0000_0000;
    Pow2Add(32, 32);
    Pow2Add(16, 8);
    assert Pow2(24) == 0x100_0000;
    Pow2Add(24, 4);
    assert Pow2(28) == 0x1000_0000;
    Pow2Add(28, 2);
    assert Pow2(30) == 0x4000_0000;
    Pow2Add(30, 1);
  }

  lemma {:induction false} PowBound(n: nat, m: nat)
    requires n < m
    ensures Pow2(n) < Pow2(m)
    decreases m
  {
    if n < m - 1 {
      PowBound(n, m - 1);
    }
  }

  /** `1 << n` on an unsigned 64-bit word: for fewer than 64 inputs it does not wrap. */
  function WorldCount(n: nat): (r: nat)
    requires n < WordBits
    ensures r == Pow2(n)
  {
    PowBound(n, WordBits);
    Pow2Constants();
    Pow2(n) % Word64
  }

  /** `1 << n` computed, as in the source, on a 32-bit signed int and then widened to 64 bits. */
  function WorldCountAsWritten(n: nat): nat
    requires n < 32
  {
    var shifted := Pow2(n);
    var asInt32 := if shifted >= 0x8000_0000 then shifted - 0x1_0000_0000 else shifted;
    asInt32 % Word64
  }

  /** With 31 inputs the 32-bit shift overflows and the loop bound is far from 2^31. */
  lemma WorldCountAsWrittenOverflows()
    ensures WorldCountAsWritten(31) == Word64 - 0x8000_0000
    ensures WorldCountAsWritten(31) != Pow2(31)
  {
    Pow2Constants();
  }

  /** Peeling input `j` off the world and off its weight. */
  lemma DrawStep(c: Circuit, ins: seq<GateId>, j: nat, bits: nat)
    requires GatesExist(c, ins) && j < |ins|
    ensures World(ins[j..], bits) == (if bits % 2 == 1 then {ins[j]} else {}) + World(ins[j + 1..], bits / 2)
    ensures Weight(c, ins[j..], bits)
      == (if bits % 2 == 1 then c.gates[ins[j]].prob else 1.0 - c.gates[ins[j]].prob) * Weight(c, ins[j + 1..], bits / 2)
  {
    assert ins[j..][1..] == ins[j + 1..];
  }

  /**
    Draws world `mask`: the set of true inputs and its joint probability,
    testing one bit of the mask per input (`bits` holds `mask >> j`).
  */
  method DrawWorld(c: Circuit, mask: nat) returns (sampled: set<GateId>, p: real)
    requires GatesExist(c, c.inputs)
    ensures sampled == World(c.inputs, mask)
    ensures p == Weight(c, c.inputs, mask)
  {
    var ins := c.inputs;
    sampled, p := {}, 1.0;
    var bits := mask;
    var j := 0;
    while j < |ins|
      invariant j <= |ins|
      invariant sampled + World(ins[j..], bits) == World(ins, mask)
      invariant p * Weight(c, ins[j..], bits) == Weight(c, ins, mask)
    {
      var q := c.gates[ins[j]].prob;
      var f := if bits % 2 == 1 then q else 1.0 - q;
      var rest := Weight(c, ins[j + 1..], bits / 2);
      DrawStep(c, ins, j, bits);
      if bits % 2 == 1 {
        sampled := sampled + {ins[j]};
      }
      p := p * f;
      bits := bits / 2;
      j := j + 1;
    }
    assert ins[j..] == [];
  }

  /**
    Sums, over the 2^n worlds of the n inputs, the weight of those in which
    `g` evaluates true. Fails with TooManyInputs when the worlds cannot be
    counted on a 64-bit word, and with BadGate when evaluation fails in
    some world.
  */
  method PossibleWorlds(c: Circuit, g: GateId) returns (r: Result<real>)
    requires ValidGate(c, g)
    ensures |c.inputs| >= WordBits ==> r == Err(TooManyInputs)
    ensures r.Ok? ==> r.value == Probability(c, g)
    ensures |c.inputs| < WordBits && Determined(c, g) ==> r.Ok?
    ensures r.Err? ==> r.error == TooManyInputs || (r.error == BadGate && !Determined(c, g))
  {
    if |c.inputs| >= WordBits {
      return Err(TooManyInputs);
    }
    var nb := WorldCount(|c.inputs|);
    var total := 0.0;
    var i := 0;
    while i < nb
      invariant i <= nb
      invariant total == WorldsSum(c, g, i)
    {
      var sampled, p := DrawWorld(c, i);
      var e := Evaluate(c, g, sampled);
      if e.Err? {
        return Err(e.error);
      }
      if e.value {
        total := total + p;
      }
      i := i + 1;
    }
    return Ok(total);
  }

  /** The mask of the world in which exactly the inputs of `ins` that lie in `sampled` are true. */
  function MaskOf(ins: seq<GateId>, sampled: set<GateId>): (mask: nat)
    ensures mask < Pow2(|ins|)
  {
    if ins == [] then 0
    else (if ins[0] in sampled then 1 else 0) + 2 * MaskOf(ins[1..], sampled)
  }

  /** The worlds are subsets of the inputs, and every subset is the world of some mask. */
  lemma {:induction false} WorldOfMask(ins: seq<GateId>, sampled: set<GateId>, mask: nat)
    ensures World(ins, mask) <= Elems(ins)
    ensures World(ins, MaskOf(ins, sampled)) == sampled * Elems(ins)
  {
    if ins != [] {
      WorldOfMask(ins[1..], sampled, mask / 2);
      var m := MaskOf(ins[1..], sampled);
      assert (Elems(ins)) == {ins[0]} + Elems(ins[1..]);
      assert MaskOf(ins, sampled) / 2 == m;
    }
  }

  /** Over distinct inputs, different masks below 2^n are different worlds. */
  lemma {:induction false} WorldsDistinct(ins: seq<GateId>, m1: nat, m2: nat)
    requires Distinct(ins)
    requires m1 < Pow2(|ins|) && m2 < Pow2(|ins|)
    requires World(ins, m1) == World(ins, m2)
    ensures m1 == m2
  {
    if ins != [] {
      var rest := ins[1..];
      WorldOfMask(rest, {}, m1 / 2);
      WorldOfMask(rest, {}, m2 / 2);
      assert ins[0] !in Elems(rest);
      assert ins[0] !in World(rest, m1 / 2) && ins[0] !in World(rest, m2 / 2);
      assert (ins[0] in World(ins, m1)) == (m1 % 2 == 1);
      assert (ins[0] in World(ins, m2)) == (m2 % 2 == 1);
      assert World(rest, m1 / 2) == World(ins, m1) - {ins[0]};
      assert World(rest, m2 / 2) == World(ins, m2) - {ins[0]};
      WorldsDistinct(rest, m1 / 2, m2 / 2);
    }
  }

  /** Pairing world `2m` with world `2m+1` removes the first input. */
  lemma {:induction false} WeightSumPairs(c: Circuit, ins: seq<GateId>, n: nat)
    requires GatesExist(c, ins) && ins != []
    ensures WeightSum(c, ins, 2 * n) == WeightSum(c, ins[1..], n)
  {
    if n > 0 {
      WeightSumPairs(c, ins, n - 1);
      assert (2 * n - 2) / 2 == n - 1 && (2 * n - 1) / 2 == n - 1;
      var p := c.gates[ins[0]].prob;
      var w := Weight(c, ins[1..], n - 1);
      assert Weight(c, ins, 2 * n - 2) == (1.0 - p) * w;
      assert Weight(c, ins, 2 * n - 1) == p * w;
    }
  }

  /** The weights of all 2^n worlds sum to 1, whatever the probabilities. */
  lemma {:induction false} WeightsSumToOne(c: Circuit, ins: seq<GateId>)
    requires GatesExist(c, ins)
    ensures WeightSum(c, ins, Pow2(|ins|)) == 1.0
  {
    if ins == [] {
      assert WeightSum(c, ins, 1) == WeightSum(c, ins, 0) + Weight(c, ins, 0);
    } else {
      WeightSumPairs(c, ins, Pow2(|ins| - 1));
      WeightsSumToOne(c, ins[1..]);
    }
  }

  /** With probabilities in [0,1] every world has a weight in [0,1]. */
  lemma {:induction false} WeightInUnitInterval(c: Circuit, ins: seq<GateId>, mask: nat)
    requires GatesExist(c, ins) && ProbsInRange(c)
    requires forall j :: 0 <= j < |ins| ==> c.gates[ins[j]].kind == In
    ensures 0.0 <= Weight(c, ins, mask) <= 1.0
  {
    if ins != [] {
      WeightInUnitInterval(c, ins[1..], mask / 2);
      var p := c.gates[ins[0]].prob;
      var f := if mask % 2 == 1 then p else 1.0 - p;
      var w := Weight(c, ins[1..], mask / 2);
      UnitProduct(f, w);
    }
  }

  lemma {:induction false} WorldsSumBetween(c: Circuit, g: GateId, n: nat)
    requires ValidGate(c, g) && ProbsInRange(c)
    ensures 0.0 <= WorldsSum(c, g, n) <= WeightSum(c, c.inputs, n)
  {
    if n > 0 {
      WorldsSumBetween(c, g, n - 1);
      WeightInUnitInterval(c, c.inputs, n - 1);
    }
  }

  /** With input probabilities in [0,1], the exact probability lies in [0,1]. */
  lemma ProbabilityInUnitInterval(c: Circuit, g: GateId)
    requires ValidGate(c, g) && ProbsInRange(c)
    ensures 0.0 <= Probability(c, g) <= 1.0
  {
    WorldsSumBetween(c, g, Pow2(|c.inputs|));
    WeightsSumToOne(c, c.inputs);
  }
}
