/**
  The probability of an event when the inputs are drawn independently,
  computed by Shannon expansion along the input list: the first input is
  true with its probability and false with the complement, and the rest of
  the list is expanded under each choice. The expansion agrees with the sum
  over the enumerated worlds that `possibleWorlds` computes, and it turns
  negation into a complement and a conjunction of events that look at
  disjoint inputs into a product.
*/
module Expectation {
  import opened Circuits
  import opened Evaluation
  import opened PossibleWorlds

  /** A property of a world, given as the set of input gates that are true in it. */
  type Event = set<GateId> -> bool

  /** Whether `x` is true never changes whether `f` holds. */
  ghost predicate Ignores(f: Event, x: GateId) {
    forall w: set<GateId> :: f(w + {x}) == f(w)
  }

  function Negation(f: Event): Event {
    w => !f(w)
  }

  function Both(f: Event, h: Event): Event {
    w => f(w) && h(w)
  }

  /** Input `x` is true. */
  function Member(x: GateId): Event {
    w => x in w
  }

  /** Gate `g` holds. */
  function HoldsEvent(c: Circuit, g: GateId): Event
    requires ValidGate(c, g)
  {
    w => Holds(c, g, w)
  }

  /** `a` with probability `p` and `b` otherwise: the expectation of a two-way choice. */
  function Mix(p: real, a: real, b: real): real {
    p * a + (1.0 - p) * b
  }

  /** The product of two reals, as a named operation the proofs below can match on. */
  function Times(a: real, b: real): real {
    a * b
  }

  /**
    The probability that `f` holds when the inputs of `fixed` are true and
    each input of `ins` is drawn true with its probability, independently of
    the others: Shannon expansion on the first input of the list.
  */
  function Expect(c: Circuit, ins: seq<GateId>, f: Event, fixed: set<GateId>): real
    requires GatesExist(c, ins)
  {
    if ins == [] then (if f(fixed) then 1.0 else 0.0)
    else Mix(c.gates[ins[0]].prob, Expect(c, ins[1..], f, fixed + {ins[0]}), Expect(c, ins[1..], f, fixed))
  }

  /** Two events that agree on every world have the same probability. */
  lemma {:induction false} ExpectExt(c: Circuit, ins: seq<GateId>, f: Event, h: Event, fixed: set<GateId>)
    requires GatesExist(c, ins)
    requires forall w: set<GateId> :: f(w) == h(w)
    ensures Expect(c, ins, f, fixed) == Expect(c, ins, h, fixed)
  {
    if ins != [] {
      var x, rest := ins[0], ins[1..];
      assert GatesExist(c, rest);
      ExpectExt(c, rest, f, h, fixed + {x});
      ExpectExt(c, rest, f, h, fixed);
    }
  }

  /** Fixing an input the event ignores changes nothing. */
  lemma {:induction false} ExpectIgnores(c: Circuit, ins: seq<GateId>, f: Event, x: GateId, fixed: set<GateId>)
    requires GatesExist(c, ins) && Ignores(f, x)
    ensures Expect(c, ins, f, fixed + {x}) == Expect(c, ins, f, fixed)
  {
    if ins == [] {
      assert f(fixed + {x}) == f(fixed);
    } else {
      var y, rest := ins[0], ins[1..];
      assert GatesExist(c, rest);
      ExpectIgnores(c, rest, f, x, fixed + {y});
      ExpectIgnores(c, rest, f, x, fixed);
      assert fixed + {x} + {y} == fixed + {y} + {x};
    }
  }

  lemma MixSame(p: real, a: real)
    ensures Mix(p, a, a) == a
  {
  }

  /** An event that ignores every input still to draw is decided by the fixed inputs alone. */
  lemma {:induction false} ExpectConstant(c: Circuit, ins: seq<GateId>, f: Event, fixed: set<GateId>)
    requires GatesExist(c, ins)
    requires forall j :: 0 <= j < |ins| ==> Ignores(f, ins[j])
    ensures Expect(c, ins, f, fixed) == if f(fixed) then 1.0 else 0.0
  {
    if ins != [] {
      var x, rest := ins[0], ins[1..];
      assert GatesExist(c, rest);
      assert forall j :: 0 <= j < |rest| ==> Ignores(f, rest[j]) by {
        forall j | 0 <= j < |rest|
          ensures Ignores(f, rest[j])
        {
          assert rest[j] == ins[j + 1];
        }
      }
      assert Ignores(f, x) by {
        assert x == ins[0];
      }
      ExpectIgnores(c, rest, f, x, fixed);
      ExpectConstant(c, rest, f, fixed);
      MixSame(c.gates[x].prob, Expect(c, rest, f, fixed));
    }
  }

  lemma MixComplement(p: real, a: real, b: real)
    ensures Mix(p, 1.0 - a, 1.0 - b) == 1.0 - Mix(p, a, b)
  {
  }

  /** The complement of an event has the complementary probability. */
  lemma {:induction false} ExpectNegation(c: Circuit, ins: seq<GateId>, f: Event, fixed: set<GateId>)
    requires GatesExist(c, ins)
    ensures Expect(c, ins, Negation(f), fixed) == 1.0 - Expect(c, ins, f, fixed)
  {
    if ins != [] {
      var x, rest := ins[0], ins[1..];
      assert GatesExist(c, rest);
      ExpectNegation(c, rest, f, fixed + {x});
      ExpectNegation(c, rest, f, fixed);
      MixComplement(c.gates[x].prob, Expect(c, rest, f, fixed + {x}), Expect(c, rest, f, fixed));
    }
  }

  /** When one factor is the same in both branches, the expansion of a product is the product of the expansions. */
  lemma MixProduct(p: real, f1: real, f0: real, h1: real, h0: real, b1: real, b0: real)
    requires f1 == f0 || h1 == h0
    requires b1 == Times(f1, h1) && b0 == Times(f0, h0)
    ensures Mix(p, b1, b0) == Times(Mix(p, f1, f0), Mix(p, h1, h0))
  {
    if f1 == f0 {
      assert Mix(p, f1, f0) == f0;
    } else {
      assert Mix(p, h1, h0) == h0;
    }
  }

  /**
    Two events that never both look at the same input are independent: the
    probability that both hold is the product of their probabilities.
  */
  lemma {:induction false} ExpectBoth(c: Circuit, ins: seq<GateId>, f: Event, h: Event, fixed: set<GateId>)
    requires GatesExist(c, ins)
    requires forall j :: 0 <= j < |ins| ==> Ignores(f, ins[j]) || Ignores(h, ins[j])
    ensures Expect(c, ins, Both(f, h), fixed) == Times(Expect(c, ins, f, fixed), Expect(c, ins, h, fixed))
  {
    if ins != [] {
      var x, rest := ins[0], ins[1..];
      assert GatesExist(c, rest);
      assert forall j :: 0 <= j < |rest| ==> Ignores(f, rest[j]) || Ignores(h, rest[j]) by {
        forall j | 0 <= j < |rest|
          ensures Ignores(f, rest[j]) || Ignores(h, rest[j])
        {
          assert rest[j] == ins[j + 1];
        }
      }
      ExpectBoth(c, rest, f, h, fixed + {x});
      ExpectBoth(c, rest, f, h, fixed);
      if Ignores(f, x) {
        ExpectIgnores(c, rest, f, x, fixed);
      } else {
        assert Ignores(h, x) by {
          assert x == ins[0];
        }
        ExpectIgnores(c, rest, h, x, fixed);
      }
      MixProduct(c.gates[x].prob, Expect(c, rest, f, fixed + {x}), Expect(c, rest, f, fixed),
        Expect(c, rest, h, fixed + {x}), Expect(c, rest, h, fixed),
        Expect(c, rest, Both(f, h), fixed + {x}), Expect(c, rest, Both(f, h), fixed));
    }
  }

  /** Over distinct inputs, an input that is drawn and not fixed is true with its own probability. */
  lemma {:induction false} ExpectMember(c: Circuit, ins: seq<GateId>, x: GateId, fixed: set<GateId>)
    requires GatesExist(c, ins) && Distinct(ins)
    requires x in ins && x !in fixed
    ensures x < |c.gates| && Expect(c, ins, Member(x), fixed) == c.gates[x].prob
  {
    var y, rest := ins[0], ins[1..];
    assert GatesExist(c, rest);
    if y == x {
      assert forall j :: 0 <= j < |rest| ==> Ignores(Member(x), rest[j]) by {
        forall j | 0 <= j < |rest|
          ensures Ignores(Member(x), rest[j])
        {
          assert rest[j] == ins[j + 1] != x;
        }
      }
      ExpectConstant(c, rest, Member(x), fixed + {x});
      ExpectConstant(c, rest, Member(x), fixed);
    } else {
      assert x in rest by {
        var k :| 0 <= k < |ins| && ins[k] == x;
        assert rest[k - 1] == x;
      }
      assert Distinct(rest) by {
        forall j, k | 0 <= j < k < |rest|
          ensures rest[j] != rest[k]
        {
          assert rest[j] == ins[j + 1] && rest[k] == ins[k + 1];
        }
      }
      ExpectMember(c, rest, x, fixed + {y});
      ExpectMember(c, rest, x, fixed);
      MixSame(c.gates[y].prob, c.gates[x].prob);
    }
  }

  /** The weight world `k` of `ins` contributes on top of `fixed` if `f` holds there. */
  function Term(c: Circuit, ins: seq<GateId>, f: Event, fixed: set<GateId>, k: nat): real
    requires GatesExist(c, ins)
  {
    if f(fixed + World(ins, k)) then Weight(c, ins, k) else 0.0
  }

  /** The terms of every world of `ins`, in order. */
  function Terms(c: Circuit, ins: seq<GateId>, f: Event, fixed: set<GateId>): nat -> real
    requires GatesExist(c, ins)
  {
    (k: nat) => Term(c, ins, f, fixed, k)
  }

  /** The sum of the first `n` values of `t`. */
  function Sum(t: nat -> real, n: nat): real {
    if n == 0 then 0.0 else Sum(t, n - 1) + t(n - 1)
  }

  /** World `2m` of `ins` is world `m` of the rest with the first input false. */
  lemma EvenTerm(c: Circuit, ins: seq<GateId>, f: Event, fixed: set<GateId>, m: nat)
    requires GatesExist(c, ins) && ins != []
    ensures GatesExist(c, ins[1..])
    ensures Term(c, ins, f, fixed, 2 * m) == Times(1.0 - c.gates[ins[0]].prob, Term(c, ins[1..], f, fixed, m))
  {
    assert GatesExist(c, ins[1..]);
    assert (2 * m) / 2 == m && (2 * m) % 2 == 0;
    assert World(ins, 2 * m) == World(ins[1..], m);
  }

  /** World `2m+1` of `ins` is world `m` of the rest with the first input true. */
  lemma OddTerm(c: Circuit, ins: seq<GateId>, f: Event, fixed: set<GateId>, m: nat)
    requires GatesExist(c, ins) && ins != []
    ensures GatesExist(c, ins[1..])
    ensures Term(c, ins, f, fixed, 2 * m + 1) == Times(c.gates[ins[0]].prob, Term(c, ins[1..], f, fixed + {ins[0]}, m))
  {
    assert GatesExist(c, ins[1..]);
    assert (2 * m + 1) / 2 == m && (2 * m + 1) % 2 == 1;
    var v := World(ins[1..], m);
    assert World(ins, 2 * m + 1) == {ins[0]} + v;
    assert fixed + ({ins[0]} + v) == fixed + {ins[0]} + v;
  }

  /** The worlds of `ins` pair up into the worlds of the rest, with the first input false and true. */
  lemma PairTerms(c: Circuit, ins: seq<GateId>, f: Event, fixed: set<GateId>)
    requires GatesExist(c, ins) && ins != []
    ensures GatesExist(c, ins[1..])
    ensures forall m: nat ::
      && Terms(c, ins, f, fixed)(2 * m) == Times(1.0 - c.gates[ins[0]].prob, Terms(c, ins[1..], f, fixed)(m))
      && Terms(c, ins, f, fixed)(2 * m + 1) == Times(c.gates[ins[0]].prob, Terms(c, ins[1..], f, fixed + {ins[0]})(m))
  {
    assert GatesExist(c, ins[1..]);
    forall m: nat
      ensures Terms(c, ins, f, fixed)(2 * m) == Times(1.0 - c.gates[ins[0]].prob, Terms(c, ins[1..], f, fixed)(m))
      ensures Terms(c, ins, f, fixed)(2 * m + 1) == Times(c.gates[ins[0]].prob, Terms(c, ins[1..], f, fixed + {ins[0]})(m))
    {
      EvenTerm(c, ins, f, fixed, m);
      OddTerm(c, ins, f, fixed, m);
    }
  }

  /** Adding one pair of worlds to both branches of an expansion. */
  lemma MixAdd(p: real, s1: real, s0: real, t1: real, t0: real, u0: real, u1: real)
    requires u0 == Times(1.0 - p, t0) && u1 == Times(p, t1)
    ensures Mix(p, s1, s0) + u0 + u1 == Mix(p, s1 + t1, s0 + t0)
  {
  }

  /** A sum whose even and odd terms are scaled copies of two other sums is the expansion of those two sums. */
  lemma {:induction false} SumPairs(p: real, t: nat -> real, t1: nat -> real, t0: nat -> real, n: nat)
    requires forall m: nat :: m < n ==> t(2 * m) == Times(1.0 - p, t0(m)) && t(2 * m + 1) == Times(p, t1(m))
    ensures Sum(t, 2 * n) == Mix(p, Sum(t1, n), Sum(t0, n))
  {
    if n == 0 {
      MixSame(p, 0.0);
    } else {
      var m := n - 1;
      SumPairs(p, t, t1, t0, m);
      assert Sum(t, 2 * n) == Sum(t, 2 * m) + t(2 * m) + t(2 * m + 1);
      MixAdd(p, Sum(t1, m), Sum(t0, m), t1(m), t0(m), t(2 * m), t(2 * m + 1));
    }
  }

  /** Summing the weights of all 2^n worlds where the event holds gives its probability. */
  lemma {:induction false} SumExpect(c: Circuit, ins: seq<GateId>, f: Event, fixed: set<GateId>)
    requires GatesExist(c, ins)
    ensures Sum(Terms(c, ins, f, fixed), Pow2(|ins|)) == Expect(c, ins, f, fixed)
  {
    if ins == [] {
      assert fixed + World(ins, 0) == fixed;
      assert Sum(Terms(c, ins, f, fixed), 1) == Term(c, ins, f, fixed, 0);
    } else {
      var x, rest := ins[0], ins[1..];
      assert GatesExist(c, rest);
      assert Pow2(|ins|) == 2 * Pow2(|rest|);
      PairTerms(c, ins, f, fixed);
      SumPairs(c.gates[x].prob, Terms(c, ins, f, fixed), Terms(c, rest, f, fixed + {x}), Terms(c, rest, f, fixed), Pow2(|rest|));
      SumExpect(c, rest, f, fixed + {x});
      SumExpect(c, rest, f, fixed);
    }
  }

  /** The sum `possibleWorlds` accumulates is the sum over the worlds where the gate holds. */
  lemma {:induction false} WorldsSumOver(c: Circuit, g: GateId, n: nat)
    requires ValidGate(c, g) && Determined(c, g)
    ensures GatesExist(c, c.inputs)
    ensures WorldsSum(c, g, n) == Sum(Terms(c, c.inputs, HoldsEvent(c, g), {}), n)
  {
    if n > 0 {
      WorldsSumOver(c, g, n - 1);
      var v := World(c.inputs, n - 1);
      EvaluateIsFold(c, g, v);
      assert {} + v == v;
      assert Terms(c, c.inputs, HoldsEvent(c, g), {})(n - 1) == Term(c, c.inputs, HoldsEvent(c, g), {}, n - 1);
    }
  }

  /**
    On a gate from which no UNDETERMINED gate is reachable, the probability
    `possibleWorlds` enumerates is the probability that the gate holds when
    the inputs are drawn independently.
  */
  lemma ProbabilityIsExpect(c: Circuit, g: GateId)
    requires ValidGate(c, g) && Determined(c, g)
    ensures GatesExist(c, c.inputs)
    ensures Probability(c, g) == Expect(c, c.inputs, HoldsEvent(c, g), {})
  {
    WorldsSumOver(c, g, Pow2(|c.inputs|));
    SumExpect(c, c.inputs, HoldsEvent(c, g), {});
  }
}
