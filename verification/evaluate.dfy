/**
  Direct evaluation of a gate under a truth assignment given as the set of
  input gates sampled true. This is the semantics every other strategy is
  measured against.
*/
module Evaluation {
  import opened Circuits

  /**
    Evaluates gate `g`: an input is true when sampled, NOT negates its first
    wire, AND and OR scan their wires left to right and stop at the first
    deciding child, and an UNDETERMINED gate fails with BadGate.
  */
  function Evaluate(c: Circuit, g: GateId, sampled: set<GateId>): (r: Result<bool>)
    requires ValidGate(c, g)
    ensures r.Err? ==> r.error == BadGate
    ensures Determined(c, g) ==> r.Ok?
    decreases c.rank[g], 1, 0
  {
    match c.gates[g].kind
    case In => Ok(g in sampled)
    case Not =>
      var e :- Evaluate(c, Child(c, g, 0), sampled);
      Ok(!e)
    case And => EvaluateWires(c, g, 0, false, sampled)
    case Or => EvaluateWires(c, g, 0, true, sampled)
    case Undetermined => Err(BadGate)
  }

  /**
    The loop over the wires of `g` from position `j` on: a child equal to
    `disjunction` decides the gate, and running out of wires yields the
    neutral value `!disjunction`.
  */
  function EvaluateWires(c: Circuit, g: GateId, j: nat, disjunction: bool, sampled: set<GateId>): (r: Result<bool>)
    requires ValidGate(c, g) && j <= |c.gates[g].wires|
    ensures r.Err? ==> r.error == BadGate
    ensures (forall k :: j <= k < |c.gates[g].wires| ==> Determined(c, Child(c, g, k))) ==> r.Ok?
    decreases c.rank[g], 0, |c.gates[g].wires| - j
  {
    if j == |c.gates[g].wires| then Ok(!disjunction)
    else
      var e :- Evaluate(c, Child(c, g, j), sampled);
      if disjunction && e then Ok(true)
      else if !disjunction && !e then Ok(false)
      else EvaluateWires(c, g, j + 1, disjunction, sampled)
  }

  /**
    Reference semantics without short-circuit or failure: AND is the full
    conjunction of its wires, OR the full disjunction, and an UNDETERMINED
    gate is false.
  */
  predicate Holds(c: Circuit, g: GateId, sampled: set<GateId>)
    requires ValidGate(c, g)
    decreases c.rank[g]
  {
    match c.gates[g].kind
    case In => g in sampled
    case Not => !Holds(c, Child(c, g, 0), sampled)
    case And => forall j :: 0 <= j < |c.gates[g].wires| ==> Holds(c, Child(c, g, j), sampled)
    case Or => exists j :: 0 <= j < |c.gates[g].wires| && Holds(c, Child(c, g, j), sampled)
    case Undetermined => false
  }

  /** Child `k` is the first, from position `j` on, that does not yield the neutral value, and it yields the deciding one. */
  predicate DecidedAt(c: Circuit, g: GateId, j: nat, k: nat, disjunction: bool, sampled: set<GateId>)
    requires ValidGate(c, g)
  {
    && j <= k < |c.gates[g].wires|
    && Evaluate(c, Child(c, g, k), sampled) == Ok(disjunction)
    && forall m :: j <= m < k ==> Evaluate(c, Child(c, g, m), sampled) == Ok(!disjunction)
  }

  /** The loop yields the neutral value exactly when every remaining child does. */
  lemma {:induction false} WiresNeutral(c: Circuit, g: GateId, j: nat, disjunction: bool, sampled: set<GateId>)
    requires ValidGate(c, g) && j <= |c.gates[g].wires|
    ensures EvaluateWires(c, g, j, disjunction, sampled) == Ok(!disjunction)
        <==> forall k :: j <= k < |c.gates[g].wires| ==> Evaluate(c, Child(c, g, k), sampled) == Ok(!disjunction)
    decreases |c.gates[g].wires| - j
  {
    if j < |c.gates[g].wires| {
      WiresNeutral(c, g, j + 1, disjunction, sampled);
    }
  }

  /** The loop yields the deciding value exactly when some child does after neutral ones. */
  lemma {:induction false} WiresDecided(c: Circuit, g: GateId, j: nat, disjunction: bool, sampled: set<GateId>)
    requires ValidGate(c, g) && j <= |c.gates[g].wires|
    ensures EvaluateWires(c, g, j, disjunction, sampled) == Ok(disjunction)
        <==> exists k: nat :: DecidedAt(c, g, j, k, disjunction, sampled)
    decreases |c.gates[g].wires| - j
  {
    if j < |c.gates[g].wires| {
      WiresDecided(c, g, j + 1, disjunction, sampled);
      var e := Evaluate(c, Child(c, g, j), sampled);
      if e == Ok(disjunction) {
        assert DecidedAt(c, g, j, j, disjunction, sampled);
      } else if e == Ok(!disjunction) {
        assert EvaluateWires(c, g, j, disjunction, sampled) == EvaluateWires(c, g, j + 1, disjunction, sampled);
        if EvaluateWires(c, g, j + 1, disjunction, sampled) == Ok(disjunction) {
          var k :| DecidedAt(c, g, j + 1, k, disjunction, sampled);
          assert DecidedAt(c, g, j, k, disjunction, sampled);
        }
        if exists k: nat :: DecidedAt(c, g, j, k, disjunction, sampled) {
          var k :| DecidedAt(c, g, j, k, disjunction, sampled);
          assert DecidedAt(c, g, j + 1, k, disjunction, sampled);
        }
      } else {
        assert forall k: nat :: DecidedAt(c, g, j, k, disjunction, sampled) ==> k > j;
      }
    }
  }

  /**
    Gate-level semantics of `Evaluate`: membership for inputs, negation of
    the single child for NOT, failure for UNDETERMINED; AND is true iff all
    children are true (so true with no children) and false iff the first
    child that is not true is false; OR is the dual (false with no children).
  */
  lemma EvaluateSemantics(c: Circuit, g: GateId, sampled: set<GateId>)
    requires ValidGate(c, g)
    ensures c.gates[g].kind == In ==> Evaluate(c, g, sampled) == Ok(g in sampled)
    ensures c.gates[g].kind == Undetermined ==> Evaluate(c, g, sampled) == Err(BadGate)
    ensures c.gates[g].kind == Not ==>
      && (Evaluate(c, g, sampled).Ok? <==> Evaluate(c, Child(c, g, 0), sampled).Ok?)
      && (Evaluate(c, g, sampled).Ok? ==> Evaluate(c, g, sampled).value == !Evaluate(c, Child(c, g, 0), sampled).value)
    ensures c.gates[g].kind == And ==>
      && (Evaluate(c, g, sampled) == Ok(true)
          <==> forall k :: 0 <= k < |c.gates[g].wires| ==> Evaluate(c, Child(c, g, k), sampled) == Ok(true))
      && (Evaluate(c, g, sampled) == Ok(false) <==> exists k: nat :: DecidedAt(c, g, 0, k, false, sampled))
    ensures c.gates[g].kind == Or ==>
      && (Evaluate(c, g, sampled) == Ok(false)
          <==> forall k :: 0 <= k < |c.gates[g].wires| ==> Evaluate(c, Child(c, g, k), sampled) == Ok(false))
      && (Evaluate(c, g, sampled) == Ok(true) <==> exists k: nat :: DecidedAt(c, g, 0, k, true, sampled))
  {
    if c.gates[g].kind == And {
      WiresNeutral(c, g, 0, false, sampled);
      WiresDecided(c, g, 0, false, sampled);
    } else if c.gates[g].kind == Or {
      WiresNeutral(c, g, 0, true, sampled);
      WiresDecided(c, g, 0, true, sampled);
    }
  }

  /** On determined children the AND loop computes the full conjunction. */
  lemma {:induction false} WiresFoldAnd(c: Circuit, g: GateId, j: nat, sampled: set<GateId>)
    requires ValidGate(c, g) && j <= |c.gates[g].wires|
    requires forall k :: j <= k < |c.gates[g].wires| ==>
      Evaluate(c, Child(c, g, k), sampled) == Ok(Holds(c, Child(c, g, k), sampled))
    ensures EvaluateWires(c, g, j, false, sampled)
      == Ok(forall k :: j <= k < |c.gates[g].wires| ==> Holds(c, Child(c, g, k), sampled))
    decreases |c.gates[g].wires| - j
  {
    if j < |c.gates[g].wires| {
      WiresFoldAnd(c, g, j + 1, sampled);
      if Holds(c, Child(c, g, j), sampled) {
        assert EvaluateWires(c, g, j, false, sampled) == EvaluateWires(c, g, j + 1, false, sampled);
      } else {
        assert EvaluateWires(c, g, j, false, sampled) == Ok(false);
      }
    }
  }

  /** On determined children the OR loop computes the full disjunction. */
  lemma {:induction false} WiresFoldOr(c: Circuit, g: GateId, j: nat, sampled: set<GateId>)
    requires ValidGate(c, g) && j <= |c.gates[g].wires|
    requires forall k :: j <= k < |c.gates[g].wires| ==>
      Evaluate(c, Child(c, g, k), sampled) == Ok(Holds(c, Child(c, g, k), sampled))
    ensures EvaluateWires(c, g, j, true, sampled)
      == Ok(exists k :: j <= k < |c.gates[g].wires| && Holds(c, Child(c, g, k), sampled))
    decreases |c.gates[g].wires| - j
  {
    if j < |c.gates[g].wires| {
      WiresFoldOr(c, g, j + 1, sampled);
      if Holds(c, Child(c, g, j), sampled) {
        assert EvaluateWires(c, g, j, true, sampled) == Ok(true);
      } else {
        assert EvaluateWires(c, g, j, true, sampled) == EvaluateWires(c, g, j + 1, true, sampled);
      }
    }
  }

  /**
    The short-circuit evaluator agrees with the full-fold reference
    semantics on every gate from which no UNDETERMINED gate is reachable.
  */
  lemma {:induction false} EvaluateIsFold(c: Circuit, g: GateId, sampled: set<GateId>)
    requires ValidGate(c, g) && Determined(c, g)
    ensures Evaluate(c, g, sampled) == Ok(Holds(c, g, sampled))
    decreases c.rank[g]
  {
    match c.gates[g].kind
    case In =>
    case Not =>
      EvaluateIsFold(c, Child(c, g, 0), sampled);
    case And =>
      forall k | 0 <= k < |c.gates[g].wires|
        ensures Evaluate(c, Child(c, g, k), sampled) == Ok(Holds(c, Child(c, g, k), sampled))
      {
        EvaluateIsFold(c, Child(c, g, k), sampled);
      }
      WiresFoldAnd(c, g, 0, sampled);
    case Or =>
      forall k | 0 <= k < |c.gates[g].wires|
        ensures Evaluate(c, Child(c, g, k), sampled) == Ok(Holds(c, Child(c, g, k), sampled))
      {
        EvaluateIsFold(c, Child(c, g, k), sampled);
      }
      WiresFoldOr(c, g, 0, sampled);
  }
}
