/**
  Closed-form probability of a gate whose inputs are each used once.

  The traversal threads one set of the input gates already visited through
  the whole top-level call; meeting an input a second time means the
  circuit is not independent and the closed form would be wrong, so the
  evaluation fails instead.
*/
module Independent {
  import opened Circuits
  import opened Evaluation
  import opened PossibleWorlds
  import opened Expectation

  /** The probability computed for a gate and the inputs visited so far. */
  datatype Visit = Visit(p: real, seen: set<GateId>)

  /**
    AND multiplies its children, OR is one minus the product of the
    children's complements, NOT is the complement of its first wire, an
    input yields its probability unless already seen, and UNDETERMINED
    fails with BadGate.
  */
  function IndependentVisit(c: Circuit, g: GateId, seen: set<GateId>): (r: Result<Visit>)
    requires ValidGate(c, g)
    ensures r.Ok? ==> seen <= r.value.seen
    ensures r.Ok? && ProbsInRange(c) ==> 0.0 <= r.value.p <= 1.0
    ensures r.Err? ==> r.error == NotIndependent || r.error == BadGate
    decreases c.rank[g], 1, 0
  {
    match c.gates[g].kind
    case And => IndependentWires(c, g, 0, false, seen)
    case Or =>
      var v :- IndependentWires(c, g, 0, true, seen);
      Ok(Visit(1.0 - v.p, v.seen))
    case Not =>
      var v :- IndependentVisit(c, Child(c, g, 0), seen);
      Ok(Visit(1.0 - v.p, v.seen))
    case In =>
      if g in seen then Err(NotIndependent) else Ok(Visit(c.gates[g].prob, seen + {g}))
    case Undetermined => Err(BadGate)
  }

  /**
    The product, over the wires of `g` from position `j` on, of each
    child's probability (or of its complement when `complement` holds),
    visiting the children left to right.
  */
  function IndependentWires(c: Circuit, g: GateId, j: nat, complement: bool, seen: set<GateId>): (r: Result<Visit>)
    requires ValidGate(c, g) && j <= |c.gates[g].wires|
    ensures r.Ok? ==> seen <= r.value.seen
    ensures r.Ok? && ProbsInRange(c) ==> 0.0 <= r.value.p <= 1.0
    ensures r.Err? ==> r.error == NotIndependent || r.error == BadGate
    decreases c.rank[g], 0, |c.gates[g].wires| - j
  {
    if j == |c.gates[g].wires| then Ok(Visit(1.0, seen))
    else
      var v :- IndependentVisit(c, Child(c, g, j), seen);
      var rest :- IndependentWires(c, g, j + 1, complement, v.seen);
      var f := if complement then 1.0 - v.p else v.p;
      assert ProbsInRange(c) ==> 0.0 <= f * rest.p <= 1.0 by {
        if ProbsInRange(c) {
          UnitProduct(f, rest.p);
        }
      }
      Ok(Visit(f * rest.p, rest.seen))
  }

  /** The top-level call: a fresh set of seen inputs. */
  function IndependentEvaluation(c: Circuit, g: GateId): (r: Result<real>)
    requires ValidGate(c, g)
    ensures r.Ok? && ProbsInRange(c) ==> 0.0 <= r.value <= 1.0
    ensures r.Err? ==> r.error == NotIndependent || r.error == BadGate
  {
    var v :- IndependentVisit(c, g, {});
    Ok(v.p)
  }

  /** The input gates met by the traversal from `g`, in visiting order, with repetitions. */
  function Leaves(c: Circuit, g: GateId): seq<GateId>
    requires ValidGate(c, g)
    decreases c.rank[g], 1, 0
  {
    match c.gates[g].kind
    case In => [g]
    case Not => Leaves(c, Child(c, g, 0))
    case And => LeavesWires(c, g, 0)
    case Or => LeavesWires(c, g, 0)
    case Undetermined => []
  }

  function LeavesWires(c: Circuit, g: GateId, j: nat): seq<GateId>
    requires ValidGate(c, g) && j <= |c.gates[g].wires|
    decreases c.rank[g], 0, |c.gates[g].wires| - j
  {
    if j == |c.gates[g].wires| then [] else Leaves(c, Child(c, g, j)) + LeavesWires(c, g, j + 1)
  }

  /** The closed form itself, with no bookkeeping of visited inputs. */
  function ClosedForm(c: Circuit, g: GateId): real
    requires ValidGate(c, g)
    decreases c.rank[g], 1, 0
  {
    match c.gates[g].kind
    case In => c.gates[g].prob
    case Not => 1.0 - ClosedForm(c, Child(c, g, 0))
    case And => ClosedFormWires(c, g, 0, false)
    case Or => 1.0 - ClosedFormWires(c, g, 0, true)
    case Undetermined => 0.0
  }

  function ClosedFormWires(c: Circuit, g: GateId, j: nat, complement: bool): real
    requires ValidGate(c, g) && j <= |c.gates[g].wires|
    decreases c.rank[g], 0, |c.gates[g].wires| - j
  {
    if j == |c.gates[g].wires| then 1.0
    else
      var p := ClosedForm(c, Child(c, g, j));
      (if complement then 1.0 - p else p) * ClosedFormWires(c, g, j + 1, complement)
  }

  /** No gate of `s` occurs twice in `s` or already occurs in `seen`. */
  predicate FreshLeaves(s: seq<GateId>, seen: set<GateId>) {
    && Distinct(s)
    && (forall i :: 0 <= i < |s| ==> s[i] !in seen)
  }

  lemma FreshConcat(a: seq<GateId>, b: seq<GateId>, seen: set<GateId>)
    ensures FreshLeaves(a + b, seen) <==> FreshLeaves(a, seen) && FreshLeaves(b, seen + Elems(a))
  {
    if FreshLeaves(a, seen) && FreshLeaves(b, seen + Elems(a)) {
      forall i, j | 0 <= i < j < |a + b|
        ensures (a + b)[i] != (a + b)[j]
      {
        if i < |a| && j >= |a| {
          assert (a + b)[i] in Elems(a);
        }
      }
    }
    if FreshLeaves(a + b, seen) {
      assert forall i :: 0 <= i < |a| ==> a[i] == (a + b)[i];
      assert forall i :: 0 <= i < |b| ==> b[i] == (a + b)[|a| + i];
    }
  }

  /**
    `r` is the outcome of a traversal that met the inputs `leaves`, in order,
    starting from the seen set `seen`: it succeeds exactly when every one of
    them is met once and was not seen before, it then returns `p` and adds
    exactly those inputs to the seen set, and otherwise it fails with
    NotIndependent.
  */
  predicate Characterizes(r: Result<Visit>, leaves: seq<GateId>, seen: set<GateId>, p: real) {
    && (r.Ok? <==> FreshLeaves(leaves, seen))
    && (r.Ok? ==> r.value == Visit(p, seen + Elems(leaves)))
    && (r.Err? ==> r.error == NotIndependent)
  }

  /**
    On a gate from which no UNDETERMINED gate is reachable, the traversal
    is characterised by the inputs it meets and the closed form.
  */
  lemma {:induction false} VisitCharacterized(c: Circuit, g: GateId, seen: set<GateId>)
    requires ValidGate(c, g) && Determined(c, g)
    ensures Characterizes(IndependentVisit(c, g, seen), Leaves(c, g), seen, ClosedForm(c, g))
    decreases c.rank[g], 1, 0
  {
    match c.gates[g].kind
    case In =>
      assert Leaves(c, g) == [g];
      assert FreshLeaves([g], seen) <==> g !in seen by {
        assert [g][0] == g;
      }
      assert Elems([g]) == {g};
    case Not =>
      VisitCharacterized(c, Child(c, g, 0), seen);
    case And =>
      WiresCharacterized(c, g, 0, false, seen);
    case Or =>
      WiresCharacterized(c, g, 0, true, seen);
  }

  /** One step of the wire loop, given the child's result `v` and, after it, the rest of the loop's `rest`. */
  lemma WiresStep(c: Circuit, g: GateId, j: nat, complement: bool, seen: set<GateId>, v: Result<Visit>, rest: Result<Visit>)
    requires ValidGate(c, g) && j < |c.gates[g].wires|
    requires v == IndependentVisit(c, Child(c, g, j), seen)
    requires v.Ok? ==> rest == IndependentWires(c, g, j + 1, complement, v.value.seen)
    ensures v.Err? ==> IndependentWires(c, g, j, complement, seen) == Err(v.error)
    ensures v.Ok? && rest.Err? ==> IndependentWires(c, g, j, complement, seen) == Err(rest.error)
    ensures v.Ok? && rest.Ok? ==>
      && IndependentWires(c, g, j, complement, seen).Ok?
      && IndependentWires(c, g, j, complement, seen).value.seen == rest.value.seen
      && IndependentWires(c, g, j, complement, seen).value.p
         == (if complement then 1.0 - v.value.p else v.value.p) * rest.value.p
  {
  }

  /**
    The bookkeeping of one loop step, apart from the circuit: if the child
    succeeds exactly on fresh leaves `here` and the rest of the loop exactly
    on fresh leaves `later`, the step succeeds exactly on fresh `here + later`.
  */
  lemma StepCharacterized(here: seq<GateId>, later: seq<GateId>, seen: set<GateId>, complement: bool,
                          v: Result<Visit>, rest: Result<Visit>, w: Result<Visit>, ph: real, pl: real)
    requires Characterizes(v, here, seen, ph)
    requires v.Err? ==> w == Err(v.error)
    requires v.Ok? ==> Characterizes(rest, later, v.value.seen, pl)
    requires v.Ok? && rest.Err? ==> w == Err(rest.error)
    requires v.Ok? && rest.Ok? ==>
      && w.Ok? && w.value.seen == rest.value.seen
      && w.value.p == (if complement then 1.0 - v.value.p else v.value.p) * rest.value.p
    ensures Characterizes(w, here + later, seen, (if complement then 1.0 - ph else ph) * pl)
  {
    FreshConcat(here, later, seen);
    assert Elems(here + later) == Elems(here) + Elems(later);
  }

  /** The leaves and the closed form of the wire loop, one wire unfolded. */
  lemma WiresUnfold(c: Circuit, g: GateId, j: nat, complement: bool)
    requires ValidGate(c, g) && j < |c.gates[g].wires|
    ensures LeavesWires(c, g, j) == Leaves(c, Child(c, g, j)) + LeavesWires(c, g, j + 1)
    ensures var ph := ClosedForm(c, Child(c, g, j));
      ClosedFormWires(c, g, j, complement) == (if complement then 1.0 - ph else ph) * ClosedFormWires(c, g, j + 1, complement)
  {
  }

  /** One step of the wire loop is characterised when the child and the rest of the loop are. */
  lemma WiresLink(c: Circuit, g: GateId, j: nat, complement: bool, seen: set<GateId>,
                  v: Result<Visit>, rest: Result<Visit>, here: seq<GateId>, later: seq<GateId>, ph: real, pl: real)
    requires ValidGate(c, g) && j < |c.gates[g].wires|
    requires v == IndependentVisit(c, Child(c, g, j), seen) && here == Leaves(c, Child(c, g, j)) && ph == ClosedForm(c, Child(c, g, j))
    requires later == LeavesWires(c, g, j + 1) && pl == ClosedFormWires(c, g, j + 1, complement)
    requires v.Ok? ==> rest == IndependentWires(c, g, j + 1, complement, v.value.seen)
    requires Characterizes(v, here, seen, ph)
    requires v.Ok? ==> Characterizes(rest, later, v.value.seen, pl)
    ensures Characterizes(IndependentWires(c, g, j, complement, seen), LeavesWires(c, g, j), seen,
                          ClosedFormWires(c, g, j, complement))
  {
    WiresUnfold(c, g, j, complement);
    WiresStep(c, g, j, complement, seen, v, rest);
    StepCharacterized(here, later, seen, complement, v, rest, IndependentWires(c, g, j, complement, seen), ph, pl);
  }

  /**
    The loop over the wires of an AND or OR gate from position `j` on is
    characterised by the inputs its children meet, with the seen set shared
    from one child to the next.
  */
  lemma {:induction false} WiresCharacterized(c: Circuit, g: GateId, j: nat, complement: bool, seen: set<GateId>)
    requires ValidGate(c, g) && j <= |c.gates[g].wires|
    requires forall k :: j <= k < |c.gates[g].wires| ==> Determined(c, Child(c, g, k))
    ensures Characterizes(IndependentWires(c, g, j, complement, seen), LeavesWires(c, g, j), seen,
                          ClosedFormWires(c, g, j, complement))
    decreases c.rank[g], 0, |c.gates[g].wires| - j
  {
    if j < |c.gates[g].wires| {
      var s := Child(c, g, j);
      VisitCharacterized(c, s, seen);
      var v := IndependentVisit(c, s, seen);
      var rest := if v.Ok? then IndependentWires(c, g, j + 1, complement, v.value.seen) else v;
      if v.Ok? {
        WiresCharacterized(c, g, j + 1, complement, v.value.seen);
      }
      WiresLink(c, g, j, complement, seen, v, rest, Leaves(c, s), LeavesWires(c, g, j + 1),
                ClosedForm(c, s), ClosedFormWires(c, g, j + 1, complement));
    } else {
      assert LeavesWires(c, g, j) == [];
      assert Elems([]) == {};
    }
  }

  /**
    The top-level evaluation of a determined gate fails exactly when some
    input is met twice, and otherwise returns the closed form.
  */
  lemma IndependentEvaluationCharacterized(c: Circuit, g: GateId)
    requires ValidGate(c, g) && Determined(c, g)
    ensures IndependentEvaluation(c, g).Ok? <==> Distinct(Leaves(c, g))
    ensures IndependentEvaluation(c, g).Ok? ==> IndependentEvaluation(c, g).value == ClosedForm(c, g)
    ensures IndependentEvaluation(c, g).Err? ==> IndependentEvaluation(c, g).error == NotIndependent
  {
    VisitCharacterized(c, g, {});
  }

  /** A successful traversal never meets an UNDETERMINED gate. */
  lemma {:induction false} VisitDetermined(c: Circuit, g: GateId, seen: set<GateId>)
    requires ValidGate(c, g) && IndependentVisit(c, g, seen).Ok?
    ensures Determined(c, g)
    decreases c.rank[g], 1, 0
  {
    match c.gates[g].kind
    case In =>
    case Not =>
      VisitDetermined(c, Child(c, g, 0), seen);
    case And =>
      WiresDetermined(c, g, 0, false, seen);
    case Or =>
      WiresDetermined(c, g, 0, true, seen);
  }

  lemma {:induction false} WiresDetermined(c: Circuit, g: GateId, j: nat, complement: bool, seen: set<GateId>)
    requires ValidGate(c, g) && j <= |c.gates[g].wires| && IndependentWires(c, g, j, complement, seen).Ok?
    ensures forall k :: j <= k < |c.gates[g].wires| ==> Determined(c, Child(c, g, k))
    decreases c.rank[g], 0, |c.gates[g].wires| - j
  {
    if j < |c.gates[g].wires| {
      var v := IndependentVisit(c, Child(c, g, j), seen);
      VisitDetermined(c, Child(c, g, j), seen);
      WiresDetermined(c, g, j + 1, complement, v.value.seen);
    }
  }

  /** Every wire of `g` from position `j` on holds, or with `complement` every one fails. */
  function WiresEvent(c: Circuit, g: GateId, j: nat, complement: bool): Event
    requires ValidGate(c, g) && j <= |c.gates[g].wires|
  {
    w => forall k :: j <= k < |c.gates[g].wires| ==> Holds(c, Child(c, g, k), w) != complement
  }

  /** Gate `s` holds, or with `complement` it fails. */
  function ChildEvent(c: Circuit, s: GateId, complement: bool): Event
    requires ValidGate(c, s)
  {
    if complement then Negation(HoldsEvent(c, s)) else HoldsEvent(c, s)
  }

  /** Whether a gate holds depends only on the inputs the traversal from it meets. */
  lemma {:induction false} HoldsFrame(c: Circuit, g: GateId, x: GateId, w: set<GateId>)
    requires ValidGate(c, g) && x !in Elems(Leaves(c, g))
    ensures Holds(c, g, w + {x}) == Holds(c, g, w)
    decreases c.rank[g], 1, 0
  {
    match c.gates[g].kind
    case In =>
      assert g in Elems([g]);
    case Not =>
      HoldsFrame(c, Child(c, g, 0), x, w);
    case And =>
      WiresFrame(c, g, 0, x, w);
    case Or =>
      WiresFrame(c, g, 0, x, w);
    case Undetermined =>
  }

  lemma {:induction false} WiresFrame(c: Circuit, g: GateId, j: nat, x: GateId, w: set<GateId>)
    requires ValidGate(c, g) && j <= |c.gates[g].wires| && x !in Elems(LeavesWires(c, g, j))
    ensures forall k :: j <= k < |c.gates[g].wires| ==> Holds(c, Child(c, g, k), w + {x}) == Holds(c, Child(c, g, k), w)
    decreases c.rank[g], 0, |c.gates[g].wires| - j
  {
    if j < |c.gates[g].wires| {
      var s := Child(c, g, j);
      assert Elems(LeavesWires(c, g, j)) == Elems(Leaves(c, s)) + Elems(LeavesWires(c, g, j + 1));
      HoldsFrame(c, s, x, w);
      WiresFrame(c, g, j + 1, x, w);
    }
  }

  lemma ChildIgnores(c: Circuit, s: GateId, complement: bool, x: GateId)
    requires ValidGate(c, s) && x !in Elems(Leaves(c, s))
    ensures Ignores(ChildEvent(c, s, complement), x)
  {
    forall w: set<GateId>
      ensures ChildEvent(c, s, complement)(w + {x}) == ChildEvent(c, s, complement)(w)
    {
      HoldsFrame(c, s, x, w);
    }
  }

  lemma WiresIgnores(c: Circuit, g: GateId, j: nat, complement: bool, x: GateId)
    requires ValidGate(c, g) && j <= |c.gates[g].wires| && x !in Elems(LeavesWires(c, g, j))
    ensures Ignores(WiresEvent(c, g, j, complement), x)
  {
    forall w: set<GateId>
      ensures WiresEvent(c, g, j, complement)(w + {x}) == WiresEvent(c, g, j, complement)(w)
    {
      WiresFrame(c, g, j, x, w);
    }
  }

  /** Two parts of a sequence without repetitions have no element in common. */
  lemma DistinctSplit(a: seq<GateId>, b: seq<GateId>)
    requires Distinct(a + b)
    ensures Distinct(a) && Distinct(b)
    ensures forall x :: x !in Elems(a) || x !in Elems(b)
  {
    FreshConcat(a, b, {});
    forall x | x in Elems(b)
      ensures x !in Elems(a)
    {
      var i :| 0 <= i < |b| && b[i] == x;
    }
  }

  /**
    When the traversal from `g` meets every input at most once, the closed
    form is the probability that `g` holds with the inputs drawn
    independently.
  */
  lemma {:induction false} ExpectClosedForm(c: Circuit, g: GateId)
    requires ValidGate(c, g) && Distinct(Leaves(c, g))
    ensures GatesExist(c, c.inputs)
    ensures Expect(c, c.inputs, HoldsEvent(c, g), {}) == ClosedForm(c, g)
    decreases c.rank[g], 1, 0
  {
    var ins := c.inputs;
    assert GatesExist(c, ins);
    match c.gates[g].kind
    case In =>
      ExpectExt(c, ins, HoldsEvent(c, g), Member(g), {});
      ExpectMember(c, ins, g, {});
    case Not =>
      var s := Child(c, g, 0);
      ExpectClosedForm(c, s);
      ExpectExt(c, ins, HoldsEvent(c, g), Negation(HoldsEvent(c, s)), {});
      ExpectNegation(c, ins, HoldsEvent(c, s), {});
    case And =>
      ExpectExt(c, ins, HoldsEvent(c, g), WiresEvent(c, g, 0, false), {});
      WiresExpect(c, g, 0, false);
    case Or =>
      ExpectExt(c, ins, HoldsEvent(c, g), Negation(WiresEvent(c, g, 0, true)), {});
      ExpectNegation(c, ins, WiresEvent(c, g, 0, true), {});
      WiresExpect(c, g, 0, true);
    case Undetermined =>
      ExpectConstant(c, ins, HoldsEvent(c, g), {});
  }

  /** The probability that a child holds, or with `complement` that it fails, is its closed form or the complement. */
  lemma ChildExpect(c: Circuit, s: GateId, complement: bool)
    requires ValidGate(c, s) && Distinct(Leaves(c, s))
    ensures GatesExist(c, c.inputs)
    ensures var p := ClosedForm(c, s);
      Expect(c, c.inputs, ChildEvent(c, s, complement), {}) == if complement then 1.0 - p else p
    decreases c.rank[s], 2, 0
  {
    ExpectClosedForm(c, s);
    if complement {
      ExpectNegation(c, c.inputs, HoldsEvent(c, s), {});
    }
  }

  /** A child and the wires after it meet disjoint inputs, so each input is ignored by one of the two events. */
  lemma WiresSplit(c: Circuit, g: GateId, j: nat, complement: bool)
    requires ValidGate(c, g) && j < |c.gates[g].wires| && Distinct(LeavesWires(c, g, j))
    ensures Distinct(Leaves(c, Child(c, g, j))) && Distinct(LeavesWires(c, g, j + 1))
    ensures forall i :: 0 <= i < |c.inputs| ==>
      Ignores(ChildEvent(c, Child(c, g, j), complement), c.inputs[i]) || Ignores(WiresEvent(c, g, j + 1, complement), c.inputs[i])
  {
    var s := Child(c, g, j);
    var here, later := Leaves(c, s), LeavesWires(c, g, j + 1);
    assert LeavesWires(c, g, j) == here + later;
    DistinctSplit(here, later);
    forall i | 0 <= i < |c.inputs|
      ensures Ignores(ChildEvent(c, s, complement), c.inputs[i]) || Ignores(WiresEvent(c, g, j + 1, complement), c.inputs[i])
    {
      if c.inputs[i] !in Elems(here) {
        ChildIgnores(c, s, complement, c.inputs[i]);
      } else {
        WiresIgnores(c, g, j + 1, complement, c.inputs[i]);
      }
    }
  }

  /** Every remaining wire holds exactly when the next one does and every wire after it does. */
  lemma WiresBoth(c: Circuit, g: GateId, j: nat, complement: bool)
    requires ValidGate(c, g) && j < |c.gates[g].wires|
    ensures forall w: set<GateId> ::
      WiresEvent(c, g, j, complement)(w) == Both(ChildEvent(c, Child(c, g, j), complement), WiresEvent(c, g, j + 1, complement))(w)
  {
  }

  /** Substituting the two factors of a product by their values. */
  lemma ProductStep(e: real, ef: real, eh: real, p: real, q: real, complement: bool)
    requires e == Times(ef, eh)
    requires ef == (if complement then 1.0 - p else p) && eh == q
    ensures e == (if complement then 1.0 - p else p) * q
  {
  }

  /** One wire of the loop: its probability times that of the wires after it, as the events are independent. */
  lemma WiresCombine(c: Circuit, g: GateId, j: nat, complement: bool)
    requires ValidGate(c, g) && j < |c.gates[g].wires| && Distinct(LeavesWires(c, g, j))
    requires GatesExist(c, c.inputs)
    requires var p := ClosedForm(c, Child(c, g, j));
      Expect(c, c.inputs, ChildEvent(c, Child(c, g, j), complement), {}) == if complement then 1.0 - p else p
    requires Expect(c, c.inputs, WiresEvent(c, g, j + 1, complement), {}) == ClosedFormWires(c, g, j + 1, complement)
    ensures Expect(c, c.inputs, WiresEvent(c, g, j, complement), {}) == ClosedFormWires(c, g, j, complement)
  {
    var ins, s := c.inputs, Child(c, g, j);
    var f, h := ChildEvent(c, s, complement), WiresEvent(c, g, j + 1, complement);
    WiresSplit(c, g, j, complement);
    WiresBoth(c, g, j, complement);
    ExpectExt(c, ins, WiresEvent(c, g, j, complement), Both(f, h), {});
    ExpectBoth(c, ins, f, h, {});
    WiresUnfold(c, g, j, complement);
    ProductStep(Expect(c, ins, Both(f, h), {}), Expect(c, ins, f, {}), Expect(c, ins, h, {}),
                ClosedForm(c, s), ClosedFormWires(c, g, j + 1, complement), complement);
  }

  /** The product the wire loop computes is the probability that every remaining wire holds (or fails). */
  lemma {:induction false} WiresExpect(c: Circuit, g: GateId, j: nat, complement: bool)
    requires ValidGate(c, g) && j <= |c.gates[g].wires| && Distinct(LeavesWires(c, g, j))
    ensures GatesExist(c, c.inputs)
    ensures Expect(c, c.inputs, WiresEvent(c, g, j, complement), {}) == ClosedFormWires(c, g, j, complement)
    decreases c.rank[g], 0, |c.gates[g].wires| - j
  {
    assert GatesExist(c, c.inputs);
    if j == |c.gates[g].wires| {
      ExpectConstant(c, c.inputs, WiresEvent(c, g, j, complement), {});
    } else {
      WiresSplit(c, g, j, complement);
      ChildExpect(c, Child(c, g, j), complement);
      WiresExpect(c, g, j + 1, complement);
      WiresCombine(c, g, j, complement);
    }
  }

  /**
    Whenever the independent evaluation succeeds, its value is the
    probability `possibleWorlds` computes by enumerating every world.
  */
  lemma IndependentIsProbability(c: Circuit, g: GateId)
    requires ValidGate(c, g) && IndependentEvaluation(c, g).Ok?
    ensures IndependentEvaluation(c, g).value == Probability(c, g)
  {
    VisitDetermined(c, g, {});
    IndependentEvaluationCharacterized(c, g);
    ExpectClosedForm(c, g);
    ProbabilityIsExpect(c, g);
  }
}
