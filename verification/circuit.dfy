/**
  The Boolean provenance circuit: a dense arena of gates addressed by id.

  Each gate has a kind, an ordered list of child ids ("wires") and a
  probability (meaningful for input gates only; a fresh gate has
  probability 1). The circuit also records the ids of its input gates in
  the order in which they are enumerated, and a rank per gate that
  witnesses acyclicity: every wire goes to a gate of strictly smaller rank.
  Child ids need not be smaller than their parent's id, since a forward
  reference is allocated before the gate it names is declared.
*/
module Circuits {

  type GateId = nat

  datatype Kind = In | And | Or | Not | Undetermined

  datatype Gate = Gate(kind: Kind, wires: seq<GateId>, prob: real)

  datatype Circuit = Circuit(gates: seq<Gate>, inputs: seq<GateId>, rank: seq<nat>)

  /** The failures the circuit algorithms report instead of a value. */
  datatype Error =
    | BadGate                                         // an UNDETERMINED gate was reached
    | NotIndependent                                  // an input gate was reached twice
    | TooManyInputs                                   // too many inputs to enumerate the worlds
    | UnknownCompiler(name: string)                   // no command line for this compiler
    | WrongVariableCount(found: nat, expected: nat)   // d-DNNF header disagrees with the circuit
    | UnknownNodeType(tag: char)                      // a d-DNNF line is not O, A or L
    | Unreadable                                      // a d-DNNF line or header cannot be read

  datatype Result<+T> = Ok(value: T) | Err(error: Error) {
    predicate IsFailure() {
      Err?
    }

    function PropagateFailure<U>(): Result<U>
      requires Err?
    {
      Err(error)
    }

    function Extract(): T
      requires Ok?
    {
      value
    }
  }

  /** The wires of gate `i` lead to existing gates of smaller rank. */
  predicate WiresBelow(c: Circuit, i: nat)
    requires i < |c.gates| == |c.rank|
  {
    forall j :: 0 <= j < |c.gates[i].wires| ==>
      c.gates[i].wires[j] < |c.gates| && c.rank[c.gates[i].wires[j]] < c.rank[i]
  }

  /** The gates a sequence of ids mentions. */
  function Elems(s: seq<GateId>): set<GateId> {
    set x | x in s
  }

  /** No id occurs twice in `s`. */
  predicate Distinct(s: seq<GateId>) {
    forall j, k :: 0 <= j < k < |s| ==> s[j] != s[k]
  }

  /** Every id of `ins` names a gate of the circuit. */
  predicate GatesExist(c: Circuit, ins: seq<GateId>) {
    forall j :: 0 <= j < |ins| ==> ins[j] < |c.gates|
  }

  /** The input list names every IN gate exactly once and nothing else. */
  predicate InputsListed(c: Circuit) {
    && (forall j :: 0 <= j < |c.inputs| ==> c.inputs[j] < |c.gates| && c.gates[c.inputs[j]].kind == In)
    && Distinct(c.inputs)
    && (forall i :: 0 <= i < |c.gates| && c.gates[i].kind == In ==> i in c.inputs)
  }

  /**
    The circuit invariant: wires are acyclic (ranked) and valid, every NOT
    gate has a wire to negate, and the input list is exact.
  */
  predicate WellFormed(c: Circuit) {
    && |c.rank| == |c.gates|
    && (forall i :: 0 <= i < |c.gates| ==> WiresBelow(c, i))
    && (forall i :: 0 <= i < |c.gates| && c.gates[i].kind == Not ==> |c.gates[i].wires| >= 1)
    && InputsListed(c)
  }

  predicate ValidGate(c: Circuit, g: GateId) {
    WellFormed(c) && g < |c.gates|
  }

  /** Every input gate carries a probability in [0,1]. */
  predicate ProbsInRange(c: Circuit) {
    forall i :: 0 <= i < |c.gates| && c.gates[i].kind == In ==> 0.0 <= c.gates[i].prob <= 1.0
  }

  /** A product of two probabilities is a probability. */
  lemma UnitProduct(a: real, b: real)
    requires 0.0 <= a <= 1.0 && 0.0 <= b <= 1.0
    ensures 0.0 <= a * b <= 1.0
  {
    assert 0.0 <= a * b;
    assert a * b <= a * 1.0 by {
      assert a * (1.0 - b) >= 0.0;
    }
  }

  /** `l` is a DIMACS literal over the variables 1..n: nonzero, of absolute value at most n. */
  predicate IsLiteral(l: int, n: nat) {
    l != 0 && l <= n && -l <= n
  }

  /** The child of gate `g` along wire `j`, which has smaller rank. */
  function Child(c: Circuit, g: GateId, j: nat): (s: GateId)
    requires ValidGate(c, g) && j < |c.gates[g].wires|
    ensures s < |c.gates| && c.rank[s] < c.rank[g]
  {
    assert WiresBelow(c, g);
    c.gates[g].wires[j]
  }

  /**
    No UNDETERMINED gate is reachable from `g` along the wires an evaluator
    follows (a NOT gate is only followed along its first wire).
  */
  predicate Determined(c: Circuit, g: GateId)
    requires ValidGate(c, g)
    decreases c.rank[g]
  {
    match c.gates[g].kind
    case In => true
    case Undetermined => false
    case Not => Determined(c, Child(c, g, 0))
    case And => forall j :: 0 <= j < |c.gates[g].wires| ==> Determined(c, Child(c, g, j))
    case Or => forall j :: 0 <= j < |c.gates[g].wires| ==> Determined(c, Child(c, g, j))
  }

  /** No gate of the circuit is UNDETERMINED. */
  predicate FullyDetermined(c: Circuit) {
    forall i :: 0 <= i < |c.gates| ==> c.gates[i].kind != Undetermined
  }

  lemma {:induction false} FullyDeterminedGate(c: Circuit, g: GateId)
    requires ValidGate(c, g) && FullyDetermined(c)
    ensures Determined(c, g)
    decreases c.rank[g]
  {
    match c.gates[g].kind
    case In =>
    case Undetermined =>
    case Not =>
      FullyDeterminedGate(c, Child(c, g, 0));
    case And =>
      forall j | 0 <= j < |c.gates[g].wires|
        ensures Determined(c, Child(c, g, j))
      {
        FullyDeterminedGate(c, Child(c, g, j));
      }
    case Or =>
      forall j | 0 <= j < |c.gates[g].wires|
        ensures Determined(c, Child(c, g, j))
      {
        FullyDeterminedGate(c, Child(c, g, j));
      }
  }
}
