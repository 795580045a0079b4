/**
  The textual rendering of a gate: inputs print as a constant or as their
  id with a probability, other gates as their children joined by the
  gate's operator symbol and wrapped in parentheses.
*/
module Rendering {
  import opened Circuits
  import Evaluation
  import Text

  /** The symbol of a non-input gate kind. */
  function Symbol(k: Kind): string {
    match k
    case Not => "¬"
    case Undetermined => "?"
    case And => "∧"
    case Or => "∨"
    case In => ""
  }

  /**
    The rendering of gate `g`. An input of probability 0 or 1 prints as
    ⊥ or ⊤; any other input prints its id followed by its probability,
    formatted by `showProb`, in brackets. AND and OR without wires print
    as ⊤ and ⊥, any other wireless gate as its symbol.
  */
  function Render(c: Circuit, g: GateId, showProb: real -> string): (s: string)
    requires ValidGate(c, g)
    ensures |s| > 0
    decreases c.rank[g], 1, 0
  {
    var gate := c.gates[g];
    if gate.kind == In then
      if gate.prob == 0.0 then "⊥"
      else if gate.prob == 1.0 then "⊤"
      else Text.ShowNat(g) + "[" + showProb(gate.prob) + "]"
    else if |gate.wires| == 0 then
      if gate.kind == And then "⊤"
      else if gate.kind == Or then "⊥"
      else Symbol(gate.kind)
    else "(" + RenderWires(c, g, 0, "", showProb) + ")"
  }

  /**
    The loop over the wires of `g` from position `j` on, with the text
    built so far in `acc`: a NOT gate restarts the text with its symbol at
    every wire, any other gate puts the symbol between the children.
  */
  function RenderWires(c: Circuit, g: GateId, j: nat, acc: string, showProb: real -> string): (s: string)
    requires ValidGate(c, g) && c.gates[g].kind != In && j <= |c.gates[g].wires|
    decreases c.rank[g], 0, |c.gates[g].wires| - j
  {
    if j == |c.gates[g].wires| then acc
    else
      var op := Symbol(c.gates[g].kind);
      var prefix := if c.gates[g].kind == Not then op
                    else if acc != [] then acc + " " + op + " "
                    else acc;
      RenderWires(c, g, j + 1, prefix + Render(c, Child(c, g, j), showProb), showProb)
  }

  /** The renderings of the first `n` children of `g`, in wire order. */
  function Rendered(c: Circuit, g: GateId, n: nat, showProb: real -> string): (parts: seq<string>)
    requires ValidGate(c, g) && n <= |c.gates[g].wires|
    ensures |parts| == n
  {
    if n == 0 then [] else Rendered(c, g, n - 1, showProb) + [Render(c, Child(c, g, n - 1), showProb)]
  }

  /** The parts separated by `sep`. */
  function Join(parts: seq<string>, sep: string): (s: string)
    ensures |parts| > 0 ==> |s| >= |parts[|parts| - 1]|
  {
    if |parts| == 0 then ""
    else if |parts| == 1 then parts[0]
    else Join(parts[..|parts| - 1], sep) + sep + parts[|parts| - 1]
  }

  /** From a non-empty prefix on, the loop extends the join of the children seen so far. */
  lemma {:induction false} RenderWiresJoin(c: Circuit, g: GateId, j: nat, showProb: real -> string)
    requires ValidGate(c, g) && c.gates[g].kind in {And, Or, Undetermined}
    requires 0 < j <= |c.gates[g].wires|
    ensures var sep := " " + Symbol(c.gates[g].kind) + " ";
      RenderWires(c, g, j, Join(Rendered(c, g, j, showProb), sep), showProb)
        == Join(Rendered(c, g, |c.gates[g].wires|, showProb), sep)
    decreases |c.gates[g].wires| - j
  {
    var sep := " " + Symbol(c.gates[g].kind) + " ";
    if j < |c.gates[g].wires| {
      var acc := Join(Rendered(c, g, j, showProb), sep);
      var next := Rendered(c, g, j + 1, showProb);
      assert next[..j] == Rendered(c, g, j, showProb);
      assert |acc| > 0;
      assert acc + " " + Symbol(c.gates[g].kind) + " " == acc + sep;
      assert Join(next, sep) == acc + sep + Render(c, Child(c, g, j), showProb);
      RenderWiresJoin(c, g, j + 1, showProb);
    }
  }

  /**
    An AND, OR or UNDETERMINED gate with wires prints as the renderings of
    all its children, in order, separated by its symbol between blanks and
    wrapped in parentheses.
  */
  lemma RenderJoin(c: Circuit, g: GateId, showProb: real -> string)
    requires ValidGate(c, g) && c.gates[g].kind in {And, Or, Undetermined} && |c.gates[g].wires| > 0
    ensures Render(c, g, showProb)
      == "(" + Join(Rendered(c, g, |c.gates[g].wires|, showProb), " " + Symbol(c.gates[g].kind) + " ") + ")"
  {
    var first := Render(c, Child(c, g, 0), showProb);
    assert Rendered(c, g, 1, showProb) == [first];
    assert RenderWires(c, g, 0, "", showProb) == RenderWires(c, g, 1, "" + first, showProb);
    assert "" + first == first;
    RenderWiresJoin(c, g, 1, showProb);
  }

  /** For a NOT gate the loop keeps only the symbol and the last child. */
  lemma {:induction false} RenderWiresLast(c: Circuit, g: GateId, j: nat, acc: string, showProb: real -> string)
    requires ValidGate(c, g) && c.gates[g].kind == Not && j < |c.gates[g].wires|
    ensures RenderWires(c, g, j, acc, showProb)
      == "¬" + Render(c, Child(c, g, |c.gates[g].wires| - 1), showProb)
    decreases |c.gates[g].wires| - j
  {
    if j + 1 < |c.gates[g].wires| {
      RenderWiresLast(c, g, j + 1, "¬" + Render(c, Child(c, g, j), showProb), showProb);
    }
  }

  /**
    A NOT gate with wires prints as its symbol followed by the rendering of
    its LAST child, in parentheses, although it is evaluated on its first.
  */
  lemma RenderNot(c: Circuit, g: GateId, showProb: real -> string)
    requires ValidGate(c, g) && c.gates[g].kind == Not
    ensures Render(c, g, showProb) == "(¬" + Render(c, Child(c, g, |c.gates[g].wires| - 1), showProb) + ")"
  {
    RenderWiresLast(c, g, 0, "", showProb);
  }

  /**
    An input with a probability strictly between the constants prints as
    its id, which reads back, followed by the bracketed probability.
  */
  lemma RenderInput(c: Circuit, g: GateId, showProb: real -> string)
    requires ValidGate(c, g) && c.gates[g].kind == In && c.gates[g].prob != 0.0 && c.gates[g].prob != 1.0
    ensures Text.ReadNat(Render(c, g, showProb)) == Text.Some((g, "[" + showProb(c.gates[g].prob) + "]"))
  {
    var rest := "[" + showProb(c.gates[g].prob) + "]";
    assert Render(c, g, showProb) == Text.ShowNat(g) + rest;
    Text.ReadNatShow(g, rest);
  }

  /**
    A wireless gate other than an input prints as ⊤, ⊥ or ? exactly as it
    evaluates to true, to false or fails: a wireless AND or OR is a
    constant, and an UNDETERMINED gate cannot be evaluated.
  */
  lemma RenderEmptyConstant(c: Circuit, g: GateId, showProb: real -> string, sampled: set<GateId>)
    requires ValidGate(c, g) && c.gates[g].kind in {And, Or, Undetermined} && |c.gates[g].wires| == 0
    ensures Render(c, g, showProb) == "⊤" <==> Evaluation.Evaluate(c, g, sampled) == Ok(true)
    ensures Render(c, g, showProb) == "⊥" <==> Evaluation.Evaluate(c, g, sampled) == Ok(false)
    ensures Render(c, g, showProb) == "?" <==> Evaluation.Evaluate(c, g, sampled).Err?
  {
  }

  /**
    An input prints as ⊥ exactly when its probability is 0 and as ⊤ exactly
    when it is 1, the inputs that are false and true in every world; any
    other input prints starting with its id.
  */
  lemma RenderConstantInput(c: Circuit, g: GateId, showProb: real -> string)
    requires ValidGate(c, g) && c.gates[g].kind == In
    ensures Render(c, g, showProb) == "⊥" <==> c.gates[g].prob == 0.0
    ensures Render(c, g, showProb) == "⊤" <==> c.gates[g].prob == 1.0
  {
    var p := c.gates[g].prob;
    if p != 0.0 && p != 1.0 {
      var s := Render(c, g, showProb);
      var digits := Text.ShowNat(g);
      assert s == digits + ("[" + showProb(p) + "]");
      assert s[0] == digits[0] && Text.IsDigit(s[0]);
      assert "⊥"[0] == '⊥' && "⊤"[0] == '⊤';
    }
  }
}
