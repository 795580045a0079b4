/**
  The Tseytin encoding of a circuit into CNF.

  Gate `i` is DIMACS variable `i+1`. Each gate contributes the clauses that
  tie its variable to its children's variables, gates are encoded in id
  order, and a final unit clause asserts the queried gate. The CNF is
  emitted as a header, one line per clause and, when weights are asked
  for, two weight lines per input gate.
*/
module Tseytin {
  import opened Circuits
  import opened Evaluation

  /** The DIMACS variable of gate `i`. */
  function Var(i: GateId): int {
    i + 1
  }

  /**
    The clause loop of an AND (`pol == 1`) or OR (`pol == -1`) gate with
    variable `id`: each wire `s` appends the binary clause
    `[-pol*id, pol*(s+1)]` and extends the long clause with `-pol*(s+1)`;
    the long clause comes last.
  */
  function WireClauses(w: seq<GateId>, id: int, pol: int, binaries: seq<seq<int>>, long: seq<int>): (r: seq<seq<int>>)
    ensures |r| == |binaries| + |w| + 1
    ensures r[..|binaries|] == binaries
    ensures forall j :: 0 <= j < |w| ==> r[|binaries| + j] == [-pol * id, pol * Var(w[j])]
    ensures |r[|r| - 1]| == |long| + |w|
    ensures r[|r| - 1][..|long|] == long
    ensures forall j :: 0 <= j < |w| ==> r[|r| - 1][|long| + j] == -pol * Var(w[j])
    decreases |w|
  {
    if w == [] then binaries + [long]
    else
      var r := WireClauses(w[1..], id, pol, binaries + [[-pol * id, pol * Var(w[0])]], long + [-pol * Var(w[0])]);
      assert forall j :: 0 < j < |w| ==> w[1..][j - 1] == w[j];
      r
  }

  /** The DIMACS variables of the gates `w`, in order. */
  function Vars(w: seq<GateId>): (r: seq<int>)
    ensures |r| == |w|
    ensures forall j :: 0 <= j < |w| ==> r[j] == Var(w[j])
  {
    if w == [] then [] else [Var(w[0])] + Vars(w[1..])
  }

  /**
    The clause group of a gate with literal `x` over the literals `ys`:
    for each `y`, the binary clause `[-pol*x, pol*y]`, then the long clause
    `[pol*x, -pol*y1, ..., -pol*yk]`. `pol == 1` is the AND shape and
    `pol == -1` the OR shape.
  */
  predicate Shape(r: seq<seq<int>>, pol: int, x: int, ys: seq<int>) {
    && |r| == |ys| + 1
    && (forall j :: 0 <= j < |ys| ==> r[j] == [-pol * x, pol * ys[j]])
    && |r[|ys|]| == |ys| + 1
    && r[|ys|][0] == pol * x
    && (forall j :: 0 <= j < |ys| ==> r[|ys|][j + 1] == -pol * ys[j])
  }

  /** The clause group of an AND (`pol == 1`) or OR (`pol == -1`) gate with variable `x` over the wires `w`. */
  function WireGroup(w: seq<GateId>, x: int, pol: int): (r: seq<seq<int>>)
    ensures Shape(r, pol, x, Vars(w))
  {
    var r := WireClauses(w, x, pol, [], [pol * x]);
    assert r[|w|] == r[|r| - 1];
    r
  }

  /**
    The clauses of gate `i`: the AND shape over its wires' variables for an
    AND gate, the OR shape for an OR gate, `[-id, -(s+1)]` and `[id, s+1]`
    for a NOT gate over its first wire `s`, and nothing for inputs and
    UNDETERMINED gates.
  */
  function GateClauses(c: Circuit, i: GateId): (r: seq<seq<int>>)
    requires ValidGate(c, i)
    ensures c.gates[i].kind == In || c.gates[i].kind == Undetermined ==> r == []
    ensures c.gates[i].kind == Not ==> r == [[-Var(i), -Var(Child(c, i, 0))], [Var(i), Var(Child(c, i, 0))]]
    ensures c.gates[i].kind == And ==> Shape(r, 1, Var(i), Vars(c.gates[i].wires))
    ensures c.gates[i].kind == Or ==> Shape(r, -1, Var(i), Vars(c.gates[i].wires))
  {
    var w := c.gates[i].wires;
    match c.gates[i].kind
    case And => WireGroup(w, Var(i), 1)
    case Or => WireGroup(w, Var(i), -1)
    case Not => [[-Var(i), -Var(w[0])], [Var(i), Var(w[0])]]
    case In => []
    case Undetermined => []
  }

  /** The clause groups of all gates, in id order. */
  function GateGroups(c: Circuit): (r: seq<seq<seq<int>>>)
    requires WellFormed(c)
    ensures |r| == |c.gates|
    ensures forall i :: 0 <= i < |c.gates| ==> r[i] == GateClauses(c, i)
  {
    seq(|c.gates|, i requires 0 <= i < |c.gates| && WellFormed(c) => GateClauses(c, i))
  }

  /** The groups appended one after the other. */
  function Concat(groups: seq<seq<seq<int>>>): seq<seq<int>>
  {
    if groups == [] then [] else groups[0] + Concat(groups[1..])
  }

  /** Every literal names one of the `n` variables. */
  predicate LiteralsInRange(cls: seq<seq<int>>, n: nat) {
    forall k, j :: 0 <= k < |cls| && 0 <= j < |cls[k]| ==> IsLiteral(cls[k][j], n)
  }

  /** The full clause list: the gates' clauses followed by the unit clause of `g`. */
  function Clauses(c: Circuit, g: GateId): (r: seq<seq<int>>)
    requires ValidGate(c, g)
    ensures |r| >= 1 && r[|r| - 1] == [Var(g)]
    ensures LiteralsInRange(r, |c.gates|)
  {
    GroupsInRange(c);
    UnitInRange(Concat(GateGroups(c)), g, |c.gates|);
    Concat(GateGroups(c)) + [[Var(g)]]
  }

  lemma GroupsInRange(c: Circuit)
    requires WellFormed(c)
    ensures LiteralsInRange(Concat(GateGroups(c)), |c.gates|)
  {
    var groups := GateGroups(c);
    forall i | 0 <= i < |groups|
      ensures LiteralsInRange(groups[i], |c.gates|)
    {
      GateClausesInRange(c, i);
    }
    ConcatInRange(groups, |c.gates|);
  }

  lemma UnitInRange(body: seq<seq<int>>, g: GateId, n: nat)
    requires LiteralsInRange(body, n) && g < n
    ensures LiteralsInRange(body + [[Var(g)]], n)
  {
    assert forall k :: 0 <= k < |body| ==> (body + [[Var(g)]])[k] == body[k];
  }

  lemma {:induction false} ConcatInRange(groups: seq<seq<seq<int>>>, n: nat)
    requires forall i :: 0 <= i < |groups| ==> LiteralsInRange(groups[i], n)
    ensures LiteralsInRange(Concat(groups), n)
  {
    if groups != [] {
      ConcatInRange(groups[1..], n);
      var x, y := groups[0], Concat(groups[1..]);
      assert forall k :: 0 <= k < |x| ==> (x + y)[k] == x[k];
      assert forall k :: 0 <= k < |y| ==> (x + y)[|x| + k] == y[k];
    }
  }

  lemma ShapeInRange(r: seq<seq<int>>, pol: int, x: int, ys: seq<int>, n: nat)
    requires pol == 1 || pol == -1
    requires 0 < x <= n && forall j :: 0 <= j < |ys| ==> 0 < ys[j] <= n
    requires Shape(r, pol, x, ys)
    ensures LiteralsInRange(r, n)
  {
    forall k, j | 0 <= k < |r| && 0 <= j < |r[k]|
      ensures IsLiteral(r[k][j], n)
    {
      if k == |ys| && j > 0 {
        assert r[k][j] == -pol * ys[j - 1];
      }
    }
  }

  lemma GateClausesInRange(c: Circuit, i: GateId)
    requires ValidGate(c, i)
    ensures LiteralsInRange(GateClauses(c, i), |c.gates|)
  {
    var w := c.gates[i].wires;
    if c.gates[i].kind == And || c.gates[i].kind == Or {
      var ys := Vars(w);
      forall j | 0 <= j < |w|
        ensures 0 < ys[j] <= |c.gates|
      {
        assert Child(c, i, j) < |c.gates|;
      }
      ShapeInRange(GateClauses(c, i), if c.gates[i].kind == And then 1 else -1, Var(i), ys, |c.gates|);
    } else if c.gates[i].kind == Not {
      assert Child(c, i, 0) < |c.gates|;
    }
  }

  datatype CnfLine =
    | Header(variables: nat, clauses: nat)
    | ClauseLine(literals: seq<int>)
    | WeightLine(literal: int, weight: real)

  function ClauseLines(cls: seq<seq<int>>): (r: seq<CnfLine>)
    ensures |r| == |cls|
    ensures forall k :: 0 <= k < |cls| ==> r[k] == ClauseLine(cls[k])
  {
    if cls == [] then [] else [ClauseLine(cls[0])] + ClauseLines(cls[1..])
  }

  /** For each input `in`, in input order: `w in+1 p` and `w -(in+1) 1-p`. */
  function WeightLines(c: Circuit, ins: seq<GateId>): (r: seq<CnfLine>)
    requires GatesExist(c, ins)
    ensures |r| == 2 * |ins|
    ensures forall j :: 0 <= j < |ins| ==>
      && r[2 * j] == WeightLine(Var(ins[j]), c.gates[ins[j]].prob)
      && r[2 * j + 1] == WeightLine(-Var(ins[j]), 1.0 - c.gates[ins[j]].prob)
  {
    if ins == [] then []
    else
      var p := c.gates[ins[0]].prob;
      var r := [WeightLine(Var(ins[0]), p), WeightLine(-Var(ins[0]), 1.0 - p)] + WeightLines(c, ins[1..]);
      assert forall j :: 0 < j < |ins| ==> ins[1..][j - 1] == ins[j];
      r
  }

  /** A header, one line per clause, then the weight lines. */
  function Layout(variables: nat, cls: seq<seq<int>>, weights: seq<CnfLine>): (r: seq<CnfLine>)
    ensures |r| == 1 + |cls| + |weights|
    ensures r[0] == Header(variables, |cls|)
    ensures forall k :: 0 <= k < |cls| ==> r[1 + k] == ClauseLine(cls[k])
    ensures r[1 + |cls|..] == weights
  {
    var body := ClauseLines(cls);
    var r := [Header(variables, |cls|)] + body + weights;
    assert forall k :: 0 <= k < |cls| ==> r[1 + k] == body[k];
    assert r[1 + |cls|..] == weights;
    r
  }

  /**
    The CNF file for gate `g`: the header counts every variable and exactly
    the clauses that follow it, the last clause asserts `g`, and the weight
    lines, when asked for, come last.
  */
  function CnfFile(c: Circuit, g: GateId, weighted: bool): (r: seq<CnfLine>)
    requires ValidGate(c, g)
    ensures var cls := Clauses(c, g);
      && |r| == 1 + |cls| + (if weighted then 2 * |c.inputs| else 0)
      && r[0] == Header(|c.gates|, |cls|)
      && (forall k :: 0 <= k < |cls| ==> r[1 + k] == ClauseLine(cls[k]))
      && r[|cls|] == ClauseLine([Var(g)])
      && (weighted ==> r[1 + |cls|..] == WeightLines(c, c.inputs))
  {
    var cls := Clauses(c, g);
    var r := Layout(|c.gates|, cls, if weighted then WeightLines(c, c.inputs) else []);
    assert r[|cls|] == r[1 + (|cls| - 1)];
    r
  }

  // ---------------------------------------------------------------------
  // Soundness and completeness against the evaluator

  /** Literal `l` is true under assignment `a` (variable `v` is `a[v-1]`). */
  predicate LitTrue(a: seq<bool>, l: int) {
    if l > 0 then l <= |a| && a[l - 1] else l < 0 && -l <= |a| && !a[-l - 1]
  }

  predicate ClauseTrue(a: seq<bool>, cl: seq<int>) {
    exists j :: 0 <= j < |cl| && LitTrue(a, cl[j])
  }

  predicate Satisfies(a: seq<bool>, cls: seq<seq<int>>) {
    forall k :: 0 <= k < |cls| ==> ClauseTrue(a, cls[k])
  }

  /** Every gate variable set to the reference value of its gate in world `sampled`. */
  function Assignment(c: Circuit, sampled: set<GateId>): (a: seq<bool>)
    requires WellFormed(c)
    ensures |a| == |c.gates|
    ensures forall i :: 0 <= i < |c.gates| ==> a[i] == Holds(c, i, sampled)
  {
    seq(|c.gates|, i requires 0 <= i < |c.gates| => Holds(c, i, sampled))
  }

  /** The world read off an assignment: the gates whose variable is true. */
  function Sampled(a: seq<bool>): set<GateId> {
    set i | 0 <= i < |a| && a[i]
  }

  lemma SatisfiesConcat(a: seq<bool>, x: seq<seq<int>>, y: seq<seq<int>>)
    ensures Satisfies(a, x + y) <==> Satisfies(a, x) && Satisfies(a, y)
  {
    assert forall k :: 0 <= k < |x| ==> (x + y)[k] == x[k];
    assert forall k :: 0 <= k < |y| ==> (x + y)[|x| + k] == y[k];
  }

  lemma {:induction false} SatisfiesConcatAll(a: seq<bool>, groups: seq<seq<seq<int>>>)
    ensures Satisfies(a, Concat(groups)) <==> forall k :: 0 <= k < |groups| ==> Satisfies(a, groups[k])
  {
    if groups != [] {
      SatisfiesConcatAll(a, groups[1..]);
      SatisfiesConcat(a, groups[0], Concat(groups[1..]));
      assert forall k :: 1 <= k < |groups| ==> groups[k] == groups[1..][k - 1];
    }
  }

  /** The clauses of all gates are satisfied exactly when each gate's clauses are. */
  lemma SatisfiesGateGroups(c: Circuit, a: seq<bool>)
    requires WellFormed(c)
    ensures Satisfies(a, Concat(GateGroups(c))) <==> forall k :: 0 <= k < |c.gates| ==> Satisfies(a, GateClauses(c, k))
  {
    SatisfiesConcatAll(a, GateGroups(c));
  }

  lemma ClauseOfTwo(a: seq<bool>, x: int, y: int)
    ensures ClauseTrue(a, [x, y]) <==> LitTrue(a, x) || LitTrue(a, y)
  {
    if LitTrue(a, y) {
      assert LitTrue(a, [x, y][1]);
    }
    if LitTrue(a, x) {
      assert LitTrue(a, [x, y][0]);
    }
  }

  /** A literal of the form `pol * l` is `l` itself or its negation. */
  lemma SignedLit(a: seq<bool>, pol: int, l: int)
    requires pol == 1 || pol == -1
    requires IsLiteral(l, |a|)
    ensures LitTrue(a, pol * l) <==> (if pol == 1 then LitTrue(a, l) else !LitTrue(a, l))
  {
    if pol == -1 {
      assert pol * l == -l;
    }
  }

  /**
    The long clause of a shape, `pol*x` followed by the negated `pol*y`s,
    is true exactly when one of its literals is.
  */
  lemma LongClauseIff(a: seq<bool>, long: seq<int>, pol: int, x: int, ys: seq<int>)
    requires pol == 1 || pol == -1
    requires IsLiteral(x, |a|) && forall j :: 0 <= j < |ys| ==> IsLiteral(ys[j], |a|)
    requires |long| == |ys| + 1 && long[0] == pol * x
    requires forall j :: 0 <= j < |ys| ==> long[j + 1] == -pol * ys[j]
    ensures ClauseTrue(a, long) <==>
      (if pol == 1 then LitTrue(a, x) || exists j :: 0 <= j < |ys| && !LitTrue(a, ys[j])
       else !LitTrue(a, x) || exists j :: 0 <= j < |ys| && LitTrue(a, ys[j]))
  {
    SignedLit(a, pol, x);
    if ClauseTrue(a, long) {
      var m :| 0 <= m < |long| && LitTrue(a, long[m]);
      if m > 0 {
        SignedLit(a, -pol, ys[m - 1]);
      }
    }
    if exists j :: 0 <= j < |ys| && (LitTrue(a, ys[j]) <==> pol == -1) {
      var j :| 0 <= j < |ys| && (LitTrue(a, ys[j]) <==> pol == -1);
      SignedLit(a, -pol, ys[j]);
      assert LitTrue(a, long[j + 1]);
    }
    if (pol == 1 && LitTrue(a, x)) || (pol == -1 && !LitTrue(a, x)) {
      assert LitTrue(a, long[0]);
    }
  }

  /**
    A clause group of the AND shape over in-range literals is satisfied
    exactly when `x` is the conjunction of `ys`; one of the OR shape
    exactly when `x` is their disjunction.
  */
  lemma ShapeIff(a: seq<bool>, r: seq<seq<int>>, pol: int, x: int, ys: seq<int>)
    requires pol == 1 || pol == -1
    requires IsLiteral(x, |a|) && forall j :: 0 <= j < |ys| ==> IsLiteral(ys[j], |a|)
    requires Shape(r, pol, x, ys)
    ensures Satisfies(a, r) <==>
      (LitTrue(a, x) <==> if pol == 1 then forall j :: 0 <= j < |ys| ==> LitTrue(a, ys[j])
                          else exists j :: 0 <= j < |ys| && LitTrue(a, ys[j]))
  {
    var k := |ys|;
    forall j | 0 <= j < k
      ensures ClauseTrue(a, r[j]) <==> (if pol == 1 then (LitTrue(a, x) ==> LitTrue(a, ys[j]))
                                        else (LitTrue(a, ys[j]) ==> LitTrue(a, x)))
    {
      ClauseOfTwo(a, -pol * x, pol * ys[j]);
      SignedLit(a, -pol, x);
      SignedLit(a, pol, ys[j]);
    }
    LongClauseIff(a, r[k], pol, x, ys);
    if Satisfies(a, r) {
      assert ClauseTrue(a, r[k]);
    }
  }

  /** `ShapeIff` with the value of each literal named. */
  lemma ShapeIffValues(a: seq<bool>, r: seq<seq<int>>, pol: int, x: int, ys: seq<int>, xv: bool, vs: seq<bool>)
    requires pol == 1 || pol == -1
    requires IsLiteral(x, |a|) && (LitTrue(a, x) <==> xv)
    requires |vs| == |ys| && forall j :: 0 <= j < |ys| ==> IsLiteral(ys[j], |a|) && (LitTrue(a, ys[j]) <==> vs[j])
    requires Shape(r, pol, x, ys)
    ensures Satisfies(a, r) <==>
      (xv <==> if pol == 1 then forall j :: 0 <= j < |vs| ==> vs[j] else exists j :: 0 <= j < |vs| && vs[j])
  {
    ShapeIff(a, r, pol, x, ys);
  }

  /**
    The clauses of an AND gate are satisfied exactly when its variable is
    the conjunction of its children's variables; those of an OR gate
    exactly when it is their disjunction.
  */
  lemma GateShapeIff(c: Circuit, a: seq<bool>, i: GateId)
    requires ValidGate(c, i) && |a| == |c.gates|
    requires c.gates[i].kind == And || c.gates[i].kind == Or
    ensures Satisfies(a, GateClauses(c, i)) <==>
      (a[i] <==> if c.gates[i].kind == And then forall j :: 0 <= j < |c.gates[i].wires| ==> a[Child(c, i, j)]
                 else exists j :: 0 <= j < |c.gates[i].wires| && a[Child(c, i, j)])
  {
    var w := c.gates[i].wires;
    var ys := Vars(w);
    var vs := seq(|w|, j requires 0 <= j < |w| => a[Child(c, i, j)]);
    forall j | 0 <= j < |w|
      ensures IsLiteral(ys[j], |a|) && (LitTrue(a, ys[j]) <==> vs[j])
    {
      assert Child(c, i, j) < |c.gates|;
    }
    if c.gates[i].kind == And {
      ShapeIffValues(a, GateClauses(c, i), 1, Var(i), ys, a[i], vs);
    } else {
      ShapeIffValues(a, GateClauses(c, i), -1, Var(i), ys, a[i], vs);
    }
  }

  lemma NotClausesIff(c: Circuit, a: seq<bool>, i: GateId)
    requires ValidGate(c, i) && |a| == |c.gates| && c.gates[i].kind == Not
    ensures Satisfies(a, GateClauses(c, i)) <==> (a[i] <==> !a[Child(c, i, 0)])
  {
    var s := Child(c, i, 0);
    var r := GateClauses(c, i);
    ClauseOfTwo(a, -Var(i), -Var(s));
    ClauseOfTwo(a, Var(i), Var(s));
    assert r[0] == [-Var(i), -Var(s)] && r[1] == [Var(i), Var(s)];
  }

  /** The reference values of a world satisfy the clauses of every gate. */
  lemma GateClausesSound(c: Circuit, i: GateId, sampled: set<GateId>)
    requires ValidGate(c, i)
    ensures Satisfies(Assignment(c, sampled), GateClauses(c, i))
  {
    var a := Assignment(c, sampled);
    var k := |c.gates[i].wires|;
    if c.gates[i].kind == Not {
      NotClausesIff(c, a, i);
    } else if c.gates[i].kind == And || c.gates[i].kind == Or {
      assert forall j :: 0 <= j < k ==> a[Child(c, i, j)] == Holds(c, Child(c, i, j), sampled);
      GateShapeIff(c, a, i);
    }
  }

  /** The clause list holds exactly when the gate clauses hold and the variable of `g` is true. */
  lemma ClausesSplit(c: Circuit, g: GateId, a: seq<bool>)
    requires ValidGate(c, g) && |a| == |c.gates|
    ensures Satisfies(a, Clauses(c, g)) <==> Satisfies(a, Concat(GateGroups(c))) && a[g]
  {
    assert Clauses(c, g) == Concat(GateGroups(c)) + [[Var(g)]];
    UnitSplit(a, Concat(GateGroups(c)), g);
  }

  /** Appending the unit clause of `g` adds exactly the requirement that `g` is true. */
  lemma UnitSplit(a: seq<bool>, body: seq<seq<int>>, g: GateId)
    requires g < |a|
    ensures Satisfies(a, body + [[Var(g)]]) <==> Satisfies(a, body) && a[g]
  {
    SatisfiesConcat(a, body, [[Var(g)]]);
    assert Satisfies(a, [[Var(g)]]) <==> ClauseTrue(a, [Var(g)]) by {
      assert [[Var(g)]][0] == [Var(g)];
    }
    assert ClauseTrue(a, [Var(g)]) <==> LitTrue(a, [Var(g)][0]);
  }

  /** In every world the reference values of the gates satisfy all the gate clauses. */
  lemma GroupsSound(c: Circuit, sampled: set<GateId>)
    requires WellFormed(c)
    ensures Satisfies(Assignment(c, sampled), Concat(GateGroups(c)))
  {
    var a := Assignment(c, sampled);
    forall k | 0 <= k < |c.gates|
      ensures Satisfies(a, GateClauses(c, k))
    {
      GateClausesSound(c, k, sampled);
    }
    SatisfiesGateGroups(c, a);
  }

  /**
    Soundness: in every world, the reference values of the gates satisfy
    all the gate clauses, and they satisfy the final unit clause exactly
    when `g` holds; when no UNDETERMINED gate is reachable from `g` this is
    exactly when `Evaluate` returns true.
  */
  lemma TseytinSound(c: Circuit, g: GateId, sampled: set<GateId>)
    requires ValidGate(c, g)
    ensures Satisfies(Assignment(c, sampled), Concat(GateGroups(c)))
    ensures Satisfies(Assignment(c, sampled), Clauses(c, g)) <==> Holds(c, g, sampled)
    ensures Determined(c, g) ==>
      (Satisfies(Assignment(c, sampled), Clauses(c, g)) <==> Evaluate(c, g, sampled) == Ok(true))
  {
    var a := Assignment(c, sampled);
    GroupsSound(c, sampled);
    ClausesSplit(c, g, a);
    assert a[g] == Holds(c, g, sampled);
    if Determined(c, g) {
      EvaluateIsFold(c, g, sampled);
    }
  }

  /**
    An assignment satisfying the clauses of every gate gives each gate from
    which no UNDETERMINED gate is reachable the reference value it has in
    the world of the true variables.
  */
  lemma {:induction false} ModelsFollowGates(c: Circuit, a: seq<bool>, i: GateId)
    requires ValidGate(c, i) && |a| == |c.gates| && Determined(c, i)
    requires forall k :: 0 <= k < |c.gates| ==> Satisfies(a, GateClauses(c, k))
    ensures a[i] == Holds(c, i, Sampled(a))
    decreases c.rank[i]
  {
    assert Satisfies(a, GateClauses(c, i));
    match c.gates[i].kind
    case In =>
    case Not =>
      ModelsFollowGates(c, a, Child(c, i, 0));
      FollowStep(c, a, i);
    case And =>
      forall j | 0 <= j < |c.gates[i].wires|
        ensures a[Child(c, i, j)] == Holds(c, Child(c, i, j), Sampled(a))
      {
        ModelsFollowGates(c, a, Child(c, i, j));
      }
      FollowStep(c, a, i);
    case Or =>
      forall j | 0 <= j < |c.gates[i].wires|
        ensures a[Child(c, i, j)] == Holds(c, Child(c, i, j), Sampled(a))
      {
        ModelsFollowGates(c, a, Child(c, i, j));
      }
      FollowStep(c, a, i);
  }

  /** A gate whose clauses hold, over children that follow their reference values, follows its own. */
  lemma FollowStep(c: Circuit, a: seq<bool>, i: GateId)
    requires ValidGate(c, i) && |a| == |c.gates| && c.gates[i].kind in {Not, And, Or}
    requires Satisfies(a, GateClauses(c, i))
    requires c.gates[i].kind == Not ==> a[Child(c, i, 0)] == Holds(c, Child(c, i, 0), Sampled(a))
    requires c.gates[i].kind != Not ==>
      forall j :: 0 <= j < |c.gates[i].wires| ==> a[Child(c, i, j)] == Holds(c, Child(c, i, j), Sampled(a))
    ensures a[i] == Holds(c, i, Sampled(a))
  {
    if c.gates[i].kind == Not {
      NotClausesIff(c, a, i);
    } else {
      GateShapeIff(c, a, i);
    }
  }

  /**
    Completeness: when no gate is UNDETERMINED, every model of the CNF is
    the assignment of the world formed by its true variables, and `g`
    evaluates to true in that world. With `TseytinSound` this makes the
    models of the CNF and the worlds in which `g` is true correspond one to
    one.
  */
  lemma TseytinComplete(c: Circuit, g: GateId, a: seq<bool>)
    requires ValidGate(c, g) && FullyDetermined(c) && |a| == |c.gates|
    requires Satisfies(a, Clauses(c, g))
    ensures a == Assignment(c, Sampled(a))
    ensures Evaluate(c, g, Sampled(a)) == Ok(true)
  {
    ClausesSplit(c, g, a);
    SatisfiesGateGroups(c, a);
    forall i | 0 <= i < |c.gates|
      ensures a[i] == Holds(c, i, Sampled(a))
    {
      FullyDeterminedGate(c, i);
      ModelsFollowGates(c, a, i);
    }
    FullyDeterminedGate(c, g);
    EvaluateIsFold(c, g, Sampled(a));
  }
}
