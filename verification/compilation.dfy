/**
  The two pure pieces of knowledge compilation: the shell command that runs
  an external d-DNNF compiler on the CNF file, and the reading of the
  compiler's output in the NNF text format.

  An NNF file starts with the header `nnf <nodes> <edges> <variables>`,
  followed by one node per line, numbered from 0 in order of appearance:
  `O <decision variable> <k> <child>...` for an OR node, `A <k> <child>...`
  for an AND node and `L <literal>` for a leaf. A file that does not start
  with the token `nnf` is the compiler's way of reporting an unsatisfiable
  formula, whose probability is 0.
*/
module Compilation {
  import opened Circuits
  import opened Text

  /** The compilers a command line can be built for. */
  predicate KnownCompiler(name: string) {
    name == "d4" || name == "c2d" || name == "minic2d" || name == "dsharp"
  }

  /** Where the compiler is expected to write the d-DNNF for `filename`. */
  function OutputFile(filename: string): string {
    filename + ".nnf"
  }

  /**
    The shell command compiling the CNF in `filename` with `compiler`, so
    that the d-DNNF ends up in `OutputFile(filename)`; an unknown compiler
    name is refused.
  */
  function CommandLine(compiler: string, filename: string): (r: Result<string>)
    ensures r.Ok? <==> KnownCompiler(compiler)
    ensures r.Err? ==> r.error == UnknownCompiler(compiler)
    ensures r.Ok? ==> compiler + " " <= r.value
  {
    var head := compiler + " ";
    if compiler == "d4" then Ok(head + filename + " -out=" + OutputFile(filename))
    else if compiler == "c2d" then Ok(head + "-in " + filename + " -silent")
    else if compiler == "minic2d" then Ok(head + "-in " + filename)
    else if compiler == "dsharp" then Ok(head + "-q -Fnnf " + OutputFile(filename) + " " + filename)
    else Err(UnknownCompiler(compiler))
  }

  /**
    The argument vector each compiler is given: d4 and dsharp are told the
    output file explicitly, c2d and minic2d derive it from the input name,
    and c2d is silenced.
  */
  function Arguments(compiler: string, filename: string): seq<string>
    requires KnownCompiler(compiler)
  {
    if compiler == "d4" then [filename, "-out=" + OutputFile(filename)]
    else if compiler == "c2d" then ["-in", filename, "-silent"]
    else if compiler == "minic2d" then ["-in", filename]
    else ["-q", "-Fnnf", OutputFile(filename), filename]
  }

  lemma NoBlankJoin(a: string, b: string)
    requires NoBlank(a) && NoBlank(b)
    ensures NoBlank(a + b)
  {
    assert forall k :: 0 <= k < |a + b| ==> (a + b)[k] == (if k < |a| then a[k] else b[k - |a|]);
  }

  lemma JoinCons(w: string, ws: seq<string>)
    requires ws != []
    ensures JoinWords([w] + ws) == w + " " + JoinWords(ws)
  {
    assert ([w] + ws)[1..] == ws;
  }

  /** The words of `compiler` and `args` joined by blanks split back into them. */
  lemma SplitCommand(compiler: string, args: seq<string>, cmd: string)
    requires KnownCompiler(compiler) && args != []
    requires forall i :: 0 <= i < |args| ==> args[i] != [] && NoBlank(args[i])
    requires cmd == compiler + " " + JoinWords(args)
    ensures Words(cmd) == [compiler] + args
  {
    JoinCons(compiler, args);
    var ws := [compiler] + args;
    assert NoBlank(compiler);
    assert forall i :: 1 <= i < |ws| ==> ws[i] == args[i - 1];
    WordsJoin(ws);
  }

  /**
    For a known compiler and a file name without blanks, the shell splits
    the command line into the compiler's name followed by exactly its
    argument vector.
  */
  lemma CommandLineWords(compiler: string, filename: string)
    requires KnownCompiler(compiler)
    requires filename != [] && NoBlank(filename)
    ensures Words(CommandLine(compiler, filename).value) == [compiler] + Arguments(compiler, filename)
  {
    NoBlankJoin(filename, ".nnf");
    if compiler == "d4" {
      D4Command(filename);
    } else if compiler == "c2d" {
      C2dCommand(filename);
    } else if compiler == "minic2d" {
      Minic2dCommand(filename);
    } else {
      DsharpCommand(filename);
    }
  }

  lemma D4Command(f: string)
    requires f != [] && NoBlank(f) && NoBlank(OutputFile(f))
    ensures Words(CommandLine("d4", f).value) == ["d4"] + Arguments("d4", f)
  {
    var o := OutputFile(f);
    var h := "d4" + " ";
    NoBlankJoin("-out=", o);
    JoinCons(f, ["-out=" + o]);
    assert CommandLine("d4", f) == Ok(h + f + " -out=" + o);
    assert h + f + " -out=" + o == h + ((f + " ") + ("-out=" + o));
    SplitCommand("d4", [f, "-out=" + o], h + ((f + " ") + ("-out=" + o)));
  }

  lemma C2dCommand(f: string)
    requires f != [] && NoBlank(f)
    ensures Words(CommandLine("c2d", f).value) == ["c2d"] + Arguments("c2d", f)
  {
    JoinCons(f, ["-silent"]);
    JoinCons("-in", [f, "-silent"]);
    assert CommandLine("c2d", f) == Ok("c2d" + " " + "-in " + f + " -silent");
    assert "c2d" + " " + "-in " + f + " -silent" == "c2d" + " " + ("-in" + " " + (f + " " + "-silent"));
    SplitCommand("c2d", ["-in", f, "-silent"], "c2d" + " " + ("-in" + " " + (f + " " + "-silent")));
  }

  lemma Minic2dCommand(f: string)
    requires f != [] && NoBlank(f)
    ensures Words(CommandLine("minic2d", f).value) == ["minic2d"] + Arguments("minic2d", f)
  {
    JoinCons("-in", [f]);
    assert CommandLine("minic2d", f) == Ok("minic2d" + " " + "-in " + f);
    assert "minic2d" + " " + "-in " + f == "minic2d" + " " + ("-in" + " " + f);
    SplitCommand("minic2d", ["-in", f], "minic2d" + " " + ("-in" + " " + f));
  }

  lemma DsharpCommand(f: string)
    requires f != [] && NoBlank(f) && NoBlank(OutputFile(f))
    ensures Words(CommandLine("dsharp", f).value) == ["dsharp"] + Arguments("dsharp", f)
  {
    var o := OutputFile(f);
    var h := "dsharp" + " ";
    var opts := "-q -Fnnf ";
    JoinCons(o, [f]);
    JoinCons("-Fnnf", [o, f]);
    JoinCons("-q", ["-Fnnf", o, f]);
    assert CommandLine("dsharp", f) == Ok(h + opts + o + " " + f);
    assert opts == ("-q" + " ") + ("-Fnnf" + " ");
    assert h + opts + o + " " + f == h + (("-q" + " ") + (("-Fnnf" + " ") + ((o + " ") + f)));
    SplitCommand("dsharp", ["-q", "-Fnnf", o, f], h + (("-q" + " ") + (("-Fnnf" + " ") + ((o + " ") + f))));
  }

  /** One node line of an NNF file, as written. */
  datatype NnfLine =
    | OrLine(decision: int, children: seq<int>)
    | AndLine(children: seq<int>)
    | LeafLine(literal: int)

  /** The first number read, or 0 when none could be, as a failed extraction stores. */
  function First(xs: seq<int>): int {
    if xs == [] then 0 else xs[0]
  }

  /** What is left of `xs` after `n` numbers are skipped. */
  function Drop(xs: seq<int>, n: nat): seq<int> {
    if |xs| >= n then xs[n..] else []
  }

  /**
    Reads one node line: its first non-blank character is the tag and the
    numbers after it are extracted for as long as extraction succeeds. An
    OR line skips the decision variable and the child count, an AND line
    the child count, and a leaf keeps its literal. A blank line cannot be
    read and any other tag is an unknown node type.
  */
  function ParseLine(line: string): (r: Result<NnfLine>)
    ensures r.Err? <==> SkipSpace(line) == [] || !(SkipSpace(line)[0] in "OAL")
    ensures r.Err? && SkipSpace(line) != [] ==> r.error == UnknownNodeType(SkipSpace(line)[0])
    ensures r.Err? && SkipSpace(line) == [] ==> r.error == Unreadable
  {
    var t := SkipSpace(line);
    if t == [] then Err(Unreadable)
    else
      var ints := ReadInts(t[1..]);
      if t[0] == 'O' then Ok(OrLine(First(ints), Drop(ints, 2)))
      else if t[0] == 'A' then Ok(AndLine(Drop(ints, 1)))
      else if t[0] == 'L' then Ok(LeafLine(First(ints)))
      else Err(UnknownNodeType(t[0]))
  }

  /** The line a compiler writes for a node. */
  function ShowLine(l: NnfLine): string {
    match l
    case OrLine(v, ch) => "O" + ShowInts([v, |ch|] + ch)
    case AndLine(ch) => "A" + ShowInts([|ch|] + ch)
    case LeafLine(x) => "L" + ShowInts([x])
  }

  /** A node line is a single line. */
  lemma ShowLineOneLine(l: NnfLine)
    ensures OneLine(ShowLine(l))
  {
    var xs := match l
      case OrLine(v, ch) => [v, |ch|] + ch
      case AndLine(ch) => [|ch|] + ch
      case LeafLine(x) => [x];
    var tag := match l case OrLine(_, _) => "O" case AndLine(_) => "A" case LeafLine(_) => "L";
    assert ShowLine(l) == tag + ShowInts(xs);
    ShowIntsOneLine(xs);
    OneLineJoin(tag, ShowInts(xs));
  }

  lemma ParseTagged(tag: char, xs: seq<int>)
    requires !IsSpace(tag)
    ensures SkipSpace([tag] + ShowInts(xs)) == [tag] + ShowInts(xs)
    ensures ReadInts(([tag] + ShowInts(xs))[1..]) == xs
  {
    assert ([tag] + ShowInts(xs))[1..] == ShowInts(xs);
    ReadIntsShow(xs);
  }

  /** Every node line reads back as the node it was written for. */
  lemma ParseShowLine(l: NnfLine)
    ensures ParseLine(ShowLine(l)) == Ok(l)
  {
    match l
    case OrLine(v, ch) =>
      ParseTagged('O', [v, |ch|] + ch);
      assert Drop([v, |ch|] + ch, 2) == ch;
    case AndLine(ch) =>
      ParseTagged('A', [|ch|] + ch);
      assert Drop([|ch|] + ch, 1) == ch;
    case LeafLine(x) =>
      ParseTagged('L', [x]);
  }

  /** A node of the d-DNNF as the circuit records it. */
  datatype DNode =
    | DOr(children: seq<int>)
    | DAnd(children: seq<int>)
    | DLeaf(prob: real)

  /**
    The probability of a leaf: variable `|l|` stands for gate `|l|-1`; an
    input gate contributes its probability, or its complement for a
    negative literal, and any other gate the constant 1.
  */
  function LeafProb(c: Circuit, l: int): (p: real)
    requires IsLiteral(l, |c.gates|)
    ensures ProbsInRange(c) ==> 0.0 <= p <= 1.0
  {
    var i := if l > 0 then l - 1 else -l - 1;
    if c.gates[i].kind != In then 1.0
    else if l < 0 then 1.0 - c.gates[i].prob
    else c.gates[i].prob
  }

  /**
    On an input gate the leaves of its two literals have complementary
    probabilities; on any other gate both are certain.
  */
  lemma LeafComplement(c: Circuit, v: nat)
    requires 0 < v <= |c.gates|
    ensures c.gates[v - 1].kind == In ==> LeafProb(c, -(v as int)) == 1.0 - LeafProb(c, v)
    ensures c.gates[v - 1].kind != In ==> LeafProb(c, -(v as int)) == 1.0 && LeafProb(c, v) == 1.0
  {
  }

  /**
    The node a line stands for. A leaf whose literal names no gate of the
    circuit cannot be read.
  */
  function Node(c: Circuit, l: NnfLine): (r: Result<DNode>)
    ensures r.Err? <==> l.LeafLine? && !IsLiteral(l.literal, |c.gates|)
    ensures r.Err? ==> r.error == Unreadable
    ensures l.OrLine? ==> r == Ok(DOr(l.children))
    ensures l.AndLine? ==> r == Ok(DAnd(l.children))
    ensures r.Ok? && r.value.DLeaf? && ProbsInRange(c) ==> 0.0 <= r.value.prob <= 1.0
  {
    match l
    case OrLine(_, ch) => Ok(DOr(ch))
    case AndLine(ch) => Ok(DAnd(ch))
    case LeafLine(x) => if IsLiteral(x, |c.gates|) then Ok(DLeaf(LeafProb(c, x))) else Err(Unreadable)
  }

  /** The line `s` read and turned into a node. */
  function NodeOf(c: Circuit, s: string): Result<DNode> {
    var l :- ParseLine(s);
    Node(c, l)
  }

  /**
    Reads the node lines in order; the first line that cannot be read or
    turned into a node stops the reading with its error.
  */
  function ParseNodes(c: Circuit, lines: seq<string>): (r: Result<seq<DNode>>)
    ensures r.Ok? <==> forall i :: 0 <= i < |lines| ==> NodeOf(c, lines[i]).Ok?
    ensures r.Ok? ==> (|r.value| == |lines|
      && forall i :: 0 <= i < |lines| ==> r.value[i] == NodeOf(c, lines[i]).value)
    ensures r.Err? ==> exists i :: (0 <= i < |lines| && NodeOf(c, lines[i]).Err?
      && r.error == NodeOf(c, lines[i]).error && forall j :: 0 <= j < i ==> NodeOf(c, lines[j]).Ok?)
  {
    if lines == [] then Ok([])
    else
      var n :- NodeOf(c, lines[0]);
      var ns :- ParseNodes(c, lines[1..]);
      Ok([n] + ns)
  }

  /** What reading a compiler's output yields. */
  datatype Outcome = Unsatisfiable | Compiled(nodes: seq<DNode>)

  /**
    Extracts the three `unsigned` counts of the header that follows `nnf `:
    nodes, edges and variables. Yields the variable count and the text left
    for the node lines, or None when no variable count is ever stored: an
    earlier extraction failed the stream, or the input ends before the
    third count. A third extraction that fails still stores its value, and
    the failed stream then delivers no further line.
  */
  function ReadHeader(header: string): (r: Option<(nat, string)>)
    ensures r.Some? ==> |r.value.1| < |header| && r.value.0 <= UnsignedMax
  {
    var e1 := ExtractUnsigned(header);
    if !e1.ok then None
    else
      var e2 := ExtractUnsigned(e1.rest);
      if !e2.ok || SkipSpace(e2.rest) == [] then None
      else
        var e3 := ExtractUnsigned(e2.rest);
        Some((e3.stored, if e3.ok then e3.rest else []))
  }

  /**
    Reads a compiler's output. When the text before the first blank is not
    `nnf` the formula was unsatisfiable. Otherwise the three header counts
    are extracted, the variable count must be the number of gates of the
    circuit, the rest of the header line is skipped and every further line
    is a node.
  */
  function ParseNnf(c: Circuit, text: string): (r: Result<Outcome>)
    ensures r.Err? ==> || r.error == Unreadable
                       || r.error.UnknownNodeType?
                       || (r.error.WrongVariableCount? && r.error.expected == |c.gates| && r.error.found != |c.gates|)
    ensures r.Ok? && r.value.Compiled? && ProbsInRange(c) ==>
      forall i :: 0 <= i < |r.value.nodes| && r.value.nodes[i].DLeaf? ==> 0.0 <= r.value.nodes[i].prob <= 1.0
  {
    if FirstToken(text) != "nnf" then Ok(Unsatisfiable)
    else
      match ReadHeader(if |text| > 3 then text[4..] else [])
      case None => Err(Unreadable)
      case Some((variables, rest)) =>
        if variables != |c.gates| then Err(WrongVariableCount(variables, |c.gates|))
        else
          var nodes :- ParseNodes(c, Lines(AfterLine(rest)));
          Ok(Compiled(nodes))
  }

  /** The output a compiler writes: the header, then one line per node. */
  function ShowNnf(edges: nat, variables: nat, ls: seq<NnfLine>): string {
    var body := Unlines(seq(|ls|, i requires 0 <= i < |ls| => ShowLine(ls[i])));
    "nnf " + (ShowNat(|ls|) + (" " + ShowNat(edges) + (" " + ShowNat(variables) + ("\n" + body))))
  }

  /** The output is the unsatisfiable verdict exactly when it does not start with the token `nnf`. */
  lemma UnsatisfiableIff(c: Circuit, text: string)
    ensures ParseNnf(c, text) == Ok(Unsatisfiable) <==> !(text == "nnf" || (|text| > 3 && text[..4] == "nnf "))
  {
    FirstTokenIs(text, "nnf");
  }

  /** Each node of a well-formed output reads back as the node it was written for. */
  lemma {:induction false} ParseShownNodes(c: Circuit, ls: seq<NnfLine>)
    ensures var lines := seq(|ls|, i requires 0 <= i < |ls| => ShowLine(ls[i]));
      forall i :: 0 <= i < |ls| ==> NodeOf(c, lines[i]) == Node(c, ls[i])
  {
    var lines := seq(|ls|, i requires 0 <= i < |ls| => ShowLine(ls[i]));
    forall i | 0 <= i < |ls|
      ensures NodeOf(c, lines[i]) == Node(c, ls[i])
    {
      ParseShowLine(ls[i]);
    }
  }

  /** The header read one extraction at a time, when the third succeeds. */
  lemma ReadHeaderSteps(header: string, r1: string, r2: string, variables: nat, tail: string)
    requires ExtractUnsigned(header).ok && ExtractUnsigned(header).rest == r1
    requires ExtractUnsigned(r1).ok && ExtractUnsigned(r1).rest == r2 && SkipSpace(r2) != []
    requires ExtractUnsigned(r2) == Extraction(variables, true, tail)
    ensures ReadHeader(header) == Some((variables, tail))
  {
  }

  /** The header a compiler writes reads back as its variable count, before what follows it. */
  lemma ReadHeaderShow(nodes: nat, edges: nat, variables: nat, tail: string)
    requires nodes <= UnsignedMax && edges <= UnsignedMax && variables <= UnsignedMax
    requires EndsNumber(tail)
    ensures ReadHeader(ShowNat(nodes) + (" " + ShowNat(edges) + (" " + ShowNat(variables) + tail)))
      == Some((variables, tail))
  {
    var tail2 := " " + ShowNat(variables) + tail;
    var tail1 := " " + ShowNat(edges) + tail2;
    ExtractUnsignedShow(nodes, tail1);
    ExtractUnsignedShowBlank(edges, tail2);
    ExtractUnsignedShowBlank(variables, tail);
    ReadHeaderSteps(ShowNat(nodes) + tail1, tail1, tail2, variables, tail);
  }

  /**
    A variable count with no digit reads as 0, the value a failed
    extraction stores, and the failed stream delivers no node line.
  */
  lemma ReadHeaderNoDigit(nodes: nat, edges: nat, rest: string)
    requires nodes <= UnsignedMax && edges <= UnsignedMax
    requires rest != [] && !IsSpace(rest[0]) && !IsDigit(rest[0]) && rest[0] != '-' && rest[0] != '+'
    ensures ReadHeader(ShowNat(nodes) + (" " + ShowNat(edges) + (" " + rest))) == Some((0, []))
  {
    var tail2 := " " + rest;
    var tail1 := " " + ShowNat(edges) + tail2;
    ExtractUnsignedShow(nodes, tail1);
    ExtractUnsignedShowBlank(edges, tail2);
    ExtractUnsignedNoDigit(rest);
    SkipBlank(rest);
    SkipNoSpace(rest);
  }

  /** A written output starts with the token `nnf`, followed by its header. */
  lemma ShowNnfHeader(text: string, rest: string)
    requires text == "nnf " + rest
    ensures FirstToken(text) == "nnf" && |text| > 3 && text[4..] == rest
  {
    assert text[..4] == "nnf ";
    FirstTokenIs(text, "nnf");
  }

  /** Lines that each read as the node of the same position, all readable, read as those nodes. */
  lemma ParseNodesAll(c: Circuit, lines: seq<string>, ls: seq<NnfLine>)
    requires |lines| == |ls|
    requires forall i :: 0 <= i < |ls| ==> NodeOf(c, lines[i]) == Node(c, ls[i]) && Node(c, ls[i]).Ok?
    ensures ParseNodes(c, lines) == Ok(seq(|ls|, i requires 0 <= i < |ls| => Node(c, ls[i]).value))
  {
    var r := ParseNodes(c, lines);
    assert r.Ok?;
    assert r.value == seq(|ls|, i requires 0 <= i < |ls| => Node(c, ls[i]).value);
  }

  /**
    Written output reads back: a variable count other than the circuit's
    gate count is refused, and otherwise every node comes back in order,
    provided each leaf names a gate of the circuit.
  */
  lemma ParseShowNnf(c: Circuit, edges: nat, variables: nat, ls: seq<NnfLine>)
    requires |ls| <= UnsignedMax && edges <= UnsignedMax && variables <= UnsignedMax
    ensures variables != |c.gates| ==>
      ParseNnf(c, ShowNnf(edges, variables, ls)) == Err(WrongVariableCount(variables, |c.gates|))
    ensures variables == |c.gates| && (forall i :: 0 <= i < |ls| ==> Node(c, ls[i]).Ok?) ==>
      ParseNnf(c, ShowNnf(edges, variables, ls))
        == Ok(Compiled(seq(|ls|, i requires 0 <= i < |ls| => Node(c, ls[i]).value)))
  {
    var lines := seq(|ls|, i requires 0 <= i < |ls| => ShowLine(ls[i]));
    var body := Unlines(lines);
    var text := ShowNnf(edges, variables, ls);
    var rest := ShowNat(|ls|) + (" " + ShowNat(edges) + (" " + ShowNat(variables) + ("\n" + body)));
    ShowNnfHeader(text, rest);
    ReadHeaderShow(|ls|, edges, variables, "\n" + body);
    AfterLineOf([], body);
    assert [] + "\n" + body == "\n" + body;
    forall i | 0 <= i < |lines|
      ensures OneLine(lines[i])
    {
      ShowLineOneLine(ls[i]);
    }
    LinesUnlines(lines);
    ParseNnfSteps(c, text, variables, "\n" + body, lines);
    if variables == |c.gates| && (forall i :: 0 <= i < |ls| ==> Node(c, ls[i]).Ok?) {
      ParseShownNodes(c, ls);
      ParseNodesAll(c, lines, ls);
    }
  }

  /** The verdict of an output whose header reads, in terms of the lines after it. */
  lemma ParseNnfSteps(c: Circuit, text: string, variables: nat, rest: string, lines: seq<string>)
    requires FirstToken(text) == "nnf" && |text| > 3
    requires ReadHeader(text[4..]) == Some((variables, rest)) && Lines(AfterLine(rest)) == lines
    ensures variables != |c.gates| ==> ParseNnf(c, text) == Err(WrongVariableCount(variables, |c.gates|))
    ensures variables == |c.gates| && ParseNodes(c, lines).Ok? ==>
      ParseNnf(c, text) == Ok(Compiled(ParseNodes(c, lines).value))
  {
  }

  /**
    A header whose variable count has no digit reads the count as 0, the
    value a failed extraction stores; unless the circuit has no gate this is
    the wrong count, and otherwise the failed stream yields no node.
  */
  lemma ParseNoVariableCount(c: Circuit, nodes: nat, edges: nat, rest: string)
    requires nodes <= UnsignedMax && edges <= UnsignedMax
    requires rest != [] && !IsSpace(rest[0]) && !IsDigit(rest[0]) && rest[0] != '-' && rest[0] != '+'
    ensures ParseNnf(c, "nnf " + (ShowNat(nodes) + (" " + ShowNat(edges) + (" " + rest))))
      == if |c.gates| == 0 then Ok(Compiled([])) else Err(WrongVariableCount(0, |c.gates|))
  {
    var header := ShowNat(nodes) + (" " + ShowNat(edges) + (" " + rest));
    ShowNnfHeader("nnf " + header, header);
    ReadHeaderNoDigit(nodes, edges, rest);
    assert Lines(AfterLine([])) == [];
  }
}
