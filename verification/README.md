# ProvSQL Boolean provenance circuits in Dafny

This project models the Boolean provenance circuit of ProvSQL
(`src/BooleanCircuit.cpp`) and proves properties of the algorithms that run
over it. A circuit is a dense arena of gates addressed by id. Each gate is
IN, AND, OR, NOT or UNDETERMINED. It has an ordered list of child ids
(its wires), and an input gate also has a probability. Probabilities are
Dafny `real`s.

A circuit carries a rank per gate, and every wire leads to a gate of
smaller rank. This witnesses acyclicity. Gate ids cannot serve that
purpose, because the NNF reader allocates a gate for a child before the
line that declares it. `WellFormed` also asks every NOT gate to have at
least one wire, and asks the input list to name each IN gate exactly once.

Modules, one file each:

- `Circuits` (`circuit.dfy`): gates, the circuit, its well-formedness invariant and the error kinds the source raises as exceptions.
- `Evaluation` (`evaluate.dfy`): `evaluate`, the truth-assignment semantics. It is checked against a reference semantics without short-circuit, `Holds`.
- `PossibleWorlds` (`possible_worlds.dfy`): `possibleWorlds`, exact enumeration of the 2^n worlds of the n inputs. The enumeration is related to a sum over worlds that add up to 1.
- `Expectation` (`expectation.dfy`): the probability of an event when the inputs are drawn independently, computed by Shannon expansion on the input list. It equals the sum over worlds that `possibleWorlds` enumerates. Negation takes the complement, and a conjunction of events that read disjoint inputs takes the product.
- `Independent` (`independent.dfy`): `independentEvaluation`, the product formula for circuits whose inputs occur once. It is characterised by a closed form over the sequence of input leaves. Whenever it succeeds, its value is the probability `possibleWorlds` enumerates.
- `Tseytin` (`tseytin.dfy`): the Tseytin clause list and the layout of the DIMACS file. Soundness and completeness are proved against `evaluate`.
- `Text` (`text.dfy`): the stream reading the NNF reader relies on, and printers that are its inverses. It covers `getline`, extraction of signed integers, and extraction of a 32-bit `unsigned`, with its wrap-around, saturation and value stored on failure.
- `Compilation` (`compilation.dfy`): the per-compiler command line, and the reader of the NNF text a d-DNNF compiler writes.
- `Rendering` (`to_string.dfy`): `toString`, the textual rendering of a gate.

The source's exceptions become a `Result` with an `Error` value. An error is raised at the same point of the traversal as the source raises it.

## Model

| member | source | states |
|---|---|---|
| Evaluation.Evaluate | src/BooleanCircuit.cpp:112-143 | evaluation fails only with "Incorrect gate type" (BadGate), and never when no UNDETERMINED gate is reachable along the wires it follows |
| Evaluation.EvaluateWires | src/BooleanCircuit.cpp:131-142 | the wire loop fails only with BadGate, and never when no child from the current position on reaches an UNDETERMINED gate |
| Evaluation.EvaluateSemantics | src/BooleanCircuit.cpp:116-142 | an IN gate is true iff it is sampled; NOT negates its first child; UNDETERMINED throws; AND is true iff every child is true, OR is false iff every child is false (so a wireless AND is true and a wireless OR false), and each is decided by the first deciding child |
| Evaluation.WiresNeutral | src/BooleanCircuit.cpp:131-142 | the short-circuit loop yields the neutral value (true for AND, false for OR) iff every remaining child yields it |
| Evaluation.WiresDecided | src/BooleanCircuit.cpp:131-142 | the short-circuit loop yields the deciding value iff some child yields it after children that all yielded the neutral value |
| Evaluation.EvaluateIsFold | src/BooleanCircuit.cpp:112-143 | with no UNDETERMINED gate reachable, the short-circuit evaluation equals the full conjunction/disjunction fold `Holds` |
| PossibleWorlds.WorldCount | src/BooleanCircuit.cpp:169-172 | below 64 inputs, the 64-bit shift `1 << n` is exactly 2^n |
| PossibleWorlds.WorldCountAsWrittenOverflows | src/BooleanCircuit.cpp:172 | the shift as written, on a 32-bit int widened to 64 bits, gives 2^64 - 2^31 for 31 inputs instead of 2^31 |
| PossibleWorlds.DrawWorld | src/BooleanCircuit.cpp:176-188 | the inner loop samples exactly the inputs whose bit is set in the world's index, and computes the product of p or 1-p over all inputs |
| PossibleWorlds.PossibleWorlds | src/BooleanCircuit.cpp:167-198 | at 64 inputs or more it throws; otherwise its result is the sum of the weights of the worlds where the gate evaluates true, and it fails only when an UNDETERMINED gate is reachable |
| PossibleWorlds.MaskOf | src/BooleanCircuit.cpp:175-188 | every set of inputs has an index below 2^n |
| PossibleWorlds.WorldOfMask | src/BooleanCircuit.cpp:175-188 | every world holds only inputs, and every set of inputs is the world of its own index, so the enumeration misses no world |
| PossibleWorlds.WorldsDistinct | src/BooleanCircuit.cpp:175-188 | distinct indices below 2^n give distinct worlds, so no world is counted twice |
| PossibleWorlds.WeightsSumToOne | src/BooleanCircuit.cpp:177-187 | the weights of all 2^n worlds add up to 1 |
| PossibleWorlds.ProbabilityInUnitInterval | src/BooleanCircuit.cpp:167-198 | when every input probability is in [0,1], so is the enumerated probability |
| Independent.IndependentVisit | src/BooleanCircuit.cpp:521-556 | the seen set it returns contains the one it was given; the result is in [0,1] when the probabilities are; the only failures are "Not an independent circuit" and "Bad gate" (which inputs it adds is stated by `VisitCharacterized`) |
| Independent.IndependentWires | src/BooleanCircuit.cpp:527-538 | the AND/OR product loop keeps the same guarantees over the remaining wires |
| Independent.IndependentEvaluation | src/BooleanCircuit.cpp:558-562 | a fresh seen set per top-level call; the result is in [0,1] when all probabilities are, and the only failures are the two exceptions |
| Independent.VisitCharacterized | src/BooleanCircuit.cpp:521-556 | on a gate with no UNDETERMINED gate reachable, the visit succeeds iff its input leaves, in traversal order, are pairwise distinct and unseen; it then returns the closed form (product for AND, 1-∏(1-p) for OR, 1-p for NOT, p for IN) and adds exactly those leaves to the seen set |
| Independent.WiresCharacterized | src/BooleanCircuit.cpp:527-538 | the same characterisation for the loop over the wires of an AND or OR gate, with the seen set shared between siblings |
| Independent.IndependentEvaluationCharacterized | src/BooleanCircuit.cpp:558-562 | on a gate with no UNDETERMINED gate reachable, the evaluation succeeds iff no input leaf is reached twice, then equals the closed form; otherwise it fails with NotIndependent |
| Independent.VisitDetermined | src/BooleanCircuit.cpp:551-552 | a visit that succeeds met no UNDETERMINED gate |
| Independent.HoldsFrame | src/BooleanCircuit.cpp:521-556 | whether a gate holds does not depend on any input outside the leaves the visit meets from it |
| Independent.ExpectClosedForm | src/BooleanCircuit.cpp:521-556 | when no input leaf repeats, the closed form is the probability that the gate holds with the inputs drawn independently: p for IN, 1-p for NOT, the product for AND, one minus the product of complements for OR |
| Independent.WiresExpect | src/BooleanCircuit.cpp:527-538 | the product the AND/OR loop builds over the wires from position j on is the probability that every one of those children holds (AND) or fails (OR) |
| Independent.IndependentIsProbability | src/BooleanCircuit.cpp:558-562 | whenever `independentEvaluation` returns a value, it equals the probability `possibleWorlds` computes by enumerating every world (lines 167-198) |
| Expectation.ProbabilityIsExpect | src/BooleanCircuit.cpp:167-198 | with no UNDETERMINED gate reachable, the sum over all 2^n worlds of the weight of those where the gate evaluates true is the probability that it holds under independent draws of the inputs |
| Expectation.SumExpect | src/BooleanCircuit.cpp:175-191 | summing the product of p or 1-p over the worlds where an event holds equals its Shannon expansion over the input list |
| Expectation.ExpectBoth | src/BooleanCircuit.cpp:527-531 | two events that never read the same input are independent: the probability of both is the product, the fact the AND loop's multiplication relies on |
| Expectation.ExpectNegation | src/BooleanCircuit.cpp:540-541 | the complement of an event has probability one minus its probability, as NOT computes |
| Expectation.ExpectMember | src/BooleanCircuit.cpp:544-548 | over distinct inputs, an input is true with exactly its own probability, as IN returns |
| Tseytin.WireClauses | src/BooleanCircuit.cpp:290-312 | the loop over the wires appends one binary clause per child, in wire order, and extends the long clause with each child's literal of the opposite sign |
| Tseytin.GateClauses | src/BooleanCircuit.cpp:288-327 | AND gives `[-id, s+1]` per child then `[id, -(s1+1), …]`; OR gives the sign-dual; NOT gives `[-id, -(s+1)]` and `[id, s+1]`; IN and UNDETERMINED give nothing |
| Tseytin.Clauses | src/BooleanCircuit.cpp:287-328 | the clause list ends with the unit clause `[g+1]`, and every literal is nonzero with absolute value at most the gate count |
| Tseytin.WeightLines | src/BooleanCircuit.cpp:346-351 | each input `in`, in input order, gives exactly `w in+1 p` and `w -(in+1) 1-p` |
| Tseytin.CnfFile | src/BooleanCircuit.cpp:338-351 | the header counts the gates as variables and exactly the clauses written after it, the last clause asserts `g`, and weight lines, when asked for, come last |
| Tseytin.TseytinSound | src/BooleanCircuit.cpp:287-328 | in every world the gates' values satisfy every gate clause, and satisfy the final unit clause iff `g` holds, which is iff `evaluate` returns true when no UNDETERMINED gate is reachable |
| Tseytin.TseytinComplete | src/BooleanCircuit.cpp:287-328 | with no UNDETERMINED gate, every model of the CNF assigns each gate its value in the world of its true variables, and `g` evaluates true there |
| Compilation.CommandLine | src/BooleanCircuit.cpp:362-373 | a command is built iff the compiler is d4, c2d, minic2d or dsharp; it starts with the compiler name and a blank; any other name throws "Unknown compiler" |
| Compilation.CommandLineWords | src/BooleanCircuit.cpp:362-373 | for a file name without blanks, the shell splits the command into the compiler name and exactly its arguments: d4 and dsharp name the `.nnf` output file, c2d adds `-silent` |
| Compilation.ParseLine | src/BooleanCircuit.cpp:404-441 | a node line fails iff it is blank or its tag is not O, A or L; an unknown tag is reported by name |
| Compilation.ParseShowLine | src/BooleanCircuit.cpp:406-431 | every O, A and L line as a compiler writes it reads back as the same node |
| Compilation.LeafProb | src/BooleanCircuit.cpp:429-439 | a leaf's probability is in [0,1] when the inputs' are |
| Compilation.LeafComplement | src/BooleanCircuit.cpp:432-439 | the leaves of `v` and `-v` have complementary probabilities on an input gate and are both 1 on any other gate |
| Compilation.Node | src/BooleanCircuit.cpp:409-441 | O and A lines wire the node to the listed children, skipping the decision variable and child count; a leaf fails iff its literal names no gate; a leaf's probability is in [0,1] when the inputs' are |
| Compilation.ParseNodes | src/BooleanCircuit.cpp:403-444 | the node lines are read iff every line is readable, giving node i for line i; otherwise the first bad line stops the reading |
| Compilation.ParseNnf | src/BooleanCircuit.cpp:384-444 | the only errors are an unreadable header or line, an unknown tag, and a variable count other than the gate count; the leaves read are in [0,1] when the inputs' are |
| Compilation.UnsatisfiableIff | src/BooleanCircuit.cpp:386-390 | the output means "unsatisfiable" (probability 0) iff its first blank-delimited token is not `nnf` |
| Compilation.ParseShowNnf | src/BooleanCircuit.cpp:384-444 | a written NNF file reads back: a variable count other than the gate count throws, and otherwise every node comes back in order |
| Compilation.ReadHeader | src/BooleanCircuit.cpp:392-393 | the variable count read always fits in an unsigned, and the text left for the node lines is shorter than the header |
| Compilation.ReadHeaderShow | src/BooleanCircuit.cpp:392-393 | three counts written in decimal read back as the variable count, before exactly what follows them |
| Compilation.ReadHeaderNoDigit | src/BooleanCircuit.cpp:392-393 | a third count with no digit reads as 0, the value a failed extraction stores, and leaves nothing for the node lines |
| Compilation.ParseNoVariableCount | src/BooleanCircuit.cpp:392-403 | such a header throws the wrong-variable-count error with 0 unless the circuit has no gate, and then yields no node |
| Text.FirstTokenIs | src/BooleanCircuit.cpp:386-387 | `getline(ifs, nnf, ' ')` gives `w` iff the text is `w` or starts with `w` and a blank |
| Text.ReadIntsShow | src/BooleanCircuit.cpp:415-418 | extracting integers until extraction fails reads back exactly the numbers written |
| Text.ReadIntShow | src/BooleanCircuit.cpp:407-431 | a signed number as written, followed by a non-digit, extracts as that number, before exactly what follows it |
| Text.ExtractUnsigned | src/BooleanCircuit.cpp:393 | the value an `unsigned` extraction stores always fits in 32 bits, and a successful one consumes input and stops before a digit |
| Text.ExtractUnsignedShow | src/BooleanCircuit.cpp:393 | a count up to 2^32-1 written in decimal, followed by a non-digit, extracts as that count, before exactly what follows it |
| Text.ExtractUnsignedShowBlank | src/BooleanCircuit.cpp:393 | the same after a leading blank, which the extraction skips |
| Text.ExtractUnsignedNegative | src/BooleanCircuit.cpp:393 | a negative number -n extracts as 2^32 - n, the wrap-around of unsigned extraction |
| Text.ExtractUnsignedNoDigit | src/BooleanCircuit.cpp:393 | input starting with neither a sign nor a digit stores 0 and fails the stream |
| Text.LinesUnlines | src/BooleanCircuit.cpp:400-403 | reading lines with `getline` gives back the lines written |
| Rendering.Render | src/BooleanCircuit.cpp:65-110 | the rendering of every gate is nonempty |
| Rendering.RenderJoin | src/BooleanCircuit.cpp:101-109 | an AND, OR or UNDETERMINED gate with wires prints as all its children's renderings, in order, separated by ` op ` and in parentheses |
| Rendering.RenderNot | src/BooleanCircuit.cpp:101-109 | a NOT gate prints as `(¬` and the rendering of its last child, though it is evaluated on its first |
| Rendering.RenderInput | src/BooleanCircuit.cpp:71-77 | an input with probability other than 0 and 1 prints as its id, which reads back, then the bracketed probability |
| Rendering.RenderEmptyConstant | src/BooleanCircuit.cpp:82-99 | a wireless AND, OR or UNDETERMINED gate prints as ⊤, ⊥ or ? exactly as it evaluates to true, to false, or fails |
| Rendering.RenderConstantInput | src/BooleanCircuit.cpp:71-77 | an input prints as ⊥ iff its probability is 0 and as ⊤ iff it is 1 |

## Left out

- `monteCarlo` (lines 145-165) is left out: it depends on `rand()`.
- The `provsql_interrupted` polling is left out: it is asynchronous cancellation.
- File and process plumbing is left out: `mkstemp`, `ofstream`, `system`, `unlink`, and reading the compiler's output file. The CNF file is a sequence of `CnfLine` records. The NNF input is a string.
- The decimal formatting of the CNF lines is not modelled. A clause line is the sequence of its literals; writing them and the trailing `0` is not modelled.
- `Save_Tseytin` generates the same clauses as `Tseytin` (lines 204-244), so `Tseytin.Clauses` covers both. Its temporary-file naming is not modelled.
- `WeightMC` (lines 455-519) is left out: it is a subprocess plus floating-point formatting and parsing.
- Evaluating the d-DNNF that `compilation` reads (`dDNNFEvaluation`) is not part of this model, nor is the base class `Circuit` (`getGate`, `setGate`, `addWire`). `ParseNnf` returns the list of nodes, and an unsatisfiable result stands for the probability 0.
- `setGate` and `addGate` (lines 24-63) are not modelled as operations. The input list they keep exact is the invariant `InputsListed`. The default probability they give a fresh gate is not modelled.
- src/save_circuit.cpp is not part of this model. It is database glue.
- Floating point is left out: probabilities are exact reals, so rounding in products and sums is not modelled.
- `std::to_string(double)` in `toString` is a parameter `showProb` of `Rendering.Render`.
- The weight lines carry the real probability, not its printed decimal form.
- Rendering.Render: states non-emptiness only; its exact text is stated by `RenderJoin`, `RenderNot`, `RenderInput`, `RenderConstantInput` and `RenderEmptyConstant`.
- `WellFormed` asks a NOT gate for at least one wire rather than exactly one. The source reads only the first wire in `evaluate`, `independentEvaluation` and the clauses, while `toString` walks all of them.
- Where the source's behaviour is undefined, the NNF reader returns `Unreadable` instead:
  - a header whose first or second count cannot be extracted, or that ends before the third count, leaving the variable count uninitialised;
  - a blank node line, leaving the tag uninitialised;
  - a leaf literal of 0 or beyond the gate count, indexing out of bounds.
- Compilation.ParseShowNnf: stated for counts below 2^32, the ones a compiler writes. A larger count saturates and fails the stream, as `Text.ExtractUnsigned` models.
- Compilation.ReadHeaderShow: stated for counts below 2^32, for the same reason.
- Compilation.Node: node literals and child ids are unbounded integers. The source's 32-bit `int` extraction, which fails on overflow, is not modelled.
- The forward references of the NNF reader (`getGate` of a child id not yet declared, lines 412-427) are kept as plain child ids. Building the d-DNNF circuit from them is the unseen base class's job.
- The bit test `i & (1 << j)` at line 181 is a 32-bit shift like the one at line 172. `PossibleWorlds.DrawWorld` tests bit `j` of the 64-bit world index, as intended.

## Findings

| source | as written | input that shows it | evidently intended | confidence | as-written member | corrected member |
|---|---|---|---|---|---|---|
| src/BooleanCircuit.cpp:172 | `1<<inputs.size()` shifts a 32-bit `int` before widening it to `unsigned long long` | a circuit with 31 inputs: the shift gives INT_MIN, so the loop bound is 2^64 - 2^31, not 2^31 (and 32 to 63 inputs shift out of range) | `1ULL << inputs.size()`, exactly 2^n for fewer than 64 inputs | high; not executed | PossibleWorlds.WorldCountAsWrittenOverflows | PossibleWorlds.WorldCount |
