# btor2verilog core in Dafny

A model of the translator `Btor2Verilog` (file `btor2verilog.cpp`). It reads the line records of a
BTOR2 word-level model checking problem, names every node and records it in translation tables,
and renders the tables as one SystemVerilog module: ports, registers, wires, continuous
assignments, array-write shadows, a clocked reset/next block, `assume` and `assert` blocks.

The model has three layers.

- **Pure definitions.**
  - `Operators` holds the three operator tables: plain, signed and negated.
  - `Classifier.Classify` is `combinational_assignment`. It returns an `Emission`: the
    expression text, `NotCombinational`, or `Throws`.
  - `Driver.Step` and `Driver.Run` are one iteration and the whole `while` loop of `parse`. They
    work over a `Tables` value that holds every member container of the translator.
  - The two lookups listed under "## Findings" are modelled as evidently intended: an operand's
    sort is looked up by the id of its line, complemented or not, and an output is assigned its
    driver's resolved text. `Classify`, `Step`, `Run` and the translator's loop all use the
    corrected lookups. The as-written lookups are separate members, and lemmas exhibit where
    they differ. "## Left out" lists the inputs on which the main pass differs from the code
    as written.
  - `Assembler.Generate` is the text `gen_verilog` produces, or the reason it returns false.
- **The translator object.** `Translation.Translator` is a class whose fields are the member
  containers. The loop methods (`GatherArgs`, `ProcessLine`, `Parse`) update them in place. The
  `Append*` methods and `GenVerilog` append to the `verilog` field step by step. Each method's
  postcondition ties the new state to the pure definition applied to the old state
  (`Snapshot()`).
- **Properties.** Lemmas over the pure definitions state what the source promises:
  - the text of every operator class and the error cases;
  - what each record line does to the tables;
  - that the tables only grow and that generated names are unique;
  - when generation fails;
  - the declared memory ranges and the shape of the clocked block;
  - that every assign row, write row, constraint and property reaches the module text.

The translator reads three things it cannot see:
- The BTOR2 reader's output is a parameter: a `seq<Line>` of records.
- The iteration order of the unordered containers is a parameter: `Orders`. It must list each
  container exactly once (`ValidOrders`); no particular order is claimed.
- `size_t` arithmetic is written out where it shows in the text (`SizeDec`, used by `FullSelect`).

## Model

| member | source | states |
|---|---|---|
| Operators.BvOp | btor2verilog.cpp:23-97 | definition: the plain operator table, one entry per tag the source lists, and no text for the tags it comments out |
| Operators.SignedBvOp | btor2verilog.cpp:99-107 | definition: the signed operator table: sdiv, sgt, sgte, slt, slte and srem |
| Operators.NegBvOp | btor2verilog.cpp:110-114 | definition: the negated operator table: nand, nor and xnor |
| Operators.SignedSharesUnsignedText | btor2verilog.cpp:99-107 | every signed operator is written with the same text as its unsigned counterpart in the plain table |
| Operators.NegatedStoresPositiveText | btor2verilog.cpp:110-114 | nand, nor and xnor store the operator text of and, or and xor |
| Operators.TablesDisjoint | btor2verilog.cpp:23-114 | no tag is in two of the three tables, so the order in which they are tried never matters |
| Classifier.Classify | btor2verilog.cpp:349-461 | the line is non-combinational exactly when its tag has no branch; it throws exactly for rol/ror, an extension or equality whose operand has no sort, a negative zero-extension count, array equality, or a table tag with the wrong argument count |
| Classifier.TableExpression | btor2verilog.cpp:411-444 | a table tag is never non-combinational; it throws exactly when a plain tag has neither one nor two arguments, or a signed or negated tag has other than two |
| Classifier.TableBranch | btor2verilog.cpp:411-444 | no special case before the tables shadows a table tag |
| Classifier.PlainOperator | btor2verilog.cpp:411-426 | one argument gives the prefixed operator, two give the operator between spaces, any other count throws |
| Classifier.SignedIsUnsignedOverCasts | btor2verilog.cpp:427-435 | a signed operation is the parenthesised unsigned operation over `$signed(..)` operands |
| Classifier.DeMorgan | btor2verilog.cpp:436-444 | nand, nor and xnor give `~(a op b)` with the positive operator and no spaces |
| Classifier.IncIsAddOne | btor2verilog.cpp:384-388 | inc emits exactly what add emits with the one literal at the line's width |
| Classifier.DecIsSubOne | btor2verilog.cpp:389-393 | dec emits exactly what sub emits with the one literal at the line's width |
| Classifier.ZeroExtension | btor2verilog.cpp:362-373 | a 0-bit extension is the operand itself; an n-bit one concatenates an n-digit zero literal in front |
| Classifier.SignExtension | btor2verilog.cpp:356-361 | n copies of the operand's top bit, indexed by the operand's own width, are concatenated in front of it |
| Classifier.SliceSelects | btor2verilog.cpp:352-355 | a slice is `a[hi:lo]` with the raw immediates printed |
| Classifier.EqualityOnBitVectorsOnly | btor2verilog.cpp:394-402 | eq is emitted if and only if the first operand has a bit-vector sort, and then as `a == b` |
| Classifier.OperandSort | btor2verilog.cpp:358 | the operand's sort is looked up by the line id it refers to, negated or not; it agrees with the raw lookup on non-negated ids |
| Classifier.OperandSortIgnoresNegation | btor2verilog.cpp:356-358 | complementing an operand does not change the sort the classifier sees |
| Classifier.NegatedOperandLosesSort | btor2verilog.cpp:356-358 | the raw lookup of a negated operand finds no sort where the operand's sort is declared |
| Driver.Resolve | btor2verilog.cpp:159-172 | an argument fails exactly when its line has no name; a negative id gives `~` and the name, a positive one the name |
| Driver.Gather | btor2verilog.cpp:156-172 | the gathered texts are the resolved arguments in order, and gathering fails exactly when one of them fails |
| Driver.GatherKeepsFailure | btor2verilog.cpp:159-172 | after the first unresolved argument, gathering more arguments keeps that failure |
| Driver.ConstantText | btor2verilog.cpp:194-242 | exactly the six constant tags have a literal |
| Driver.ConstantLiteral | btor2verilog.cpp:194-242 | a constant's literal is the decimal line width, a quote, the radix letter (`b` for const and ones, `h` for consth, `d` otherwise) and the digits; the width prefix reads back as the line width |
| Driver.OnesAreAllOnes | btor2verilog.cpp:234-242 | the ones literal has exactly as many digits as the line width, all of them `1` |
| Driver.ZeroAndOneAreDecimal | btor2verilog.cpp:218-233 | zero and one give the same literal as `constd 0` and `constd 1` |
| Driver.OneLiteralIsOneLine | btor2verilog.cpp:226-233 | the one literal that inc and dec use is the literal of a `one` line of the same width |
| Driver.ConstantStep | btor2verilog.cpp:194-242 | a constant line binds the wire `w<id>` to its literal, sized by the sort the line refers to |
| Driver.ConstantLine | btor2verilog.cpp:194-201 | a 4-bit `const 1010` assigns `4'b1010` to `w2` |
| Driver.BindWire | btor2verilog.cpp:187-193 | definition: the wire `w<id>` is appended to the wires, bound as the line's name and assigned the expression |
| Driver.DeclareState | btor2verilog.cpp:243-248 | definition: the state is appended to the states and named `s<id>` |
| Driver.DeclareInput | btor2verilog.cpp:249-254 | definition: the input joins the inputs and is named `i<number of inputs before it>` |
| Driver.DeclareOutput | btor2verilog.cpp:255-264 | definition: the output is named `o<number of outputs before it>`, takes its driver's sort and is assigned its driver's text; a driver without a sort fails |
| Driver.DeclareSort | btor2verilog.cpp:265-292 | definition: a bit-vector or array sort is recorded and becomes the line sort; an undeclared component or an array component fails |
| Driver.DeclareWrite | btor2verilog.cpp:319-335 | definition: the shadow `write_<id>` is bound and its descriptor recorded; other than three arguments, or a shadow name already used, fails |
| Driver.Declare | btor2verilog.cpp:194-341 | definition: the dispatch over the tags the classifier leaves, in the source's order of tests |
| Driver.ResolveSort | btor2verilog.cpp:150-154 | definition: a non-sort line with a sort id takes that sort as the line sort and records it as its own; a missing sort fails |
| Driver.Step | btor2verilog.cpp:148-342 | definition: one iteration: resolve the sort, gather the arguments, classify, then bind a wire or dispatch |
| Driver.Run | btor2verilog.cpp:147-343 | definition: the iterations over the lines in order, stopping at the first failure |
| Driver.SortLine | btor2verilog.cpp:265-292 | a sort line declares a bit-vector sort, or an array sort of two bit-vector sorts, and makes it the line sort; an array over an array sort stops the pass |
| Driver.RecordLines | btor2verilog.cpp:293-318 | bad appends `~arg`, constraint appends `arg`, init stores a uniform fill for an array and the value otherwise, next stores the value under the state's name; an unresolved argument fails the line |
| Driver.BadStep | btor2verilog.cpp:315-318 | a bad line appends the negation of its resolved operand to the properties |
| Driver.OutputOfInputAsWritten | btor2verilog.cpp:255-264 | as written, an output of input `i0` is assigned `w2`, a name nothing is bound to; the corrected step assigns `i0` |
| Driver.OutputAssignsDriver | btor2verilog.cpp:255-264 | an output is assigned its driver's resolved text and takes its driver's sort |
| Driver.DeclareBinds | btor2verilog.cpp:194-292 | the constant, state, input, output, write and sort cases of the dispatch |
| Driver.DeclareRecords | btor2verilog.cpp:293-341 | the constraint, init, next and bad cases of the dispatch, and that every other tag fails as unhandled |
| Driver.StepCases | btor2verilog.cpp:149-194 | once the sort resolves, a line fails at its first unresolved argument or a throwing classifier, binds a wire to a combinational expression, or goes to the dispatch |
| Driver.BindWireExtends | btor2verilog.cpp:187-193 | binding a wire removes nothing from the tables |
| Driver.OutputExtends | btor2verilog.cpp:255-264 | an output line removes nothing from the tables |
| Driver.SortExtends | btor2verilog.cpp:265-292 | a sort line removes nothing from the tables |
| Driver.WriteExtends | btor2verilog.cpp:319-335 | a write line removes nothing and replaces no write descriptor |
| Driver.RecordExtends | btor2verilog.cpp:243-318 | state, input and record lines remove nothing from the tables |
| Driver.DeclareExtends | btor2verilog.cpp:194-341 | every dispatched line removes nothing from the tables |
| Driver.StepExtends | btor2verilog.cpp:148-342 | one iteration only adds: keys, set members and list prefixes survive, write descriptors are never replaced |
| Driver.RunExtends | btor2verilog.cpp:147-343 | the whole pass only adds to the tables it starts from |
| Driver.RunSplits | btor2verilog.cpp:147-343 | running all lines is running the first i and then the rest from the tables they leave |
| Driver.RunRecordsBad | btor2verilog.cpp:315-318 | after a successful pass, each bad line's negated operand, resolved when the line was read, is among the properties |
| Driver.AddName | btor2verilog.cpp:189-259 | binding a fresh id to an id-derived name or the next input or output number keeps every name distinct and well formed |
| Driver.WireKeepsWellNamed | btor2verilog.cpp:189-191 | a wire `w<id>` keeps names distinct |
| Driver.StateKeepsWellNamed | btor2verilog.cpp:243-248 | a state `s<id>` keeps names distinct |
| Driver.InputKeepsWellNamed | btor2verilog.cpp:249-254 | an input `i<count>` keeps names distinct |
| Driver.OutputKeepsWellNamed | btor2verilog.cpp:255-264 | an output `o<count>` keeps names distinct |
| Driver.WriteKeepsWellNamed | btor2verilog.cpp:319-335 | a shadow `write_<id>` keeps names distinct |
| Driver.DeclareKeepsWellNamed | btor2verilog.cpp:194-341 | every dispatched line keeps names distinct |
| Driver.RecordKeepsNames | btor2verilog.cpp:293-318 | constraint, init, next and bad lines leave the names, inputs and outputs alone |
| Driver.StepKeepsWellNamed | btor2verilog.cpp:148-342 | one iteration over a line with a fresh positive id keeps names distinct |
| Driver.RunKeepsWellNamed | btor2verilog.cpp:147-343 | a pass over increasing positive ids keeps the naming discipline |
| Driver.NamesUnique | btor2verilog.cpp:147-343 | after a successful pass over increasing positive ids no two lines share a name |
| Driver.RebindsOnlyOf | btor2verilog.cpp:148-342 | tables that differ at most in the entry for one id keep every other name and sort |
| Driver.SortRebindsOnly | btor2verilog.cpp:265-292 | a sort line changes the sort of no other id and no name |
| Driver.BindingRebindsOnly | btor2verilog.cpp:194-264 | constant, state, input, output and write lines change the name and sort of no other id |
| Driver.DeclareRebindsOnly | btor2verilog.cpp:194-341 | every dispatched line changes the name and sort of no other id |
| Driver.StepRebindsOnly | btor2verilog.cpp:148-342 | one iteration changes the name and sort of no id other than its own line's |
| Driver.RunKeepsBindings | btor2verilog.cpp:147-343 | over increasing ids above every bound id, a pass keeps every existing name and sort unchanged |
| Driver.RunKeysBelow | btor2verilog.cpp:147-343 | a pass over ids below a bound binds names and sorts only below that bound |
| Driver.IdsIncreaseSplit | btor2verilog.cpp:147-343 | splitting increasing ids gives increasing ids before the split and ids above the last of them after it |
| Driver.LineBindingFinal | btor2verilog.cpp:147-343 | the name and sort a line receives when it is read are still its name and sort when the pass ends |
| Assembler.FullSelect | btor2verilog.cpp:463-466 | definition: `[width-1:0]` with the `size_t` subtraction of `SizeDec` |
| Assembler.Declarations | btor2verilog.cpp:470-529 | definition: header, input and output ports, register and wire declarations, or the first failure among them |
| Assembler.Generate | btor2verilog.cpp:468-617 | definition: the declarations followed by the shadow, assign, write, clocked, assumption and assertion sections and `endmodule` |
| Assembler.ClockedBlock | btor2verilog.cpp:562-593 | definition: the clocked reset/next block, whose shape `ClockedBlockShape` states |
| Assembler.SizeDec | btor2verilog.cpp:465 | `width - 1` in `size_t`: the predecessor for a positive width, the largest value for zero |
| Assembler.PortRows | btor2verilog.cpp:472-493 | the port list succeeds exactly when every listed port has a bit-vector sort, and fails when one has an array sort |
| Assembler.StateRows | btor2verilog.cpp:496-512 | the register declarations succeed exactly when every state has a sort |
| Assembler.WireRows | btor2verilog.cpp:516-529 | the wire declarations succeed exactly when every wire has a sort |
| Assembler.PortsOkIff | btor2verilog.cpp:472-493 | for a container listed exactly once, the port list succeeds exactly when every member is a bit-vector |
| Assembler.GenerateSucceedsIff | btor2verilog.cpp:468-529 | generation succeeds exactly when every input and output is a bit-vector and every state and wire has a sort |
| Assembler.ArrayAtInterfaceFails | btor2verilog.cpp:472-493 | an array-sorted input or output makes generation fail |
| Assembler.SectionsInModule | btor2verilog.cpp:543-615 | text in any section after the declarations is in the module |
| Assembler.CheckRowsContain | btor2verilog.cpp:598-601 | every condition gets its own `assume`/`assert` row |
| Assembler.UpdateRowsContain | btor2verilog.cpp:571-574 | every listed entry gets its non-blocking assignment row |
| Assembler.AssignRowsContain | btor2verilog.cpp:544-547 | every listed wire gets its `assign` row |
| Assembler.WriteRowsContain | btor2verilog.cpp:551-559 | every listed write gets its copy and overwrite rows |
| Assembler.StateRowsContain | btor2verilog.cpp:496-512 | when the register declarations succeed, every listed state gets its own declaration row |
| Assembler.WireRowsContain | btor2verilog.cpp:516-529 | when the wire declarations succeed, every listed wire gets its own declaration row |
| Assembler.DeclarationsInModule | btor2verilog.cpp:468-617 | text in the declarations is in the module |
| Assembler.StatesDeclared | btor2verilog.cpp:494-512 | every state is declared as a register in the generated module |
| Assembler.WiresDeclared | btor2verilog.cpp:514-529 | every wire is declared in the generated module |
| Assembler.PropertiesAsserted | btor2verilog.cpp:605-613 | every property is asserted in the generated module |
| Assembler.ConstraintsAssumed | btor2verilog.cpp:595-603 | every constraint is assumed in the generated module |
| Assembler.AssignmentsEmitted | btor2verilog.cpp:543-547 | every wire or output assignment is emitted as an `assign` row |
| Assembler.WritesCopyThenOverwrite | btor2verilog.cpp:549-560 | every write copies the source array into its shadow and then overwrites the written element |
| Assembler.ClockedBlockShape | btor2verilog.cpp:562-593 | the clocked block exists exactly when some state has an init or next value; init values go under reset and next values in the else branch, or unconditionally when there is no init |
| Assembler.EveryEntryUpdated | btor2verilog.cpp:568-589 | every init or next entry gets its non-blocking assignment |
| Assembler.StateMemoryRange | btor2verilog.cpp:496-506 | an array state is a register of element width indexed by the full select of 2^w1 entries |
| Assembler.ShadowMemoryRange | btor2verilog.cpp:531-541 | a write shadow is declared with the full selects of its element width and of 2^w1 entries |
| Assembler.BadLineAsserted | btor2verilog.cpp:605-613 | from file to module: the negation of each bad line's operand is asserted in the generated text |
| Translation.Translator.constructor | btor2verilog.cpp:116-129 | a fresh translator has empty tables and empty text |
| Translation.Translator.GatherArgs | btor2verilog.cpp:156-172 | the argument loop returns exactly `Gather`: the resolved texts, or the first unresolved id |
| Translation.Translator.AddWire | btor2verilog.cpp:187-193 | the tables become `BindWire` of the old tables; the text is unchanged |
| Translation.Translator.AddSort | btor2verilog.cpp:265-292 | the tables become the declared sort's tables, or the pass fails with its error |
| Translation.Translator.AddOutput | btor2verilog.cpp:255-264 | the tables become the output's tables, or the pass fails on a driver without a sort |
| Translation.Translator.AddWrite | btor2verilog.cpp:319-335 | the tables gain the shadow and its descriptor, or the pass fails on a failed assertion |
| Translation.Translator.AddState | btor2verilog.cpp:243-248 | the tables gain the state `s<id>` |
| Translation.Translator.AddInput | btor2verilog.cpp:249-254 | the tables gain the input `i<count>` |
| Translation.Translator.AddInit | btor2verilog.cpp:297-310 | the init map gains the reset value, a uniform fill when the line sort is an array; nothing else changes |
| Translation.Translator.AddConstraint | btor2verilog.cpp:293-296 | the constraint list gains the condition; nothing else changes |
| Translation.Translator.AddNext | btor2verilog.cpp:311-314 | the update map gains the next value; nothing else changes |
| Translation.Translator.AddBad | btor2verilog.cpp:315-318 | the property list gains the negated condition; nothing else changes |
| Translation.Translator.Record | btor2verilog.cpp:194-341 | the tables become the dispatch's result, or the pass fails with its error |
| Translation.Translator.BindLine | btor2verilog.cpp:194-292 | as Record, for constant, state, input, output and sort lines |
| Translation.Translator.RecordCondition | btor2verilog.cpp:293-341 | as Record, for constraint, init, next, bad, write and unhandled lines |
| Translation.Translator.ProcessLine | btor2verilog.cpp:148-342 | one iteration leaves the tables `Step` gives, or fails with its error; the text is unchanged |
| Translation.Translator.Parse | btor2verilog.cpp:147-343 | the loop succeeds exactly when `Run` does, and then leaves the tables `Run` gives |
| Translation.Translator.AppendPorts | btor2verilog.cpp:472-493 | the loop succeeds exactly when `PortRows` does and appends its text |
| Translation.Translator.AppendStates | btor2verilog.cpp:496-512 | the loop succeeds exactly when `StateRows` does and appends its text |
| Translation.Translator.AppendWires | btor2verilog.cpp:516-529 | the loop succeeds exactly when `WireRows` does and appends its text |
| Translation.Translator.AppendShadows | btor2verilog.cpp:532-541 | appends the shadow declarations in the given order |
| Translation.Translator.AppendAssigns | btor2verilog.cpp:544-547 | appends the `assign` rows in the given order |
| Translation.Translator.AppendWriteRows | btor2verilog.cpp:551-559 | appends the copy and overwrite rows in the given order |
| Translation.Translator.AppendUpdates | btor2verilog.cpp:571-587 | appends the non-blocking assignments in the given order |
| Translation.Translator.AppendChecks | btor2verilog.cpp:598-611 | appends one `assume` or `assert` row per condition, in order |
| Translation.Translator.AppendShadowSection | btor2verilog.cpp:531-541 | appends `ShadowSection` |
| Translation.Translator.AppendAssignSection | btor2verilog.cpp:543-547 | appends `AssignSection` |
| Translation.Translator.AppendWriteSection | btor2verilog.cpp:549-560 | appends `WriteSection` |
| Translation.Translator.AppendClockSection | btor2verilog.cpp:562-593 | appends `ClockSection`, whose shape `ClockedBlockShape` states |
| Translation.Translator.AppendCheckBlock | btor2verilog.cpp:595-613 | appends nothing for no conditions, and otherwise the heading, the rows and the closing line |
| Translation.Translator.AppendAssumptions | btor2verilog.cpp:595-603 | appends `Assumptions` of the constraints |
| Translation.Translator.AppendAssertions | btor2verilog.cpp:605-613 | appends `Assertions` of the properties |
| Translation.Translator.AppendDeclarations | btor2verilog.cpp:470-529 | succeeds exactly when `Declarations` does, and then the text is the header, ports, registers and wires |
| Translation.Translator.AppendBody | btor2verilog.cpp:531-615 | appends the sections after the declarations in emission order |
| Translation.Translator.GenVerilog | btor2verilog.cpp:468-617 | succeeds exactly when `Generate` does, and then the text is the whole module |

## Left out

- Reading the file and the BTOR2 reader (`btor2parser_*`, `fopen`): the line records are a parameter. This is foreign I/O.
- The `std::hash<Btor2Tag>` specialisation and the `std::cerr` diagnostics: these are compiler plumbing and logging.
- The text of `err_`: a failure is a `Failure` value naming its cause and line. Exceptions and `return false` are both failures.
- Iteration order of the unordered sets and maps: `Orders` is a parameter, and no order is claimed.
- The floating-point `pow(2, w)`, `ceilf` and the `int` conversion of memory sizes are the exact `Pow2`. Widths of 31 or more, where the `int` overflows, are not modelled.
- Translation.Translator.constructor: models a fresh object. `initialize` does not clear `init_`, `props_` or `writes_`; reusing an object is not modelled.
- Translation.Translator.Parse: states nothing about the tables left behind by a failing line. The source stops there and its tables are not used.
- Translation.Translator.GenVerilog: states nothing about the text left after a failure. After a port with an array sort the source returns false with a partial module ending in `,`. For a state or wire without a sort, `sorts_.at` at lines 498 and 518 throws instead, and nothing catches it. The model returns a failure in both cases.
- Translation.Translator.AppendPorts: appends a port's row only after its checks pass. The source appends the `,` first; this shows only in the unused text of a failing run.
- Classifier.Classify, Driver.Step, Driver.Run, Translation.Translator.ProcessLine and Translation.Translator.Parse: these use the corrected operand-sort lookup, so they differ from the code as written on a complemented operand. Take `4 sext 3 -2 4` where line 2 is a 4-bit node. The source's `sorts_.at(-2)` throws, the handler at lines 181-185 catches it, and the pass fails. The model emits the sign extension. An `eq` whose first operand is complemented behaves the same way.
- Driver.DeclareOutput, Translation.Translator.AddOutput, Driver.Step, Driver.Run and Translation.Translator.Parse: these use the corrected output lookups. On `output -2`, the source's `sorts_.at(-2)` at line 261 lies outside the `try` and throws an uncaught exception; the model takes line 2's sort and succeeds. On `3 output 2` after the input line 2, the source assigns `w2` and the model assigns `i0`.
- Classifier.Classify: reading an argument the reader did not supply is undefined in C++. The model requires the arity the reader guarantees (`Needed`) instead.
- Classifier.SignExtension: requires an operand of width at least one. For width 0 the `w1-1` index depends on the type of `Sort::w1`, which is declared in `btor2verilog.h`; `btor2verilog.h` is not part of this model.
- Classifier.SliceSelects: requires non-negative immediates. `Classify` itself prints negative ones with a `-`.
- Driver.DeclareWrite: the two C `assert`s on a write line are modelled as checked failures. With assertions compiled out the source would go on.
- Assembler.StateMemoryRange and Assembler.ShadowMemoryRange: require 2^w1 to fit in `size_t`.
- Driver.NamesUnique: requires strictly increasing positive line ids, as the reader delivers them.

## Findings

| source | as written | input that shows it | evidently intended | confidence | as-written member | corrected member |
|---|---|---|---|---|---|---|
| btor2verilog.cpp:262 | an output is assigned `"w"` followed by its raw argument id | `3 output 2` where line 2 is the input `i0`: the output is assigned `w2`, which no line declares | the driver's resolved text, `i0` here (`args_[0]`) | not executed; high | Driver.OutputAssignAsWritten, Driver.OutputOfInputAsWritten | Driver.OutputAssign, Driver.OutputAssignsDriver |
| btor2verilog.cpp:358 | the operand sort is looked up with the raw argument id, which is negative for a complemented operand; lines 261 and 396 do the same | `4 sext 3 -2 4` with line 2 a 4-bit node: the lookup of id -2 throws and the translation fails | the sort of line 2, the same for the operand and its complement | not executed; medium | Classifier.OperandSortAsWritten, Classifier.NegatedOperandLosesSort | Classifier.OperandSort, Classifier.OperandSortIgnoresNegation |
