# A verified model of the Vvardenfell compiler core

The compiler translates a small imperative language into code for a stack machine. The language has `int` variables and arrays, `read`, `write`, `if`/`else`, `while` and blocks. The compiler runs in five stages:

1. A scanner built on a table-driven finite state machine.
2. An LL(1) parser whose branch matrix is computed at start-up from a grammar. The FIRST and FOLLOW sets are derived at the same time.
3. A parse tree kept in an arena.
4. A type checker that annotates that tree.
5. An emitter that writes stack-machine code with numbered labels.

The compiler ships its own containers: a growable vector, a string whose last stored character is a terminator, and a hash map with chained buckets.

This project models those parts in Dafny, one module per source file or class:

| module | models |
|---|---|
| `CharacterClassification` | `Utility/character_classification.h` and the character-class tables |
| `Automaton` | `include/finite_state_machine.h`, `src/finite_state_machine.cpp` |
| `FilePositions` | `include/file_position.h`, `Utility/file_position.cpp` |
| `Tokens` | the `TokenType` enumeration of `include/token.h` and its ordinals |
| `Grammars` | `include/grammar.h`, `src/grammar.cpp` (FIRST and FOLLOW) |
| `ParserTables` | the branch-matrix construction of `src/parser.cpp` |
| `Parsers` | the parsing loop, error recovery and `finalize` of `src/parser.cpp` |
| `ParseTrees` | `include/parse_tree.h` |
| `TypeChecks` | `src/type_check.cpp` |
| `MakeCodes` | `src/make_code.cpp` |
| `Vectors`, `Strings`, `UnorderedMaps` | `Utility/container/vector.h`, `Utility/container/string.{h,cpp}`, `include/unordered_map.h` |
| `Results`, `Information` | shared `Option`/`Result` wrappers and the `FundamentalType` enumeration |

Code that the source writes as objects updated in place is modelled as Dafny classes with `modifies` frames:

- the state machine, the branch matrix and the state graph;
- the file position;
- the parser and the parse tree;
- the type checker and the label counter;
- the vector, the string and the map.

Each method is proved against a specification function on values. Loops are methods with invariants. Pure computations are functions, and properties that relate several calls are lemmas.

## Model

| member | source | states |
|---|---|---|
| CharacterClassification.ClassValuesExact | src/finite_state_machine.cpp:178-205 | a character is listed in a class's value table exactly when the class predicate (`is_alpha`, `is_digit`, `is_alnum`, or any) accepts it, and every listed character is at most 0x7F |
| CharacterClassification.ClassValuesDistinct | src/finite_state_machine.cpp:188-205 | no class value table lists a character twice |
| CharacterClassification.ClassValuesSizes | src/finite_state_machine.cpp:188-205 | the NUMERIC, ALPHA, ALPHA_NUMERIC and ANY tables hold 10, 52, 62 and 128 characters |
| CharacterClassification.AlphaDigitDisjoint | Utility/character_classification.h:4-14 | no character is both a letter and a digit, and alphanumeric means letter or digit |
| Automaton.TypeOf | include/finite_state_machine.h:43-87 | a state reports REGULAR exactly when it is neither a final nor a callback-final state |
| Automaton.ProcessTransition | src/finite_state_machine.cpp:150-176 | a transition yields its next state exactly when it accepts the symbol (equal character, or a member of its class); otherwise it fails |
| Automaton.ColumnsAccepted | src/finite_state_machine.cpp:83-89 | for every encodable symbol, the matrix columns a transition writes are exactly the symbols it accepts |
| Automaton.StateGraph.NewState | include/finite_state_machine.h:28-30 | a new state is appended with its transitions, and its index is returned |
| Automaton.StateGraph.Add | include/finite_state_machine.h:35-37 | the transitions are appended to one state; every other state is unchanged |
| Automaton.StateGraph.AddOne | include/finite_state_machine.h:39-41 | one transition is appended to one state; every other state is unchanged |
| Automaton.GatherStates | src/finite_state_machine.cpp:22-36 | the gathered list is exactly the breadth-first discovery order `Gather` (crash state, start state, then each state's unlisted destinations in transition order), and it has no repeats, is closed under transitions and lists only states reachable from the start |
| Automaton.Discover | src/finite_state_machine.cpp:29-32 | appending the unlisted destinations keeps the old list as a prefix, keeps it free of repeats, lists every destination afterwards, and adds nothing but destinations |
| Automaton.GatheredFrom | src/finite_state_machine.cpp:22-36 | continuing the breadth-first walk from any list that keeps the walk's invariant ends in a list that starts with crash and start, has no repeats, is closed under transitions and lists only reachable states |
| Automaton.AddDestinations | src/finite_state_machine.cpp:29-32 | the loop appends exactly the destinations `Discover` appends, in transition order |
| Automaton.IndexOf | src/finite_state_machine.cpp:47-51 | the index of the first occurrence of a listed state |
| Automaton.FindIndex | src/finite_state_machine.cpp:47-51 | the linear search returns the index of the first occurrence |
| Automaton.BranchMatrix.constructor | include/finite_state_machine.h:159-160 | a matrix of x times y cells, each holding the default value |
| Automaton.BranchMatrix.Set | include/finite_state_machine.h:162-164 | exactly the cell x * y-dimension + y changes |
| Automaton.BranchMatrix.Get | include/finite_state_machine.h:166-168 | reads the cell x * y-dimension + y |
| Automaton.ColumnWrites | src/finite_state_machine.cpp:85-88 | one write per listed column, all with the same row and destination |
| Automaton.StateWritesCell | src/finite_state_machine.cpp:45-53 | within one state's row, a cell ends up holding the destination of the last transition that accepts that symbol, or crash if none does |
| Automaton.OtherRowUntouched | src/finite_state_machine.cpp:80 | writes for one row never change a cell of another row |
| Automaton.TableCell | src/finite_state_machine.cpp:38-55 | in the built table with width 128, cell (s, c) is the last-writer destination of state s for symbol c, or crash |
| Automaton.TableAsWrittenAliases | src/finite_state_machine.cpp:147 | with the source's width of 127, a transition on 0x7F out of state 1 lands in cell (2, 0), which should be crash |
| Automaton.AliasGatherOrder | src/finite_state_machine.cpp:22-36 | for the three-state example graph, the breadth-first walk from state 0 lists crash, start, final in that order |
| Automaton.InitBranchMatrix | src/finite_state_machine.cpp:38-55 | succeeds exactly when every character transition is encodable, and then the matrix equals the specified table |
| Automaton.StateEntries | src/finite_state_machine.cpp:43-53 | one state's transitions are written in order; fails exactly when one of its symbols is above 0x7F |
| Automaton.TransitionEntry | src/finite_state_machine.cpp:57-81 | a character transition writes its one column after the encoding check; a class transition writes all its columns |
| Automaton.ClassEntry | src/finite_state_machine.cpp:83-89 | a class transition writes each listed column of the row with the destination |
| Automaton.TableRunnable | src/finite_state_machine.cpp:10-20 | every cell of the built table names a state, and the crash row sends every symbol back to crash |
| Automaton.CrashIsAbsorbing | src/finite_state_machine.cpp:144-145 | once in the crash state, no input leaves it |
| Automaton.LongestAcceptedIsLongest | src/finite_state_machine.cpp:121-125 | the recorded final state belongs to the longest accepted prefix; no longer prefix is accepted |
| Automaton.RunCounters | src/finite_state_machine.cpp:110-128 | after a run, the current state is the state reached, the step counter equals the input length minus the longest accepted prefix, and the last final state is that prefix's state |
| Automaton.MaximalMunch | src/finite_state_machine.cpp:121-136 | what the scanner reads from the machine (current state, steps since last final, last final state) describes the longest accepting prefix |
| Automaton.NewMachine | src/finite_state_machine.cpp:10-20 | fails with TooManyMachineStates when more than 255 non-crash states are gathered, with UnsupportedCharacterEncoding when a symbol exceeds 0x7F, and otherwise builds a valid machine in the initial configuration; the states it numbers are the breadth-first discovery order |
| Automaton.FiniteStateMachine.constructor | src/finite_state_machine.cpp:10-20 | the machine starts in state 1, with zero steps and crash as the last final state |
| Automaton.FiniteStateMachine.Notify | src/finite_state_machine.cpp:103-108 | a callback event is produced exactly for callback-final states |
| Automaton.FiniteStateMachine.Process | src/finite_state_machine.cpp:110-128 | a symbol above 0x7F is rejected with nothing changed; otherwise the machine takes one table step, returns whether it is not in the crash state, and signals EXIT on the old state and then ENTER on the new one |
| Automaton.FiniteStateMachine.Reset | src/finite_state_machine.cpp:138-142 | returns the machine to the initial configuration |
| Automaton.FiniteStateMachine.LastFinalToken | src/finite_state_machine.cpp:134-136 | the last final state is a final state, and its token is returned |
| FilePositions.NewLine | Utility/file_position.cpp:19-23 | the line advances by one, the column resets to 1 and the carriage-return flag clears |
| FilePositions.ReplayConcat | Utility/file_position.cpp:4-17 | replaying two signal sequences one after the other is replaying their concatenation |
| FilePositions.OneSignal | Utility/file_position.cpp:4-17 | one signal advances the line by at most one: exactly on ENTER of a non-CR character, or on EXIT after a CR by a character other than LF; otherwise the column is kept |
| FilePositions.WalkCounts | Utility/file_position.cpp:4-17 | walking a run of line-break characters counts one line per break, treating CR LF as one |
| FilePositions.LineBreakLexeme | Utility/file_position.cpp:4-17 | after a line-break lexeme and the next character, the position is the start of the line one break count further down |
| FilePositions.CarriageReturnLineFeed | Utility/file_position.cpp:4-17 | CR LF advances exactly one line |
| FilePositions.TwoCarriageReturns | Utility/file_position.cpp:4-17 | CR CR followed by another character advances two lines |
| FilePositions.FilePosition.constructor | include/file_position.h:13 | a position starts at line 1, column 1, with no pending carriage return |
| FilePositions.FilePosition.OnStateChange | Utility/file_position.cpp:4-17 | the position after a signal is the specified position after that signal |
| FilePositions.FilePosition.IncrementColumn | include/file_position.h:16 | the column advances by one; the line and flag are kept |
| FilePositions.FilePosition.IncrementColumnBy | include/file_position.h:17 | the column advances by the count; the line and flag are kept |
| FilePositions.FilePosition.IncrementLine | Utility/file_position.cpp:19-23 | moves to the start of the next line |
| Tokens.OrdinalOfKindAt | include/token.h:6-43 | the kind at ordinal k has ordinal k |
| Tokens.KindAtOrdinal | include/token.h:6-43 | the kind at a token's ordinal is that token |
| Tokens.OrdinalBijective | include/token.h:6-43 | distinct kinds have distinct ordinals, and only ENUM_ENTRY_COUNT lies outside the table rows |
| Doubles.ToDouble | Utility/container/vector.h:37 | converting a size to `double` keeps it exactly when it has at most 53 binary digits, and otherwise loses less than a sixteenth of it |
| Doubles.TimesOnePointFour | Utility/container/vector.h:37 | `(size + required) * RESIZE_FACTOR` in double arithmetic and truncated back to `size_t` is never below the size it grows |
| Doubles.TimesOnePointFourRounding | Utility/container/vector.cpp:4 | with RESIZE_FACTOR the double nearest 1.4, 45 grows to 62 (not 63) and 5 grows to 7 |
| Vectors.Vector.FreeCapacity | Utility/container/string.cpp:27 | the free room plus the size is the capacity |
| Vectors.Vector.PopBack | Utility/container/string.cpp:19 | the last element is dropped and the buffer is kept |
| Vectors.Vector.constructor | Utility/container/vector.h:65-68 | an empty vector with the requested capacity |
| Vectors.Vector.FromRange | Utility/container/vector.h:72-74 | a vector holding exactly the range, with the requested capacity |
| Vectors.Vector.At | Utility/container/vector.h:112-118 | the element at the index |
| Vectors.Vector.Resize | Utility/container/vector.h:30-33 | the contents are kept and the capacity becomes the new capacity |
| Vectors.Vector.ResizeOnDemand | Utility/container/vector.h:35-39 | the contents are kept, and afterwards there is room for the request; the storage is replaced only when the free room was too small, and the capacity is then `(size + required) * 1.4` in double arithmetic, truncated |
| Vectors.Vector.Insert | Utility/container/vector.h:120-132 | the range is inserted at the offset, the elements before and after are kept in order, and the returned position is the offset |
| Vectors.Vector.ShiftUp | Utility/container/vector.h:127-128 | the tail moves up by the count; the head is kept |
| Vectors.Vector.CopyIn | Utility/container/vector.h:129 | the range overwrites the slots from the offset; everything else is kept |
| Vectors.Vector.PushBack | Utility/container/vector.h:138-142 | the element is appended; the buffer is kept when a slot was free, and otherwise grows to `(size + 1) * 1.4` in double arithmetic, truncated |
| Vectors.Swap | Utility/container/vector.h:12-16 | the two vectors exchange contents |
| Strings.String.Size | Utility/container/string.h:66-68 | the number of characters before the terminator |
| Strings.String.CStr | Utility/container/string.h:58-64 | the characters followed by the terminator |
| Strings.String.At | Utility/container/string.h:50-56 | the character at an index below the size, and the terminator at the size |
| Strings.String.WithCapacity | Utility/container/string.h:19-21 | the empty string |
| Strings.String.constructor | Utility/container/string.h:26 | the empty string, with room for 15 characters before the buffer grows |
| Strings.String.FromChars | Utility/container/string.h:30-35 | a string holding exactly the given characters |
| Strings.String.AssignChar | Utility/container/string.cpp:3-8 | the string becomes the one character |
| Strings.String.PlusAsWritten | Utility/container/string.cpp:10-15 | as written, the sum carries the right operand's terminator as an extra character, so its size is one more than the two sizes together |
| Strings.String.Plus | Utility/container/string.cpp:10-15 | the concatenation of the two strings |
| Strings.String.PlusChar | Utility/container/string.cpp:17-24 | the string followed by the character |
| Strings.String.AppendAsWritten | Utility/container/string.cpp:26-35 | as written, the other string is appended in place when it fits the free room; otherwise the string becomes `*this + source`, which carries the source's terminator as an extra character |
| Strings.String.Append | Utility/container/string.cpp:26-35 | corrected: the other string is appended, whichever branch the free capacity selects |
| Strings.String.AppendChar | Utility/container/string.cpp:37-42 | the character is appended |
| Strings.String.FindLastOfAsWritten | Utility/container/string.cpp:44-52 | as written, a found character yields the position one past its last occurrence; no occurrence yields the size |
| Strings.String.FindLastOf | Utility/container/string.cpp:44-52 | the position of the last character in the set, or the size if none is present |
| Strings.String.Equals | Utility/container/string.cpp:54-66 | true exactly when the two strings hold the same characters |
| Strings.String.NotEquals | Utility/container/string.cpp:68-70 | true exactly when the two strings differ |
| Strings.InsertBeforeTerminator | Utility/container/string.cpp:11-13 | the two insertions before the terminator yield both operands followed by the terminator |
| Strings.AppendCharAfter | Utility/container/string.cpp:18-22 | the pop, copy and two pushes yield the characters, the new character and the terminator |
| Strings.Swap | Utility/container/string.cpp:72-75 | the two strings exchange contents |
| Strings.FindLastOfLineFeedAtEnd | Utility/container/string.cpp:47 | for "ab\n", the as-written search returns 3, the same value as "not found" |
| Strings.PlusEmbedsTerminator | Utility/container/string.cpp:13 | "a" + "b" as written has size 3, and its last character is a NUL |
| ParseTrees.AddChild | include/parse_tree.h:67-70 | a new node with the data and no children is appended and listed as the parent's last child; every other node is unchanged |
| ParseTrees.AddChildLinked | include/parse_tree.h:67-70 | adding a child keeps the tree linked: parents list their children in increasing order, and children come after their parent |
| ParseTrees.AddChildDepth | include/parse_tree.h:67-70 | the new node is one level below its parent; all other depths are unchanged |
| ParseTrees.SiblingsDisjoint | include/parse_tree.h:83-90 | no node lies under two different children of the same parent |
| ParseTrees.BelowOrdered | include/parse_tree.h:67-70 | of two ancestors of a node, the later-created one lies under the earlier one |
| ParseTrees.ParseTree.constructor | include/parse_tree.h:130 | a tree holding only the root node without userdata |
| ParseTrees.ParseTree.CreateChild | include/parse_tree.h:67-70 | the arena grows by the specified child, and the new node's index is returned |
| ParseTrees.ParseTree.Parent | include/parse_tree.h:73-80 | the root is its own parent; any other node is listed among its parent's children |
| ParseTrees.ParseTree.Child | include/parse_tree.h:83-90 | the i-th child has this node as its parent and comes after the earlier children |
| ParseTrees.ParseTree.HasUserdata | include/parse_tree.h:98-100 | every node except the root carries userdata |
| ParseTrees.ParseTree.SetDataType | include/parse_tree.h:118-120 | only that node's data type changes |
| ParserTables.InitialTable | src/parser.cpp:35-39 | every cell of a fresh branch matrix holds 255, the invalid rule reference |
| ParserTables.LookupBody | src/parser.cpp:58-63 | the lookup entry keeps exactly the production's values other than EPSILON |
| ParserTables.LookupBodyReverses | src/parser.cpp:61-63 | for a production without EPSILON, the lookup entry is the body reversed |
| ParserTables.WriteCellsAt | src/parser.cpp:69-73 | writing a row changes exactly the cells in the rule's column for the listed terminals |
| ParserTables.RowInjective | src/parser.cpp:69-73 | distinct token kinds address distinct matrix rows |
| ParserTables.AddEntry | src/parser.cpp:57-76 | fails with TooManyRuleReferences exactly when 255 or more entries are already stored; otherwise the lookup body is appended only if the terminal list is non-empty |
| ParserTables.TableFor | src/parser.cpp:35-54 | the table built from all rules has the matrix's shape |
| ParserTables.BuildFromSucceeds | src/parser.cpp:65-67 | building succeeds exactly when no entry starts with 255 or more stored bodies |
| ParserTables.BuildFromLookup | src/parser.cpp:57-76 | after building, the lookup list is the kept bodies in order |
| ParserTables.LastWriterMeaning | src/parser.cpp:69-73 | the last writer of a cell is the last entry for that column that lists that terminal, or none |
| ParserTables.TableCell | src/parser.cpp:35-76 | each cell names the lookup entry of its last writer, and that entry is the reversed body without EPSILON; an unwritten cell holds 255 |
| ParserTables.TableFails | src/parser.cpp:65-67 | construction fails exactly when some entry finds 255 or more kept entries before it, and the error is TooManyRuleReferences |
| ParserTables.InitRow | src/parser.cpp:57-76 | filling one row matches the specified entry addition |
| ParserTables.InitProductionRows | src/parser.cpp:42-54 | one production's FIRST row, plus its FOLLOW row when FIRST contains EPSILON, matches the specification |
| ParserTables.InitRuleRows | src/parser.cpp:42-54 | a whole rule's rows match the specification |
| ParserTables.InitBranchMatrix | src/parser.cpp:35-39 | the constructed branch matrix and lookup list are the specified table |
| Parsers.Cleanup | src/parser.cpp:104-109 | the cleaned stack is a prefix of the old one, all dropped entries were empty, the top body is non-empty or the stack is empty, and the active node has moved up one parent per dropped entry |
| Parsers.CandidateRowsSound | src/parser.cpp:139-163 | every row collected for a variable has a rule in its column and is not the EPSILON row |
| Parsers.CandidateRowsComplete | src/parser.cpp:139-163 | every non-EPSILON row with a rule in the column is collected |
| Parsers.CandidateRowsAscending | src/parser.cpp:139-163 | collected rows are strictly increasing |
| Parsers.CandidatesSound | src/parser.cpp:139-163 | every expected kind has a rule in the variable's column |
| Parsers.CandidatesComplete | src/parser.cpp:139-163 | every kind with a rule in the column is expected |
| Parsers.CandidatesIncreasing | src/parser.cpp:139-163 | expected kinds are listed in increasing ordinal order |
| Parsers.EofExpectableMeaning | src/parser.cpp:166-194 | end of input is expectable exactly when every stacked body can be replaced by EPSILON |
| Parsers.ExpectedMembers | src/parser.cpp:139-163 | a non-EPSILON kind is expected exactly when its cell has a rule; EPSILON is expected exactly when its cell has a rule and end of input is expectable |
| Parsers.ExpectedOrdered | src/parser.cpp:139-163 | the expected list is in ordinal order, with EPSILON only last |
| Parsers.HandleUnexpected | src/parser.cpp:125-136 | error handling changes neither the tree nor the validity flag |
| Parsers.ReportOnce | src/parser.cpp:125-136 | in recovery an unforced call changes nothing; otherwise one report is added, and a kind other than OUT_OF_RANGE_INTEGER enters recovery |
| Parsers.Match | src/parser.cpp:240-245 | a matched token becomes a new tree node, and recovery ends |
| Parsers.Expand | src/parser.cpp:246-250 | an expansion adds one node and keeps the recovery, validity and report state |
| Parsers.Step | src/parser.cpp:228-256 | one pass of the loop keeps the configuration well formed |
| Parsers.StepValid | src/parser.cpp:251-254 | a rejected token marks the parse invalid; an expansion leaves the flag alone |
| Parsers.StepAccepts | src/parser.cpp:240-250 | an accepted token leaves recovery and is the newest node; an expansion adds exactly one node |
| Parsers.StepInRecovery | src/parser.cpp:125-136 | in recovery a rejected token adds no report and stays in recovery |
| Parsers.StepAtEndOfInput | src/parser.cpp:228-256 | the end-of-input marker is never accepted |
| Parsers.StepSound | src/parser.cpp:228-256 | every finished pass satisfies the accept/reject contract, and every expansion keeps it |
| Parsers.Run | src/parser.cpp:228-256 | a finished run satisfies the accept/reject contract of `process` |
| Parsers.StepKeepsDepth | src/parser.cpp:117-122 | the active node's depth tracks the stack depth, except after an EPSILON expansion at end of input |
| Parsers.EmptyExpansionBreaksDepth | src/parser.cpp:121 | expanding a variable whose lookup body is empty pushes an empty frame that breaks the depth correspondence until cleanup |
| Parsers.FinalizeMeaning | src/parser.cpp:259-274 | finalize succeeds exactly when the parse was valid and processing end of input empties the stack; a failure after a valid parse adds exactly one report |
| Parsers.Parser.constructor | src/parser.cpp:217-225 | the stack holds the start variable, the tree holds only the root, and the parser is valid and not in recovery |
| Parsers.Parser.CleanupStack | src/parser.cpp:104-109 | the state becomes the cleaned configuration |
| Parsers.Parser.IsEpsilonReplaceable | src/parser.cpp:177-194 | the recursive search agrees with the specified replaceability predicate |
| Parsers.Parser.IsEofExpectable | src/parser.cpp:166-174 | agrees with the specified predicate |
| Parsers.Parser.GatherExpectedToken | src/parser.cpp:139-163 | returns the specified expected list |
| Parsers.Parser.HandleUnexpectedToken | src/parser.cpp:125-136 | the state becomes the specified error-handled configuration |
| Parsers.Parser.RejectToken | src/parser.cpp:251-254 | the token is reported and the parse marked invalid |
| Parsers.Parser.ExpandTop | src/parser.cpp:117-122 | the state becomes the specified expansion |
| Parsers.Parser.MatchTop | src/parser.cpp:240-245 | the state becomes the specified match |
| Parsers.Parser.StepOnce | src/parser.cpp:228-256 | one loop pass, as specified |
| Parsers.Parser.Process | src/parser.cpp:228-256 | processing a token runs the specified loop to its accept/reject decision |
| Parsers.Parser.MarkValid | src/parser.cpp:268-270 | only the validity flag is set |
| Parsers.Parser.Finalize | src/parser.cpp:259-274 | finishes the parse as specified |
| Parsers.NewParser | src/parser.cpp:217-225 | an empty grammar is refused; otherwise construction fails exactly when the branch matrix cannot be built |
| Grammars.VariableOrdinal | include/grammar.h:175-180 | each variable has a distinct ordinal below the variable count, as its hash |
| Grammars.SplitProduction | src/grammar.cpp:38-50 | a production splits into its FIRST part and its pending values as specified |
| Grammars.SplitRule | src/grammar.cpp:30-52 | every production of a rule is split in order |
| Grammars.SplitMeaning | src/grammar.cpp:38-50 | a terminal-led production has that terminal as FIRST and nothing pending; otherwise FIRST is empty and the pending part runs up to and including the first terminal |
| Grammars.GatherSucceeds | src/grammar.cpp:100-124 | collection succeeds exactly when every variable reached before a stop is resolved |
| Grammars.GatherKeepsEpsilon | src/grammar.cpp:100-124 | EPSILON is kept exactly when every value is a variable whose FIRST contains EPSILON |
| Grammars.GatherCollects | src/grammar.cpp:100-124 | every collected terminal is a listed terminal or in the FIRST set of a listed variable |
| Grammars.LeftRecursionStaysOpen | src/grammar.cpp:19 | a left-recursive pending production is never resolved |
| Grammars.ResolveProduction | src/grammar.cpp:80-97 | returns the specified resolution |
| Grammars.ResolveEntry | src/grammar.cpp:61-75 | resolving one entry preserves the table invariants and either closes that entry or leaves everything unchanged |
| Grammars.ResolveRow | src/grammar.cpp:61-75 | a pass over one row makes progress or proves the row stable |
| Grammars.FirstsPass | src/grammar.cpp:55-77 | a pass over all rows makes progress or proves the whole table stable |
| Grammars.ResolveFirsts | src/grammar.cpp:55-77 | the resolution loop ends with a stable table that keeps every resolved fact |
| Grammars.InitialRow | src/grammar.cpp:9-15 | each rule's initial row is its productions split |
| Grammars.CalculateFirsts | src/grammar.cpp:5-27 | FIRST is computed to a stable table, and each rule is given its variable's row |
| Grammars.SplitRules | src/grammar.cpp:9-15 | the initial tables |
| Grammars.AssignEntries | src/grammar.cpp:21-24 | the rules keep their number and order, and each is given the row of the table indexed by its own variable's ordinal (FIRST here, FOLLOW at src/grammar.cpp:191-194) |
| Grammars.TerminalLedFirst | src/grammar.cpp:40-45 | a terminal-led production's FIRST is exactly that terminal |
| Grammars.LeftRecursionLeftOver | src/grammar.cpp:19 | a left-recursive production stays pending |
| Grammars.DropEpsilon | src/grammar.cpp:213-216 | EPSILON is removed, and everything else is kept |
| Grammars.AppendToMeaning | src/grammar.cpp:223-227 | each target's FOLLOW gains the terminals once per occurrence among the targets |
| Grammars.CollectFollows | src/grammar.cpp:198-220 | scanning a production yields the specified FOLLOW and dependency tables |
| Grammars.AddToFollows | src/grammar.cpp:223-227 | the terminals are appended to each target |
| Grammars.AddDependency | src/grammar.cpp:239-243 | the dependencies are recorded as specified |
| Grammars.ScanGrows | src/grammar.cpp:198-220 | scanning never removes a FOLLOW entry |
| Grammars.DirectFollower | src/grammar.cpp:205-212 | a terminal that can start the next value is in the variable's FOLLOW |
| Grammars.TrailingProcessed | src/grammar.cpp:198-220 | a variable followed only by nullable variables is still in the processing list at the end |
| Grammars.TrailingDependency | src/grammar.cpp:218-219 | such a variable's FOLLOW depends on the rule's head |
| Grammars.FollowResolutionCollects | src/grammar.cpp:261-280 | a resolved FOLLOW is exactly the union of the dependencies' FOLLOW sets |
| Grammars.MutualDependencyResolves | src/grammar.cpp:283-286 | two variables that depend only on each other resolve |
| Grammars.ChainedDependencyBlocks | src/grammar.cpp:283-286 | a dependency on a still-unresolved third variable blocks resolution |
| Grammars.ResolveFollow | src/grammar.cpp:261-280 | returns the specified resolution |
| Grammars.FollowEntry | src/grammar.cpp:246-258 | resolving one variable keeps every collected fact and makes progress or proves it blocked |
| Grammars.FollowsPass | src/grammar.cpp:246-258 | a pass makes progress or proves the table stable |
| Grammars.ResolveFollows | src/grammar.cpp:189 | the resolution loop ends with a stable table that keeps every collected fact |
| Grammars.CollectRule | src/grammar.cpp:180-187 | collects one rule as specified |
| Grammars.CalculateFollows | src/grammar.cpp:169-195 | FOLLOW is collected from the seeded table, resolved to a stable table, and assigned to each rule |
| Grammars.CollectAll | src/grammar.cpp:180-187 | collects all rules as specified |
| Grammars.Seeded | src/grammar.cpp:178 | the seeded table has the right shape |
| Grammars.StartFollowedByEpsilon | src/grammar.cpp:178 | the start variable's FOLLOW begins with EPSILON |
| Grammars.FollowerInFollow | src/grammar.cpp:205-212 | every direct follower lies in the final FOLLOW |
| Grammars.TrailingFollow | src/grammar.cpp:218-219 | a trailing variable either still depends on the head or includes the head's collected FOLLOW |
| Grammars.Grammar.constructor | src/grammar.cpp:289-292 | the grammar holds the description with FIRST and FOLLOW computed |
| Grammars.ShippedWellFormed | src/grammar.cpp:321-340 | the shipped grammar has one rule per variable, distinct heads, and every used variable defined |
| Grammars.AllTerminalLed | src/grammar.cpp:40-45 | a rule whose productions all start with a terminal gets exactly those terminals as FIRST |
| Grammars.ShippedFirsts | src/grammar.cpp:333-336 | FIRST of EXP2 and of OP in the shipped grammar |
| Grammars.ShippedFollows | src/grammar.cpp:178 | FOLLOW of PROG begins with EPSILON, and `;` follows DECL |
| Grammars.AnalyseShipped | src/grammar.cpp:289-340 | analysing the shipped grammar yields those FIRST and FOLLOW facts |
| TypeChecks.WithError | src/type_check.cpp:61-78 | an error marks the node ERROR, logs one entry and invalidates the check |
| TypeChecks.Compound | src/type_check.cpp:136-145 | an identifier with an index is INT exactly when it is accessible (int without index, or array with index) |
| TypeChecks.AfterIndex | src/type_check.cpp:289-296 | checking an index types it and logs an error exactly when the index is ill-typed |
| TypeChecks.AfterExp | src/type_check.cpp:299-308 | checking an expression types it INT and logs exactly when it is ill-typed |
| TypeChecks.AfterExp2 | src/type_check.cpp:311-322 | the same for an operand |
| TypeChecks.AfterParenthesis | src/type_check.cpp:325-328 | the same for a parenthesised operand |
| TypeChecks.AfterIdentifier | src/type_check.cpp:331-342 | the same for an identifier operand |
| TypeChecks.AfterMinus | src/type_check.cpp:350-353 | the same for a negated operand |
| TypeChecks.AfterNot | src/type_check.cpp:356-361 | the same for a logical not |
| TypeChecks.AfterOpExp | src/type_check.cpp:364-371 | the same for an operator tail; an empty tail changes nothing |
| TypeChecks.IntegerRule | src/type_check.cpp:345-347 | an integer literal is always well-typed |
| TypeChecks.ParenthesisRule | src/type_check.cpp:325-328 | a parenthesised operand is well-typed exactly when its expression is |
| TypeChecks.IdentifierRule | src/type_check.cpp:331-342 | an identifier operand is well-typed exactly when it is accessible and its index is well-typed |
| TypeChecks.UnaryRule | src/type_check.cpp:350-361 | a negated or not-ed operand is well-typed exactly when its operand is |
| TypeChecks.AfterStatement | src/type_check.cpp:215-227 | checking a statement logs exactly when the statement is ill-typed |
| TypeChecks.AfterAssignment | src/type_check.cpp:230-244 | the same for an assignment |
| TypeChecks.AssignmentRule | src/type_check.cpp:230-244 | an assignment is well-typed exactly when its target is accessible and both its index and expression are well-typed |
| TypeChecks.AfterWrite | src/type_check.cpp:247-249 | the same for `write` |
| TypeChecks.PassRule | src/type_check.cpp:247-269 | `write` and blocks are well-typed exactly when their expression or statements are |
| TypeChecks.AfterRead | src/type_check.cpp:252-264 | the same for `read` |
| TypeChecks.ReadRule | src/type_check.cpp:252-264 | `read` is well-typed exactly when its target is accessible and its index well-typed |
| TypeChecks.AfterBlock | src/type_check.cpp:267-269 | the same for a block |
| TypeChecks.AfterIf | src/type_check.cpp:272-278 | the same for `if` |
| TypeChecks.ConditionalRule | src/type_check.cpp:272-286 | `if` and `while` are well-typed exactly when the condition and all branches are |
| TypeChecks.AfterWhile | src/type_check.cpp:281-286 | the same for `while` |
| TypeChecks.AfterStatements | src/type_check.cpp:207-212 | the same for a statement list; an empty list changes nothing |
| TypeChecks.Declaration | src/type_check.cpp:174-194 | a declaration either adds one previously unknown identifier as int or array, or leaves the scope unchanged |
| TypeChecks.Declarations | src/type_check.cpp:166-171 | declarations never change an identifier already declared |
| TypeChecks.AfterArray | src/type_check.cpp:197-204 | a dimension is checked: a positive size types the node ARRAY, anything else logs an error |
| TypeChecks.AfterDecl | src/type_check.cpp:174-194 | checking a declaration registers the specified scope change |
| TypeChecks.AfterDecls | src/type_check.cpp:166-171 | checking declarations registers all of them |
| TypeChecks.AfterProg | src/type_check.cpp:160-163 | checking a program declares its identifiers and logs nothing exactly when the program is well-typed |
| TypeChecks.CheckVerdict | src/type_check.cpp:380-384 | the checker reports valid exactly when the program is well-typed, and exactly when no error was logged |
| TypeChecks.ReconstructedShape | src/type_check.cpp:114-133 | reconstruction starts with the first lexeme, and its length lies between the sum of the lexemes and that sum plus one gap per token |
| TypeChecks.ReconstructedContiguous | src/type_check.cpp:114-133 | tokens that touch are joined without gaps |
| TypeChecks.ReconstructedLines | src/type_check.cpp:114-133 | tokens on different lines are separated by one space |
| TypeChecks.AppendToken | src/type_check.cpp:125-130 | appends an optional space and the lexeme, and returns its length (with `+=` as corrected under Findings) |
| TypeChecks.ReconstructSource | src/type_check.cpp:114-133 | the source text is reconstructed as specified (with `+=` as corrected under Findings) |
| TypeChecks.ReconstructPass | src/type_check.cpp:122-130 | one pass of the loop appends the token's separator and text to the output, and answers the token's line and the column where its text ends |
| TypeChecks.ReconstructLongFirstTokenAsWritten | src/type_check.cpp:117-126 | with `+=` as written, a first token of 16 characters appended to the fresh output string gives a string of size 17 whose last character is NUL |
| TypeChecks.Retyped | include/parse_tree.h:118-120 | retyping a node changes only that node's type |
| TypeChecks.TypeCheck.constructor | src/type_check.cpp:377 | the check starts valid, with no identifiers and no errors |
| TypeChecks.TypeCheck.DataTypeOf | src/type_check.cpp:5-10 | a token's type when the node holds a token, otherwise the node's type |
| TypeChecks.TypeCheck.SetType | src/type_check.cpp:13-18 | marks one node |
| TypeChecks.TypeCheck.HandleError | src/type_check.cpp:61-78 | logs one error, as specified |
| TypeChecks.TypeCheck.DeclareIdentifier | src/type_check.cpp:148-151 | records the identifier's type and, on first declaration, its node |
| TypeChecks.TypeCheck.Run | src/type_check.cpp:380-384 | the result is the validity flag, and true exactly when the program is well-typed |
| TypeChecks.TypeCheck.CheckProg | src/type_check.cpp:160-163 | follows the program specification |
| TypeChecks.TypeCheck.CheckDecls | src/type_check.cpp:166-171 | follows the declarations specification |
| TypeChecks.TypeCheck.CheckDecl | src/type_check.cpp:174-194 | follows the declaration specification |
| TypeChecks.TypeCheck.CheckArray | src/type_check.cpp:197-204 | follows the dimension specification |
| TypeChecks.TypeCheck.CheckStatements | src/type_check.cpp:207-212 | follows the statement-list specification |
| TypeChecks.TypeCheck.CheckStatement | src/type_check.cpp:215-227 | follows the statement specification |
| TypeChecks.TypeCheck.CheckAssignment | src/type_check.cpp:230-244 | follows the assignment specification |
| TypeChecks.TypeCheck.CheckWrite | src/type_check.cpp:247-249 | follows the `write` specification |
| TypeChecks.TypeCheck.CheckRead | src/type_check.cpp:252-264 | follows the `read` specification |
| TypeChecks.TypeCheck.CheckBlock | src/type_check.cpp:267-269 | follows the block specification |
| TypeChecks.TypeCheck.CheckIf | src/type_check.cpp:272-278 | follows the `if` specification |
| TypeChecks.TypeCheck.MarkCondition | src/type_check.cpp:272-286 | types a conditional statement from its condition |
| TypeChecks.TypeCheck.CheckWhile | src/type_check.cpp:281-286 | follows the `while` specification |
| TypeChecks.TypeCheck.CheckIndex | src/type_check.cpp:289-296 | follows the index specification |
| TypeChecks.TypeCheck.CheckExp | src/type_check.cpp:299-308 | follows the expression specification |
| TypeChecks.TypeCheck.CheckExp2 | src/type_check.cpp:311-322 | follows the operand specification |
| TypeChecks.TypeCheck.CheckParenthesis | src/type_check.cpp:325-328 | follows the parenthesis specification |
| TypeChecks.TypeCheck.CheckIdentifier | src/type_check.cpp:331-342 | follows the identifier specification |
| TypeChecks.TypeCheck.CheckMinus | src/type_check.cpp:350-353 | follows the minus specification |
| TypeChecks.TypeCheck.CheckNot | src/type_check.cpp:356-361 | follows the not specification |
| TypeChecks.TypeCheck.CheckOpExp | src/type_check.cpp:364-371 | follows the operator-tail specification |
| TypeChecks.TypeCheck.NameAt | src/type_check.cpp:331-342 | the identifier's lexeme |
| TypeChecks.TypeCheck.NumberAt | src/type_check.cpp:197-204 | the integer token's value |
| MakeCodes.Decimal | src/make_code.cpp:30 | label digits are decimal without leading zeros |
| MakeCodes.DecimalRoundTrip | src/make_code.cpp:30 | reading the printed digits back yields the number |
| MakeCodes.DecimalInjective | src/make_code.cpp:30 | distinct numbers print differently |
| MakeCodes.LabelNameInjective | src/make_code.cpp:22-35 | distinct label ids give distinct label names |
| MakeCodes.NextLabel | src/make_code.cpp:29-32 | the id advances by one unless that wraps the 32-bit counter to zero, which is LabelsExhausted |
| MakeCodes.LabelCounter.constructor | src/make_code.cpp:29 | the counter starts at zero |
| MakeCodes.LabelCounter.GenerateLabel | src/make_code.cpp:22-35 | the counter advances modulo 2^32; the result is the old id's label, or LabelsExhausted when the counter wrapped |
| MakeCodes.CodeStatement | src/make_code.cpp:82-121 | a statement's code succeeds exactly when its labels fit, consumes exactly its label count, and is a block: each of its labels is defined once, every jump lands inside, and the stack is balanced |
| MakeCodes.CodeIf | src/make_code.cpp:124-141 | the same for `if` |
| MakeCodes.CodeWhile | src/make_code.cpp:144-159 | the same for `while` |
| MakeCodes.CodeStatements | src/make_code.cpp:73-79 | the same for a statement list; an empty list is a single NOP |
| MakeCodes.CodeDecl | src/make_code.cpp:61-70 | a declaration emits one DS |
| MakeCodes.CodeDecls | src/make_code.cpp:53-58 | declarations emit one DS each |
| MakeCodes.CodeProg | src/make_code.cpp:46-50 | a program emits its declarations, then a block of statements, then STP |
| MakeCodes.ExpValue | src/make_code.cpp:162-178 | an expression's code leaves exactly one value on the stack and defines no labels |
| MakeCodes.IndexValue | src/make_code.cpp:181-186 | an index's code transforms the address on top of the stack |
| MakeCodes.Exp2Value | src/make_code.cpp:189-230 | an operand's code leaves exactly one value |
| MakeCodes.OpExpValue | src/make_code.cpp:233-256 | an operator tail's code combines with the left operand; for `>` it pushes the value before the left operand |
| MakeCodes.EffectDepth | src/make_code.cpp:162-256 | the compositional stack summary predicts the machine's stack depth |
| MakeCodes.IfLayout | src/make_code.cpp:124-141 | the `if` layout is a block whenever its parts are |
| MakeCodes.WhileLayout | src/make_code.cpp:144-159 | the `while` layout is a block whenever its body is |
| MakeCodes.SequenceLayout | src/make_code.cpp:73-79 | consecutive blocks form a block |
| MakeCodes.ProgramLayout | src/make_code.cpp:46-50 | declarations, a block and STP form a block |
| MakeCodes.EffectLabels | src/make_code.cpp:124-159 | the summary's labels and targets are exactly the code's label definitions and jump targets |
| MakeCodes.BlockSound | src/make_code.cpp:124-159 | in a block each label is defined exactly once, every jump target is defined, and the stack ends balanced |
| MakeCodes.MakeCodeSound | src/make_code.cpp:262-265 | the whole program's code defines each used label once, only jumps to defined labels, balances the stack and ends in STP |
| UnorderedMaps.LoadLimit | include/unordered_map.h:192 | the maximum load is the capacity times 0.7, rounded down |
| UnorderedMaps.ResizedCapacity | include/unordered_map.h:151 | the new capacity is (capacity + required) times 1.4, rounded down |
| UnorderedMaps.LoadLimitGrows | include/unordered_map.h:149-156 | a resize never shrinks the capacity or the maximum load |
| UnorderedMaps.RoomAfterResize | include/unordered_map.h:149-156 | after a resize for one entry, there is room for that entry |
| UnorderedMaps.EntriesPush | include/unordered_map.h:163-164 | pushing into a bucket adds exactly that entry |
| UnorderedMaps.PlacedPush | include/unordered_map.h:223-227 | pushing into the key's home bucket keeps every entry in its home bucket |
| UnorderedMaps.Empty | include/unordered_map.h:191-192 | a fresh table has the requested number of buckets, all empty |
| UnorderedMaps.Spread | include/unordered_map.h:169-178 | rehashing keeps exactly the same entries, each in its home bucket |
| UnorderedMaps.Rehash | include/unordered_map.h:173-177 | the rehash loop yields the specified spread |
| UnorderedMaps.FindEntry | include/unordered_map.h:128-142 | the index of the first entry with the key, or the bucket length |
| UnorderedMaps.UnorderedMap.BucketIndex | include/unordered_map.h:124-126 | the key's hash modulo the capacity |
| UnorderedMaps.UnorderedMap.End | include/unordered_map.h:180-186 | the position past the last bucket's last entry |
| UnorderedMaps.UnorderedMap.constructor | include/unordered_map.h:191-192 | an empty map with the capacity, the hash and the maximum load |
| UnorderedMaps.UnorderedMap.WithHash | include/unordered_map.h:194 | an empty map with 256 buckets |
| UnorderedMaps.UnorderedMap.Resize | include/unordered_map.h:144-147 | the entries are rehashed into the new capacity, and the contents and count are kept |
| UnorderedMaps.UnorderedMap.ResizeOnDemand | include/unordered_map.h:149-156 | resizes exactly when the load would exceed the maximum; the contents are kept |
| UnorderedMaps.UnorderedMap.ForceInsertAt | include/unordered_map.h:158-167 | adds the entry to the hinted bucket, or to its home bucket when a resize happened |
| UnorderedMaps.UnorderedMap.ForceInsert | include/unordered_map.h:231-235 | adds the entry without a duplicate check |
| UnorderedMaps.UnorderedMap.Insert | include/unordered_map.h:220-229 | an existing key keeps its entry; a new key is appended to its home bucket; the returned position holds the key |
| UnorderedMaps.UnorderedMap.Find | include/unordered_map.h:237-249 | returns the key's entry, or a position equal to end exactly when the key is absent |
| UnorderedMaps.UnorderedMap.MissingFromBucket | include/unordered_map.h:237-249 | a key absent from its home bucket is absent from the map |

## Left out

- The scanner, the input buffer, the symbol table, the drivers and the exception classes are not modelled. Only the automaton they use and the file position it updates are.
- Diagnostics are not modelled. This covers the text of `write_error_message`, the message built by `handle_error`, `collect_neighbours` (which picks the lines to quote), and every `operator<<`. Errors are modelled as logged records.
- Callbacks of callback-final states are returned as events rather than invoked. The `std::function` call is outside the model.
- Token texts (identifier lexemes, integer values) are parameters of the model. The symbol table that owns them is not modelled.
- `check_op` (src/type_check.cpp:374) does nothing in the source. No member models it.
- The emitter returns instruction values, not text written to a stream. The label counter, a function-static variable in the source, is a field threaded through the emitter.
- Code for a program whose labels run out is not modelled. The model returns `LabelsExhausted`, where the source has written part of the code before it throws.
- MakeCodes.MakeCode: the model requires every empty operator tail to be typed NONE (`Annotated`). The type checker establishes this; the emitter alone does not check it.
- The stack-machine effect of each instruction (its pops and pushes) is the model's assumption about the target machine. The source does not state it.
- Parsers.Parser.Process and Parsers.Parser.Finalize take a fuel bound and return `None` when it runs out, because the source loop has no termination argument. With an empty lookup body the source can loop on an EPSILON expansion.
- Parsers.Parser.IsEpsilonReplaceable: the recursion of `is_epsilon_replaceable` is bounded by a depth fuel. A left-recursive grammar, which the source recurses on without bound, gives `false` once the fuel runs out.
- Pointer identity and iterator internals are not modelled: states are arena indices, buckets and entries are positions, and `begin()`/`next()` iteration is replaced by sequences.
- UnorderedMaps: the key comparator is modelled as `==` and the hash as a function parameter. The factors 0.7 and 1.4 are exact rationals with rounding down, not doubles.
- UnorderedMaps.UnorderedMap.ForceInsert: after a resize the public overload returns the original hint's bucket while the entry went to its home bucket. The model returns where the entry actually is.
- UnorderedMaps.UnorderedMap.Insert: the source can resize a second time inside `force_insert`. The model proves that this never happens after the first `resize_on_demand(1)`.
- The unused range constructor of the map, and the copy and move constructors of all containers, are not modelled.
- Accessors of `Value`, `Rule` and `TreeData` are datatype destructors.
- `UnsupportedDirectionException` cannot arise: `Direction` has exactly two values.
- Doubles.ToDouble: only non-negative integers are converted; sizes at or beyond 2^64, where `size_t` would wrap or the cast would be undefined, are not modelled.
- Vectors.Vector.FreeCapacity and Vectors.Vector.PopBack: `Utility/container/vector.h` in this snapshot declares neither `free_capacity` nor `pop_back`, yet `Utility/container/string.cpp` calls both. The model takes `free_capacity()` as the capacity minus the size and `pop_back()` as dropping the last element while keeping the buffer.
- Strings.String.Append and Strings.String.AppendAsWritten require the appended string to be a different object, so `s += s` is not modelled; no caller appends a string to itself.
- FilePositions: `operator<<` of the position is left out.
- ParserTables.InitBranchMatrix requires `Tabulable`: every variable that heads a rule or appears in a production has an ordinal below the number of rules, because the matrix is only that many columns wide, and no FIRST or FOLLOW list names ENUM_ENTRY_COUNT. The source does not check this. Its only caller, at src/main.cpp:61-62, passes the shipped grammar of 11 rules over the 11 variables, which meets it.

## Findings

| source | as written | input that shows it | evidently intended | confidence | as-written member | corrected member |
|---|---|---|---|---|---|---|
| src/finite_state_machine.cpp:147 | the branch matrix is 127 columns wide, so symbol 0x7F of state s is stored in column 0 of state s + 1 | states {crash, start, final}, with a transition from start on 0x7F to final: cell (2, 0) then reads 2 instead of crash | 128 columns, one per 7-bit symbol | not executed | Automaton.TableAsWrittenAliases | Automaton.TableCell |
| Utility/container/string.cpp:13 | `operator+(String)` copies the right operand's terminator as well, so the sum holds an embedded NUL and reports one character too many | "a" + "b" has size 3 and ends in NUL | copy the right operand without its terminator | not executed | Strings.PlusEmbedsTerminator | Strings.String.Plus |
| Utility/container/string.cpp:47 | `find_last_of` returns `current.base()`, one past the match; for a match at the last character this equals `cend()`, the not-found value | "ab\n" searched for "\n" returns 3, the size | the position of the last match | not executed | Strings.FindLastOfLineFeedAtEnd | Strings.String.FindLastOf |
| Utility/container/string.cpp:31 | when `+=` must reallocate, it swaps in `*this + source`, whose `operator+` keeps the source's terminator, so the result holds an embedded NUL | in `reconstruct_source`, a first token of 16 characters does not fit the 15 free slots of a fresh `String`, and the output becomes 17 characters ending in NUL | append the source without its terminator on both branches | not executed | TypeChecks.ReconstructLongFirstTokenAsWritten | Strings.String.Append |
