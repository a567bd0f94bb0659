# A verified model of mtail

mtail compiles small pattern/action programs to bytecode, runs the bytecode
once per log line, and keeps the results in labelled metrics.  This project
models five parts of it in Dafny and proves what they are for.

**Compiler and machine** (`Syntax`, `Source`, `Semantics`, `Values`, `Machine`,
`Compile`, `Refine`, `Correct`, `Decorators`, `Numbering`, `Captures`,
`CodeGen`, `Pipeline`, `Scopes`, `Vm`, `Scoping`, `Parting`, `Comparisons`,
`Appends`, `Nested`).  `Source` says what a program means as it is written,
with no stack, no jumps and no pointers, no inlining and no slots: an evaluator
over metrics that are maps from label tuple to value, in which `next` runs the
block that waits for it and each application of a decorator has its own
matches.  `Semantics` is the same for one statement without decorators, and
`Numbering` proves that inlining and numbering change nothing: the text of the
program stays as it is, and its numbering evaluates to what the source means.
`Values` says what operators and conversions give without saying how.
`Machine` is the bytecode machine as functions, `Vm` the same
machine as the imperative class it is.  `CodeGen` is the one-pass generator:
it appends instructions, hands out labels, patches jumps afterwards and
inlines decorators through a stack of pending blocks.  `Pipeline.EndToEnd`
joins them: for every checked program in the fragment whose captures are clean
(see below), every line and every starting storage, the generated code
terminates within one cycle per instruction and leaves the metrics, and the
outcome, that the program means.  `Pipeline.SharedSlotsRun` says what the
code does when they are not.  `Scopes` is the checker's walk over scopes and
decorators: `Scopes.AcceptsVisible` derives what the compiler theorem asks of a
checked program from what the checker tests, and `Scopes.AcceptedRun` and
`Vm.RunOnLine` start from there.
Integer arithmetic wraps at 64 bits and divides toward zero; regular
expression search, number parsing and printing, the order of floats, bitwise
operations and powers are unknown functions shared by both sides.  A
comparison carries what the generator knows of its left operand, a type or a
type variable; `Comparisons` is about the second kind.  The operand of `dload`
is the number of index expressions in the source; the generator writes the number of
the metric's keys (internal/vm/codegen/codegen.go:226), which is the same
because the checker rejects a wrong number of keys
(internal/vm/checker/checker.go:603-622).

**Type inference** (`Types`, `Unify`, `Checker`, `RegexClass`, `Numerals`).
`Unify` is the heap of type variables with instance links, path compression and the occurs
check.  A ghost substitution says what the links stand for; every operation is
proved against it.  `Numerals` says when an Int capture can be read as a number.

**Metric store** (`Labels`, `Metric`, `Store`, `Histogram`).  The label list is
a slice that is shifted in place, also while it is being ranged over; it is
proved to behave as a map.

**Log stream** (`Utf8`, `LineDecoder`, `FileStream`).  UTF-8 is checked against
sections 3 and 4 of RFC 3629; the file stream is a state machine over reads,
truncation, rotation, deletion, stop and cancel.

**Loader and pattern text** (`Loader`, `RegexLexer`).

## Where a promise fails

Where the exact condition is proved the entry says "if and only if".

- *Captures across nested applications.*  A pattern node remembers only the
  slot of its last emission, so a capture reference behind `next` may read the
  match of an inner application of the same decorator.
  `Captures.SlotsScoped`: the slots are right if and only if the program is
  `Clean`, a left-to-right scan of the source.  `Nested.NestedCapture`: a
  program the checker accepts for which the code fails at run time.
- *Comparing strings without a type.*  Where the left operand of a comparison
  has a type variable for a type, as metrics, but for `text` ones without keys,
  and calls of builtins have (`Checker.CheckedCmp`), the generator emits `cmp`, which tries numbers first.
  `Comparisons.UntypedIntegers`: between Int operands that makes no difference.
  `Comparisons.UntypedStrings`: with a given string on the left it is the
  comparison of strings, for every string on the right and all six relations,
  if and only if the left one does not parse as a number.
  `Comparisons.TenIsTen`: `tolower($1) == "10"` holds on `1E1`.
  `Comparisons.NumberAgainstWord`: `tolower($1) == "foo"` on `5` ends the line
  with an error.
- *`+=` on a String metric.*  The left side is walked twice.
  `Appends.AppendOnce`: it is one update of one cell if the index expressions
  neither count nor search.  `Appends.AppendElsewhere`: `m[n++] += "x"` replaces
  the text of one cell by that of another.
- *Expiry pass.*  Removing an entry moves its successor under the loop's feet.
  `Metric.PassComplete`: one pass removes everything expired if and only if no
  expired entry is followed by an expired entry that is not the last.
  `Metric.PassesSettle`: repeated passes always finish the job.
- *Reload forgets expiry.*  `Store.ExpiryForgotten`.
- *Reads that end inside a character.*  `LineDecoder.PiecesAgree`: reading in
  pieces equals reading at once if and only if no piece ends inside a
  character.
- *Rotation drops the unfinished line, and may strand the stream.*
  `FileStream.RunAccounted` and `FileStream.RotationStrands`: if the new file
  cannot be opened the stream ends without ever being complete.
- *A truncated file that has grown again.*  `FileStream.RunTracked`: truncation
  loses nothing as long as the stream looks at the size before the file has
  grown past the offset.  `FileStream.RegrownUnseen`: otherwise the old
  beginning is joined to the new end, and that is the file if and only if its
  beginning was put back as it was.
- *Unloaded programs never end.*  `Loader.ShutdownCloses`: after shutdown
  exactly the machines of unloaded programs are still waiting for lines.
  `Loader.LateLoadStays`: a program loaded after shutdown joins them, unless
  its own name is loaded again.
- *Pattern printing.*  `RegexLexer.RoundTrip` holds if and only if the text is
  one the lexer can produce.
- *Folded literals.*  `RegexClass.FoldExact`: the analysis of what a capture
  group can hold is sound for a set of runes if and only if the set is closed
  under case folding.
- *An Int capture need not hold a number.*  `Numerals.IntNumeral`: the words of
  a capture inferred Int are all numerals, an optional sign and then digits, if
  and only if the image of the start state under the tree, computed operator by
  operator, holds no other state than "digits".  `Numerals.IntMayBeEmpty`:
  `([0-9]*)` fails it.  A numeral too large for 64 bits is not excluded.
- *Equality of types with arguments.*  `Checker.EqualsExact`: `Equals` is
  equality, whatever it is given on the right, if and only if its left side is
  an operator without arguments.
- *Division by a literal zero.*  `Checker.CheckArith`: refused if and only if
  the literal needs no conversion, so `1.5 / 0` is accepted.

### `otherwise` and `else`

docs/Language.md gives each block its own `otherwise`; the code runs an else
block under the flag of the block around it.  `Scoping.OtherwiseDocumented`:
on every line and in every state the two give the same outcome, metrics and
matches for a program that passes a left-to-right scan, which follows what the
two flags can be and objects only to an `otherwise` met where they can differ.
`Scoping.FollowExact`: it objects if and only if some outcome of the program's
conditions leads there.  `Scoping.RunFollows`: every run is such a way through
the program, and ends alike in both readings unless it gets there.
`Scoping.FlagsAfterElse`, on every run: after an else
block the flags are the same if and only if a conditional of the block around
it was taken before, or none was taken inside.  `Scoping.SilentPasses` and
`Scoping.ElseSafePasses`: a program without `otherwise`, and one whose else
blocks hold no conditional, always pass.  `Scoping.ElseLeaksOut` and
`Scoping.ElseLeaksIn` are programs that end differently on some line.

`Parting.PartsExactly`: take a program whose conditions are patterns and
`otherwise`, no pattern deciding twice, and a state from which it does not fail
whichever patterns are found.  The scan passes it if and only if there is no
line on which the two readings come to an `otherwise` and answer it
differently.  That the user then sees a difference is not claimed: the block
may change nothing.

## Model

| member | source | states |
|---|---|---|
| Machine.Wrap | internal/vm/vm.go:652-698 | int64 results wrap into range, by a multiple of 2^64, and are left alone when in range |
| Machine.QuotientTruncates | internal/vm/vm.go:671-683 | division and modulus truncate toward zero for every sign of the operands: the remainder is smaller than the divisor and has the dividend's sign |
| Machine.Execute | internal/vm/vm.go:332-925 | a step leaves the program counter behind its instruction, or, for the jumps only, at the operand |
| Machine.CyclesBounded | internal/vm/vm.go:901-925 | a line is processed in at most as many instruction cycles as the program is long |
| Values.IntegerLaws | internal/vm/vm.go:652-698 | for all 64-bit operands, in the order written: `+`, `-` and `*` give the one int64 congruent to the result, `/` and `%` the one quotient cut off toward zero and its remainder, the rest what the host gives; an error exactly on division by zero |
| Values.BinaryLaws | internal/vm/vm.go:652-698 | the same of the values of an expression, once each is used as an integer |
| Values.UsedAsInt | internal/vm/vm.go:127-145 | integers, and strings read as 64-bit integers, can be used as integers, and nothing else |
| Values.UsedAsStr | internal/vm/vm.go:167-182 | strings as they are and numbers as they are printed can be used as strings, and nothing else |
| Values.IntThroughText | internal/vm/vm.go:127-182 | an integer used as a string and read back is the same integer |
| Values.StrLessParts | internal/vm/vm.go:210-221 | one string is less than another if and only if it ends first or has the smaller byte where they part |
| Values.FirstUse | internal/metrics/metric.go:138-150 | a cell not there yet reads as 0 or as the empty string, is 1 after `++` and -1 after `--`, and has no expiry |
| Semantics.EvalTarget | internal/vm/vm.go:715-741 | a metric reference yields one key per declared dimension of an existing metric, or fails |
| Compile.ProgramForward | internal/vm/codegen/codegen.go:584-601 | in compiled code every jump goes forward and lands inside the program or at its end |
| Compile.CodeJumps | internal/vm/codegen/codegen.go:320-348 | jumps inside an expression stay inside it, go forward, and so cannot skip into other code |
| Compile.StmtJumps | internal/vm/codegen/codegen.go:169-189 | the same for statements with their conditionals and else blocks |
| Refine.GetDatumSim | internal/metrics/metric.go:127-153 | looking a cell up, or creating it at zero, in the list with its heap of data is touching it in the map |
| Refine.CellAsOperand | internal/vm/vm.go:127-182 | a cell popped as an operand is the value in its table, and usable only as its own type |
| Refine.WriteSim | internal/vm/vm.go:509-522 | writing through a datum address changes exactly the cell that names it: no two cells share a datum |
| Refine.RemoveSim | internal/vm/vm.go:757-774 | `del` on the list is removal from the map, and every other cell is still there at its old address |
| Refine.ExpireSim | internal/vm/vm.go:775-792 | `del after` sets the expiry of an existing cell and fails for a missing one |
| Correct.SidesCompared | internal/vm/vm.go:223-303 | the machine sorts two operands without a type as the evaluator does: integers, floats, strings, or not comparable |
| Correct.RelFromOrder | internal/vm/codegen/codegen.go:443-487 | the six relations are what the one comparison asked for, followed by Jm or Jnm, decides, for `icmp`, `scmp` and `cmp` |
| Correct.ExprCorrect | internal/vm/codegen/codegen.go:407-559 | the code of every expression leaves its value, and nothing else, on the entry stack on every path, with the evaluator's metrics and matches; or ends the run with its error |
| Correct.LogicCorrect | internal/vm/codegen/codegen.go:320-348 | `&&` and `\|\|` run the right operand exactly when the left one does not settle the result, and give a boolean |
| Correct.CompareCorrect | internal/vm/codegen/codegen.go:443-487 | a comparison, typed or not, pushes the truth of its relation or ends the line with an error |
| Correct.JoinedCorrect | internal/vm/codegen/codegen.go:350-354 | the second walk of a String `+=` leaves the text of its cell, as it is once the value has been evaluated, with the value behind it |
| Correct.PopKeysExact | internal/vm/vm.go:715-735 | keys popped back to front are the index expressions' values in order |
| Correct.DloadCorrect | internal/vm/vm.go:715-741 | `dload` leaves the address of the cell the keys name, creating it if needed |
| Correct.StoreCorrect | internal/vm/codegen/codegen.go:488-518 | `=` and Int `+=` evaluate the cell, then the value, then change that cell only; String `+=` is a store of the joined text |
| Correct.RemoveCorrect | internal/vm/codegen/codegen.go:308-318 | `del` names its cell without creating it, and removes it or sets its expiry |
| Correct.CondCorrect | internal/vm/codegen/codegen.go:169-189 | the taken block starts with `matched` false and leaves it true; the other path leaves it as the history says |
| Correct.StmtCorrect | internal/vm/codegen/codegen.go:73-559 | every statement keeps its entry stack below what it leaves, tracks `matched` as "an earlier conditional of this block was taken", and does to the metrics what the evaluator says |
| Correct.ProgramCorrect | internal/vm/vm.go:901-925 | compiler correctness: same final metrics and same outcome, so never a pop from an empty stack |
| Decorators.ExpandNoNext | internal/vm/codegen/codegen.go:282-303 | code without a `next` of its own does not depend on the decorated block |
| Numbering.NumExprKeeps | internal/vm/codegen/codegen.go:191-262 | for all tables: but for pattern identities and slots, numbering leaves every metric, literal, operator, group and text of an expression as it is |
| Numbering.NumStmtKeeps | internal/vm/codegen/codegen.go:73-559 | the same of every statement, with slots shared or scoped |
| Numbering.ExprMeans | internal/vm/codegen/codegen.go:191-262 | the numbering of an expression evaluates to what the expression means, its matches found by slot instead of by pattern, and skipped patterns without one in both |
| Numbering.StmtMeans | internal/vm/codegen/codegen.go:282-303 | for every checked program and every stack of waiting blocks: inlined and numbered it does what the source means, `@d {B}` running d's body and `next` the block waiting |
| Captures.SlotsScoped | internal/vm/codegen/codegen.go:191-201 | the generator's slots give each capture its own instance's pattern if and only if the program is clean; the tables are the same either way |
| Captures.LeaveRel | internal/vm/codegen/codegen.go:247-262 | leaving an instance changes which slot is right exactly for the patterns it emitted again |
| Nested.NestedCapture | internal/vm/codegen/codegen.go:282-303 | a decorator applied inside its own application: the checker accepts it and every capture is in reach, but it is not clean; on a line where the program means to count `$1` once, the code ends in a runtime error |
| CodeGen.Generator.NewLabel | internal/vm/codegen/codegen.go:57-62 | a fresh label, not yet set |
| CodeGen.Generator.SetLabel | internal/vm/codegen/codegen.go:64-67 | the label now names the next instruction; no code changes |
| CodeGen.Generator.WalkExpr | internal/vm/codegen/codegen.go:407-559 | the instructions appended, with the labels as they stand, are the code of the numbered expression at the current position |
| CodeGen.Generator.WalkLogic | internal/vm/codegen/codegen.go:320-348 | the two labels of a short circuit resolve to the exits the code relation asks for |
| CodeGen.Generator.WalkCond | internal/vm/codegen/codegen.go:169-189 | label allocation, back-patching and the `matched` instructions of a conditional with or without else |
| CodeGen.Generator.WalkStmt | internal/vm/codegen/codegen.go:282-303 | `@d {B}` appends exactly the code of d's body with B in place of its `next`; the stack of pending blocks is never popped empty and ends as if each `next` had taken one |
| CodeGen.Generator.WriteJumps | internal/vm/codegen/codegen.go:584-601 | every jump operand becomes the position of its label; a label beyond the table or never set is an error, and there are no other errors |
| CodeGen.Generate | internal/vm/codegen/codegen.go:37-45 | on a checked program generation fails if and only if some emitted pattern does not compile; otherwise the object's program and tables are those of the inlined source |
| Pipeline.NumStmtOk | internal/vm/codegen/codegen.go:191-207 | the constant tables hold what the slots in the code refer to |
| Pipeline.InliningMeans | internal/vm/codegen/codegen.go:282-303 | a program inlined with slots of its own for each instance has the outcome and the metrics the source means |
| Pipeline.SharedSlotsRun | internal/vm/codegen/codegen.go:191-262 | with no condition on captures, the generated code does what the program does under the generator's own slots |
| Pipeline.EndToEnd | internal/vm/vm.go:901-925 | source to metrics: generated code run on a line does what the program as written means, within the cycle bound |
| Vm.VM.Pop | internal/vm/vm.go:88-93 | takes the top of the stack, or ends the run as an underflow |
| Vm.VM.PopInt | internal/vm/vm.go:127-145 | the popped value as an integer, or a runtime error |
| Vm.VM.CollectKeys | internal/vm/vm.go:715-735 | the loop that pops keys yields the same keys and leaves the same stack as the machine function |
| Vm.VM.Execute | internal/vm/vm.go:332-898 | the imperative instruction switch changes the registers, stack and storage as the machine function says |
| Vm.VM.ProcessLogLine | internal/vm/vm.go:901-925 | the fetch-execute loop ends as the machine's run does, in exactly its number of cycles |
| Scopes.NextTest | internal/vm/checker/checker.go:281-309 | counting the symbols of the zygote is exact: where all names are found, the checker passes a program if and only if each declaration has one `next` and nothing else has any |
| Scopes.AcceptsVisible | internal/vm/checker/checker.go:156-201 | what the checker accepts has its decorators complete before use and, once inlined, every capture reference behind its pattern: the zygote a declaration leaves covers the blocks of all its applications |
| Scopes.AcceptedRun | internal/vm/vm.go:901-925 | an accepted program whose captures are clean runs to its meaning, within the cycle bound |
| Vm.RunOnLine | internal/vm/vm.go:901-925 | generating, loading and running an accepted, clean program on a line yields its meaning, unless a pattern does not compile |
| Scoping.OtherwiseDocumented | internal/vm/codegen/codegen.go:305-306 | for a program that passes the scan, `otherwise` means what docs/Language.md says, on every line and in every state: same outcome, metrics and matches |
| Scoping.FollowExact | internal/vm/codegen/codegen.go:169-189 | the scan objects if and only if some outcome of the program's conditions brings an `otherwise` to a point where the two readings answer differently |
| Scoping.RunFollows | internal/vm/codegen/codegen.go:169-189 | every run, on every line and from any flags, follows a way through the program: the two readings end alike, with the flags the way gives, or the way brings an `otherwise` to where they differ |
| Parting.PlayTells | internal/vm/codegen/codegen.go:184-188 | played in both readings at once, a run is the same run in both until an `otherwise` is answered differently |
| Parting.PartsExactly | internal/vm/codegen/codegen.go:169-189 | for programs of patterns and `otherwise` that do not fail: the scan passes if and only if there is no line on which the two readings answer an `otherwise` differently |
| Scoping.FlagsAfterElse | internal/vm/codegen/codegen.go:184-188 | on every run, after an else block the flags of the two readings are the same if and only if a conditional was taken before it, or none inside it |
| Scoping.SilentPasses | internal/vm/codegen/codegen.go:305-306 | a program that has no `otherwise` passes the scan |
| Scoping.ElseSafePasses | internal/vm/codegen/codegen.go:169-189 | a program whose else blocks hold no conditional passes the scan |
| Scoping.FlatIgnores | internal/vm/vm.go:871-876 | a block without conditionals of its own neither looks at nor changes the `matched` flag |
| Scoping.ElseLeaksOut | internal/vm/codegen/codegen.go:184-188 | a conditional taken inside an else block silences a later `otherwise` outside it |
| Scoping.ElseLeaksIn | internal/vm/codegen/codegen.go:184-188 | a conditional taken before silences an `otherwise` inside a later else block |
| Types.CompatStable | internal/vm/types/types.go:289-348 | types once compatible stay so under every later binding |
| Unify.TypeHeap.NewVariable | internal/vm/types/types.go:71-77 | a new unbound variable; nothing else changes |
| Unify.TypeHeap.Root | internal/vm/types/types.go:80-89 | terminates on every reachable heap, returns the end of the chain, and path compression changes no root of any type |
| Unify.CompressKeeps | internal/vm/types/types.go:80-89 | pointing a variable at its root keeps the links acyclic, their meaning, and every root |
| Unify.SolvesUnique | internal/vm/types/types.go:80-107 | acyclic links determine one substitution |
| Unify.TypeHeap.OccursInType | internal/vm/types/types.go:251-260 | the occurs check answers exactly whether the variable is in the resolved type |
| Unify.BindAcyclic | internal/vm/types/types.go:103-107 | binding a variable to a root it does not occur in keeps the links acyclic |
| Unify.BindPrincipal | internal/vm/types/types.go:289-348 | the binding is no more than every unifier already does |
| Unify.OccursNoUnifier | internal/vm/types/types.go:251-260 | a variable inside an operator has no unifier with it: refusing is right |
| Unify.TypeHeap.SetInstance | internal/vm/types/types.go:103-107 | the heap stays valid, no binding is undone, and the two types are now the same |
| Unify.TypeHeap.Unify | internal/vm/types/types.go:289-348 | terminates; keeps the heap acyclic whether it succeeds or fails; on success the types have the same shape with leaves equal or having a least upper bound; if they can be made equal it succeeds and every way of doing so refines the result; an error names a real conflict |
| Unify.TypeHeap.UnifyArgs | internal/vm/types/types.go:331-338 | the argument loop does the same for all pairs, later bindings undoing none of the earlier ones, and stops at the first pair that fails; two leaves fail only if they are operators without a common type |
| Checker.ArithAccepted | internal/vm/checker/checker.go:324-345 | `t -> t -> t` unifies with concrete operand types and their bound whenever they have one |
| Unify.UnifiedEqual | internal/vm/types/types.go:289-348 | types that can be made equal are equal afterwards: the result is a most general unifier |
| Unify.NeverUndone | internal/vm/types/types.go:289-348 | over any run, types made compatible at one point are compatible at every later one |
| Unify.TypeHeap.FreshType | internal/vm/types/types.go:216-240 | the copy is the resolved scheme with its unbound variables renamed injectively to new ones |
| Checker.Equals | internal/vm/types/types.go:26-55 | for all types, what the code compares of what they resolve to: each argument on the left with the third on the right, a panic where there is no third |
| Checker.EqualsExact | internal/vm/types/types.go:46-50 | that is equality, whatever stands on the right, if and only if the left side is an operator without arguments |
| Checker.LeastUpperBound | internal/vm/types/types.go:351-402 | for all types, the bound of what they resolve to: the table for operators without arguments, Error for unequal ones with arguments |
| Checker.ChainBound | internal/vm/types/types.go:351-402 | on Undef < Int < Float < String it is the least of all upper bounds |
| Checker.MixedBound | internal/vm/types/types.go:367-402 | off that chain: Undef is below everything, Pattern with Bool or Int is Bool, Bool with Int is Int, Pattern with String is Pattern, and every other pair is an error |
| Checker.CheckArith | internal/vm/checker/checker.go:311-371 | an arithmetic node is rejected if and only if its operands have no common type or it divides by a literal zero that needs no conversion; the node has the common type, exactly the concrete operands of another type are converted, and then both have it |
| Checker.CheckCompare | internal/vm/checker/checker.go:385-418 | a comparison or logical node is Bool and rejected if and only if its operands have no common type; exactly the concrete operands of another type are converted, and then both have it |
| Checker.CompareAccepted | internal/vm/checker/checker.go:391-405 | `t -> t -> Bool` for the bound `t` unifies with concrete operand types whenever they have one |
| Checker.ChooseCmp | internal/vm/codegen/codegen.go:468-480 | the opcode for two operand types: typed only if they are equal and the left one is itself a type with such an opcode |
| Checker.CheckedCmp | internal/vm/codegen/codegen.go:468-480 | for every comparison the checker accepts: the opcode of the common type, unless the left type is a variable and the operand was not converted, when it is `cmp`, whatever the variable is bound to |
| Comparisons.CmpIsIcmp | internal/vm/vm.go:267-274 | on two integers `cmp` and `icmp` are the same instruction |
| Comparisons.UntypedIntegers | internal/vm/codegen/codegen.go:468-480 | between expressions of type Int an untyped comparison means what the typed one means |
| Comparisons.UntypedStrings | internal/vm/vm.go:288-300 | an untyped comparison with a string on the left is the string comparison, for all right sides and relations, if and only if that string does not parse as a number |
| Comparisons.TenIsTen | internal/vm/vm.go:288-291 | `tolower($1) == "10"` holds on `1E1` |
| Comparisons.NumberAgainstWord | internal/vm/vm.go:255-259 | `tolower($1) == "foo"` on `5` is an error and not false |
| Appends.Repeats | internal/vm/codegen/codegen.go:350-354 | an expression that neither counts nor searches gives the same when evaluated again, and adds nothing |
| Appends.AppendOnce | internal/vm/codegen/codegen.go:350-354 | with such index expressions a String `+=`, as the generator numbers it, is one update of one cell |
| Appends.AppendElsewhere | internal/vm/codegen/codegen.go:493-507 | with `n++` as index it stores in one cell the text of another, and creates a cell |
| RegexClass.OnlyMatchesSound | internal/vm/types/types.go:462-497 | if the analysis accepts a rune set closed under folding, every string of the language uses only those runes |
| RegexClass.OnlyMatchesExact | internal/vm/types/types.go:462-497 | on productive trees it accepts exactly when that is so |
| RegexClass.InferExact | internal/vm/types/types.go:423-444 | on productive trees a group is Int if and only if its strings are signs and digits, not signs alone, its print has a digit and it is no alternation or class; Float if and only if they are decimal, not integral, and its print has at most one point |
| RegexClass.FoldEscapes | internal/vm/types/types.go:464-470 | a folded literal is accepted for a set and matches a rune outside it whenever such a rune folds into the set |
| RegexClass.FoldExact | internal/vm/types/types.go:462-497 | for all trees and words: the analysis is sound for a set of runes if and only if the set is closed under folding |
| RegexClass.GroupFound | internal/vm/types/types.go:448-459 | the group found is what a capture node of that number holds, and none is found only if there is none |
| RegexClass.FoldInts | internal/vm/types/types.go:412-420 | an alternation is Int if and only if every alternative is |
| RegexClass.FoldFloats | internal/vm/types/types.go:412-420 | an alternation is Float if and only if all alternatives are numbers and one of them is a Float |
| RegexClass.IntCapture | internal/vm/types/types.go:406-444 | a capture inferred Int holds signs and digits only, also when its group is an alternation |
| RegexClass.FloatCapture | internal/vm/types/types.go:406-444 | a capture inferred Float holds signs, digits, points and exponent marks only |
| Numerals.ImageExact | internal/vm/types/types.go:462-497 | the image computed on the tree is exactly the states the words of its language lead to |
| Numerals.NumeralsExact | internal/vm/types/types.go:423-435 | all words of a tree are numerals if and only if its image of the start state is "digits" only |
| Numerals.IntNumeral | internal/vm/types/types.go:406-435 | the words of a capture inferred Int are all numerals if and only if that holds of its group |
| Numerals.IntMayBeEmpty | internal/vm/types/types.go:423-444 | `[0-9]*`, as Go prints it, is inferred Int and matches the empty string |
| Labels.AsMapAppend | internal/metrics/metric.go:150 | appending an absent tuple adds one binding |
| Labels.AsMapWithout | internal/metrics/metric.go:162-171 | removal takes away one binding |
| Labels.AsMapUpdate | internal/metrics/metric.go:181-184 | setting an expiry changes one binding |
| Labels.WithoutWellFormed | internal/metrics/metric.go:156-173 | removal keeps tuples distinct and of full length |
| Metric.StepRefines | internal/metrics/metric.go:127-186 | each operation on the list, errors included, is the operation on the map, and keeps tuples distinct |
| Metric.RunRefines | internal/metrics/metric.go:112-186 | over every sequence of operations the list gives the same replies as the map |
| Metric.Metric.FindLabelValueOrNil | internal/metrics/metric.go:112-123 | the nested search finds the first entry with these labels |
| Metric.Metric.GetDatum | internal/metrics/metric.go:127-153 | the slice and the reply are those of the list operation |
| Metric.Metric.RemoveDatum | internal/metrics/metric.go:156-173 | in-place deletion inside the loop that ranges over the same slice removes exactly the entry asked for |
| Metric.Metric.ExpireDatum | internal/metrics/metric.go:175-186 | sets one expiry, or fails |
| Metric.Metric.ExpirePass | internal/metrics/store.go:154-166 | what one expiry pass over the shifting slice leaves |
| Metric.PassSound | internal/metrics/store.go:154-166 | a pass drops expired entries only and keeps the others in order |
| Metric.PassSpares | internal/metrics/store.go:154-166 | a pass spares every entry without an expiry or not older than it, and adds none |
| Metric.LiveExact | internal/metrics/store.go:156-161 | the live entries are exactly those without an expiry or not older than it |
| Metric.PassProgress | internal/metrics/store.go:154-166 | it drops something if and only if something has expired |
| Metric.PassesSettle | internal/metrics/store.go:171-191 | repeated passes end with exactly the unexpired entries |
| Metric.PassComplete | internal/metrics/store.go:154-166 | one pass is enough if and only if no expired entry shadows another |
| Store.Store.Add | internal/metrics/store.go:33-93 | keeps the store valid; a kind clash leaves it alone; otherwise the new metric replaces its predecessor with its data merged in |
| Store.AddedUnlessClash | internal/metrics/store.go:37-41 | an Add succeeds if and only if every metric of that name has the same kind |
| Store.AddedValid | internal/metrics/store.go:33-93 | one kind per name, for ever, and one metric per name, program, type and source |
| Store.MergedMeaning | internal/metrics/store.go:68-79 | old data for every old tuple, the new metric's own data for the rest |
| Store.AddedCurrent | internal/metrics/store.go:44-93 | with equal keys the stored metric is that overlay; with changed keys the old data are discarded |
| Store.AddedOthers | internal/metrics/store.go:48-57 | metrics of other identities are not touched |
| Store.DataSurvive | internal/metrics/store.go:33-93 | a tuple keeps its datum over any number of Adds, failed ones included, while the keys stay |
| Store.ExpiryForgotten | internal/metrics/store.go:77 | the merged tuple has expiry zero |
| Store.Store.FindMetricOrNil | internal/metrics/store.go:96-110 | finds the first metric of the program under that name, or none if there is none |
| Histogram.BuildRanges | internal/vm/codegen/codegen.go:128-151 | accepted if and only if there are two or more ascending boundaries; the ranges then run edge to edge to infinity |
| Histogram.Partition | internal/vm/codegen/codegen.go:128-151 | every value above the lowest edge is in exactly one range, no other value in any |
| Histogram.Buckets.constructor | internal/metrics/datum/datum.go:97-113 | a list reaching infinity is kept as it is; any other gets one more bucket from its highest bound, or zero, to infinity; all counts are zero |
| Histogram.Buckets.Observe | internal/metrics/datum/buckets.go:42-57 | for any ranges, each count stays the number of observations whose first containing range it is; count and sum follow |
| Histogram.CountFirstIn | internal/metrics/datum/buckets.go:46-51 | on generated ranges that is the number of observations in the range |
| Histogram.Buckets.GetBuckets | internal/metrics/datum/buckets.go:79-88 | the count of every range, the last one's where ranges repeat |
| Histogram.Buckets.GetBucketsCumByMax | internal/metrics/datum/datum.go:240-259 | for every upper bound, the number of observations above the lowest edge and up to it, whatever order the map is read in |
| Histogram.CumulativeOrdered | internal/metrics/datum/datum.go:240-259 | cumulative counts never fall and never exceed the total |
| Histogram.CumulativeTotal | internal/metrics/datum/datum.go:240-259 | the last one counts every observation above the lowest edge exactly once |
| Utf8.DecodeGrammar | internal/tailer/logstream/decode.go:27 | the decoder takes exactly the sequences of RFC 3629 section 4, whole; anything else is one replacement character per byte |
| Utf8.DecodeEncode | internal/tailer/logstream/decode.go:27-30 | every scalar value written is read back, whatever follows |
| Utf8.EncodeDecode | internal/tailer/logstream/decode.go:27-30 | a well-formed character is written back byte for byte |
| LineDecoder.Decoder.DecodeAndSend | internal/tailer/logstream/decode.go:20-34 | the loop sends and keeps what the decoding of the buffer says |
| LineDecoder.Decoder.SendLine | internal/tailer/logstream/decode.go:36-41 | the partial line is sent and reset |
| LineDecoder.LinesCounted | internal/tailer/logstream/decode.go:20-41 | for every byte string and every cut into reads, one line per newline byte |
| LineDecoder.PiecesAgree | internal/tailer/logstream/decode.go:20-41 | reads in pieces give the same lines and leftover as one read if and only if no piece ends inside a character |
| LineDecoder.Faithful | internal/tailer/logstream/decode.go:20-41 | on well-formed UTF-8 the lines are the input split at newlines, byte for byte |
| FileStream.RunAccounted | internal/tailer/logstream/filestream.go:101-236 | on every run, lines and partial are the in-order decoding of each stretch of reading; truncation, stop, cancel and deletion flush, rotation drops |
| FileStream.RunAtEnd | internal/tailer/logstream/filestream.go:183-236 | without a cancel, a stream completes only after a read at end of file, and only if stopped or deleted |
| FileStream.RunDrained | internal/tailer/logstream/filestream.go:101-236 | without truncation, what was read is the file from where the stretch began, and a completed uncancelled stream has read all its file held |
| FileStream.TruncationRestarts | internal/tailer/logstream/filestream.go:160-179 | at end of file, a file shorter than the offset is read again from its beginning, the partial line sent |
| FileStream.RunTracked | internal/tailer/logstream/filestream.go:160-179 | what `RunDrained` says, on every run whose truncations are noticed: the file stays shorter than the offset until its size is looked at |
| FileStream.GrownMet | internal/tailer/logstream/filestream.go:101-236 | runs without truncation are among them |
| FileStream.RegrownUnseen | internal/tailer/logstream/filestream.go:160-166 | a truncation that has grown past the offset goes unnoticed, and the stretch is the file's if and only if its beginning is as it was |
| FileStream.RunFromStart | internal/tailer/logstream/filestream.go:147-179 | after a rotation or truncation reading starts at zero, on every run in which no rewind fails |
| FileStream.CheckCompletes | internal/tailer/logstream/filestream.go:183-214 | the tests before sleeping complete the stream if and only if it is cancelled, or stopped and at end of file |
| FileStream.FileDelivered | internal/tailer/logstream/filestream.go:65-241 | on those runs the last stretch of a stream that completes without a cancel sent the file's bytes split at newlines, and the rest |
| FileStream.RotationStrands | internal/tailer/logstream/filestream.go:147-153 | a rotation to a file that cannot be opened ends the stream without it ever being complete |
| FileStream.FileStream.Loop | internal/tailer/logstream/filestream.go:101-236 | one pass of the loop body, with the answers the system gives it, changes the stream as `Pass` says |
| FileStream.PassIsRun | internal/tailer/logstream/filestream.go:101-236 | every pass is a run of the state machine's own steps, in a world that gives those answers |
| FileStream.PassAccounted | internal/tailer/logstream/filestream.go:101-236 | so a pass keeps what every run keeps: lines and partial are the decoding of what was read |
| FileStream.FileStream.Finish | internal/tailer/logstream/filestream.go:196-214 | flush a non-empty partial line, then complete |
| Loader.LoaderSafe | internal/vm/loader.go:376-422 | in every interleaving from start-up: no send on or close of a closed channel, and every served name has exactly the lines it is due |
| Loader.RunNoFault | internal/vm/loader.go:243-262 | the lock keeps sends and closes apart |
| Loader.LoadTakesOver | internal/vm/loader.go:201-263 | a load of a new text that compiles ends with that text under the name, a new open channel, the old one closed, and all else as before |
| Loader.SameTextIgnored | internal/vm/loader.go:211-217 | a load of the text already running does nothing |
| Loader.RunConserved | internal/vm/loader.go:201-263 | over loads that succeed or fail, the successive machines of a name receive the dispatched lines with none lost, doubled or reordered |
| Loader.ShutdownCloses | internal/vm/loader.go:412-422 | at shutdown all channels close except those of unloaded programs |
| Loader.LateLoadStays | internal/vm/loader.go:243-262 | after shutdown an open channel stays open, whatever else is loaded or unloaded, as long as no load of its own name is under way or to come |
| RegexLexer.Lexer.LexRegex | internal/vm/parser/lexer.go:550-581 | the state function emits the token, and stops at the position, that lexing computes, for unterminated patterns too |
| RegexLexer.RoundTrip | internal/vm/parser/unparser.go:94-95 | printing and lexing again gives the same text if and only if it is producible |
| RegexLexer.Range | internal/vm/parser/lexer.go:550-581 | the lexer produces exactly the producible texts, so each of them survives printing |

## Left out

- `Unify.TypeHeap.Unify`: which side an error calls expected is not stated; errors are otherwise only text for the user.
- Float metrics and arithmetic, `strptime`, `settime`, `timestamp`, `strtol` with a base: the compiler theorem covers Int and String; rounding and clocks are outside it.
- Metric kinds in the compiler theorem: a metric has a type, Int or String, and no kind, so a `text` metric and any other metric of type String are one and the same.  Histograms and timers, which hold floats, are outside it; assignment to a histogram is modelled on its own in Histogram.dfy.
- Float `+=`, and `fcmp`: no float is ever on the stack; `cmp` parses floats out of strings and is modelled with that.
- `Correct.ProgramCorrect`: int and string operands only; time stamps of data, and the runtime error text, are not part of storage.
- Variable and decorator declarations: they emit no code; declarations are given as the list of decorators and the starting storage.
- The checker's depth limit, symbol usage and redeclaration errors: they only reject further programs.  Declarations stand at the top level, and references are given with the pattern their name was found to mean.
- The parser and its tables: source programs are given as syntax trees.
- After a pattern that does not compile the generator goes on without its instruction; the model goes on with it, as nothing is returned in either case.
- `CodeGen.Generator.WriteJumps`: a jump operand equal to the length of the label table passes the source's test and then panics; it is excluded, and no generated code has one.
- `Machine.Execute`: the same opcodes are absent.
- `Vm.VM.Execute`: the opcodes for floats and time, `fcmp` among them, and `s2i` with a base are not modelled.
- `Checker.CheckArith`: operand types are variables or operators without arguments; the checker gives no other type to an expression it has not already rejected.
- `Checker.CheckCompare`: the same operand types.
- Assignment, bitwise and match nodes of the checker: they follow the pattern of these two and are not repeated.
- `Scoping.OtherwiseDocumented`: the converse, that a program the scan objects to ends differently on some line, is not stated; `Parting.PartsExactly` has it for the answers.
- `Appends.AppendOnce`: one direction; whether two evaluations of an index that counts or searches name the same cell depends on the line.
- `Metric.Metric.ExpirePass`: one metric and no machine running beside the pass; Gc applies it to each metric in turn, with ages taken at its start.
- `Store.Store.Add`: metrics are values, so a machine that still holds the old metric, and the locks, are not modelled.
- `Histogram.Buckets.Observe`: real numbers and positive infinity, no rounding or NaN; counts are unbounded.
- Map iteration order, logging, counters and JSON output.
- `FileStream.RunTracked`: a truncation that regrows past the offset before it is noticed is not covered; the code cannot detect it.
- Two signals racing within one test of the loop are taken as already visible to it; the wake-up schedule is arbitrary.
- Pipe and socket streams, the tailer around them, and the wakers.
- `Loader.RunConserved`: that a machine eventually takes the line offered to it is assumed by the send step; program errors are not tracked.
- Columns, lines and byte widths of tokens, and all tokens but patterns.
