# Separan in Dafny

Models of the parts of the Separan language whose rules are hardest to keep right, with proofs for all inputs and all
runs. Nothing here runs Separan programs; Dafny checks the proofs with `dafny verify dfyconfig.toml`.

## What is modelled

**The typed store** (`reference/separan/interpreter.py`). The first assignment fixes the type of a variable. The
element type of a list is a partial specification that is only ever refined. `TypeSpecs` has that order, `Trees` the
values with what normalising and clearing do to them, and `StoreSpec` the operations on lists as values. `StoreExact`
has each operation as a relation between what was there and what is there afterwards, and proves that it succeeds
exactly when there is such an outcome and leaves that one; `StoreErrors` tells the error code otherwise. `StoreLaws`
says which slots an operation touches. The real lists are shared, mutable objects: `HeapLists`, `Stores` and
`Bindings` execute the same operations on list objects, as the interpreter does, with its loops, its copying and its
updates in place. `StoreRuns`, `RunsExact`, `RunErrors` and `Machines` are about whole runs: a run on shared objects
ends like the run on values, every list object stands in one place of one variable, and every variable conforms to its
type at every depth, also when lists are handed to calls and returned from them. In every environment that stays open,
the global one among them, no declared type ever changes and element types only move upward. `ShapeCalls` is about the
list shape operations whose arguments call SEPs, which may replace the list in between.

**The interpreter and the firmware compiler** (`reference/separan/interpreter.py`,
`reference/separan/embedded_firmware.py`). `Semantics` says what a program means, on the values and typed variables of
the store; `Interpreters` is the object that switches environments while it runs. `EvaluatorLaws`, `OperatorLaws` and
`ControlLaws` say what the semantics means, without the semantics' own terms: what is written is what is read,
operators by what makes their results unique, control statements by the simpler statements that they stand for, and
all of it independent of how long a run is allowed to be. Whatever a SEP throws, catches, returns or fails with, the
environment of its caller is current again and unchanged behind the call, and so are the globals, as long as no
indexed assignment or shape operation reaches them. `Firmware` and `Emitters` translate function-scoped SEPs into
block-scoped C++ (`Cpp`), and `CallOrder` puts every SEP behind those it calls. `Emittable` tells from the source
which programs can be emitted. `CppTypes` is what C++ checks before anything runs, unreached code included:
declarations, types of operands, the type deduced from the returns of a SEP, and SEPs with parameters as templates.
`CppSafety` proves that firmware that passes never gets stuck. `Portability` has conditions on the source that can be
checked beforehand. Under them, `Simulation` proves that firmware that C++ accepts finishes with the interpreter's
result and prints what the interpreter prints, whenever the interpreter finishes without an error; `FrameAgreement` is
the relation between the two kinds of scope. `NumericPrograms` has a class of programs, told from the source, that C++
always accepts. `EmittedCalls` shows which calls find their functions, and `Discrepancies` has programs for which the
two differ.

**The front end** (`reference/separan/lexer.py`, `reference/separan/parser.py`). `LexicalRules`, `Scanners` and
`StringLiterals` take source text to tokens; `Spellings` ties every kind of token to its spelling, and `WrittenLines`
proves that whatever is written as tokens, lines and comments is read back as that. `Expressions`, `Statements` and
`Programs` say what every method of the parser reads, builds and leaves behind; `Parsers` is the parser itself, with
its cursor and its stack of open blocks, proved against them. `Grammar` has the written form of an expression tree and
the precedence ladder; `ExpressionSoundness`, `ExpressionCompleteness` and `ExpressionLaws` prove that parser and
ladder describe the same language. `StatementGrammar` has the written form of statements and programs and says which
of them are well formed; `StatementCompleteness` and `StatementSoundness` prove that the parser returns each of these
from its written form, and nothing else, and `StatementYield` that the tokens of an accepted program are, line for
line, the written form of the tree that comes out. `BlockDiscipline` proves that the blocks of accepted programs are
well nested, `BlockErrors` which error a wrong closer is, and `Recovery` where parsing goes on behind an error and
that nothing else is lost. `Frontend` puts the parts together.

**Two smaller parts**: the line formatter (`Formatter`) and conversion between integers and their digits in a base
from 2 to 36 (`BaseConversion`).

Methods that change things step by step are methods here too, and each is proved to do what a function of the same
module group says; the promises of the language are then lemmas about those functions. Runs are indexed by fuel that
bounds loop iterations and the nesting of calls; a theorem about finished runs holds for every fuel.

## What the proofs brought to light

The models follow the code where it surprises:

- A `for` whose variable is in use already means something else in firmware, because C++ declares a second variable:
  `Discrepancies.ShadowedLoopVariable` has a program for which the interpreter prints 0 and the firmware 5. The
  conditions of `Portability` exclude this, and two relatives of it: a body that assigns the loop variable, and bounds
  that call a SEP, read what the body assigns or read the loop variable, because C++ evaluates them in every round. A
  `for` over a display of numbers is excluded as well, since its elements become doubles.
- The compiler emits firmware that C++ rejects, although the interpreter finishes the program: a main that returns a
  text, which is cast to an integer (`Discrepancies.TextFromMain`); a SEP with returned values of two types
  (`Discrepancies.TwoReturnTypes`); and a SEP that calls `main`, for which there is no C++ function, even if that SEP
  is never called (`Discrepancies.CallOfMain`; `EmittedCalls.CallsAreDeclared` says that these calls are the only ones
  without a function). `CppTypes.Compiles` decides which firmware is accepted; it refuses more than C++ where that
  converts silently between truth values, numbers and characters, or only warns of a path without a return.
- Firmware divides integers towards zero, and the interpreter rounds down: -7 // 2 is -3 in firmware and -4 otherwise.
  `Discrepancies.DivisionTruncates` has the exact condition under which `//` and `%` agree: nothing remains, or both
  operands have the same sign. 7 / 2 is 3 in firmware and 3.5 otherwise (`Discrepancies.QuotientsAreTruncated`). The
  conditions of `Portability` exclude these operators.
- `print_error` is emitted as an ordinary print, so the two output streams of a program become one.
- Keywords are found in any letter case, but four places go by the spelling. `a IN b == c` passes the check against
  chained comparisons (`ExpressionLaws.ShoutedChainIsAccepted`; `ExpressionLaws.ChainsAreShouted` says that nothing
  else does). The selector `FRONT` acts as `back` (`Frontend.FrontIsReadInAnyCase`; `StoreLaws.SelectorPicks` has the
  exact condition for all four list operations). `NOT` is taken for an arithmetic negation: `NOT 5` is -5, and `NOT
  true` is refused with E201 (`Semantics.NegationIsSpelled`). `a IN b` of two present values, neither of them
  temporal, ends in an internal error of the interpreter, which no catch sees (`Semantics.OperatorsAreSpelled`); with
  a temporal value it is refused with E408, which a catch sees.
- A shape operation fetches its list before it evaluates the other arguments. `list_insert(g, 0, f())` where `f` does
  `g[0] = x` inserts into a list that is no longer the value of `g`, and the slots are lost
  (`ShapeCalls.InsertionIsLost`; `ShapeCalls.ShapeCall` has the exact condition).
- Assigning an EMPTY of one type to a variable of another is no error: the variable gets an EMPTY of its own type.
- `define_const` keeps the list object it is given without copying it. A constant without a declared type may
  therefore share its list with a variable, so runs of the store do not have such constants.
- The interpreter negates the number behind any unary operator that it does not know. A unary plus would be one, and
  C++ would not negate, but the parser never produces it.

## Model

| member | source | states |
|---|---|---|
| TypeSpecs.MergeIsLeastUpperBound | reference/separan/interpreter.py:255-260 | for compatible specifications, merging gives the least upper bound in the refinement order: it refines both, and is refined by every common refinement |
| TypeSpecs.CompatibleIffBounded | reference/separan/interpreter.py:248-252 | two specifications are compatible if and only if some specification refines both |
| Trees.ValueSpecIsLeast | reference/separan/interpreter.py:242-245 | the type of a value is refined by exactly those specifications that cover the value at every depth; a value without a type is covered by none |
| Trees.ElementSpecIsLeast | reference/separan/interpreter.py:281-297 | the element type of a list is the least specification covering all elements, and the computation fails exactly when no specification covers them |
| Trees.ElementSpecIgnoresOrder | reference/separan/interpreter.py:281-297 | permuting the elements changes neither whether there is an element type nor which one it is |
| Trees.NormalizeConforms | reference/separan/interpreter.py:268-278 | a normalised value conforms to the specification at every depth, and differs from the original only in the types its EMPTY slots retain |
| Trees.NormalizeIffDetermined | reference/separan/interpreter.py:300-308 | a covered value can be normalised if and only if no nonempty list in it meets an unknown element type; otherwise the code is E134 |
| Trees.NormalizeIsIdentity | reference/separan/interpreter.py:268-278 | normalising a conforming value to its own specification changes nothing |
| Trees.ConformingFitsRefined | reference/separan/interpreter.py:300-308 | a conforming value is still covered, and can still be normalised, when its specification is refined |
| Trees.ClearKeepsShape | reference/separan/interpreter.py:311-332 | clearing keeps the length of every list at every depth, leaves EMPTY leaves only (the cleared container is EMPTYS), and clearing twice is clearing once |
| Trees.ClearConforms | reference/separan/interpreter.py:319-332 | a cleared conforming value still conforms to its specification |
| StoreExact.NormalizeIff | reference/separan/interpreter.py:268-308 | normalising gives the one value that conforms to the specification and differs from the original in the types of EMPTY slots only; it fails if and only if there is no such value |
| StoreSpec.IntroduceIsTyped | reference/separan/interpreter.py:123-136 | a variable created by its first assignment conforms to the type inferred for it; what it holds is in `StoreExact.IntroduceIff` |
| StoreSpec.ReassignIsTyped | reference/separan/interpreter.py:101-122 | an assignment that succeeds keeps the variable conforming and its declared type, and moves its element type upward only |
| StoreSpec.DefineIsTyped | reference/separan/interpreter.py:150-162 | a typed definition that succeeds gives a variable that conforms to the declared type |
| StoreSpec.FinalNormalizeSucceeds | reference/separan/interpreter.py:224-225 | once an indexed assignment has computed its update, the normalisation that follows cannot fail: it fails as a whole or not at all |
| StoreSpec.AssignIndexesIsTyped | reference/separan/interpreter.py:173-225 | an indexed assignment at any depth keeps the variable conforming, its declared type, and moves its element type upward only |
| StoreSpec.ReshapeVariableIsTyped | reference/separan/interpreter.py:838-905 | every list shape operation keeps the variable conforming to its unchanged type |
| StoreExact.IntroduceIff | reference/separan/interpreter.py:123-136 | a first assignment makes the one variable that holds the value, up to the types of EMPTY slots, conforms at every depth and has the least type that covers the value; it fails if and only if there is none |
| StoreExact.ReassignIff | reference/separan/interpreter.py:101-122 | an assignment makes the one variable of the same declared type that holds the value and has the least refinement of its type that covers it; EMPTY gives a typed EMPTY, and EMPTYS the cleared container; it fails if and only if there is none |
| StoreExact.DefineIff | reference/separan/interpreter.py:150-162 | a typed definition makes the one variable that has exactly the declared type and holds the value, and it succeeds if and only if some refinement of that type covers the value and the value can be kept in the declared type |
| StoreExact.AssignIndexesIff | reference/separan/interpreter.py:173-225 | an indexed assignment makes the one variable that differs in the addressed slot only, holds the value there, and has the least element type that covers it at this depth; it fails if and only if there is none |
| StoreExact.ReshapeVariableIff | reference/separan/interpreter.py:794-905 | the four shape operations give, behind any path, exactly the list that is described slot by slot: which slots are new, gone, moved or kept, in which rows; they fail if and only if there is none |
| StoreErrors.IntroduceFails | reference/separan/interpreter.py:123-136 | the code of a first assignment that fails, told from the value: E126, E133, E129, that of the value itself if no type covers it, or E134 if the type of some elements stays open |
| StoreErrors.ReassignFails | reference/separan/interpreter.py:101-122 | the code of an assignment that fails, told from variable and value: E126, E211, E133, that of the value itself, E201 if and only if no refinement of the type covers the value, or E134 |
| StoreErrors.DefineFails | reference/separan/interpreter.py:150-162 | the code of a typed definition that fails: E126, E130, E133, E201 if and only if no refinement of the declared type covers the value, or E134 |
| StoreErrors.AssignIndexesFails | reference/separan/interpreter.py:173-225 | the code of an indexed assignment that fails: where its path is lost decides between E131, E201 and E302, and otherwise what the addressed slot makes of the value |
| StoreErrors.ReshapeVariableFails | reference/separan/interpreter.py:794-905 | the code of a shape operation that fails: where its path is lost, or what is wrong with count, position, row or column |
| StoreLaws.AssignIndexesTouchesOneSlot | reference/separan/interpreter.py:173-225 | an indexed assignment stores the value in the addressed slot; every other slot keeps its value and every list its length, up to the type an EMPTY slot retains |
| StoreLaws.ClearingAVariable | reference/separan/interpreter.py:105-107 | assigning EMPTYS to a present list keeps its jagged shape and its type, leaves EMPTY leaves only, and repeating it changes nothing |
| StoreLaws.InsertThenRemove | reference/separan/interpreter.py:847-863 | slots that have been inserted are removed again by removing as many at the same position |
| StoreLaws.RemoveVerticalExact | reference/separan/interpreter.py:882-905 | from the chosen row down the column becomes its old cells without the first `count`, then `count` typed EMPTY cells; every other cell and every row length stays |
| HeapLists.ElementTypeOf | reference/separan/interpreter.py:281-297 | the loop over list objects finds the element type of the values they stand for, or the same error |
| HeapLists.TypeOf | reference/separan/interpreter.py:242-245 | the type of a slot on the heap is the type of the value it stands for |
| HeapLists.NormalizedCopy | reference/separan/interpreter.py:268-278 | normalising copies every list object on the way: the result stands for the normalised value, consists of fresh objects only, and no object occurs twice |
| HeapLists.NormalizedListCopy | reference/separan/interpreter.py:300-308 | the same for the elements of a list, one after the other; on an error the code is that of the values |
| Stores.ClearedCopy | reference/separan/interpreter.py:319-332 | clearing builds fresh list objects that stand for the cleared value, and form a tree |
| Stores.UpdatedCopy | reference/separan/interpreter.py:184-222 | the recursive update copies the lists on the path and normalises what is stored; the result stands for the updated value and shares no object twice |
| Stores.InsertRange | reference/separan/interpreter.py:849-856 | inserting into the list object in place changes that list as the values say, and no other list object |
| Stores.RemoveRange | reference/separan/interpreter.py:857-863 | removing from the list object in place changes that list as the values say, and no other list object |
| Stores.ShiftColumnUp | reference/separan/interpreter.py:886-905 | the in-place loop over the affected rows shifts the column in all of them, because the rows are distinct list objects; nothing else changes |
| Stores.ReshapeList | reference/separan/interpreter.py:838-905 | a shape operation on a list object changes it as the values say, or fails with the same code and changes nothing |
| Stores.ReshapeBehind | reference/separan/interpreter.py:794-824 | the same behind a path of indexes: only the addressed list objects change |
| Bindings.Binding.Assign | reference/separan/interpreter.py:101-122 | the binding's value becomes what the same assignment gives on values, in list objects of its own; on an error it stays as it was |
| Bindings.Binding.AssignAt | reference/separan/interpreter.py:173-225 | the same for indexed assignment at any depth |
| Bindings.Binding.Reshape | reference/separan/interpreter.py:794-905 | the same for the list shape operations, which work in place |
| Bindings.IntroduceBinding | reference/separan/interpreter.py:123-136 | a new binding owns fresh list objects and holds what a first assignment gives on values |
| Bindings.DefineBinding | reference/separan/interpreter.py:150-162 | the same for a typed definition |
| Bindings.PrepareTyped | reference/separan/interpreter.py:350-369 | the value of a typed definition on the heap is the prepared value, or the same error |
| StoreRuns.StepIsTyped | reference/separan/interpreter.py:97-225 | every store operation keeps every variable conforming to its type at every depth, keeps declared types, and moves element types upward only, whether it succeeds or fails |
| StoreRuns.RunsAreTyped | reference/separan/interpreter.py:97-225 | over any sequence of operations, calls, and returns with or without a value that is then assigned, every variable conforms to its type at every depth; and in every environment that stays open, the global one among them, no declared type changes and element types only move upward |
| RunsExact.EvaluateIff | reference/separan/interpreter.py:636-668 | names, displays and index reads evaluate to the one value that is found in the environments, slot by slot, and fail if and only if there is none |
| RunsExact.BoundIff | reference/separan/interpreter.py:932-964 | a call binds every parameter to its argument as a first assignment or a typed definition would, and fails if and only if one of them would |
| RunsExact.StepIff | reference/separan/interpreter.py:97-225 | every operation of a run, assignment, definition, indexed assignment, shape operation, call and return, leaves exactly the environments that the relation between before and behind describes, and fails if and only if there are none |
| RunErrors.StepFails | reference/separan/interpreter.py:97-225 | an assignment, definition, indexed assignment, shape operation or return of a value fails with a code if and only if that is the one told from the environments: that of its expression, if that has no value, and then that of the variable; E202 for a name nobody has, E210 for one in use, E110 for a return at top level |
| RunErrors.EvaluateFails | reference/separan/interpreter.py:636-668 | the code of an expression without a value: E202 for a name nobody has, E131, E201 or E302 for an index by what it is asked of, and for a display that of its first element without a value, or that of elements without a common type |
| Machines.Machine.Value | reference/separan/interpreter.py:636-672 | on the heap, names, scalars, EMPTY, list displays and index reads evaluate to what they stand for; list objects are created for displays only, and shared when read |
| Machines.Machine.EnterCall | reference/separan/interpreter.py:933-969 | a call with list arguments prepares those for declared parameters and opens an environment whose parameters own list objects of their own |
| Machines.Machine.ExecuteReturn | reference/separan/interpreter.py:907-969 | the value that a SEP returns is assigned in its caller behind the call: the environment of the SEP is gone, a returned list becomes a list of the variable alone, and an assignment that fails leaves the caller as it was |
| Machines.Machine.Execute | reference/separan/interpreter.py:97-225 | one operation on shared list objects has exactly the effect of the same operation on values, error codes included; it succeeds if and only if the relation of `RunsExact.StepIff` has environments for it, and leaves those, and it fails with the code of `RunErrors.StepFails`; every list object keeps one owner, and every other variable of every environment keeps its binding and all its list objects just as they were on the heap |
| Machines.Machine.Run | reference/separan/interpreter.py:97-225 | a whole run on shared list objects, with lists handed to calls and returned from them, ends with the variables that the same run on values ends with, all of them conforming, with fixed declared types and element types that only move upward |
| Machines.EveryListHasOneOwner | reference/separan/interpreter.py:300-308 | in every reachable state a list object stands in one place of one variable: no two variables reach it, and none reaches it twice |
| ShapeCalls.ShapeCall | reference/separan/interpreter.py:838-863 | a shape operation whose arguments call SEPs fetches the list object first and changes it last; it changes the variable, or fails with the code of the changed variable, if and only if nothing in these calls gave the variable, or one of its slots, a new value |
| ShapeCalls.InsertionIsLost | reference/separan/interpreter.py:844-856 | `list_insert(g, 0, f())` where `f` does `g[0] = x`: the inserted slots are lost, and `g` is what the assignment in `f` made of it |
| Interpreters.Environment.AssignName | reference/separan/interpreter.py:97-136 | an assignment of a scalar, a list, EMPTY or EMPTYS changes the current environment as on values, which `StoreExact.IntroduceIff` and `StoreExact.ReassignIff` pin down: the type of a variable is fixed, and constants are refused |
| Interpreters.Environment.DefineTypedName | reference/separan/interpreter.py:150-162 | a typed definition adds a variable with a prepared value, or fails and changes nothing |
| Interpreters.Environment.DefineConstant | reference/separan/interpreter.py:137-149 | a constant keeps the value that it is given, lists included; EMPTY and names in use are refused |
| Interpreters.Environment.AssignIndexesOf | reference/separan/interpreter.py:173-225 | an indexed assignment to a variable of this environment, as on values |
| Interpreters.Interpreter.Eval | reference/separan/interpreter.py:636-778 | evaluation of scalars, EMPTY, lists, state tests, index reads, operators and calls gives the result of the big-step semantics and the same output; no environment changes; what the semantics computes is told by the rows of `EvaluatorLaws`, `OperatorLaws` and `ControlLaws` |
| EvaluatorLaws.ChainIff | reference/separan/interpreter.py:660-668 | reading through any number of indexes gives a value if and only if it stands in that slot of the list |
| EvaluatorLaws.WriteThenRead | reference/separan/interpreter.py:173-225 | after an indexed assignment that succeeds, reading with the same indexes, at any depth, gives the value back, up to the types of EMPTY slots |
| EvaluatorLaws.EvaluatorsAgree | reference/separan/interpreter.py:636-668 | literals, names, displays and index reads have the value or the error code that they have in the runs of the store |
| EvaluatorLaws.StatementsAgree | reference/separan/interpreter.py:465-472 | assignments and typed definitions leave the environments that the same operations leave in the runs of the store, or fail with the same code |
| EvaluatorLaws.TestsSeeAssignments | reference/separan/interpreter.py:639-644 | `is EMPTY` holds of a variable if and only if the last assignment gave it EMPTY; `is EMPTYS` holds if it gave it EMPTYS, and does not if it gave it a scalar |
| EvaluatorLaws.IsEmptysIff | reference/separan/interpreter.py:639-644 | a value is EMPTYS if and only if it is a list and no path leads to anything present but lists |
| OperatorLaws.SameValueIff | reference/separan/interpreter.py:753-758 | two values are equal if and only if they have the same shape and the same payloads, with true and false as 1 and 0 |
| OperatorLaws.MembershipIff | reference/separan/interpreter.py:987-1003 | `in` and `not in` find texts at any position and elements by equality, wherever types allow the question, and fail otherwise |
| OperatorLaws.OperatorIff | reference/separan/interpreter.py:750-777 | every modelled operation on values of known types has a result if and only if its operands are of the kinds the operator takes; it fails with E301 for a division by zero, and with E201 otherwise |
| OperatorLaws.ConcatenationIff | reference/separan/interpreter.py:766-770 | two lists are joined, in order, if and only if one type covers the elements of both; a display is a list if and only if one type covers its elements |
| OperatorLaws.DivisionHasRemainder | reference/separan/interpreter.py:771-777 | `//` and `%` give a quotient and a remainder that make up the number again, where the remainder lies between zero and the divisor, on its side |
| OperatorLaws.RangeIff | reference/separan/builtins.py:205-217 | a range holds exactly the numbers start + k * step that do not reach the end, in order, in both directions |
| OperatorLaws.DefineConstIff | reference/separan/interpreter.py:137-149 | a constant is made if and only if the name is new and a type covers the value; it holds exactly the value, with the least type that covers it |
| ControlLaws.ConstantsStay | reference/separan/interpreter.py:97-149 | a constant has the value it was given; no assignment behind it changes anything, and it fails with E211 whatever its value |
| ControlLaws.ListBlocksAreDisplays | reference/separan/interpreter.py:485-486 | a list block is the assignment of a display with its elements |
| ControlLaws.AbsentValuesAreRefused | reference/separan/interpreter.py:711-749 | a value that is EMPTY, EMPTYS or VOID can be no operand and cannot be printed; as a left operand it stops the evaluation before the right one, unless `??` takes it; E131, E133 and E127 |
| ControlLaws.AbsentRightOperandsAreRefused | reference/separan/interpreter.py:740-749 | the same for right operands that are needed |
| ControlLaws.ConditionsAreTruthValues | reference/separan/interpreter.py:475-480 | a condition that is no truth value stops a loop or a branch, with E131 if it is EMPTY and E201 otherwise |
| ControlLaws.LaterCallsAgree | reference/separan/interpreter.py:931-957 | a SEP without declared types takes scalars if and only if their number is right and their types are those of its first call; E207 and E208 otherwise |
| ControlLaws.SignatureIff | reference/separan/interpreter.py:946-957 | later calls must have the types of the first one, and may only settle an element type that was not known yet |
| Interpreters.Interpreter.CallLogic | reference/separan/interpreter.py:907-969 | a SEP call gives the result of the semantics, whatever its body throws or catches; on every outcome, errors included, the caller's environment is current again and unchanged, and so are the globals |
| Interpreters.Interpreter.Execute | reference/separan/interpreter.py:465-513 | a statement has the completion, environment and output of the semantics; inside a SEP the globals stay unchanged, whatever happens |
| Interpreters.Interpreter.ExecuteIf | reference/separan/interpreter.py:475-478 | the branches are tried in order, and the first true one is executed |
| Interpreters.Interpreter.ExecuteWhile | reference/separan/interpreter.py:479-480 | the loop repeats as the semantics says, and stops with the first completion that is not normal |
| Interpreters.Interpreter.ExecuteFor | reference/separan/interpreter.py:481-484 | each element is assigned to the loop variable in the current environment before the body runs |
| Interpreters.Interpreter.ExecuteTry | reference/separan/interpreter.py:503-513 | the first catch that takes the error of the body runs in its place; finally runs on every completion, returns and internal errors included, and has the last word if it does not complete normally |
| ControlLaws.RunsAreDetermined | reference/separan/interpreter.py:417-440 | two runs of a program that both end, end with the same result and the same output, however long each was allowed to go on |
| ControlLaws.BranchesNest | reference/separan/interpreter.py:475-478 | a chain of branches means a single branch with the rest of the chain in its else |
| ControlLaws.LoopsUnroll | reference/separan/interpreter.py:479-480 | a while loop means its body and then the loop again, if its condition holds, and nothing otherwise |
| ControlLaws.DisplaysUnroll | reference/separan/interpreter.py:481-484 | a for over a display of literals means an assignment and the body for one element after the other |
| ControlLaws.StreamsDiffer | reference/separan/interpreter.py:471-472 | print and print_error write the same value behind the same effects, each to its own stream, or fail alike |
| ControlLaws.CatcherIff | reference/separan/interpreter.py:503-511 | the catch that takes an error is the first one that matches it |
| ControlLaws.ThrownIsCaught | reference/separan/interpreter.py:487-511 | a thrown error has the category that made it; a catch that matches runs in its place, and without one the error goes on |
| ControlLaws.ErrorsAreDistinguished | reference/separan/interpreter.py:915-918 | errors of one category are equal if and only if their messages are |
| ControlLaws.FinallyAlwaysRuns | reference/separan/interpreter.py:503-513 | the finally body runs behind the same statement without it, however that ended, by a return or an error as well, and does not change how it ended unless it ends by itself |
| ControlLaws.FinallyIsSeen | reference/separan/interpreter.py:503-513 | what a finally prints is the last that the statement prints, also behind a return or an error |
| ControlLaws.CoalescingIsAssociative | reference/separan/interpreter.py:730-731 | a chain of `??` takes its first present value wherever the parentheses stand, with the same effects |
| ControlLaws.DeMorgan | reference/separan/interpreter.py:738-739 | negating a conjunction is the disjunction of the negations and the other way round, with the same operands evaluated, the same failures and the same output |
| Interpreters.LoadProgram | reference/separan/interpreter.py:417-433 | the declarations are loaded in order; E209, E204, E122, E892 and E896 refuse reserved, duplicate and conflicting names and routes |
| ControlLaws.LoadIff | reference/separan/interpreter.py:417-433 | a program loads if and only if nothing is declared twice, no name is that of a built-in function, no error has the name of a SEP and all routes have paths; then it has exactly what its statements declare, and otherwise the first offending declaration decides the code |
| Semantics.LoadedNamesAreUnique | reference/separan/interpreter.py:417-433 | in a program that has been loaded the name of a SEP is no built-in function and no error category |
| Semantics.OperatorsAreSpelled | reference/separan/interpreter.py:733-778 | an operation on two present, modelled values ends in an internal error if and only if its operator is none of the known spellings, `&&`, `||` and `??` among them; `IN` is none |
| Interpreters.RunProgram | reference/separan/interpreter.py:417-440 | a program is loaded, runs its top-level statements and then main, with the result and output of the semantics |
| ControlLaws.MainRunsLast | reference/separan/interpreter.py:434-440 | running a program is running its top-level statements and behind them a call of main, with their output and their errors |
| Firmware.NamesAreInjective | reference/separan/embedded_firmware.py:723-727 | different identifiers become different C++ names, for variables and for SEPs |
| CallOrder.Sorter.Visit | reference/separan/embedded_firmware.py:383-396 | the depth-first visit appends a SEP behind all its callees, or reports that some SEP can reach itself; it terminates on the names neither visited nor being visited |
| CallOrder.OrderedFunctions | reference/separan/embedded_firmware.py:378-397 | every SEP comes out exactly once with all its callees before it, and the order is refused if and only if the call graph has a cycle |
| CallOrder.OrderedIsNotRecursive | reference/separan/embedded_firmware.py:378-397 | an order with callees first exists only when no SEP can reach itself |
| Emitters.Emitter.LookupName | reference/separan/embedded_firmware.py:707-711 | the scope stack finds a name exactly when it is visible |
| Emitters.Emitter.Expression | reference/separan/embedded_firmware.py:548-592 | an expression is emitted if and only if its literals, names, operators and callees can be, told from the source and the visible names; the scopes stay unchanged |
| Emitters.Emitter.Statement | reference/separan/embedded_firmware.py:445-493 | a statement is emitted, or refused, as the visible names demand, and adds the name it declares to the innermost scope only |
| Emitters.Emitter.Block | reference/separan/embedded_firmware.py:495-501 | what a block declares is gone behind it |
| Emitters.Emitter.For | reference/separan/embedded_firmware.py:503-532 | the loop variable is visible in the bounds and the body, and gone behind the loop |
| Emitters.Emitter.LogicFunction | reference/separan/embedded_firmware.py:419-443 | a SEP becomes one function whose scopes start from its parameters |
| Emittable.EmitExprIff | reference/separan/embedded_firmware.py:548-599 | an expression can be emitted if and only if every part of it is a literal with a C++ form, a visible name, one of the listed operators, or a positional call of a SEP, told without reference to emission |
| Emittable.EmitStmtIff | reference/separan/embedded_firmware.py:445-546 | a statement can be emitted if and only if its expressions can with the names visible at that place, loop headers have one of the two allowed forms, and no constant has a name in use; the names visible behind it are told as well |
| Emittable.EmitLogicIff | reference/separan/embedded_firmware.py:419-443 | a SEP can be emitted if and only if its statements can, from its parameters on |
| Emittable.EmissionIsInjective | reference/separan/embedded_firmware.py:548-599 | different expressions over identifiers become different C++ expressions: nothing is lost or confused |
| Emittable.ListKindIff | reference/separan/embedded_firmware.py:534-546 | the elements of an emitted display have the one C++ type that all of them are of, and there is none if they have not |
| Emittable.ConstantsStay | reference/separan/embedded_firmware.py:446-457 | an emitted constant stays one: a later assignment to it is emitted as well, and refused by C++ |
| Emitters.Generate | reference/separan/embedded_firmware.py:351-397 | firmware for a program of SEPs is refused if and only if main is missing or has parameters, the call graph has a cycle, or a SEP has a construct that cannot be emitted, as the source alone tells; and the firmware of a portable program, if C++ accepts it, reproduces every run of the interpreter that ends without error |
| FrameAgreement.AgreesAfterDeclare | reference/separan/embedded_firmware.py:702-705 | declaring a name that is not visible keeps the C++ frames in agreement with the environment |
| FrameAgreement.AgreesAfterUpdate | reference/separan/embedded_firmware.py:446-457 | assigning a visible name keeps the C++ frames in agreement with the environment |
| FrameAgreement.AgreesAfterLeave | reference/separan/embedded_firmware.py:495-501 | leaving a block keeps the frames in agreement on the names visible outside |
| Simulation.SimulateExpr | reference/separan/embedded_firmware.py:548-592 | an emitted expression evaluates to the interpreter's value with the same output |
| Simulation.SimulateCall | reference/separan/embedded_firmware.py:594-599 | an emitted call returns what the interpreter's call returns, with the same output |
| Simulation.SimulateStmt | reference/separan/embedded_firmware.py:445-493 | an emitted statement completes like the interpreter's statement, prints the same, and leaves the frames in agreement |
| Simulation.SimulateWhile | reference/separan/embedded_firmware.py:474-478 | an emitted while loop makes the same rounds |
| Simulation.SimulateCounting | reference/separan/embedded_firmware.py:503-532 | a counting loop whose bounds C++ evaluates anew in every round makes exactly the rounds of the interpreter's precomputed range |
| Simulation.FirmwarePrintsTheSame | reference/separan/embedded_firmware.py:351-599 | for every portable program whose firmware C++ accepts: when the interpreter finishes it without error, the emitted block-scoped program finishes with the same result and prints the same values in the same order |
| NumericPrograms.NumericProgramsCompile | reference/separan/embedded_firmware.py:351-599 | C++ accepts the firmware of every portable program that computes with numbers, decides by truth values, and whose SEPs give their values at the end; a condition on the source alone |
| NumericPrograms.NumericFirmwarePrintsTheSame | reference/separan/embedded_firmware.py:351-599 | for these programs nothing is left to the compiler: when the interpreter finishes without error, the firmware finishes with the same result and the same output |
| CppSafety.SafeExpr | reference/separan/embedded_firmware.py:548-592 | an accepted expression evaluates to a value of its C++ type, or the evaluation goes on too long; it never gets stuck |
| CppSafety.SafeCall | reference/separan/embedded_firmware.py:419-443 | a call that C++ accepts, with argument types of its own for each call, returns a value of the type deduced for that call |
| CppSafety.SafeStatement | reference/separan/embedded_firmware.py:445-493 | an accepted statement leaves frames that fit its scopes, or returns a value of the one type deduced so far |
| CppSafety.AcceptedNeverGetsStuck | reference/separan/embedded_firmware.py:351-599 | no run of firmware that C++ accepts gets stuck; when it ends, it ends with an exit status or with nothing |
| CppSafety.OperatorTypesAreExact | reference/separan/embedded_firmware.py:569-583 | C++ accepts an emitted operator on two types if and only if it has a value for all operands of these types |
| EmittedCalls.CallsAreDeclared | reference/separan/embedded_firmware.py:594-599 | all functions that an emitted SEP calls are declared before it if and only if the SEP does not call main |
| EmittedCalls.AcceptedNeverCallsMain | reference/separan/embedded_firmware.py:432-434 | in a portable program whose firmware C++ accepts no SEP calls main |
| Discrepancies.ShadowedLoopVariable | reference/separan/embedded_firmware.py:503-532 | a loop variable that is in use already breaks the agreement: a program whose firmware is emitted and accepted by C++, and for which the interpreter prints 0 and the firmware 5 |
| Discrepancies.TextFromMain | reference/separan/embedded_firmware.py:464-469 | a portable program that the interpreter finishes, with a text returned by main: its firmware is emitted, and rejected by C++ |
| Discrepancies.TwoReturnTypes | reference/separan/embedded_firmware.py:432 | a portable program that the interpreter finishes, with a SEP that returns 1 or true: its firmware is emitted, and rejected by C++ |
| Discrepancies.CallOfMain | reference/separan/embedded_firmware.py:594-599 | a portable program that the interpreter finishes, with a SEP that calls main but is never called: its firmware is emitted, and rejected by C++ |
| Discrepancies.DivisionTruncates | reference/separan/embedded_firmware.py:575-578 | integer division and remainder agree with the interpreter if and only if nothing remains or both operands have the same sign, because C++ rounds towards zero and the interpreter down |
| Discrepancies.QuotientsAreTruncated | reference/separan/embedded_firmware.py:579-583 | C++ divides integers without a remainder where the interpreter gives the exact quotient: the emitted quotient times the divisor is the dividend again if and only if nothing remains |
| Discrepancies.PowersAreEmitted | reference/separan/embedded_firmware.py:573-574 | `**` with a natural exponent is emitted as the C++ function, whose value is that power |
| Scanners.ScanOneCovers | reference/separan/lexer.py:109-222 | every token covers exactly its own, nonempty slice of the line (a tag also its `@`) |
| Scanners.LinesAreLossless | reference/separan/lexer.py:103-222 | on a line without lexical error the tokens follow one another without overlap, and everything they leave out is blank or the comment at the end |
| Scanners.ScannedSourcesAreWellFormed | reference/separan/lexer.py:35-65 | every source the lexer accepts yields tokens whose spelling and literals fit their kind: operators, punctuation and compound assignments have exactly their lexeme, keywords their word, in any letter case but for the four in capitals, and names are no keywords; the only EOF comes last |
| Scanners.ReadString | reference/separan/lexer.py:153-176 | the loop over a string literal collects the characters its escapes stand for, or fails with the same code |
| Scanners.ReadNumber | reference/separan/lexer.py:180-201 | the loops over a number find its digits, its base and its value, or E101 |
| Scanners.ReadName | reference/separan/lexer.py:202-221 | a name becomes a keyword, identifier or label, or is refused |
| Scanners.ReadTag | reference/separan/lexer.py:115-129 | a tag is a chain of names between colons, or E216 |
| Scanners.ReadLine | reference/separan/lexer.py:103-222 | the scanner produces the tokens that the lexical rules say, which `Spellings` and `WrittenLines` pin down, and every iteration moves the cursor |
| Scanners.ScanTokens | reference/separan/lexer.py:35-65 | the lines outside multiline comments are scanned in order; unmatched or unclosed comments fail with E104 or E106 |
| Spellings.KeywordKindIff | reference/separan/lexer.py:214-219 | a word is read as a keyword if and only if it is spelled as the table says, four of them in capitals and the others in any letter case, and as a name if and only if it spells none |
| Spellings.OperatorAtIff | reference/separan/lexer.py:105-149 | the operator that is read is the one whose spelling stands there, and no longer spelling does |
| WrittenLines.NumbersAreRead | reference/separan/lexer.py:180-201 | every number, written in any of the four bases, is read back as itself |
| WrittenLines.WrittenLinesAreRead | reference/separan/lexer.py:103-222 | a line in which tokens of any kinds are written out, with blanks between them and a comment at the end, is read back as these tokens |
| WrittenLines.WrittenSourcesAreRead | reference/separan/lexer.py:35-65 | the same for whole sources, with multiline comments between the lines: each line is read as its tokens, and comments leave none |
| StringLiterals.LiteralsAreRead | reference/separan/lexer.py:149-179 | every sequence of Unicode scalar values, each written as itself, by a short escape or by its code in four or eight digits, scans back as one STRING token with exactly that value, and nothing beyond the closing quote is read |
| StringLiterals.RawLiteralsAreRead | reference/separan/lexer.py:149-179 | a raw string without quotes stands for its own characters |
| StringLiterals.BrokenLiteralsAreRefused | reference/separan/lexer.py:153-179 | a literal that breaks off behind any text, written in any way, is refused: with E103 at the end of the line, with E219 at a backslash before anything but a marker |
| ExpressionSoundness.SoundExpression | reference/separan/parser.py:472-594 | what the expression parser accepts is a tree of the precedence ladder whose written form is, symbol for symbol, the part of the input that was consumed |
| ExpressionCompleteness.CompleteMore | reference/separan/parser.py:527-532 | parsing the written form of a left-associative chain leaves the loop with exactly that chain built so far |
| ExpressionCompleteness.CompleteExpression | reference/separan/parser.py:472-594 | every tree of the precedence ladder is returned unchanged when its written form is parsed before a token that does not continue it |
| ExpressionLaws.WrittenFormIsUnambiguous | reference/separan/parser.py:472-594 | two trees of the ladder with the same written form are the same tree |
| ExpressionLaws.WritingAgainKeepsTheTree | reference/separan/parser.py:472-594 | an accepted expression, written down again, is accepted as the same tree |
| ExpressionLaws.ChainsAreShouted | reference/separan/parser.py:480-523 | an accepted tree has a comparison with a bare comparison or state test as an operand if and only if an equality in it has an operand whose `in` is not in lower case |
| ExpressionLaws.PlainInputHasNoChains | reference/separan/parser.py:480-523 | from input in which `in` is written in lower case no chained comparison is accepted, whichever rung has to refuse it |
| ExpressionLaws.ShoutedChainIsAccepted | reference/separan/parser.py:480-496 | `a IN b == c` is accepted as a chained comparison: the keyword is found in any letter case, the check looks for lower case only |
| StatementCompleteness.ReadStatement | reference/separan/parser.py:92-178 | every well-formed statement is returned unchanged when its written form is parsed, in any surroundings, and what follows is left as it is |
| StatementCompleteness.CompleteProgram | reference/separan/parser.py:38-48 | every well-formed program is returned unchanged when its written form is parsed |
| StatementCompleteness.ProgramsAreUnambiguous | reference/separan/parser.py:38-48 | two well-formed programs with the same written form are the same program |
| StatementCompleteness.BracketsMatch | reference/separan/parser.py:214-230 | the brackets of an expression match, so the search for the end of an index passes over it as a whole |
| StatementSoundness.SoundStatement | reference/separan/parser.py:92-178 | every statement that is accepted is well formed: its expressions obey the ladder, its names and labels the rules of the language |
| StatementSoundness.SoundProgram | reference/separan/parser.py:38-48 | every program that is accepted is well formed, so the well-formed programs are those that the parser can return |
| StatementSoundness.WritingAgainKeepsTheProgram | reference/separan/parser.py:38-48 | an accepted program, written down again with every compound assignment as it was meant, is accepted as the same program |
| StatementYield.StatementYields | reference/separan/parser.py:92-178 | the tokens that a statement was read from are, line for line, its written form |
| StatementYield.AcceptedIsWritten | reference/separan/parser.py:38-65 | the tokens of an accepted program are, line for line, the written form of the tree that the parser returns: nothing is added, dropped or reordered, up to empty lines, compound assignments written out and empty parameter lists |
| Programs.Recovered | reference/separan/parser.py:67-90 | recovery always moves beyond the start of the statement that failed, and never stops at an empty line; where exactly it stops is in `Recovery.RecoveredIff` |
| Recovery.RecoveredIff | reference/separan/parser.py:67-90 | after an error parsing goes on behind the line of the first closer of the outermost open block's kind, or at the first SEP on a later line if that comes first, and at EOF only if there is neither; for a statement outside blocks, at its next line |
| Recovery.ErrorsAreContained | reference/separan/parser.py:50-90 | an error costs its statement only: what stands behind the place where parsing goes on is reported as if it were a file of its own |
| Programs.ReportKeeps | reference/separan/parser.py:50-65 | going on after an error loses neither statements nor diagnostics |
| Programs.ReportAgrees | reference/separan/parser.py:38-65 | there are no diagnostics exactly when the strict parser accepts, and then both give the same program; otherwise the first diagnostic is the strict parser's error |
| BlockDiscipline.AcceptedProgramsReplay | reference/separan/parser.py:383-443 | the block lines of an accepted program, read off its tokens line by line, replay on a stack from no open block to none: every closer and branch fits the innermost open block by kind and label |
| BlockDiscipline.EveryOpenerIsClosed | reference/separan/parser.py:432-443 | each opener is closed by a later line of the same kind and label, with the same blocks open before and behind |
| BlockDiscipline.OpenLabelsAreDistinct | reference/separan/parser.py:404-419 | at every moment the open labels are pairwise distinct, SEP-local labels are well formed, and no SEP is inside another block |
| BlockDiscipline.LocalLabelsOpenOnce | reference/separan/parser.py:411-419 | a SEP-local label is opened at most once in its SEP, even after the first block with it has been closed |
| BlockDiscipline.KeptStatement | reference/separan/parser.py:92-178 | every statement that is accepted leaves the blocks open that it found, by kind and label |
| BlockErrors.BlocksEndWithTheirCloser | reference/separan/parser.py:383-455 | any well-formed body with any closer and any label behind it: the block ends if and only if both are its own; the label of the block or of an open block of that kind gives E105, another label of the same closer E104, and another closer E107 |
| BlockErrors.LoopsEndWithTheirCloser | reference/separan/parser.py:372-375 | the same for whole while loops, with any condition and any body, at any place |
| BlockErrors.UnclosedBlocks | reference/separan/parser.py:383-391 | a block whose body reaches the end of the file fails with E106 |
| Frontend.AcceptedSourcesAreNested | reference/separan/parser.py:383-443 | the same for source text: whatever the lexer and the parser accept has well nested blocks, with SEP-local labels opened once |
| Frontend.AcceptedSourcesAreWellFormed | reference/separan/parser.py:38-48 | the same for source text: what the lexer and the parser accept is a well-formed program, whose written form has the lines of the source and is parsed as that program again |
| Frontend.FrontIsReadInAnyCase | reference/separan/parser.py:577-578 | `front` is read as a keyword in any letter case, and the tree keeps the spelling |
| Frontend.CompoundsAreSpelled | reference/separan/lexer.py:130-143 | a kind of token is a compound assignment if and only if it is spelled as one of the seven operators followed by `=` |
| Frontend.CompoundsAreWrittenOut | reference/separan/parser.py:167-171 | where `x op= e` is accepted in the tokens of a source, it is read as the assignment of `x op e` to `x`, for each of the seven operators |
| StoreLaws.SelectorPicks | reference/separan/interpreter.py:826-905 | in all four list operations a selector is the position 0 if and only if it is spelled `front` or there is no other position; any other spelling, `FRONT` included, is the last position |
| Parsers.Parser.Peek | reference/separan/parser.py:612 | the token at an offset from the cursor, or the last one |
| Parsers.Parser.Advance | reference/separan/parser.py:613-614 | returns the current token and moves the cursor by one |
| Parsers.Parser.Match | reference/separan/parser.py:608-610 | moves the cursor exactly when the current token has one of the kinds |
| Parsers.Parser.Consume | reference/separan/parser.py:602-604 | takes a token of the kind, or fails with E100 and stays |
| Parsers.Parser.Expression | reference/separan/parser.py:472 | the cursor ends where the expression grammar stops, with its tree or its error code |
| Parsers.Parser.Coalesce | reference/separan/parser.py:473-477 | `??` associates to the right |
| Parsers.Parser.Binary | reference/separan/parser.py:527-532 | the loop builds a chain that associates to the left |
| Parsers.Parser.Equality | reference/separan/parser.py:480-496 | equality does not chain, and is refused for EMPTY and EMPTYS literals |
| Parsers.Parser.EmptyTest | reference/separan/parser.py:508-521 | `is EMPTY` and `is not EMPTYS` tests, not chained |
| Parsers.Parser.Comparison | reference/separan/parser.py:497-507 | comparisons including `not in`, not chained |
| Parsers.Parser.Unary | reference/separan/parser.py:533-536 | prefix operators bind looser than `**` |
| Parsers.Parser.Power | reference/separan/parser.py:537-541 | `**` associates to the right and takes a prefix operator on its right |
| Parsers.Parser.Postfix | reference/separan/parser.py:542-552 | the loop takes indexes, members and member calls in order |
| Parsers.Parser.ListElements | reference/separan/parser.py:579-585 | the elements of a list display |
| Parsers.Parser.CallArguments | reference/separan/parser.py:554-567 | positional arguments before named ones, and no name twice |
| Parsers.Parser.Primary | reference/separan/parser.py:568-594 | literals, selectors, lists, names, calls and groups, or E100 |
| Parsers.Parser.LineEnd | reference/separan/parser.py:596-599 | a line ends with NEWLINE or at EOF |
| Parsers.Parser.Newlines | reference/separan/parser.py:600-601 | skips all line ends |
| Parsers.Parser.Binding | reference/separan/parser.py:399-402 | a name that is introduced, not a reserved one |
| Parsers.Parser.ReadType | reference/separan/parser.py:190-204 | a declared type, nested for lists |
| Parsers.Parser.StartsTypedDeclaration | reference/separan/parser.py:206-212 | whether a typed declaration stands here |
| Parsers.Parser.StartsIndexAssignment | reference/separan/parser.py:214-230 | whether an indexed assignment stands here, found by matching brackets on the line |
| Parsers.Parser.IndexAssignmentLine | reference/separan/parser.py:158-166 | an indexed assignment |
| Parsers.Parser.AssignmentLine | reference/separan/parser.py:167-171 | an assignment; a compound one becomes the assignment of a binary expression |
| Parsers.Parser.TypedDeclarationLine | reference/separan/parser.py:180-188 | a typed declaration with its initial value |
| Parsers.Parser.Constant | reference/separan/parser.py:151-157 | a constant, typed or not |
| Parsers.Parser.Import | reference/separan/parser.py:276-279 | an import with path and alias |
| Parsers.Parser.Push | reference/separan/parser.py:404-419 | opens a block, or fails for malformed, open or used labels and changes nothing |
| Parsers.Parser.OpeningLabel | reference/separan/parser.py:393-396 | the label of an opener, and the block it pushes |
| Parsers.Parser.BranchLabel | reference/separan/parser.py:426-430 | the label of a branch, which must be that of its block |
| Parsers.Parser.Close | reference/separan/parser.py:432-443 | closes the innermost block if the label is its label; otherwise E105 or E104 |
| Parsers.Parser.Unexpected | reference/separan/parser.py:445-455 | the error code of a closer that has no business where it stands |
| Parsers.Parser.Statement | reference/separan/parser.py:92-178 | which statement stands here, and every refusal in its order |
| Parsers.Parser.BodyUntil | reference/separan/parser.py:383-391 | statements up to one of the ending tokens |
| Parsers.Parser.Sep | reference/separan/parser.py:246-274 | a SEP with parameters, tags and body |
| Parsers.Parser.ParameterList | reference/separan/parser.py:249-264 | distinct parameters with optional types |
| Parsers.Parser.Tags | reference/separan/parser.py:266-271 | distinct tags before the body |
| Parsers.Parser.ErrorDeclaration | reference/separan/parser.py:281-286 | a custom error, whose name ends in _error |
| Parsers.Parser.HttpRoute | reference/separan/parser.py:288-294 | an HTTP route with method, path, label and body |
| Parsers.Parser.Object | reference/separan/parser.py:296-321 | an object block |
| Parsers.Parser.Entries | reference/separan/parser.py:300-319 | distinct entries: fields and nested blocks |
| Parsers.Parser.BlockList | reference/separan/parser.py:323-332 | a list block |
| Parsers.Parser.Try | reference/separan/parser.py:334-347 | a try with at least one catch or finally |
| Parsers.Parser.Catches | reference/separan/parser.py:337-342 | distinct categories, none after any |
| Parsers.Parser.Transaction | reference/separan/parser.py:349-352 | a transaction |
| Parsers.Parser.If | reference/separan/parser.py:354-370 | an if with its branches |
| Parsers.Parser.Branches | reference/separan/parser.py:357-368 | elseif branches in order, else last |
| Parsers.Parser.While | reference/separan/parser.py:372-375 | a while loop |
| Parsers.Parser.For | reference/separan/parser.py:377-381 | a for loop |
| Parsers.Parser.TopStatement | reference/separan/parser.py:41-45 | a top-level statement; imports come first |
| Parsers.Parser.Parse | reference/separan/parser.py:38-48 | the program, or the code of the first error |
| Parsers.Parser.ParseWithDiagnostics | reference/separan/parser.py:50-65 | all errors and the statements between them; every iteration moves the cursor and leaves no block open, so it reaches EOF |
| Parsers.Parser.Recover | reference/separan/parser.py:67-90 | moves beyond the start of the failed statement and leaves no block open |
| Formatter.ReadCodeText | reference/separan/lsp_analysis.py:219-229 | the loop drops a comment, but not a `#` inside quotes |
| Formatter.CommentsAreCut | reference/separan/lsp_analysis.py:219-229 | whatever code is made of, plain text and quoted text with escapes, a `#` behind it begins a comment, which is cut off, and a `#` between quotes does not |
| Formatter.FormatSource | reference/separan/lsp_analysis.py:466-482 | the loop writes every line at the depth that the stripped lines before it determine |
| Formatter.LinesKeepTheirText | reference/separan/lsp_analysis.py:466-482 | every line keeps its stripped text |
| Formatter.OnlyStrippedLinesMatter | reference/separan/lsp_analysis.py:466-482 | sources with the same stripped lines are formatted alike |
| Formatter.FormattedLineAt | reference/separan/lsp_analysis.py:466-482 | line `i` of the output is the stripped line behind as many indents as the openers, branches and closers before it, and its own, determine |
| Formatter.DepthIsBalance | reference/separan/lsp_analysis.py:466-482 | between two lines the depth changes by openers minus closers, as long as it does not fall below zero |
| Formatter.ClosersAlign | reference/separan/lsp_analysis.py:466-482 | a closer that balances its opener stands at the indent of the opener |
| Formatter.FormattingIsIdempotent | reference/separan/lsp_analysis.py:466-482 | formatting a formatted source changes nothing, character for character |
| BaseConversion.ConvertNumberToBase | reference/separan/math_ops.py:203-212 | the division loop writes the digits of the number, with a sign if it is negative; bases outside 2 to 36 fail with E308 |
| BaseConversion.NumbersSurvive | reference/separan/math_ops.py:203-230 | every integer, written in any base, is read back as itself |
| BaseConversion.DigitsStandAtTheirPlaces | reference/separan/math_ops.py:203-212 | the digit at each place is the one of 0-9a-z that stands for the multiples of that power of the base, and there are as many digits as the number needs |
| BaseConversion.BasesAreBounded | reference/separan/math_ops.py:203-230 | the bases are those from 2 to 36; every other one is refused with E308 in both directions |
| BaseConversion.TextsBecomeCanonical | reference/separan/math_ops.py:203-230 | every accepted text, read and written again, is its canonical form: lower case, without underscores, leading zeros or -0 |
| BaseConversion.CanonicalTextsSurvive | reference/separan/math_ops.py:203-230 | the texts that are written for some integer are exactly the accepted ones that are their own canonical form |

## Left out

The store:

- Objects, database and file values, and the reference an untyped object field keeps to a list.
- Constants that are not declared with a type, and EMPTY values that come from outside.
- Numbers, decimals and times are kept as a type name and a payload; the store never computes with them.
- Machines.Machine.Value: the expressions of a run on shared objects are names, scalars, EMPTY, EMPTYS, list displays
  and index reads; operators, calls, groups and members create no list objects of their own except by concatenation,
  and are evaluated in `Semantics`.
- Machines.Machine.EnterCall: the types that a SEP without declared parameters infers from its first call, with E208
  for later ones, are in `Semantics`; the machine takes the arguments of such parameters as they are.
- ShapeCalls.ShapeCall: the calls stand in the arguments of an operation on a variable itself; for an operation on a
  nested row, indexes, counts and positions are evaluated beforehand.
- Interpreters.Environment.AssignIndexesOf: an indexed assignment that reaches a global variable from inside a SEP
  ends with the code `unmodelled`; the store and `Machines` have it.

The interpreter and the firmware:

- Interpreters.Interpreter.Eval: floats, decimals and temporal values as operands, `/` and `**`, members, named
  arguments, list shape operations and library functions other than ranges and error constructors end the evaluation
  with the code `unmodelled`.
- Semantics.OperatorsAreSpelled: speaks of operands that are whole numbers, texts, truth values, lists or errors; the
  operators of temporal values, with E408, are not part of the model.
- Interpreters.Interpreter.Execute: objects, transactions and imports end with the code `unmodelled`, and so does an
  indexed assignment that would reach a global variable from inside a SEP.
- Interpreters.Interpreter.CallLogic: the bodies of SEPs are subject to the same bounds as `Execute`.
- Interpreters.RunProgram: the predefined constants `system` and `pin`, and imported programs.
- Emitters.Emitter.Expression: members of pins, and board calls, are emitted by the compiler and refused here.
- Emitters.Generate: top-level statements other than SEPs.
- Discrepancies.DivisionTruncates: compares the integers; C++ computes `//` and `%` as doubles, whose printed form and
  limited width are not modelled. The same holds of `**`.
- Discrepancies.QuotientsAreTruncated: speaks of integers; the interpreter's quotient, a float, is not a value here.
- The text and layout of the C++; it is a syntax tree here. Machine width, strings with NUL characters and the
  unspecified order in which C++ evaluates operands are not modelled.
- Board, display and network calls, and the include lines they add.
- The order in which SEPs that do not depend on each other come out; the search visits them in the given order.

The front end:

- The written form of a program is a list of tokens without source positions; layout and comments are in
  `WrittenLines` only.
- StatementYield.AcceptedIsWritten: compares compound assignments in the form `x = x op e`, so it does not tell the
  two apart; which tree a compound assignment has is in `Frontend.CompoundsAreWrittenOut`.
- SEP-local labels are kept by their spelling instead of their number, and only ASCII digits count in them.
- The bookkeeping of SEP-local labels for SEPs whose objects were discarded during recovery and whose identity Python
  may use again.
- Unicode tables and NFC normalisation are parameters. It is assumed that a character that may start a name may
  continue one.
- Literal values of tags, and strings with lone surrogates, which no source text can contain.
- Source positions, diagnostic texts and excerpts; a diagnostic is its code.

The rest:

- The regular expressions of the formatter and its test for names are parameters; the model says what the formatter
  does for any of them.
- Base conversion of floats; of the letters outside ASCII only the Kelvin sign, which lower-cases to `k`.
- The regular-expression block analysis of the editor, HTTP, mail, cookies, databases, files, processes, time, random
  numbers, cryptography, the command line, the language server's transport, the editor extension and the Pico SDK
  build.
