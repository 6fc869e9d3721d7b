# A verified model of parts of BashketKernel

BashketKernel is a small operating system in C with its own shell and tools. This
project models the parts of it whose correctness is hardest to see from the code, in
Dafny 4.11, and proves what they promise. `dafny verify dfyconfig.toml` checks all of it.

Code that computes is modelled by functions; code that changes things step by step by
methods, classes and arrays, each proved against a specification function about which
the promised properties are then proved. Each part is a group of files:

| part | files | what is proved |
|---|---|---|
| shell arithmetic `$((...))` | ShellArith* | the one-pass evaluator means parsing to a tree of C's grammar and evaluating it |
| shell commands | ShellSemantics, ShellInterpreter, ShellTheorems, ShellExits, ShellLaws | the interpreter with global flags refines a semantics with explicit completions, which runs what the manual says |
| shell variables | Variables, Locals, VariableTable, LocalStack | one place for each name over every run; what `local` puts back, and exactly when |
| open files | Fd* | every interleaving of any number of threads keeps references, counts and pipe ends right, and goes on |
| program loader | Elf* | what a loaded and relocated program finds at every address, lazily or not |
| calendar | Calendar | days and dates are inverse, exactly where the year fits; the calendar's successor |
| sort | SortNumbers, SortKeys, SortLaws, MergeSort | a stable sort in place; decimals of any length in the order of their values |
| FAT image builder | Fat* | the image read back is the source tree, every `..` its parent, and its chains share nothing |
| SHA-256 | Sha256, Sha256Laws | any cutting into updates hashes the padded message, with the functions and constants of the standard |
| DHCP lease | DhcpLease | the times are in order, never stepped over; how many requests go out at most |
| line drawing | Bresenham | the dots are within half a pixel, one for each step |
| xargs | XargsWords, Xargs | the words of the input, packed as full as execve allows |

## Findings

Where the code does not do what its comments or a reader would expect, the code is
modelled as it is, and the exact condition is proved.

- `local` does not always restore: a variable of the shell's own that finds the table of
  64 full when it is put back is lost. `Locals.CallPutsBackLocals` is an equivalence;
  `Locals.FullTableLosesOne` gives the name that is lost, and `Locals.LocalIsLost` a state
  and a function body that lose one.
- A pending `break` or `continue` count can exceed the loop depth when the shell exits:
  `set -e; while :; do while :; do ! break 2; done; done` ends with one loop still to leave
  and none there (`ShellExits.BreakUnderSetEOverhangs`). The counts exceed the depth exactly
  when the run exits with more than that left (`ShellInterpreter.Interpreter.ExecList`). It
  exits with some left exactly when `set -e` took the status of some command run in it, left
  by a break or continue, for a failure (`ShellExits.ExitsWithLoopsLeft`); that command is a
  group, if, case or loop, and what it had left is what the run exits with
  (`ShellExits.ExitGoesOut`). Where a status is tested it never happens
  (`ShellExits.TestedNeverOverhangs`).
- An empty PT_LOAD segment is not checked, and yet counts for the end of the image, where
  the heap starts. That end is in the user's part of the address space exactly when no
  empty segment lies above it (`ElfGuarantees.EndInUserSpace`); `ElfEmptySegment.EndCanBeOutside`
  gives the bytes of a file that is accepted and for which it is not.
- `civil_from_days` and `days_from_civil` are inverse exactly for the days whose year fits
  in 32 bits (`Calendar.DaysRoundTrip`, `Calendar.DateRoundTrip`).
- An 8.3 file name that ends in a dot loses the dot on the image; no other name is changed
  (`FatNames.ShortRoundTrip`, `FatReadBack.ListKept`). The builder asks for 34 MiB where
  33 are enough (`FatImage.ThirtyThree`).
- Two names of one directory can get the same short name: one that is an 8.3 name already
  is not compared with those taken before it, so that `A.TXT` and `a.txt` share one
  (`FatShortNames.TwoOfOneName`). `FatShortNames.RawsDistinct` and, where no 8.3 name has a
  tilde, `FatShortNames.PlainRawsDistinct` say exactly when all are different.
- A word with a NUL in it reaches the command of xargs cut off there (`Xargs.NulCutsAWord`);
  the commands get the very words of the input exactly when it has no NUL
  (`Xargs.WordsArriveWhole`, `Xargs.Builder.Run`).
- A field separator of sort is found exactly if it is at most 127, since the text is of
  signed chars (`SortKeys.SeparatorIsFound`); above that every line is one field
  (`SortKeys.OneField`).
- While the last status is negative, `$?` in an arithmetic expression is not the status:
  -1 stands for "no special parameter" there, and a name is looked for after the `?`. So
  `$?` alone is a syntax error and `$?x` is the variable x (`ArithGrammar.NegativeStatusAt`);
  `ArithGrammar.NegativeStatus` says exactly when it is an error.

## Model

| member | source | states |
|---|---|---|
| `Machine64.MachineMeetsMeaning` | user/sh.c:1203-1307 | for every operator and all 64-bit operands (divisor not 0), the casts to unsigned, the special case for -1 and the masked shift counts give the exact integer result wrapped to 64 bits; what the exact result is, `ArithLaws` states for each operator |
| `Machine64.NegateMeaning` | user/sh.c:1177-1199 | negation is exact negation wrapped; the minimum stays |
| `Machine64.StepMeaning` | user/sh.c:1177-1199 | `++` and `--` step by one and wrap |
| `Machine64.ComplementMeaning` | user/sh.c:1177-1199 | `~v` is -1 - v |
| `ArithLaws.DivisionIsCs` | user/sh.c:1203-1222 | for all operands, divisor not 0, `/` and `%` give the q and r with v = q*w + r, \|r\| < \|w\| and r 0 or of the sign of v; the minimum by -1 gives the minimum and 0 |
| `ArithLaws.DivisionIsUnique` | user/sh.c:1203-1222 | only one pair is such |
| `ArithLaws.MinusSevenByTwo` | user/sh.c:1219 | -7 / 2 is -3 and -7 % 2 is -1 |
| `ArithLaws.BitsAreCombined` | user/sh.c:1277-1307 | each of the 64 bits, in two's complement, of `&`, `\|` and `^` is the and, or and exclusive or of the operands' bits |
| `ArithLaws.ExactModulo` | user/sh.c:1203-1235 | sums, differences and products differ from the exact ones by a multiple of 2^64 |
| `ArithLaws.ShiftsLeftByOne` | user/sh.c:1238-1248 | a shift to the left by one more doubles and wraps, by 0 does nothing |
| `ArithLaws.ShiftsRightByOne` | user/sh.c:1238-1248 | a shift to the right by one more halves and rounds down, so that the sign is kept |
| `ArithLaws.ShiftCountIsMasked` | user/sh.c:1245-1246 | counts that differ by a multiple of 64 shift alike |
| `ArithTables.CharactersAreCs` | user/sh.c:297-299 | letters, digits and `_` make names; blanks and newlines are skipped |
| `ArithTables.NamesAreShort` | user/sh.c:1098-1106 | names have at most 31 characters |
| `ArithTables.DigitsAreCs` | user/sh.c:1036-1057 | a digit is worth its place in 0-9a-f or 0-9A-F |
| `ArithTables.PrecedenceIsCs` | user/sh.c:1203-1331 | the levels of the binary operators are those of C's table |
| `ArithTables.OperatorsAreCs` | user/sh.c:1203-1331 | each operator's text computes what C's does: comparisons and `&&`, `\|\|` written out |
| `ArithTables.UpdatesAreCs` | user/sh.c:1357 | exactly `* / % + - << >> & ^ \|` may stand before `=` |
| `ArithTables.ArgumentsAreCounted` | user/sh.c:1130-1154 | `$1` is the first argument; one that is not there is 0 |
| `ArithText.ReadDigits` | user/sh.c:1036-1057 | the digit loop accepts a digit string in a base exactly when every digit is below the base and the value is below 2^64, and gives that value |
| `ArithText.ArithConstant` | user/sh.c:1036-1057 | a constant at a place in the text: base 8, 10 or 16 by its first characters, value and end, or none |
| `ArithText.ArithVariableText` | user/sh.c:1062-1082 | a variable's text as a number: blanks, a sign, a constant and nothing after it, empty as 0, or none |
| `ArithText.LongText` | user/sh.c:1415-1424 | the decimal text of every 64-bit value, within the buffers of 24 |
| `ArithText.TextRoundTrip` | user/sh.c:1415-1424 | reading back the text that a value is stored as gives the value, for all 2^64 |
| `ArithSemantics.DeadSideHasNoEffect` | user/sh.c:1088-1094 | with `live` false an expression changes no variable and raises no value error; only its syntax counts |
| `ArithSemantics.NothingAfterAnError` | user/sh.c:1088-1094 | after the first error nothing is assigned and the error stays |
| `ArithSemantics.RunIsEvaluate` | user/sh.c:1310-1384 | for every correct tree, running it with `live` and an error field equals evaluating it with short circuit and stopping at the first error: same value and variables, or same error and variables |
| `ArithSemantics.SyntaxErrorsAreReported` | user/sh.c:1388-1399 | a text with a syntax error always ends in an error, one without never in a syntax error, whatever the variables hold |
| `ArithEvaluator.Evaluator.Primary` | user/sh.c:1111-1173 | constants, names, `$` forms, parentheses and postfix steps: the cursor moves to where the text alone says, value and state are those of the parsed tree |
| `ArithEvaluator.Evaluator.DollarValue` | user/sh.c:1130-1154 | `$NAME`, `${NAME}`, `$1`, `$#`, `$?`: as their parse, with the value of the variable, argument or status |
| `ArithEvaluator.Evaluator.UnaryExpr` | user/sh.c:1177-1199 | signs, `!`, `~` and prefix steps likewise |
| `ArithEvaluator.Evaluator.BinaryExpr` | user/sh.c:1203-1331 | each of the ten levels of binary operators: left associative, with short circuit for `&&` and `\|\|` |
| `ArithEvaluator.Evaluator.ConditionalExpr` | user/sh.c:1334-1345 | `?:`, of whose branches one has effect |
| `ArithEvaluator.Evaluator.AssignExpr` | user/sh.c:1349-1384 | `=` and `op=`, right associative |
| `ArithEvaluator.ArithEval` | user/sh.c:1388-1399 | the fused pass over any text equals parse to a tree, then evaluate: same success, value and variables; with a syntax error it fails |
| `ArithGrammar.ParseIsADerivation` | user/sh.c:1111-1384 | whatever the last status, every tree parsed from a whole text is a derivation of C's expression grammar (levels and associativity) that spells the text without its blanks |
| `ArithGrammar.NegativeStatus` | user/sh.c:1130-1154 | while the last status is negative, `$?` gives a value exactly when a name follows the `?`, closed by its brace if there is one; it is then that variable |
| `ArithGrammar.NegativeStatusAt` | user/sh.c:1134-1150 | `$?` is then an error and `$?x` the variable x |
| `ArithPrinting.ParsePrinted` | user/sh.c:1111-1384 | whatever the last status, every derivation, printed, parses back to itself: the parser misses none |
| `ArithPrinting.PrintIsInjective` | user/sh.c:1111-1384 | whatever the last status, no text is read as two derivations |
| `ShellInterpreter.Interpreter.ExecList` | user/sh.c:3655-3673 | a list under the flags ends as the semantics' list does: same status and state, and flags that show its completion; loop, call and guard depths as before; the pending counts exceed the loop depth exactly when it exits with more loops than that still to leave or continue |
| `ShellLaws.AndRunsOnSuccess` | user/sh.c:3655-3673 | `a && b`: after a normal end of a, b is run exactly if its status is 0; if it is not run, the status and state a left are the list's |
| `ShellLaws.OrRunsOnFailure` | user/sh.c:3655-3673 | `a \|\| b`: likewise exactly if it is not 0 |
| `ShellLaws.ThenRunsAnyway` | user/sh.c:3655-3673 | `a; b`: likewise whatever it is |
| `ShellInterpreter.Interpreter.CheckErrexit` | user/sh.c:3655-3673 | `set -e` fires exactly for a failure that nothing tests |
| `ShellInterpreter.Interpreter.ExecNode` | user/sh.c:3595-3649 | every compound command refines its semantics |
| `ShellInterpreter.Interpreter.ExecIf` | user/sh.c:3595-3649 | `if`, its condition guarded from `set -e` |
| `ShellLaws.IfTakesOneBranch` | user/sh.c:3623-3630 | the condition's status decides between the branches; a failed condition without an else is status 0 |
| `ShellInterpreter.Interpreter.ExecLoop` | user/sh.c:3595-3649 | `while` and `until` refine the semantics' loop |
| `ShellLaws.LoopAsksItsCondition` | user/sh.c:3637-3645 | `while` goes on exactly as long as its condition succeeds, `until` as long as it fails; at the end the status is that of the last round |
| `ShellLaws.LoopStartsWithZero` | user/sh.c:3632-3648 | 0 if there was no round |
| `ShellLaws.NotTurnsTheStatus` | user/sh.c:3596-3603 | `!`: success becomes 1 and anything else 0, whatever else happened stays |
| `ShellInterpreter.Interpreter.ExecFor` | user/sh.c:3188-3212 | `for` refines the semantics' loop over words |
| `ShellLaws.ForTakesEachWord` | user/sh.c:3204-3208 | a round for each word in order, the variable set to it before; no words, no round |
| `ShellInterpreter.Interpreter.ExecCase` | user/sh.c:3450-3482 | `case` runs the first item that matches |
| `ShellLaws.CaseTakesTheFirst` | user/sh.c:3463-3480 | patterns are tried in order, the first that matches decides; none is status 0 |
| `ShellInterpreter.Interpreter.LeaveLoop` | user/sh.c:3171-3182 | after a round the pending counts become what the completion is outside the loop: one loop less for break and continue N |
| `ShellInterpreter.Interpreter.LoopControlBuiltin` | user/sh.c:3732-3746 | `break N` and `continue N`: the completion asked for, counts never above the loop depth |
| `ShellInterpreter.Interpreter.ReturnBuiltin` | user/sh.c:3433-3444 | `return`: only inside a function |
| `ShellLaws.LoopControlIs` | user/sh.c:3732-3746 | `break N` and `continue N` ask for N loops, 1 without it, at most all; an error outside loops and for what is no positive number |
| `ShellLaws.ReturnControlIs` | user/sh.c:3433-3444 | `return N` gives status N, the last one without it; an error outside a function and for what starts with no digit |
| `ShellLaws.NumberReadsDecimal` | user/lib/ulib.c:261-267 | numbers of break, continue, return and exit are read as decimals, up to what is no digit |
| `ShellLaws.SetTurnsErrexit` | user/sh.c:739-761 | a group of letters after `-` turns errexit on exactly if e is among them, after `+` off; `--` ends the options |
| `ShellLaws.SetStopsAtUnknown` | user/sh.c:750-757 | a letter that is no option ends it; those before it count |
| `ShellLaws.BuiltinsComeFirst` | user/sh.c:2215-2357 | a function named like a builtin is never called |
| `ShellInterpreter.Interpreter.CallFunction` | user/sh.c:3387-3429 | a call refines the semantics' call and leaves nothing pending |
| `ShellLaws.FunctionsAreCalled` | user/sh.c:3387-3429 | under any other name it is, 64 calls deep at most |
| `ShellLaws.FunctionsAreKept` | user/sh.c:3306-3318 | at most 32 functions are kept, each in place of one of its name |
| `ShellLaws.CtrlCEndsAll` | user/sh.c:3612-3621 | a command with status 130 ends everything unless there is a trap or the shell exits anyway |
| `ShellInterpreter.Interpreter.RunText` | user/sh.c:3699-3722 | a whole text: result and state of the semantics, nothing pending afterwards |
| `ShellTheorems.MoreFuel` | user/sh.c:3595-3673 | any two bounds on the steps that are enough give the same result |
| `ShellTheorems.EndsStayInside` | user/sh.c:3171-3182 | no completion reaches past the loops it is in, nor a return past a function |
| `ShellTheorems.NothingCrossesACall` | user/sh.c:3387-3429 | break and continue in a function never leave a loop of its caller |
| `ShellExits.ExitsWithLoopsLeft` | user/sh.c:3655-3673 | a run exits with loops still to leave exactly when some command run in it, in whatever loops, branches and functions, was left by break or continue and `set -e` took its status for a failure; `set -e` is then still on and nothing around the run tests its status |
| `ShellExits.ExitGoesOut` | user/sh.c:3595-3649 | such a command is a group, if, case or loop, and the run around it exits with just the loops it had still to leave, more than there are exactly if that is more |
| `ShellExits.TestedNeverOverhangs` | user/sh.c:3655-3673 | where a status is tested no exit has more loops left than there are |
| `ShellExits.BreakUnderSetEOverhangs` | user/sh.c:3639-3647 | `set -e; while :; do while :; do ! break 2; done; done` exits with one loop still to leave and none there |
| `ShellTheorems.GuardedIgnoresErrexit` | user/sh.c:3655-3673 | inside any condition, non-final `&&` or `\|\|` position or `!`, `set -e` changes nothing: not how commands end, not their status or effects |
| `Variables.OperationsKeepOnePlace` | user/sh.c:333-380 | set, unset and export keep a name in one place, do what they say to that name and nothing to any other; set fails exactly on a new name and a full table |
| `VariableTable.Table.Get` | user/sh.c:333-337 | the value in the table of texts, else in the environment |
| `VariableTable.Table.Set` | user/sh.c:341-359 | the table of 64 NAME=value texts changes as the map of variables does, success included |
| `VariableTable.Table.Unset` | user/sh.c:362-369 | likewise, in both places |
| `VariableTable.Table.Export` | user/sh.c:373-380 | likewise, from one place to the other |
| `LocalStack.Stack.LocalBuiltin` | user/sh.c:3352-3381 | what the name was is put on the stack, and it takes the value given, if any; nothing happens on a full stack; status 1 exactly if the stack or, for the value, the table is full |
| `LocalStack.Stack.RestoreLocals` | user/sh.c:3336-3345 | the stack is undone from the top down to the mark |
| `Locals.RunsKeepOnePlace` | user/sh.c:3387-3429 | over every run of set, export, unset, local and nested calls no name is in both places |
| `Locals.PerformIs` | user/sh.c:3352-3381 | what assigning, exporting, unsetting and `local` do to the name and to the stack of 64, and that they do nothing to other names |
| `Locals.StackHoldsSnapshots` | user/sh.c:3352-3381 | the stack holds, for every name a call made local, what it was before its first `local` |
| `Locals.CallPutsBackLocals` | user/sh.c:3336-3429 | at a function's return each of its local names has its former value and export state, and every other name is as the body left it, exactly when no variable put back finds the table full |
| `Locals.FullTableLosesOne` | user/sh.c:3336-3345 | otherwise some variable is gone, and which |
| `Locals.FullTableLosesLocal` | user/sh.c:3336-3345 | with a full table, `local x; unset x; y=...` for any x in it and new y returns with x gone |
| `Locals.LocalIsLost` | user/sh.c:3336-3345 | such a state, with its 64 variables |
| `Locals.RoomForAllFits` | user/sh.c:3336-3345 | room for all variables together is enough |
| `FdInvariant.RefsKept` | src/fs/file.c:242-335 | every step of open, refused open, dup, close, set, take back and install keeps each count equal to the number of places that hold the file; what each step does to the places, `FdOperations` states |
| `FdThreads.StepRely` | src/fs/file.c:242-335 | every step of one thread leaves to every other what it relies on: its references, its locks, the slot it has read, the counts it has read under the tree lock, the file it opens, shuts or tears down |
| `FdTheorems.NothingNamesAFreedFile` | src/fs/file.c:242-335 | in every reachable state every slot and hand names a file that exists with a count above 0; the count is the number of places; 0 exactly while it is torn down |
| `FdTheorems.TornDownOnce` | src/fs/file.c:247-274 | every file ever made begins to be torn down, or is given back unopened, once if no reference is left, and not otherwise |
| `FdTheorems.NodeCountsAreOpenFiles` | src/fs/file.c:108-132 | each count being read in one step and written in another, a node's open and write counts are, whenever nobody has the tree lock, the numbers of its open files and of its open writable files |
| `FdTheorems.NodeCountsAtEveryStep` | src/fs/file.c:247-258 | and at every other moment the numbers of files counted in and not yet counted off |
| `FdTheorems.CountedOrNot` | src/fs/file.c:108-132 | a file is in all its node's counts or in none, except the one whose thread has the tree lock |
| `FdCounts.UnlockedUpdateIsLost` | src/fs/file.c:128-129 | the lock is needed: of two threads that have both read the count, the second to write loses what the first wrote |
| `FdTheorems.EveryEndClosedOnce` | src/fs/file.c:158-194 | each end of each pipe is closed at most once, and once exactly when no file is left to close it, however shutdown, dup and close interleave |
| `FdTheorems.OneInside` | src/fs/file.c:283-335 | the slot lock and the tree lock exclude |
| `FdTheorems.TakeBackOrNothing` | src/fs/file.c:299-305 | taking a file back gets its reference exactly when the slot still holds that file; the slot is then empty, so no two threads get it |
| `FdOperations.SetExchanges` | src/fs/file.c:291-297 | at the write of any set in a reachable state: the slot has what the thread passed, or nothing, the thread what was in the slot, and every other place and all other memory is as before |
| `FdOperations.SetAlone` | src/fs/file.c:291-297 | the same from the call to the return, the lock as it was |
| `FdOperations.DupSlotShares` | src/fs/file.c:307-313 | the thread gets one more reference to the file in the slot, which keeps its own; nothing else changes; an empty slot changes nothing |
| `FdOperations.SlotsAreSixteen` | src/fs/file.c:276-335 | over every run only the slots 0 to 15 of a table are filled |
| `FdOperations.LooksAtTheSlot` | src/fs/file.c:291-313 | what is read is what is in the slot asked for |
| `FdOperations.DupShares` | src/fs/file.c:242-245 | one more reference to the same file in another hand, and nothing else |
| `FdOperations.CloseDropsOne` | src/fs/file.c:247-249 | the reference is gone and the count one less; if it was the last, and only then, this thread begins the teardown |
| `FdOperations.OpenMakes` | src/fs/file.c:108-110 | opening starts under the tree lock with a new file for the node, in the hand, and leaves all others as they were |
| `FdOperations.PipeMakesTwo` | src/fs/file.c:140-156 | a pipe is a new file for each end of a pipe not used before |
| `FdOperations.PairIsCrossed` | src/fs/file.c:158-178 | each side of a local connection reads the pipe that the other writes |
| `FdOperations.ShutdownTakesTheWriter` | src/fs/file.c:189-194 | the first to shut down takes the writer's end, nobody later |
| `FdOperations.WriterIsClosed` | src/fs/file.c:193 | and closes it, once |
| `FdTheorems.InstallsLowest` | src/fs/file.c:323-335 | installing uses the lowest free slot, and fails only when all 16 are in use |
| `FdTheorems.StepsRunOut` | src/fs/file.c:242-335 | every operation begun is at most 20 of its own steps from its end |
| `FdTheorems.OthersDoNotDelay` | src/fs/file.c:242-335 | no step of another thread adds to them |
| `FdTheorems.NeverStuck` | src/fs/file.c:242-335 | a thread in an operation can go on unless it waits for a lock |
| `FdTheorems.NoDeadlock` | src/fs/file.c:242-335 | whoever waits, some thread in an operation can go on |
| `ElfSegments.SegmentChecks` | src/fs/elf.c:73-84 | the 64-bit checks accept exactly the segments whose file range and memory, in whole numbers, lie in the file and in [0x1000, USER_SPACE_END) |
| `ElfSegments.Read` | src/fs/elf.c:37-47 | a read succeeds exactly inside the file, unless the disk fails, and gives those bytes |
| `ElfSegments.CopyFromSource` | src/fs/elf.c:52-68 | copying a page at a time from a disk is copying at once |
| `ElfSegments.LoadSegment` | src/fs/elf.c:87-114 | the pages of the segment are mapped, or widened, and its file bytes written |
| `ElfLoading.SegmentPages` | src/fs/elf.c:117-121 | for a checked segment the page bounds do not wrap and are the pages that loading maps |
| `ElfLoading.SegmentLazy` | src/fs/elf.c:129-143 | a segment may be left exactly when it is read-only, all from the file, aligned with it, and shares no page with another |
| `ElfLoading.LoadSegments` | src/fs/elf.c:231-262 | the loop succeeds exactly when every PT_LOAD segment passes the checks, unless memory or the disk fails, with the image, regions and report of the specification |
| `ElfGuarantees.HeaderIs` | src/fs/elf.c:198-212 | the file headers accepted are exactly those of a little-endian x86-64 program, fixed or not, with 1 to 64 program headers of 56 bytes inside the file |
| `ElfTheorems.LoadedPages` | src/fs/elf.c:87-114 | a page is mapped if it was or a loaded segment touches it; it is writable if some sharer is, no-execute if all are |
| `ElfTheorems.LoadedBytes` | src/fs/elf.c:87-114 | an address has the byte of the last segment with file contents for it; what was there before otherwise, 0 on a new page |
| `ElfTheorems.LoadedImage` | src/fs/elf.c:185-262 | both, for every address |
| `ElfLazy.LeftIsAlone` | src/fs/elf.c:129-143 | a segment left shares no page with any other |
| `ElfLazy.LazyShowsTheSame` | src/fs/elf.c:185-262 | at every address of every segment, reading segments left from the file gives the byte and permissions that loading everything gives |
| `ElfRelocations.VaddrToFileOffset` | src/fs/elf_dyn.c:21-35 | the file offset of the first segment whose file part has the range, if it is in the file; what would wrap is refused |
| `ElfRelocations.VaddrInImage` | src/fs/elf_dyn.c:38-45 | exactly whether one segment's memory has the range |
| `ElfRelocations.ScanDynamic` | src/fs/elf_dyn.c:64-78 | reading 16 entries at a time is scanning the entries before the first DT_NULL at once, the last value of each tag counting |
| `ElfRelocations.ApplyTable` | src/fs/elf_dyn.c:88-108 | reading 64 entries at a time is applying the whole table in order; it succeeds exactly when every entry can be applied, and changes only segments' memory even if it fails |
| `ElfRelocations.ApplyRelocations` | src/fs/elf_dyn.c:50-109 | the same from the program headers on: no table, a malformed one, or its entries applied; `ElfRelative` gives the bytes of such files |
| `ElfRelocations.PlaceIsInside` | src/fs/elf_dyn.c:97-104 | an accepted place lies, with the bias and without wrapping, in the memory of one checked segment |
| `ElfGuarantees.PatchedBytes` | src/fs/elf_dyn.c:92-106 | every byte after relocation is that of the last entry for it, or what was loaded |
| `ElfGuarantees.PlaceHolds` | src/fs/elf_dyn.c:103-104 | a place that no later entry overlaps holds bias plus addend modulo 2^64 |
| `ElfImage.LoadImage` | src/fs/elf.c:185-288 | accepts a file exactly when header, segments, relocations and entry point are right, unless memory or the disk fails; memory, entry, regions and report as specified |
| `ElfGuarantees.StaysInUserSpace` | src/fs/elf.c:73-84 | nothing of an accepted program is mapped, or left to be, outside the user's part, and never page 0 |
| `ElfGuarantees.EntryIsExecutable` | src/fs/elf.c:269-282 | it starts on a page that may be executed, loaded or left |
| `ElfGuarantees.FirstFourReported` | src/fs/elf.c:257-261 | the segments reported are the first four with memory, each with its page bounds and whether it is for writing and executing |
| `ElfGuarantees.LoadablesAre` | src/fs/elf.c:257 | those with memory are the PT_LOAD headers that are not empty, all of them, in order |
| `ElfGuarantees.AcceptedEitherWay` | src/fs/elf.c:185-288 | a file accepted with segments left is accepted with everything loaded |
| `ElfGuarantees.LazyProgramIsTheSame` | src/fs/elf.c:185-288 | and, relocated, has the same byte at every address of every segment: no entry aims at what was left |
| `ElfGuarantees.EndIsLast` | src/fs/elf.c:255-256 | the end reported is the greatest end of a segment, in 64-bit arithmetic |
| `ElfGuarantees.EndInUserSpace` | src/fs/elf.c:255-256 | it is in the user's part exactly when no empty segment lies above it |
| `ElfBytes.EhdrRoundTrip` | src/fs/elf.c:198-212 | a file header written as bytes is read as it was |
| `ElfBytes.PhdrRoundTrip` | src/fs/elf.c:223-226 | likewise a program header, wherever it is |
| `ElfBytes.DynRoundTrip` | src/fs/elf_dyn.c:64-78 | likewise a dynamic entry |
| `ElfBytes.RelaRoundTrip` | src/fs/elf_dyn.c:88-94 | likewise a relocation entry: place, info and addend |
| `ElfBytes.TableRoundTrip` | src/fs/elf_dyn.c:88-94 | likewise each entry of a table of any length |
| `ElfBytes.LittleEndian` | src/fs/elf.c:202 | numbers have their least byte first |
| `ElfBytes.FlagsAre` | src/fs/elf.c:92-93 | bit 0 of the flags is for executing, bit 1 for writing |
| `ElfBytes.KindIs` | src/fs/elf_dyn.c:93-95 | the low half of a relocation's info is its kind |
| `ElfRelative.TableOfPie` | src/fs/elf_dyn.c:50-87 | in the bytes of a file with a text segment, a data segment and a dynamic section the loader finds the table, and in it the entries that were written |
| `ElfRelative.RelocatedProgram` | src/fs/elf_dyn.c:88-108 | such a file, with up to 2^20 entries that are for nothing or for places in the data, is accepted wherever it is put, asked for or by chance, and each place that no later entry overlaps holds the bias plus the addend |
| `ElfRelative.OtherKindIsRefused` | src/fs/elf_dyn.c:93-95 | with an entry of any other kind it is refused |
| `ElfRelative.OddTableIsRefused` | src/fs/elf_dyn.c:80-83 | a table with other than whole entries of 24 bytes, or more than 2^20, is malformed |
| `ElfRelative.TextAndData` | src/fs/elf.c:87-114 | its data may be written and not executed, its text executed and not written |
| `ElfEmptySegment.EndCanBeOutside` | src/fs/elf.c:74 | the bytes of a file, with one executable segment and an empty one, that is accepted and whose end is outside the user's part |
| `Calendar.CodeCountsDays` | lib/time/date.c:8-15 | the 32-bit formula gives the day number of every date of every year |
| `Calendar.CodeFindsDate` | lib/time/date.c:17-27 | the 32-bit formula gives the date of every day, its year modulo 2^32 |
| `Calendar.DaysRoundTrip` | lib/time/date.c:8-27 | a day's date has that day's number exactly for the days from 0000-01-01 to 4294967295-12-31 |
| `Calendar.DateRoundTrip` | lib/time/date.c:8-27 | a valid date comes back exactly when its year is in 0 .. 2^32-1 |
| `Calendar.NextDayIsNextDate` | lib/time/date.c:17-27 | the next day's date is the Gregorian successor, by month lengths and the leap rule |
| `Calendar.TheEpoch` | lib/time/date.c:8-27 | day 0 is 1970-01-01 |
| `SortNumbers.ReadNumber` | user/sort.c:88-104 | the number read has no zeros that do not count and no minus on 0, and is worth what all the digits of the key are worth |
| `SortNumbers.MagnitudeOrder` | user/sort.c:108-116 | comparing digits as text is comparing values, for every length, fractions included |
| `SortNumbers.CompareNumbers` | user/sort.c:124-129 | with -n the order is exactly that of the decimal values |
| `SortLaws.ValueIs` | user/sort.c:78-104 | every text has one reading as blanks, a minus or none, digits and digits after a point or none, and is worth what those digits are |
| `SortLaws.EveryTextHasParts` | user/sort.c:88-104 | and has it always |
| `SortLaws.BlanksAre` | user/sort.c:31-33 | blanks are the space and the tab |
| `SortLaws.WholeMore` | user/sort.c:88-104 | one more digit: ten times as much, and the digit |
| `SortKeys.FieldStart` | user/sort.c:38-52 | the loops find the field's start |
| `SortKeys.FieldsAreSeparated` | user/sort.c:38-52 | with -t, field n starts after the separator number n - 1, or at the end |
| `SortKeys.SeparatorIsFound` | user/sort.c:42 | the bytes that separate are those equal to the separator exactly if it is at most 127 |
| `SortKeys.OneField` | user/sort.c:38-62 | above that every line is one field |
| `SortKeys.FieldsAreWords` | user/sort.c:38-52 | without, it starts after the word number n - 1, or at the end |
| `SortKeys.Key` | user/sort.c:67-74 | the key is fields N to M |
| `SortLaws.KeyIs` | user/sort.c:66-74 | the key goes from where field N starts to where field M ends, or to the line's end, and is empty if that comes first |
| `SortLaws.FieldEndsBeforeSeparator` | user/sort.c:54-64 | with -t field M ends just before the separator number M, or with the line |
| `SortLaws.FieldEndsAfterWord` | user/sort.c:54-64 | without, right after the word number M, or with the line |
| `SortLaws.LexIs` | user/sort.c:130-133 | one text is before another exactly if its first byte that differs is less or it is where the other goes on |
| `SortKeys.CompareKeys` | user/sort.c:120-134 | the keys' order: of values with -n, of bytes otherwise, the shorter first |
| `SortKeys.OrderTurns` | user/sort.c:137-140 | the order, -r included, is total |
| `SortKeys.OrderChains` | user/sort.c:137-140 | and transitive, strictly if a step is strict |
| `MergeSort.MergeSortLines` | user/sort.c:144-154 | in place, with the spare array, the lines become their merge sort and the rest of the array stays |
| `MergeSort.SortIsStable` | user/sort.c:144-154 | the merge sort is in order and keeps the order of equal keys |
| `MergeSort.SortedIsPermutation` | user/sort.c:144-154 | such a result has the same lines as often |
| `MergeSort.StableSortIsUnique` | user/sort.c:144-154 | and there is only one |
| `MergeSort.SortAndPrint` | user/sort.c:231-241 | main sorts, then prints by the rule of -u |
| `MergeSort.WhatIsPrinted` | user/sort.c:237-241 | with -u exactly one line of each class of equal keys is printed, the first in input order; without, the sorted input |
| `FatNames.ShortRoundTrip` | tools/mkfat.py:31-45 | an 8.3 name with case flags is shown as it was exactly when it does not end in a dot |
| `FatEntries.LongEntriesRead` | tools/mkfat.py:85-94 | the long-name entries, from the last piece to the first, put the name together again under one checksum |
| `FatChecksum.LfnChecksum` | src/fs/fat32.c:382-386 | the kernel's loop on 8-bit words gives the builder's checksum, for every short name |
| `FatChecksum.SumsAgree` | tools/mkfat.py:48-53 | the builder's checksum in whole numbers and the kernel's in 8-bit words are the same, of any bytes |
| `FatChecksum.ChecksumOfLongNames` | tools/mkfat.py:48-53 | it is 0x17 at `LONGNA~1` |
| `FatLaws.CharactersAre` | tools/mkfat.py:36 | the characters of 8.3 names and those that no long name may have |
| `FatLaws.CaseIs` | tools/mkfat.py:39-45 | letters change case, each into its own |
| `FatLaws.OthersHaveNone` | tools/mkfat.py:39-45 | and nothing else does |
| `FatLaws.ShortNamesAre` | tools/mkfat.py:31-45 | the 8.3 names are exactly: one to eight characters, or these, a dot and up to three, all allowed, no part with letters of both cases |
| `FatLaws.LongNamesMayBe` | tools/mkfat.py:82 | the names that can have long entries: at most 127 printable characters, none of those |
| `FatLaws.KeptInOrder` | tools/mkfat.py:62-63 | a short name keeps the characters of a long one one by one |
| `FatLaws.KeptOfOne` | tools/mkfat.py:58-63 | each in upper case, if it is allowed and no tilde |
| `FatLaws.AliasParts` | tools/mkfat.py:59-63 | it is made of what is before the last dot and three characters of what is after it |
| `FatLaws.AliasWhole` | tools/mkfat.py:59-61 | or of the whole name if there is no dot or nothing before it |
| `FatLaws.AliasIs` | tools/mkfat.py:64-66 | as much of that as there is room for, a tilde, the number, and spaces |
| `FatLaws.DecimalIs` | tools/mkfat.py:65 | the number in decimal |
| `FatLaws.ShortEntryIs` | tools/mkfat.py:96-97 | where each field of a short entry is, the date 1 January 2026 |
| `FatLaws.LongEntryIs` | tools/mkfat.py:93-94 | where each character of a long entry is, and its other fields |
| `FatLaws.DotsAre` | tools/mkfat.py:140-142 | a directory below the root starts with `.` and `..`, as directories, without case flags |
| `FatLaws.EntriesAre` | tools/mkfat.py:191-200 | a directory has a file with its size and first cluster, 0 for none, and a directory with its own |
| `FatLaws.LongNamesAre` | tools/mkfat.py:72-97 | `Long Names` is written as two entries under the short name `LONGNA~1` |
| `FatDirectory.EncodedIsRead` | tools/mkfat.py:72-97 | the entries of any name are read back as that name, attribute, cluster and size, by a reader that computes the checksum as the kernel does |
| `FatDirectory.FirstFree` | tools/mkfat.py:56-69 | a long name's short name is the first of 99999 that is not in use; there is none exactly when all are |
| `FatShortNames.RawsDistinct` | tools/mkfat.py:72-97 | the short names of a directory are distinct exactly when no 8.3 name is the short name of an entry before it |
| `FatShortNames.PlainRawsDistinct` | tools/mkfat.py:72-97 | without a tilde in an 8.3 name, exactly when no two 8.3 names are the same but for case |
| `FatShortNames.TwoOfOneName` | tools/mkfat.py:31-45 | `A.TXT` and `a.txt` are the same |
| `FatDirectory.DirectoryIsRead` | tools/mkfat.py:134-149 | a directory, padded to sectors, is read back as its dots and names in order |
| `FatImage.FatHasRoom` | tools/mkfat.py:106-115 | whatever the size, the FAT has an entry for every cluster and little more than a sector to spare, and the layout is the whole volume |
| `FatImage.ThirtyThree` | tools/mkfat.py:113-115 | large enough is exactly 33 MiB or more |
| `FatImage.Image.Allocate` | tools/mkfat.py:120-132 | data goes into a new chain after all others if it fits, and nothing else changes |
| `FatImage.DataIsRead` | tools/mkfat.py:120-132 | following the FAT gives the data back, padded with zeros |
| `FatTree.PatchedDirectory` | tools/mkfat.py:204-211 | patching ".." in gives the directory that would have been written with the parent known |
| `FatBuild.PatchParents` | tools/mkfat.py:204-211 | it is done for every child directory, and nothing else changes |
| `FatBuild.AddChildren` | tools/mkfat.py:191-200 | every child is stored, in order, and described by its entry; it fails exactly when a name or size cannot be written or the clusters run out |
| `FatBuild.AddDirectory` | tools/mkfat.py:188-212 | likewise for a directory with all that is in it |
| `FatBuild.AddRoot` | tools/mkfat.py:188-212 | likewise for the root |
| `FatReadBack.TreeIsReadBack` | tools/mkfat.py:188-212 | reading the image from its root, chains, names and all, gives the tree with its names as shown, by a reader that refuses a directory whose `.` is not itself or whose `..` is not its parent |
| `FatReadBack.ListKept` | tools/mkfat.py:31-45 | that is the source tree exactly when no 8.3 name ends in a dot |
| `FatReadBack.HeldDirectoryIsRead` | tools/mkfat.py:134-149 | a directory stored with a parent is read as its entries, below a `.` that names it and a `..` that names the parent |
| `FatChains.AllConsecutive` | tools/mkfat.py:120-132 | the chains of a tree, the root directory's last, are one after another |
| `FatChains.ChainsAreDisjoint` | tools/mkfat.py:120-132 | such chains share no cluster |
| `FatChains.TreeLinks` | tools/mkfat.py:120-212 | following the FAT of an image gives, for the root and each file and directory, the clusters of its chain; no cluster is in two, and every cluster with an entry is in one |
| `FatReadBack.MakeImage` | tools/mkfat.py:244-249 | the whole builder: an image exactly when the size is enough, names can be written and files fit; read back, with every `..`, it is the tree, and its FAT links exactly its chains |
| `Sha256.Context.Transform` | lib/crypto/sha256.c:32-70 | the schedule and the 64 rounds in place are the compression function of section 6.2.2 of FIPS 180-4 |
| `Sha256.Context.Update` | lib/crypto/sha256.c:85-95 | the context holds all bytes ever put in: whole blocks mixed in and counted, the rest in the buffer |
| `Sha256.Context.Final` | lib/crypto/sha256.c:97-134 | the digest is that of the message padded as in section 5.1.1 of FIPS 180-4, for every message under 2^61 bytes |
| `Sha256.PadIsBlocks` | lib/crypto/sha256.c:97-122 | the padding makes whole blocks, with as few zeros as it takes |
| `Sha256Laws.ConstantsAreRoots` | lib/crypto/sha256.c:19-28 | the 64 constants are the first 32 bits of the fractions of the cube roots of the first 64 primes |
| `Sha256Laws.InitialIsRoots` | lib/crypto/sha256.c:72-83 | the words to start with are those of the square roots of the first eight |
| `Sha256Laws.WordIs` | lib/crypto/sha256.c:35-36 | words are read with the most significant byte first |
| `Sha256Laws.DigestIs` | lib/crypto/sha256.c:124-133 | and written so |
| `Sha256Laws.LengthIs` | lib/crypto/sha256.c:114-121 | so is the length |
| `Sha256Laws.BigSigmasTurn` | lib/crypto/sha256.c:14-15 | the functions of section 4.1.2 of FIPS 180-4 are made of words turned right by the amounts it gives |
| `Sha256Laws.SmallSigmasTurn` | lib/crypto/sha256.c:16-17 | likewise those of the schedule |
| `Sha256Laws.PlusIs` | lib/crypto/sha256.c:34-70 | sums are taken modulo 2^32 |
| `Sha256Laws.XorIs` | lib/crypto/sha256.c:14-17 | and exclusive ors of three words |
| `Sha256Laws.ChChooses` | lib/crypto/sha256.c:12 | Ch takes each bit from its second or third word as the first says |
| `Sha256Laws.MajAgrees` | lib/crypto/sha256.c:13 | Maj has the bit on which two agree |
| `Sha256.HashPieces` | lib/crypto/sha256.c:136-141 | for every way of cutting a message into updates the hash is that of the whole |
| `DhcpLease.LeaseTiming` | user/dhcp.c:88-109 | for all 32-bit inputs of a lease that ends, 0 < T1 < T2 <= end and no sum wraps; suggested T1 and T2 that make sense are used, a T1 alone that comes before the default T2, the defaults otherwise; a T1 given by hand comes first |
| `DhcpLease.OverrideMovesT2` | user/dhcp.c:105-108 | a T1 given by hand leaves T2 unless that is no later, and then moves it halfway to the end |
| `DhcpLease.NeverStepsOver` | user/dhcp.c:119-131 | until the end every wait is positive and none goes past T1, T2 or the end |
| `DhcpLease.RequestsAreLogarithmic` | user/dhcp.c:127-129 | a phase has at most k requests exactly when it is no longer than 60 * 2^(k-1) seconds |
| `DhcpLease.KeepUnanswered` | user/dhcp.c:287-328 | unanswered, however late each wait ends: requests to the server only between T1 and T2 and to anyone only between T2 and the end, each after the wait of the one before, at most so many of each, and the address given up not before the end; with no wait late, just so many and exactly at the end |
| `Bresenham.TurnKeepsTrack` | user/paint.c:66-72 | each turn of the loop goes one step along the longer axis and stays within half a step of the line |
| `Bresenham.Line` | user/paint.c:62-73 | max(dx, dy) + 1 dots from the first point to the second, each within half a pixel of the line along the shorter axis |
| `XargsWords.PackingIsUnique` | user/xargs.c:98-113 | there is one way to share out words so that no line but the last could take the next word |
| `Xargs.Builder.FinishLine` | user/xargs.c:88-96 | a line is run as the strings in the buffer, its result folded into the status |
| `Xargs.Builder.EndWord` | user/xargs.c:102-113 | the word goes to the line, which is run first exactly when it could not take the word |
| `Xargs.Builder.Run` | user/xargs.c:143-164 | over any reads, the lines run are the packing of the blank-separated words of the input; stopped early, of a first part of them; a word is refused only for its length; no run follows one that could not be started; what the commands get is the words themselves exactly when the input has no NUL |
| `Xargs.StatusIs` | user/xargs.c:86-96 | 126 and 127 are passed on, a command that was killed or could not be started is 1, any other that failed 123, otherwise 0 |
| `Xargs.Setup` | user/xargs.c:126-141 | there is room exactly for a command of at most 31 arguments that with the environment leaves a byte |
| `XargsWords.BlanksAre` | user/xargs.c:143-164 | words are separated by spaces, tabs and newlines |
| `Xargs.EveryRunIsTaken` | user/xargs.c:126-141 | every run has a word, at most N, at most 32 arguments and 4096 bytes with the environment |
| `Xargs.StringsOfLine` | user/xargs.c:107-110 | the strings in the buffer are the words, each up to its first NUL |
| `Xargs.WordsArriveWhole` | user/xargs.c:107-110 | lines made of the words of an input arrive whole exactly when the input has no NUL |
| `Xargs.NulCutsAWord` | user/xargs.c:107-110 | an input with one, and the word it cuts |

## Left out

- Shell: run_traps between two commands of a list; job control, pipelines between processes, redirections, here-documents, expansion of words, traps and line editing. A simple command, a pipeline and the expansion of words are functions of a host; the tree of commands is the input.
- Shell arithmetic: the text of an error message is left out; which kind of error came first is kept. The ten levels of binary operators are one method with the level as its argument.
- Shell variables: a failing malloc or setenv, and the child copy of the shell that puts assignments into the environment of one command.
- ShellSemantics: a bound on the steps stands for running as long as it takes; `ShellTheorems.MoreFuel` shows that it does not matter.
- Open files: what reading, writing, devices and sockets do; path lookup and permissions. A caller that stores or closes a file is taken to hold the reference it passes. A file is told apart from an earlier one at its address by a serial number, and which of its node's counts a file is in by two marks; the code has neither.
- Program loader: page tables, frames and the file system behind it. Memory is pages with permissions and bytes; a frame that cannot be had and a disk that cannot be read are a choice made at any time. Messages are left out.
- Calendar: overflow of int64_t, which needs a year beyond 10^15.
- Sort: reading the lines, the options and running out of memory.
- FAT image: names with characters beyond ASCII; writing the boot sector and the numbers of the FAT as bytes. Names are those of a listing, not empty and neither `.` nor `..`. What the builder promises of an image is stated for those that use fewer than 2^28 - 1 clusters, since a greater number would be read as the end of a chain.
- DHCP: messages and sockets; answers to a request, which start a new lease. How late each wait ends is an input; a wait so late that the seconds since the lease was granted pass 2^32 is not covered.
- xargs: fork, exec and looking up the command; what a run comes to is an input.
- Line drawing: coordinates are whole numbers, far inside those of an int on any screen.
- TCP, the scheduler, ext2, the FAT32 driver and the other tools: not modelled.
