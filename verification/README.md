# bish: models and proofs of its algorithms and protocols

bish is a shell and editor written in Rust. This project models the parts of it
that are algorithms or protocols rather than terminal plumbing, and proves what
they are for:

- `EditGraph`, `EditScript`, `Coalescing`, `Diff`, `Placement`, `Gutter`: the Myers
  diff of `src/diff.rs` (an array searched in place, a walk back over saved arrays,
  a loop that merges runs) is a cheapest script, has hunks of one shape, and its two
  users in `src/git.rs` agree with each other line by line.
- `Paths`, `Disks`, `FilePlan`, `FileWorld`, `FilePlanned`, `FileMeaning`, `FileUndo`,
  `FileSteps`, `FileParents`, `FileCommit`, `FileAtomic`, `FileUnseen`, `FileFinish`: the
  file operations of `src/fileops.rs`, on a disk whose calls the operating system may
  refuse, any of them, by number. The planner's backward lookup agrees with the tree
  that its steps make, a plan does what its operations mean and is refused exactly when
  one of them cannot be done, a commit happens whole or not at all, no plan deletes a
  file with unsaved changes, and what is deleted is gone at the end but in one case.
- `Ints64`, `Bits64`, `BaseNumbers`, `ArithSyntax`, `ArithGrammar`, `ArithParser`,
  `ArithMeaning`, `ArithPrecedence`, `ExprTrees`, `ExprRoundTrip`, `ExprSoundness`: the
  one-pass parser and evaluator of `src/arith.rs`, against a tree's eager, wrapping
  meaning, and its operators against numbers, powers of two and bits.
- `DapClient`, `DapSession`, `DapClientFacts`, `DapSystem`, `DapHistory`, `DapProgress`,
  `DapWaiting`: the debug-adapter session of `src/dapclient.rs` beside an adapter
  that withholds the launch's answer until configured, over two queues; what the
  session shows after any run, why its handshake ends, and why that of a client that
  waits does not.
- `CoroutineMachine`, `CoroutineRuns`, `CoroutineSafety`, `CoroutineTheorems`,
  `CoroutineThread`: the x86_64 stack switch of `src/coroutine.rs`, over registers,
  words of memory and disjoint stacks.
- `Utf8`, `Texts`, `FrameHeaders`, `Framing`, `FrameBlocks`: message reassembly in `src/framing.rs`.
- `Utf16`, `TextFiles`, `TextOrder`: opening and saving in `src/encoding.rs`.
- `CssColor`, `CssRange`, `CssMix`, `CssBalance`: colour spaces and mixing in `src/csscolor.rs`, over reals.
- `BraceScan`, `BraceNumbers`, `BraceTrees`, `BraceExpansion`: brace patterns in
  `src/editorconfig.rs`.

Code that changes things in place is modelled as classes, arrays and loops
(`Diff.Round` over its array, `FileCommit.Done`, `ArithParser.Parser`,
`DapSession.Session`, `CoroutineThread.Thread`, `Framing.Frames`), each proved
against a function; the theorems are about those functions. Where machine
arithmetic can panic, the evaluator has an outcome for it (`Overflows`, `Panic`).
Whether the build checks its arithmetic is a constant with no value given
(`Ints64.CHECKED`), so what is proved of the evaluator and of brace ranges holds of
both kinds of build: where one panics, the other wraps, or shifts by its count's
last six bits.

Where the code and what is said of it part ways, the models follow the code:

- `prepare` says that r12 carries the coroutine into the trampoline
  (`src/coroutine.rs:285-303`). The six words are written downward and popped
  upward, so the coroutine is what r13 gets and r12 gets zero
  (`CoroutineMachine.PreparedIsPopped`). The trampoline reads neither register.
- The bound on a brace range is said to keep a typo from asking for millions of
  alternatives (`src/editorconfig.rs:373-376`). In a build that wraps it is on the
  count except for ends exactly 2^63 apart or within a thousand of 2^64 apart
  (`BraceNumbers.BoundIsOnCount`), and those can pass it (`BoundCanBeEscaped`). A
  build that checks arithmetic panics instead, exactly on ends 2^63 or more apart
  (`CheckedBoundIsOnCount`), wherever in a pattern they stand
  (`BraceExpansion.PanicsPrinted`).
- The planner does not know the directories that the committer makes on the way:
  throughout a run it answers as the disk does exactly when each create and each
  rename found its directory there (`FileUnseen.MadeDirectoriesAreUnseen`, inputs in
  `MadeDirectoryIsMissed`); at the end alone it may again, when what was made has been
  deleted (`MadeAndDeleted`).
- It asks the disk rather than the plan whether a directory has files in it
  (`src/fileops.rs:116-123`). That is right exactly when the directory has entries on
  the disk if and only if some entry of it stays there, or some create or rename of
  the plan ends there (`FilePlanned.EmptyCheckIsRight`, inputs in `EmptyCheckAsksDisk`).
- What an edit deleted is said to be deleted for good when the edit is over
  (`src/fileops.rs:275-276`). It is exactly when no directory above something put aside
  is renamed, or put aside itself, to where its name is not looked for
  (`FileFinish.FinishedIsPlanned`): a file deleted and its directory renamed in one edit
  stays in the renamed directory under its aside name (input in `RenamedAsideStrays`).
- An unpaired deletion is said to mark the line where the next run resumes, or the
  last (`src/git.rs:480-482`). It does exactly when nothing follows or the next run
  resumes at the first line (`Gutter.MarkedAsNamed`); anywhere else the line above is
  marked (input in `MarkedLineBefore`).
- UTF-8 text saved without a mark does not always open as itself: not when it
  begins with U+FEFF (`TextFiles.SaveThenOpen`, input in `MarkIsNotText`).
- A latin-1 file is said to stay one (`src/encoding.rs:15-18`). It does exactly when
  its bytes begin with no mark and are not UTF-8; its text comes back exactly when
  they begin with no mark and are not UTF-8 or all ASCII (`TextFiles.SaveThenOpen`,
  `LatinTextReturns`, input in `LatinCanReopenAsUtf8`).

## Model

| member | source | states |
|---|---|---|
| `EditGraph.ReachIsFurthest` | src/diff.rs:49-67 | the value the search leaves on a diagonal after `d` rounds is the furthest point that `d` edits can reach there, on the grid or past it |
| `EditGraph.EntryIsFurther` | src/diff.rs:55-59 | the tie rule takes whichever neighbour gets further onto the diagonal |
| `EditGraph.SlideOfRound` | src/diff.rs:60-63 | the slide runs over equal elements only, costs nothing and stops at the first mismatch |
| `EditGraph.DistOffGrid` | src/diff.rs:49-67 | a frontier point beyond the corner is exactly its excess further than the corner |
| `EditGraph.HitIsCorner` | src/diff.rs:64-67 | the test for the end succeeds in one round and on one diagonal only, and there the point is exactly `(n, m)` |
| `EditGraph.CornerOnRound` | src/diff.rs:41-49 | that round is at most `n + m` and visits the corner's diagonal |
| `EditScript.CostAtLeastDist` | src/diff.rs:8-18 | no script that tiles both inputs is cheaper than the edit distance |
| `EditScript.ReplayWritesNew` | src/diff.rs:228-241 | replaying a script over the old sequence writes the new one |
| `EditScript.CommonIsBounded` | src/diff.rs:8-18 | no common subsequence is longer than the distance allows |
| `EditScript.CheapestKeepsLongest` | src/diff.rs:8-18 | a script as cheap as the distance is a cheapest one, keeps a longest common subsequence, and costs `n + m` less twice its length |
| `Coalescing.RunsKeepPath` | src/diff.rs:110-141 | merging steps into runs keeps where they lead and what they cost |
| `Coalescing.RunsAreHunked` | src/diff.rs:110-141 | steps that never delete right after inserting give runs of which no two neighbours are alike and no Insert is followed by a Delete |
| `Coalescing.Coalesce` | src/diff.rs:110-141 | the merging loop computes those runs |
| `Diff.MyersTrace` | src/diff.rs:38-69 | the unbounded loop ends, every index is in range, and each saved array holds the furthest points of the round before |
| `Diff.Round` | src/diff.rs:50-68 | one round updates the array in place to that round's frontier and reports the end in the last round and no other |
| `Diff.FrontierGrows` | src/diff.rs:64 | writing one diagonal leaves the neighbours it is still needed for alone |
| `Diff.UnwindStaysOnPath` | src/diff.rs:77-102 | walking back over one saved array ends on the point that round came from, every index in range |
| `Diff.Backtrack` | src/diff.rs:73-106 | the walk back reproduces the search's path, forwards |
| `Diff.NoDeleteAfterInsert` | src/diff.rs:55 | had a round deleted right after an insertion, the tie rule would have chosen otherwise |
| `Diff.PathDeletesFirst` | src/diff.rs:84 | replayed in the walk back, the tie rule puts deletions before insertions all along the path |
| `Diff.Compute` | src/diff.rs:20-24 | search, walk and merge together compute the operations that `OpsAreCorrect` is about |
| `Diff.OpsAreCorrect` | src/diff.rs:20-141 | for all inputs the operations tile both, replay to the new one, cost least of all scripts, keep a longest common subsequence, and are hunked |
| `Gutter.AlignTo` | src/git.rs:423-435 | the slots filled in are the alignment |
| `Gutter.AlignmentIsCorrect` | src/git.rs:423-435 | aligned lines are equal and in strictly increasing order |
| `Gutter.AlignmentIsLongest` | src/git.rs:423-435 | no common subsequence has more lines than are aligned |
| `Gutter.MarksFromDiff` | src/git.rs:484-516 | the marks inserted run by run are those the alignment calls for, and the case called unreachable is never met |
| `Gutter.StampIsMark` | src/git.rs:488-514 | whatever one run inserts is the one mark the alignment gives that line, so no mark overwrites another kind |
| `Gutter.MarkedAsNamed` | src/git.rs:480-512 | an unpaired deletion marks the line where the next run resumes, or the last, exactly when nothing follows it or that line is the first; else the line above |
| `Gutter.MarkedLineBefore` | src/git.rs:506-512 | the second of three different lines deleted marks line 0, though the next run resumes at 1 |
| `Gutter.GutterAgreesWithAlignment` | src/git.rs:484-516 | a line is Added or Changed exactly when nothing is aligned with it, and Removed only falls on a line that survives |
| `Paths.MovedIsUnder` | src/fileops.rs:71-77 | a moved path lies under the new name, and moving it back restores it |
| `Paths.RelocateBack` | src/fileops.rs:196-200 | moving a subtree to a free place and back changes nothing |
| `Disks.RenameKeepsWellFormed` | src/fileops.rs:232-243 | a rename that the operating system allows leaves a tree |
| `FilePlan.Model.Find` | src/fileops.rs:94-106 | the backward walk computes where a path is found |
| `FilePlan.Model.Exists` | src/fileops.rs:108-114 | whether a path exists by now |
| `FileWorld.FindAgrees` | src/fileops.rs:94-106 | for every path, what the backward walk finds is what stands there in the tree made by applying the changes forwards, subtrees moved whole |
| `FileWorld.ExistsAgrees` | src/fileops.rs:108-114 | so the planner's question is answered as that tree would |
| `FileWorld.TrackThenFind` | src/fileops.rs:94-106 | a disk path tracked forwards through renames and deletes ends at `q` if and only if looking up `q` finds that disk path |
| `FilePlan.Plan` | src/fileops.rs:130-193 | each operation is accepted or refused, and its steps ordered, as in the specification that the rows below are about |
| `FileMeaning.AcceptedDoesWhatIsMeant` | src/fileops.rs:130-193 | the steps of an accepted plan that fits its tree leave the tree that the operations mean, each taken on its own (a create makes its file, over another only to overwrite it, and else leaves it; a rename moves a subtree likewise; a delete removes one), everything where its origin says, and the unsaved files where the renames took them |
| `FileMeaning.RefusesRightly` | src/fileops.rs:134-190 | one operation is refused, and for a reason, exactly when that reason holds of where everything stands: its source missing, its target there, a directory with files in it, or unsaved changes in what it takes away |
| `FileMeaning.RefusedWhenImpossible` | src/fileops.rs:130-193 | a plan is refused exactly for its first operation that cannot be done where those before it leave things, and for that reason |
| `FileMeaning.StepsKeepTheirPlace` | src/fileops.rs:130-193 | the steps of each operation stand where the operation did among the text changes |
| `FilePlanned.AcceptedFitsIffSensible` | src/fileops.rs:130-193 | every step of an accepted plan fits the tree before it exactly when targets have directories to go in and no rename crosses its own subtree |
| `FilePlanned.AcceptedSparesUnsaved` | src/fileops.rs:130-193 | no accepted plan deletes a file with unsaved changes under the name it has by then |
| `FilePlanned.SparedIsTracked` | src/fileops.rs:61-66 | a file the deletes spare ends exactly where an open buffer following it looks |
| `FilePlanned.DestinationIsTrack` | src/fileops.rs:47-57 | a text change lands where the steps after it take its file, or nowhere when one deletes it |
| `FilePlan.Destination` | src/fileops.rs:47-57 | the loop over later steps computes that place |
| `FilePlanned.EmptyCheckIsRight` | src/fileops.rs:116-123 | for every path, the check for a directory with files in it agrees with the planned tree exactly when, for a directory of the disk, having entries there and being left with entries by the steps (some stay, or a create or rename ends there) are the same |
| `FilePlanned.LeftFullIsFull` | src/fileops.rs:116-123 | what the steps leave in a directory of the disk, read off the steps, is what the planned tree has in it |
| `FilePlanned.EmptyCheckAsksDisk` | src/fileops.rs:116-123 | inputs on which they differ, both ways: a file planned into an empty directory, and a directory emptied by the plan |
| `FileUndo.MakeUndone` | src/fileops.rs:264-273 | taking back a file or a directory made restores the tree |
| `FileUndo.RenameUndone` | src/fileops.rs:264-273 | renaming back restores the tree exactly when nothing was in the way |
| `FileUndo.UndoneInFull` | src/fileops.rs:262-273 | with no call refused, the whole log is taken back |
| `FileSteps.NextCanBeMade` | src/fileops.rs:248-260 | made outermost first, each missing directory has its parent by its turn |
| `FileParents.CreateComesTo` | src/fileops.rs:226-229 | a create can be done exactly when nothing has its name and nothing but directories is above it; then the empty file is there, every directory above, and nothing else is changed |
| `FileParents.RenameComesTo` | src/fileops.rs:231-234 | a rename can be done exactly when its file is there, its target lies outside it under nothing but directories, and what is at the target can be replaced; then there is the moved subtree, every directory above, and what else there was |
| `FileSteps.StepGoes` | src/fileops.rs:223-260 | a step goes through exactly when the tree lets it and no call it makes is refused, and then has its whole effect; however it goes the log still leads back, unless a rename went through over something |
| `FileSteps.StepsGo` | src/fileops.rs:211-220 | so with all the steps; when the tree lets every one, what stopped them is the refusal of the last call made |
| `FileSteps.CommitIsAtomic` | src/fileops.rs:209-273 | the commit goes through exactly when the tree lets every step and none of their calls is refused; either every step's effect is there with a log that undoes all of it, or the tree is as before, unless a rename went through over something or a call taking back is itself refused |
| `FileCommit.MissingDirectories` | src/fileops.rs:248-254 | walking up finds the directories that are missing |
| `FileCommit.Done.Parents` | src/fileops.rs:246-260 | the loop makes them, outermost first, each one call and one log entry, up to the first that fails |
| `FileCommit.Done.Take` | src/fileops.rs:223-244 | one step: tree, calls, log, aside names and outcome are those `StepGoes` is about |
| `FileCommit.Done.Undo` | src/fileops.rs:262-273 | the log is taken back from its end, one call an entry; an entry refused stays done, and the ones before it are still taken back |
| `FileCommit.Commit` | src/fileops.rs:209-220 | tree, calls, log and outcome are those `CommitIsAtomic` is about |
| `FileFinish.Finish` | src/fileops.rs:275-283 | each aside is removed in its turn, a directory with all that is in it, and a failure is let be |
| `FileFinish.CommitRemembersAsides` | src/fileops.rs:236-243 | a commit that goes through remembers the aside name of each delete, in order |
| `FileFinish.FinishRemovesAsides` | src/fileops.rs:275-283 | with nothing refused, all that is at or under a remembered name goes and nothing else |
| `FileFinish.FinishedIsPlanned` | src/fileops.rs:275-283 | finished, a plan that fits its tree leaves exactly the planned tree if and only if none of its asides was moved from where finishing looks |
| `FileFinish.RenamedAsideStrays` | src/fileops.rs:236-283 | the input: a file deleted and its directory then renamed is left behind under its aside name |
| `FileAtomic.VisibleAside` | src/fileops.rs:236-243 | putting a path aside under a fresh name looks like deleting it |
| `FileAtomic.GroundedPlanRuns` | src/fileops.rs:211-244 | a plan that fits its tree runs: every step possible, every target free, and what is left is the planned tree |
| `FileAtomic.Carry` | src/fileops.rs:130-220 | planned and committed together: refused by the planner, nothing is touched; otherwise what is to be seen is what the operations mean, with everything still undoable, exactly when none of the calls is refused, or nothing, short of a refusal while taking back |
| `FileUnseen.MadeDirectoriesAreUnseen` | src/fileops.rs:246-260 | over a run whose steps are possible and find their targets free, the planner answers as the disk does at every moment and for every path exactly when each create and rename found its directory there |
| `FileUnseen.MadeDirectoryIsMissed` | src/fileops.rs:229-260 | inputs with the directory missing: made, and denied by the planner |
| `FileUnseen.MadeAndDeleted` | src/fileops.rs:229-260 | a directory made on the way and deleted again: at the end the planner answers as the disk does all the same |
| `Ints64.Ipow` | src/arith.rs:574-585 | fast exponentiation is the power modulo 2^64, read as signed |
| `Bits64.BitsCombine` | src/arith.rs:343-371 | every bit of an or, exclusive or and and is that of the two bits |
| `Bits64.BitsTurnOver` | src/arith.rs:502-506 | every bit of the complement is the other one |
| `Bits64.BitsMove` | src/arith.rs:417-433 | a shift moves every bit by its places, zeros coming in from below and the sign from above |
| `Bits64.BitsDetermine` | src/arith.rs:343-371 | two 64-bit numbers with the same bits are the same |
| `BaseNumbers.BaseNumber` | src/arith.rs:590-617 | a number in a base is its positional value modulo 2^64 exactly when every digit is below the base; otherwise the first thing wrong is named |
| `BaseNumbers.DigitsHaveValues` | src/arith.rs:602-608 | the sixty-four digits have the values 0 to 63, letters of either case the same up to base 36, and nothing else has one |
| `BaseNumbers.SpelledReads` | src/arith.rs:598-616 | every number spelled in a base by dividing reads back as itself |
| `BaseNumbers.DigitsFit` | src/arith.rs:602-614 | of the sixty-four digits those of a base are the ones worth less than it |
| `BaseNumbers.BadIsNamed` | src/arith.rs:602-614 | what is no digit of a base is too great for it if it is one of the sixty-four, and else invalid |
| `ArithSyntax.DivisionTruncates` | src/arith.rs:453-479 | `/` and `%` are the one pair that gives the dividend back with a remainder smaller than the divisor and of the dividend's sign; the remainder always fits, the quotient but for `MIN / -1` |
| `ArithMeaning.ArithmeticIsModular` | src/arith.rs:435-494 | sums, differences, products and powers are right modulo 2^64, and nothing but a negative exponent is refused |
| `ArithMeaning.DivisionMeans` | src/arith.rs:453-479 | quotient and remainder truncate; a divisor of 0 is refused, and `MIN` by -1 a panic, for both |
| `ArithMeaning.BitwiseActs` | src/arith.rs:343-371 | the four bitwise operators act bit by bit |
| `ArithMeaning.ShiftsScale` | src/arith.rs:417-433 | shifting by the last six bits of a count multiplies by a power of two modulo 2^64, or divides and rounds down; a build that checks panics exactly on a count of more than six bits |
| `ArithMeaning.TruthIsOne` | src/arith.rs:323-415 | comparisons and logical operators give 1 and 0, and any number but 0 counts as true |
| `ArithMeaning.SignsMean` | src/arith.rs:507-515 | a minus sign gives what adds up to 0, but for the one number that has no negative |
| `ArithMeaning.VariablesHold` | src/arith.rs:543-562 | an unset variable is 0, and setting one changes no other |
| `ArithMeaning.StepsAreAssignments` | src/arith.rs:516-562 | `++x` is `x += 1`, `x++` the same but for its value, and `--` likewise, except that a build that checks panics at the ends |
| `ArithMeaning.ConditionPicks` | src/arith.rs:307-321 | the first arm is the value exactly when the condition is not 0, both having been evaluated in order |
| `ArithPrecedence.OperandsGroup` | src/arith.rs:323-494 | of any two operators in a row, by the eleven degrees of tightness, the tighter is applied first, and of two as tight the first, but of two `**` the second |
| `ExprRoundTrip.WrittenParses` | src/arith.rs:243-570 | whatever is written for a level parses at that level to what its tree means, leaving what follows |
| `ExprRoundTrip.RoundTrip` | src/arith.rs:619-629 | any tree, assignments and steps included, printed with only the parentheses it needs, parses to the last token and gives the tree's eager left-to-right meaning: value, variables, errors and the token blamed |
| `ExprSoundness.OnlyExpressionsParse` | src/arith.rs:619-629 | whatever token list is given a value spells some tree, with parentheses and signs wherever they may stand, and the value and the variables are the tree's |
| `ArithParser.Parser.ParseComma` | src/arith.rs:249-261 | the comma level is the grammar's |
| `ArithParser.Parser.ParseAssign` | src/arith.rs:263-305 | assignment, plain and compound, is the grammar's |
| `ArithParser.Parser.ParseTernary` | src/arith.rs:307-321 | the conditional evaluates both arms |
| `ArithParser.Parser.ParseOr` | src/arith.rs:323-331 | its level's loop is the grammar's, both operands evaluated |
| `ArithParser.Parser.ParseAnd` | src/arith.rs:333-341 | its level's loop is the grammar's, both operands evaluated |
| `ArithParser.Parser.ParseBitOr` | src/arith.rs:343-351 | its level's loop is the grammar's |
| `ArithParser.Parser.ParseBitXor` | src/arith.rs:353-361 | its level's loop is the grammar's |
| `ArithParser.Parser.ParseBitAnd` | src/arith.rs:363-371 | its level's loop is the grammar's |
| `ArithParser.Parser.ParseEq` | src/arith.rs:373-389 | its level's loop is the grammar's |
| `ArithParser.Parser.ParseRel` | src/arith.rs:391-415 | its level's loop is the grammar's |
| `ArithParser.Parser.ParseShift` | src/arith.rs:417-433 | its level's loop is the grammar's, a count out of range a panic or taken modulo 64 |
| `ArithParser.Parser.ParseAdd` | src/arith.rs:435-451 | its level's loop is the grammar's |
| `ArithParser.Parser.ParseMul` | src/arith.rs:453-479 | its level's loop is the grammar's, division by zero refused |
| `ArithParser.Parser.ParsePow` | src/arith.rs:483-494 | right-associative exponentiation, a negative exponent refused |
| `ArithParser.Parser.ParseUnary` | src/arith.rs:496-541 | prefix operators and steps are the grammar's |
| `ArithParser.Parser.ParsePrimary` | src/arith.rs:543-570 | numbers, names, postfix steps and parentheses are the grammar's |
| `ArithParser.EvalTokens` | src/arith.rs:619-629 | a whole expression is one comma expression and nothing after it |
| `DapSession.Session.SetBreakpoints` | src/dapclient.rs:172-180 | lines are recorded sorted and once each, and sent at once only when configured |
| `DapSession.Session.SendBreakpoints` | src/dapclient.rs:439-449 | a file's lines go out, its name kept under the negated number |
| `DapSession.Session.Ask` | src/dapclient.rs:451-457 | a request takes the next number and is remembered under it |
| `DapSession.Session.Drive` | src/dapclient.rs:225-246 | resuming or stepping asks for it and counts the program as running again |
| `DapSession.Session.TakeResponse` | src/dapclient.rs:292-296 | an answer is taken once, and nothing else goes with it |
| `DapSession.Session.UpdateBreakpoint` | src/dapclient.rs:423-437 | a revised breakpoint replaces the first entry it fits in some file, by number or by line, and nothing else |
| `DapSession.Session.Absorb` | src/dapclient.rs:351-419 | every message has exactly the effect the protocol model allows |
| `DapClientFacts.WantStaysInSync` | src/dapclient.rs:172-180 | wanting breakpoints keeps the last lines sent for every file equal to the lines wanted |
| `DapClientFacts.HearingStaysInSync` | src/dapclient.rs:351-419 | so does hearing anything at all |
| `DapClientFacts.AnswerKeepsBooks` | src/dapclient.rs:354-380 | positive and negated keys of the one map never collide |
| `DapClientFacts.StoredUnderItsFile` | src/dapclient.rs:369-377 | a successful breakpoint answer is stored under the file its request named |
| `DapSystem.StepKeepsInv` | src/dapclient.rs:351-457 | every move of user, client or adapter keeps the queues, the handshake's order, the books and the breakpoints in step |
| `DapSystem.EveryRunKeepsInv` | src/dapclient.rs:9-20 | so every state of every run does, whatever the user and the adapter do |
| `DapSystem.SentIsWanted` | src/dapclient.rs:172-180 | over any run, once configured, the last `setBreakpoints` sent for every file carries exactly the lines wanted of it |
| `DapHistory.ShowsWhatWasSaidLast` | src/dapclient.rs:351-419 | after any run, running or stopped and why, the stage of the handshake, the capabilities and each answer not taken are what the last move that says anything of them said |
| `DapHistory.WantsWhatWasAskedLast` | src/dapclient.rs:172-180 | after any run the lines wanted of a file are the user's last, sorted and once each |
| `DapHistory.RequestsAreRefused` | src/dapclient.rs:351-419 | after any run the answers written are refusals of the adapter's requests heard, once each and in order |
| `DapHistory.EntryIsFirst` | src/dapclient.rs:423-437 | a revised breakpoint goes to the file's first entry with its number, or with none such to the first on its line in the file it names |
| `DapProgress.ProgressCounts` | src/dapclient.rs:9-20 | each move of the handshake brings its end exactly one nearer |
| `DapProgress.NeverStuck` | src/dapclient.rs:9-20 | before the launch is answered some move is always possible |
| `DapProgress.OthersCount` | src/dapclient.rs:172-457 | how much further exactly any other move, of the user's or said unasked, puts the end |
| `DapProgress.RunsReachLaunch` | src/dapclient.rs:9-20 | over any run at all, the handshake's moves are no more than it had to make at first and the others added, and where none of them is left the launch has been answered |
| `DapProgress.StartReachesLaunch` | src/dapclient.rs:9-20 | from the start that is eleven moves and what the others added |
| `DapSystem.NothingConfiguredEarly` | src/dapclient.rs:385-395 | no breakpoints and no end of configuration are sent before `initialized` is heard |
| `DapSystem.AnswerFindsItsFile` | src/dapclient.rs:369-377 | in any reachable state, a breakpoint answer is stored under the file of the very request it answers |
| `DapWaiting.WaitingNeverLaunches` | src/dapclient.rs:19-20 | no run of a client that configures only once its launch has been answered, whatever its user and the adapter do, ever has the launch answered |
| `DapWaiting.WaitingDeadlocks` | src/dapclient.rs:9-20 | from the start such a client and its adapter, each doing its part, come to where no move of the handshake is left |
| `CoroutineMachine.SwitchSavesAndLoads` | src/coroutine.rs:68-85 | the switch leaves the caller's registers complete below its stack pointer, touches nothing else but the context, and loads the target's |
| `CoroutineMachine.PreparedIsPopped` | src/coroutine.rs:283-306 | what the first switch pops from a prepared stack: the trampoline as the return address, and the coroutine in r13, not r12 |
| `CoroutineThread.Thread.SwitchContext` | src/coroutine.rs:68-85 | a push and a pop at a time, the same switch |
| `CoroutineThread.Thread.Prepare` | src/coroutine.rs:283-306 | the loop over words lays out that stack |
| `CoroutineThread.Thread.ResumeOne` | src/coroutine.rs:329-349 | `resume` up to whatever runs next; nothing for a finished coroutine |
| `CoroutineThread.Thread.Yield` | src/coroutine.rs:398-405 | `yield_now` up to whatever runs next |
| `CoroutineThread.Thread.BodyReturned` | src/coroutine.rs:376-393 | the trampoline from the body's return on |
| `CoroutineRuns.ResumeLeaves` | src/coroutine.rs:329-342 | leaving through `resume`, the caller's image and the two cells as found are complete on its own stack |
| `CoroutineSafety.CallStarts` | src/coroutine.rs:376-386 | a first resume enters the body on an empty stack, other stacks untouched |
| `CoroutineSafety.CallContinues` | src/coroutine.rs:329-349 | resuming a suspended coroutine gives it back its registers, stack pointer and stack |
| `CoroutineSafety.YieldReturnsToResumer` | src/coroutine.rs:398-405 | a yield returns from the resume that started this run of the coroutine, registers, stack and cells as that resume found them |
| `CoroutineSafety.FinishReturnsToResumer` | src/coroutine.rs:386-393 | so does the end of a body, and the coroutine is done |
| `CoroutineTheorems.YieldOutside` | src/coroutine.rs:398-405 | `yield_now` changes nothing exactly when no coroutine runs |
| `CoroutineTheorems.StepKeepsInv` | src/coroutine.rs:329-405 | every event, a body writing the heap included, keeps every suspended image, the chain of resumes and the two cells right |
| `CoroutineTheorems.RunsKeepInv` | src/coroutine.rs:329-405 | over every run, control is never where it is not meant to be, and each body is entered at most once, exactly when its coroutine has left Fresh |
| `CoroutineTheorems.DoneIsAbsorbing` | src/coroutine.rs:178-179 | over every run a finished coroutine's record never changes again |
| `CoroutineTheorems.GivenBackIntact` | src/coroutine.rs:68-85 | over every run of nested resumes, yields and finishes, an execution that lost control and has it again finds its callee-saved registers, stack pointer and stack as it left them, and after a `resume` the two cells |
| `Framing.FindIsFirst` | src/framing.rs:101-103 | the place found is the first there is |
| `Framing.TakeStays` | src/framing.rs:38-79 | bytes still to come change neither what can be taken now nor what it leaves |
| `Framing.FailedIsTerminal` | src/framing.rs:81-91 | after a framing error nothing more comes out |
| `Framing.PiecesDrainAlike` | src/framing.rs:28-79 | however a stream is cut into feeds, and wherever bodies are asked for, what comes out is what comes out of the whole |
| `FrameHeaders.HeaderReadsBack` | src/framing.rs:46-66 | the length written is the length read, or refused beyond the limit |
| `Framing.FrameReadsBack` | src/framing.rs:95-99 | one frame comes back whole, whatever its body holds and whatever follows, and is refused exactly beyond the limit |
| `FrameBlocks.LengthsRead` | src/framing.rs:55-59 | a length in digits reads as itself, after one plus or none, below 2^64 |
| `FrameBlocks.OnlyLengthsRead` | src/framing.rs:55-59 | and nothing else reads as a length |
| `FrameBlocks.LineReads` | src/framing.rs:48-66 | a header line is refused exactly for what is wrong with it, a content length sets the length, and any other line leaves it as it was |
| `FrameBlocks.BlockReads` | src/framing.rs:46-69 | a block's length is that of its last content-length line, and it is refused exactly for the first line with something wrong |
| `FrameBlocks.OnlyLengthIsRead` | src/framing.rs:46-66 | one content-length line among others that have a colon gives its length, wherever it stands |
| `FrameBlocks.AnyCase` | src/framing.rs:52-54 | the field's name counts in any letter case, and no other name does |
| `FrameBlocks.LinesOfJoined` | src/framing.rs:48 | lines joined by CR LF are split back into themselves |
| `FrameBlocks.BlockIsTaken` | src/framing.rs:38-79 | a message under any sound block of header lines comes out whole, what follows left for next time |
| `FrameBlocks.BlockIsRefused` | src/framing.rs:38-79 | a block of lines ends the stream for a reason exactly when its first bad line gives it, or none gives a length |
| `Framing.EncodedComesOut` | src/framing.rs:95-99 | encoded bodies come out as they went in |
| `Framing.EncodedComesOutInPieces` | src/framing.rs:28-99 | in any pieces, at any moments of asking |
| `Framing.Frames.Feed` | src/framing.rs:28-32 | bytes are added unless the stream was abandoned |
| `Framing.Frames.TakeBody` | src/framing.rs:38-79 | the loop over header lines takes what the function takes, and a failure clears the buffer |
| `Framing.Find` | src/framing.rs:101-103 | the window loop finds that place |
| `Utf8.DecodesIffEncodes` | src/encoding.rs:94-99 | well-formed bytes are exactly the forms of texts, one form each (section 4 of RFC 3629) |
| `TextOrder.FormsAreOrdered` | src/encoding.rs:94-99 | UTF-8 forms are in the order of their characters (section 1 of RFC 3629) |
| `TextOrder.MalformedIsReplaced` | src/encoding.rs:166-171 | after whole text, malformed bytes become one replacement character and reading goes on behind them |
| `TextOrder.BadPrefixIsLongest` | src/encoding.rs:166-171 | as many bytes go into it as still begin the form of some character, and no more |
| `Utf16.UnitsArePaired` | src/encoding.rs:143-145 | code units written pair every surrogate and read back (section 2 of RFC 2781) |
| `TextOrder.PairsAreOrdered` | src/encoding.rs:143-145 | surrogate pairs are in the order of their characters |
| `TextOrder.LooseIsReplaced` | src/encoding.rs:158-163 | a surrogate that is not one of a pair becomes one replacement character |
| `Utf16.BytesReadBack` | src/encoding.rs:151-163 | units to bytes and back in either byte order |
| `TextFiles.OpenThenSave` | src/encoding.rs:83-149 | opening and saving is byte for byte the identity exactly when no mark is followed by bytes malformed in what it declares |
| `TextFiles.SaveThenOpen` | src/encoding.rs:83-149 | saving and opening gives text, encoding and mark back always in both UTF-16 forms and marked UTF-8; in plain UTF-8 exactly when it does not begin with the mark's character; in latin-1 exactly when its bytes begin with no mark and are not UTF-8 |
| `TextFiles.MarkIsNotText` | src/encoding.rs:83-149 | U+FEFF alone, saved as UTF-8 without a mark, opens as a mark and no text |
| `TextFiles.LatinTextReturns` | src/encoding.rs:15-18 | text saved as latin-1 comes back exactly when its bytes begin with no mark and are not UTF-8 or all ASCII |
| `TextFiles.LatinCanReopenAsUtf8` | src/encoding.rs:15-18 | the bytes C3 A9, saved as two latin-1 characters, open as one in UTF-8 |
| `TextFiles.UnwritableIsFirst` | src/encoding.rs:129-136 | latin-1 refuses exactly when some character is beyond it, and names the first |
| `TextOrder.LatinIsBytes` | src/encoding.rs:96-136 | latin-1 bytes are the characters' own numbers, opening and saving |
| `TextFiles.EncodeText` | src/encoding.rs:120-149 | the loops over characters and units write those bytes |
| `CssColor.HslIsWheel` | src/csscolor.rs:301-315 | what the conversion computes: the hue's place on the wheel, scaled and lifted |
| `CssColor.HueIsOnWheel` | src/csscolor.rs:338-346 | a colour's hue is where the wheel, scaled to its range and lifted to its lowest channel, is the colour |
| `CssColor.HslRoundTrip` | src/csscolor.rs:301-347 | every 8-bit colour through hue, saturation and lightness is itself |
| `CssColor.HwbRoundTrip` | src/csscolor.rs:319-353 | and through hue, whiteness and blackness |
| `CssRange.HslStandsFor` | src/csscolor.rs:301-315 | for every hue at all, the lightness is halfway between the highest channel and the lowest, and the saturation how far apart they are of how far it lets them be |
| `CssRange.HwbStandsFor` | src/csscolor.rs:319-327 | the whiteness is the lowest channel and the blackness what the highest is short of one; where they leave no room the colour is gray, in their proportion |
| `CssRange.FullColoursStand` | src/csscolor.rs:325-353 | the six full colours stand sixty degrees apart from red on |
| `CssMix.ResolveMixWeights` | src/csscolor.rs:431-451 | weights keep the proportion given and sum to a hundred, one left out makes up the hundred and both left out are halves, the alpha is what was short of it, and both refusals are exact |
| `CssMix.MixedHueIsOnShorterArc` | src/csscolor.rs:457-465 | a mixed hue is in range, on an arc of at most 180 degrees that leads from one hue to the other |
| `CssMix.MixedWithItselfIsItself` | src/csscolor.rs:467-483 | mixed with itself in any of the three spaces, by any accepted weights, even those left unscaled, a colour is itself |
| `CssBalance.ChannelBalances` | src/csscolor.rs:453-455 | a mixed channel stands where the two, weighted, balance, to within its rounding |
| `CssBalance.MixStandsBetween` | src/csscolor.rs:467-483 | in each space a mix is the colour whose coordinates balance between the two colours', the hue its share of the way along the shorter arc |
| `CssBalance.AllOfOne` | src/csscolor.rs:467-483 | all of one colour and none of the other is the one, in all three spaces |
| `CssBalance.AlphaIsScaled` | src/csscolor.rs:485-487 | the alpha is scaled to the nearest step and no colour touched |
| `BraceScan.FindGroupStart` | src/editorconfig.rs:308-318 | the first brace not escaped |
| `BraceScan.FindGroupEnd` | src/editorconfig.rs:320-338 | the close that matches it; the depth never falls below nothing |
| `BraceScan.SplitAlternatives` | src/editorconfig.rs:342-366 | the parts between commas at no depth |
| `BraceTrees.ClearPattern` | src/editorconfig.rs:320-366 | what a tree prints is passed over whole by both scanners |
| `BraceExpansion.BranchesSplit` | src/editorconfig.rs:342-366 | printed branches are split back into themselves |
| `BraceNumbers.RangeReadsBack` | src/editorconfig.rs:369-380 | a printed range gives its numbers in order |
| `BraceNumbers.NumbersAreBetween` | src/editorconfig.rs:377-379 | a range has its ends and all between, one apart, in order |
| `BraceNumbers.SignedReads` | src/editorconfig.rs:371-372 | an end may have a sign, and white space around it counts for nothing |
| `BraceNumbers.OnlyNumbersRead` | src/editorconfig.rs:371-372 | only digits behind one sign at most are read, and those only within 64 bits |
| `BraceNumbers.PrintedPlainly` | src/editorconfig.rs:377-379 | numbers are written with a sign for the negative alone and no zero in front |
| `BraceNumbers.BoundIsOnCount` | src/editorconfig.rs:373-376 | where arithmetic wraps, the bound is on the count exactly for ends neither 2^63 apart nor within a thousand of 2^64 apart |
| `BraceNumbers.CheckedBoundIsOnCount` | src/editorconfig.rs:373-376 | where it is checked, it panics exactly on ends 2^63 or more apart, and the bound is else on the count |
| `BraceNumbers.BoundCanBeEscaped` | src/editorconfig.rs:373-376 | a range of 2^64 numbers passes it |
| `BraceExpansion.ExpandPrinted` | src/editorconfig.rs:278-306 | expanding any printed tree of literals, escapes, alternatives, ranges and literal groups, where it does not panic, is exactly its product, left to right |
| `BraceExpansion.PanicsPrinted` | src/editorconfig.rs:278-306 | expanding a printed tree panics exactly when arithmetic is checked and the tree holds, at any depth, a range with ends too far apart, or a literal group that reads as one |
| `BraceExpansion.ExpandBraces` | src/editorconfig.rs:278-306 | the recursion ends on every text; the nested loops build that list, or panic where it says |

## Left out

- Real disks, processes, pipes and git itself: the disk is a map from component sequences to nodes with the rename rules of POSIX and a refusal the operating system may make at any call that changes it; pipes are queues.
- FileSteps.CommitIsAtomic: rollback is stated for runs in which every rename that goes through finds its target or aside name free, since one that went through over something cannot be taken back (`FileUndo.RenameUndone`), and with no call refused while taking back, since the code ignores such a refusal.
- FileMeaning.AcceptedDoesWhatIsMeant: stated of plans that fit their tree, which `FilePlanned.AcceptedFitsIffSensible` gives the exact condition for; where a directory is missing the committer makes more than was planned, as `FileUnseen` says.
- FileAtomic.Carry: the effect is stated under `Sensible` and `NamesAreFree`; without them only what `FileSteps.CommitIsAtomic` says is known.
- FileFinish.Finish: removing a directory and all in it counts as one call, which goes through whole or not at all.
- `..`, `.` and symbolic links in paths: paths are component sequences.
- The arithmetic tokenizer and the texts of errors (src/arith.rs:22-208): tokens and error kinds stand for them; `stackguard` is not part of this model.
- The debug session's log, output, exit code and capabilities, its death and its standard error; JSON; bytes of a message in flight, since `write` and `flush` only delay a queue.
- DapProgress.NeverStuck: the adapter is assumed to answer `initialize` with success, each number at most once, to say `initialized` only after that answer, and to answer the launch only once configured; that it goes on to do what it may is what a run that ends `Stuck` stands for.
- CoroutineTheorems.GivenBackIntact: where a compiled function keeps its locals is the model's choice (`resume` keeps four words on its caller's stack, the trampoline one); compiled code is assumed to write no other coroutine's stack or context, a full stack to fault, and `&mut self` to keep a running coroutine from being resumed.
- The aarch64 switch, panics unwinding, dropping a coroutine, the wasm stub, and the stack measure that `stackguard` swaps in and out.
- The text of framing errors beyond what kind they are.
- Floating-point rounding in colours, the named-colour table, and the parsing of colour functions, `split_top_level` and `split_top_level_ws` included.
- BraceExpansion.ExpandPrinted: patterns that no tree prints (an unclosed brace, a lone backslash at the end) are expanded by the same function but have no denotation here.
- Glob matching (`match_here`), sections and properties of `.editorconfig`: they rest on `crate::glob`, which is not part of this model.
