# A model of tnvme in Dafny

tnvme runs groups of compliance tests against an NVM Express device. This
project models the parts of it whose correctness is not obvious from reading
one function, and proves what they promise:

- **The scheduler.** A group keeps its tests in a jagged matrix `x.y.z`.
  `x.0.0` configures everything in `x`, and `x.y.0 .. x.y.(z-1)` come before
  `x.y.z`. The dependency relation is written twice in the code: as the list
  that `GetTestSet` builds, and as the jump that `AdvanceDependencies` makes
  after a skip or a failure. `ExecuteTests` drives passes over all groups and
  loops and keeps counts and lists.
- **The word wrapper** of the long test descriptions, which counts in `size_t`
  and relies on its wrap-around.
- **The parsers** of a target (`<grp>:<x>.<y>.<z>`) and of a skip file.
- **The command buffer**: bit fields of any width over dwords, and the Write
  command as a packed record (section 4.2 of the NVM Express specification
  1.0b, submission queue entries).
- **The metadata pattern fill** and **the generators of illegal queue
  identifiers and sizes**.

## How it is organised

| file | content |
|---|---|
| `Wrappers.dfy` | values that may be missing |
| `TestNumbering.dfy`, `Dependencies.dfy` | test numbers, the listing of a matrix, test sets, the two forms of dependency |
| `Schedule.dfy` | one pass as functions on values; the device as oracles |
| `PassEvents.dfy`, `PassSafety.dfy`, `PassRefinement.dfy`, `PassLedger.dfy`, `PassProtocol.dfy`, `TargetAgreement.dfy` | the theorems about a pass |
| `Groups.dfy`, `Execution.dfy` | the classes `Group` and `TestResults` and the driver, proved against the functions |
| `WholeRun.dfy`, `RunCourse.dfy` | the theorems about all loops over all groups: what is counted, and which course a run takes |
| `WordWrap.dfy`, `WrapLaws.dfy` | the wrapper and its laws |
| `TargetParser.dfy`, `ParserLaws.dfy`, `SkipFile.dfy` | the parsers and their laws |
| `Bits.dfy`, `CmdBuffer.dfy`, `WriteCmd.dfy` | bit fields, class `Cmd`, class `Write` |
| `PatternFill.dfy`, `IllegalValues.dfy` | the pattern fill and the generators |

The code that changes state is a class or a method with the source's loops;
each is proved against a specification function, and the laws are lemmas about
these functions.

The tests and the device are oracles of type `Device`. Each oracle gets the log
of everything that happened before, so it can answer differently at every call,
and a statement for all devices is a statement about every run. `Run` reports
success, failure or an informative result. A log event is written for disabling
the controller, saving and restoring the state, and every visit of a test.

## Where the code does something else than one would expect

Each of these is stated exactly, with the condition under which the expected
property holds.

- The iterator over a matrix without tests yields `0.0.0` once
  (`IteratedIsExact`). Two of the program's groups have no tests
  (`GrpNVMWriteUncorrectCmd`, `GrpNVMCompareCmd`), so in a run over all groups
  the summaries report less than the sizes of the sets (`ReportsAreSetSizesIff`).
- `GetTestSet` lists a missing `x.0.0` or `x.y.0` without noticing
  (`TestSetMissingTarget`). With restoring on, a missing `x.y.0` leaves the state
  unrestored if `x.0.0` passes (`MissingTargetLeavesState`).
- When saving the state fails, or restoring it after a test that did not fail,
  a failure is counted and none is listed (`RunIsBalanced`,
  `SaveFailureEndsPass`). A hook that fails ends its pass even with errors
  ignored (`FaultEndsPass`), and the tests left over are not reported
  (`PassReportsAllIff`).
- The wrapping loop never ends when the indent is the length of a non-empty
  description plus 81 (`EndlessStandsStill`; for all other requests `GetLong`
  is proved to end), and an indent of 79 prints nothing (`LinesJoin`, `WrapRoundTrip`).
- An empty number reads as 0, so the empty argument asks for group 0 and `:.1.2`
  for test `0:0.1.2`; only the last number must not be empty. White space and a
  sign in front of any number are accepted, a negative value is not (`Grammar`).
- When the word at the start of a line is too long for it, the wrapper puts the
  whole rest of the text on that line (`LinesAreFilledUp`).
- `GetPRINFO` also returns FUA and LR, and `GetILBRT` reads dword 13, against
  their documentation (`PrinfoReadsBack`, `Write.GetILBRT`).
- `SetMetaDataPattern` adds offset and length in 32 bits, so it accepts segments
  far behind the buffer (`AcceptsIff`, `LargestOffsetOverruns`).
- `GetIllegalQSizes(0xFFFE)` leaves out the size 0xFFFF, and both generators
  repeat values when started below 2 and 1 (`QSizesCoverRange`, `QSizesOnce`,
  `QIDsIncreaseIff`). `GetIllegalQIDs(0xFFFFFFFF)` and
  `GetIllegalQSizes(0xFFFFFFFE)` never end (`GeneratorsEndIff`).

## Model

| member | source | states |
|---|---|---|
| TestNumbering.ListedAtRank | group.cpp:418-457 | every existing test is listed, at the position its rank gives |
| TestNumbering.ListedExists | group.cpp:418-457 | whatever is listed exists and its rank is its position, so ranks are a bijection |
| TestNumbering.AllTestsAscending | group.cpp:418-457 | the listing is in strictly ascending order of x, y, z |
| TestNumbering.SuccessorRank | group.cpp:431-447 | the next z, else y, else x that exists is the test of the next rank, and only the last test has none |
| TestNumbering.IteratedIsExact | group.cpp:418-457 | the iterator lists exactly the existing tests if and only if the matrix is not empty |
| Groups.AppendXAddsLast | group.h:29-38 | appending at x level adds x.0.0 behind all tests, renumbers none and keeps every level non-empty |
| Groups.AppendYAddsLast | group.h:40-46 | the same for a new x.y.0 |
| Groups.AppendZAddsLast | group.h:49-50 | the same for a new x.y.z |
| Groups.Group.AppendTestAtXLevel | group.h:29-38 | the macro's effect on the matrix, with well-formedness kept |
| Groups.Group.AppendTestAtYLevel | group.h:40-46 | the macro's effect on the matrix, with well-formedness kept |
| Groups.Group.AppendTestAtZLevel | group.h:49-50 | the macro's effect on the matrix, with well-formedness kept |
| Groups.Group.TestExists | group.cpp:104-117 | true exactly for the numbers inside the matrix and of this group |
| Groups.Group.IteraterToTestRef | group.cpp:418-457 | yields the i-th listed test, and fails exactly from the list's length on |
| Groups.Group.TestRefToIterator | group.cpp:460-476 | the inverse: the first index that yields the reference, failing exactly when none does |
| Groups.Group.GetTestSet | group.cpp:120-207 | returns the specified set with index 0, or refuses with index -1 |
| Groups.Group.SequenceDependencies | group.cpp:167-191 | the iterator range from x.y.0 to the target is exactly x.y.0 .. x.y.(z-1), and is refused exactly for a missing target |
| Dependencies.TestSetIsDependencies | group.cpp:131-194 | the set of an existing test is its dependencies and itself, strictly ascending, target last |
| Dependencies.TestSetIsLeastClosed | group.cpp:131-194 | it is the least set closed under dependency that holds the target, and the only ascending list with its members |
| Dependencies.TestSetMissingTarget | group.cpp:137-191 | all listed tests exist if and only if the target does; exactly which missing targets are refused |
| Dependencies.TestSetIsSchedulable | group.cpp:120-207 | whatever GetTestSet accepts, also for a missing test or an empty matrix, it returns a non-empty, ascending set closed under dependency of which at most the last entry is missing |
| Dependencies.GroupSetIsClosed | group.cpp:195-202 | the whole group's set is ascending, existing and closed under dependency |
| Dependencies.BlockIsCondemned | group.cpp:347-387 | the entries jumped over are exactly the later ones that depend on the skipped test, or share the x level of the failed one |
| Dependencies.SkipBlockMatchesTestSets | group.cpp:361-387 | after a skip they are exactly the later tests whose own test set contains the skipped one: the two encodings of dependency agree |
| Groups.Group.SkippingTest | group.cpp:394-415 | true exactly when the test, or its group through an "ALL" level, is in the skip list |
| Groups.Group.AdvanceDependencies | group.cpp:327-391 | moves to the end of the block or to -1, lists the block as skipped and returns its length; does nothing at an invalid index |
| Groups.Group.VisitTest | group.cpp:256-292 | the skip, run, not runnable and error cases: result, lists, count and next index, as specified; RunAnswers says which case it must be |
| Groups.Group.ReplaceByClone | group.cpp:315-322 | erase and insert put a fresh object of the same name in the slot and keep the shape and every other object |
| Groups.Group.RunTest | group.cpp:210-324 | one call is one step of the specification, with the hooks; the test's object is replaced by a fresh one of its name unless there is no test or a hook fails, and the matrix keeps its shape and all other objects |
| PassEvents.PassAnswers | group.cpp:210-324 | every event of a pass is what the device answers to exactly the events before it; a visit ends as skip list, Runnable and Run, in this order, say |
| PassEvents.FaultEndsPass | group.cpp:234-313 | a failed save or restore is the last event of its pass, with or without errors ignored |
| PassSafety.PassIsSafe | group.cpp:256-292 | on any device and for every set GetTestSet can return, a test is visited only after all its dependencies ran and passed, never after a failure in its x level, and at most once |
| PassSafety.PassVerdict | group.cpp:256-292 | a pass that no failure stops and in which no hook failed visits a listed u if and only if u exists, no earlier test of its x level failed and no dependency of u was skipped |
| PassRefinement.PassIsWalk | group.cpp:327-391 | as long as no hook fails, the index-jumping pass yields the same log, failed list and skipped list as a scheduler that looks at every entry and asks the log whether it is blocked; a pass that a failure stops yields a beginning of each |
| PassLedger.PassBalances | tnvme.cpp:794-813 | in any pass the counters agree with log and lists: passed, failed, skipped, informative and N/F each |
| PassLedger.PassConserves | tnvme.cpp:794-813 | as long as no hook fails, every test the pass gets past is reported exactly once as failed, skipped or passed, and counted once |
| PassLedger.PassReportsAllIff | group.cpp:210-324 | with errors ignored the whole set is reported if and only if no hook fails, or only the restore after the visit that left nothing to run |
| PassLedger.PassEnds | tnvme.cpp:796-813 | the inner loop ends within set size plus 1 calls, past the whole set unless a failure stops it |
| PassLedger.SaveFailureEndsPass | group.cpp:236-243 | a failed save counts one failure, lists none and runs no test |
| PassProtocol.PassSavesAndRestores | group.cpp:234-313 | with restoring on and any device, a pass over existing tests saves the state once, before any test, restores it right after every failing visit and last of all, also when a failure stops it; if saving fails it does nothing else |
| PassProtocol.MissingTargetLeavesState | group.cpp:210-313 | the exact events for a missing x.y.0: the saved state is restored only if x.0.0 fails or is skipped |
| PassEvents.PassWithoutRestore | group.cpp:234-313 | with restoring off the state is never saved or restored |
| TargetAgreement.ReachedIff | group.cpp:256-292 | when no test or hook fails and skipping depends only on the test, a pass reaches exactly the existing tests of its set none of whose dependencies would be skipped |
| TargetAgreement.TargetAgreesWithGroup | group.cpp:120-207 | then every test of a target's set is reached, and skipped, as in the run of the whole group |
| Execution.TestResults.AddResult | testResults.cpp:62-65 | adds the amount to that counter alone |
| Execution.TestResults.Report | testResults.cpp:75-92 | the printed total is the sum of all counters but N/F |
| Execution.RunSet | tnvme.cpp:795-813 | the loop around RunTest computes the specified pass, with its accounting and early out |
| Execution.RunGroup | tnvme.cpp:782-813 | disabling, test set and pass of one group, with both ways to abort |
| Execution.RunGroups | tnvme.cpp:771-814 | the loop over the requested groups |
| Execution.ExecuteTests | tnvme.cpp:731-833 | all loops: return value, reported totals, lists and log; every group keeps its matrix's shape |
| RunCourse.RunAnswers | group.cpp:256-292 | in every run a visited test is skipped unasked iff a skip entry names it or its group, else skipped iff Runnable says RUN_FALSE, failed iff it says RUN_FAIL, and run with Run's result iff it says RUN_TRUE |
| RunCourse.PassStops | tnvme.cpp:800-813 | with errors not ignored a pass is stopped iff a test or a hook fails, and then at most a restore follows |
| RunCourse.RunKeepsCourse | tnvme.cpp:731-833 | every run takes the selected groups in turn, loop after loop, visiting in each exactly what is asked for and not blocked; one summary a loop; it ends early exactly at a failure that is not ignored, with one more summary, or, aborted, at a failed disabling or a refused group |
| RunCourse.LastSummaryIsTotal | testResults.cpp:75-92 | the last summary of a run that is not aborted is the sum of the first four counters |
| WholeRun.RunIsBalanced | tnvme.cpp:768-822 | in every run the five counters are: standing passed results, failed list plus unlisted hook failures, skipped list, standing informative results, and groups finished; the failed list is that of the log |
| WholeRun.RunReportsEveryTest | tnvme.cpp:768-822 | with errors ignored, and disabling and hooks that succeeded, the k-th summary reports k times the number of tests asked for, where a group without tests adds none |
| WholeRun.ReportsAreSetSizesIff | tnvme.cpp:768-822 | that is k times the sizes of the sets GetTestSet returned if and only if no selected group is empty |
| RunCourse.RunIsSafe | tnvme.cpp:768-822 | every pass of every loop of every run is safe, whatever is requested, whether it exists or not, and whatever the device does |
| WordWrap.TestDescribe.SetLong | testDescribe.cpp:48-57 | stores the description without its line ends |
| WrapLaws.StripRemovesNewlines | testDescribe.cpp:48-57 | no CR or LF is left, and text without them is unchanged |
| WrapLaws.StripAppend | testDescribe.cpp:48-57 | stripping works part by part |
| WordWrap.TestDescribe.GetLong | testDescribe.cpp:69-111 | prints the greedy lines, each with its indent, and ends for every request but the endless ones |
| WordWrap.TestDescribe.WrapLines | testDescribe.cpp:82-104 | the wrapping loop in size_t arithmetic prints the specified lines and terminates |
| WordWrap.EndlessStandsStill | testDescribe.cpp:87-104 | for every non-empty description and an indent of its length plus 81 the loop's condition holds for ever at the same indices |
| WrapLaws.LinesJoin | testDescribe.cpp:81-104 | joining the lines with single spaces gives the text up to one trailing space if and only if the indent is not 79 or the text needs no line, for all requests but the endless ones |
| WrapLaws.WrapRoundTrip | testDescribe.cpp:48-111 | printed text, stripped of indents and joined, is the filtered input up to one trailing space if and only if the request is not endless and the indent is not 79 or the text needs no line |
| WrapLaws.LinesWithin79Columns | testDescribe.cpp:81-104 | all lines stay within 79 columns if and only if every word does |
| WrapLaws.LinesAreFilledUp | testDescribe.cpp:81-104 | up to indent 78 no line but the last is too long, the first word of the next line would not have fit, and the last is too long only if it begins with a word that is; one whole line or none for larger indents |
| WrapLaws.WrapIsOptimal | testDescribe.cpp:87-104 | no choice of breaks at spaces that fits into 79 columns takes fewer lines |
| TargetParser.ReadField | tnvmeParsers.cpp:759-770 | one strtol call with its checks, and the text behind the first separator |
| TargetParser.ParseTargetCmdLine | tnvmeParsers.cpp:725-837 | accepts and returns exactly what the specification does, only legal combinations, and sets the request flag |
| ParserLaws.Grammar | tnvmeParsers.cpp:725-837 | for every argument: accepted are exactly a numeral and `<grp>:<x>.<y>.<z>`, with white space and signs, empty but for the last, if the values are not negative and legal |
| ParserLaws.PlainGrammar | tnvmeParsers.cpp:725-837 | on text without signs and spaces, accepted are exactly a number and `<grp>:<x>.<y>.<z>`, where only the last must not be empty, if the values cut off at LONG_MAX are legal |
| ParserLaws.ParseInvertsPrint | tnvmeParsers.cpp:725-837 | parsing printed text gives the reference back if and only if it is legal and within long |
| SkipFile.ParseSkipTests | tnvmeParsers.cpp:66-101 | the character loop appends the references of all terminated lines, cut at '#' and filtered, up to the first that does not parse |
| SkipFile.ScanReadsLines | tnvmeParsers.cpp:66-101 | for every file: the texts of its lines are read in order up to the first that is refused, the file is refused iff there is one, and an unterminated last line is ignored |
| SkipFile.TextOfLine | tnvmeParsers.cpp:69-87 | a line's text is its letters, digits, '.' and ':' in front of the first '#' |
| SkipFile.ScanInvertsRender | tnvmeParsers.cpp:66-101 | a printed skip list with any comments, padding, blank lines and unterminated tail scans to the same list |
| CmdBuffer.Cmd.SetDword | Cmds/cmd.cpp:135-143 | replaces one dword or refuses |
| CmdBuffer.Cmd.GetDword | Cmds/cmd.cpp:73-80 | returns one dword or refuses |
| CmdBuffer.Cmd.SetBits | Cmds/cmd.cpp:219-237 | replaces exactly one field of one dword, for any width up to 32, or refuses |
| CmdBuffer.Cmd.GetBits | Cmds/cmd.cpp:240-253 | returns one field of one dword or refuses |
| CmdBuffer.Cmd.MaskOf | Cmds/cmd.cpp:231-233 | the mask loop sets the low bits |
| CmdBuffer.RefusedIff | Cmds/cmd.cpp:219-253 | refused, without effect, exactly when the dword or a bit of the field lies outside |
| CmdBuffer.ViewsAreCoherent | Cmds/cmd.cpp:83-253 | after a write at any width, each bit read at any width and offset is the bit written there or the old one |
| CmdBuffer.ReadsBackWritten | Cmds/cmd.cpp:219-253 | reading back gives the value modulo 2 to the width |
| CmdBuffer.WideReadIsConcatenation | Cmds/cmd.cpp:240-253 | a wide read is the concatenation of the narrow reads of its parts |
| WriteCmd.PutIsOnlyBits | Cmds/cmd.cpp:219-237 | writing a field changes the bits of its place, to the low bits of the value, and no other bit |
| WriteCmd.PutThenGet | Cmds/write.cpp:40-256 | writing a field sets it, cut to its width, and no other field |
| WriteCmd.FieldsHoldLastWrite | Cmds/write.cpp:40-256 | after any sequence of setter calls each field holds what was written to it last, or what it held before |
| WriteCmd.ReservedBitsUntouched | Cmds/write.cpp:40-256 | bits outside all fields are never changed |
| WriteCmd.Write.SetSLBA | Cmds/write.cpp:40-46 | bit k of dword 10 is bit k of the address, bit k of dword 11 is bit 32 + k, all other dwords are unchanged |
| WriteCmd.SlbaReadsBack | Cmds/write.cpp:40-57 | the address read is the address written |
| WriteCmd.Write.SetLR | Cmds/write.cpp:60-65 | writes bit 31 of dword 12 only |
| WriteCmd.Write.SetFUA | Cmds/write.cpp:76-81 | writes bit 30 of dword 12 only |
| WriteCmd.Write.SetPRINFO | Cmds/write.cpp:92-104 | writes bits 29:26 of dword 12 only, or refuses more than 4 bits |
| WriteCmd.PrinfoReadsBack | Cmds/write.cpp:107-112 | GetPRINFO returns the stored field if and only if FUA and LR are clear |
| WriteCmd.Write.SetNLB | Cmds/write.cpp:115-120 | writes bits 15:0 of dword 12 only |
| WriteCmd.Write.SetDSMIncompress | Cmds/write.cpp:131-136 | writes bit 7 of dword 13 only |
| WriteCmd.Write.SetDSMSeqRequest | Cmds/write.cpp:147-152 | writes bit 6 of dword 13 only |
| WriteCmd.Write.SetDSMAccessLatent | Cmds/write.cpp:163-175 | writes bits 5:4 of dword 13 only, or refuses more than 2 bits |
| WriteCmd.Write.SetDSMAccessFreq | Cmds/write.cpp:187-199 | writes bits 3:0 of dword 13 only, or refuses more than 4 bits |
| WriteCmd.Write.SetILBRT | Cmds/write.cpp:211-216 | writes dword 14 |
| WriteCmd.Write.GetILBRT | Cmds/write.cpp:219-224 | returns the stored tag if and only if dwords 13 and 14 are equal |
| WriteCmd.Write.SetLBATM | Cmds/write.cpp:227-232 | writes bits 31:16 of dword 15 only |
| WriteCmd.Write.SetLBAT | Cmds/write.cpp:243-248 | writes bits 15:0 of dword 15 only |
| WriteCmd.Write.SetFUSE | Cmds/cmd.cpp:256-263 | writes bits 9:8 of dword 0 only |
| WriteCmd.Write.SetNSID | Cmds/cmd.cpp:274-279 | writes dword 1 |
| WriteCmd.Write.SetCID | Cmds/cmd.cpp:299-304 | writes bits 31:16 of dword 0 only |
| PatternFill.MetaData.SetMetaDataPattern | Cmds/metaData.cpp:66-139 | refuses a segment by the 32-bit check and changes nothing, or fills its whole elements in place unless they overrun the buffer |
| PatternFill.AcceptsIff | Cmds/metaData.cpp:76-78 | a segment that fits is accepted and stays inside; one that does not fit is accepted if and only if offset plus length wraps around in 32 bits to a value within the size |
| PatternFill.LargestOffsetOverruns | Cmds/metaData.cpp:76-78 | offset 0xFFFFFFFF and length 1 are accepted for every buffer and overrun it |
| PatternFill.OverrunsIff | Cmds/metaData.cpp:80-134 | for each of the six patterns, which segments have an element that ends behind the buffer |
| PatternFill.PatternBytes | Cmds/metaData.cpp:76-134 | for each of the six patterns, every byte of the buffer: element size, increment, byte order and extent |
| PatternFill.FilledBytes | Cmds/metaData.cpp:66-139 | each byte written is that byte of the initial value, or of it plus the element's index, modulo the element's width; all others are unchanged |
| IllegalValues.GetIllegalQIDs | GrpAdminCreateIOCQCmd/invalidQID_r10b.cpp:149-168 | the doubling loop and the removals compute the specified list and end, for every limit from which the first value does not wrap to 0 |
| IllegalValues.QIDsHold | GrpAdminCreateIOCQCmd/invalidQID_r10b.cpp:149-168 | v is tried iff it is 0xFFFE or 0xFFFF, when these are unsupported, or within one of a doubling of the first unsupported identifier below 0xFFFF |
| IllegalValues.QIDsIncreaseIff | GrpAdminCreateIOCQCmd/invalidQID_r10b.cpp:149-168 | the list rises strictly if and only if it starts at 2 or more |
| IllegalValues.QIDsCoverRange | GrpAdminCreateIOCQCmd/invalidQID_r10b.cpp:149-168 | it goes from the first illegal identifier to 0xFFFE, 0xFFFF, each less than twice the one before, in at most 50 steps |
| IllegalValues.GetIllegalQSizes | GrpAdminCreateIOCQCmd/maxQSizeExceed_r10b.cpp:153-170 | the doubling loop and the removal compute the specified list and end, for every limit from which the first value does not wrap to 0 |
| IllegalValues.DoublingEndsIff | GrpAdminCreateIOCQCmd/invalidQID_r10b.cpp:153-154 | the doubling loop in 32 bits ends if and only if it does not start from 0 |
| IllegalValues.GeneratorsEndIff | GrpAdminCreateIOCQCmd/maxQSizeExceed_r10b.cpp:157-158 | the generators end for every limit but 0xFFFFFFFF identifiers and 0xFFFFFFFE entries |
| IllegalValues.QSizesHold | GrpAdminCreateIOCQCmd/maxQSizeExceed_r10b.cpp:153-170 | v is tried iff it is 0x10000, when this is unsupported, or within one of a doubling of the limit plus 2 below 0x10000 |
| IllegalValues.QSizesCoverRange | GrpAdminCreateIOCQCmd/maxQSizeExceed_r10b.cpp:153-170 | it rises strictly from the first size too large to 0x10000 if and only if the limit is below 0x10000 and neither 0 nor 0xFFFE |
| IllegalValues.QSizesOnce | GrpAdminCreateIOCQCmd/maxQSizeExceed_r10b.cpp:165-168 | 0x10000 occurs exactly once; for the limit 0xFFFE it is alone |

## Left out

- The test bodies, the driver calls and register accesses: `Runnable`, `Run`, `SaveState`, `RestoreState`, disabling the controller and the revision check are oracles or parameters.
- Reading files, XML and options, logging and dump files, including `ReportExecution` and cleaning the dump directory: they do not influence the schedule. The skip file model starts from the contents.
- The width of the counters: `int` overflow of the summary after 2^31 tests is not modelled.
- `DestroyTestFoundation`, copy constructors and the depth of `Clone`: a clone is a fresh object of the same name.
- PassConserves: assumes existing tests and no failed hook; PassReportsAllIff, SaveFailureEndsPass and RunIsBalanced say what holds when a hook fails.
- PassIsWalk: compares passes up to a failed hook only; PassIsSafe, FaultEndsPass and PassReportsAllIff cover the others.
- RunReportsEveryTest: speaks of requests for groups, empty or not, and for existing tests. A missing test can be counted as skipped when its x.0.0 fails or is skipped, and otherwise is not counted.
- AdvanceDependencies: its three loops, which differ only in their condition, are one loop over a condition with three cases.
- SetMetaDataPattern: when the elements of an accepted segment overrun the buffer, the code writes to foreign memory; the model reports this and says nothing of the bytes. The six copies of the loop are one loop over width and increment.
- ReadField: the code looks at the character behind the number through a pointer into a temporary string that is destroyed by then (`tnvmeParsers.cpp:759-760`, `776-777`, `793-794`, `810-811`); the model reads the live string.
- GetLong: descriptions and indents are limited to the longest C++ string, 2^63 - 1 characters.
- SetBits: a width of 0 divides by zero in the code and is excluded; no caller passes it. Shifts are written as single shifts repeated, which agrees with C for all amounts below 32.
- `Cmd::Init` beyond its 64 byte use: the check that the size is a multiple of 4, the data direction and the alignment.
- Class `Write` holds its command instead of inheriting from it, and the getters that only read one field back are left out: `GetBits` and the field laws cover them.
- The remaining command classes, `PrpData` and the observer classes: they repeat what is shown here for `Cmd` and `Write`.
