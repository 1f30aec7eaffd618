# A verified model of the RT-Thread kernel core

RT-Thread 2.1.0 is a small real-time kernel with a shell that compiles C expressions to bytecode. This
project models the parts of it that carry invariants by hand - the shell's compiler, machine and parser,
the IPC objects, the thread lists and the scheduler's bitmap, the timer skip list, and the three heap
managers - and proves what they keep over every run.

Each component has two layers. A value layer says what every operation does to an abstract state (a deque,
a list of blocks, rows of timers) and holds the lemmas: invariants of every step, safety of whole runs,
refinement, round trips, exact conditions. An object layer is a class, or methods on an array, that works
as the C code does - link by link, header by header, loop by loop - and is proved to compute the value
layer's operation. Memory of the heaps is an array of 4-byte words with the headers in band.

- `Bits`, `NatLists`, `BlockList`, `RingList`: shared facts about bits, sequences, blocks and rings.
- `Finsh*`: the shell. `FinshVm` (operations and bytes), `FinshArith` and `FinshLaws` (what the operators, loads,
  stores and steps amount to), `FinshCompiler` (type check and code), `FinshEval` (meaning of expressions),
  `FinshCorrect`, `FinshProgram`, `FinshMachine` (the writer and the fetch loop),
  `FinshWidths` (what narrow operands do), `FinshParser` and `FinshDescent` (the parser as function and as
  methods), `FinshRoundTrip`, `FinshCasts`, `FinshLine`.
- `IpcList`, `Semaphore`, `Mutex`, `Event`, `Mailbox`, `MailboxFifo`, `MessageQueue`, `MessageNodes`, `MessageLinks`: IPC as step
  protocols; each interrupt-disabled region is one atomic step and any enabled thread may take the next one.
- `ReadyBitmap`, `Scheduler`, `ThreadOps`, `ThreadEffects`, `ThreadRegions`, `ThreadObject`, `RoundRobin`, `TimeSlice`, `RtList`:
  threads, lists and time slices.
- `Timer`, `TimerList`, `TimerSearch`, `TimerCheck`, `TimerLife`, `TimerRegions`, `TimerObject`: the timer skip list.
- `HeapLedger`, `SmallHeap*`, `MemHeap*`, `PageList`, `Slab*`: the heap managers.

Where the code falls short of a property, the code is kept, the failing case is shown and the exact
condition is proved: `FinshWidths.BinaryExactly`, `AssignExactly` and `CallExactly`,
`FinshCasts.CastIsIgnoredExactly`,
`Mutex.NeverInvertsExactly`, `HoldWrapsExactly` and `BalancesExactly`, `Semaphore.ReleasesAddUpExactly`,
`SmallHeap.FreshMallocExactly` and `ShrinkLowest`, `ThreadRegions.SecondRegionExactly` and
`DeleteSecondExactly`, `TimerRegions.SecondRegionExactly` and `LateFirstExactly`. The failing cases are runs:
`FinshWidths.StaleBitsInALine`, `Mutex.FifoInverts`, `SmallHeap.ShrinkRaisesLfreeInARun`,
`ThreadRegions.OverlapReached`, `TimerRegions.LateTimerIsLost` and `OverlapInsertsTwice`.

Check everything with `dafny verify dfyconfig.toml`.

## Model

| member | source | states |
|---|---|---|
| `FinshVm.LoadAfterStore` | components/finsh/finsh_ops.c:327-434 | a value stored at a width is what a load of that width reads back, in any memory |
| `FinshVm.ExecAppend` | components/finsh/finsh_vm.c:61-71 | executing two pieces of code in a row is executing the second in the state the first leaves |
| `FinshVm.DecodeEncode` | components/finsh/finsh_ops.c:571-622 | fetching the bytes emitted for an instruction yields that instruction and its length, whatever bytes follow |
| `FinshVm.ExecEncoded` | components/finsh/finsh_vm.c:61-71 | running the emitted bytes is running the instructions they stand for, then the bytes after them |
| `FinshVm.ExecZeros` | components/finsh/finsh_vm.c:61-71 | the zero bytes behind the code of a program change nothing |
| `FinshArith.BitwiseIs` | components/finsh/finsh_ops.c:164-227 | or, and, xor bit by bit at every width: each bit of the result is the disjunction, conjunction or difference of the bits of the operands, and no bit above the width is set |
| `FinshArith.ComplementIs` | components/finsh/finsh_ops.c:229-249 | every bit of the width turns over |
| `FinshArith.SumCounts` | components/finsh/finsh_ops.c:54-74 | a sum is reached from x by counting y times, with zero after the last number of the width |
| `FinshArith.SumUndoesDifference` | components/finsh/finsh_ops.c:76-96 | adding y to the difference of x and y gives x again |
| `FinshArith.ProductRepeats` | components/finsh/finsh_ops.c:142-162 | a product is x added y times |
| `FinshArith.QuotientAndRemainder` | components/finsh/finsh_ops.c:98-140 | division and remainder are undefined exactly for the divisor zero and the one overflow; otherwise x = q * y + r on the signed operands, with the remainder smaller in magnitude than the divisor and of the sign of the dividend |
| `FinshArith.DividesOnce` | components/finsh/finsh_ops.c:98-140 | there is only one such quotient and remainder |
| `FinshArith.ShiftsDefined` | components/finsh/finsh_ops.c:252-294 | shifts are defined exactly for counts from 0 to 31 |
| `FinshArith.ShiftLeftDoubles` | components/finsh/finsh_ops.c:252-272 | a shift by zero is the operand, and one more place adds the result to itself |
| `FinshArith.ShiftRightMoves` | components/finsh/finsh_ops.c:274-294 | a shift to the right by k moves bit i + k to bit i and fills in the sign |
| `FinshLaws.StoreIs` | components/finsh/finsh_ops.c:399-434 | after a store the bytes at the address, as many as the width has, are those of the value, lowest first |
| `FinshLaws.StoreElsewhere` | components/finsh/finsh_ops.c:399-434 | a store changes no other byte |
| `FinshLaws.LoadIs` | components/finsh/finsh_ops.c:327-397 | a load puts the bytes at the address together, lowest first |
| `FinshLaws.VariableSize` | components/finsh/finsh_compiler.c:759-901 | a variable is read and written with as many bytes as its C type has |
| `FinshLaws.PreStepAssigns` | components/finsh/finsh_compiler.c:373-534 | ++x is x = x + 1 and --x is x = x - 1, in value and effect, for variables of every width |
| `FinshLaws.PostStepIs` | components/finsh/finsh_compiler.c:535-715 | x++ and x-- have the old value of x and the effect of ++x and --x |
| `FinshLaws.DereferencedAddress` | components/finsh/finsh_compiler.c:718-744 | *&x is x |
| `FinshLaws.ReadsAssigned` | components/finsh/finsh_compiler.c:310-372 | after x = e the variable x has the value of the assignment, cut to its width |
| `FinshCompiler.CodeEncodable` | components/finsh/finsh_compiler.c:43-757 | every operand the compiler emits fits the width of its instruction, for every node tree |
| `FinshEval.CompiledValue` | components/finsh/finsh_compiler.c:43-901 | type check and code generation of every well-typed tree give post-order code of the recorded width and set no error |
| `FinshEval.CompiledPlace` | components/finsh/finsh_compiler.c:759-901 | checked as an address, a variable or a dereference compiles to code for its address |
| `FinshEval.CompiledArgs` | components/finsh/finsh_compiler.c:43-757 | call arguments compile in source order, one after the other |
| `FinshCorrect.ValueCorrect` | components/finsh/finsh_ops.c:296-569 | running the code of a well-typed expression fails exactly when the evaluator does and otherwise pushes one cell that agrees with its value on the defined low bits, over the evaluator's memory |
| `FinshCorrect.PlaceCorrect` | components/finsh/finsh_ops.c:317-325 | the code of a place pushes exactly the evaluator's address |
| `FinshCorrect.ArgsCorrect` | components/finsh/finsh_ops.c:444-569 | argument code pushes the argument values in order, evaluated left to right |
| `FinshCorrect.CompilerCorrect` | components/finsh/finsh_compiler.c:43-901 | compiler correctness: for every well-typed tree, stack and memory, the emitted instructions, and the bytes they are written as, leave the old stack plus one cell with the evaluator's value, and its memory |
| `FinshProgram.CompiledStatements` | components/finsh/finsh_compiler.c:903-937 | a checked statement list compiles to the statements' code with one pop between any two |
| `FinshProgram.StatementsCorrect` | components/finsh/finsh_compiler.c:903-937 | a statement list ends with the last value alone on the stack and the memory of all statements performed in order |
| `FinshProgram.CodeOfAppend` | components/finsh/finsh_compiler.c:903-937 | wherever a statement list is cut, its code is cut with it |
| `FinshProgram.EmptyBetweenStatements` | components/finsh/finsh_ops.c:437-441 | the stack is empty before each statement after the first, with exactly the effects of the statements before |
| `FinshProgram.RunsToLastValue` | components/finsh/finsh_vm.c:47-72 | the machine, run over the whole text segment, halts with the last statement's value in the bottom cell |
| `FinshWidths.StaleBitsExactly` | components/finsh/finsh_ops.c:297-305 | exact condition: for each of the ten operators and any two widths, the result does not depend on what the cell of the right operand held before if and only if that operand is loaded with at least the operator's width |
| `FinshWidths.BinaryExactly` | components/finsh/finsh_compiler.c:217-282 | exact condition: every compiled  l op r  with operands of given widths, in any context, on any stack and memory, meets the evaluator if and only if the right operand defines at least the operator's bits |
| `FinshWidths.AssignExactly` | components/finsh/finsh_compiler.c:310-372 | the same for assignments: the value must define at least the bits of the place |
| `FinshWidths.CallExactly` | components/finsh/finsh_compiler.c:284-308 | the same for calls: faithful for argument lists of given widths if and only if there are at most 16 arguments and each is a whole word |
| `FinshWidths.NarrowRightOperandIsStale` | components/finsh/finsh_ops.c:297-305 | the defect at work: long constant plus character is the sum exactly when the stale cell happens to be clear above its low byte |
| `FinshWidths.StaleBitsInALine` | components/finsh/finsh_vm.c:47-72 | the defect reached from a cleared stack: the bytes of the line  0 + u; v + c;  end with the sum of v and c if and only if u is a byte, as the first statement leaves u in the cell of c |
| `FinshWidths.OperatorCode` | components/finsh/finsh_compiler.c:217-282 | an operator node compiles to its operands' code, then its instruction if the left operand has a width |
| `FinshWidths.OperatorWithoutWidthEmitsNothing` | components/finsh/finsh_compiler.c:217-221 | an operator emits no instruction if and only if its left operand, such as a call, has no width |
| `FinshWidths.OperatorWithoutWidthLeavesTwo` | components/finsh/finsh_compiler.c:217-221 | without an instruction both operands stay on the stack |
| `FinshMachine.Compiler.EmitBytes` | components/finsh/finsh_compiler.c:36-41 | bytes are written at the compile position and nowhere else |
| `FinshMachine.Compiler.Compile` | components/finsh/finsh_compiler.c:43-757 | the recursive writer leaves in the text segment exactly the encoding of the tree's code and touches nothing else |
| `FinshMachine.Compiler.CompileProgram` | components/finsh/finsh_compiler.c:903-937 | the text segment holds the program's encoding followed by zeros |
| `FinshMachine.Machine.Execute` | components/finsh/finsh_ops.c:48-569 | one operation on the stack array, stack pointer and memory does what the instruction's meaning says |
| `FinshMachine.Machine.PopParameters` | components/finsh/finsh_ops.c:455-463 | the argument loop pops the arguments and hands them over in source order |
| `FinshMachine.Machine.Run` | components/finsh/finsh_vm.c:47-72 | the fetch loop terminates and leaves the state that running the bytes specifies, or stops where they get stuck |
| `FinshDescent.Parser.NextToken` | components/finsh/finsh_token.c:81-87 | the token stream with its replay flag moves as specified |
| `FinshDescent.Parser.AssignExpr` | components/finsh/finsh_parser.c:442-461 | the descent method computes the specified parse and the rest of the input |
| `FinshDescent.Parser.LevelExpr` | components/finsh/finsh_parser.c:467-668 | one loop per precedence level builds the specified left-associated tree |
| `FinshDescent.Parser.CastExpr` | components/finsh/finsh_parser.c:675-697 | a leading parenthesis is read as a cast |
| `FinshDescent.Parser.UnaryExpr` | components/finsh/finsh_parser.c:710-750 | prefix operators as specified |
| `FinshDescent.Parser.PostfixExpr` | components/finsh/finsh_parser.c:758-807 | the postfix loop as specified, calls with their parameters included |
| `FinshDescent.Parser.PrimaryExpr` | components/finsh/finsh_parser.c:814-857 | leaves as specified, with the error for anything else |
| `FinshDescent.Parser.ParamList` | components/finsh/finsh_parser.c:864-887 | parameters are chained as siblings in source order |
| `FinshDescent.Parser.Statement` | components/finsh/finsh_parser.c:412-428 | a statement is an expression and a semicolon, or an empty node |
| `FinshRoundTrip.ExprRoundTrip` | components/finsh/finsh_parser.c:442-911 | parser round trip: every grammar-shaped expression, with signs in front of any unary expression and printed without parentheses, parses back to the tree of what it means, consumes exactly its tokens and its node count, and sets no error |
| `FinshRoundTrip.LevelRoundTrip` | components/finsh/finsh_parser.c:467-668 | the round trip at every precedence level, for every operator nesting the grammar allows |
| `FinshRoundTrip.SignRoundTrip` | components/finsh/finsh_parser.c:717-728 | the tokens  - e  parse to the subtraction of e from a long zero, those of  + e  to the tree of e; exactly these tokens are read |
| `FinshCasts.CastParsesToMarked` | components/finsh/finsh_parser.c:273-697 | a type name in parentheses, with unsigned and a star or without, in front of a unary expression is read whole and nothing else, and gives the tree of the expression with its root marked by the type |
| `FinshCasts.CastIsIgnoredExactly` | components/finsh/finsh_compiler.c:788-901 | exact condition: the type check overwrites the mark of a cast, so a cast changes the checked tree if and only if the expression is a name without a type of its own |
| `FinshRoundTrip.PostfixRoundTrip` | components/finsh/finsh_parser.c:758-807 | the round trip for postfix steps and calls |
| `FinshRoundTrip.ArgsRoundTrip` | components/finsh/finsh_parser.c:864-887 | the round trip for argument lists of any length |
| `FinshLine.ProgramRoundTrip` | components/finsh/finsh_parser.c:916-998 | the round trip for statement lists |
| `FinshLine.LineCorrect` | components/finsh/shell.c:199-241 | end to end: a printed list of grammar-shaped well-typed statements that fits the tables is parsed, compiled and run to the evaluator's memory with the last value alone on the stack |
| `FinshLine.MinusLine` | components/finsh/finsh_parser.c:726-728 | end to end: the line  - e ;  with an operand e of a whole word of value x leaves 0 - x, wrapped to 32 bits, at the bottom of the stack |
| `IpcList.EnqueueKeeps` | src/ipc.c:92-135 | a suspended thread joins the wait list once; a priority list stays sorted |
| `IpcList.EnqueueIsStable` | src/ipc.c:107-128 | among equally urgent waiters the earlier one stays ahead |
| `IpcList.EnqueueJoins` | src/ipc.c:92-135 | the thread stands at the end of a first-come list; in a priority list behind all that are at least as urgent and in front of a less urgent one; no other thread moves |
| `IpcList.JoinsOnce` | src/ipc.c:107-128 | in a list in order there is only one such place |
| `IpcList.WithoutKeeps` | src/thread.c:636-657 | taking a thread out of a wait list keeps the others and their order |
| `IpcList.Suspend` | src/ipc.c:92-135 | the search loop computes the specified wait list |
| `Semaphore.SemaphoreSafety` | src/ipc.c:328-510 | every run: initial value plus releases is value plus takes plus handovers (plus wraps of the 16-bit counter), a positive value means no waiter, and each blocked take has ended at most once, by handover or by timeout |
| `Semaphore.UnitsConserved` | src/ipc.c:328-510 | every run, counted from its steps alone: initial value plus releases is value plus granted takes plus handovers plus 65536 for each release that found the counter full with nobody waiting |
| `Semaphore.TakeDoes` | src/ipc.c:345-401 | a take with a positive value lowers it by one and touches nothing else; without, the caller is refused and nothing changes, or joins the wait list with its timer running exactly if the time is positive |
| `Semaphore.ReleaseDoes` | src/ipc.c:445-466 | the first waiter is resumed without error and its timer stops, the value stays zero; or nobody waits and the value rises by one, from the limit to zero |
| `Semaphore.FailuresDo` | src/ipc.c:481-510 | a timeout takes exactly that waiter away; a reset sets the value and resumes every waiter with an error |
| `Semaphore.ReleaseWrapsExactlyAtLimit` | src/ipc.c:435-469 | a release loses the count exactly when nobody waits and the value is at the 16-bit limit |
| `Semaphore.ReleasesAddUpExactly` | src/ipc.c:435-469 | exact condition over runs: n releases of a semaphore created with v add up if and only if v + n fits 16 bits; one release at 65535 leaves 0 |
| `Semaphore.Semaphore.Take` | src/ipc.c:328-411 | taking, refusing or suspending, as the ledger says |
| `Semaphore.Semaphore.Release` | src/ipc.c:435-469 | handover to the first waiter or a higher count, as the ledger says |
| `Semaphore.Semaphore.Reset` | src/ipc.c:481-510 | all waiters fail and the value is set |
| `Mutex.MutexSafety` | src/ipc.c:642-859 | every run: free exactly when without owner and hold zero, waiters imply an owner who does not wait, only the owner's priority is raised, and with a priority queue the owner is at least as urgent as every waiter |
| `Mutex.ReleaseRestores` | src/ipc.c:772-859 | the last release gives the owner back the priority it had |
| `Mutex.TakeDoes` | src/ipc.c:642-761 | the owner counts up; a free mutex is taken; otherwise the caller is refused, or waits in its place and the owner gets the more urgent of both priorities; nobody else is touched |
| `Mutex.ReleaseDoes` | src/ipc.c:772-859 | refused for all but the owner; inner releases count down; the last one restores the owner's priority and makes the first waiter the owner, with its timer stopped, or frees the mutex |
| `Mutex.FifoInverts` | src/ipc.c:819-848 | for any three threads with the third more urgent than the second, a run on a first-come queue after which the second owns the mutex and the third waits |
| `Mutex.NeverInvertsExactly` | src/ipc.c:642-859 | exact condition: in all runs from creation the owner is at least as urgent as every waiter if and only if the queue is priority-ordered or no three threads use the mutex of which one is more urgent than another |
| `Mutex.HoldWrapsExactly` | src/ipc.c:667-671 | exact condition over runs: all states of a run of n takes by one thread are in order if and only if n is less than 256; the 256th leaves the mutex owned with hold zero |
| `Mutex.BalancesExactly` | src/ipc.c:642-859 | exact condition over runs: after n takes the mutex stays owned through n - 1 releases and is free after the n-th if and only if n is at most 256; after 257 takes the first release frees it |
| `Mutex.HoldOverflows` | src/ipc.c:667-671 | the same for one step: a recursive take keeps the ownership invariant if and only if the 8-bit counter is below its limit |
| `Mutex.Mutex.Take` | src/ipc.c:642-761 | recursion, ownership, inheritance and suspension as specified |
| `Mutex.Mutex.Release` | src/ipc.c:772-859 | hold count, restored priority and handover as specified |
| `Mutex.Mutex.Expire` | src/thread.c:636-657 | a waiter whose time is up leaves the list |
| `Event.ScanQuiet` | src/ipc.c:1020-1067 | after the wake scan no thread that stays is satisfied by the bits finally left, although bits are cleared as the scan goes |
| `Event.SatisfiedIs` | src/ipc.c:1030-1040 | AND is satisfied if and only if every wanted bit is in the set, OR if and only if some wanted bit is |
| `Event.ReceiptIs` | src/ipc.c:1036-1053 | a satisfied waiter receives exactly its wanted bits that are set, and exactly these leave the set if it clears |
| `Event.ScanAt` | src/ipc.c:1020-1067 | each waiter meets the set that those in front of it leave: it is resumed if and only if that satisfies it, receives its bits of that set, and those behind it meet what it leaves |
| `Event.SendDoes` | src/ipc.c:1017-1067 | the scan starts from the bits that were set or are sent; who is not resumed keeps its place and its timer |
| `Event.RecvDoes` | src/ipc.c:1120-1190 | satisfied at once, the wanted bits leave the set if they are to be cleared and nobody else is concerned; otherwise the caller is refused and nothing changes, or joins the wait list with its wish |
| `Event.ScanConserves` | src/ipc.c:1020-1067 | each bit the scan clears is taken by exactly one waiter |
| `Event.EventSafety` | src/ipc.c:998-1201 | every run: no suspended thread's condition holds for the current set, and no bit is consumed more often than it was sent |
| `Event.Event.Send` | src/ipc.c:998-1077 | the bits are set and the wait list walked once, as specified |
| `Event.Event.WakeScan` | src/ipc.c:1020-1067 | the loop over the wait list computes the scan |
| `Event.Event.Recv` | src/ipc.c:1093-1201 | receiving at once, refusing or suspending, with the bits received |
| `Mailbox.MailboxSafety` | src/ipc.c:1406-1676 | every interleaving of senders, receivers, timeouts and resets: suspended receivers mean the mails present are covered by receivers already woken, suspended senders mean the free slots are covered by senders already woken, and mails come out in the order they went in, never more than the size |
| `Mailbox.Quiescent` | src/ipc.c:1406-1676 | once all woken threads have run, a waiting receiver means an empty and a waiting sender a full mailbox |
| `MailboxFifo.MailboxIsFifo` | src/ipc.c:1406-1718 | refinement: for every run the mailbox holds what a bounded FIFO holds that is run on the list of steps alone, and what receivers got since the last reset are the mails of the accepted sends, in order, up to those still in the queue |
| `MailboxFifo.FifoLaw` | src/ipc.c:1406-1718 | that FIFO by itself: accepted mails are delivered mails followed by the queue, over every list of steps, never more than the size |
| `MailboxFifo.SendDoes` | src/ipc.c:1430-1524 | with room, the new queue is the old one followed by the mail and the first waiting receiver is resumed, its timer stopped; without, the caller is refused or joins the senders in its place, with its timer running exactly if it has a limit |
| `MailboxFifo.RecvDoes` | src/ipc.c:1575-1676 | the oldest mail leaves the queue and the first waiting sender is resumed, its timer stopped; an empty mailbox refuses the caller or adds it to the receivers in its place |
| `MailboxFifo.FailuresDo` | src/ipc.c:1688-1718 | a timeout takes exactly that thread out of its list; a reset empties the mailbox and fails every waiter of both lists |
| `Mailbox.RingPut` | src/ipc.c:1498-1504 | storing at the in offset appends to the ring's contents |
| `Mailbox.RingGet` | src/ipc.c:1645-1653 | reading at the out offset removes the oldest mail |
| `Mailbox.Mailbox.Send` | src/ipc.c:1406-1524 | one turn of the send loop on the ring buffer refines the queue |
| `Mailbox.Mailbox.Recv` | src/ipc.c:1553-1676 | one turn of the receive loop on the ring buffer refines the queue |
| `Mailbox.Mailbox.Reset` | src/ipc.c:1688-1718 | both wait lists fail and the ring is emptied |
| `MessageQueue.MessageQueueSafety` | src/ipc.c:1926-2280 | between any two critical sections of any run: the pool nodes are partitioned into free, queued and held mid-copy, the queued nodes carry the messages of a bounded deque defined without nodes, and no wakeup is lost |
| `MessageQueue.RunIsDequeRun` | src/ipc.c:1926-2280 | with machine and deque side by side, the deque after a run is that of the deque's own run |
| `MessageQueue.SendAndReceive` | src/ipc.c:1926-2217 | a whole send with room leaves its message last, an urgent one first, and a whole receive takes the first message; nothing else is different afterwards |
| `MessageQueue.WaitsDo` | src/ipc.c:1983-2266 | a message resumes the first waiter and stops its timer; a blocking receiver joins in its place, timed exactly if it has a limit; a timeout takes one away, a reset all |
| `MessageNodes.NodesRefineDeque` | src/ipc.c:1926-2280 | refinement: for every run of the machine of nodes and callers, which carries no deque, the bounded deque run on the same steps - send appends, urgent prepends, receive takes the front, reset empties - is what the nodes carry, and no wakeup is lost |
| `MessageNodes.StepErases` | src/ipc.c:1926-2280 | every step of the pair is a step of the machine alone |
| `MessageNodes.StepLifts` | src/ipc.c:1926-2280 | every step of the machine alone is that step of the pair, with one outcome |
| `MessageQueue.FullIsNoFree` | src/ipc.c:1944-1955 | a send is refused exactly when messages and calls in progress fill all places |
| `MessageQueue.CopyRefines` | src/ipc.c:1960-1963 | the copy between the critical sections touches no queued message and no other call's node |
| `MessageQueue.GiveBackRefines` | src/ipc.c:2209-2217 | what a receiver copies out is still the message it took off the queue |
| `MessageLinks.AppendLinked` | src/ipc.c:1967-1981 | linking at the tail keeps head, tail, free list and entry right, also when the queue was empty |
| `MessageLinks.PrependLinked` | src/ipc.c:2054-2063 | linking at the head keeps them right |
| `MessageLinks.DropLinked` | src/ipc.c:2251-2266 | each turn of the reset loop moves the head node to the free list and keeps both lists |
| `MessageLinks.Queue.constructor` | src/ipc.c:1740-1787 | the init loop threads all nodes onto the free list |
| `MessageLinks.Queue.Take` | src/ipc.c:1936-1958 | first region of a send: a node off the free list, or the two refusals |
| `MessageLinks.Queue.LinkTail` | src/ipc.c:1965-2000 | second region of rt_mq_send |
| `MessageLinks.Queue.LinkHead` | src/ipc.c:2051-2082 | second region of rt_mq_urgent |
| `MessageLinks.Queue.Unlink` | src/ipc.c:2097-2207 | one turn of the receive loop: unlink the head node, or refuse, or suspend |
| `MessageLinks.Queue.CopyOut` | src/ipc.c:2209-2210 | the buffer gets the message, cut to its size |
| `MessageLinks.Queue.GiveBack` | src/ipc.c:2212-2217 | the node returns to the free list |
| `MessageLinks.Queue.Reset` | src/ipc.c:2236-2280 | waiters fail and every message returns to the free list |
| `RingList.Insert` | include/rtservice.h:62-84 | the four link writes of an insertion turn the ring of a sequence into that of the longer sequence, in any write order |
| `RingList.Remove` | include/rtservice.h:90-96 | the two link writes of a removal turn it into the ring of the shorter one |
| `RtList.Init` | include/rtservice.h:51-54 | a head linked to itself is the empty list |
| `RtList.InsertAfter` | include/rtservice.h:62-69 | insertion behind the k-th node of the ring |
| `RtList.InsertBefore` | include/rtservice.h:77-84 | insertion in front of it; in front of the head is the end of the list |
| `RtList.RemoveNode` | include/rtservice.h:90-96 | the list closes up and the node is a ring of its own |
| `RtList.IsEmpty` | include/rtservice.h:102-105 | the test finds exactly the empty list |
| `ReadyBitmap.FfsIs` | src/kservice.c:1194-1238 | the byte table search returns one plus the number of the lowest set bit, for every 32-bit value but zero |
| `ReadyBitmap.ByteTable` | src/kservice.c:1194-1212 | the table gives the lowest set bit of every byte but zero |
| `ReadyBitmap.TwoLevelSet` | src/scheduler.c:297-300 | setting a priority in the two-level bitmap keeps it in agreement with the lists |
| `ReadyBitmap.TwoLevelClear` | src/scheduler.c:338-345 | clearing one keeps it in agreement, group bit included |
| `ReadyBitmap.OneLevelSet` | src/scheduler.c:300 | the same for the one-level bitmap |
| `ReadyBitmap.OneLevelClear` | src/scheduler.c:346-348 | the same for the one-level bitmap |
| `ReadyBitmap.HighestIs` | src/scheduler.c:205-212 | in both layouts the search finds the most urgent busy priority |
| `ThreadOps.PlacementSafety` | src/thread.c:203-657 | in every state reachable by startup, suspend, resume, timeout, priority change, yield, close, scheduling and locking: READY exactly when in the ready list of the current priority, no thread in two lists, and the bitmap names exactly the lists that are not empty |
| `ThreadOps.ScheduleRunsMostUrgent` | src/scheduler.c:191-258 | an unlocked schedule runs the first thread of the most urgent list; no ready thread is more urgent |
| `ThreadOps.InsertKeeps` | src/scheduler.c:267-304 | rt_schedule_insert_thread completes an operation: the state is good again |
| `ThreadOps.RemoveKeeps` | src/scheduler.c:313-353 | rt_schedule_remove_thread takes a thread off whatever list it is in and keeps lists and bitmap |
| `ThreadOps.StepKeeps` | src/thread.c:203-657 | each operation keeps the whole invariant |
| `ThreadEffects.StartupDoes` | src/thread.c:203-234 | a new thread has its initial priority and the masks of it, is READY, stands last in that ready list and in no other list; no other thread or list changes |
| `ThreadEffects.ResumeDoes` | src/thread.c:595-626 | a suspended thread becomes READY and stands last in the ready list of its priority and in no other list, everything else as before; any other thread is left alone |
| `ThreadEffects.TimeoutDoes` | src/thread.c:636-657 | the same for a thread whose time is up |
| `ThreadEffects.SuspendDoes` | src/thread.c:554-585 | a READY thread becomes suspended and is in no list, everything else as before; any other is left alone |
| `ThreadEffects.WaitOnDoes` | src/ipc.c:92-135 | a READY thread becomes suspended and stands at the given position of the wait list and in no other list, everything else as before |
| `ThreadEffects.ChangePriorityDoes` | src/thread.c:485-526 | whatever its state the thread has the new priority and its masks, state and initial priority untouched; a READY thread stands last in the list of the new priority and in no other, any other keeps its place; no other thread or list changes |
| `ThreadEffects.CloseDoes` | src/thread.c:340-366 | the thread is closed and first among the threads to clean up, or in no list at all, everything else as before |
| `ThreadEffects.YieldDoes` | src/thread.c:377-411 | a READY running thread that is not alone in its list goes to the end of it, the others keep their order and no control block changes; otherwise nothing changes |
| `ThreadEffects.CriticalDoes` | src/scheduler.c:358-402 | enter and exit change only the lock depth, but the last exit also makes the first thread of the most urgent ready list the running one |
| `ThreadObject.Kernel.Startup` | src/thread.c:203-234 | priority and masks are set and the thread made ready |
| `ThreadObject.Kernel.Suspend` | src/thread.c:554-585 | refused unless READY; otherwise off the ready list |
| `ThreadObject.Kernel.Resume` | src/thread.c:595-626 | refused unless suspended; otherwise to the end of its ready list |
| `ThreadObject.Kernel.Timeout` | src/thread.c:636-657 | off the wait list and to the end of its ready list |
| `ThreadObject.Kernel.ChangePriority` | src/thread.c:485-526 | a ready thread moves to the list of its new priority; another only changes its fields |
| `ThreadObject.Kernel.YieldThread` | src/thread.c:377-411 | behind the others of the same priority, if there are any |
| `ThreadObject.Kernel.Close` | src/thread.c:340-366 | off its list, closed, and onto the defunct list |
| `ThreadObject.Kernel.ScheduleNow` | src/scheduler.c:191-258 | the choice of the next thread |
| `ThreadObject.Kernel.ExitCritical` | src/scheduler.c:379-402 | the last unlock schedules |
| `RoundRobin.Fair` | src/clock.c:83-105 | on the list of slots: every window of as many ticks as the slices add up to runs each thread exactly its own slice and brings the list back where it was |
| `RoundRobin.FairRounds` | src/clock.c:83-105 | on the list of slots: over any number of such windows each thread gets that many slices |
| `RoundRobin.StaysFair` | src/clock.c:83-105 | on the list of slots: the situation the windows start from is kept by every tick |
| `TimeSlice.TickSimulates` | src/clock.c:83-105 | a tick of the kernel - remaining_tick of the current thread, yield, schedule - is a tick of the slots of its most urgent list and changes nothing else |
| `TimeSlice.RunSimulates` | src/clock.c:83-105 | n ticks of the kernel are n ticks of the slots, and the kernel's current thread is the one at their head |
| `TimeSlice.KernelFair` | src/clock.c:83-105 | fairness in the kernel: every window of as many ticks as the slices add up to has each thread of the most urgent list current for exactly its init_tick ticks, no other thread at all, and leaves the whole kernel as it was |
| `TimeSlice.KernelFairRounds` | src/clock.c:83-105 | over m such windows each thread is current for m slices |
| `TimeSlice.KernelStaysFair` | src/clock.c:83-105 | every tick keeps the situation such a window starts from |
| `TimeSlice.YieldRotates` | src/thread.c:377-411 | in the kernel's lists a yield and a schedule rotate the most urgent list and run its next thread |
| `TimeSlice.Clock.TickIncrease` | src/clock.c:83-105 | the tick on the kernel object: counter, yield and schedule as specified |
| `ThreadRegions.FirstRegionExactly` | src/thread.c:595-626 | exact condition: the removal in rt_thread_resume leaves the lists in order if and only if the thread is not READY |
| `ThreadRegions.SecondRegionExactly` | src/thread.c:595-626 | exact condition: the insertion leaves them in order if and only if the thread is in no list |
| `ThreadRegions.RegionsAreResume` | src/thread.c:595-626 | with nothing in between the regions are the whole operation |
| `ThreadRegions.RegionSafety` | src/thread.c:595-626 | between any two regions of any interleaving of resumes and other operations the placement invariant holds, as long as a thread being resumed is not resumed, timed out or closed by another before its insertion |
| `ThreadRegions.OverlapInsertsTwice` | src/thread.c:595-626 | the condition is needed: of two overlapping resumes of a thread the second puts it into its ready list twice |
| `ThreadRegions.OverlapReached` | src/thread.c:595-626 | a run of two tests and two first regions leads there from any good state in which the thread is suspended |
| `ThreadRegions.DeleteFirstExactly` | src/thread.c:340-366 | exact condition: after the first region of rt_thread_delete READY still means being in the ready list if and only if the thread was not READY |
| `ThreadRegions.DeleteSecondExactly` | src/thread.c:340-366 | exact condition: whatever happened to the thread in the gap, the second region leaves all in order if and only if the thread is in no list |
| `ThreadRegions.RegionsAreDelete` | src/thread.c:340-366 | with nothing in the gap the regions are the whole operation |
| `ThreadRegions.ResumeInTheGap` | src/thread.c:340-366 | the condition is needed: a resume of a suspended thread in the gap ends with the thread in two lists |
| `Timer.CompareIs` | src/timer.c:356-363 | seen from any base with both deadlines within half the range, the 32-bit comparison orders them by distance, also across the wrap |
| `Timer.DueIs` | src/timer.c:510 | the expiry test is true exactly of deadlines not after the present tick |
| `Timer.InsertKeeps` | src/timer.c:339-388 | insertion keeps a row sorted and distinct and adds exactly the timer |
| `Timer.InsertIsStable` | src/timer.c:351-363 | a timer goes behind all those with the same deadline |
| `Timer.KeepInsert` | src/timer.c:376-388 | insertion commutes with thinning a row out, so a sparser row stays a subsequence |
| `TimerList.LinkIsInsert` | src/timer.c:339-388 | rt_timer_start is stable insertion into a flat sorted list, in every row it reaches |
| `TimerList.InsertAllKeeps` | src/timer.c:376-388 | whatever the height, every row stays sorted and a subsequence of the next denser one |
| `TimerList.RemoveAllKeeps` | src/timer.c:123-131 | removal from all rows keeps them so |
| `TimerCheck.FireAllMid` | src/timer.c:488-546 | the expiry loop fires exactly the timers that were due, in order, relinks the periodic ones a full period later, and leaves none overdue |
| `TimerCheck.TickFires` | src/timer.c:488-546 | a tick fires exactly the active timers whose time is up, a prefix of the last row; one-shot timers leave, periodic ones wait a full period |
| `TimerCheck.TimerSafety` | src/timer.c:294-546 | every run of start, stop, control and tick, also across the wrap: rows sorted by time left, sparser rows subsequences, every active timer less than half the range ahead |
| `TimerLife.StartDoes` | src/timer.c:294-409 | a started timer has its interval to go and stands behind all timers that end no later and in front of all that end later; the others keep their order and their deadlines |
| `TimerLife.StopDoes` | src/timer.c:419-441 | a stop fails if and only if the timer is not active, and then it is in no row and nothing changes; afterwards it is in no row, and every row is the old one with just the timer cut out |
| `TimerLife.NextTimeoutIs` | src/timer.c:110-121 | the next timeout is the deadline of an active timer that no active timer is before, or the largest tick if none is active |
| `TimerLife.TickDoes` | src/timer.c:488-546 | one tick for one timer: it fires if at most one tick was left, periodic ones then having a full period to go, and otherwise it has one tick less to go |
| `TimerLife.FiresAfterItsInterval` | src/timer.c:294-546 | over n ticks: a timer started for n ticks and left alone is active through the first n - 1 of them and fires with the n-th, across the wrap of the tick; a periodic one is then running for n more |
| `TimerSearch.SearchInWindow` | src/timer.c:339-367 | with all deadlines in the window the walk from row to row finds in each row the place of stable insertion |
| `TimerSearch.FrontExactly` | src/timer.c:339-367 | for any deadlines: the walk ends in front of the last row if and only if the first timer of every row is later |
| `TimerRegions.SecondInOrderExactly` | src/timer.c:323-393 | exact condition: the insertion leaves the rows in order, overdue timers included, if and only if the timer is not in them and all deadlines, its own included, are less than half the range after some tick not long past |
| `TimerRegions.SecondRegionExactly` | src/timer.c:323-393 | the same between operations: the timer must not be in the rows, and its deadline not past, or past with no active deadline half the range or more after it |
| `TimerRegions.LateFirstExactly` | src/timer.c:339-393 | exact condition: a timer inserted after its deadline comes to stand first and due if and only if the first timer of every row is less than half the range after it |
| `TimerRegions.LateFires` | src/timer.c:488-546 | the next rt_timer_check fires such a timer before all others that are due and leaves everything in order |
| `TimerRegions.LateTimerIsLost` | src/timer.c:351-363 | the failing case, reached by a run: an overdue timer stands behind one with the longest interval and the next check does not fire it |
| `TimerRegions.DelayExactly` | src/timer.c:317-321 | ticks between the two regions make a timer late if and only if they are more than it runs for |
| `TimerRegions.RegionsAreStart` | src/timer.c:294-393 | with nothing in between the regions are the whole operation |
| `TimerRegions.RegionSafety` | src/timer.c:294-546 | between any two regions of any interleaving of starts, stops and ticks the rows are in order, and none is overdue after a tick, however late an insertion comes, as long as all deadlines find room in half the range and nobody else starts the timer meanwhile |
| `TimerRegions.TickRoomOfInv` | src/timer.c:488-546 | a tick finds room whenever no timer is overdue |
| `TimerRegions.OverlapInsertsTwice` | src/timer.c:294-393 | the last condition is needed: a run of two overlapping starts of a timer puts it into the rows twice |
| `TimerObject.Timers.Search` | src/timer.c:339-367 | the loop computes the walk from row to row, each starting where the sparser row stopped, for any deadlines |
| `TimerObject.Timers.LinkTimer` | src/timer.c:373-388 | the timer goes into as many of the densest rows as the counter says |
| `TimerObject.Timers.StartTimer` | src/timer.c:294-409 | deadline, search and links as specified |
| `TimerObject.Timers.StopTimer` | src/timer.c:419-441 | refused for an inactive timer; otherwise out of all rows |
| `TimerObject.Timers.CheckTimers` | src/timer.c:488-546 | the loop terminates and fires the due timers in order |
| `TimerObject.Timers.Next` | src/timer.c:110-121 | the first deadline, or the largest tick |
| `BlockList.TotalIs` | src/mem.c:184-231 | used and free extents add up to the whole range |
| `BlockList.UsedDisjoint` | src/mem.c:246-375 | two used blocks never overlap |
| `SmallHeap.SmallHeapSafety` | src/mem.c:246-559 | every run of malloc, realloc and free: blocks tile the heap, no adjacent free blocks, the statistics are the used extents, live blocks are disjoint, lfree is a free block or the end stub, and over malloc and free it is the lowest |
| `SmallHeap.MallocSucceeds` | src/mem.c:246-375 | allocation succeeds exactly when a block at or above lfree fits below the bound of the search, and takes the lowest such |
| `SmallHeap.MallocIsFirstFit` | src/mem.c:279-370 | with lfree lowest, the answer is never above any block that fits |
| `SmallHeap.ExactFitAtEndRefused` | src/mem.c:279-285 | a free block that is large enough is passed over exactly when it is the last one and fits to the word |
| `SmallHeap.FreshMallocExactly` | src/mem.c:246-375 | on a fresh heap of any size an allocation succeeds if and only if it needs less than the whole payload, which is refused |
| `SmallHeap.ShrinkLowest` | src/mem.c:431-454 | exact condition: after a shrinking realloc lfree is still lowest if and only if it was below the block or the block behind is free |
| `SmallHeap.ShrinkMayRaiseLfree` | src/mem.c:431-454 | a heap on which the shrinking realloc leaves lfree above a free block |
| `SmallHeap.ShrinkRaisesLfreeInARun` | src/mem.c:431-454 | two allocations and a shrinking realloc from initialization end in that state |
| `SmallHeap.PeakIs` | src/mem.c:320-340 | max_mem is never below what is in use and never falls; a malloc makes it the larger of itself and what is then in use, a free leaves it |
| `SmallHeapRoom.RoundIs` | src/mem.c:263 | the rounded size is the least number of words that holds the bytes asked for |
| `SmallHeapRoom.MallocGives` | src/mem.c:246-375 | an answer is one more block in use, with room for the request, that begins where none began; a refusal changes nothing |
| `SmallHeapRoom.ReallocGives` | src/mem.c:386-467 | an answer is live with room for the request in words and bytes, every other block stays, and a moved block's old pointer is dead; the block stays if and only if it has the very size or can be split; it is refused if and only if the size exceeds the heap or it must move and malloc fails, and then nothing changes |
| `SmallHeapRoom.EveryRequestHasRoom` | src/mem.c:246-559 | every run, against a ledger kept from calls and answers alone: the live pointers are exactly the ledger's, each block holds at least the bytes last asked for, and no two overlap |
| `SmallHeap.PlugShape` | src/mem.c:136-174 | plug_holes keeps the tiling, the statistics and the used blocks |
| `SmallHeap.PlugCoalesced` | src/mem.c:136-174 | plug_holes leaves no two adjacent free blocks |
| `SmallHeapMemory.RepSplice` | src/mem.c:303-318 | headers written in place of others make up the new list, back links included, all but the end stub's |
| `SmallHeapMemory.PayloadUntouched` | src/mem.c:246-559 | no operation writes a payload word that is in use before and after |
| `SmallHeapObject.SmallMemory.PlugHoles` | src/mem.c:136-174 | joins a free next and a free previous block in memory and follows with lfree |
| `SmallHeapObject.SmallMemory.Malloc` | src/mem.c:246-375 | the search, the split and the lfree loop on the headers do what is specified |
| `SmallHeapObject.SmallMemory.Search` | src/mem.c:279-285 | the search loop finds the first block that fits |
| `SmallHeapObject.SmallMemory.Free` | src/mem.c:505-559 | the release on the headers |
| `SmallHeapObject.SmallMemory.Shrink` | src/mem.c:431-454 | the shrinking case on the headers |
| `SmallHeapRealloc.Realloc` | src/mem.c:386-467 | realloc on memory: the words common to old and new size are kept, and so is every other live payload |
| `MemHeap.MemHeapSafety` | src/memheap.c:60-596 | every run of alloc, realloc and free: blocks tile the pool, the free list holds exactly the unused blocks, no two neighbours are free, available_size is the sum of free payloads, live blocks are disjoint |
| `MemHeap.AllocSucceeds` | src/memheap.c:162-287 | allocation succeeds exactly when the size is below available_size and some free block is large enough; the answer is the payload of such a block |
| `MemHeap.AllocAtUsed` | src/memheap.c:194-265 | an allocation adds exactly one live block and moves no other |
| `MemHeap.FreeAtUsed` | src/memheap.c:536-592 | a release removes exactly the block, in all four cases of free neighbours |
| `MemHeap.GrowAtUsed` | src/memheap.c:338-406 | growing in place moves only the end of the block |
| `MemHeap.ShrinkAtUsed` | src/memheap.c:423-495 | shrinking moves only the end of the block |
| `MemHeap.PeakIs` | src/memheap.c:241-249 | max_used_size is never below what is in use, never falls, and rises only to what an allocation has in use |
| `MemHeapRoom.WantIs` | src/memheap.c:155-157 | the request is the least number of words that holds the bytes asked for and is not below the minimum |
| `MemHeapRoom.AllocGives` | src/memheap.c:146-288 | an answer is one more block in use, with room for the request, that begins where none began; a refusal changes nothing |
| `MemHeapRoom.ReallocGives` | src/memheap.c:291-496 | an answer is live with room for the request in words and bytes, every other block stays, and a moved block's old pointer is dead; it is refused if and only if the block is too small, the free block behind cannot give what is missing, and no allocation of the size succeeds, and then nothing changes |
| `MemHeapRoom.EveryRequestHasRoom` | src/memheap.c:60-596 | every run, against a ledger kept from calls and answers alone: the live pointers are exactly the ledger's, each block holds at least the bytes last asked for, and no two overlap |
| `MemHeapMemory.PayloadUntouched` | src/memheap.c:146-596 | headers never lie in a live payload, so no operation writes one |
| `MemHeapLinks.InsertBlock` | src/memheap.c:216-220 | splicing the address ring disturbs neither the free list nor a mark |
| `MemHeapLinks.RemoveFree` | src/memheap.c:222-226 | unlinking from the free list disturbs neither the address ring nor a mark |
| `MemHeapAlloc.TakeSplit` | src/memheap.c:194-243 | the split on the headers yields the specified heap |
| `MemHeapAlloc.TakeWhole` | src/memheap.c:244-265 | handing out a whole block yields it |
| `MemHeapAlloc.FreeBlock` | src/memheap.c:536-592 | the release on the headers, with its gain in available words |
| `MemHeapResize.GrowBlock` | src/memheap.c:354-406 | growing on the headers, where the new header may overlap the old one |
| `MemHeapResize.ShrinkBlock` | src/memheap.c:436-489 | shrinking on the headers |
| `MemHeapObject.Search` | src/memheap.c:176-187 | the walk over the free list finds the first block that is large enough |
| `MemHeapObject.MemoryHeap.constructor` | src/memheap.c:60-131 | the initial headers are one free block and a used tailer |
| `MemHeapObject.MemoryHeap.Alloc` | src/memheap.c:146-288 | counters and headers as specified; every live payload is kept |
| `MemHeapObject.MemoryHeap.Free` | src/memheap.c:499-596 | counters and headers as specified; every other live payload is kept |
| `MemHeapObject.MemoryHeap.Realloc` | src/memheap.c:291-496 | the words common to old and new size are kept, whether the block grows, shrinks or moves, and so is every other live payload |
| `PageList.Unique` | src/slab.c:246-332 | a canonical list is determined by the set of free pages |
| `PageList.AllocTakes` | src/slab.c:246-280 | an allocation takes exactly the pages of its answer and keeps the list canonical |
| `PageList.AllocFails` | src/slab.c:246-280 | allocation fails exactly when nowhere that many pages in a row are free |
| `PageList.FreeAdds` | src/slab.c:282-332 | a release adds exactly its pages and keeps the list sorted, disjoint and maximal |
| `PageList.FreeUndoesAlloc` | src/slab.c:246-332 | freeing a just allocated run restores the list exactly |
| `PageList.FreesCommute` | src/slab.c:282-332 | the order of two releases does not matter |
| `PageList.Pages.PageAlloc` | src/slab.c:246-280 | the search loop |
| `PageList.Pages.PageFree` | src/slab.c:282-332 | the loop with its merges |
| `SlabSizes.MaskIsQuotient` | src/slab.c:411-469 | the mask (n + u - 1) & ~(u - 1) of a power of two rounds up to the next multiple |
| `SlabSizes.ZoneIndexIsLeast` | src/slab.c:411-469 | zoneindex picks the smallest class that holds the request, also where two ranges meet |
| `SlabSizes.ZoneIndexMonotone` | src/slab.c:411-469 | larger requests never get a smaller class; equal index if and only if equal chunk size |
| `SlabSizes.PowerTestIs` | src/slab.c:647 | the bit test finds exactly the powers of two |
| `SlabSizes.ZoneHoldsTwo` | src/slab.c:640-656 | every zone has room for at least two chunks behind its header |
| `SlabSizes.PowerAligned` | src/slab.c:643-650 | power-of-two chunks of at most a page are aligned to their size |
| `SlabZones.NoneLives` | src/slab.c:559-582 | z_nfree never exceeds the number of chunks and equals it exactly when no chunk lives |
| `SlabZones.TakeChunkOk` | src/slab.c:559-582 | a zone with a free chunk gives one that was not live, and no other changes |
| `SlabHeap.SlabSafety` | src/slab.c:488-935 | every run of malloc and free: z_nfree is right, a zone is in its list exactly when it has a chunk to give, retired zones are in none and at most two, live memory is disjoint, and the page table leads every live pointer to what was given out |
| `SlabHeap.MallocAdds` | src/slab.c:488-684 | a successful allocation adds exactly one live item with room for the request |
| `SlabHeap.MallocFailsExactly` | src/slab.c:488-684 | an allocation fails if and only if nothing is asked for, or nowhere enough pages in a row are free for a large request, or for a small one no listed zone has a chunk, no zone is in reserve and nowhere enough pages in a row are free for a new one; then nothing changes |
| `SlabHeap.ReleaseRemoves` | src/slab.c:793-935 | a release removes exactly its item, even when the zone retires or its pages are returned |
| `SlabHeap.LiveDisjoint` | src/slab.c:488-935 | live chunks and large blocks never overlap |
| `SlabHeap.LeadsHome` | src/slab.c:856-857 | the page table leads any byte of a live chunk back to its zone |
| `SlabHeap.LookupFinds` | src/slab.c:825-857 | rt_free finds the very chunk or block the pointer was given out for |
| `SlabObject.ChooseZoneSize` | src/slab.c:384-387 | the loop ends with one of three zone sizes, the smallest that suits the heap |
| `SlabObject.SlabMemory.Malloc` | src/slab.c:488-684 | large blocks, chunks of listed zones and new zones as specified |
| `SlabObject.SlabMemory.MarkPages` | src/slab.c:627-634 | the loop enters a zone's pages into the page table |
| `SlabObject.SlabMemory.Free` | src/slab.c:793-935 | large blocks and chunks as specified, found through the page table |
| `SlabObject.SlabMemory.RetireZone` | src/slab.c:879-931 | the list search, zone_free and the release of the newest zone above the threshold |

## Left out

- Context switch, stack setup, interrupt masking, hooks and debug output: hardware and observers; an interrupt-disabled region is one atomic step.
- The heaps' lock semaphores: every heap operation is atomic; `src/slab.c` releases its lock twice when no pages are left for a zone.
- Allocation sizes that overflow when aligned, pools smaller than their headers, and pointers the heap did not give out: callers are taken to avoid them, as the assertions in the code demand; the small heap is taken to be at least 12 bytes.
- Heap memory below the word: sizes and addresses are in 4-byte words, the alignment of the code; a byte-wise copy is a word-wise one.
- The slab's zone headers and chunk links in memory: zones are records and chunks are numbered; `rt_realloc` and `rt_calloc` of the slab are calls of malloc, copy and free and add no invariant.
- rt_memheap across several heaps (`src/memheap.c:602-700`), `src/mempool.c`, `src/module.c`, `src/device.c`, `src/object.c`, `src/idle.c`, `src/irq.c`: easy members, or dependent on foreign images.
- Soft timers and callbacks that restart their own timer: `rt_timer_check` is modelled with callbacks that leave the timers alone.
- Timer links: rows are sequences of timers; `rtservice.h`'s pointer surgery is modelled once, in `RtList`.
- Thread lists in the scheduler and the IPC objects are sequences for the same reason; deleting an IPC object and deleting a thread that waits on one are not modelled in the IPC modules.
- Priority inheritance over several mutexes, and re-sorting a wait list after a waiter's priority changes: the code attempts neither.
- The position at which a thread enters a wait list in `ThreadOps` is a parameter; `IpcList` says which one the code takes.
- Delete and detach of a thread that was never started: its masks are not set yet.
- `rt_schedule` with no ready thread: the idle thread is taken to be ready whenever the scheduler runs.
- The tokenizer, variable declarations, the shell's string heap and its user interface; identifiers longer than the name field.
- FinshCasts.CastParsesToMarked: a cast in front of any unary expression; casts inside a larger expression are not among the phrases of `FinshRoundTrip`; `FinshCasts.CastIsIgnoredExactly` says when they would matter.
- In-place changes to syntax nodes: the type check returns the annotated tree instead of rewriting it, so sharing of nodes is not captured.
- Machine memory that overlaps the stack or the text segment, and calls of functions that are not in the environment: the machine gets stuck there.
- TimerCheck.TimerSafety: starts from any good state, such as that of `TimerCheck.EmptyInv`, takes periods of at least one tick, and takes rt_timer_start as one step; `TimerRegions` takes its two regions apart.
- TimerObject.Timers.StartTimer: runs the two regions of rt_timer_start without a gap; `TimerRegions` says what a gap does.
- ThreadOps.PlacementSafety: starts from any good state, such as that of `ThreadObject.StartInv`, and takes rt_thread_resume, rt_thread_delete and rt_thread_detach as one step each; `ThreadRegions` takes their regions apart.
- ThreadOps.StepKeeps: one step per operation, as above.
- ThreadObject.Kernel.Resume: runs the two regions of rt_thread_resume without a gap; `ThreadRegions` says what a gap does.
- ThreadObject.Kernel.Close: runs the two regions of rt_thread_delete without a gap; `ThreadRegions` says what a gap does, but its run-level theorem interleaves the regions of rt_thread_resume only.
- RoundRobin.Fair: speaks of a list of slots; `TimeSlice` carries it over to the kernel.
- TimeSlice.Clock.TickIncrease: ends before rt_timer_check, which `TimerObject.Timers.CheckTimers` models; fairness is for windows in which no timer or other call makes a thread ready or blocks one.
