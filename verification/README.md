# Models of the run-time cores of a small Lua system

The repository embeds a Lua interpreter, the libuv event loop and a Modbus library in one system
for small devices. This project models nine of its cores in Dafny and proves what each of them
is for. Code that changes things in place (the code generator's instruction array, the collector's
lists, the heap's nodes, the stack of a thread, the tables of a server) is a class or an array
here as well, and its methods are proved against functions and predicates whose own properties are
lemmas.

- **Short-circuit code** (`LuaMachine`, `LuaExpressions`, `LuaCode`, `LuaFinish`): the code
  generator for constants, variables, `not`, `and`, `or` and comparisons, with its lists of jumps
  that are patched later, and the last pass over a function's code. `LuaMachine` is the interpreter
  loop for the instructions concerned, whose operands are what their fields can hold. An
  expression's descriptor together with its two lists *denotes* the expression; every operation of
  the generator keeps that, and at the end the code computes the value of the expression in the
  sense of section 3.4 of the Lua 5.4 Reference Manual.
- **Line information** (`LuaLines`): the encoder in `lcode.c` and the two readers in `ldebug.c`.
- **Thread pool** (`ThreadPool`, `ThreadPoolProgress`, `ThreadPoolPromises`, `Queue`): workers,
  submitters and cancelling loops as a state machine whose steps are what happens between two
  operations on a lock, with an invariant over every interleaving and a rank that every step of a
  worker or loop lowers; what a caller is promised about cancelling and about order; and the linked
  lists that hold the requests.
- **Collector** (`CollectorHeap`, `CollectorInvariant`, `CollectorLive`, `Collector`,
  `CollectorRuns`): incremental marking, weak and ephemeron tables, the sweep, both barriers, and
  the steps of the program in between.
- **Host names** (`Utf8`, `Punycode`, `PunycodeSamples`, `Idna`): the encoder is inverted by the
  decoder of section 6.2 of RFC 3492, written here as a function; sample strings of that RFC fix the
  parameters that the two share.
- **Timers** (`PointerHeap`, `Timers`): the heap of linked nodes, and the timers of a loop on it.
- **Open upvalues** (`Upvalues`): a stack that moves, with upvalues that point into it, shows what
  one heap cell per captured variable would show.
- **Modbus** (`CrcTables`, `Crc`, `ModbusPdu`, `ModbusFrame`, `ModbusMeaning`, `ModbusServer`,
  `ModbusClient`, `ModbusSamples`): checksum, frames, the receiver, what a request means address by
  address, the server over its tables, and whole calls from client to server and back; the examples
  of the protocol's specification fix the bytes.
- **Addresses** (`Inet`, `Inet6`, `Inet6Forms`): IPv4 and IPv6 addresses as text, both ways, and
  which form is printed when.

`Common` holds the types that several of these share. `dafny verify dfyconfig.toml` checks
everything.

## Findings

Where the code does not do what it is for, the model follows the code, shows the case and proves
when the code does right.

| property | where | what happens | shown by | when it holds |
|---|---|---|---|---|
| nothing that the program can reach is freed | core/deps/lua/src/lapi.c:906-909, core/deps/lua/src/lgc.c:497, core/deps/lua/src/lgc.c:1439-1451 | an all-weak table that was visited while propagating waits, gray, in `allweak` and is not visited again; a white metatable stored in it then has no barrier, and once it leaves the stack it is freed while the table still refers to it | `CollectorRuns.Machine.LosesMetatable` | in every run without a store of a white metatable in a table set aside (`Run`); in any run exactly as long as no table within reach has lost its metatable (`RunOn`, `SafeExactly`); at the end of the cycle, exactly when the collector came upon the metatable by another way (`Machine.FinishCycle`) |
| `uv__run_timers` ends | core/deps/libuv/src/timer.c:83-85, core/deps/libuv/src/timer.c:159-176 | a timer whose callback starts it again with a timeout of 0 is due again at once, at any time, so the loop does not end; neither does it when time has reached 2^64-1, where the clamped deadline of any timer that is started is the present | `Timers.SpinsOnZero`, at time 100; `Timers.SpinsAtTheEnd` | for callbacks that do whatever they like to their own timer, exactly when no due timer is due again after its turn and after the one that follows (`Timers.Loop.Turns`); for a callback that only starts its timer, that is exactly when the timeout is positive and time is not at its end (`Timers.RecursExactly`); for callbacks that act on any timers, if they start them with timeouts of at least 1 and time is not at its end (`Timers.Loop.RunTimers`) |
| `modbus_write_registers` writes the words it is given | modules/modbus/src/modbus.c:1390-1393 | the branch that is compiled sends the low byte first, so each word arrives with its bytes swapped | `ModbusClient.Client.CallWriteRegisters` | exactly when both bytes of every word are the same (`ModbusClient.WrittenAsPassed`) |
| `inet_ntop6` reports a buffer that is too small | core/deps/libuv/src/inet.c:144-146 | a buffer of size 0 gets nothing, and success is reported | `Inet6.Ntop6` | for every size but 0 (`Inet6.Ntop6`) |

The server compares the read address of function 0x17 with the start of its table twice and the
write address never (modules/modbus/src/modbus.c:961-964); the model asks for a write address that
is not below the table. A table that the collector has set aside as all weak is cleared as one at the
end of the cycle even if it has been given a stronger mode since, as section 2.5.4 of the Lua 5.4
Reference Manual allows; `CollectorRuns.Taken` says so. The client takes an answer whose protocol identifier has one byte that is
not zero (modules/modbus/src/modbus-tcp.c:202); `ModbusClient.Accepted` says so.

## Model

| member | source | states |
|---|---|---|
| LuaMachine.RunIsExecution | core/deps/lua/src/lvm.c:1540-1608 | a run over code without pending jumps is an execution of the interpreter loop, step by step, with the same registers at its end |
| LuaMachine.RunPatched | core/deps/lua/src/lcode.c:258-297 | patching a list of jumps changes a run in one way only: where it would have left by a jump of the list it goes on at the destination, with the tested value in the register if the test produces one |
| LuaMachine.RunWidened | core/deps/lua/src/lcode.c:130-146 | making a preceding LOADNIL wider does what a second LOADNIL would do, for every run that falls into it |
| LuaExpressions.NilDenotes | core/deps/lua/src/lcode.c:130-146 | the widened LOADNIL is right only because no jump ends between the two: then the descriptor still denotes its expression |
| LuaExpressions.ShortCircuitDenotes | core/deps/lua/src/lcode.c:1648-1659 | joining the first operand's exits to the second operand's lists yields a descriptor that denotes the conjunction, or the disjunction |
| LuaExpressions.CompareDenotes | core/deps/lua/src/lcode.c:1492-1547 | a test and its jump denote the comparison of the two operands |
| LuaCode.FuncState.Concat | core/deps/lua/src/lcode.c:180-191 | the result is the list of the jumps of both lists in order, and no instruction but links of the first list has changed |
| LuaCode.FuncState.PatchListAux | core/deps/lua/src/lcode.c:287-297 | exactly the jumps of the list get a destination: value-producing ones `vtarget` and the register, the others `dtarget` |
| LuaCode.FuncState.CodeNil | core/deps/lua/src/lcode.c:130-146 | either one new LOADNIL, or the last one widened to the union of two ranges that touch, if no jump ends here |
| LuaCode.FuncState.Exp2Reg | core/deps/lua/src/lcode.c:900-922 | whatever the descriptor and its lists denoted ends up in the register, with no jump left pending |
| LuaCode.FuncState.JumpOnCond | core/deps/lua/src/lcode.c:1098-1110 | the jump emitted is taken exactly when the value's truth is `cond`, a final `not` having been removed and the condition inverted |
| LuaCode.FuncState.GoIfTrue | core/deps/lua/src/lcode.c:1116-1137 | code goes through exactly when the expression is true, and otherwise leaves by the returned list |
| LuaCode.FuncState.GoIfFalse | core/deps/lua/src/lcode.c:1143-1163 | code goes through exactly when the expression is false, and otherwise leaves by the returned list |
| LuaCode.FuncState.CodeNot | core/deps/lua/src/lcode.c:1169-1197 | the two lists change roles, produce no values any more, and the descriptor denotes the negation |
| LuaCode.FuncState.CodeOrder | core/deps/lua/src/lcode.c:1492-1515 | the descriptor denotes the comparison by order, with the operands in either order and immediate operands included |
| LuaCode.FuncState.CodeEq | core/deps/lua/src/lcode.c:1522-1547 | the descriptor denotes equality or inequality, a constant operand having changed places |
| LuaCode.FuncState.Compile | core/deps/lua/src/lparser.c:1250-1277 | for every expression tree the descriptor and lists that are left denote the expression, for all registers and all values |
| LuaCode.FuncState.ExpToNextReg | core/deps/lua/src/lcode.c:928-933 | executing the function from where the expression's code starts reaches exactly its end, with the value of the expression in the next free register and every register in use unchanged |
| LuaCode.FuncState.StoreLocal | core/deps/lua/src/lcode.c:1031-1037 | the same with the register of a local variable, which the expression may mention |
| LuaCode.FieldRanges | core/deps/lua/src/lcode.c:646-656 | immediate operands are used for exactly the numbers that their fields can hold |
| LuaFinish.Finish | core/deps/lua/src/lcode.c:1769-1814 | the pass in place: from every position control reaches the instruction it reached before, other instructions are what they were up to the work of returns, and every jump goes straight to where it landed within a hundred jumps; when it fails, some jump leads, over jumps, to an instruction out of its reach, or to a jump out of its reach a hundred jumps on |
| LuaFinish.SameControlDiverges | core/deps/lua/src/lcode.c:1769-1779 | after the pass, jumps go round in a circle from exactly the positions from which they did before, although only a hundred are followed |
| LuaFinish.ExecutionSame | core/deps/lua/src/lcode.c:1786-1814 | registers and positions at instructions other than jumps are reached by the new code exactly when the old code reaches them |
| LuaFinish.ReturnDone | core/deps/lua/src/lcode.c:1792-1805 | where a function is left, the values returned, or the call made in its place, are what they were; upvalues are closed exactly if the function needs it or the instruction said so; and the frame of a vararg function, whatever its number of arguments, goes back to where it was, as lvm.c:1618-1703 takes it back |
| LuaLines.LineState.SaveLineInfo | core/deps/lua/src/lcode.c:337-352 | one more line is recorded, absolute or relative, and read back rightly exactly if the state was coherent or the line is far away |
| LuaLines.LineState.RemoveLastLineInfo | core/deps/lua/src/lcode.c:361-373 | the last line is forgotten; the state stays coherent exactly if what was removed was absolute or nothing was removed before |
| LuaLines.WriteLines | core/deps/lua/src/lcode.c:380-398 | after any sequence of emissions, changes of the last line, and removals each followed by an emission, every line is recorded, with absolute information never more than 121 instructions back |
| LuaLines.GetFuncLine | core/deps/lua/src/ldebug.c:89-101 | returns for every instruction the last line recorded for it |
| LuaLines.GetBaseLine | core/deps/lua/src/ldebug.c:58-81 | finds the last absolute entry at or before an instruction, or the line of the definition: no marker lies between it and the instruction |
| LuaLines.ChangedLine | core/deps/lua/src/ldebug.c:789-795 | tells whether two instructions have different lines |
| LuaLines.WalkIsShort | core/deps/lua/src/ldebug.c:58-81 | from there at most 121 entries are walked |
| ThreadPool.StepKeeps | core/deps/libuv/src/threadpool.c:57-160 | every step of every worker, submitter, canceller and loop keeps the invariant |
| ThreadPool.ExactlyOnce | core/deps/libuv/src/threadpool.c:269-315 | in every reachable state a request is in exactly one place, and a delivered one has seen ECANCELED exactly if its work function never started |
| ThreadPool.AtMostOnce | core/deps/libuv/src/threadpool.c:295-315 | over any run from the start the deliveries of a request, and the calls of its work function, number one or none, as the request says |
| ThreadPool.DeliveredOnce | core/deps/libuv/src/threadpool.c:295-315 | nothing about a delivered request changes any more |
| ThreadPool.NeverAborts | core/deps/libuv/src/threadpool.c:49-51 | `uv__cancelled` is never called, even by repeated cancellations |
| ThreadPool.SlowWorkBounded | core/deps/libuv/src/threadpool.c:45-47 | the count of slow work is exact and at most half of the pool, rounded up |
| ThreadPool.NothingForgotten | core/deps/libuv/src/threadpool.c:71-117 | if every worker is blocked, nothing is queued |
| ThreadPool.ExitReachesAll | core/deps/libuv/src/threadpool.c:164-184 | once the exit message is posted, workers that are left are never all blocked |
| ThreadPoolProgress.EverythingDelivered | core/deps/libuv/src/threadpool.c:57-160 | from any reachable state, once nothing more is submitted or cancelled, workers and loops have a bounded number of steps left in whatever order they take them, and when none is left every request has been delivered |
| ThreadPoolProgress.StuckDelivered | core/deps/libuv/src/threadpool.c:295-315 | while a request is not delivered some worker or loop has a step to take |
| ThreadPoolProgress.ComesToRest | core/deps/libuv/src/threadpool.c:57-160 | from any such state there is an order of steps after which nothing is left to do |
| ThreadPoolPromises.CancelledNeverRuns | core/deps/libuv/src/threadpool.c:269-293 | in every reachable state, cancelling a request that is queued, as slow work or not, cancels it: in whatever run follows its work function is never called, and its callback sees nothing but ECANCELED |
| ThreadPoolPromises.CancelledIsDelivered | core/deps/libuv/src/threadpool.c:269-315 | and when workers and loops have nothing left to do its callback has seen that |
| ThreadPoolPromises.CancelBusy | core/deps/libuv/src/threadpool.c:269-293 | cancelling changes nothing exactly while a worker has the request or once one has run it |
| ThreadPoolPromises.StartedInOrder | core/deps/libuv/src/threadpool.c:131-160 | requests of one sort reach workers in the order in which they were submitted |
| ThreadPoolPromises.DeliveredInOrder | core/deps/libuv/src/threadpool.c:295-315 | a loop calls callbacks in the order in which the work was finished |
| Queue.InsertTail | core/deps/libuv/src/queue.h:92-99 | a ring of linked nodes with one more node at its end |
| Queue.Remove | core/deps/libuv/src/queue.h:101-106 | a ring without the node, whose own links stay as they were |
| Queue.Move | core/deps/libuv/src/queue.h:72-81 | everything behind one header, in order, behind another, and the first on its own |
| Collector.State.TraverseEphemeron | core/deps/lua/src/lgc.c:416-458 | one visit marks the values of marked keys and puts the table in the list that its unmarked entries ask for; if it marks nothing the table is settled |
| Collector.State.ConvergeEphemerons | core/deps/lua/src/lgc.c:632-649 | ends, with every ephemeron table settled, whatever the direction and order of the visits |
| Collector.State.ClearWeakTables | core/deps/lua/src/lgc.c:664-701 | after the clear passes nothing marked refers to anything unmarked, and nothing was removed but references to unmarked objects and values under unmarked keys |
| Collector.State.AtomicStep | core/deps/lua/src/lgc.c:1416-1456 | what is kept is the least set that holds the roots and what was marked and is closed under strong references and "key kept implies value kept"; everything else, strings apart, is doomed |
| Collector.State.SweepStep | core/deps/lua/src/lgc.c:755-776 | frees only dead objects, changes no other, and when the sweep ends exactly the doomed ones are gone |
| Collector.State.Barrier | core/deps/lua/src/lgc.c:193-207 | after a store the invariant holds again: the value is marked, or in the sweep the object is made white |
| Collector.State.BarrierBack | core/deps/lua/src/lgc.c:214-222 | the same by putting the object back in a gray list |
| Collector.State.SetSlot | core/deps/lua/src/lgc.c:193-222 | a store in an upvalue, array or another thread's stack with its barrier keeps the invariant, and nothing live dies |
| Collector.State.NewKey | core/deps/lua/src/lgc.c:214-222 | a new key and value with their barriers keep the invariant, also in place of a dead key |
| Collector.State.SetMeta | core/deps/lua/src/lapi.c:906-912 | a new metatable with its barrier keeps the invariant exactly if the collector will see it |
| Collector.State.NewObject | core/deps/lua/src/lgc.c:240-248 | an object made in any phase is alive for the rest of the cycle |
| Collector.State.SingleStep | core/deps/lua/src/lgc.c:1476-1524 | every phase's step does the work of its phase and comes nearer to the end of the cycle, and between two cycles it begins the next; it keeps the invariant; what is live after it is a set that held the roots before and was closed under strong references, all of it is still there, and only objects outside it, and references to them, have gone |
| Collector.State.LeftBounded | core/deps/lua/src/lgc.c:1531-1535 | from any state, with n objects, at most n² + 3n + 6 steps come to the end of the cycle |
| Collector.State.NothingReachableFreed | core/deps/lua/src/lgc.c:1476-1524 | under the invariant, what can be reached is there and is not dead |
| Collector.State.FullCycle | core/deps/lua/src/lgc.c:1585-1612 | a cycle of single steps keeps, strings apart, exactly the least closed set; what is kept loses only references to what is not |
| CollectorRuns.SafeExactly | core/deps/lua/src/lapi.c:906-909 | something that can be reached is dead or gone exactly when some table within reach has lost its metatable |
| CollectorRuns.UsedStays | core/deps/lua/src/lgc.c:1476-1524 | whatever is in every closed set that holds the roots is there after a step of the collector, and if nothing of it is weak it has not changed |
| CollectorRuns.PathLasts | core/deps/lua/src/lgc.c:1476-1524 | over any number of steps of the collector, what the program reaches by strong references it goes on reaching by the same ones, and the objects on the way that are not weak do not change |
| CollectorRuns.ComesToPause | core/deps/lua/src/lgc.c:1531-1535 | in any run, from any moment on, a bounded number of steps of the collector with none of the program between comes to the end of the cycle |
| CollectorRuns.Machine.Cycle | core/deps/lua/src/lgc.c:1476-1535 | from the pause between two cycles, steps of the collector alone, at most n² + 3n + 7 of them, come to the next pause; strings apart, exactly what is outside the least closed set that holds the roots has been freed, and what is kept has lost only references to what is not |
| CollectorRuns.Machine.Run | core/deps/lua/src/lgc.c:1476-1524 | over every interleaving with the program, up to the first store of a metatable that escapes: each step of the program does to its heap, roots and dead keys what it says, each step of the collector leaves alone a closed set with the roots and everything that can be reached afterwards, and what can be reached is there |
| CollectorRuns.Machine.RunOn | core/deps/lua/src/lgc.c:1476-1524 | the same for any run, up to the use of a lost object, with a set that is closed but for the metatables not seen; and the run is safe exactly as long as no table within reach has lost its metatable |
| CollectorRuns.Machine.FinishCycle | core/deps/lua/src/lgc.c:1439-1451 | after the rest of the cycle a metatable that escaped is lost exactly if it is not in the least closed set |
| CollectorRuns.Machine.LosesMetatable | core/deps/lua/src/lapi.c:906-909 | a run at whose end a reachable object has been freed |
| Punycode.IntegerRoundTrip | core/deps/libuv/src/idna.c:192-218 | the digits written for a number are read back as that number, for every bias and whatever follows |
| Punycode.DeltaResumes | core/deps/libuv/src/idna.c:166-243 | one more delta makes the decoder insert one more code point at its place |
| Punycode.EncodeLabel | core/deps/libuv/src/idna.c:102-246 | unless it reports an overflow, what it writes is the beginning of something that decodes to exactly the label; labels up to 3854 code points never overflow |
| PunycodeSamples.OneLetter | core/deps/libuv/src/idna.c:162 | the decoder reads `tda` as the code point 0xFC, so the initial bias is 72 |
| PunycodeSamples.Chinese | core/deps/libuv/src/idna.c:220-236 | it reads sample (B) of section 7.1 of RFC 3492, over the first adaptation, with its damping by 700, and seven later ones |
| PunycodeSamples.Mixed | core/deps/libuv/src/idna.c:220-236 | it reads sample (Q), with basic code points, a first delta large enough for the loop that divides by 35, and digits of both kinds |
| PunycodeSamples.Prefixed | core/deps/libuv/src/idna.c:133-138 | the whole encoded form of the label is `xn--tda` |
| PunycodeSamples.Alphabet | core/deps/libuv/src/idna.c:104 | the digits are written as a to z and 0 to 9 |
| PunycodeSamples.DigitsRead | core/deps/libuv/src/idna.c:104 | the decoder reads those digits, and letters of the other case, and nothing else |
| Utf8.ScalarDecodes | core/deps/libuv/src/idna.c:24-97 | the UTF-8 form of every scalar value (section 3 of RFC 3629) decodes to that value |
| Utf8.Samples | core/deps/libuv/src/idna.c:24-97 | the characters of the examples in section 7 of RFC 3629 have the bytes given there |
| Idna.ToAscii | core/deps/libuv/src/idna.c:250-291 | from UTF-8 text to ASCII: each label between dots of any of the four kinds is encoded on its own, with a full stop for each dot and a zero at the end, as far as the buffer goes |
| Idna.EachDot | core/deps/libuv/src/idna.c:263-267 | a label ends exactly at the first of U+002E, U+3002, U+FF0E and U+FF61 |
| PointerHeap.Heap.Swap | core/deps/libuv/src/heap-inl.h:72-104 | a node and its child change places and all links around them agree with that |
| PointerHeap.PathTo | core/deps/libuv/src/heap-inl.h:122-124 | the bits computed from the number of nodes are the path to the next free place |
| PointerHeap.Heap.Insert | core/deps/libuv/src/heap-inl.h:106-148 | a complete, consistently linked tree in heap order, for any strict weak order, with exactly one node more |
| PointerHeap.Heap.Remove | core/deps/libuv/src/heap-inl.h:150-237 | the same with exactly the given node less, wherever it was |
| PointerHeap.Heap.MinIsLeast | core/deps/libuv/src/heap-inl.h:67-69 | no node is less than the root |
| Timers.Loop.TimerStart | core/deps/libuv/src/timer.c:71-99 | the timer is in the heap with its clamped deadline and a new number, every other stays, and active handles are counted |
| Timers.Loop.TimerAgain | core/deps/libuv/src/timer.c:115-125 | a repeating timer gets a new deadline; a closing one is only stopped |
| Timers.Loop.NextTimeout | core/deps/libuv/src/timer.c:138-156 | never waits past a deadline, for ever exactly if there is none, not at all only if a timer is due, and otherwise exactly to a deadline or as long as an `int` can say |
| Timers.Loop.RunTimers | core/deps/libuv/src/timer.c:159-176 | of the timers that are due exactly those fire that no callback called before their turn has stopped or moved, by deadline, and with the same deadline by start number, the smaller first; and none is left due |
| Timers.StartedFirst | core/deps/libuv/src/timer.c:46-57 | of two due timers with one deadline that no callback acts on, the one that was started first fires first |
| Timers.FirstStartedFiresFirst | core/deps/libuv/src/timer.c:71-99 | two timers started one after the other with the same timeout fire in that order |
| Timers.DeadlineWraps | core/deps/libuv/src/timer.c:83-85 | the deadline is the sum in 64 bits, or the largest time if that sum wrapped around |
| Timers.UntouchedFires | core/deps/libuv/src/timer.c:159-176 | a due timer that no callback acts on fires |
| Timers.Loop.Act | core/deps/libuv/src/timer.c:71-125 | what one call from a callback makes of the timer it is aimed at; every other timer stays as it is |
| Timers.Loop.Turns | core/deps/libuv/src/timer.c:159-176 | with callbacks that act on their own timer the loop is cut off, however late, exactly when some due timer is due again after its turn and after the one that follows; otherwise it ends with no timer having had more than two turns |
| Timers.RecursExactly | core/deps/libuv/src/timer.c:83-85 | which timers those are: at the end of time, one that repeats or is started again; at any time, one that is started again with a timeout of 0; never one that is stopped or closed |
| Timers.SpinsOnZero | core/deps/libuv/src/timer.c:83-85 | at time 100 a one-shot timer started again with a timeout of 0 is still due after any number of turns |
| Timers.SpinsAtTheEnd | core/deps/libuv/src/timer.c:83-85 | so is a repeating timer at the largest time |
| Upvalues.Thread.FindUpval | core/deps/lua/src/lfunc.c:88-100 | captures a variable once: the same upvalue for the same slot, the list strictly decreasing |
| Upvalues.Thread.Close | core/deps/lua/src/lfunc.c:223-242 | every variable at or above the level leaves the stack with its value |
| Upvalues.Thread.CorrectStack | core/deps/lua/src/ldo.c:164-178 | every pointer into the old block is the same pointer into the new one |
| Upvalues.Thread.ReallocStack | core/deps/lua/src/ldo.c:185-202 | the stack has another size, perhaps elsewhere, and all that it and its upvalues show is the same |
| Upvalues.Thread.GrowStack | core/deps/lua/src/ldo.c:209-232 | succeeds exactly within the limit; otherwise the stack has the size for errors |
| Upvalues.GrownRoom | core/deps/lua/src/ldo.c:209-232 | there is room for what was asked for and five slots more, in a stack that has doubled or has just that room, or a million slots |
| Upvalues.Thread.ShrinkStack | core/deps/lua/src/ldo.c:235-259 | the stack gets the size that goes with the part in use, unless an overflow is being handled, and all that is left of it and its upvalues show the same |
| Upvalues.ShrunkRoom | core/deps/lua/src/ldo.c:246-258 | a stack never grows by it; one that shrinks keeps what is in use, an eighth of that and ten slots, up to a million slots |
| Upvalues.Run | core/deps/lua/src/lfunc.c:65-100 | any run of writes, captures, reads through upvalues, moves of the stack that grow or shrink it, and closes shows what one cell per captured variable shows |
| CrcTables.TableEntries | modules/modbus/src/modbus-rtu.c:30-87 | all entries of both tables are eight steps of the reflected register |
| Crc.Crc16 | modules/modbus/src/modbus-rtu.c:163-177 | the loop over both tables computes, with its bytes swapped, the register that goes bit by bit, for every message |
| Crc.SendMsgPre | modules/modbus/src/modbus-rtu.c:186-193 | the message with its checksum is whole, and nothing else of the buffer changes |
| Crc.CheckIntegrity | modules/modbus/src/modbus-rtu.c:400-435 | a positive length exactly for a whole message to this device or to everyone, and 0 exactly for one to another |
| Crc.BurstRefused | modules/modbus/src/modbus-rtu.c:400-435 | of two messages that differ in a nonempty set of bits within sixteen consecutive ones at most one is accepted, at any length |
| Crc.OddRefused | modules/modbus/src/modbus-rtu.c:400-435 | the same for messages that differ in an odd number of bits anywhere |
| ModbusPdu.UnpackPack | modules/modbus/src/modbus-data.c:86-98 | bits packed by either side are unpacked by the other |
| ModbusPdu.DecodeRequest | modules/modbus/src/modbus.c:706-992 | the server reads from its buffer the request that the client wrote, whatever else is in the buffer |
| ModbusPdu.Performed | modules/modbus/src/modbus.c:706-992 | every request gets an answer that belongs to it; an exception, and a read, change no table |
| ModbusMeaning.Served | modules/modbus/src/modbus.c:706-992 | the answer and the new tables are what the request means, and nothing else means it: each value read is the one at its address; the values written are at their addresses and all others are as before; a single bit becomes 1 exactly for 0xFF00; exception 3 comes exactly for numbers out of range, a byte count that does not match and bit values other than 0xFF00 and 0, exception 2 for addresses outside the table, exception 1 for unknown functions |
| ModbusMeaning.MaskedBit | modules/modbus/src/modbus.c:935-940 | masking a register keeps each bit of it where the one mask has a 1 and takes that of the other mask elsewhere |
| ModbusMeaning.BitReadBack | modules/modbus/src/modbus.c:798-870 | a bit that is read after a request that wrote is the one written, and any other is as it was before |
| ModbusMeaning.WordReadBack | modules/modbus/src/modbus.c:823-944 | the same for registers, masked ones included |
| ModbusFrame.RequestWhole | modules/modbus/src/modbus.c:253-325 | every request that a client sends is as long as its function code and counts say |
| ModbusFrame.AnswerWhole | modules/modbus/src/modbus.c:253-325 | so is every answer and every exception |
| ModbusFrame.FrameFound | modules/modbus/src/modbus.c:253-325 | the end found is the end of the frame that was built, whatever follows, and never "too many data" |
| ModbusFrame.LengthForeseen | modules/modbus/src/modbus.c:130-164 | the length computed from the request is the length of the answer that comes, unless it is an exception |
| ModbusFrame.ReceiveMsg | modules/modbus/src/modbus.c:341-481 | the same bytes are consumed in whatever pieces they come |
| ModbusFrame.SendMsgPre | modules/modbus/src/modbus-tcp.c:155-164 | completes the frame, with the length for TCP or the checksum for RTU |
| ModbusSamples.ReadCoils | modules/modbus/src/modbus.c:1040-1060 | request and answer of the example in section 6.1 of the Modbus Application Protocol Specification V1.1b3, packed bits included |
| ModbusSamples.WriteCoils | modules/modbus/src/modbus.c:1292-1340 | those of section 6.11 |
| ModbusSamples.ReadAndWriteRegisters | modules/modbus/src/modbus.c:1448-1500 | those of section 6.17 |
| ModbusSamples.CheckValue | modules/modbus/src/modbus-rtu.c:163-177 | the register after the digits 1 to 9 is 0x4B37, the check value of CRC-16/MODBUS |
| ModbusSamples.SerialFrame | modules/modbus/src/modbus-rtu.c:186-193 | a request to read ten registers of device 1 goes out as 01 03 00 00 00 0A C5 CD |
| ModbusSamples.TcpFrame | modules/modbus/src/modbus-tcp.c:110-164 | a request over TCP with its transaction, protocol, length and device |
| ModbusFrame.Receive | modules/modbus/src/modbus.c:341-481 | the length of a message exactly if it is whole and for this device |
| ModbusServer.ResponseIoStatus | modules/modbus/src/modbus.c:643-667 | appends the bits of a slice, packed |
| ModbusServer.SetBitsFromBytes | modules/modbus/src/modbus-data.c:86-98 | writes exactly the bits addressed |
| ModbusServer.Server.Reply | modules/modbus/src/modbus.c:706-1002 | for any request received, does to the tables what the request means (`ModbusMeaning.Serves`) and returns the frame of the answer that belongs to it, or nothing for a broadcast |
| ModbusServer.Server.Serve | modules/modbus/src/modbus.c:706-1002 | the same from the client's frame in any pieces |
| ModbusClient.CheckConfirmation | modules/modbus/src/modbus.c:512-641 | an answer is accepted exactly if it is from there, to the function asked for, and as long and with as many values as it has to be; an exception is reported exactly if it is a known one to that function |
| ModbusClient.Confirmed | modules/modbus/src/modbus.c:512-641 | the genuine answer passes, with the number of its values, and a genuine exception is reported |
| ModbusClient.Client.CallReadBits | modules/modbus/src/modbus.c:1040-1139 | `dest` gets, place by place, the bit at each address asked for of the table that the function reads; or exception 2 is returned exactly if some address is not in the table, exception 3 exactly if no bit is asked for; nothing else changes |
| ModbusClient.Client.CallReadRegisters | modules/modbus/src/modbus.c:1142-1236 | the same for registers |
| ModbusClient.Client.CallWriteBit | modules/modbus/src/modbus.c:1240-1278 | the bit at the address becomes 1 if it is switched on and 0 if not, and nothing else changes; or exception 2 is returned exactly if there is no such address, and nothing changes |
| ModbusClient.Client.CallWriteRegister | modules/modbus/src/modbus.c:1281-1289 | the same for a register and a value of 16 bits |
| ModbusClient.Client.CallWriteBits | modules/modbus/src/modbus.c:1292-1352 | the bits from the address on become those passed, and nothing else changes; or exception 2 or 3, and nothing changes |
| ModbusClient.Client.CallWriteRegisters | modules/modbus/src/modbus.c:1355-1408 | the registers from the address on become the words passed with their bytes swapped, 256 * (w % 256) + w / 256; or exception 2 or 3, and nothing changes |
| ModbusClient.Client.CallMaskWrite | modules/modbus/src/modbus.c:1410-1444 | each bit of the register at the address stays where the one mask has a 1 and is that of the other mask elsewhere, and nothing else changes; or exception 2, and nothing changes |
| ModbusClient.Client.CallWriteAndRead | modules/modbus/src/modbus.c:1448-1523 | the registers written become the words passed, and `dest` gets the registers read as they are after that; or exception 2 or 3, and nothing changes |
| ModbusClient.WrittenAsPassed | modules/modbus/src/modbus.c:1390-1393 | the registers hold the words passed exactly when each has two equal bytes |
| Inet.Parse4Exact | core/deps/libuv/src/inet.c:179-215 | the parser accepts exactly the texts that the printer prints, as the addresses they were printed for |
| Inet.Ntop4 | core/deps/libuv/src/inet.c:53-64 | prints the four octets if they fit |
| Inet.Pton4 | core/deps/libuv/src/inet.c:179-215 | the loop over characters is the parser |
| Inet6.RoundTrip6 | core/deps/libuv/src/inet.c:67-147 | the text printed for an address is read back as that address |
| Inet6.OneText6 | core/deps/libuv/src/inet.c:67-147 | an address has one text |
| Inet6.Parse6Text | core/deps/libuv/src/inet.c:218-302 | however the zeros of an address are compressed, and with an embedded IPv4 address, it is read back |
| Inet6.BestRun | core/deps/libuv/src/inet.c:88-111 | finds the leftmost longest run of at least two zero groups (sections 4.2.2 and 4.2.3 of RFC 5952) |
| Inet6Forms.PrintsDots | core/deps/libuv/src/inet.c:127-131 | the last two groups are printed as an IPv4 address exactly if the first five are zero and the sixth is ffff, or zero with a seventh that is not; the third case tested for never comes about |
| Inet6Forms.Documentation | core/deps/libuv/src/inet.c:113-147 | the text of an address of section 1 of RFC 5952 |
| Inet6.Ntop6 | core/deps/libuv/src/inet.c:67-147 | writes the text, cut if it does not fit, and reports that for every size but 0 |
| Inet6.Pton6 | core/deps/libuv/src/inet.c:218-302 | the loop over characters, and the shift that spreads the two halves, are the parser |
| Inet6.InetPton | core/deps/libuv/src/inet.c:150-176 | an address of either family is accepted exactly if its parser accepts it, for IPv6 without the zone after a percent sign |

## Left out

- LuaCode.FuncState.FixJump: does not model the check that an offset fits ("control structure too long"), so functions too long for a jump offset are not told apart; `LuaFinish.Finish` does model it for the last pass.
- LuaCode.FuncState.Compile: arithmetic, indexing, calls, concatenation and constant folding are not part of the expressions; floats, side effects of metamethods, and the instruction for more than 2^17 constants are not modelled; the order operations and `__eq` are arbitrary functions of the values; descriptors are values instead of records changed in place; constants are found by a search instead of a table.
- LuaFinish.ReturnDone: asks that the instruction was emitted with C = 0, as the code generator emits it, and that a vararg function got at least its fixed parameters, which the call fills up.
- LuaLines.WriteLines: asks that every removal be followed by an emission, as the code generator does it.
- ThreadPool.StepKeeps: threads are not created or joined, signals are what a condition variable promises, spurious wake-ups included, and cancelling a request that was already delivered is a caller's error.
- ThreadPoolProgress.EverythingDelivered: says nothing of runs in which requests keep coming, nor of what follows the exit message, behind which requests stay queued; work functions return.
- Queue.Move: the thread pool model has sequences where the code has these lists; the lists are proved to behave like sequences on their own.
- Collector.State.FullCycle: finalizers, generational mode, open upvalues, fixed objects and the pacing of the steps are not modelled; strings are leaves that may be kept longer; identities are never used again; the mode of a table is set together with its metatable.
- CollectorRuns.Machine.RunOn: a run is followed up to the next cycle, or the next load, that would use a metatable already freed.
- Punycode.EncodeLabel: reads past the end of the buffer and malformed UTF-8 are not modelled.
- Utf8.ScalarDecodes: says nothing about ill-formed text; the decoder's test of continuation bytes does not reject all of it.
- Timers.Loop.RunTimers: callbacks start timers with a timeout of at least 1, and time is not at its end; for other timeouts, and at the end, see `Timers.Loop.Turns`.
- Timers.Loop.Turns: does not model callbacks that act on the timers of others.
- Upvalues.Run: the active calls stay the same; a stack is not shrunk while a captured variable lies beyond the part in use, which the calls of the interpreter rule out; `__close`, to-be-closed variables, failing allocations and the list of threads with upvalues are not modelled.
- ModbusServer.Server.Reply: a write address of function 0x17 is not below the table; bits are 0 or 1; for TCP the protocol identifier of the request is 0; the answer to "report slave id" is that of version 3.1.4.
- ModbusClient.Client.Exchange: the line loses nothing and nothing else is on it; timeouts are "no answer"; recovery modes, raw requests and negative counts are not modelled, and `modbus_report_slave_id` is not among the calls.
- ModbusFrame.Receive: reports every failure as -1.
- Inet6.InetPton: the length of the zone is not limited.
- Sockets, serial ports, the database, the GPIO bindings, the web interface and the Lua wrappers are not part of this model.
