# A verified model of parts of Native Client

This project models seven independent cores of the Native Client repository in Dafny and proves what
they are relied on for. `dafny verify dfyconfig.toml` checks all of it.

| files | what they model |
|---|---|
| `PacketText`, `EscapedData`, `PacketFields`, `Packet` | the packet object of the debug stub (GDB remote serial protocol): reading with in-place run-length expansion, escaped data, hexadecimal fields |
| `Framing`, `Session`, `StopAndWait`, `SenderRuns` | the session: frames, checksums, acknowledgements, retransmission, two sessions over a channel that spoils characters, and the sender among them |
| `IntrLock`, `LockWakeups`, `LockCalls` | the interruptible mutex and its condition variable: exclusion, wake-ups, and what each call does and answers |
| `LibraryDeps` | the closure of library dependencies for a link line |
| `Defer`, `DeferRoot`, `DeferOrder`, `DeferWaits`, `DeferEnd` | the scheduler of deferred functions: its steps, its loop, its order, who waits for whom, and when it ends |
| `ElfSegments`, `ElfLoader`, `ElfHeaders` | the Non-SFI ELF loader: memory and one segment, the whole load, and what the headers must be |
| `SecureRandom` | uniform random numbers by rejection |
| `Registers`, `PortabilityBits` | the debugger's access to saved registers; bit counts and reversals |

`Util` holds characters, hexadecimal digits and option types, `Bits` what masks do to numbers.

## How the model is built

Code that changes state in place is a class or an array method (`Packet`, `Session`, `Visit`,
`DeferRoot`, `AddressSpace`, `SecureRng`, `Thread`), proved against a function of the old state; the
theorems are lemmas about those functions. Two parts are state machines over single steps, because
their point is interleaving: the lock, where every statement under the raw mutex is a step and any
number of threads interleave, and the two sessions with the channel between them. The scheduler is
both: a state machine with an arbitrary choice of ready groups, in place of a dictionary's order, and
a class whose every execution is one of its runs. What functions defer when they are called is given
by a program, a finite map from functions to calls of `Defer`, so functions may defer themselves and
each other; the safety theorems hold for any calls whatever.

Machine integers are explicit: 32-bit sums in the loader and the register layout wrap, packet numbers
wrap at 64 bits, checksums at 8, and a `char` is signed where C promotes it. Hosts are little-endian.

Assumptions, as preconditions: the loader is given program headers with offsets congruent to their
addresses modulo the page size, file data inside the file and no wrap of a segment's end, and a
place for the image that fits below 2^32, as the kernel would choose it; only owners unlock or wait,
and Reset is called only while no thread owns the lock or is inside a call; special registers have the
sizes that the code's CHECKs ask for.

## What turned out not to hold

For each of these there is a proof that it happens, and of the exact condition under which the code
does what is expected.

- Escaped data does not survive if it has four equal special characters in a row: the run repeats the
  second character of the escape (`EscapedData.EscapedDataRoundTrip`).
- Two sessions can deliver a payload twice although sequence numbers are off. `Packet::Clear` keeps
  the sequence number, and ProcessCommands in `target.cc` receives into one packet object; a payload
  that is, or that one spoiled character makes, `hh:...` leaves a number behind, later answers are
  three characters long, and the sender takes the rest of one for a refusal
  (`StopAndWait.ExactIffUnambiguous`).
- Intr broadcasts only when it finds the lock held. If it finds it free while a woken waiter has not
  run yet, the other sleepers are never woken (`LockWakeups.IntrStrandsIff`).
- A condition wait can report success without the lock (`LockWakeups.WaitOwnsIff`).
- The documentation of AddLibDeps says that duplicates are removed; an argument needed by a later one
  appears twice (`LibraryDeps.NoDuplicatesIff`).
- A function with an empty name defers without linking (`Defer.FollowsIff`), so a group can start
  before what the group it waits for has deferred. For each pending function and pending group,
  `DeferWaits.NeverOvertakenIff` says when that cannot happen.
- ExecuteDefer need not end: a comment at `defer.py` line 140 provides for functions that add to their
  own group, and one that does so each time runs for ever (`DeferEnd.SelfDeferringNeverEnds`). It
  always ends, whatever waits for what, exactly if no function comes, through the functions it defers,
  to defer itself (`DeferEnd.EndsWhateverWaitsIff`). For one given choice of what waits for what that is
  sufficient, and necessary too if nothing waits (`DeferEnd.EndsUnlessRecurring`, `DeferEnd.EndsIff`); a function
  that defers itself after itself ends in the cycle error instead (`DeferEnd.SelfWaitingEnds`).
- The ELF loader reserves the span up to the end of the last segment, and can map a segment behind it
  before it finds that the segments are not in ascending order (`ElfLoader.UnsortedOverruns`, a run of
  the loader). It stays inside exactly if every segment it comes to map ends inside, which the headers
  and the mappings the kernel grants decide (`ElfLoader.InsideIff`); ascending order is enough
  (`ElfLoader.SortedStaysInSpan`).

A comment in SetRegisters (`thread_common.cc`, line 110) allows an ARM status register whose low 28
bits are unchanged; the code asks for zeros, and the model follows the code.

## Model

| member | source | states |
|---|---|---|
| Util.NibbleIsPosition | native_client/src/trusted/debug_stub/util.cc:21-42 | a character stands for its position among `0` to `9`, `a` to `f` or `A` to `F`, and any other for nothing |
| Util.NibbleIsWritten | native_client/src/trusted/debug_stub/util.cc:44-58 | a number below 16 is written as the lower-case digit at its position, any other not at all |
| PacketText.RunMeans | native_client/src/trusted/debug_stub/packet.cc:257-306 | behind a character, `*` and a character n from 31 to 127 stand for n - 29 more of it; any other n ends the text, those from 128 on included, since `char` is signed |
| EscapedData.SpecialsAreEscaped | native_client/src/trusted/debug_stub/packet.cc:105-113 | `}`, `#`, `$` and `*` go as 7d 5d, 7d 03, 7d 04 and 7d 0a, and every other character as it is |
| EscapedData.RunIsWritten | native_client/src/trusted/debug_stub/packet.cc:115-138 | of n more copies of a character, fewer than 3 are left to themselves, 3 to 97 become `*` and the character n + 29, of 6 and 7 only 5 do, and of more the first 97 |
| Bits.BitsOf | native_client/src/trusted/debug_stub/packet.cc:110 | every bit of `&`, of the inclusive or and of `^` is that of the operands' bits |
| Bits.BitIsQuotient | native_client/src/trusted/debug_stub/packet.cc:110 | the k-th bit is the parity of the quotient by 2^k |
| Util.SignedIsTwosComplement | native_client/src/trusted/debug_stub/packet.cc:247-306 | a byte promoted from `char` is the number from -128 to 127 that has its low eight bits |
| PacketFields.PairIsRead | native_client/src/trusted/debug_stub/packet.cc:311-335 | two characters that are digits of either case give their value, the first the high one; otherwise the read fails, and both are consumed in any case |
| PacketFields.WordIsWritten | native_client/src/trusted/debug_stub/packet.cc:72-92 | a word goes lowest byte first, and each byte as two lower-case digits, high one first |
| PacketText.ReadRawShrinks | native_client/src/trusted/debug_stub/packet.cc:247-309 | a successful read of anything but `*` lowers (unread `*` characters, unread length) lexicographically, so read loops end although expansion makes the buffer longer |
| PacketText.ReadRawTakesHead | native_client/src/trusted/debug_stub/packet.cc:247-309 | a read succeeds exactly when the expansion of what is unread is not empty, takes its first character, and changes nothing else about what can be read; a failing read leaves the text alone |
| PacketText.DrainIsExpansion | native_client/src/trusted/debug_stub/packet.cc:247-309 | reading a packet to its end yields the run-length expansion of its text, and reaches the end exactly when every run is well formed |
| PacketText.RewindRereads | native_client/src/trusted/debug_stub/packet.cc:42-48 | after reading to the end and rewinding, the same characters can be read again, expanded in place or not |
| EscapedData.EscapedIsFramingFree | native_client/src/trusted/debug_stub/packet.cc:103-140 | the encoder never emits `#` or `$`, the clipped run lengths included |
| EscapedData.ExpandEscaped | native_client/src/trusted/debug_stub/packet.cc:112-138 | the encoder's output is always well formed, and expands to the escaped data with each run written out as copies of its last character |
| EscapedData.EscapedDataRoundTrip | native_client/src/trusted/debug_stub/packet.cc:103-140 | data written with AddEscapedData, read with GetRawChar to the end and unescaped is the data again if and only if it has no four equal characters from `}`, `#`, `$`, `*` in a row |
| PacketFields.LeBytesReadBack | native_client/src/trusted/debug_stub/packet.cc:82-92 | the bytes of a word that fits its width denote the word again |
| PacketFields.NumberReadsBack | native_client/src/trusted/debug_stub/packet.cc:151-245 | any 64-bit number, 0 and the `-1` form included, is read back with its separator and nothing behind it |
| PacketFields.HexStringReadsBack | native_client/src/trusted/debug_stub/packet.cc:379-405 | a hexadecimal string followed by a separator is read back, and its separator is next |
| PacketFields.FieldsReadBack | native_client/src/trusted/debug_stub/packet.cc:62-92 | any list of words, numbers and NUL-free strings with suitable separators, written after any text, is read back unchanged by the matching readers, which then stand at the end of the packet |
| PacketFields.SequenceFoundIff | native_client/src/trusted/debug_stub/packet.cc:445-458 | a sequence number is found exactly when the text itself begins with two hexadecimal digits and a colon; no run can spell one |
| PacketFields.NoSequenceKeepsText | native_client/src/trusted/debug_stub/packet.cc:445-458 | looking for a sequence number that is not there changes nothing a reader can see, even if it expanded a run on the way |
| Packets.Packet.constructor | native_client/src/trusted/debug_stub/packet.cc:28-31 | a new packet is empty, NUL-terminated and has no sequence number |
| Packets.Packet.Clear | native_client/src/trusted/debug_stub/packet.cc:33-40 | empties the packet but keeps its sequence number |
| Packets.Packet.Rewind | native_client/src/trusted/debug_stub/packet.cc:42-44 | moves the read position to the start, and nothing else |
| Packets.Packet.EndOfPacket | native_client/src/trusted/debug_stub/packet.cc:46-48 | true exactly when nothing is left to read |
| Packets.Packet.AddRawChar | native_client/src/trusted/debug_stub/packet.cc:50-60 | appends one character and keeps the buffer NUL-terminated at the write position through growth |
| Packets.Packet.AddWord8 | native_client/src/trusted/debug_stub/packet.cc:62-70 | appends the two hexadecimal digits of a byte |
| Packets.Packet.AddBlock | native_client/src/trusted/debug_stub/packet.cc:72-80 | appends the digits of every byte in order |
| Packets.Packet.AddWord | native_client/src/trusted/debug_stub/packet.cc:82-92 | appends the text of a 2, 4 or 8 byte word as a little-endian host stores it |
| Packets.Packet.AddString | native_client/src/trusted/debug_stub/packet.cc:94-101 | appends the characters up to the first NUL |
| Packets.Packet.AddEscapedData | native_client/src/trusted/debug_stub/packet.cc:103-140 | appends the escaped and run-length encoded data, for any data |
| Packets.Packet.AddHexString | native_client/src/trusted/debug_stub/packet.cc:142-149 | appends the digits of the characters up to the first NUL |
| Packets.Packet.AddNumberSep | native_client/src/trusted/debug_stub/packet.cc:151-191 | appends a 64-bit number without leading zeros, or `-1`, and the separator if there is one |
| Packets.StoreNibbles | native_client/src/trusted/debug_stub/packet.cc:158-180 | the reversed nibble array of a number, its high zero stripped, is the number's digits backwards |
| Packets.Packet.ExpandRunInPlace | native_client/src/trusted/debug_stub/packet.cc:294-306 | resize, memmove and memset replace the run by its characters, shift the rest correctly and leave the buffer NUL-terminated |
| Packets.Packet.GetRawChar | native_client/src/trusted/debug_stub/packet.cc:247-309 | the in-place reader is the specified one: result, character, text and read position, error cases included |
| Packets.Packet.GetWord8 | native_client/src/trusted/debug_stub/packet.cc:311-335 | reads two digits, consuming both characters before they are judged |
| Packets.Packet.GetBlock | native_client/src/trusted/debug_stub/packet.cc:337-351 | reads byte by byte and stops at the first that fails |
| Packets.Packet.GetWord | native_client/src/trusted/debug_stub/packet.cc:353-366 | the words of 2, 4 and 8 bytes |
| Packets.Packet.GetNumberSep | native_client/src/trusted/debug_stub/packet.cc:193-245 | the `-1` form, the digit loop in 64-bit arithmetic, and the separator |
| Packets.Packet.GetHexString | native_client/src/trusted/debug_stub/packet.cc:379-405 | reads pairs up to a character that is no digit, which is put back; a half pair fails |
| Packets.Packet.ParseSequence | native_client/src/trusted/debug_stub/packet.cc:445-458 | takes a sequence number or puts the read position back |
| Framing.FrameIsWritten | native_client/src/trusted/debug_stub/session.cc:98-139 | a frame in full: `$`, the low eight bits of the sequence number as two digits and a colon if there is one, the payload, `#`, and the sum modulo 256 of all between as two digits |
| Framing.ChecksumIsRead | native_client/src/trusted/debug_stub/session.cc:180-195 | two digits of either case give the checksum; a second character that is none counts as the first again; a first that is none leaves it arbitrary |
| Framing.AnswerIsWritten | native_client/src/trusted/debug_stub/session.cc:200-213 | the answer to a good frame is `+`, followed by the two digits of the sequence number held, if there is one |
| Sessions.AnyFrameJudged | native_client/src/trusted/debug_stub/session.cc:146-221 | for any two characters behind `#`: without acknowledgements the frame is delivered whatever they are, and with them if and only if they give the sum of its text |
| Framing.OneChangeDetected | native_client/src/trusted/debug_stub/session.cc:164-189 | a payload with one character changed always has another checksum |
| Framing.GoodFrameDelivered | native_client/src/trusted/debug_stub/session.cc:146-214 | a frame with the right checksum is delivered, answered with `+` and the sequence number held, and nothing behind it is read |
| Framing.BadFrameRefused | native_client/src/trusted/debug_stub/session.cc:215-221 | a frame with a wrong checksum is answered with `-`, its text is forgotten and the receiver waits for another; a sequence number found in it stays |
| Framing.PlainPayloadArrives | native_client/src/trusted/debug_stub/session.cc:90-224 | a payload without framing characters or a leading sequence number arrives, as far as a reader can see, unchanged |
| Framing.SequencedPayloadArrives | native_client/src/trusted/debug_stub/session.cc:101-121 | with a sequence number the receiver gets its low eight bits and the payload is what remains unread |
| Framing.ResynchronizesAfterNoise | native_client/src/trusted/debug_stub/session.cc:150-177 | behind any noise without `#`, a truncated frame for instance, the next frame is received |
| Sessions.SendingTakesFirstPlus | native_client/src/trusted/debug_stub/session.cc:71-87 | a send succeeds exactly when a `+` arrives, costs one copy for each character up to it, and takes nothing behind it |
| Sessions.Session.GetChar | native_client/src/trusted/debug_stub/session.cc:61-68 | reads one character, or disconnects |
| Sessions.Session.SendPacketOnly | native_client/src/trusted/debug_stub/session.cc:90-143 | writes exactly the frame of the payload, numbered if sequences are on or the packet has a number |
| Sessions.WriteFrame | native_client/src/trusted/debug_stub/session.cc:105-139 | the stream holds the frame: `$`, sequence, payload, `#` and the two digits of the running checksum |
| Sessions.Session.SendPacket | native_client/src/trusted/debug_stub/session.cc:71-87 | the retry loop sends as many copies and takes as many answers as specified, for every stream of answers |
| Sessions.Session.GetPacket | native_client/src/trusted/debug_stub/session.cc:146-224 | the receive loop, its retries included, does to the packet, the connection and both streams what the receiver automaton does to any arriving stream |
| Sessions.Session.Answer | native_client/src/trusted/debug_stub/session.cc:197-221 | parses the sequence number before the checksum is judged, and answers `+`, `+` with the number, or `-` |
| SenderRuns.SenderIsSendPacket | native_client/src/trusted/debug_stub/session.cc:71-87 | in every run of the two sessions, the sender's characters, up to the copy it is about to write, are those that sending the payloads one after the other writes on the answers taken, and as many payloads are sent |
| SenderRuns.SendAll | native_client/src/trusted/debug_stub/session.cc:71-87 | calling SendPacket for one packet after the other writes exactly that, for every stream of answers |
| SenderRuns.TransmitsFrame | native_client/src/trusted/debug_stub/session.cc:90-143 | unless the channel spoils it, what a step puts on the wire is the frame that SendPacketOnly writes |
| StopAndWait.RiskyIffCarriedSequenced | native_client/src/trusted/debug_stub/packet.cc:445-458 | the channel can make a payload look sequenced exactly if it is at most one character away from `hh:` |
| StopAndWait.RunKeepsInvariant | native_client/src/trusted/debug_stub/session.cc:71-87 | in every run the receiver is at a definite point of the copy in flight, with no loss, duplicate or reordering, any number of retransmissions included |
| StopAndWait.CompletionStaysPossible | native_client/src/trusted/debug_stub/session.cc:146-224 | from every reachable state all payloads can still be delivered: no run gets stuck |
| StopAndWait.RiskyCanDuplicate | native_client/src/trusted/debug_stub/session.cc:197-214 | a payload other than the last that is one character away from `hh:` can leave its number in the receiver's packet; the longer answer is then taken for a refusal and a later payload accepted twice |
| StopAndWait.ExactIffUnambiguous | native_client/src/trusted/debug_stub/session.cc:71-224 | over all runs the accepted payloads are those sent, plus at most the one in flight, if and only if no payload but the last is within one character of beginning with a sequence number |
| IntrLock.StepKeepsInvariant | native_client/src/shared/platform/nacl_interruptible_mutex.c:35-124 | every step of Lock, TryLock, Unlock, Intr, Reset and the condition wait, with spurious wake-ups and any interleaving, keeps the invariant |
| IntrLock.ReachableIsExclusive | native_client/src/shared/platform/nacl_interruptible_mutex.c:35-124 | in every reachable state at most one thread owns the lock, none when it is free and one when held; a call that returned success owns it, an unlocker does not, and without Intr a finished wait owns it; waiting never finds the lock free |
| LockCalls.WholeTryLock | native_client/src/shared/platform/nacl_interruptible_mutex.c:53-74 | a TryLock succeeds and has the lock if and only if it finds it free, answers busy if and only if it is held and interrupted if and only if it is, and changes nothing else |
| LockCalls.WholeLock | native_client/src/shared/platform/nacl_interruptible_mutex.c:35-51 | a Lock that need not wait takes a free lock and reports an interrupted one, and changes nothing else |
| LockCalls.LockSleeps | native_client/src/shared/platform/nacl_interruptible_mutex.c:38-40 | a Lock, on entry or woken, goes to sleep if and only if it finds the lock held |
| LockCalls.LockAnswers | native_client/src/shared/platform/nacl_interruptible_mutex.c:41-51 | a Lock that is woken, or has just entered, and finds the lock not held takes it if it is free, and reports it interrupted otherwise |
| LockCalls.LockWaits | native_client/src/shared/platform/nacl_interruptible_mutex.c:38-40 | a Lock that finds the lock held sleeps, and has changed nothing else |
| LockCalls.WholeUnlock | native_client/src/shared/platform/nacl_interruptible_mutex.c:76-90 | an Unlock frees the lock, an interrupted one as well, wakes one sleeper if there is any, and answers whether the lock was held |
| LockCalls.WholeIntr | native_client/src/shared/platform/nacl_interruptible_mutex.c:92-102 | an Intr makes the lock interrupted, leaves it with whoever owns it, and wakes all sleepers if it has found it held, and none otherwise |
| LockCalls.WholeReset | native_client/src/shared/platform/nacl_interruptible_mutex.c:115-124 | a Reset frees an interrupted lock, and ends the program for any other |
| LockCalls.WholeWaitRefused | native_client/src/shared/platform/nacl_interruptible_condvar.c:33-47 | a wait on a lock that is not held is refused with the answer for a free or an interrupted one, and changes nothing |
| LockCalls.WaitBegins | native_client/src/shared/platform/nacl_interruptible_condvar.c:49-56 | any other wait frees the lock, gives it up, wakes one sleeper if there is any, and sleeps |
| LockCalls.WaitSleepsOn | native_client/src/shared/platform/nacl_interruptible_condvar.c:63-65 | a woken wait goes on sleeping if and only if the lock is held |
| LockCalls.WaitReturns | native_client/src/shared/platform/nacl_interruptible_condvar.c:63-72 | otherwise it returns what woke it, with the lock taken if that was free and without it if interrupted |
| IntrLock.StatementKeepsInvariant | native_client/src/shared/platform/nacl_interruptible_condvar.c:27-73 | the wait's release and retaking of the lock, statement by statement, keeps the invariant |
| LockWakeups.StepKeepsGood | native_client/src/shared/platform/nacl_interruptible_mutex.c:38-102 | every step keeps: as long as Intr has not been called, sleepers of a free lock have somebody woken or about to be; sleepers of a lock that the interrupting Intr found held have a broadcast coming, and one it did not find held has no owner |
| LockWakeups.NoLostWakeup | native_client/src/shared/platform/nacl_interruptible_mutex.c:76-90 | without Intr, while a thread sleeps on a free lock another is woken and has yet to test it, or is inside about to test or to signal |
| LockWakeups.WokenTakesTheLock | native_client/src/shared/platform/nacl_interruptible_mutex.c:38-44 | that woken thread has only to be scheduled to own the lock |
| LockWakeups.HeldIntrWakesAll | native_client/src/shared/platform/nacl_interruptible_mutex.c:92-102 | once an Intr that found the lock held has broadcast, nobody sleeps while the lock stays interrupted |
| LockWakeups.IntrStrandsIff | native_client/src/shared/platform/nacl_interruptible_mutex.c:92-102 | Intr leaves nobody asleep if and only if it finds the lock held or nobody asleep; whom it leaves asleep only a spurious wake-up of that thread can bring back, in any run |
| LockWakeups.IntrCanStrand | native_client/src/shared/platform/nacl_interruptible_mutex.c:98-100 | a run that gets there: a woken waiter has not run when Intr finds the lock free, and a second sleeper is stranded |
| LockWakeups.StrandedForever | native_client/src/shared/platform/nacl_interruptible_mutex.c:76-102 | with the lock interrupted and no owner, a sleeper stays asleep in every run without a spurious wake-up of it |
| LockWakeups.WaitOwnsIff | native_client/src/shared/platform/nacl_interruptible_condvar.c:63-73 | a condition wait returns as owner if and only if it finds the lock free at the end, else the lock is interrupted; the returned value is the same |
| LockWakeups.WaitCanLoseTheLock | native_client/src/shared/platform/nacl_interruptible_condvar.c:67-72 | a run in which a wait reports success to a thread that does not own the lock |
| LibraryDeps.Visit.VisitList | native_client/site_scons/site_tools/library_deps.py:198-201 | visits exactly the unvisited ones of a list and what they need, last first: each library collected is needed by a listed one, and what is listed behind that one has been collected before; terminates on cycles |
| LibraryDeps.Visit.VisitLibrary | native_client/site_scons/site_tools/library_deps.py:216-219 | collects a library after everything it newly needs, each of that once, and keeps the order and the visited set sound |
| LibraryDeps.AddLibDeps | native_client/site_scons/site_tools/library_deps.py:180-228 | for any finite relation, cyclic or not: the result holds exactly what the arguments reach, the arguments as a subsequence with duplicates, each dependency after every occurrence of its dependent unless they are on a cycle, each library as often as it is an argument, once more if a later argument needs it, and behind each argument what it newly needs, in the order of its dependencies as far as they do not need each other |
| LibraryDeps.AcyclicLineLinks | native_client/site_scons/site_tools/library_deps.py:195-197 | if the relation is acyclic, every occurrence of a library is followed by each of its dependencies |
| LibraryDeps.NoDuplicatesIff | native_client/site_scons/site_tools/library_deps.py:187-190 | the result is free of duplicates if and only if the arguments are and none of them is reachable from a later one |
| LibraryDeps.OneArgumentTwice | native_client/site_scons/site_tools/library_deps.py:187-190 | duplicates are not always removed: a library asked for once can come out twice |
| Defer.DeferPlaces | native_client/site_scons/site_tools/defer.py:237-286 | a call puts its function at the end of the group it names, or, if it names none or the empty name, of the one of the function's name; it adds the predecessors there, changes no other group's functions, and lets exactly those other groups wait for it that wait for the running one, if that has a name and is not the target |
| DeferOrder.StartsIff | native_client/site_scons/site_tools/defer.py:133-136 | between two groups, a group can be started if and only if it waits for no pending one |
| DeferOrder.FailsIff | native_client/site_scons/site_tools/defer.py:155-159 | between two groups, the cycle error is raised if and only if groups are left and each waits for a pending one |
| Defer.StepKeepsInvariant | native_client/site_scons/site_tools/defer.py:131-153 | in every step each group's functions are, in order, those called, those about to be and those pending: none lost, none called twice |
| Defer.StartsAfterItsPredecessors | native_client/site_scons/site_tools/defer.py:133-148 | when a group is started, every function ever deferred into the groups it waits for has been called, in the order of deferral |
| Defer.FinishesWithAllCalled | native_client/site_scons/site_tools/defer.py:131-153 | when ExecuteDefer ends without an error, every function deferred has been called exactly once |
| Defer.FollowsIff | native_client/site_scons/site_tools/defer.py:281-286 | when a running function defers into another group, a pending group that waits for the running one comes to wait for the target too, if and only if the running group's name is not empty or it did so before |
| Defer.KeepsWaitingForOffspring | native_client/site_scons/site_tools/defer.py:276-286 | a pending group waits, over any run until it is started, for everything the functions it waits for defer, transitively |
| Defer.StartsAfterOffspring | native_client/site_scons/site_tools/defer.py:276-286 | it is not started before all of that has been called |
| Defer.NamelessIsOvertaken | native_client/site_scons/site_tools/defer.py:281-286 | a run with a function whose name is empty, in which the group that waits for it starts before what it deferred has run |
| DeferWaits.NeverOvertakenIff | native_client/site_scons/site_tools/defer.py:131-153 | between two groups, no run starts a pending group before a pending function of another has been called, whatever the functions called in between defer, if and only if the other holds it back: some pending groups with it each wait for one of themselves, but for the other |
| DeferWaits.WaitingIsHeldBack | native_client/site_scons/site_tools/defer.py:281-286 | a group linked to another is held back by it, so linking does what it is for |
| DeferEnd.StepGetsCloser | native_client/site_scons/site_tools/defer.py:131-153 | if chains of deferrals are bounded, every step of ExecuteDefer leaves less to do, whatever is picked |
| DeferEnd.EndsUnlessRecurring | native_client/site_scons/site_tools/defer.py:131-159 | if no function to be called leads, by what functions defer, to one that leads to itself, every run of ExecuteDefer is shorter than a bound that depends on the start only |
| DeferEnd.EndsIff | native_client/site_scons/site_tools/defer.py:131-159 | where nothing waits for anything, the runs of ExecuteDefer are bounded if and only if no function to be called leads to one that leads to itself |
| DeferEnd.EndsWhateverWaitsIff | native_client/site_scons/site_tools/defer.py:131-159 | for every program and state: the runs are bounded for every choice of what groups and deferred functions wait for, if and only if no function to be called leads to one that leads to itself |
| DeferEnd.SelfDeferringNeverEnds | native_client/site_scons/site_tools/defer.py:139-148 | with one function that defers itself, for every n there is a run in which its group is started n times |
| DeferEnd.SelfWaitingEnds | native_client/site_scons/site_tools/defer.py:155-159 | a function that defers itself after itself ends ExecuteDefer with the cycle error, so recurring alone does not decide |
| DeferRoots.DeferRoot.Defer | native_client/site_scons/site_tools/defer.py:238-286 | the in-place update of the group dictionary and its sets is the specified one, for every order of the linking loop |
| DeferRoots.DeferRoot.LinkOthers | native_client/site_scons/site_tools/defer.py:282-286 | adds the target to exactly the sets it has to be added to |
| DeferRoots.DeferRoot.ExecuteDefer | native_client/site_scons/site_tools/defer.py:105-162 | for every program of functions and every choice of ready groups the loop is a run of the state machine; it is refused inside a running group, ends with no group left, reports a cycle with none ready, or has run as many groups as it was watched for, which no bound on the runs allows |
| DeferOrder.PicksDoNotMatter | native_client/site_scons/site_tools/defer.py:131-153 | when functions defer nothing, any two ways of picking leave the same groups and call the same functions, each once |
| DeferOrder.LeavesDeadlocked | native_client/site_scons/site_tools/defer.py:155-159 | the groups left are the largest set in which each waits for another of the set |
| DeferOrder.CallsInTopologicalOrder | native_client/site_scons/site_tools/defer.py:133-148 | no function is called before one of a group its own group waits for, and all functions of a started group are called once, in order |
| DeferOrder.EmptyBodiesDeferNothing | native_client/site_scons/site_tools/defer.py:131-153 | a program whose functions defer nothing has only such runs |
| DeferOrder.CycleErrorIff | native_client/site_scons/site_tools/defer.py:155-159 | groups are left, and the cycle error raised, if and only if the relation restricted to the initially pending groups has a cycle |
| ElfSegments.AddressSpace.MmapFile | native_client/src/nonsfi/loader/elf_loader.c:134-140 | a private file mapping: file bytes, zeros to the end of the file's last page, nothing behind it; fails for length 0 |
| ElfSegments.AddressSpace.MmapAnon | native_client/src/nonsfi/loader/elf_loader.c:173-180 | zeroed pages with the protection asked for |
| ElfSegments.AddressSpace.Memset | native_client/src/nonsfi/loader/elf_loader.c:171 | writes zeros, or faults if a byte is not there or not writable |
| ElfSegments.MapBss | native_client/src/nonsfi/loader/elf_loader.c:152-182 | the zeroed tail and the anonymous pages complete the segment; the memset never faults |
| ElfSegments.MapSegment | native_client/src/nonsfi/loader/elf_loader.c:126-182 | maps a segment exactly when its checks pass and the kernel agrees; it then shows its part of the file and zeros, with its protection, nothing outside its pages has changed, and only pages of it are mapped or zeroed; a segment whose file pages are not mapped has changed nothing |
| ElfLoader.MapSegments | native_client/src/nonsfi/loader/elf_loader.c:119-183 | the loop over the headers, in 32-bit arithmetic, succeeds exactly for ordered, well-formed segments within the grants, and leaves the image of all of them; whatever the headers, it maps and zeroes the ranges of exactly the segments that are attempted, which then have their protection |
| ElfLoader.FindLoads | native_client/src/nonsfi/loader/elf_loader.c:90-105 | finds the first and the last PT_LOAD header |
| ElfLoader.NaClLoadElfFile | native_client/src/nonsfi/loader/elf_loader.c:70-194 | loads exactly the loadable files, returns the biased entry address, leaves the image of the segments in the reserved span and everything else unchanged, and never faults; for any headers, and however the load ends, nothing but the span and the ranges of the attempted segments is touched, and nothing outside the span is touched if and only if every attempted segment ends inside it |
| ElfLoader.LoadedSegments | native_client/src/nonsfi/loader/elf_loader.c:119-183 | every segment's bytes are the file's, the bytes from there to the page-rounded end are zero if it has more memory than file data, the rest of its pages is what surrounds it in the file, and its pages can be read, written and executed exactly by the bits 4, 2 and 1 of its flags: no later segment has disturbed it |
| ElfLoader.LoadedGaps | native_client/src/nonsfi/loader/elf_loader.c:112-117 | pages of the span in no segment can be neither read nor written nor executed |
| ElfLoader.LoadedEntry | native_client/src/nonsfi/loader/elf_loader.c:142-146 | the returned address is that of a byte of the file in an executable page of a PT_LOAD segment |
| ElfSegments.SegmentShowsFile | native_client/src/nonsfi/loader/elf_loader.c:134-171 | with congruent offsets, the page-rounded mapping puts each file byte at its address |
| ElfHeaders.LoadableIff | native_client/src/nonsfi/loader/elf_loader.c:84-190 | what the headers decide, one by one and in numbers: at most 128 of them, the first loadable one at address 0, each with pages, no more file data than memory and zeros only if writable, all in order on separate 4096-byte pages, and the entry point in the file data of an executable one |
| ElfSegments.FlagBits | native_client/src/nonsfi/loader/elf_loader.c:36-40 | readable, writable and executable are the bits 4, 2 and 1 of a header's flags, each by itself |
| ElfSegments.RoundsToPages | native_client/src/nonsfi/loader/elf_loader.c:24-34 | rounding gives the nearest multiples of 4096 on either side, up in 32 bits |
| ElfSegments.FileShows | native_client/src/nonsfi/loader/elf_loader.c:134-140 | a file mapping shows the file's bytes from its offset on, zeros to the end of the file's last page and nothing behind |
| ElfLoader.InsideIff | native_client/src/nonsfi/loader/elf_loader.c:110-183 | the addresses a load has mapped or zeroed are inside the reserved span if and only if each segment ends inside it that is attempted: it starts behind all before it, has pages, and those before it pass their checks and are mapped |
| ElfLoader.SortedStaysInSpan | native_client/src/nonsfi/loader/elf_loader.c:121-131 | segments in ascending order meet that condition, whether or not they pass the other checks |
| ElfLoader.UnsortedOverruns | native_client/src/nonsfi/loader/elf_loader.c:110-131 | a run of the loader, on three well-formed but unordered segments, that is turned down after it has mapped a page that was not mapped before, behind the reserved span |
| SecureRandom.AndPredecessor | native_client/src/shared/platform/nacl_secure_random_common.c:43-46 | for positive r, `r & (r - 1)` is zero if and only if r is a power of two |
| Bits.AndLowBits | native_client/src/shared/platform/nacl_secure_random_common.c:43-48 | masking with 2^k - 1 is the remainder by 2^k |
| SecureRandom.WordFromBytes | native_client/src/shared/platform/nacl_secure_random_common.c:14-25 | every word comes from exactly one choice of four bytes |
| SecureRandom.SecureRng.GenUint32 | native_client/src/shared/platform/nacl_secure_random_common.c:14-25 | shifts and ors four bytes into a word, the first the highest, without loss |
| SecureRandom.SecureRng.GenBytes | native_client/src/shared/platform/nacl_secure_random_common.c:27-35 | the next bytes of the generator, in order |
| SecureRandom.SecureRng.Uniform | native_client/src/shared/platform/nacl_secure_random_common.c:37-108 | returns what the first acceptable word gives and takes no word behind it; if the bytes hold none, it draws words to their end |
| SecureRandom.BiasIsSmall | native_client/src/shared/platform/nacl_secure_random_common.c:58-81 | unless the range is a power of two, the bias is at least 1 and smaller than the range, the accepted words are a multiple of the range, and they are more than half of all words |
| SecureRandom.UniformOnWords | native_client/src/shared/platform/nacl_secure_random_common.c:83-106 | each number below the range comes from exactly 2^32 / r words if r is a power of two, else from exactly (2^32 - 1) / r accepted ones, and exactly the bias is rejected |
| SecureRandom.RunsAreSamples | native_client/src/shared/platform/nacl_secure_random_common.c:84-107 | the counted strings of n words are exactly those with which the loop returns k after n draws |
| SecureRandom.UniformOnRuns | native_client/src/shared/platform/nacl_secure_random_common.c:84-107 | for every n, as many strings of n words end the loop with one number below the range as with any other |
| Registers.Register | native_client/src/trusted/debug_stub/abi.cc:323-348 | gives each register the sum of the sizes before it as offset, in 32 bits, and its index, and changes nothing else |
| Registers.AllowedByMasks | native_client/src/trusted/debug_stub/thread_common.cc:87-117 | the masks, comparisons and zero checks of the code are what each kind of register allows, on all values |
| Registers.Disjoint | native_client/src/trusted/debug_stub/abi.cc:330-334 | the registers laid out do not overlap and end inside the context |
| Registers.Thread.GetRegisters | native_client/src/trusted/debug_stub/thread_common.cc:59-81 | writes what may be shown of each register at its offset and nothing else of the buffer |
| Registers.Thread.Validate | native_client/src/trusted/debug_stub/thread_common.cc:87-122 | accepts exactly if every register's check passes |
| Registers.Thread.ValidateRegister | native_client/src/trusted/debug_stub/thread_common.cc:87-118 | the masks and byte loops for one register accept exactly what its kind allows |
| Bits.AndHighBits | native_client/src/trusted/debug_stub/thread_common.cc:66-74 | masking with the ones from bit k on clears the bits below and nothing else |
| Registers.Thread.UpdateRegister | native_client/src/trusted/debug_stub/thread_common.cc:124-155 | puts one register in place, with the bytes or bits it must keep |
| Registers.Thread.SetRegisters | native_client/src/trusted/debug_stub/thread_common.cc:83-157 | is accepted exactly if all checks pass; the context is then updated register by register, else unchanged |
| Registers.Thread.MaskSPRegister | native_client/src/trusted/debug_stub/thread_common.cc:159-166 | clears the top two bits of the stack pointer and nothing else |
| Registers.SetSlice | native_client/src/trusted/debug_stub/thread_common.cc:83-157 | each register after a call is its own update, or as before if any register's check failed; what is behind the registers is unchanged |
| Registers.ProtectedNeverChanges | native_client/src/trusted/debug_stub/thread_common.cc:124-155 | over any sequence of calls with any bytes, read-only registers, the upper half of x86-64 trusted pointers, the low 28 bits of an ARM status register and what is behind the registers never change |
| Registers.ReadBackAccepted | native_client/src/trusted/debug_stub/thread_common.cc:59-157 | what was read is accepted back if and only if the ARM trusted pointers have their top two bits clear, and the context is as before in any case |
| Registers.SetReadsBack | native_client/src/trusted/debug_stub/thread_common.cc:59-157 | what was set with success is read back, except that hidden registers read as zero and trusted pointers keep their old upper half |
| Registers.MaskedStackPointerAccepted | native_client/src/trusted/debug_stub/thread_common.cc:159-166 | with the stack pointer masked, in a table where it is the only trusted pointer, what was read is always accepted back |
| Registers.HiddenDoesNotShow | native_client/src/trusted/debug_stub/thread_common.cc:59-81 | contexts that differ only in read-only-zero registers and low status bits look the same to the debugger |
| PortabilityBits.ReverseMovesBits | native_client/src/include/portability_bits.h:61-69 | bit i goes to bit 31 - i |
| PortabilityBits.ReverseTwice | native_client/src/include/portability_bits.h:61-69 | reversing twice is the identity |
| PortabilityBits.TrailingIsLowest | native_client/src/include/portability_bits.h:71-82 | the result is k if and only if bit k is the lowest set, and -1 exactly for 0 |
| PortabilityBits.LeadingIsHighest | native_client/src/include/portability_bits.h:84-100 | the result is 31 - k if and only if bit k is the highest set, and -1 exactly for 0 |
| PortabilityBits.LeadingIsTrailingReversed | native_client/src/include/portability_bits.h:61-100 | counting leading zeros is counting trailing zeros of the reversed word, for every word |
| PortabilityBits.PopCountIsOnes | native_client/src/include/portability_bits.h:50-59 | the parallel count of 64 bits is the number of set bits |

## Left out

- GetString, GetStringSep, StringSplit and NibblesToByte: easy members beside the readers that are modelled.
- Logging, debug flags and data-available polling: no effect on the protocol.
- An unset checksum nibble in GetPacket is one arbitrary byte per call, where the program reads an uninitialised variable; the theorems hold for every such byte.
- A transport whose writes fail does so from the start; partial writes are inside the transport, whose code is not part of this model.
- PacketFields.FieldsReadBack: a number without separator is allowed only as the last field, because the reader would otherwise take a following digit for its own.
- StopAndWait.ExactIffUnambiguous: acknowledgements arrive intact and in order, one character per frame may change into another that does not frame, and nothing is lost, as in the protocol's own assumptions about the transport.
- Constructors and destructors of the lock, and failures of the raw mutex and condition variable, which end the program: the raw primitives are assumed to behave as usual, with spurious wake-ups.
- IntrLock.ReachableIsExclusive: the caller's condition variable is seen from the waiting threads only, so Signal, Broadcast and NaClIntrCondVarIntr are any wake-up at any time.
- The concrete dependency tables and the platform, SGX and trusted switches of library_deps.py: any finite relation stands for them.
- Working directories, environments and PrintDefer of defer.py, calls from a child environment, which are ignored, and functions that raise, which would only stop a run early. A call with an `after` that is neither a string nor a function, which raises before anything is changed, is left out too.
- DeferRoots.DeferRoot.ExecuteDefer: what a function does is the calls of `Defer` it makes; one that calls ExecuteDefer itself, which the re-entrancy check refuses unless its group's name is empty, is not modelled. A program is finite and gives a function the same calls each time; functions that depend on more are in the state machine, whose Invoke takes any calls.
- Reading and checking the ELF header, and reads that come short: the model starts from parsed program headers and a file as a sequence of bytes.
- SecureRandom.SecureRng.Uniform: the generator's bytes are a finite sequence of any length; where the program would wait for more, the method returns None.
- Registers.Register: the name map and the getters of the ABI object, the breakpoint definitions and the target descriptions.
- SetStep and the copies between the thread and the application: foreign calls and one flag.
- PopCount on 8 and 16 bits: a table of sixteen entries, easy beside the 64-bit count.
