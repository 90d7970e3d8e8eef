# Verified models of LiteSpeed module code

This project models the parts of the LSIAPI headers and example modules whose bodies can be
read, and proves what they are for. `dafny verify dfyconfig.toml` checks all of it.

* `FutexMutex`, `SafeFutex`: the three-state futex mutex and the crash-tolerant lock of
  `ls_lock.h`, as step systems over any number of threads and processes. One step is one
  compare-and-swap, exchange, wait or wake; the kernel may wake a sleeper at any time.
* `TsStack`: the thread-safe intrusive stack over the spin lock, with every access to the
  lock, to `phead` and to a node's `next` as a step of its own. `Atomic` is the reference: a
  sequence on which each push or pop happens at once.
* `SessionRegistry`: the session list of `mtpostmt.c` under its test-and-set lock.
* `AltReadWrite`, `TcpOutChain`, `DoublingFilter`, `BlockTransfer`: programs that move a byte
  stream through buffers while reads, writes and appends are cut short at will (`ServerApi`
  holds the two server calls).
* `DLinkQueue`, `LoopBuf`: the sentinel-based doubly linked queue and the ring buffer, as
  classes on the heap that refine a sequence.
* `BoundedStrings`, `QueryParsers`: bounded string copies, and two query parsers with their
  printers.

`LinkedHeap`, `Sequences`, `Bytes` and `Decimals` hold what several of these share.

Four places where the code does not do what its surroundings suggest, each with the exact
condition and a concrete case:

* `mtaltreadwrite.c` allocates only one chunk when the read and write sizes are equal. Over
  transfers that always move something the copying loop ends exactly unless the sizes are equal
  and some round moved a part of a chunk while body was left to read; from then on nothing moves
  (`AltReadWrite.LoopEndsIff`, `AltReadWrite.ShortReadHangs`).
* `waitfullreqbody.c` limits a block to half of the whole output buffer, not of the space left.
  The loop ends within the buffer exactly when the buffer size is even or the data fits in half
  of it (`DoublingFilter.StaysWithinIff`, `DoublingFilter.OddSizeOverruns`).
* `imgresize.c` announces -1 for garbage queries (line 128), but a query of one byte and one
  stray byte behind a last `&` are accepted (`QueryParsers.AcceptedIff`,
  `QueryParsers.StrayByteIsAccepted`).
* The crash-tolerant lock of `ls_lock.h` loses a wakeup exactly when a process dies that alone
  is in charge of a sleeper of another process - of its live threads, and no others, one is about
  to wake or contends - while the waiter bit is not set (`SafeFutex.NoWakeupLostIff`,
  `SafeFutex.DeathCanLoseWakeup`). The one-second timeout of the wait is what recovers, and when
  it can is stated exactly (`SafeFutex.RecoveryIff`).

## Model

| member | source | states |
|---|---|---|
| FutexMutex.MutexSafety | include/lsr/ls_lock.h:259-294 | in every reachable state of any number of threads the word is 0, 1 or 2, it is non-zero exactly when a thread holds the lock, no two threads hold it, and the assert of unlock has not failed |
| FutexMutex.NoStrandedSleeper | include/lsr/ls_lock.h:259-294 | no reachable state has a sleeper while every other thread is idle: some thread holds the lock, is about to wake, or contends in the slow path |
| FutexMutex.SleeperCanAcquire | include/lsr/ls_lock.h:259-294 | from every reachable state every sleeper can get the lock within eight steps of threads already inside lock or unlock, with no new call and no spurious wakeup |
| FutexMutex.HolderServes | include/lsr/ls_lock.h:424-430 | when the word is 2 the holder's unlock can hand the lock to any sleeper within four steps |
| FutexMutex.WakerServes | include/lsr/ls_lock.h:424-430 | an unlocker that has swapped out a 2 can let any sleeper in within four steps |
| FutexMutex.ContenderServes | include/lsr/ls_lock.h:280-289 | an awake slow-path thread, running alone, marks the word and so gets any sleeper served |
| FutexMutex.StepRefinesAtomicLock | include/lsr/ls_lock.h:259-294 | each instruction is invisible, or one acquire of a free lock, or one release by its holder, always by the acting thread; acquiring is only from free, and a failed trylock met another holder |
| FutexMutex.StepKeepsNoLostWakeup | include/lsr/ls_lock.h:275-290 | every step keeps: a sleeper implies word 2, a wake on its way, or an awake contender |
| FutexMutex.RunKeepsInv | include/lsr/ls_lock.h:259-294 | exclusion, honest locals and no lost wakeup hold through every run |
| FutexMutex.StepKeepsExclusive | include/lsr/ls_lock.h:404-412 | every step of lock, trylock and unlock keeps mutual exclusion and the meaning of the word |
| FutexMutex.LockTakesFree | include/lsr/ls_lock.h:259-278 | on a free mutex lock and trylock hold it at once, the word becoming 1 |
| FutexMutex.TryRefusesHeld | include/lsr/ls_lock.h:404-412 | on a held mutex trylock gives up at once and changes nothing |
| FutexMutex.CallsAloneAcquire | include/lsr/ls_lock.h:259-294 | in every reachable state a thread anywhere inside lock that finds the word free and runs alone holds the lock within three instructions |
| FutexMutex.LockingTakesFree | include/lsr/ls_lock.h:259-294 | and the word is then 1 from the fast path and 2 from the slow one |
| FutexMutex.LockingSleeps | include/lsr/ls_lock.h:259-294 | a thread anywhere inside lock, running alone behind a holder, marks the word and goes to sleep after an exact number of instructions |
| FutexMutex.LockSleepsBehindHolder | include/lsr/ls_lock.h:265-290 | for a new call these are ten spins and three instructions, and four in all if the word is marked already |
| FutexMutex.UnlockFrees | include/lsr/ls_lock.h:424-430 | unlock frees the word in two instructions, and returns unless it was marked |
| FutexMutex.UnlockWakes | include/lsr/ls_lock.h:428-429 | a marked one is followed by handing the wake to any one sleeper, who tries again, or by finding none |
| FutexMutex.SpuriousRetries | include/lsr/ls_lock.h:284-290 | a wait that returns on its own tries for the lock, and gets it when it is free |
| FutexMutex.UnlockOfFreeAborts | include/lsr/ls_lock.h:426 | an unlock of a free word fails its assert, which safety shows no run reaches |
| SafeFutex.WordIsThirtyTwoBits | include/lsr/ls_lock.h:296-297 | pairs of process id and waiter bit are exactly the 32-bit values, and masking, testing and setting the bit agree |
| SafeFutex.RobustSafety | include/lsr/ls_lock.h:311-366 | under any interleaving and any deaths at most one live thread holds the lock, the word carries its process id, a negative return names a process that died holding the lock, and the assert of unlock never fails |
| SafeFutex.RescueFreesFromDead | include/lsr/ls_lock.h:326-329 | a take-over happens only from a process that is gone, returns that process's id, and removes it from the word |
| SafeFutex.RescuedOnce | include/lsr/ls_lock.h:326-329 | after one thread has taken over from a process, no step of any continuation takes over from it again |
| SafeFutex.NoWakeupLostWithoutDeaths | include/lsr/ls_lock.h:311-366 | in every run without deaths a sleeper implies the waiter bit, a wake on its way, or an awake contender |
| SafeFutex.StepLosesIff | include/lsr/ls_lock.h:311-366 | a step takes the living from served to not served if and only if it is the death of a process while the waiter bit is clear, a sleeper lives elsewhere, and every live waker or contender belongs to the dying process |
| SafeFutex.NoWakeupLostIff | include/lsr/ls_lock.h:311-366 | over every run with any deaths, live sleepers are served in all its states if and only if no step of it is such a death |
| SafeFutex.SleeperCanAcquire | include/lsr/ls_lock.h:311-366 | in every reachable state without deaths each sleeper can get the lock within eleven steps of threads already inside lock or unlock, with no timeout and no new call |
| SafeFutex.DeathCanLoseWakeup | include/lsr/ls_lock.h:352-366 | a concrete run in which the holder dies between its exchange and its wake call and leaves a sleeper, a free word and nobody to wake it |
| SafeFutex.TimeoutRecovers | include/lsr/ls_lock.h:324-335 | when the word is free or its owner is gone, a sleeper that times out and then runs alone holds the lock within four steps, its return naming that owner |
| SafeFutex.RecoveryIff | include/lsr/ls_lock.h:324-335 | a sleeper that from now on runs alone can get the lock if and only if the word is free or its owner is gone |
| SafeFutex.StepKeepsInv | include/lsr/ls_lock.h:380-390 | every instruction, wake, timeout, death and reaping keeps the lock's invariant |
| SafeFutex.LockTakesFree | include/lsr/ls_lock.h:311-323 | on a free word lock and trylock succeed at once, the word becoming the process id without the waiter bit |
| SafeFutex.TryRefusesHeld | include/lsr/ls_lock.h:380-390 | on any other word trylock gives up and changes nothing, even if the owner is gone |
| SafeFutex.LockingTakesFree | include/lsr/ls_lock.h:311-339 | a thread anywhere inside lock that finds the word free and runs alone acquires it normally within five instructions, with the waiter bit unless it was the first try |
| SafeFutex.LockingSleeps | include/lsr/ls_lock.h:324-335 | behind an owner that is not gone it sets the waiter bit, changes nothing else, and goes to sleep within eight |
| SafeFutex.LockRescues | include/lsr/ls_lock.h:324-329 | lock on a word whose owner is gone takes over in three instructions and returns the owner's id |
| SafeFutex.DeadOwnerIsRescued | include/lsr/ls_lock.h:324-329 | when a holder's process dies and is reaped, the next lock call of another process takes over from it |
| SafeFutex.UnlockFrees | include/lsr/ls_lock.h:352-361 | unlock frees the word in two instructions, and returns unless the waiter bit was set |
| SafeFutex.UnlockWakes | include/lsr/ls_lock.h:352-366 | with the bit set it hands the wake to any one live sleeper, who tries again, or finds none |
| SafeFutex.ForeignUnlockAborts | include/lsr/ls_lock.h:355-356 | an unlock by another process than the owner's fails its assert, which safety shows no run reaches |
| SafeFutex.StepRefinesRobustLock | include/lsr/ls_lock.h:311-390 | each step leaves the live holder as it is, or is an acquire by the acting thread when there is none, its release, or its death |
| LinkedHeap.ChainUnique | include/lsr/ls_stack.h:111-129 | the links in memory determine the stack: following them has one reading, which linearizability relies on |
| LinkedHeap.ChainUnlink | addon/example/mtpostmt.c:73-91 | linking around an entry removes it from the list and nothing else |
| TsStack.Linearizable | include/lsr/ls_tsstack.h:117-182 | every run of interleaved instructions is a run of the atomic stack whose history - calls, answers with their results, hand-overs - is the history read off the threads of the code; push takes effect at the write of phead, pop there or at the read of null; at the end the linked nodes read as that stack and in no other way, and every node is in exactly one place |
| TsStack.SameAnswer | include/lsr/ls_tsstack.h:117-182 | the atomic stack gives each caller the very answer the code returns |
| TsStack.StepSimulates | include/lsr/ls_stack.h:111-129 | each instruction stands for one atomic step or for none, and keeps exclusion, the list and conservation |
| TsStack.AtomicKeepsConserved | include/lsr/ls_tsstack.h:117-182 | calls, pushes, pops, refusals, returns and hand-overs leave every node in exactly one place: the stack, one owner, or one call |
| TsStack.StepKeepsExclusive | include/lsr/ls_lock.h:532-578 | the spin lock admits one thread at a time to the stack |
| TsStack.RefusedMeansBusy | include/lsr/ls_tsstack.h:119-120 | trypush and trypop fail only while another thread is inside |
| TsStack.CallsCanGoOn | include/lsr/ls_tsstack.h:117-182 | in every reachable state a thread inside a call has its next instruction or its return open: no read or write meets a node that is not there |
| TsStack.PushAlone | include/lsr/ls_tsstack.h:117-142 | a push that finds the lock free and runs alone is through after five instructions, with its node in front of the stack |
| TsStack.PopAlone | include/lsr/ls_tsstack.h:156-182 | a pop likewise answers with the first node and takes it off, after five, or with null for an empty stack, after three |
| TsStack.WholePush | include/lsr/ls_tsstack.h:134-142 | from call to return the node goes from its owner to the stack and nothing else changes |
| TsStack.WholePop | include/lsr/ls_tsstack.h:172-182 | from call to return the first node goes from the stack to the caller and nothing else changes |
| TsStack.BusyLock | include/lsr/ls_tsstack.h:117-163 | behind a taken lock a try-call is refused at once, any other call tries again, and nothing else changes |
| TsStack.SectionEnds | include/lsr/ls_tsstack.h:117-163 | a thread inside the section that runs alone gives the lock up within four instructions |
| TsStack.CallCompletes | include/lsr/ls_tsstack.h:126-182 | from every reachable state every waiting call can be answered within nine instructions of the thread inside and its own |
| SessionRegistry.RegistryCorrect | addon/example/mtpostmt.c:44-107 | after any run of any threads the list is acyclic and holds exactly the registered and not yet freed entries, once each; every other allocated entry is in the hands of one thread; entries in use are registered; the not-found branches of free are never reached; at most one thread is inside the lock |
| SessionRegistry.FindIsLookup | addon/example/mtpostmt.c:44-58 | find ends at the newest registered entry of the session, or at none exactly when there is none |
| SessionRegistry.RemoveKeepsOrder | addon/example/mtpostmt.c:73-100 | free takes out its argument and keeps all other entries in their order |
| SessionRegistry.AccessesAreAllocated | addon/example/mtpostmt.c:44-223 | in every reachable state a thread inside find, free, registration or a count section is about to touch only entries that are still allocated |
| SessionRegistry.SearchEnds | addon/example/mtpostmt.c:47-91 | from every reachable state a search under the lock is through within as many steps of its thread as there are registered entries, and one more |
| SessionRegistry.NeverRelocks | addon/example/mtpostmt.c:32-33 | in every reachable state a thread inside the lock never comes to the test-and-set, and has given the lock up when it leaves |
| SessionRegistry.CallsDoTheirWork | addon/example/mtpostmt.c:44-107 | from every reachable state with the lock free each call that runs alone does its work within the list's length and six steps: registration puts its entry in front, find answers with the newest entry of the session or with none, a count changes nothing else, free takes out its entry and gives the memory back |
| SessionRegistry.FindRuns | addon/example/mtpostmt.c:44-58 | from the head on a find comes to the newest entry of its session, or to none, within two steps more than the list is long |
| SessionRegistry.FreeOfUnlisted | addon/example/mtpostmt.c:66-95 | for an entry that is not listed free looks through the whole list, gives the lock up and leaves everything as it was |
| SessionRegistry.BusyWaits | addon/example/mtpostmt.c:32 | a taken lock is read until it is free and then tried again |
| SessionRegistry.Lifecycle | addon/example/mtpostmt.c:140-223 | a session that registers an entry finds that very entry when it is called again, and freeing it leaves the registry as it was |
| SessionRegistry.LeaveLetsOthersIn | addon/example/mtpostmt.c:158-185 | a callback that returns leaves its entry registered and lets the next callback of the session run |
| SessionRegistry.StepKeepsInv | addon/example/mtpostmt.c:158-161 | every access to lock, head or next, by any thread, keeps the registry's invariant |
| SessionRegistry.StepKeepsExclusive | addon/example/mtpostmt.c:32-33 | the test-and-set lock admits one thread, and is set exactly while one is inside |
| SessionRegistry.FreeMoves | addon/example/mtpostmt.c:79-91 | the search of an entry to free cannot run off the list: it reaches the link in front of the entry |
| SessionRegistry.StepKeepsEntry | addon/example/mtpostmt.c:188-222 | a step for one session leaves the entries of all others allocated, assigned to their sessions, and registered exactly if they were |
| DLinkQueue.DLink.AddNext | include/lsr/ls_link.h:346-355 | links a node in behind this one, both neighbours updated |
| DLinkQueue.DLink.AddPrev | include/lsr/ls_link.h:391-401 | links a node in before this one, both neighbours updated |
| DLinkQueue.DLink.RemoveNext | include/lsr/ls_link.h:366-379 | bridges over the node behind, returns it and zeroes all of it |
| DLinkQueue.DLink.Remove | include/lsr/ls_link.h:435-444 | joins both neighbours, zeroes the whole node, returns the one behind |
| DLinkQueue.DLinkQ.constructor | include/lsr/ls_dlinkq.h:229-233 | a new queue is a valid ring that holds the empty sequence |
| DLinkQueue.DLinkQ.Size | include/lsr/ls_dlinkq.h:294-295 | the count kept is the length of the sequence |
| DLinkQueue.DLinkQ.Empty | include/lsr/ls_dlinkq.h:306-307 | the head points to itself exactly when the sequence is empty |
| DLinkQueue.DLinkQ.Append | include/lsr/ls_dlinkq.h:318-322 | the sequence gains the node at its end and the ring stays well linked |
| DLinkQueue.DLinkQ.PushFront | include/lsr/ls_dlinkq.h:333-337 | the sequence gains the node at its front and the ring stays well linked |
| DLinkQueue.DLinkQ.Remove | include/lsr/ls_dlinkq.h:348-356 | a member leaves the sequence wherever it stands and is zeroed; a node in no list changes nothing at all |
| DLinkQueue.DLinkQ.PopFront | include/lsr/ls_dlinkq.h:368-377 | returns and zeroes the first node and leaves the rest, or null exactly for the empty queue |
| DLinkQueue.NextPrevInverse | include/lsr/ls_dlinkq.h:229-377 | in every valid queue prev undoes next and next undoes prev, at the sentinel too |
| DLinkQueue.LinkedWithout | include/lsr/ls_link.h:435-444 | bridging one gap turns a ring into the ring of the other nodes |
| DLinkQueue.RemoveTwice | include/lsr/ls_dlinkq.h:348-356 | removing the same node twice is removing it once |
| LoopBuf.LoopBuf.BlkSize | include/lsr/ls_loopbuf.h:375-380 | the front block is the longest prefix of the contents that lies in one piece |
| LoopBuf.LoopBuf.Size | include/lsr/ls_loopbuf.h:388-394 | the size is the length of the contents, wrapped or not |
| LoopBuf.LoopBuf.Empty | include/lsr/ls_loopbuf.h:411-412 | equal marks mean no contents, never a full ring |
| LoopBuf.LoopBuf.Full | include/lsr/ls_loopbuf.h:420-421 | full means one byte less than the capacity |
| LoopBuf.LoopBuf.Clear | include/lsr/ls_loopbuf.h:477-478 | leaves an empty ring |
| LoopBuf.LoopBuf.UnsafeApp | include/lsr/ls_loopbuf.h:490-495 | adds one byte at the end unless full, and turns a full ring into an empty one |
| LoopBuf.LoopBuf.Inc | include/lsr/ls_loopbuf.h:505-511 | moves a position on by one, around the end |
| LoopBuf.PtrAndOffsetInverse | include/lsr/ls_loopbuf.h:448-469 | getoffset and getptr are inverse on all offsets and positions in range |
| LoopBuf.RemTruncates | include/lsr/ls_loopbuf.h:448-453 | the remainder of getptr has the sign of what is divided, as in C |
| LoopBuf.OffsetRefused | include/lsr/ls_loopbuf.h:466-467 | getoffset returns -1 for exactly the pointers outside the buffer |
| LoopBuf.StepIsPtr | include/lsr/ls_loopbuf.h:448-453 | n increments from begin arrive where getptr of n points |
| LoopBuf.WalkVisitsContents | include/lsr/ls_loopbuf.h:505-511 | stepping from begin exactly size times visits the contents in order and lands on end, and no sooner |
| TcpOutChain.DecodeEncode | addon/example/updatetcpout1.c:100-105 | the decoder reads back what the encoder prints, and every printed entry carries its marker |
| TcpOutChain.EncodeAt | addon/example/updatetcpout1.c:100-105 | byte number i is printed as the marker and the upper-case digits of its high and its low half |
| TcpOutChain.PrintsUpperCase | addon/example/updatetcpout1.c:102 | the byte 0x2F is printed as =2F |
| TcpOutChain.HexPairIsStrtol | addon/example/updatetcpout2.c:102-112 | what the decoder makes of any two characters behind a marker is the strtol of the C standard, cut to a byte |
| TcpOutChain.HexValueIs | addon/example/updatetcpout2.c:104 | exactly the digits of either case have a value |
| TcpOutChain.SendAcceptsBelowLimit | addon/example/updatetcpout1.c:93-107 | below 8192 buffered bytes all data is accepted, else none; a decoder below that limit takes all, else nothing moves between the two |
| TcpOutChain.SendTakesBudget | addon/example/updatetcpout2.c:118-122 | unless the decoder runs empty the socket is sent all it is willing to take |
| TcpOutChain.SendKeepsFlow | addon/example/updatetcpout1.c:93-123 | one send, whatever the socket takes, keeps: bytes sent, then the decoder's buffer, then the decoded encoder's buffer, are the bytes accepted |
| TcpOutChain.HandoverFlow | addon/example/updatetcpout2.c:93-116 | although the decoder reports every consumed byte twice, what the encoder then pops is exactly what the decoder took, because a pop drops at most what there is |
| TcpOutChain.ChainIsIdentity | addon/example/updatetcpout2.c:93-122 | over any calls and any backpressure the chain is the identity: nothing lost, duplicated or reordered, and two calls without data that the socket does not hold up deliver the rest |
| TcpOutChain.TwoFlushesDeliver | addon/example/updatetcpout2.c:118-122 | two calls without data over a willing socket empty both buffers |
| TcpOutChain.Decoder.DecodeVector | addon/example/updatetcpout2.c:100-114 | decodes one vector behind what is buffered, as far as its entries carry their marker, and counts what it decoded |
| TcpOutChain.FaultAt | addon/example/updatetcpout2.c:103-110 | the first entry without a marker in all vectors as one text is the first one in the first faulty vector |
| TcpOutChain.Decoder.AppendDecoded | addon/example/updatetcpout2.c:93-116 | decodes all vectors as one text up to the first entry without a marker; without one every byte is counted twice, with one the vectors up to the faulty one and the decoded entries are counted |
| TcpOutChain.Decoder.L4Send | addon/example/updatetcpout2.c:75-132 | takes all input or none, passes on a prefix of its buffer and keeps the rest; after an invalid entry it sends nothing, holds what was decoded in front of it, and returns the vectors up to the faulty one plus the decoded entries |
| TcpOutChain.Encoder.EncodeVector | addon/example/updatetcpout1.c:98-105 | prints one vector behind what is buffered and counts its bytes |
| TcpOutChain.Encoder.AppendEncoded | addon/example/updatetcpout1.c:93-107 | prints all vectors as one text and counts the bytes |
| TcpOutChain.Encoder.L4Send | addon/example/updatetcpout1.c:77-124 | the loops over both filters and the socket take one step of the chain and keep its flow law |
| ServerApi.Session.ReadReqBody | addon/example/mtaltreadwrite.c:238-245 | a read fails and changes nothing, or moves a prefix of the unread body into the buffer |
| ServerApi.Session.AppendRespBody | addon/example/mtaltreadwrite.c:251-257 | an append fails and changes nothing, or adds a prefix of what it was given to the response |
| AltReadWrite.Pump.constructor | addon/example/mtaltreadwrite.c:202-233 | the buffer holds both sizes together, or one of them when they are equal |
| AltReadWrite.Pump.Round | addon/example/mtaltreadwrite.c:236-269 | for any short or failing transfers the marks stay in order, the read fits, response, buffer and unread bytes together stay the request body, and the round fails exactly when a transfer did |
| AltReadWrite.Pump.Compact | addon/example/mtaltreadwrite.c:264-266 | moving the buffered bytes to the front loses none |
| AltReadWrite.Pump.Drain | addon/example/mtaltreadwrite.c:273-289 | over non-empty appends the drain loop ends, with an empty buffer, or because an append failed |
| AltReadWrite.Pump.ProcessReq | addon/example/mtaltreadwrite.c:233-289 | the request ends; it succeeds exactly when no transfer failed, the response is then the request body, and a prefix of it otherwise |
| AltReadWrite.RoundProgress | addon/example/mtaltreadwrite.c:218-271 | while body remains each round lowers unread bytes, or else buffered bytes, or else the read mark |
| AltReadWrite.HungStays | addon/example/mtaltreadwrite.c:202-206 | a hung pump stays as it is, whatever the transfers could do |
| AltReadWrite.HungIff | addon/example/mtaltreadwrite.c:202-267 | a round hangs the pump exactly when the sizes are equal, it moved a part, not all, of a chunk, and body is left to read |
| AltReadWrite.LoopEndsIff | addon/example/mtaltreadwrite.c:202-271 | over any endless account of steady transfers the loop comes to its end exactly unless the sizes are equal and some round was partial with body left to read |
| AltReadWrite.ShortReadHangs | addon/example/mtaltreadwrite.c:202-271 | chunks of ten bytes, a body of fifteen and a first read of five: the loop never ends |
| DoublingFilter.StaysWithinIff | addon/example/waitfullreqbody.c:104-134 | the output loop ends within the caller's buffer exactly for an even size or for data that fits in half of it |
| DoublingFilter.OddSizeOverruns | addon/example/waitfullreqbody.c:104-134 | three bytes buffered and five to fill: the loop does not stay within them |
| DoublingFilter.Filter.ReadAll | addon/example/waitfullreqbody.c:96-102 | all chunks go behind the carried bytes, in order |
| DoublingFilter.Filter.WritePass | addon/example/waitfullreqbody.c:114-121 | one pass writes the doubled front of the buffer behind what was written and nothing beyond it |
| DoublingFilter.Filter.HttpReqRead | addon/example/waitfullreqbody.c:82-141 | the output is the doubled front of carried and new bytes, the rest is carried, the output size is respected, and the flag is raised exactly when bytes remain and never lowered |
| DoublingFilter.RunConserves | addon/example/waitfullreqbody.c:82-141 | over any sequence of calls the bytes handed out followed by the doubled carry are the doubled input |
| DoublingFilter.RunCalls | addon/example/waitfullreqbody.c:82-141 | calling the filter again and again, each time within its output size, gives that run: output followed by the doubled carry is the doubled input |
| DoublingFilter.EvenSizesFit | addon/example/waitfullreqbody.c:104-115 | any sequence of calls with even output sizes stays within them |
| DoublingFilter.DoubleAt | addon/example/waitfullreqbody.c:116-121 | output bytes 2i and 2i+1 are both input byte i |
| DoublingFilter.TakenIsMost | addon/example/waitfullreqbody.c:108-115 | a call hands out all that is buffered or all that fits doubled |
| BlockTransfer.PeelBlock | addon/example/mtpostmt2.c:481-530 | the whole body matches exactly if its first block does and the rest does |
| BlockTransfer.FollowsIff | addon/example/mtpostmt2.c:481-530 | comparing block by block is comparing the whole body |
| BlockTransfer.OnlyLastIsShort | addon/example/mtpostmt2.c:373-378 | the block sizes that both loops are shown to use add up to the content length, and only the last may be short |
| BlockTransfer.LabelIsNumber | addon/example/mtpostmt2.c:521 | the label of a block below ten to the eight is its number with leading zeros |
| BlockTransfer.LongLabel | addon/example/mtpostmt2.c:521-527 | that of a larger one is the first eight digits of its number |
| BlockTransfer.FirstLabel | addon/example/mtpostmt2.c:520-521 | block 1 is labelled 00000001 |
| BlockTransfer.FillerIsLetter | addon/example/mtpostmt2.c:478-480 | the filler behind it runs through the alphabet, upper case in received and lower case in sent blocks |
| BlockTransfer.Transfer.FillBlock | addon/example/mtpostmt2.c:491-514 | a block is filled with the next bytes of the body however the reads split it; it is not filled exactly when a read failed, which is an error, or came back empty, which is not |
| BlockTransfer.Transfer.MatchesBlock | addon/example/mtpostmt2.c:519-528 | the comparison succeeds exactly when the buffer holds the numbered block |
| BlockTransfer.Transfer.ReceiveBlock | addon/example/mtpostmt2.c:481-540 | a round goes on past a matching block only, keeps whether the whole body matches, and stops for a failed read, an empty read or a body that does not match |
| BlockTransfer.Transfer.RecvThread | addon/example/mtpostmt2.c:478-540 | all content is counted as received only if the body is the concatenation of the numbered blocks, and exactly then if no read failed or came back empty; success means it was all received or a read came back empty; the accepted blocks have the block sizes |
| BlockTransfer.Transfer.SendOne | addon/example/mtpostmt2.c:370-392 | appends the numbered block, or less if the server takes less, and counts the whole block unless the append failed |
| BlockTransfer.Transfer.SendThread | addon/example/mtpostmt2.c:363-393 | it succeeds and counts the whole content exactly when no append failed; if none was cut short the response is the counted part of the numbered blocks, else it is shorter than counted; the blocks have the block sizes |
| BlockTransfer.Transfer.FillLabel | addon/example/mtpostmt2.c:371-384 | the send buffer holds the numbered block, or zeros if it is shorter than a label |
| BoundedStrings.Lstrncpy | include/lsdef.h:50-62 | writes the first bytes of the source and a terminator within n bytes, returns where the terminator is, and touches nothing else |
| BoundedStrings.Lstrncat | include/lsdef.h:64-70 | leaves the string followed by the source, cut to n-1 bytes and terminated, the result on the terminator; unterminated memory is left alone |
| BoundedStrings.Lstrncat2 | include/lsdef.h:72-76 | leaves what two bounded appends to an empty string leave |
| BoundedStrings.EndsAtZero | include/lsdef.h:64-66 | a string ends in front of the first byte zero |
| BoundedStrings.CatAllIsTake | include/lsdef.h:64-70 | any list of bounded appends leaves the first n-1 bytes of the whole concatenation |
| BoundedStrings.AppendAll | include/lsdef.h:64-70 | calling lstrncat once per source on one buffer does so, always terminated, within the buffer |
| QueryParsers.GetReqDimensions | addon/example/imgresize.c:129-159 | the loops over pointers compute the recursive reading of the query, whatever byte stands behind it |
| QueryParsers.ParseDigits | addon/example/imgresize.c:142-147 | accepts exactly digits and computes their decimal value |
| QueryParsers.DimensionsOfFields | addon/example/imgresize.c:129-159 | every query made of fields is accepted with the first non-zero width and height |
| QueryParsers.DimensionsOfPrint | addon/example/imgresize.c:129-159 | parsing a printed list of widths and heights gives back its first non-zero width and height |
| QueryParsers.AcceptedIff | addon/example/imgresize.c:128-159 | zero is returned exactly for queries shorter than two bytes and for fields joined by separators with at most one separator and one stray byte behind them |
| QueryParsers.StrayByteIsAccepted | addon/example/imgresize.c:128-159 | the queries `x` and `w=1&x` are accepted, `xx` is not |
| Decimals.DigitsAre | addon/example/imgresize.c:142-147 | exactly the characters 0 to 9 are digits, each with its value |
| Decimals.ValueOfDecimal | addon/example/imgresize.c:146 | reading the decimal digits of a number gives the number |
| QueryParsers.CopyTerminated | addon/example/testenv.c:59-61 | a string and its terminator go into a buffer exactly if it is longer than the string |
| QueryParsers.SetPair | addon/example/testenv.c:53-84 | one round copies the next name and value, fits exactly when both leave room for a terminator, and stops where no separator follows |
| QueryParsers.AssignHandler | addon/example/testenv.c:53-89 | the pointer loop sets, in order, the pairs of the recursive reading of the query up to the first that does not fit the 128-byte buffers, and all of them exactly when none overruns; every round moves strictly forward |
| QueryParsers.PairsOfPrint | addon/example/testenv.c:53-89 | parsing printed pairs, wherever they start, sets exactly those pairs in order |
| QueryParsers.PrintedPairsAreSet | addon/example/testenv.c:53-89 | printed pairs that fit the buffers are all set, in order |
| QueryParsers.NoColonSetsNothing | addon/example/testenv.c:56-87 | a query without a colon sets nothing |
| QueryParsers.NulSetsNothing | addon/example/testenv.c:56-87 | nor is anything set from a byte NUL on |
| QueryParsers.RestIsIgnored | addon/example/testenv.c:53-89 | behind printed pairs a rest without a colon ends the list |
| QueryParsers.FitsMeans | addon/example/testenv.c:43-46 | the buffers take names and values of up to 127 bytes |

## Left out

- TcpOutChain.Decoder.L4Send: vectors are required to be a multiple of three bytes long, as the encoder's are; for others the code reads past their end.
- DoublingFilter.Filter.HttpReqRead: requires an even output size or data that fits in half of it; for the others the code runs past the buffer or never ends, as `StaysWithinIff` says, and such output is not modelled. The null module data branch and the second test case are not modelled.
- AltReadWrite.Pump.ProcessReq: requires positive sizes and transfers that move at least one byte when they can; for equal sizes it also requires that no transfer is cut short while body is left to read, and `LoopEndsIff` says what happens otherwise.
- BlockTransfer.Transfer.RecvThread: requires a positive block size; with size zero the loop never moves. An empty read ends the loop with the code's success flag still set, which the contract says.
- SessionRegistry.StepKeepsInv: the lock sections around the byte counts are modelled, the counts themselves and the post buffers are not; callbacks of one session are taken to run one at a time.
- FutexMutex.MutexSafety: only holders call unlock, as the lock demands of its users; fairness is not claimed.
- SafeFutex.RobustSafety: process ids are non-zero, below 2^31 and not reused; only holders call unlock; a probe that fails for another reason than a missing process counts as alive, as in the code.
- TsStack.Linearizable: threads push only nodes they own; the sleep between two tries is not modelled.
- Memory order weaker than sequential consistency, wall-clock time, allocation failure, logging, thread-check annotations, assembly variants and HTTP headers and status codes are not modelled.
- Machine integers are unbounded here: overflow of the counts in the filters, of the block arithmetic and of the parsed dimensions is not modelled.
- A negative result of the next write step below the two output filters, and their flag for buffered data, which points at a local variable, are not modelled.
- QueryParsers.AssignHandler: where the code would write past one of its 128-byte buffers the model stops; what such a write does is not modelled.
- The out-of-line ring buffer functions and the server calls have no bodies to read; they appear only as their documented contracts.
- The structures declared only in headers, the base64 input filters, the external host relay, the event examples, the observing copy of the read and write pump and the inline getters of other containers are not modelled.
