# gmker: a verified model

gmker is a small single-core kernel: four application slots scheduled round-robin, two
exclusive resources with waiting queues and usage accounting, periodic program launches,
one TCP connection to a GMSTORE server, a VirtIO network driver, page tables for four
isolated address spaces, and a loader for GM01 program files. Beside the kernel live the
GMSTORE server, the GM01 packer and a DNS client.

This project models the parts of gmker that decide something and proves what they decide,
for every input and over every run. Where the C code changes tables and buffers in place,
the model is a class that does the same; each of its methods is proved to do what a small
step system over values says, and the properties of whole runs are proved of that step
system. `dafny verify dfyconfig.toml` checks everything.

| files | what they cover |
|---|---|
| `KernelModel`, `ResourceSafety`, `Scheduling`, `Deadline`, `PeriodicLaunch` | slots, resources, scheduler, execution deadline and periodic launches as a step system, and what every run keeps |
| `CallAnswers`, `PeriodicTable` | what one call, command or poll does and answers, exactly |
| `Witnesses` | runs from boot in which the kernel does not do what it promises |
| `Accounting`, `UsageTable`, `Ownership` | what the usage figures of a resource mean, and when the rolling figure is exact |
| `Services` | the service calls by their registers: tests, accesses to program memory, requests to network and store |
| `Kernel` | the same tables as `programs.c` keeps them: circular queues, shared buckets, loops; class `Machine` |
| `TcpModel`, `TcpSafety`, `TcpProgress`, `TcpClient` | the TCP connection: both streams, what is taken and what is sent again, the receive ring, stop-and-wait sending; class `Tcp` |
| `StoreText`, `StoreProtocol`, `StoreServer`, `StoreClient`, `StoreSession`, `StoreCommands` | GMSTORE: a whole-stream parser, the incremental server (class `Client`), the client's codec, both ends together |
| `StoreServices` | from a program's registers and memory to the files of the store |
| `Paging`, `AddressSpaces`, `MemoryMap` | page tables as finite maps (class `Mmu`), isolation of the four spaces, user pointers, choice of memory |
| `Virtqueue`, `ReceiveQueue`, `ReceivePoll` | descriptor ownership in the two virtqueues, and the poll of the receive queue; classes `TxQueue` and `Receiver` |
| `Fnv`, `Gm01`, `Packer`, `ElfFile`, `Loader` | program images: checksum, packing from ELF files byte by byte, loading |
| `Checksum`, `Dns`, `DnsQuery`, `DnsResponse`, `DnsMessage` | Internet checksums; DNS names, queries and responses as they stand on the wire |

How the code's surroundings enter the model:

- Ticks are unbounded naturals. A 64-bit tick counter at 100 Hz does not wrap.
- Whether an image loads and how long that takes (`Attempt`), what the transport or the
  clock answers to a service call (`Call`, `Answers`), whether a packet can be sent (`ok`) and what
  the pump brings in while a send waits (`Round`) are parameters.
- A file system is any function from the operations carried out so far to an answer, so
  every pattern of success and failure is covered.
- What a device writes into shared memory is a parameter of every read (`Device`, `Sight`).
  In `ReceiveQueue` a device that keeps to the VirtIO rules takes steps of its own.
- A byte on the GMSTORE connection is a `char` with the byte's value.
- A panic over an inconsistent table is an `assert false`: its place is proved unreachable.
  Running out of pages, which is reachable, is a `false` result.
- Fields named `log`, and ghost fields, record history. The code never reads them.

## Findings

Statements one would expect, that hold only under a condition (proved as equivalences) or
not at all, and behaviour worth knowing.

- The rolling ten-minute figure of a resource is exact if and only if its current hold
  began inside the window and no hold of the *other* resource, spanning sixty bucket
  epochs or more, ended in an epoch in which this resource had already completed ticks
  (`RecentExact`). `RecentIsWrongAfterARun` gives a run from boot after which a hundred
  ticks have vanished. Holds of at most 59 bucket lengths always satisfy the condition
  (`RecentExactIfShort`).
- The acknowledgement test of the TCP sender compares 32-bit words without wrap-around.
  For acknowledgements of anything sent on the connection, now or earlier, it means "the
  whole payload has arrived" if and only if the connection's sequence numbers have not
  wrapped (`AckTestExact`, and `DeliveryExact` for the send as a whole). Once they have, an
  old acknowledgement of nothing in the payload ends the send with success
  (`WrapSucceedsUndelivered`), and `StaleAckRun` gives a run from boot that ends so.
- A GM01 file with one changed byte is accepted if and only if the byte belongs to the
  entry offset and the new offset lies in the image (`OneByteCorruption`): the checksum
  covers the image, not the entry. `AcceptedCorruption` gives two such files.
- The receive poll ends if and only if there is a turn at which the used index is caught
  up, the descriptor does not exist or the frame is usable (`LoopsExactly`,
  `NeverEndsExactly`). The index is read anew on every turn, so a device that keeps to the
  rules and completes every buffer with length 0 keeps the kernel in the loop for ever
  (`PollForEver`).
- The README of gmker says that an application cannot retain a resource indefinitely,
  because its execution deadline reclaims it. Over any run, an owner keeps its resource if
  and only if it neither releases it nor returns nor faults and is charged fewer ticks
  than it has left of its thousand (`OwnerKeepsExactly`; `DeadlineExact` says the same of
  staying alive). Only ticks in ring 3 are charged (`ChargedInRing3Only`), so an owner that
  only makes service calls keeps its resource for any number of ticks, and whoever waits
  for it is never served (`OwnerKeepsForEver`).
- A usable memory region that reaches the end of the 64-bit space is passed over, its end
  having wrapped (`SeenExactly`); the choice is the best of the others (`MemoryInit`). One
  that begins in the last page of that space spoils the choice (`LastPageSpoils`).
- The FIN of the peer closes the connection, with the whole stream accepted if and only if
  it is in order (`FinExact`).
- The payload of a write is left for the command parser if and only if the write failed
  (`PayloadLeftExactly`), so a payload that is a command line is then carried out
  (`PayloadObeyed`; `PayloadCarriedOut` gives a stream).
- An empty command line produces no reply, so commands behind it wait for the next event.
  The server is therefore proved to be on a prefix of the whole-stream result at every
  moment, and equal to it when nothing more can be done.
- The README of gmker says that a file path for `run` must remain under `/programs/`; the
  code demands the native directory below it. Paths are not part of the launch model.

## Model

| member | source | states |
|---|---|---|
| `ResourceSafety.StepSafe` | programs.c:111-234 | every step keeps: owner fields and slots agree both ways, each blocked slot is exactly once in exactly the queue it waits on and owns nothing, a free resource has no waiters, requests = grants followed by the queue, the last grant is the owner's |
| `ResourceSafety.ReachableSafe` | programs.c:483-520 | after every run from boot, owners, slots and queues agree and service is in order |
| `ResourceSafety.TakeSafe` | programs.c:219-227 | taking a free resource keeps owners, slots, queues and order of service consistent |
| `ResourceSafety.EnqueueSafe` | programs.c:228-233 | blocking behind a busy resource keeps them consistent, the newcomer last in the queue |
| `ResourceSafety.ReleaseSafe` | programs.c:186-200 | release with hand-over to the oldest waiter keeps owners, slots, queues and order consistent; the releaser owns nothing afterwards |
| `ResourceSafety.FinishSafe` | programs.c:739-745 | termination with automatic reclaim keeps owners, slots, queues and order consistent and frees the slot |
| `ResourceSafety.PreemptSafe` | programs.c:920-941 | preemption and the execution deadline keep owners, slots, queues and order consistent |
| `ResourceSafety.FaultSafe` | programs.c:900-918 | a program fault keeps owners, slots, queues and order consistent |
| `ResourceSafety.ServiceSafe` | programs.c:775-898 | every service call keeps owners, slots, queues and order consistent |
| `ResourceSafety.StartSafe` | programs.c:530-587 | starting a program, successfully or not, keeps owners, slots, queues and order consistent and leaves the kernel loop in control |
| `ResourceSafety.ScheduleSafe` | programs.c:747-763 | giving the processor away keeps owners, slots, queues and order consistent |
| `ResourceSafety.PollFromSafe` | programs.c:687-724 | a poll of the periodic table keeps owners, slots, queues and order consistent |
| `ResourceSafety.NoDeadlock` | programs.c:209-234 | in every reachable state the owner of an awaited resource is ready or running |
| `ResourceSafety.QueueHasRoom` | programs.c:155-163 | a slot that may ask always finds room in the queue of four |
| `ResourceSafety.NoOvertaking` | programs.c:165-184 | over any run, those waiting now are granted next, in order, before anybody who asks later |
| `Scheduling.OneRuns` | programs.c:747-763 | at most one slot runs, none while the kernel loop is in control; a live slot has used fewer than 1000 ticks |
| `Scheduling.FirstReadyIsFirst` | programs.c:752-755 | the scheduler picks the ready slot next after its cursor, and none exactly if none is ready |
| `Scheduling.TurnGetsNearer` | programs.c:752-761 | a scheduler turn serves a ready slot or strictly reduces its distance from the cursor |
| `Scheduling.StepKeepsReady` | programs.c:747-763 | nothing but a scheduler turn takes a ready slot's readiness or moves the cursor |
| `Scheduling.ServedWithinDistance` | programs.c:747-763 | a ready slot is served within distance plus one turns, whatever happens between them |
| `Scheduling.NobodyStarves` | programs.c:747-763 | from every reachable state four turns are enough |
| `Scheduling.KernelRegainsControl` | isr.asm:161-180 | after every service call, fault or timer tick of a program the kernel loop is in control |
| `Scheduling.OthersUndisturbed` | programs.c:739-745 | the other slots stay as they are, except that one waiting for what the program owned may get it |
| `Scheduling.DeadlineEnds` | programs.c:926-936 | the thousandth tick of execution ends a program and gives its resource back |
| `CallAnswers.AcquireAnswered` | programs.c:209-234 | an acquire blocks if and only if the caller owns nothing and another slot owns the resource, and then waits last; otherwise it answers 1 if and only if the call made the caller the owner, which it does if and only if the caller owned nothing and the resource exists and was free |
| `CallAnswers.ReleaseAnswered` | programs.c:186-200 | a release answers 1 if and only if the caller owned the resource before and does not after; it then belongs to the longest waiting slot, which becomes ready with the answer 1, or to nobody |
| `CallAnswers.ExitResult` | programs.c:790-793 | a program that exits leaves its code as its result, and what it owned is handed on |
| `CallAnswers.FaultResult` | programs.c:900-918 | a fault leaves minus a hundred and its vector as the result, and what was owned is handed on |
| `CallAnswers.OthersAnswered` | programs.c:794-897 | the other calls answer what clock, network or store answered, a transport only to its owner; nothing else changes |
| `CallAnswers.CommandStarts` | programs.c:530-587 | a command starts a fresh program in the lowest free slot, if there is one and the image loads; the other slots stay |
| `CallAnswers.TimeCounts` | programs.c:920-941 | every timer tick counts one, a load the ticks it takes, and calls, faults and turns none |
| `Deadline.DeadlineExact` | programs.c:920-936 | over any run from a reachable state, a live program stays alive if and only if it neither returns nor faults and is charged fewer ticks than it has left; while it stays, its execution time is what it was charged |
| `Deadline.OwnerKeepsExactly` | programs.c:186-207 | over any such run, an owner keeps its resource if and only if it neither releases it nor returns nor faults and is charged fewer ticks than it has left |
| `Deadline.ChargedInRing3Only` | programs.c:920-927 | no step but a tick in ring 3 adds to the execution time of a live slot |
| `PeriodicLaunch.StepOrderly` | programs.c:597-724 | every step keeps the launch table in order: launches owed and made add up to the count, a live program belongs to an entry exactly if the entry points at it |
| `PeriodicLaunch.ReachableOrderly` | programs.c:597-724 | after every run from boot the launch table is in order |
| `PeriodicLaunch.AddOrderly` | programs.c:597-638 | a new reservation keeps the order |
| `PeriodicLaunch.CancelOrderly` | programs.c:640-647 | a cancellation keeps the order and leaves every application alone |
| `PeriodicLaunch.PollOneOrderly` | programs.c:695-723 | polling one entry keeps the order |
| `PeriodicLaunch.FailedLaunchOrderly` | programs.c:713-719 | a failed load moves the deadline and uses up nothing |
| `PeriodicLaunch.LaunchesAsBooked` | programs.c:687-724 | a reservation launches at most COUNT times, exactly COUNT if it completes; none is lost |
| `PeriodicLaunch.NeverBesideItself` | programs.c:698-708 | two programs of one reservation are never alive together |
| `PeriodicLaunch.NeverEarly` | programs.c:709-722 | a launch comes at least the interval after its reservation was made and after every earlier launch of it |
| `PeriodicLaunch.RetiredStaysRetired` | programs.c:640-647 | after cancellation or completion a reservation never launches again, even when its entry and slots are reused |
| `PeriodicLaunch.LaunchExactlyWhenDue` | programs.c:695-723 | a poll launches exactly when due, nothing of the entry is alive, launches are owed, a slot is free and the load succeeds; the entry goes once its last program has |
| `PeriodicTable.AddBooks` | programs.c:597-638 | a reservation is made if and only if it asks for a second and a launch at least, its first deadline fits 64 bits, its program is well formed and an entry is idle; it is then due 100 ticks for each second from now, and again that long after each launch |
| `PeriodicTable.CancelExact` | programs.c:640-647 | a cancellation takes out exactly the entry named and leaves its program alone |
| `PeriodicTable.NextDeadline` | programs.c:709-722 | the next deadline is an interval from now if a launch was tried, successfully or not, and as it was otherwise |
| `PeriodicTable.PollLaunchesExactly` | programs.c:687-724 | a poll looks at every entry against the tick at its beginning: an active entry launches if and only if it is due when its turn comes, and exactly one launch is used up |
| `Accounting.RecentExact` | programs.c:255-276 | the rolling figure equals the tick-by-tick count over the last sixty epochs if and only if the current hold began in the window and no epoch of it was robbed |
| `Accounting.RecentExactIfShort` | programs.c:255-276 | holds of at most 59 bucket lengths make it exact |
| `Accounting.RecentCanBeWrong` | programs.c:122-130 | holds for which the figure is wrong |
| `Witnesses.RecentIsWrongAfterARun` | programs.c:122-130 | a run from boot after which the figure is 0 though the resource was held for a hundred ticks of the window |
| `Witnesses.OwnerKeepsForEver` | programs.c:920-936 | for every number of ticks, a run from boot in which an owner that only makes service calls still owns its resource, has been charged nothing, and the slot waiting for it was never served |
| `Accounting.CreditExact` | programs.c:122-153 | the record of an epoch is never too high, and too low exactly if a long hold of the other resource wiped it |
| `Accounting.TotalSinceBoot` | programs.c:306-307 | total plus live hold is the number of held ticks since boot |
| `Accounting.LongestHoldIsMaximum` | programs.c:143-143 | the longest hold is the maximum over all holds |
| `Accounting.StepRecorded` | programs.c:165-200 | holds of one resource never overlap and end in order |
| `Ownership.HeldIsOwned` | programs.c:132-153 | after any run, the recorded holds cover exactly the ticks that passed while the resource had an owner, in every window |
| `Ownership.StepCounts` | programs.c:186-200 | each step adds the time it takes if the resource is owned, and nothing else |
| `UsageTable.RecordingTurn` | programs.c:145-152 | one turn of the accounting loop extends the record of both resources by exactly one bucket's ticks |
| `UsageTable.RecordingEnds` | programs.c:145-153 | after the loop the buckets tell the credit of every epoch in the window, for both resources |
| `UsageTable.BucketSumIsWindow` | programs.c:264-268 | the sixty circular buckets add up to the credit of the window, each epoch once |
| `UsageTable.LedgerLater` | programs.c:255-276 | the table stays right as time goes on |
| `UsageTable.CreditFits` | programs.c:151-151 | a 32-bit bucket never exceeds 1000 ticks |
| `Kernel.RecentOf` | programs.c:255-276 | the loop over the buckets computes their sum and the clipped live hold |
| `Kernel.Machine.constructor` | programs.c:489-518 | the cleared tables are the initial state |
| `Kernel.Machine.ResourceBucket` | programs.c:122-130 | the bucket speaks for the given epoch afterwards; what it held for another is cleared for both resources |
| `Kernel.Machine.ResourceAccount` | programs.c:132-153 | totals, maximum and buckets agree with the history extended by this hold |
| `Kernel.Machine.ResourceRecent` | programs.c:255-276 | the reported figure, and exactly when it equals the tick-by-tick count |
| `Kernel.Machine.ResourceStatus` | programs.c:298-309 | total and longest printed are the held ticks since boot and the longest of all holds, the current one included |
| `Kernel.Machine.ResourceWait` | programs.c:155-163 | appends to the circular queue if there is room |
| `Kernel.Machine.ResourceGrantNext` | programs.c:165-184 | grants to the head of the circular queue; neither panic is reachable |
| `Kernel.Machine.ResourceReleaseApp` | programs.c:186-200 | does what the step system's release does, refusing what the caller does not own |
| `Kernel.Machine.ResourceReclaim` | programs.c:202-207 | reclaims what a slot owns; its panic is unreachable |
| `Kernel.Machine.ResourceOwned` | programs.c:111-120 | ownership as both records tell it; its panic is unreachable |
| `Kernel.Machine.ResourceAcquireService` | programs.c:209-234 | grants, refuses or blocks as the step system says; its panic is unreachable |
| `Kernel.Machine.ProgramFinish` | programs.c:739-745 | termination as in the step system |
| `Kernel.Machine.ProgramYield` | programs.c:765-773 | the answer is saved and the slot is ready |
| `Kernel.Machine.TimerInterrupt` | isr.asm:171-180 | a tick passes, and a user program loses the processor |
| `Kernel.Machine.ProgramPreempt` | programs.c:920-941 | charges the running program and preempts or terminates it; kernel code is never preempted |
| `Kernel.Machine.ProgramFault` | programs.c:900-918 | a fault in ring 3 terminates the running program, one in the kernel changes nothing |
| `Kernel.Machine.ProgramService` | programs.c:775-898 | a call out of ring 3 does what the step system does for the call its registers stand for, asks what they ask for and writes back what they name, by what the caller owns; any other changes and asks nothing |
| `Services.Dispatch` | programs.c:790-897 | what every service number comes to; memory being a map of exactly the backed bytes, each byte read or written on the way is proved to be inside |
| `Services.WritesWhereAsked` | programs.c:794-897 | whatever is in the registers, a service changes at most the buffer they name |
| `Services.OwnersOnly` | programs.c:825-897 | a transport is asked for nothing on behalf of a program that does not own it |
| `Services.RequestsFit` | programs.c:794-897 | addresses, ports, lengths and paths that reach the transports are within their limits |
| `Services.PlainCallsMean` | programs.c:790-824 | what exit, text, number, clock, gateway and ping are asked and answer: the text is the bytes in memory, the gateway's address is in memory afterwards, the time-out is at most 500 |
| `Services.ResourceCallsMean` | programs.c:835-842 | services 9 and 10 acquire and release the resource in rdi |
| `Services.ExchangeMeans` | programs.c:825-834 | address, port and data of a datagram are those in registers and memory; a reply that fits is in memory afterwards and its length is the answer |
| `AddressSpaces.MemoryIsOpen` | programs.c:355-381 | the memory the services work on is exactly what is open to the program, in every address space |
| `AddressSpaces.CopyOut` | programs.c:811-819 | writes a buffer byte by byte, each byte in memory, and nothing else |
| `Kernel.Machine.ProgramStartPath` | programs.c:530-587 | occupies the first free slot if the load succeeds |
| `Kernel.Machine.ProgramSchedule` | programs.c:747-763 | runs the first ready slot in round-robin order |
| `Kernel.Machine.PeriodicAdd` | programs.c:597-638 | books a reservation in the first idle entry, or refuses |
| `Kernel.Machine.PeriodicCancel` | programs.c:640-647 | removes a reservation |
| `Kernel.Machine.PeriodicPoll` | programs.c:687-724 | polls all entries against one reading of the clock |
| `Kernel.StepSound` | kernel.c:163-169 | every step keeps resources, launch table and usage records sound together |
| `Kernel.Machine.Handle` | kernel.c:163-169 | every event keeps all invariants and is a step of the step system |
| `KernelModel.FirstFree` | programs.c:539-544 | the first free slot, or none |
| `KernelModel.FirstIdle` | programs.c:609-614 | the first idle entry, or none |
| `TcpSafety.ReceivedIsPrefix` | tcpstore.c:149-224 | to a peer that keeps to one stream: bytes read, dropped and buffered are in order a prefix of it, and the acknowledged number counts exactly them and an accepted FIN, through duplicates, reordering and segments that do not fit |
| `TcpSafety.ReceivedFromBoot` | tcpstore.c:103-224 | the same for any run from boot to a connection and any run on it |
| `TcpSafety.FinExact` | tcpstore.c:218-223 | the FIN behind the peer's stream closes the connection, with the whole stream accepted if and only if it is in order |
| `TcpProgress.InputExact` | tcpstore.c:197-224 | a payload is appended to the received bytes if and only if it is the next in order and fits the room left; otherwise they stay; acknowledged number, state and outstanding payload exactly |
| `TcpProgress.StreamTaken` | tcpstore.c:197-224 | over any run in which a stream arrives in order, in pieces that fit, with duplicates, empty segments, polls and reads between: what was read and what is buffered is the whole stream |
| `TcpProgress.ResetExact` | tcpstore.c:197-201 | a reset ends the connection with nothing outstanding and keeps what was received |
| `TcpProgress.HandshakeExact` | tcpstore.c:202-208 | the handshake is completed exactly by a SYN with the acknowledgement of our first number, and both streams begin behind it |
| `TcpProgress.SendExact` | tcpstore.c:246-265 | a send puts its payload on the wire once, at the next number, and holds it; or does nothing |
| `TcpProgress.AckEndsSend` | tcpstore.c:210-213 | the acknowledgement of the whole payload ends the send with success |
| `TcpProgress.PollExact` | tcpstore.c:226-241 | a poll sends an overdue payload again, the same bytes at the same number, up to five times, and then gives up; otherwise it does nothing |
| `TcpProgress.SentAgain` | tcpstore.c:226-241 | over any sequence of polls half a second or more apart, exactly that many copies go out, five at most, and the connection is given up at the sixth |
| `TcpSafety.SendingIsFaithful` | tcpstore.c:226-274 | over any run all payloads on the wire are pieces of one stream at their numbers; while one is outstanding every transmission of it is the same, at most six; between sends nothing is outstanding |
| `TcpSafety.StepSafe` | tcpstore.c:168-316 | every step keeps the receive invariant (read, dropped and buffered bytes are those accepted, and the acknowledged number counts them) and the send invariant (an outstanding payload is the end of our stream, all recent transmissions are of it) |
| `TcpSafety.InputSafe` | tcpstore.c:197-223 | every received segment keeps the receive and the send invariant |
| `TcpSafety.PollSafe` | tcpstore.c:226-241 | the retransmission timer keeps the receive and the send invariant |
| `TcpSafety.SendBeginSafe` | tcpstore.c:246-265 | the first transmission of a payload keeps the receive and the send invariant |
| `TcpSafety.SuccessWasAcked` | tcpstore.c:266-273 | a send that returns 1 was ended by an acknowledgement that passed the test |
| `TcpSafety.AckTestExact` | tcpstore.c:210-213 | over acknowledgements of any count of bytes of the connection, old and new, the test means "all arrived" if and only if the connection's numbers have not wrapped |
| `TcpSafety.WrapSucceedsUndelivered` | tcpstore.c:210-213 | once they have, a bare old acknowledgement, of nothing in the payload, ends the send with success |
| `TcpSafety.SuccessMeansDelivered` | tcpstore.c:243-274 | before they have, success means that a peer which acknowledges only what it got had got everything |
| `TcpSafety.DeliveryExact` | tcpstore.c:243-274 | every success is a delivery, whatever such a peer sends, if and only if the connection's numbers have not wrapped |
| `TcpSafety.StaleAckRun` | tcpstore.c:112-274 | a run from boot in which 5120 bytes are sent and acknowledged and a late duplicate then ends the next send with nothing of it acknowledged |
| `TcpClient.RingAppend` | tcpstore.c:159-163 | the two-piece copy appends to the ring's contents |
| `TcpClient.RingTake` | tcpstore.c:287-290 | the two-piece copy takes the ring's first bytes |
| `TcpClient.Tcp.constructor` | tcpstore.c:103-113 | the initial connection |
| `TcpClient.Tcp.Append` | tcpstore.c:149-166 | all of a payload or nothing |
| `TcpClient.Tcp.Input` | tcpstore.c:197-224 | does to ring, numbers and outstanding payload what the step system does with a segment (`InputExact` says what that is) |
| `TcpClient.Tcp.Read` | tcpstore.c:280-295 | hands out the first bytes and removes exactly them |
| `TcpClient.Tcp.Drop` | tcpstore.c:297-300 | empties the ring |
| `TcpClient.Tcp.Poll` | tcpstore.c:226-241 | retransmits the same bytes at the same number, or gives up after five |
| `TcpClient.Tcp.Send` | tcpstore.c:243-274 | waits for exactly as many rounds of the pump as it takes, or until time is up, and returns what the step system returns after them; nothing is outstanding on return; success only after a clearing acknowledgement; the first waiting loop is never entered |
| `TcpClient.Tcp.Pump` | kernel.c:139-143 | every segment of a round in order, and then the retransmission timer |
| `TcpClient.Tcp.Close` | tcpstore.c:306-316 | an established connection sends a FIN, which takes one number; its waiting loop is never entered |
| `TcpClient.Tcp.Connect` | tcpstore.c:121-130 | a fresh connection, its first number 4096 after that of the last |
| `StoreProtocol.TurnMore` | gmstored.c:390-428 | a command that can be served does the same when more bytes have arrived |
| `StoreProtocol.PrefixOfWhole` | gmstored.c:390-460 | whatever has arrived and been served, operations and replies are a prefix of those of the whole stream |
| `StoreProtocol.DrainedIsWhole` | gmstored.c:390-460 | operations and replies equal those of the whole stream once everything has arrived and nothing more can be done |
| `StoreProtocol.ChunkingIsIrrelevant` | gmstored.c:430-460 | two ways of splitting one stream never disagree |
| `StoreProtocol.TurnShrinks` | gmstored.c:230-283 | every turn uses up input or a due payload and only adds operations and replies |
| `StoreServer.NameIsValid` | gmstored.c:72-90 | accepts exactly printable names of proper parts |
| `StoreServer.Tokenize` | gmstored.c:319-325 | the words of a line, or that there are more than four |
| `StoreServer.DecodeLine` | gmstored.c:319-387 | the command a line gives |
| `StoreServer.Client.constructor` | gmstored.c:462-476 | a new connection owes the greeting |
| `StoreServer.Client.InputConsume` | gmstored.c:230-237 | removes bytes from the front |
| `StoreServer.Client.OutputAdd` | gmstored.c:166-171 | queues bytes, or refuses without change |
| `StoreServer.Client.PendingWrite` | gmstored.c:239-283 | stores a payload once it is complete; a failed one stays in the input |
| `StoreServer.Client.ReplyList` | gmstored.c:328-340 | the listing, or an error line if it does not fit |
| `StoreServer.Client.ReplyRead` | gmstored.c:348-364 | at most the bytes asked for, behind their count |
| `StoreServer.Client.Command` | gmstored.c:305-388 | carries out one line as the protocol says |
| `StoreServer.Client.ProcessInput` | gmstored.c:390-428 | at most one command, and nothing while a reply waits |
| `StoreServer.Client.ReadEvent` | gmstored.c:430-444 | any piece of the stream keeps the connection on its history |
| `StoreServer.Client.WriteEvent` | gmstored.c:446-460 | partial sends of any sizes keep the connection on its history and only add to what was sent |
| `StoreServer.Client.ServedSoFar` | gmstored.c:390-460 | operations done and bytes sent are prefixes of what the whole stream asks for |
| `StoreServer.Client.ServedAll` | gmstored.c:390-460 | with every reply sent and no command complete, operations and bytes sent are exactly what the stream asks for |
| `StoreClient.StorePath` | tcpstore.c:336-345 | the paths the client sends |
| `StoreClient.StoreDec` | tcpstore.c:347-364 | writes the decimal digits of every 64-bit number |
| `StoreClient.StoreLine` | tcpstore.c:366-384 | operation, path and number in order |
| `StoreClient.BuildRead` | tcpstore.c:499-502 | the read request, inside its 256 bytes |
| `StoreClient.BuildStat` | tcpstore.c:483-483 | the request for a size, inside its 256 bytes |
| `StoreClient.BuildWrite` | tcpstore.c:553-565 | the write request, inside its buffer and one TCP payload |
| `StoreClient.BuildDelete` | tcpstore.c:571-580 | the request for a deletion, inside its 256 bytes |
| `StoreClient.StoreNumber` | tcpstore.c:414-433 | accepts exactly decimal numbers below 2^64 |
| `StoreSession.WriteArrives` | tcpstore.c:545-569 | the server stores exactly the path, mode and payload the client encoded, whatever bytes the payload holds |
| `StoreSession.PayloadLeftExactly` | gmstored.c:239-283 | the bytes of a payload are left for the command parser if and only if its write failed |
| `StoreSession.PayloadObeyed` | gmstored.c:239-283 | a payload that is a command line is then carried out as that command |
| `StoreSession.PayloadCarriedOut` | gmstored.c:239-283 | a stream of one write request after which the command in its payload has been carried out |
| `StoreSession.ReadArrives` | tcpstore.c:490-504 | the server reads exactly the path, offset and length asked for; offsets beyond LONG_MAX are refused |
| `StoreSession.ReadAnswered` | tcpstore.c:505-515 | the client takes exactly the bytes of the reply |
| `StoreSession.StatArrives` | tcpstore.c:477-485 | the server is asked for the size of exactly the path given |
| `StoreSession.StatAnswered` | tcpstore.c:486-488 | the client gets the size modulo 2^64, and none if there is no file |
| `StoreSession.RemoteSizeAnswers` | tcpstore.c:477-488 | the whole exchange: the size the file system tells, after exactly one operation |
| `StoreSession.BadReadRefused` | gmstored.c:341-364 | names only the client accepts, and offsets beyond LONG_MAX, get no data |
| `StoreSession.BadNameHasNoSize` | gmstored.c:341-347 | names only the client accepts have no size |
| `StoreSession.Cat` | tcpstore.c:529-543 | prints the whole object, for any size |
| `StoreCommands.RemoteWriteAnswers` | tcpstore.c:545-569 | for every file system, path, payload and mode, a write succeeds for the client if and only if the file system carried it out, also where the payload is left behind and brings about further operations and lines |
| `StoreCommands.BadNameNotWritten` | gmstored.c:341-341 | a write to a name only the client accepts fails |
| `StoreCommands.RemoteDeleteAnswers` | tcpstore.c:571-582 | a deletion succeeds if and only if the file system carried it out, after exactly one operation |
| `StoreCommands.PingAnswered` | tcpstore.c:446-454 | the server is there, and nothing is done to its files |
| `StoreCommands.ListAnswered` | tcpstore.c:456-471 | the client prints exactly the listed names that begin with the prefix, in order, and succeeds if and only if the file system could list them and the reply fits |
| `StoreCommands.OversizeRefused` | gmstored.c:348-370 | more than a block is neither read nor written at once |
| `StoreCommands.LongLineRefused` | gmstored.c:390-428 | a line of 512 bytes or more is refused and passed over |
| `StoreCommands.FloodRefused` | gmstored.c:390-428 | a buffer full of input without a newline is refused and passed over |
| `StoreServices.WriteServiceStores` | programs.c:881-895 | for every memory, registers and file system: services 7 and 8 answer 1 if and only if the store carried the write out; the object is then, after service 7, exactly the rdx bytes of memory at rsi, and after service 8 the object as it was followed by them; no other object has changed |
| `StoreServices.DataIsInMemory` | programs.c:892-894 | the data of a write is, byte by byte, what is in memory at rsi |
| `StoreServices.ReadServiceReads` | programs.c:862-880 | service 6: if the store can read the object, its bytes from offset rsi on, at most rcx of them, are in memory at rdx and the answer is their number; otherwise it is 0 |
| `StoreServices.StatServiceTells` | programs.c:843-861 | service 11: if the store knows the object, its length is the 64-bit word in memory at rsi and the answer is 1; otherwise it is 0 and memory is unchanged |
| `StoreText.DecimalValue` | tcpstore.c:347-364 | reading a written number gives it back |
| `StoreText.WordsAppend` | gmstored.c:319-324 | a word behind a blank is the last word |
| `Paging.Mmu.PageAlloc` | core.c:332-340 | hands out a page that is no table yet, each page once, or reports that there is none |
| `Paging.Mmu.NextTable` | core.c:357-367 | the table below an entry, made if missing; no translation changes |
| `Paging.Mmu.MapUserPage` | core.c:369-389 | for any physical page, adds exactly one translation, or none if the virtual page is taken, an address is not aligned or memory runs out; all others stay, in every space |
| `Paging.Mmu.CreateSpace` | core.c:395-408 | empty lower half, the kernel's upper half closed to users; no translation changes |
| `Paging.LinkKeepsWalks` | core.c:360-363 | hanging in an empty table changes no translation |
| `Paging.SetKeepsWalks` | core.c:383-385 | setting a last-level entry changes the translation of exactly one page of one space |
| `AddressSpaces.ProgramsInit` | programs.c:494-516 | four spaces with exactly the arena pages, except the guard, translated |
| `AddressSpaces.Isolated` | programs.c:494-519 | distinct pages of the spaces have distinct physical pages, none of them a page table; nothing else of the lower half is open to users, nothing of the upper half either |
| `AddressSpaces.UserRangeExact` | programs.c:355-365 | a range is accepted if and only if its address and all its bytes are in backed pages, for all 64-bit values |
| `AddressSpaces.AcceptedIsMapped` | programs.c:355-365 | every byte of an accepted range is mapped for users in every space |
| `AddressSpaces.UserString` | programs.c:367-381 | for every 64-bit address, finds the first zero within the limit; each byte it looks at is proved to be in memory |
| `MemoryMap.MemoryInit` | core.c:295-322 | in 64-bit arithmetic, of the usable regions that end inside the 64-bit space the one with the most whole pages above 16 MiB, if any has one, provided that none begins in the last page of that space |
| `MemoryMap.LastPageSpoils` | core.c:312-316 | such a region is looked at as if it began at zero |
| `MemoryMap.SeenExactly` | core.c:309-316 | of regions of whole pages, the loop judges rightly whether they offer memory if and only if they do not reach the end of the 64-bit space |
| `Virtqueue.TxQueue.constructor` | virtio.c:404-427 | the transmit queue as set up, each descriptor with its own half of a page |
| `Virtqueue.BuffersApart` | virtio.c:404-417 | on distinct pages no two buffers overlap |
| `Virtqueue.TxQueue.ReapTx` | virtio.c:349-369 | ends for every device; takes back exactly the descriptors told at the successive places of the used ring, turn by turn until the index is caught up; fails if and only if one told does not exist or is not in flight |
| `Virtqueue.TxQueue.NetSend` | virtio.c:449-473 | publishes a zeroed header and the frame in the first free buffer from the cursor on, the descriptor of each buffer in flight having its address and the length published, or fails with all eight in flight; published minus taken back is the number not free |
| `Virtqueue.TxQueue.InFlight` | virtio.c:356-364 | a descriptor is free exactly if all its publications have been taken back; at most eight are not |
| `Virtqueue.RingPublished` | virtio.c:466-469 | the device always finds the last eight published descriptors at their places in the ring |
| `Virtqueue.Wrap16` | virtio.c:466-469 | 16-bit indices count on across their wrap and keep ring positions |
| `ReceiveQueue.StepSound` | virtio.c:484-505 | every step of driver and device keeps the queue sound |
| `ReceiveQueue.ReachableSound` | virtio.c:404-427 | after any run of driver and device from set-up the queue is sound |
| `ReceiveQueue.OneHolderEach` | virtio.c:484-505 | each descriptor has exactly one holder |
| `ReceivePoll.FrameDelivered` | virtio.c:485-507 | a frame behind its header of twelve bytes reaches the caller as it came if and only if it fits; either way its descriptor is available again, next in the ring |
| `ReceivePoll.LoopsExactly` | virtio.c:484-508 | for every device, the poll is still looping after a number of turns if and only if none of them found the index caught up, a descriptor that does not exist or a usable frame |
| `ReceivePoll.NeverEndsExactly` | virtio.c:484-508 | the poll never ends if and only if there is never such a turn |
| `ReceivePoll.EndsAtLeast` | virtio.c:484-508 | the poll ends at the least such turn, with the result and the indices that turn gives |
| `ReceivePoll.OneTurn` | virtio.c:485-504 | one turn with a device that keeps to the rules, at work meanwhile: caught up, or a look at the next frame as it was completed |
| `ReceivePoll.PollInOrder` | virtio.c:475-509 | with such a device a poll that ends never fails, has gone through the frames in order, skipped only unusable ones, and returns the first usable one as the device wrote it, or caught up |
| `ReceivePoll.HistoryOf` | virtio.c:484-505 | every queue and every device have such a history of turns |
| `ReceivePoll.PollForEver` | virtio.c:484-505 | with a device that keeps to the rules and completes every buffer with length 0 the poll is still looping after every number of turns |
| `ReceivePoll.Receiver.constructor` | virtio.c:414-425 | the receive queue as set up |
| `ReceivePoll.Receiver.NetPoll` | virtio.c:475-509 | the transmit queue is reaped first; then, for every device, the driver is where the poll is after the given number of turns, and the device is out of operation exactly after a failure |
| `Fnv.MixOneToOne` | gmpack.c:15-18 | each step of the checksum is one-to-one in the hash and in the byte |
| `Fnv.OneByteShows` | gmpack.c:10-20 | images that differ in one byte have different checksums |
| `Fnv.PublishedValues` | gmpack.c:10-20 | the published FNV-1a values of nothing, of a byte 0 and of a byte 1 |
| `Fnv.ImageChecksum` | programs.c:343-353 | the loop computes the FNV-1a checksum of the image |
| `Gm01.GetPut32` | gmpack.c:22-27 | writing and reading a 32-bit word are inverse |
| `Gm01.PackedIsLoadable` | gmpack.c:135-145 | every x86_64 header and image the packer writes is accepted |
| `Gm01.OneByteCorruption` | programs.c:450-471 | one changed byte is accepted if and only if it is in the entry offset, which then still lies in the image |
| `Gm01.AcceptedCorruption` | programs.c:450-471 | two files one byte apart that are both accepted |
| `Packer.LayOut` | gmpack.c:99-123 | segments laid over a cleared image in order, or a header or segment cannot be read or does not fit |
| `Packer.Pack` | gmpack.c:81-152 | produces a file exactly for executables of a known machine whose headers and segments can be read, whose segments lie in the arena and whose entry is executable, and which file |
| `ElfFile.HeaderRead` | gmpack.c:81-89 | an ELF header written field by field is accepted if and only if it is that of a current 64-bit executable, lowest byte first, for a known machine; entry, count and place of the program headers are read from their fields |
| `ElfFile.SegmentsRead` | gmpack.c:104-110 | the segments are those the program headers describe, byte for byte |
| `ElfFile.PackedExactly` | gmpack.c:81-134 | such a file is packed if and only if its header is wanted, its entry is in the arena and in an executable segment, and every segment to be loaded lies in the arena and can be read |
| `ElfFile.PackedImage` | gmpack.c:99-134 | the image ends where the highest segment does, and each of its bytes is the byte of the file that the last segment putting one there takes, or zero if none does |
| `Packer.EveryPackedFileLoads` | gmpack.c:81-152 | whatever is packed for x86_64 is loadable, with its image and entry |
| `Packer.OtherMachinesRefused` | programs.c:456-456 | nothing packed for another machine is |
| `Loader.LoadImage` | programs.c:463-469 | the image block by block, zeros behind it |
| `Loader.ProgramLoad` | programs.c:439-472 | size, header and blocks asked for in turn; from a faithful store exactly the loadable files are accepted and the arena holds image and zeros; from any store the entry is inside |
| `Checksum.SumAdd` | tcpstore.c:48-56 | the 32-bit sum of the words, odd lengths included, without overflow |
| `Checksum.SumJoins` | tcpstore.c:48-56 | sums over buffers of even length add up, wherever they are split |
| `Checksum.SumOfWord` | tcpstore.c:48-56 | a word is its high byte times 256 and its low byte; a last odd byte is a high byte |
| `Checksum.Example` | tcpstore.c:48-61 | the example of section 3 of RFC 1071 |
| `Checksum.SumFinish` | tcpstore.c:58-61 | the complement of the folded sum |
| `Checksum.Folded` | net.c:187-187 | folding is arithmetic modulo 65535, zero only for zero |
| `Checksum.FoldStep` | net.c:207-207 | one fold makes the sum smaller and changes nothing else |
| `Checksum.InsertedVerifies` | tcpstore.c:63-77 | for all contents and lengths, the checksum put in place makes the whole verify |
| `Checksum.UdpInsertedVerifies` | net.c:368-376 | a UDP checksum, zero stored as all ones, makes the whole verify and is never stored as zero |
| `Checksum.PlainChecksum` | net.c:175-189 | the checksum without pseudo header |
| `Checksum.PacketChecksum` | net.c:197-210 | the checksum with pseudo header |
| `Checksum.PseudoHeaderSums` | tcpstore.c:63-77 | what is summed before and over a packet is the sum over the pseudo header, laid out as section 3.1 of RFC 793 has it, and the packet |
| `Checksum.VerifiesExactly` | net.c:175-189 | a sum passes if and only if it is a positive multiple of 65535 |
| `Checksum.FinishIpv4` | net.c:243-254 | an IPv4 header that verifies: its words add up to a positive multiple of 65535 |
| `Checksum.FinishTcp` | tcpstore.c:84-97 | a TCP segment that verifies in the same sense, pseudo header included |
| `Checksum.FinishUdp` | net.c:368-376 | a UDP datagram that verifies in the same sense, its field never zero |
| `Dns.DnsName` | gmapps/dns.c:97-146 | ends on every packet; succeeds exactly if the recursive reading, limited to 32 jumps, gives labels whose text fits, and returns that text and the position behind the name |
| `Dns.AfterInside` | gmapps/dns.c:127-135 | the position behind a readable name is after its offset and inside the packet |
| `Dns.LabelsNonEmpty` | gmapps/dns.c:125-143 | labels have 1 to 63 bytes |
| `DnsQuery.BuildQuery` | gmapps/dns.c:66-95 | accepts exactly names of proper labels and builds the query |
| `DnsQuery.QueryRoundTrip` | gmapps/dns.c:66-146 | the packet is 18 bytes longer than the stripped name, and reading its name gives the stripped name and the position of the type field |
| `DnsQuery.LabelsOfEncoding` | gmapps/dns.c:80-88 | encoded labels are read back wherever they stand |
| `DnsQuery.JoinSplit` | gmapps/dns.c:80-87 | splitting a name at its dots loses nothing |
| `DnsResponse.ReadRecord` | gmapps/dns.c:181-208 | one record, inside the packet, and where the next begins |
| `DnsResponse.ParseResponse` | gmapps/dns.c:157-211 | prints exactly the address and alias records up to the first that cannot be read, and reports success exactly if there are some and all can be read |
| `DnsMessage.ResponseRoundTrip` | gmapps/dns.c:157-211 | for every response laid out as section 4.1 of RFC 1035 has it (header, question, address, alias and other records, names whole or finished by a pointer to the question): it is taken as an answer if and only if its header is that of a complete, successful standard response to our one question, and the records read are exactly those sent, in order |
| `DnsMessage.ParseMessage` | gmapps/dns.c:157-211 | the parser prints exactly those records, and reports success if and only if there are some |
| `DnsMessage.EntryRead` | gmapps/dns.c:181-208 | one record: name, type, class, time to live with the highest byte first, length and data are read as what they say, and the next record begins behind it |
| `DnsMessage.HeadRead` | gmapps/dns.c:171-175 | the header is accepted if and only if identifier, response bit, opcode, truncation, response code and number of questions are as they must be |
| `DnsMessage.QueryIsMessage` | gmapps/dns.c:66-95 | the query for a name is the message with one question, for its internet address, and nothing else set |
| `DnsMessage.PointerMeansAsked` | gmapps/dns.c:116-124 | a record whose owner is a pointer to the question is about the name that was asked for |

## Left out

- Port I/O, serial line, PIC, PIT, GDT, IDT and TSS set-up, PCI discovery and feature negotiation: they decide nothing.
- Assembly: only the boundaries of atomic steps are taken from it; registers other than those of a service call are not modelled.
- The shell, status printing, ARP, ICMP and Ethernet framing: text and plumbing.
- Program names and arguments: `gm_program_path` and the length tests are the parameter `wellFormed`.
- The tests of address, ports, length and checksum in front of `gm_tcp_input`: segments that fail them are dropped unseen.
- Bare acknowledgements on the wire: the model has the number they carry, not when they are sent or lost.
- The waiting loop of `gm_tcp_connect` with its SYN retransmission: a connection is begun, segments arrive, and it is established or given up.
- TcpSafety.ReceivedIsPrefix: a segment more than 2^32 bytes away from the current position of the stream is excluded, as sequence numbers cannot tell it apart.
- Reply time-outs of the GMSTORE client, and pairing of late replies with requests: the sessions modelled are answered in full.
- Host calls of the GMSTORE server: the file system is a function of the operations so far; directory traversal, symbolic links and other clients' operations are inside it. A closed or failing connection ends the model.
- Virtqueue.TxQueue.NetSend: memory fences and notifications are not modelled.
- ReceivePoll.Receiver.NetPoll: the method looks at a given number of turns, because the loop need not end; memory fences and notifications are not modelled.
- ReceivePoll.PollInOrder: within a turn the device acts before the index is read and before the entry is read, not between the parts of an entry or of a buffer, which it does not hold then.
- Paging.Mmu.MapUserPage: the flags are those of its one call; device mappings of the kernel are not modelled.
- MemoryMap.MemoryInit: for maps with a usable region that begins in the last page of the 64-bit space only what the loop makes of that region is stated.
- Page-table entries are records of their fields, not 64-bit words; the TLB and the kernel's own tables are not modelled.
- Loader.ProgramLoad: connecting to the store is not modelled.
- ElfFile.PackedExactly: program headers that reach beyond the file, or files of 2^63 bytes and more, are not part of the layout stated there; `Pack` states what is made of every file.
- DnsMessage.ResponseRoundTrip: pointers other than those to the name in the question are not part of the layout stated there; `DnsName` states how every name is read.
- Packer.Pack: a file that cannot be opened or written is not modelled.
- Kernel.Machine.ProgramService: what the transports answer is the parameter `Answers`, which `StoreServices` ties to the store; the time a call takes is that of the ticks between events.
- The other programs under gmapps: they would only add easy members.
