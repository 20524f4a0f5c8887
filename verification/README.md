# Models of patched Wine server and driver files

Five files of the repository hold state machines, allocators and protocols. This project models
them in Dafny and proves what they keep:

- the PulseAudio stream engine (`dlls/winepulse.drv/11_17pulse.c`): the render ring with its two
  readers, the capture packets, and the 24-bit volume code;
- jobs, process and thread ids, and the process list (`server/process_pro11.c`);
- thread waits, suspension, asynchronous procedure calls and register contexts
  (`server/thread_pro11.c`);
- the shared-memory index allocator (`server/fsync_pro10.c`);
- manual events shared between processes (`server/esync_pro10.c`).

Where the source changes fields in place there is a class with those fields, and methods with the
source's branches and loops. Most of these classes carry a ghost field `model`, the value the fields
stand for; `Valid()` couples the two, each method says which step of the model it makes, and the
lemmas about whole runs are about the model. The job forest and the wait server keep their invariant
on the fields themselves.

| files | what they hold |
|---|---|
| `Common.dfy` | bytes, options, facts about sequences and products |
| `RenderModel.dfy`, `RenderStream.dfy` | render: a bounded queue of bytes, and the ring that implements it |
| `CaptureModel.dfy`, `CaptureStream.dfy` | capture: a pool of packets, and the buffer, lists and fragments that implement it |
| `Volume24.dfy` | the volume of packed 24-bit samples |
| `JobForest.dfy` | jobs, their processes and their counts |
| `PtidModel.dfy`, `PtidTable.dfy` | ids: a map and a queue, and the array that implements them |
| `ProcessList.dfy` | threads of processes, and the reply that lists them |
| `WaitModel.dfy`, `WaitServer.dfy` | waits and queues on values, and the server's methods |
| `ContextModel.dfy`, `ThreadContext.dfy` | merging register contexts |
| `ShmIndex.dfy` | the bitmap allocator, and runs of requests and client writes on values |
| `EsyncEvent.dfy` | interleaved steps of agents on one event |

PulseAudio, clocks, memory exhaustion, the network and other processes are parameters of the
operations: how much PulseAudio will take, which fragments it has recorded, whether memory can be
had, which threads can be signaled. Synchronization objects are abstract: `signaled` and `satisfied`
are functions of a state nobody knows anything about. Volumes are one uninterpreted function for each
channel and sample.

## What turned out not to hold

Each of these is stated as the exact condition under which the code does what it promises.

- The render stream is a FIFO of the released bytes at every point of a run, whatever the application
  writes to the buffer it holds, if and only if every grant inside the ring and every release found
  room beside the bytes PulseAudio had not taken (`RunGoodIffRoomy`). A write can reach pending bytes
  exactly when they and the grant do not fit in the ring together (`GoodIffApart`); silencing a fresh
  grant at line 1924 overwrites them even before the application does (`OverlappingGrantSilences`),
  and the clamp at 1985-1990 drops the oldest.
- PulseAudio gets everything that was released if and only if what it was willing to take at the calls
  that serve it reaches what was pending (`DrainedIff`); but ticks stop being such calls once the paced
  clock has consumed what was released (line 1615), and what is pending then stays until the
  application releases again or the stream is started anew (`ClockRunsOut`).
- Marking the packet after a recycled one (lines 1509-1510) writes to what is not a packet in some
  run if and only if the pool has one or two packets (`OutsideIffSmall`), that is if and only if the
  duration asked for is not zero and does not exceed two periods of the stream (`OutsideIffShort`).
- The position told with a captured packet is that of its sound if and only if, up to the operation
  that recorded it, no period was taken with the pool full and its oldest packet marked, which drops
  the newest without a mark, and no reset threw away a marked packet (`PositionExactIff`).
- The dirty flags that a sequence of requests leaves on a WoW thread do not depend on when the
  thread's own report comes if and only if for each group this holds: when some request writes it in
  the native half after a report, none writes it in the WoW half, and otherwise each request that
  writes it in the native half has one at or before it that writes it in the WoW half
  (`FlagsCommuteIff`). For the register values too the last request that writes a group after a
  report must not be followed by one that writes another value to it before a report
  (`WowCommutesIff`). Requests that cover their native groups and agree on them are of this kind
  (`WowCommutes`); one that has both halves commutes exactly when it covers them
  (`OneCommutesIffCovers`), and two that disagree need not (`DisagreeingRequests`).
- Destroying a process leaves right counts right if and only if it is in no job, has ended, or was
  released before (`DestroyProcess`, `CountedWithoutIff`). Otherwise each count that had it is one
  higher than it should be from then on, and the assertion at line 451 fails if and only if a job that
  goes still counts something; what goes is the line of jobs that nothing else refers to.
- A process whose threads are gone can get a new one (`thread_pro11.c` line 1720 asks only whether
  threads are running) and end again. Its jobs' counts go down a second time, and the assertion at
  line 396 fails if and only if one of them is zero (`KillProcess`); while the counts are right that is
  when no living process is left in the job or below (`SecondEnd`). Assigning such a process to another
  job raises the counts it is new to, although nothing living joins (`AddJobProcess`).
- The last drop of a reference to a shared-memory index asserts that the index is not free; it fails if
  and only if the index is free and its cell counts one reference (`FreeShmIdx`). Repeated drops get
  there if and only if a free index counts a reference at all (`DropsAbortIff`), which takes a
  reference made while it was free (`AbortsOnlyRevived`); the server's own requests do it: the request
  to free an index tests only its range, and the one that looks an index up adds a reference whatever
  its state (`SomeRunAborts`). The bitmap itself stays right whatever is written to the cells.
- The eventfd of an event agrees with its flag in every run, from any initial value, if and only if
  set and reset take the lock, as they do for manual events (`AgreesIffManual`).

## Model

| member | source | states |
|---|---|---|
| `RenderModel.FifoWhenGetsFit` | dlls/winepulse.drv/11_17pulse.c:1440-2002 | over any interleaving of get, fill, release, tick, start, stop and reset in which each get finds pending + requested bytes within the ring, the bytes PulseAudio has had followed by those pending are the bytes released: none lost, repeated or torn |
| `RenderModel.RunGoodIffRoomy` | dlls/winepulse.drv/11_17pulse.c:1906-1990 | over every run, the stream is a FIFO at every point, and stays one whatever the application writes to its grant, if and only if every grant inside the ring and every release found room; both directions |
| `RenderModel.StepGoodIffRoomy` | dlls/winepulse.drv/11_17pulse.c:1868-2002 | the exact condition for one operation to keep that, whatever the application writes afterwards |
| `RenderModel.GoodIffApart` | dlls/winepulse.drv/11_17pulse.c:1906-1924 | some write inside the grant changes what PulseAudio will be given exactly when the grant and the pending bytes do not fit in the ring together |
| `RenderModel.StepKeepsInv` | dlls/winepulse.drv/11_17pulse.c:1440-2002 | every operation keeps: pending bytes within the ring, held frames and grant within the buffer the application sees (half the ring), a grant kept apart exactly when it would cross the end |
| `RenderModel.RunGoesOn` | dlls/winepulse.drv/11_17pulse.c:1440-2002 | every enabled operation extends a run, so the invariant restricts nothing |
| `RenderModel.GrantStaysPut` | dlls/winepulse.drv/11_17pulse.c:1971-1974 | whatever ticks, writes and refused calls come between get and release, the place recomputed at release is the one granted |
| `RenderModel.LossIsForGood` | dlls/winepulse.drv/11_17pulse.c:1985-1990 | once the clamp has dropped bytes the stream stays short of them until a reset |
| `RenderModel.Drains` | dlls/winepulse.drv/11_17pulse.c:1440-1484 | over every run without grants and releases, what is sent is the oldest pending bytes, as many as PulseAudio was willing to take at the calls that served it |
| `RenderModel.DrainedIff` | dlls/winepulse.drv/11_17pulse.c:1440-1484 | so all that was released has been sent if and only if that reaches what was pending |
| `RenderModel.ClockRunsOut` | dlls/winepulse.drv/11_17pulse.c:1615-1640 | with the paced clock at its end, no number of ticks sends anything more |
| `RenderModel.OverlappingGrantSilences` | dlls/winepulse.drv/11_17pulse.c:1918-1924 | a grant inside the ring that overlaps pending bytes silences exactly the oldest of them |
| `RenderModel.ReleaseExactIffRoomy` | dlls/winepulse.drv/11_17pulse.c:1983-1995 | a release keeps all bytes if and only if they fit beside the pending ones |
| `RenderStream.TurnedWrap` | dlls/winepulse.drv/11_17pulse.c:1931-1945 | storing bytes in two pieces across the end of the ring stores them in a row as seen from the write position |
| `RenderStream.ChunkOf` | dlls/winepulse.drv/11_17pulse.c:1462-1483 | the one or two chunks written to PulseAudio are the first pending bytes |
| `RenderStream.Stream.constructor` | dlls/winepulse.drv/11_17pulse.c:1213-1219 | a new stream is an empty queue in a ring of twice the size the application sees |
| `RenderStream.Stream.PulseWrite` | dlls/winepulse.drv/11_17pulse.c:1440-1484 | all pending bytes are sent, or as many as PulseAudio will take, oldest first; after an underrun the silence that is missing is counted; said in the stream's own fields |
| `RenderStream.Stream.GetBuffer` | dlls/winepulse.drv/11_17pulse.c:1868-1929 | each refusal in the source's order; a grant is silence, in the ring where the next byte goes or apart if it would cross the end; said also in the stream's own fields |
| `RenderStream.Stream.FillGrant` | dlls/winepulse.drv/11_17pulse.c:1915-1921 | what the application writes changes its grant and nothing else that is readable |
| `RenderStream.Stream.WrapBuffer` | dlls/winepulse.drv/11_17pulse.c:1931-1945 | a grant kept apart lands where the next byte goes, in two pieces if need be |
| `RenderStream.Stream.ReleaseBuffer` | dlls/winepulse.drv/11_17pulse.c:1947-2002 | each refusal; otherwise the granted bytes, or silence, are appended, the oldest clamped away, and PulseAudio served; the counts of both readers and the released bytes in the stream's own fields |
| `RenderStream.Stream.Tick` | dlls/winepulse.drv/11_17pulse.c:1596-1659 | a period of the clock serves PulseAudio and moves the paced position by a period or what is left, whatever PulseAudio took |
| `RenderStream.Stream.Underflow` | dlls/winepulse.drv/11_17pulse.c:403-408 | an underrun is remembered and changes nothing else |
| `RenderStream.Stream.Start` | dlls/winepulse.drv/11_17pulse.c:1684-1732 | nothing on an invalid stream; refused without the event it is to be driven by and while started; otherwise PulseAudio is served and the stream starts unless uncorking fails |
| `RenderStream.Stream.Stop` | dlls/winepulse.drv/11_17pulse.c:1734-1767 | stopping changes only whether the stream is started |
| `RenderStream.Stream.Reset` | dlls/winepulse.drv/11_17pulse.c:1769-1808 | a reset empties both readers when PulseAudio has flushed, and is refused while started or locked |
| `CaptureModel.StepKeeps` | dlls/winepulse.drv/11_17pulse.c:1486-2083 | every operation keeps: free, filled and looked-at packets are the pool; held bytes count the latter two; only the oldest filled packet may be marked; periods in order, as recorded, at times in order; and the clock, packets and marks tell of every period recorded but the untold ones |
| `CaptureModel.RunKeeps` | dlls/winepulse.drv/11_17pulse.c:1486-2083 | the same at every point of every run from a new stream |
| `CaptureModel.OutsideIffSmall` | dlls/winepulse.drv/11_17pulse.c:1504-1512 | some run writes a mark outside the pool if and only if the pool has one or two packets |
| `CaptureModel.OutsideIffShort` | dlls/winepulse.drv/11_17pulse.c:1188-1198 | in terms of the duration, period and rate a stream is asked for: some run writes a mark outside the pool if and only if the duration is not zero and fits in two periods of the stream |
| `CaptureModel.ShortInTime` | dlls/winepulse.drv/11_17pulse.c:1188-1198 | with a period of whole frames that is: it is not zero and no longer than two periods |
| `CaptureModel.PoolFits` | dlls/winepulse.drv/11_17pulse.c:1222-1227 | the buffer made up to whole periods holds n packets or fewer exactly when the bytes asked for fit in n periods, and the packets take all of it |
| `CaptureModel.PositionTold` | dlls/winepulse.drv/11_17pulse.c:2031-2037 | the position told with a packet is its period's number less the periods lost untold before it was recorded |
| `CaptureModel.PositionExactIff` | dlls/winepulse.drv/11_17pulse.c:1504-1525 | over every run from a new stream, a packet looked at was recorded by some operation before, and the position told with it is exact if and only if no operation up to that one dropped the newest packet of a full pool whose oldest was marked, or reset away a mark |
| `CaptureModel.GapsTold` | dlls/winepulse.drv/11_17pulse.c:1508-1512 | between packets handed out one after the other exactly the marks and the untold losses are missing |
| `CaptureModel.TakeOrdered` | dlls/winepulse.drv/11_17pulse.c:1499-1525 | dropping the oldest or the newest packet and adding the new period leaves the line in order |
| `CaptureModel.ResetKeeps` | dlls/winepulse.drv/11_17pulse.c:1809-1822 | a reset returns every packet to the free ones and counts their bytes as had |
| `CaptureStream.PeriodsJoined` | dlls/winepulse.drv/11_17pulse.c:1486-1584 | the periods and the rest that reading cuts the sound into are the sound |
| `CaptureStream.PeriodsWhole` | dlls/winepulse.drv/11_17pulse.c:1495-1497 | each of them is one period long |
| `CaptureStream.Memory.FillOne` | dlls/winepulse.drv/11_17pulse.c:1238-1242 | packets carved from the buffer do not overlap: filling one leaves the sound of every other alone |
| `CaptureStream.Stream.Create` | dlls/winepulse.drv/11_17pulse.c:1192-1244 | refused when a period has no frame; otherwise a stream with as many free packets as the bytes asked for need |
| `CaptureStream.Stream.constructor` | dlls/winepulse.drv/11_17pulse.c:1222-1244 | the buffer is carved into packets of one period, however many, all free, nothing held or told |
| `CaptureStream.Stream.PulseRead` | dlls/winepulse.drv/11_17pulse.c:1486-1584 | for every pool reading ends, and while started has made the model's step for the whole periods of peeked and waiting sound in order, whatever sizes the fragments had: for all of them, leaving less than a period, or for those before one that finds no packet to take, or whose mark would go outside the pool; with three packets neither can be |
| `CaptureStream.Stream.ReadPeriod` | dlls/winepulse.drv/11_17pulse.c:1495-1582 | one period: the packet chosen as the model says, filled with the next bytes, or the bytes dropped when not started; nothing when there is no packet to take |
| `CaptureStream.Stream.TakePacket` | dlls/winepulse.drv/11_17pulse.c:1499-1525 | a free packet, else the oldest with a mark for its successor, else the newest |
| `CaptureStream.Stream.FetchPeriod` | dlls/winepulse.drv/11_17pulse.c:1530-1580 | the inner loop ends, and uses up exactly one period of peek remainder and fragments |
| `CaptureStream.Stream.TakeFragment` | dlls/winepulse.drv/11_17pulse.c:1547-1578 | what is not used of a fragment, sound or hole, is exactly what the peek buffer holds |
| `CaptureStream.Stream.Record` | dlls/winepulse.drv/11_17pulse.c:1547-1570 | a fragment adds its bytes to the sound not used yet, a hole as many bytes of silence |
| `CaptureStream.Stream.CapturePadding` | dlls/winepulse.drv/11_17pulse.c:1856-1866 | the oldest filled packet becomes the one looked at if there is none, and never leaves it; the frames held are told |
| `CaptureStream.Stream.GetBuffer` | dlls/winepulse.drv/11_17pulse.c:2004-2048 | each refusal in the source's order; without a packet looked at the oldest filled one is taken, and there is none to tell of only if none is filled; the place, mark, time and position told are those in memory, and the sound there is what was recorded |
| `CaptureStream.Stream.ReleaseBuffer` | dlls/winepulse.drv/11_17pulse.c:2050-2083 | both refusals; a packet released whole goes behind the free ones, its bytes are no longer held, and the clock goes on by a period, two with a mark; one not taken is handed out again |
| `CaptureStream.Stream.Reset` | dlls/winepulse.drv/11_17pulse.c:1769-1826 | each refusal in the source's order; otherwise every packet is free again, in order, and the clock goes on by what was held |
| `Volume24.SampleAt` | dlls/winepulse.drv/11_17pulse.c:1386-1394 | the reference: sample k of a buffer is sample k scaled for channel k modulo the channel count |
| `Volume24.GroupScaled` | dlls/winepulse.drv/11_17pulse.c:1370-1385 | four samples taken apart, scaled and packed in three words are the same twelve bytes |
| `Volume24.WidenBytes` | dlls/winepulse.drv/11_17pulse.c:1388-1394 | the three bytes of a sample are the upper ones of the word that is scaled, lowest first |
| `Volume24.ScaleBuffer` | dlls/winepulse.drv/11_17pulse.c:1363-1396 | for every buffer of whole samples, every channel count and every scaling, the word loop and its tail equal the reference |
| `Volume24.ChunksAgree` | dlls/winepulse.drv/11_17pulse.c:1466-1480 | scaling in two pieces of whole frames, as a wrapping write does, equals scaling in one |
| `JobForest.Server.AddJobProcess` | server/process_pro11.c:341-387 | denied exactly when the process is in another job and, if the job has a parent, that is no ancestor of it, or, if it has none, the job has been used; otherwise a living process is counted in the job and all its ancestors, each total grows where the process is new, the one parent link is made exactly when needed, every count is as far from the right one as before (one more where a process that has ended is new), and the invariant is kept: acyclic parents, lists inverse to links, a total above 0 wherever anything hangs, references exact |
| `JobForest.Server.InChain` | server/process_pro11.c:350-353 | the walk up the parents ends and finds exactly the ancestors |
| `JobForest.Server.Attach` | server/process_pro11.c:371-373 | an unused job becomes a child without making a cycle |
| `JobForest.Server.Descend` | server/process_pro11.c:355-377 | giving up the reference to an ancestor never drops its last |
| `JobForest.Server.CountUp` | server/process_pro11.c:381-386 | counts rise in the job and its ancestors below the one already counted in, and nowhere else |
| `JobForest.Server.Recounted` | server/process_pro11.c:381-386 | counts that rose exactly where a living process was not counted are as right as before |
| `JobForest.Server.KillProcess` | server/process_pro11.c:1018-1040 | for any process, also one that has ended before: it is no longer among the living; the assertion fails exactly when a count of its line is zero; a first end leaves every count as right as it was, so with right counts it cannot fail, and a later end leaves each count of the line one lower than that |
| `JobForest.Server.SecondEnd` | server/process_pro11.c:394-397 | with right counts a second end fails the assertion exactly when no living process is left in the job or below it |
| `JobForest.Server.ReleaseJobProcess` | server/process_pro11.c:390-407 | the walk up ends, lowers exactly the counts of the job and its ancestors by one, and fails its assertion exactly when one of them is zero |
| `JobForest.Server.DestroyProcess` | server/process_pro11.c:805-823 | any process, whatever the counts are, lets go of its job, and exactly the jobs go that nothing else refers to; each count that had it living is one further above the right one, all others are as they were, and an assertion in a destructor fails exactly when one of the jobs that go counts a process |
| `JobForest.Server.CountedWithoutIff` | server/process_pro11.c:819-823 | with right counts, a process is not counted any more exactly when it is in no job or has ended |
| `JobForest.Server.AbandonProcess` | server/process_pro11.c:1366-1376 | a process whose creation fails after it was assigned to jobs is taken off the counts and goes, with exactly the jobs that nothing else refers to; every count stays as right as it was, and with right counts no assertion fails; otherwise exactly when |
| `JobForest.Server.Reap` | server/process_pro11.c:446-463 | exactly the jobs up the line go to which nothing but the one below refers, and each that is left loses a reference exactly when a child of it goes; the assertion about the count fails exactly when a job that goes counts a process, never with right counts, and those about the lists cannot fail |
| `JobForest.Server.CloseJob` | server/process_pro11.c:433-463 | one reference goes, and exactly the jobs up the line go for which nothing else refers to any job on the way; a job that is left loses a reference exactly when a child of it goes; the invariant, and how right every count is, are kept; an assertion fails exactly when a job that goes counts a process |
| `JobForest.Server.ChildOnPath` | server/process_pro11.c:315-319 | whatever lies below a job does so through one of its children |
| `JobForest.Server.ChildrenApart` | server/process_pro11.c:315-319 | two children of a job have nothing below them in common |
| `JobForest.Server.ProcessInJob` | server/process_pro11.c:311-321 | the search downwards succeeds exactly when the parent links lead from the process's job to the job |
| `JobForest.Server.GetJobPids` | server/process_pro11.c:323-339 | the ids of the children-first listing, cut off where the room ends |
| `JobForest.Server.LivingExact` | server/process_pro11.c:323-339 | that listing holds exactly the living processes counted in the job, each once |
| `JobForest.Server.GetJobInfo` | server/process_pro11.c:1964-1985 | the active count, and a reply of that many ids or as many as there is room for: the listing as far as it goes; exact with right counts and room, and longer than the listing exactly when the count is too high and there is room |
| `PtidModel.HandedIsNew` | server/process_pro11.c:501-535 | a new owner gets an id nobody has, never 0; allocation fails only for want of memory with fewer than 256 waiting |
| `PtidModel.RunKeepsInv` | server/process_pro11.c:501-551 | over every run each index in use has an owner or waits once, never both |
| `PtidModel.ReuseIsDelayed` | server/process_pro11.c:511-517 | a freed id is not handed out before at least 255 others have been freed after it |
| `PtidModel.Waiting` | server/process_pro11.c:538-551 | behind a waiting id are exactly those freed since |
| `PtidModel.TableBounded` | server/process_pro11.c:501-535 | waiting ids are reused rather than the array grown: over every run with never more than so many owners it has at most half again as many entries as owners and 255, or its first 512 |
| `PtidModel.Accounted` | server/process_pro11.c:501-551 | owners and waiting ids together are the entries used |
| `PtidTable.Table.AllocPtid` | server/process_pro11.c:501-535 | the id is new and a multiple of four, and its index has the owner from then on, nobody else's being touched; an entry never used first, then the id freed first if 256 wait, and only then a bigger array; 0 only for want of memory |
| `PtidTable.Table.FreePtid` | server/process_pro11.c:538-551 | the owner of the id's index goes and nobody else's; the entry becomes the end of a list that has no cycle, its length counted |
| `PtidTable.Table.GetPtidEntry` | server/process_pro11.c:554-559 | looking an id up gives the owner of its index, which it shares with the next three numbers, and nothing when the index has none |
| `PtidTable.Table.Resize` | server/process_pro11.c:518-531 | growing the array keeps every owner and the free list |
| `ProcessList.AllBack` | server/process_pro11.c:2102-2140 | reading the reply back gives the processes, their images and their threads exactly |
| `ProcessList.WordBytes` | server/process_pro11.c:2110-2134 | numbers are stored lowest byte first |
| `ProcessList.Layout` | server/process_pro11.c:2110-2134 | each field of a process or thread is at its place in the record |
| `ProcessList.Pieces` | server/process_pro11.c:2102-2140 | a process is its header, its image, zeros up to a multiple of eight, and its threads in order |
| `ProcessList.Server.ListProcesses` | server/process_pro11.c:2075-2140 | refused exactly when the size exceeds the room; otherwise the reply is the encoding, ending at the size announced |
| `ProcessList.Server.AddUp` | server/process_pro11.c:2088-2099 | the first pass announces the length of the encoding, and the totals of threads and names |
| `ProcessList.Server.FillOne` | server/process_pro11.c:2110-2138 | one process is written from a multiple of 8 on, within the buffer, padding left zero |
| `ProcessList.AlignStays` | server/process_pro11.c:2090-2093 | sizes added up from a multiple of 8 are relative to it, and every process ends on one |
| `ProcessList.Server.AddProcessThread` | server/process_pro11.c:1044-1061 | the thread count stays the length of the list, and the process is listed with its first thread |
| `ProcessList.Server.RemoveProcessThread` | server/process_pro11.c:1064-1081 | the same, and the last thread takes the process off the list |
| `WaitModel.AgreePush` | server/thread_pro11.c:1148-1162 | queueing the next object adds the one entry it calls for and no other |
| `WaitModel.AppendedPush` | server/thread_pro11.c:1148-1162 | it comes to the end of the queue, behind those of earlier waits and of earlier objects of the same wait |
| `WaitModel.WithoutJoins` | server/thread_pro11.c:1127-1132 | leaving a queue leaves the order of the rest |
| `WaitModel.AgreePull` | server/thread_pro11.c:1127-1132 | leaving a queue removes that entry and no other |
| `WaitModel.CountedPull` | server/thread_pro11.c:1127-1132 | and gives back one reference |
| `WaitModel.AgreeEnd` | server/thread_pro11.c:1127-1135 | a wait that has left all queues can go |
| `WaitServer.Server.WaitOn` | server/thread_pro11.c:1139-1166 | puts a wait on the stack with one entry and one reference for each object, its entries at the ends of the queues in the order of its objects; when an object refuses, everything is as before |
| `WaitServer.Server.EndWait` | server/thread_pro11.c:1101-1136 | the wait goes, its objects are taken as its outcome says, all its entries and references with it, and nothing else changes; an acquiring end needs a thread that is not suspended and objects that are signaled |
| `WaitServer.Server.TakeObjects` | server/thread_pro11.c:1110-1126 | a wait for all takes each object in turn, another exactly the one told; whether any had been abandoned |
| `WaitServer.TakenStates` | server/thread_pro11.c:1110-1126 | no object changes for an end without one; the one told, or for a wait on all of different objects each of them once, changes as acquiring it does, and no other; abandoned exactly when one of those was |
| `WaitServer.AcquiredInTurn` | server/thread_pro11.c:1114-1119 | with an object named twice as well: each is acquired in the state those before it have left |
| `WaitServer.Server.CheckWait` | server/thread_pro11.c:1194-1233 | system calls, cooperative suspension, suspension, objects, user calls and time, in that order; the lowest signaled index, or all |
| `WaitServer.LookFinds` | server/thread_pro11.c:1194-1233 | what a look finds, reason by reason, in terms of the objects signaled |
| `WaitServer.Server.SelectOn` | server/thread_pro11.c:1349-1425 | a select that does not sleep takes its objects and leaves nothing behind; one that does leaves one wait with the client's cookie |
| `WaitServer.StripTaken` | server/thread_pro11.c:1110-1132 | taking objects and leaving their queues can be done in either order |
| `WaitServer.Server.WakeThread` | server/thread_pro11.c:1269-1288 | ends, and leaves a thread with nothing to wake up for; the waits ended are the innermost ones, in order, each as checking it said then, objects change only as those ends take them, each client that sleeps on one is told once, in order, and nobody dies whose pipe is sound; the count is their number, -1 when the first cannot be told |
| `WaitServer.Server.WakeOnce` | server/thread_pro11.c:1274-1286 | one round: the innermost wait ends as checking it says, and what the client is told |
| `WaitServer.Server.SendWakeup` | server/thread_pro11.c:1235-1264 | a suspension ends with its wait unless the context has changed; a client that has gone is killed |
| `WaitServer.Server.WakeQueueEntry` | server/thread_pro11.c:1291-1311 | only the innermost wait of a thread that is not suspended takes the object, and takes that one, for good; its client is told, then the waits below are looked at; any other entry changes nothing |
| `WaitServer.Server.Timeout` | server/thread_pro11.c:1314-1331 | only the innermost wait of a thread that is not suspended times out; its client is told, then the waits below are looked at |
| `WaitServer.Server.WakeUp` | server/thread_pro11.c:1428-1441 | starting over at the head after every wake still ends, for every queue and limit; if some thread on the queue has something to wake up for, the first of them does so first, as checking it says; the number told is that of the wakes, with a limit at most that; object states, replies and deaths are as the ends of waits call for; unless it stopped at the limit no thread on the queue has anything left to wake up for |
| `WaitServer.RoundsAgain` | server/thread_pro11.c:1433-1440 | a wake after others: it counts once however many waits of the thread end |
| `WaitServer.FollowedAgain` | server/thread_pro11.c:1101-1136 | object states that follow from the ends of waits in two stretches follow from them in one |
| `WaitServer.MovedAgain` | server/thread_pro11.c:1269-1288 | so do the waits that are left, the stack of the thread and what is unchanged |
| `WaitServer.AnsweredAgain` | server/thread_pro11.c:1235-1264 | and so do the clients told |
| `WaitServer.Server.SuspendThread` | server/thread_pro11.c:998-1008 | the count rises up to its maximum, no wait ends, and the thread is suspended from then on exactly unless it was stopping itself |
| `WaitServer.Server.ResumeThread` | server/thread_pro11.c:1011-1021 | the count falls; a thread that is still suspended by its own count or its process's changes in nothing else, any other looks at its waits as `WakeThread` does |
| `WaitServer.Server.Kill` | server/thread_pro11.c:1648-1671 | all waits of a thread that dies end as terminating, no object changes state, and no other thread changes |
| `WaitServer.Server.QueueApc` | server/thread_pro11.c:1464-1522 | the call goes to the end of the queue of the thread chosen, replacing the first of its owner there, with the alert event set exactly when there are user calls; then a thread whose first call it is looks at its waits as `WakeThread` does, and otherwise nothing else changes |
| `WaitServer.Server.ChooseThread` | server/thread_pro11.c:1468-1506 | the thread asked for unless it cannot be reached; else the first that waits for a call, else the first that can be signaled |
| `WaitServer.Server.CancelApc` | server/thread_pro11.c:1540-1556 | the first call of the owner goes, the rest keep their order, and the alert event goes off with the last user call |
| `WaitServer.Server.DequeueApc` | server/thread_pro11.c:1559-1572 | the call queued first comes first |
| `WaitServer.CancelledInOrder` | server/thread_pro11.c:1540-1556 | cancelling keeps a queue in the order its calls were queued |
| `ContextModel.NativeCommutes` | server/thread_pro11.c:2064-2087 | for a native thread, whenever its report comes, any sequence of requests gives the same registers and dirty flags, the last writer of each group winning |
| `ContextModel.WowHalfCommutes` | server/thread_pro11.c:2407-2432 | for a WoW thread the WoW half, flags and registers, never depends on when the report comes, the last writer of each group winning |
| `ContextModel.FlagsCommuteIff` | server/thread_pro11.c:2064-2087 | the dirty flags of the native half do not depend on when the report comes if and only if every group is settled, a condition on which requests write it where and in which order; for every sequence |
| `ContextModel.WowCommutesIff` | server/thread_pro11.c:2407-2432 | the same for flags and register values together |
| `ContextModel.WowCommutes` | server/thread_pro11.c:2407-2432 | requests that all cover their native groups, and all name the same groups as native, are settled, and so both halves come out the same |
| `ContextModel.OneCommutesIffCovers` | server/thread_pro11.c:2407-2432 | covering is exactly what one request needs |
| `ContextModel.DisagreeingRequests` | server/thread_pro11.c:2064-2087 | two requests that each cover but disagree on the native groups do not commute with the report |
| `ContextModel.BeforeReport` | server/thread_pro11.c:2382-2437 | before the report the dirty groups are those written, with the values last written |
| `ThreadContext.CopyContext` | server/thread_pro11.c:1674-1685 | copies exactly the groups named |
| `ThreadContext.Thread.SetThreadContext` | server/thread_pro11.c:2382-2437 | each refusal; a thread other than the caller is stopped first; then for each group of each half, in the request's own terms: whether it is dirty and what it holds, and all others are as they were |
| `ThreadContext.Thread.ReportContext` | server/thread_pro11.c:2047-2088 | for each group of each half: the report fills in what nobody has set, drops what cannot apply, and ends the pending state |
| `ShmIndex.Allocator.AllocShm` | server/fsync_pro10.c:281-340 | hands out the least index not in use, never 0, its cell with reference count 1 and no other cell changed, growing the map when it is full, whatever clients have written to the cells |
| `ShmIndex.Allocator.AllocFromWord` | server/fsync_pro10.c:269-279 | takes the lowest free bit of a word; below the search hint no word has one |
| `ShmIndex.Allocator.FreeShmIdx` | server/fsync_pro10.c:342-370 | a reference goes from that cell alone, and the index becomes free exactly when it was the last; its assertions fail exactly when the number is no index, or the index is free already and counts one reference |
| `ShmIndex.AbortsOnlyRevived` | server/fsync_pro10.c:360-367 | over every run of allocations, drops, references, cleanups and writes by clients: where the assertion would fail, a reference was made before to that index while it was free |
| `ShmIndex.DropsAbortIff` | server/fsync_pro10.c:342-370 | some number of drops fails the assertion if and only if the index is free and its cell counts a reference |
| `ShmIndex.SomeRunAborts` | server/fsync_pro10.c:627-658 | allocating an index, freeing it by request and looking it up again leads to that |
| `ShmIndex.Allocator.CleanupProcess` | server/fsync_pro10.c:375-395 | exactly the indices last used by the process with count 1 become free, their counts 0, and no assertion fails |
| `ShmIndex.Allocator.AddReference` | server/fsync_pro10.c:627-630 | a reference more, for that index alone, whether it is in use or not |
| `ShmIndex.Allocator.FreeRequest` | server/fsync_pro10.c:650-658 | numbers that are no index are refused; any index is dropped, with the assertion failing as said |
| `ShmIndex.Allocator.Conservation` | server/fsync_pro10.c:297-315 | free and used indices and the reserved one are always 64 to the word |
| `ShmIndex.CellsDiffer` | server/fsync_pro10.c:231-267 | different indices have different cells, 16 bytes apart in pages of 65536 |
| `EsyncEvent.ManualEventSafe` | server/esync_pro10.c:426-487 | over every run of any number of agents, from any initial value, at most one is in the locked section, and whenever the lock is free the eventfd is readable exactly when the event is signaled |
| `EsyncEvent.AgreesIffManual` | server/esync_pro10.c:437-452 | for every initial value, the eventfd agrees with the flag in every run if and only if set and reset take the lock |
| `EsyncEvent.StepKeepsInv` | server/esync_pro10.c:426-487 | every single step keeps mutual exclusion and the agreement of flag and counter |
| `EsyncEvent.LastExchangeHolds` | server/esync_pro10.c:426-487 | over every run the event is as the last exchange left it, set by a set and reset by a reset |
| `EsyncEvent.StaysWhatItIs` | server/esync_pro10.c:426-487 | a set stays a set and a reset a reset until its agent has given back the lock, and only its exchange changes the event |
| `EsyncEvent.TakesEffect` | server/esync_pro10.c:426-487 | with nobody inside, a set or reset carried out alone leaves both the event and its eventfd as it says |
| `EsyncEvent.NeverStuck` | server/esync_pro10.c:437-447 | while an agent spins it, or the one inside, can make a step that changes something |

## Left out

- Sample-rate changes (`pulse_set_sample_rate`, lines 2385-2425), device enumeration, format probing, channel maps and property values of the PulseAudio driver.
- Volumes other than 1 in the render stream: its bytes go to PulseAudio as they are; how packed 24-bit samples are scaled is `Volume24`, other formats and float rounding are not modelled.
- Buffers of 2^31 bytes or more, where `locked` could not hold a grant's size, and every other wrap-around of 32-bit sizes and counts.
- `CaptureStream.Stream.PulseRead`: ends where the mark would be written outside the pool (`CaptureModel.OutsideIffSmall`); that the source writes there and goes on changes memory the model does not hold.
- `CaptureModel.OutsideIffShort`: the duration is turned into frames exactly, not through a floating-point product (line 1198), and products that do not fit in the source's integers are left out.
- PulseAudio failing to peek, or giving an empty fragment while it says there are bytes to read: the inner loop of reading would not end.
- The pacing of the timer loop (lines 1611-1648): a tick is any moment.
- Job completion ports, limits, names, `terminate_job`, and the error paths of `create_process` other than the failure of a later assignment to a job.
- Handles: a job's are a number of references held elsewhere, a process's are not modelled.
- `ProcessList.Server.ListProcesses`: signed fields are told by their 32-bit patterns, and no image or thread list is 2^32 long.
- The numbers of processes and of user processes that decide about server shutdown.
- `WaitServer.Server.Kill`: abandoned mutexes, windows, console processes and the thread's own signaling, which may wake others, are not modelled.
- Signal-and-wait and keyed events in select, parsing of select operations, handles, memory exhaustion in waits, and errors of the wakeup pipe other than that it is gone.
- `WaitServer.Server.ResumeThread`: delayed debug events are not modelled, nor is the suspension of whole processes as an operation; its count is a field any method may find at any value.
- Calls of no type, which are accepted without being queued, the results of calls, and the high bit of the count a thread gets when it suspends itself.
- Status codes of waits are a datatype: a wait has fewer objects than the smallest code, and an abandoned wait is told by a flag beside the outcome.
- The bytes of registers inside a group, and which groups a machine has.
- `ShmIndex.Allocator.AllocShm`: `shm_idx` starts as 0, as line 297 intends; it is not set at 285 when the search starts at the end of the map. An allocator that was never initialized is not modelled.
- `ShmIndex.Allocator.FreeShmIdx`: a client may write to a cell between any two operations, but not between the server's test of a count and its decrement.
- Auto-reset events, semaphores and mutexes of `server/esync_pro10.c`, whose set and reset take no lock; only the create, set and reset of an event are steps.
- `path/` and the backend dispatch in `server/inproc_sync_pro11.c`: declarations, socket plumbing and tables that would only add easy members.
