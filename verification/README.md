# Proofs about HPLinuxServer

A Dafny 4.11 project about the reusable parts of HPLinuxServer: its three timer
containers, the idle-timeout server built on one of them, its thread pool, its process pool,
and the line scanner and response builder of its HTTP connection.
`dafny verify dfyconfig.toml` checks all of it.

## How it is organised

**One abstract timer service, three containers.** `TimerService` is a map from live timers to
their expiry, each with the stamp of its last scheduling.  Every container has a value-level
description of what its operations do (`SortedTimers`, `Wheels`, `Heaps` with `LazyTimers`) and
an imperative class over linked nodes or an array (`LstTimer`, `TimeWheelTimer`, `TimeHeap`).
The class methods are proved to do exactly what the description says; the descriptions are
proved, over every legal run, to fire what the service fires.  Expiry times, clocks and `now` are
parameters where the program calls `time(NULL)`, and a `tick` returns the timers whose
callbacks it invokes, in order.

**The timeout server.** `IdleQueue` gives an account of a run of the server that knows no
queue (`LastTouch`, `IsOpen`) and proves that a least-recently-active queue agrees with it;
`TimeoutServer` is the event loop over the real linked list, and proves that the list is
that queue; `Serve` is stated over the events themselves.

**The pools.** `ThreadPool` is the pool as atomic steps of any number of producers and workers
in any interleaving.  `Dispatch` is the parent's search, busy flags and reaping in place;
`ProcessPool` is the protocol between the parent and its children, with the lookup of the
reporting child as published or repaired; `ProcessRuns` and `ProcessReturn` say how far the published
one goes.

**HTTP.** `HttpLine` and `HttpResponse` describe the scanner and the builder as functions of the
bytes so far; `HttpConn` has the two buffers and proves that its methods compute them.

## Where the code does not do what it is for

The model keeps the behaviour below and says exactly when the code meets its purpose.

- `adjust_timer` leaves the list sorted exactly when the new expiry is not below the
  predecessor's (`SortedTimers.AdjustSorts`).
- The loop that looks up the child whose pipe reported (`src/include/process_pool.hpp` lines 469-477)
  has an index of its own that hides the entry's: it compares slot k of the event array with
  pipe k, never the descriptor that reported, and slots behind the present result are left
  over from earlier ones.  It clears the right flag exactly under `Dispatch.ReleaseIsRight`.  So a child can
  be given two connections in every pool but one of a single child
  (`ProcessRuns.SafeExactlyForOne`), every pool can lose a notice for good
  (`ProcessRuns.NoticeCanBeLost`), and a stale slot can clear the flag of another child
  (`ProcessRuns.StaleSlotClears`).  `ProcessPool.OneConnectionEach` is the exact condition on a run.
  The repair named `Repaired` compares with `sockfd`; `ProcessPool.RepairedPool` and
  `ProcessPool.RightRunIsSafe` need it or notices that find their reporter, and
  `ProcessPool.RepairChanges` says that nothing else is changed.
- A child whose `accept` fails after it has read its token stays marked busy, under either
  lookup (`ProcessRuns.FailedAcceptSticks`, `ProcessPool.RepairedPool`).
- The parent's branch for SIGCHLD calls the blocking `wait` until it fails, that is, until no child
  is left: the first exit of a child ends the pool (`ProcessPool.ChildExitEndsPool`).
- `parse_line` puts its two terminators one place too early: the first line is handed on
  without its last byte unless it contains a NUL (`HttpLine.LineLosesLastByte`), and the
  second line is always refused (`HttpLine.SecondLineIsBad`).  A line end at index 0
  would be written in front of the buffer; the model stops there with `Underflow`.
- A read that fills the buffer exactly is taken for the end of the stream
  (`HttpConn.Connection.Read`).
- `parse_headers` skips only tabs behind `Connection:`, so the line that the builder
  itself writes is not honoured (`HttpResponse.OwnLingerLineIgnored`); `HttpResponse.LingerHonoured` says
  which are.
- The announced length is right exactly for files up to INT_MAX (`HttpResponse.LengthIsRight`), and
  `process_write` reports failure for an empty file (`HttpResponse.NothingDropped`); it looks only at the
  result of adding the body, so that behind a nearly full buffer the body goes without its head
  (`HttpResponse.BodyWithoutHead`).

`src/include/time_heap.h` does not compile as it stands; `TimeHeap` models what it is meant to do,
with these repairs: the parent in `add_timer` is taken from `hole` (line 110),
`precolate_down` compares with the saved timer and looks for a child of the current position
before it goes on (lines 219-224), `resize` replaces the array once, after copying (lines 198-210), the
second constructor uses `size` and `capacity` (line 52), and the capacity is positive.
`HeapAsWritten` keeps the two loops as published and states exactly when they work.

## Model

| member | source | states |
|---|---|---|
| SortedTimers.AdjustSorts | src/include/lst_timer.h:70-93 | on an otherwise sorted list, the list after adjusting is sorted if and only if the new expiry is not below the predecessor's, and is then the result of removing the timer and inserting it behind all equal expiries |
| SortedTimers.MoveIsReinsert | src/include/lst_timer.h:70-93 | raising an expiry and adjusting equals remove followed by stable insert, for head, middle, tail and early return alike |
| SortedTimers.StepRepresents | src/include/lst_timer.h:49-177 | every legal operation keeps the list exactly the live timers in the order of expiry and, among equals, of scheduling |
| SortedTimers.StepFires | src/include/lst_timer.h:131-153 | a tick fires exactly the timers with expire <= now, each once, by expiry and then by scheduling order |
| SortedTimers.ListRefinesService | src/include/lst_timer.h:49-177 | over every legal run of add, adjust, delete and tick the list fires what the timer service fires, in order, and ends holding what the service holds |
| LstTimer.SortTimerLst.AddTimer | src/include/lst_timer.h:49-68 | the linked list afterwards is the stable insertion of the timer, well formed in both directions, also when the list was drained before and `tail` is stale |
| LstTimer.SortTimerLst.AddAfter | src/include/lst_timer.h:157-177 | the scan from behind a start node inserts before the first strictly later expiry, or at the tail |
| LstTimer.SortTimerLst.AdjustTimer | src/include/lst_timer.h:70-93 | the links, head and tail are well formed again and the contents are those of the adjusted list, sorted or not |
| LstTimer.SortTimerLst.DelTimer | src/include/lst_timer.h:96-128 | exactly the given timer leaves the list, whether alone, at the head, at the tail or between |
| LstTimer.SortTimerLst.Tick | src/include/lst_timer.h:131-153 | the maximal expired prefix is fired in order and dropped, and the rest is a well-formed list |
| Wheels.StepRepresents | src/include/time_wheel_timer.h:80-179 | each operation keeps every timer in the slot of its expiry with the rotations it still has to wait, newest first |
| Wheels.StepFires | src/include/time_wheel_timer.h:142-179 | a tick fires exactly the timers due at this tick, newest scheduling first |
| Wheels.Countdown | src/include/time_wheel_timer.h:96-98 | slot distance modulo 60 plus 60 times the rotation is the number of ticks still to wait |
| Wheels.WheelRefinesService | src/include/time_wheel_timer.h:80-179 | over every legal run the wheel fires each timer when as many ticks have gone by as whole intervals fit into its timeout, or one, and keeps the rest |
| Wheels.AddHangsFor | src/include/time_wheel_timer.h:87-109 | adding means: at the head of slot (cur + d) mod 60 with d/60 turns, for d = 1 if the timeout is below the interval and else d*SI <= timeout < (d+1)*SI; and nothing else means that |
| WheelTheorems.FiresExactlyOnce | src/include/time_wheel_timer.h:80-179 | a timer left alone fires at the (d+1)-th tick after it was added and at no other operation, where d is the number of whole intervals in its timeout, or one; with the published interval d is the timeout, or 1 for 0 |
| WheelTheorems.VisitCost | src/include/time_wheel_timer.h:142-179 | a timer with k ticks to wait is visited k/60+1 times until it has fired, and once in any 60 consecutive ticks it lives through |
| WheelTheorems.WheelMirrorsList | src/include/time_wheel_timer.h:80-179 | driven by the same run, wheel and sorted list fire the same timers at every operation, in opposite orders |
| WheelTheorems.WheelHoldsSameAsList | src/include/time_wheel_timer.h:80-179 | after the same run, wheel and sorted list hold the same timers |
| TimeWheelTimer.TimeWheel.AddTimer | src/include/time_wheel_timer.h:80-110 | a fresh node becomes the head of the chain of its slot with its rotation; a negative timeout gives null and changes nothing |
| TimeWheelTimer.TimeWheel.DelTimer | src/include/time_wheel_timer.h:113-139 | exactly the given timer leaves the wheel and all 60 chains stay well linked |
| TimeWheelTimer.TimeWheel.Tick | src/include/time_wheel_timer.h:142-179 | the walk over the current chain visits each node once, fires those without rotations, turns the others, unlinks in place and advances the slot |
| Heaps.SiftUpOrders | src/include/time_heap.h:104-121 | sifting up repairs a heap that is out of order only between the hole and its parent |
| Heaps.SiftDownOrders | src/include/time_heap.h:212-231 | sifting down orders the subtree of a position whose children's subtrees are ordered |
| Heaps.HeapifyOrders | src/include/time_heap.h:74-77 | bottom-up sifting turns any array into a heap |
| Heaps.DrainSplits | src/include/time_heap.h:160-184 | repeated popping removes exactly the entries with expire <= now and leaves a heap of exactly the others |
| Heaps.DrainAscends | src/include/time_heap.h:160-184 | the entries come off in non-decreasing expiry order |
| TimeHeap.TimeHeap.AddTimer | src/include/time_heap.h:91-122 | the heap afterwards holds the old timers and the new one in heap order; the array doubles exactly when it was full |
| TimeHeap.TimeHeap.Resize | src/include/time_heap.h:189-211 | doubling keeps every timer at its index |
| TimeHeap.TimeHeap.Build | src/include/time_heap.h:52-79 | the array constructor fails exactly when the capacity is too small, and otherwise gives a heap of exactly the given timers |
| TimeHeap.TimeHeap.DelTimer | src/include/time_heap.h:126-133 | the timer keeps its place and loses its callback |
| TimeHeap.TimeHeap.Top | src/include/time_heap.h:136-143 | null exactly when empty, otherwise a timer that no other precedes |
| TimeHeap.TimeHeap.PopTimer | src/include/time_heap.h:145-158 | the root and nothing else leaves the heap |
| TimeHeap.TimeHeap.PercolateDown | src/include/time_heap.h:212-231 | the loop with a saved timer and a moving hole computes the sift by swaps |
| TimeHeap.TimeHeap.Tick | src/include/time_heap.h:160-184 | every expired entry is popped, and the callbacks invoked are those of the expired entries that still have one, each once, in non-decreasing expiry order |
| LazyTimers.LazyRefinesEager | src/include/time_heap.h:91-184 | in every run, however ties fall, the lazy heap runs exactly the callbacks due when cancelled timers are deleted at once |
| LazyTimers.DeletedStaysSilent | src/include/time_heap.h:126-184 | no callback of a deleted timer ever runs |
| LazyTimers.HeapMatchesList | src/include/time_heap.h:91-184 | driven by the same run, heap and sorted list invoke the same multiset of callbacks at every operation |
| LazyTimers.FromEmpty | src/include/time_heap.h:91-184 | both hold over every legal run that starts from an empty heap |
| HeapAsWritten.AddAsWrittenWorks | src/include/time_heap.h:104-121 | the published loop ends with a heap if and only if there are fewer than two timers or the new one is below neither of two middle entries |
| HeapAsWritten.AddAsWrittenFails | src/include/time_heap.h:108-121 | one input on which the published loop never ends, and one on which it breaks heap order |
| HeapAsWritten.DownAsWrittenWorks | src/include/time_heap.h:212-231 | the published sift-down stays in range and orders the subtree if and only if nothing has to move or one step that does not end in a leaf is enough |
| HeapAsWritten.DownAsWrittenFails | src/include/time_heap.h:212-231 | three timers with expiries 3, 1 and 2, where it reads behind the last one |
| IdleQueue.QueueIsLru | src/execution/timeout_server.cpp:129-225 | after every legal run the queue holds exactly the open connections with the time of their last activity, ordered by their most recent accept or data event |
| IdleQueue.TickClosesIdle | src/execution/timeout_server.cpp:60-64 | a tick closes a connection if and only if it has been idle for at least 3*TIMESLOT |
| IdleQueue.IdleBound | src/execution/timeout_server.cpp:117-237 | if successive ticks are at most G apart, at every moment every open connection has been idle for less than 3*TIMESLOT + G |
| TimeoutServer.ReceiveFits | src/execution/timeout_server.cpp:214-224 | renewing a lease and adjusting moves the connection to the end of list and queue alike, and the tables stay in step |
| TimeoutServer.Server.AcceptConnection | src/execution/timeout_server.cpp:129-150 | a new connection is appended with a full lease and can be found by its descriptor |
| TimeoutServer.Server.HandleInput | src/execution/timeout_server.cpp:186-225 | data renews the lease and moves the connection to the end; end of file, and an error other than EAGAIN, close and remove it; EAGAIN changes nothing |
| TimeoutServer.Server.TimerHandler | src/execution/timeout_server.cpp:60-72 | the tick closes exactly the stale front of the queue |
| TimeoutServer.Server.ServeBatch | src/execution/timeout_server.cpp:126-236 | one round handles its events in order, then at most one tick, exactly when SIGALRM was among the signals |
| TimeoutServer.Accounted | src/execution/timeout_server.cpp:126-236 | at every place of the batches, what the actions say is open is what the events say |
| TimeoutServer.Serve | src/execution/timeout_server.cpp:117-237 | at the first SIGTERM exactly those descriptors are open for which some event was a connection or data, after the last of these there was no end of file or failure, and no batch with SIGALRM ticked 15 seconds after it or later |
| ThreadPool.RunInv | src/include/thread_pool.hpp:70-118 | every interleaving keeps mutual exclusion, FIFO order, conservation of requests, the bound max+1 on the queue, and a wakeup for every queued request even when wait returns without a permit |
| ThreadPool.StepWakeups | src/include/thread_pool.hpp:71-117 | only a push adds a wakeup, and only a pop or an empty look with a permit in hand uses one up |
| ThreadPool.NoLostWakeup | src/include/thread_pool.hpp:71-117 | if wait never returns without a permit, queue length = permits + producers between push and post + workers between wait and pop, and the empty-queue branch is never taken |
| ThreadPool.HandedOnce | src/include/thread_pool.hpp:78-109 | the k-th accepted request is the k-th popped one and stays with the one worker that popped it |
| ThreadPool.RunHolder | src/include/thread_pool.hpp:94-117 | in every run a worker that has a request in hand is the one recorded as having popped it, last of all it popped |
| ThreadPool.DecidesByLength | src/include/thread_pool.hpp:71-83 | append turns a request away if and only if it finds max+1 in the queue, and takes it if and only if it finds at most max |
| ThreadPool.TakesWhatFits | src/include/thread_pool.hpp:71-83 | over every run of every pool, nothing is turned away while at most max+1 of the requests offered have not been popped |
| ThreadPool.FullQueueRejects | src/include/thread_pool.hpp:71-83 | every pool with a producer has a run that fills the queue to max+1 with nothing turned away, and the append after that is turned away |
| ThreadPool.SomeoneCanMove | src/include/thread_pool.hpp:71-117 | whenever the queue is not empty some thread has an enabled step |
| ThreadPool.RunIsBounded | src/include/thread_pool.hpp:71-117 | a measure over permits, pending posts and program counters bounds the steps of every schedule, given its appends and stray wakeups |
| ThreadPool.AllServed | src/include/thread_pool.hpp:71-117 | a schedule without internal steps left has popped and finished every accepted request |
| ThreadPool.EveryRequestIsServed | src/include/thread_pool.hpp:71-117 | from every state that keeps the invariant: a run of internal steps is no longer than the measure, and it goes on or has served everything accepted |
| ThreadPool.Reachable | src/include/thread_pool.hpp:70-118 | every state that any pool reaches from its start keeps the invariant, and the exact wakeup count when wait never returns without a permit |
| ThreadPool.ReachableIsServed | src/include/thread_pool.hpp:71-117 | whatever a pool with a worker has been through, its own threads can pop and finish all it has accepted within the measure |
| Dispatch.SelectIsFirstFree | src/include/process_pool.hpp:346-360 | the search finds a child that is alive and free if and only if there is one, and then the first in ring order |
| Dispatch.Parent.Select | src/include/process_pool.hpp:346-357 | the do-while loop ends after at most one round where the search function says |
| Dispatch.Parent.OnConnection | src/include/process_pool.hpp:343-385 | the child returned was alive and not busy, is the first such in ring order, is marked busy, and the round robin moves behind it; -1 and nothing changed if and only if there was none |
| Dispatch.Parent.OnNotice | src/include/process_pool.hpp:466-478 | the loop clears the flag of the least k whose slot of the event array holds pipe k, if there is one, whichever pipe reported |
| Dispatch.ReleaseIsRight | src/include/process_pool.hpp:469-477 | whatever the slots hold, the loop clears exactly the flag of child j if and only if slot j holds pipe j and no earlier slot holds its own pipe; with that flag down already, if and only if what is found first is down too |
| Dispatch.Parent.OnNoticeRepaired | src/include/process_pool.hpp:469-477 | with the descriptor that reported in place of the slot, exactly the reporter's flag is cleared |
| Dispatch.Parent.Handle | src/include/process_pool.hpp:339-484 | the body of the loop over an epoll result, as published; the child that is sent a token is the one that was alive and idle and is marked busy, and there is none for any entry but the listening socket |
| Dispatch.Parent.OnChildExit | src/include/process_pool.hpp:402-442 | exactly the slots of the joined pids become -1, and the parent stops if and only if no child is left |
| ProcessPool.TokenGoesToMarked | src/include/process_pool.hpp:343-385 | on a connection one child is sent a token, the one that was alive and idle and is marked busy; otherwise none |
| ProcessPool.OneConnectionEach | src/include/process_pool.hpp:222-477 | throughout a run, unread tokens, live connections and undelivered notices of each running child stay within its busy flag if and only if no notice clears the flag of another child that has something outstanding |
| ProcessPool.RightRunIsSafe | src/include/process_pool.hpp:222-477 | so they do in every run under the repaired lookup, and in every published run whose notices find their reporter |
| ProcessPool.RepairChanges | src/include/process_pool.hpp:469-477 | on any run the published parent goes through the same states as the repaired one if and only if every notice finds its reporter |
| ProcessRuns.SafeExactlyForOne | src/include/process_pool.hpp:466-477 | as published, no child ever serves two connections at once if and only if the pool has one child |
| ProcessRuns.NoticeCanBeLost | src/include/process_pool.hpp:466-477 | as published, every pool has a run without a failed accept after which a free child stays marked busy as long as it runs |
| ProcessRuns.StaleSlotClears | src/include/process_pool.hpp:469-477 | as published, in every pool of three or more the notice of one child can clear the flag of another that has reported nothing |
| ProcessRuns.FailedAcceptSticks | src/include/process_pool.hpp:236-242 | under either lookup, a failed accept right after the start leaves its child marked busy as long as it runs |
| ProcessPool.RepairedPool | src/include/process_pool.hpp:222-477 | under the repaired lookup, in every reachable state: the load of a running child is within its flag, and a flag that is up can come down if and only if no accept of the child has failed |
| ProcessPool.FlagComesBack | src/include/process_pool.hpp:236-477 | under the repaired lookup the flag of a running busy child can come down if and only if it has a token, a connection or a notice outstanding |
| ProcessReturn.FlagComesBackAsWritten | src/include/process_pool.hpp:466-477 | as published, while no child has exited: if and only if there is a token, a connection or a notice to come, or the child's slot holds its pipe by chance and another notice can find it |
| ProcessReturn.NeverBack | src/include/process_pool.hpp:466-477 | as published, and also after other children have exited, without these nothing clears the flag while the child runs |
| ProcessPool.StuckForever | src/include/process_pool.hpp:236-477 | once a child is busy with nothing outstanding, and its slot does not hold its pipe or the lookup is the repaired one, no run clears its flag or sends it a token while it runs |
| ProcessPool.ChildExitEndsPool | src/include/process_pool.hpp:402-442 | from the handling of the first SIGCHLD on all children are gone, the parent stops, nobody is served, and only the entries of the present result are left |
| ProcessPool.StepCloser | src/include/process_pool.hpp:343-379 | an assignment to another child lowers the ring distance to a child that stays free |
| ProcessPool.BoundedWait | src/include/process_pool.hpp:343-379 | while a child stays alive and free at most m_process_number - 1 connections go to others |
| HttpLine.ScanOutcome | src/httpConn/http_conn.cpp:95-133 | every status, the index and the bytes after it, in terms of the first line-end byte, from any start |
| HttpLine.ChunkingIsInvisible | src/httpConn/http_conn.cpp:95-163 | however the input is cut into reads, scanning again after each LINE_OPEN ends with the status, index and bytes of one scan of the whole |
| HttpLine.LineLosesLastByte | src/httpConn/http_conn.cpp:113-114 | the text handed on is the line without its last byte, and is the line if and only if that contains a NUL |
| HttpLine.NextScan | src/httpConn/http_conn.cpp:109-127 | the next scan starts behind the line exactly when this one started on its LF; otherwise it reports a bad line |
| HttpLine.SecondLineIsBad | src/httpConn/http_conn.cpp:95-133 | the scan after the first line of a connection reports a bad line, whatever follows |
| HttpConn.Connection.ParseLine | src/httpConn/http_conn.cpp:95-133 | the loop over the buffer computes the scan of the bytes received, from the index reached |
| HttpConn.Connection.Read | src/httpConn/http_conn.cpp:135-163 | however recv cuts the data, it is appended as far as there is room; success exactly when it did not fill the buffer and the socket would block |
| HttpConn.Connection.ParseHeaders | src/httpConn/http_conn.cpp:222-263 | the length, linger and content state after one line are those of the header parser |
| HttpConn.Connection.AddResponse | src/httpConn/http_conn.cpp:422-438 | a text is committed whole if and only if at most 1022 bytes are committed then, and otherwise the committed bytes are unchanged |
| HttpConn.Connection.ProcessWrite | src/httpConn/http_conn.cpp:481-552 | the buffer holds the reply described for the code, the result says whether it counts as success, and the vectors cover the committed bytes |
| HttpResponse.WritesAppend | src/httpConn/http_conn.cpp:422-552 | committed bytes are only ever appended to, and never exceed 1022 |
| HttpResponse.HeadersInOrder | src/httpConn/http_conn.cpp:445-452 | from any buffer the headers are committed in order up to the first that does not fit |
| HttpResponse.BodyWithoutHead | src/httpConn/http_conn.cpp:481-494 | a buffer of 1003 to 1008 bytes where the page is committed without status line and headers and success is reported |
| HttpResponse.NothingDropped | src/httpConn/http_conn.cpp:481-552 | from an empty buffer every error and file reply is committed in full although header results are ignored; only the empty file reports failure |
| HttpResponse.Replies | src/httpConn/http_conn.cpp:481-552 | from an empty buffer a recipient reads, for each code, its status line, its length, what becomes of the connection, and its text |
| HttpResponse.AtolUndoesDecimal | src/httpConn/http_conn.cpp:243-249 | reading a number back from its decimal text gives the number |
| HttpResponse.AtolReads | src/httpConn/http_conn.cpp:243-249 | a number is read behind spaces and tabs, up to the first byte that is no digit |
| HttpResponse.LinesRead | src/httpConn/http_conn.cpp:222-263 | after any header lines the length is that of the last Content-Length line, linger is set if it was or a Connection line is honoured, and nothing else has changed |
| HttpResponse.HeadRead | src/httpConn/http_conn.cpp:222-263 | after a whole head the empty line reports the request complete if and only if that length is 0, and otherwise moves on to the content |
| HttpResponse.EncodeSplits | src/httpConn/http_conn.cpp:440-472 | cutting a reply at its line ends gives back its three head lines and its body |
| HttpResponse.LengthIsRight | src/httpConn/http_conn.cpp:243-552 | the Content-Length line of a reply, parsed by parse_headers, is the number of body bytes if and only if no file above INT_MAX is sent |
| HttpResponse.LingerHonoured | src/httpConn/http_conn.cpp:233-242 | a Connection value is honoured if and only if it is keep-alive with optional white space around it, up to case, and no space is among that white space and no tab behind the word |
| HttpResponse.OwnLingerLineIgnored | src/httpConn/http_conn.cpp:459-462 | the keep-alive line that the builder writes is not recognised by parse_headers |

## Left out

- Int overflow of `cur_slot + offset` in the wheel (timeouts above INT_MAX - 59) and of `time_t`: the timer containers use mathematical integers.
- What callbacks do: they are taken not to touch the container, and `cb_func` of the timeout server is "the connection is closed".
- Freeing of nodes, destructors and allocation failure: a deleted timer is one that is no longer in the container.
- The heap as published, apart from `HeapAsWritten`: see the repairs above.
- ThreadPool.RunInv: threads are steps on values, not methods on shared fields, because an interleaving of two methods cannot be written as one; `m_max_requests` is the constructor's argument (line 33 of the file initialises it from itself), `m_stop` stays false, and thread creation is not modelled.
- ProcessPool.OneConnectionEach: steps on values for the same reason, with the parent's handling of one entry tied to `Dispatch.Parent.Handle`; busy flags start at zero (they are uninitialised at line 133 of the file), one result reports everything that came before it on a pipe, entries are readable ones, a closed connection is what makes `process()` return 0, and SIGTERM is a child that may exit at any time.
- ProcessReturn.FlagComesBackAsWritten: once another child has exited only `NeverBack` is stated, because which pipes can still report then depends on how often; the first SIGCHLD ends the pool anyway.
- Dispatch.Parent.OnChildExit: takes the pids that `wait` returns; that they are all living children is in the protocol step.
- HttpConn.Connection.ParseLine: stops with Underflow where the code would write in front of the buffer.
- HttpConn.Connection.AddResponse: takes the text after formatting; only `%d` and `%s` as the wrappers use them are modelled.
- HttpResponse.LengthIsRight: `atol` is over unbounded numbers before the conversion to int, which differs from the library only beyond the range of long.
- The Host header value, the request line, `do_request` and the file mapping: no property here depends on them.
- `process_read`, `parse_content` and `write`: their loop condition and send accounting do not implement the intended driver.
- Sockets, epoll, signals, fork and pipes: events and results are parameters, or steps that may happen.
- `src/include/locker.h`: wait, post, lock and unlock are atomic steps.
- The chat room servers, `src/httpConn/web_server.cpp` and the small C demonstrations: input and output around system calls.
