# Verified model of myHttpServer

myHttpServer is a small C++11 web server. One thread accepts connections and hands each
socket to a pool of worker threads over a queue guarded by a mutex and a condition
variable; a worker reads one request, answers it and closes the socket. Beside that stand an
array min-heap of timers, a logger whose line layout is compiled from a pattern, and
WebBench, the load generator shipped with it. This project states what those parts do in
Dafny and proves it for every input, every schedule and every run.

Check everything with `dafny verify dfyconfig.toml`.

## Contents

| file | subject |
|---|---|
| `worker_pool.dfy`, `worker_pool_runs.dfy` | the pool and the accept loop as an interleaved step system; what every run keeps, how long it is, where it ends |
| `thread_schedule.dfy`, `thread_pool.dfy` | the control flow of `PushTask`, the accept loop and `ThreadRoutine` on the shared object, other threads' steps running between any two statements |
| `pool_instance.dfy` | `GetThreadPool`, the double-checked creation of the pool |
| `heap_order.dfy` | hole moves of the timer heap on sequences: order, contents, cost |
| `time_heap.dfy` | `TimeHeap` on its array, with ownership |
| `timer_runs.dfy`, `timer_replay.dfy` | whole runs of adds, cancels, pops and ticks; the array object follows them |
| `log_pattern.dfy`, `log_formatter.dfy` | the pattern language; the scanner, resolver and formatter |
| `line_reading.dfy`, `request_text.dfy`, `request_reader.dfy` | lines, request line and headers; the socket and the endpoint that reads them |
| `bench_request.dfy`, `bench_attempts.dfy` | WebBench's request builder against the server's reader, and its attempt accounting |
| `delivery.dfy` | sending a response, and the loops that survive short writes |
| `totals.dfy`, `options.dfy` | sums and bags over thread positions; a value that may be missing |

## How the parts are modelled

* **Pool.** A step is one statement that the mutex, the condition variable or the kernel makes
  atomic; any number of workers and pushers interleave freely. `pthread_cond_wait` and
  `pthread_cond_signal` follow IEEE Std 1003.1-2017, System Interfaces: waiting releases the
  mutex and blocks in one step, a signal wakes one or more waiting threads if there is one, and
  a waiting thread may wake without a signal. The size that `PushTask` reads after unlocking
  (`src/thread_pool.cc:36`) is taken as sequentially consistent. The kernel may hand out any
  socket number that is not open, so closed numbers come back.
* **Timer heap.** `src/timer.cc` is not in the build list (`CMakeLists.txt:14-21`) and has
  spelling slips (`src/timer.cc:29`, `57`, `69`, `91`); the model is the evident algorithm.
  Doubling a capacity of 0 gives 0 (`src/timer.cc:101-106`), so adding to a full heap asks for a
  capacity of at least 1. A callback is a flag and does not touch the heap; each timer object is
  added once. Making a timer, which fixes its expiry, and adding it are two events with their own times. Which timers are freed is recorded, and every read through a timer pointer has the
  precondition that the timer has not been freed, the slot left behind by a pop included.
* **Log patterns.** The scanner is modelled branch by branch, its brace state, index and
  backtracking included. A name runs over letters and over `}`; `%%` makes the first `%` literal
  and lets the second start an item; an unclosed `{` leaves an error item, keeps the pending
  literal for later and goes on right after the `%`.
* **Request reader.** A socket is all the bytes that will ever come, then end of stream or a
  read error. `ReaLine` takes CRLF and LF as line ends, as section 3.5 of RFC 7230 and section 2.2 of
  RFC 9112 allow, and also a bare CR, which they do not. A bare CR before an LF is not a case of its
  own: the bytes are those of a CRLF and are read as one (`CrThenLfIsCrLf`), which is the exception in
  `RequestFraming`. The getters of `HttpRequest` return copies (`include/protocal.h:48`, `49`, `65`), so
  header lines, the blank line and header pairs are never stored; the model keeps that, and has the
  Content-Length loop that therefore never runs. The stop flag starts false, which the constructor in
  use does not set (`include/protocal.h:145`, `165`).
* **WebBench.** The builder's globals are the fields of a class; the measuring loop takes the
  outcome of every system call, and the moment the timer expires, as input.

The repository's own `README.md` speaks of epoll, a reactor and long connections. The code has one
blocking accept loop and one request per connection, and the model follows the code.

## What turned out false, and exactly when it holds

* The pool, at rest, has an empty queue, and has closed every socket, **if and only if** it has a worker
  or nothing was pushed: `QuietIsDrainedWithWorkers`, with a run in `NoWorkerNoService`.
* `GetThreadPool` can return a pool whose workers have not been started, because the pointer is set
  first: `EarlyReturn`. A call is safe from that, whatever the other threads do, **if and only if** its
  unlocked check finds no pool yet or one that has been started (`CallIsSafe`), and some run has such a
  return **if and only if** there are two callers at least (`EarlyNeedsTwo`).
* Callbacks do not always come in the order of expiry, even with delays of at least 0 on a clock that
  does not go back: a tick may fall between the making of a timer and its adding (`LateAddMisorders`, and
  `LateAdd` on the heap itself). Without such a tick they do (`PromptCallsAreSorted`); adding a timer keeps
  the order **if and only if** no later expiry has been called (`OnTimeIsNeeded`).
* Printing the tokens of a pattern gives the pattern back **if and only if** no item brace is left
  open and no item ends in an empty `{}`: `PatternLossless`. `%d{}` and `%d{` do not come back
  (`LossyPatterns`). `%%` is harmless here, since the second `%` is not lost.
* Scanning a printed token list gives the list back **if and only if** it is well formed:
  `TokensRoundTrip`. The item `%d` and the literal `x` after it print as another item (`LetterJoinsItem`).
* The server reads a WebBench request back, to its last byte, **if and only if** the target has no white
  space and the host, where a Host line is sent, neither ends in a line end nor has two in a row:
  `UrlIsServed`, and `Exchange` on the two programs' objects. `http://127.0.0.1`, a LF and `/` make a
  request that is not read to its end (`HostWithLineFeed`); the path of `http://a/b c` does not come back
  (`PathWithSpace`).
* On a request that stays at HTTP/0.9 the server stops **if and only if** the target neither ends in a
  line end nor has two in a row (`OldRequestStops`); one that it answers is in `OldRequestAnswered`.
* A response reaches the client whole **if and only if** one call each takes all of the status line, of
  every header, of the blank line and of a static page, and the calls for a CGI program's output keep
  making progress: only that output is retried (`SendHttpResponse`). A first call that takes one character
  of the status line is enough to lose it (`ShortStatusLine`).

## Model

| member | source | states |
|---|---|---|
| `WorkerPool.ExclusionKept` | src/thread_pool.cc:33-35 | every step keeps: only the mutex owner is inside a critical section, and what a worker saw of the queue there is still true when it waits or pops |
| `WorkerPool.CoveredKept` | src/thread_pool.cc:31-40 | every step, the unlocked size read and spurious wake-ups included, keeps the wake-up count |
| `WorkerPool.WakeCounts` | src/thread_pool.cc:78-81 | a signal while someone waits raises the number of workers seeking work by at least one |
| `WorkerPool.ConservedKept` | src/thread_pool.cc:57-69 | every step keeps: accepted = in pushers' hands + pushed, pushed = dequeued followed by queue, dequeued = in workers' hands + closed |
| `WorkerPool.LiveFlow` | src/http_server.cc:27-53 | a step adds to the live connections what it accepts and takes away what it closes, nothing else |
| `WorkerPool.LiveOnce` | src/thread_pool.cc:83-87 | no connection is in two places, live and closed at once, or pushed or dequeued twice |
| `WorkerPool.SocketsMatchKept` | src/protocal.cc:532-543 | every step keeps: the kernel's open sockets are those of the live connections, one each, though numbers are reused |
| `WorkerPool.KernelChoices` | src/http_server.cc:31-31 | accept may return any number that is not open, a signal may wake any waiting workers and must wake one if there is one, and any waiting worker may wake by itself |
| `WorkerPoolRuns.ThreadsAsAsked` | src/thread_pool.cc:22-29 | in every run the pool has exactly the workers and accept loops it was made with |
| `WorkerPoolRuns.NoLostWakeup` | src/thread_pool.cc:31-40 | in every reachable state with a waiting worker, queue length is at most the number of workers about to lock, test, relock or pop plus the number of pushers between their push and the end of their check and signal |
| `WorkerPoolRuns.SocketsSafe` | src/http_server.cc:27-53 | in every reachable state sockets in a pusher's hands, in the queue or with a worker are open and pairwise distinct |
| `WorkerPoolRuns.SocketsConserved` | src/thread_pool.cc:57-69 | over every run: dequeued in push order, each accepted connection in exactly one place or closed, none pushed or closed twice |
| `WorkerPoolRuns.ServedInAcceptOrder` | src/http_server.cc:27-53 | with the one accept loop, the connections dequeued are always the first ones accepted, in accept order |
| `WorkerPoolRuns.StepPays` | src/thread_pool.cc:57-81 | every step of the program lowers the work measure; an accept or a spurious wake-up raises it by a stated amount at most |
| `WorkerPoolRuns.RunBounded` | src/thread_pool.cc:57-81 | a run's length is bounded by the work it starts with and what accepts and spurious wake-ups bring in |
| `WorkerPoolRuns.RunInNumbers` | src/thread_pool.cc:57-81 | with w workers, a run from the start is at most 3w steps, 11 + 3w more for each accepted connection and 4 more for each spurious wake-up |
| `WorkerPoolRuns.MeasureInNumbers` | src/thread_pool.cc:57-81 | the measure is at most 5 for a queued connection, 5 for a worker, 10 for a pusher and 3 for each worker and pusher together |
| `WorkerPoolRuns.NextMover` | src/thread_pool.cc:31-40 | unless all workers wait and all pushers are in accept, someone can move without a new connection or spurious wake-up |
| `WorkerPoolRuns.StuckIsDrained` | src/thread_pool.cc:61-64 | the program cannot move exactly when all wait; with a worker, the queue is then empty and every accepted socket closed once |
| `WorkerPoolRuns.EveryScheduleDrains` | src/thread_pool.cc:57-81 | once accepts stop, every schedule from every reachable state is bounded and, when it cannot go on, has drained the queue and closed every socket |
| `WorkerPoolRuns.SomeScheduleDrains` | src/thread_pool.cc:57-81 | such a schedule exists from every state |
| `WorkerPoolRuns.QuietIsDrainedWithWorkers` | src/thread_pool.cc:22-29 | everyone waiting means an empty queue, and also no open socket, if and only if there is a worker or nothing was pushed |
| `WorkerPoolRuns.NoWorkerNoService` | src/thread_pool.cc:22-29 | a concrete run in which a pool without workers keeps a connection for ever |
| `ThreadPools.ThreadPool.constructor` | src/thread_pool.cc:22-50 | a new pool has as many workers as asked for, each about to take the mutex, an empty queue, a free mutex and no open socket, which is the initial state of the step system |
| `ThreadPools.ThreadPool.PushTask` | src/thread_pool.cc:31-40 | the source's statements in their order, any steps of other threads between them, end where the step system ends, with the pusher back in accept |
| `ThreadPools.ThreadPool.AcceptOne` | src/http_server.cc:27-53 | the same for one round of the accept loop, whose own statements accept one connection and queue that one |
| `ThreadPools.ThreadPool.Loop` | src/http_server.cc:24-54 | and for any number of rounds |
| `ThreadPools.ThreadPool.CondWait` | src/thread_pool.cc:73-76 | waiting returns with the mutex held, woken by a signal or not |
| `ThreadPools.ThreadPool.ServeOne` | src/thread_pool.cc:60-68 | one round of a worker, its waiting loop included, among any steps of other threads: it ends where the step system ends, and its own statements dequeue one connection and close that one |
| `ThreadPools.ThreadPool.ThreadRoutine` | src/thread_pool.cc:52-71 | and any number of rounds |
| `ThreadSchedule.OthersLeave` | src/thread_pool.cc:31-71 | other threads never move a thread, except a waiting worker by a signal |
| `ThreadSchedule.StatementDone` | src/thread_pool.cc:31-71 | whatever the others do first, a thread's next step is the statement it stands at, and that leads to the next one |
| `ThreadSchedule.StatementsInOrder` | src/thread_pool.cc:31-71 | a thread's own steps come in the order of the source, statement by statement: a signal exactly after a size that was not 0, a wait exactly after an empty queue was seen, a pop after a nonempty one |
| `ThreadSchedule.RoundStarts` | src/thread_pool.cc:58-60 | a round starts with an accept, or with taking the mutex |
| `ThreadSchedule.RoundServesOne` | src/thread_pool.cc:60-68 | every round of a worker dequeues exactly one connection and closes exactly that one |
| `ThreadSchedule.RoundBringsOne` | src/http_server.cc:27-53 | every round of an accept loop accepts exactly one connection and queues exactly that one |
| `ThreadSchedule.RoundIsRun` | src/thread_pool.cc:31-71 | a round of a thread with the others in between is a run of the step system |
| `ThreadSchedule.RoundsAreRun` | src/thread_pool.cc:58-69 | so are any number of rounds, to which what is proved of runs applies |
| `PoolInstance.OnePool` | src/thread_pool.cc:5-20 | at most one pool is ever made and started, and every caller that returns gets it |
| `PoolInstance.CallIsSafe` | src/thread_pool.cc:9-19 | a call never returns an unstarted pool, however the others run, if and only if its unlocked check finds no pool or a started one |
| `PoolInstance.SafeStays` | src/thread_pool.cc:11-17 | a call that goes through the mutex returns with the pool started |
| `PoolInstance.EarlyNeedsTwo` | src/thread_pool.cc:5-20 | some run returns an unstarted pool if and only if there are two callers at least |
| `PoolInstance.EarlyReturn` | src/thread_pool.cc:9-19 | for any number of callers from two on, a run in which the second returns before any worker exists |
| `HeapOrder.DownHeap` | src/timer.cc:86-98 | sifting down restores order below a hole when it can only fail there |
| `HeapOrder.UpHeap` | src/timer.cc:44-52 | sifting up restores order when it can only fail between the hole and its parent |
| `HeapOrder.DownLands` | src/timer.cc:86-98 | sifting down puts the timer exactly as many levels below the hole as entries are moved |
| `HeapOrder.DownFirst` | src/timer.cc:91-95 | it stays exactly when no child is strictly earlier; otherwise the earlier child moves up, the left one when both are equal |
| `HeapOrder.UpLands` | src/timer.cc:46-52 | sifting up puts the timer exactly as many levels above the hole as entries are moved, below the first parent that is not later |
| `HeapOrder.AddKeeps` | src/timer.cc:39-53 | adding keeps the heap order and adds exactly the timer |
| `HeapOrder.PopKeeps` | src/timer.cc:60-67 | popping keeps the heap order and removes exactly the root |
| `HeapOrder.RootIsLeast` | include/timer.h:43 | the top expires no later than any timer |
| `HeapOrder.BuildMakesHeap` | src/timer.cc:25-30 | bottom-up construction makes any array a heap of the same timers |
| `HeapOrder.BuildIsLinear` | src/timer.cc:28-29 | all its sifts together move fewer entries than the heap has |
| `HeapOrder.FourBackwards` | src/timer.cc:28-29 | four timers in the wrong order take two sifts, of one move and of two |
| `HeapOrder.HeightsLinear` | src/timer.cc:28-29 | heights over any prefix of positions sum to less than the size |
| `HeapOrder.AddIsLogarithmic` | src/timer.cc:46-51 | adding to n timers moves at most log2(n + 1) of them |
| `HeapOrder.DownIsLogarithmic` | src/timer.cc:89-96 | sifting down from the root of n timers moves at most log2(n) of them |
| `HeapOrder.PopAllSorts` | src/timer.cc:60-67 | popping a heap until it is empty yields its timers sorted |
| `HeapOrder.BuildThenPopAllSorts` | src/timer.cc:16-31 | so any array comes back as a sorted permutation |
| `HeapOrder.TickSplits` | src/timer.cc:69-84 | tick removes exactly the timers that are due, earliest first, and keeps the heap of the others |
| `TimeHeaps.TimeHeap.constructor` | src/timer.cc:7-14 | an empty valid heap of the asked capacity |
| `TimeHeaps.TimeHeap.FromArray` | src/timer.cc:16-31 | fails exactly when the array does not fit; otherwise a valid heap of its timers after at most size moves |
| `TimeHeaps.TimeHeap.SiftAll` | src/timer.cc:28-29 | the construction loop in place, its moves fewer than the timers |
| `TimeHeaps.TimeHeap.AddTimer` | src/timer.cc:39-53 | a null timer changes nothing; otherwise the timer is added in logarithmically many moves, capacity doubles exactly when full, and the pointers copied are counted |
| `TimeHeaps.TimeHeap.SiftUp` | src/timer.cc:44-52 | the moving hole in place ends where sifting up ends, in as many moves |
| `TimeHeaps.TimeHeap.DelTimer` | src/timer.cc:55-58 | cancelling takes the callback away and nothing else |
| `TimeHeaps.TimeHeap.PopTimer` | src/timer.cc:60-67 | nothing on an empty heap; otherwise the root is freed once and the heap stays valid, after logarithmically many moves |
| `TimeHeaps.TimeHeap.Tick` | src/timer.cc:69-84 | frees the due timers in order, calls those not cancelled, never reads a freed timer |
| `TimeHeaps.TimeHeap.Destroy` | src/timer.cc:33-37 | frees every live timer, after which every timer ever handed over has been freed exactly once |
| `TimeHeaps.TimeHeap.PercolateDown` | src/timer.cc:86-98 | the moving hole in place ends where sifting down ends, in as many moves |
| `TimeHeaps.TimeHeap.Resize` | src/timer.cc:100-111 | doubles the capacity and keeps the live timers in place |
| `TimeHeaps.PopBag` | src/timer.cc:62-65 | popping moves one timer from live to freed and leaves ownership intact |
| `TimeHeaps.TickedMeans` | src/timer.cc:72-82 | the loop of tick computes the split of the heap into due and later timers |
| `TimerRuns.TimersArePunctual` | src/timer.cc:39-84 | over every run each timer is live or left once; a tick takes a timer at the first tick since its adding that reaches its expiry, and calls it exactly if it was never cancelled |
| `TimerRuns.CallsAreSorted` | src/timer.cc:69-84 | callbacks are called in order of expiry over a whole run whose timers are added on time |
| `TimerRuns.PromptIsOnTime` | src/timer.cc:3-5 | a timer made with a delay of at least 0 and added before any tick comes between is on time |
| `TimerRuns.PromptCallsAreSorted` | src/timer.cc:3-84 | on a clock that does not go back, with delays of at least 0 and no tick between making and adding, every run calls in order of expiry |
| `TimerRuns.LateAddMisorders` | src/timer.cc:3-84 | a run with delays 8 and 5, both made at time 0, a tick before the second is added: the timers are called in the wrong order |
| `TimerRuns.OnTimeIsNeeded` | src/timer.cc:39-84 | adding a timer keeps the calls sorted whatever the next tick if and only if it is on time |
| `TimerRuns.LogAfterTick` | src/timer.cc:77-78 | one tick appends to the calls the due timers that are not cancelled, in order |
| `TimerRuns.GrowthIsLinear` | src/timer.cc:100-111 | over every run the live timers fit and resizes copy fewer pointers than twice the timers ever held |
| `TimerReplay.Perform` | src/timer.cc:39-84 | each call on the array heap is the matching step of the run: contents, capacity, frees, calls, cancellations |
| `TimerReplay.Replay` | src/timer.cc:39-84 | so is any sequence of calls |
| `TimerReplay.Lifetime` | src/timer.cc:16-84 | from construction out of any array, through any calls, to destruction: each timer freed exactly once, copies linear, and calls sorted if each timer was added on time |
| `TimerReplay.LateAdd` | src/timer.cc:3-84 | the misordered run on the heap itself |
| `LogPattern.NameCharacters` | src/log.cc:355-357 | one character after a percent sign is an item name exactly for the 52 letters and the closing brace |
| `LogPattern.KnownNames` | src/log.cc:417-451 | the known names are eleven single letters, named one by one; any other name resolves to the error text with the name in it |
| `LogPattern.KnownNamesScan` | src/log.cc:348-388 | each of the eleven scans as itself, without an error |
| `LogPattern.OddPatterns` | src/log.cc:341-402 | two percent signs are a literal one and an empty item; an unclosed brace is the error text, and what was pending is joined to what comes after the percent sign |
| `LogPattern.DefaultPattern` | src/log.cc:208-208 | the pattern a logger starts with, token by token, without an error |
| `LogPattern.PieceOfItem` | src/log.cc:348-388 | an item printed before a text that does not continue it is scanned as that item |
| `LogPattern.WholePiece` | src/log.cc:348-397 | an item scanned took exactly what it prints as, or that and `{}`, the latter exactly when its text ends in an empty pair of braces |
| `LogPattern.PrintedSize` | src/log.cc:335-406 | for every pattern, how many characters and percent signs scanning and printing gain or lose |
| `LogPattern.PatternLossless` | src/log.cc:335-406 | printing a pattern's tokens gives the pattern back if and only if no item brace is open and no item ends in `{}` |
| `LogPattern.LossyPatterns` | src/log.cc:335-406 | `%d{}` and `%d{` do not come back |
| `LogPattern.CleanIsWellFormed` | src/log.cc:335-406 | the tokens of such a pattern are well formed |
| `LogPattern.TokensRoundTrip` | src/log.cc:335-406 | scanning a printed token list gives the list back if and only if it is well formed |
| `LogPattern.LetterJoinsItem` | src/log.cc:348-388 | `%d` with the literal `x` after it scans as another item |
| `LogPattern.CleanRendersItself` | src/log.cc:417-451 | with items that write themselves back, a clean pattern of known names formats as itself |
| `LogFormatters.LogFormatter.constructor` | src/log.cc:316-319 | the items are those of the pattern's tokens; the error flag is up exactly for an open item brace or an unknown name |
| `LogFormatters.LogFormatter.Init` | src/log.cc:330-452 | the same for the whole of init, resolving pass included |
| `LogFormatters.LogFormatter.ScanPattern` | src/log.cc:331-406 | the outer loop ends and yields the pattern's tokens |
| `LogFormatters.LogFormatter.ScanOne` | src/log.cc:335-403 | one round consumes one piece and advances the index |
| `LogFormatters.LogFormatter.ReadItem` | src/log.cc:348-388 | the inner loop with its brace state finds the item, or that its brace never closes |
| `LogFormatters.LogFormatter.Format` | src/log.cc:321-327 | formatting writes the items in order |
| `LogFormatters.ScanOnMeans` | src/log.cc:335-406 | the accumulating scan computes tokens and the count of open braces |
| `LineReading.LineIsFirst` | src/util.cc:3-41 | a line read is the first line of the normalised stream, and the rest normalises to the rest; without a line end everything is read |
| `LineReading.LineIsConsumed` | src/util.cc:8-29 | the line is the normal form of exactly the bytes consumed |
| `LineReading.NormalSplits` | src/util.cc:13-25 | normalising two parts is normalising the whole if and only if the cut is not inside a CRLF |
| `LineReading.ReadingIsSplitting` | src/util.cc:3-41 | reading line by line is normalising and then splitting after every LF |
| `LineReading.WrittenLineIsRead` | src/util.cc:8-29 | a written line is read back whole; only a bare CR takes a following LF with it |
| `LineReading.HeadersEndAtBlank` | src/protocal.cc:81-101 | the header reader stops right after the blank line, with the one exception of a bare CR before an LF |
| `LineReading.BlankLineExists` | src/protocal.cc:84-99 | from a line's start the header loop finds a blank line exactly when a line end comes next or two come in a row |
| `LineReading.BlankHeld` | src/protocal.cc:84-99 | between a plain prefix and a CRLF a text puts a blank line into the stream if and only if it ends in a line end or has two in a row |
| `LineReading.RequestFraming` | src/protocal.cc:63-101 | for any mix of line ends the readers stop exactly at the body if and only if the blank line's end does not swallow its first byte |
| `LineReading.CrThenLfIsCrLf` | src/util.cc:13-25 | a blank line ended by a bare CR before an LF is byte for byte one ended by CRLF |
| `RequestText.ThreeWords` | src/protocal.cc:105-115 | three words with spaces between them are parsed back |
| `RequestText.AnySpaces` | src/protocal.cc:108-110 | the three words of a request line are read whatever white space, of six characters given by code, stands around them and whatever follows |
| `RequestText.OneWord` | src/protocal.cc:108-110 | a line of one word is a method, with URL and version empty |
| `RequestText.UpperIs` | include/protocal.h:55-57 | the 26 small letters are raised, each to its own capital, and nothing else changes |
| `RequestText.AtoiReads` | src/protocal.cc:173-173 | a written number is read back after white space and a sign and before anything that is no digit |
| `RequestText.AtoiReadsNothing` | src/protocal.cc:173-173 | where no digit and no sign comes, 0 is read |
| `RequestText.TargetByMethod` | src/protocal.cc:118-150 | the CGI flag goes up exactly for a POST, the status is 200 for GET and POST and 400 otherwise, a POST names its whole URL, any other method nothing |
| `RequestText.ParsedUrlIsWord` | src/protocal.cc:109-110 | a parsed URL never holds white space |
| `RequestText.GetTarget` | src/protocal.cc:127-144 | the path and parameter of a GET rebuild its URL, cut at the first question mark |
| `RequestReader.ReaLine` | src/util.cc:3-41 | for every stream and every `out`: the line is appended and consumed and its total length returned, or all that is left is appended and 0 or -1 returned |
| `RequestReader.Cutstring` | src/util.cc:43-56 | cuts at the first occurrence, and leaves both results alone when there is none |
| `RequestReader.EndPoint.RecvHttpRequestLine` | src/protocal.cc:63-79 | the request line without its line end, or stop with the stream used up |
| `RequestReader.EndPoint.RecvHttpRequestHeader` | src/protocal.cc:81-101 | ends, right after the first blank line or with stop at the end of the stream, with no header and no blank line stored |
| `RequestReader.EndPoint.ParseHttpRequestLine` | src/protocal.cc:105-115 | method in capitals, URL and version are the words of the request line |
| `RequestReader.EndPoint.ParseURL` | src/protocal.cc:118-150 | path, parameter, CGI flag and status after a GET, a POST and any other method, each field by itself |
| `RequestReader.BodyIsLeft` | src/protocal.cc:152-202 | a framed request is read for its first line alone: no header, Content-Length included, changes what is read, and the body stays in the stream |
| `RequestReader.EndPoint.RecvHttpRequestBody` | src/protocal.cc:162-202 | for a POST with a stored Content-Length, exactly that many bytes are taken, or all there are and then stop, a negative length counting as its 64-bit wrap-around; otherwise nothing changes |
| `RequestReader.StoredLengths` | include/protocal.h:66-67 | lengths from 0 on are stored as they are, negative ones with the 64-bit modulus added |
| `RequestReader.EndPoint.RecvHttpRequest` | src/protocal.cc:319-329 | on every stream, stop or a parsed request with the stream right after its blank line; no header pair and no body byte is ever stored |
| `RequestReader.HandlerRequest` | src/protocal.cc:532-543 | the socket is closed whatever was read, and an answer is made exactly for a complete request |
| `Delivery.FeedProgram` | src/protocal.cc:262-271 | what a CGI program gets is a prefix of the body, and all of it exactly if every write makes progress; the last write is the first that takes nothing |
| `Delivery.SendBody` | src/protocal.cc:507-516 | the same for the response body, which is not offered again once all of it is taken |
| `Delivery.DeliversExactlyIfEnough` | src/protocal.cc:507-516 | all of it exactly if the answers begin with a run of positive ones adding up to the body's size |
| `Delivery.SteadySinkTakesAll` | src/protocal.cc:262-271 | a descriptor that takes at least one character a call gets everything |
| `Delivery.AnyOutcome` | src/protocal.cc:513-513 | any outcome a write may have is one that some descriptor has |
| `Delivery.SendHttpResponse` | src/protocal.cc:497-523 | what reaches the client is the whole response, of a CGI program or a static page, if and only if one call each takes all of the status line, of every header, of the blank line and of the page, or the calls for the program's output make progress |
| `Delivery.ShortStatusLine` | src/protocal.cc:500-500 | a first call that takes one character of a longer status line loses the response, whatever the later calls take |
| `Delivery.SentIsWhole` | src/protocal.cc:500-505 | pieces offered once arrive whole if and only if each call takes all it is offered |
| `Delivery.HeadIs` | src/protocal.cc:500-505 | the head of a response is the status line, the headers in order and the blank line |
| `BenchRequest.Bench.BuildRequest` | WebBench/webbench.c:223-333 | the refusals, the version a request is raised to, the port, and the request text |
| `BenchRequest.SplitUrlMeans` | WebBench/webbench.c:249-290 | a URL is accepted with host, port part and path if and only if it is these three after the scheme in any case, at most 1500 long, the host without colon and slash, the port part empty or a colon and no slash, the path starting with a slash |
| `BenchRequest.RefusedFor` | WebBench/webbench.c:249-271 | which URL is refused for which reason |
| `BenchRequest.RaisedIs` | WebBench/webbench.c:233-236 | the version each method is raised to |
| `BenchRequest.PortsRead` | WebBench/webbench.c:282-284 | the port of a written number is that number, and 80 for 0 and where no number stands |
| `BenchRequest.FirstLinesAre` | WebBench/webbench.c:238-302 | the first line of every request in literals |
| `BenchRequest.HeadersAre` | WebBench/webbench.c:304-330 | the headers of every request in literals |
| `BenchRequest.ReadInLiterals` | WebBench/webbench.c:223-333 | the method, target and version the server reads of every request, in literals |
| `BenchRequest.BuiltRequestIsRead` | WebBench/webbench.c:223-333 | with a proxy or without, the server's reader recovers method, target and version if the target has no white space, never the target otherwise, and consumes every byte exactly if no Host line is sent or the host neither ends in a line end nor has two in a row |
| `BenchRequest.UrlIsServed` | WebBench/webbench.c:223-333 | from an accepted URL on: everything is read back and nothing is left in the stream if and only if the target has no white space and the host, where sent, puts no blank line into the headers |
| `BenchRequest.HostWithLineFeed` | WebBench/webbench.c:277-291 | an accepted URL with LF after its address, whose request is read but not to its end |
| `BenchRequest.PathWithSpace` | WebBench/webbench.c:291-291 | an accepted URL whose path does not come back |
| `BenchRequest.Exchange` | WebBench/webbench.c:223-333 | the same for the builder's and the endpoint's methods, run on one socket, HTTP/0.9 included |
| `BenchRequest.OldRequestStops` | WebBench/webbench.c:299-330 | on a request that stays at HTTP/0.9 the server stops if and only if the target neither ends in a line end nor has two in a row |
| `BenchRequest.OldRequestAnswered` | WebBench/webbench.c:299-330 | a HTTP/0.9 request on which it does not stop |
| `BenchAttempts.BenchCore.TryOnce` | WebBench/webbench.c:537-562 | one attempt raises exactly one of speed and failed and closes what it opened once |
| `BenchAttempts.FailsByCall` | WebBench/webbench.c:537-562 | an attempt fails exactly if its connect, its write, its shutdown, one of its reads or its close does |
| `BenchAttempts.BenchCore.ReadAll` | WebBench/webbench.c:543-559 | the read loop adds up the bytes and ends by error, end of stream or timer |
| `BenchAttempts.EndingIs` | WebBench/webbench.c:545-559 | the first read that brings nothing decides how the loop ends, and the timer if there is none |
| `BenchAttempts.BytesAdd` | WebBench/webbench.c:557-558 | the bytes are the sum of the reads before that one |
| `BenchAttempts.BenchCore.Run` | WebBench/webbench.c:526-563 | on return speed is the attempts that succeeded, failed the others less one if there were any, and opens equal closes |
| `BenchAttempts.LastAttempt` | WebBench/webbench.c:528-536 | the attempts end with the first one in whose read loop the timer expires |
| `BenchAttempts.CountersMissOne` | WebBench/webbench.c:526-563 | speed and failed add up to the attempts less one exactly when some attempt failed |

## Left out

- HandlerRequest: does not model `BuildHttpResponse` and what a static page sends; the former is file system and process plumbing, and the pool model takes a handler as one that returns and touches no other descriptor.
- SendHttpResponse: does not model what `sendfile` reads; the page is the characters the file has when it is sent, and the call takes some of them, as `send` does.
- ReaLine: does not model a read on a non-blocking socket that would block; the whole stream is there from the start. `RecvHttpRequest` reads from it and shares this.
- RecvHttpRequestBody: does not model lengths outside the range of `int`, for which `atoi` promises nothing; the model reads any number of digits.
- AddTimer: does not model 32-bit capacities or a failing `new`; capacities and sizes are unbounded numbers. Adding to a full heap of capacity 0, which has no room to grow into, is excluded.
- Tick: does not model callbacks that add, cancel or pop timers themselves, nor a heap of capacity 0, which has no first slot.
- BuildRequest: does not model the fixed sizes of the `host`, `tmp` and `request` buffers, port numbers outside the range of `int`, or NUL characters inside a URL.
- FeedProgram: does not model the pipe, the fork and the program at its other end.
- OnePool: does not model weak memory; the unlocked pointer read is taken as sequentially consistent, as is the unlocked size read of `PushTask`.
- AcceptOne: does not model the branch of the accept loop for a failed accept, neither the reserve descriptor on EMFILE nor the exit.
- Loop: does not model an endless loop as such; any number of rounds stands for it. `ThreadRoutine` shares this.
- InitThreadPool with a failing `pthread_create`: a pool has the workers it was asked for, or any number in the step system.
- Signals, `stat`, `sendfile`, pipes, processes and the wall clock: outcomes and times are inputs.
- The keep-alive loop, option parsing, `Socket` and the report of WebBench: little state beyond the loop modelled here.
- The logger manager, log appenders and the individual format items: lookups and output.
- `TcpServer` and the CGI calculator: thin wrappers.
