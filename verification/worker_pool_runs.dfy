/** What every run of the worker pool keeps, how long a run can be, and where it ends. */
module WorkerPoolRuns {
  import opened Totals
  import opened WorkerPool

  ghost predicate Inv(s: State) {
    Exclusion(s) && Covered(s) && Conserved(s) && SocketsMatch(s)
  }

  lemma InitInv(workers: nat, pushers: nat)
    ensures Inv(Init(workers, pushers))
  {
    var s := Init(workers, pushers);
    GatherEmpty(s.pushers, PusherHolds);
    GatherEmpty(s.workers, WorkerHolds);
    assert Live(s) == multiset{};
    assert LiveSet(s) == {};
  }

  lemma StepInv(s: State, step: Step)
    requires Inv(s) && Enabled(s, step)
    ensures Inv(Next(s, step))
  {
    ExclusionKept(s, step);
    CoveredKept(s, step);
    ConservedKept(s, step);
    SocketsMatchKept(s, step);
  }

  lemma {:induction false} RunInv(s: State, run: seq<Step>)
    requires Inv(s) && Runnable(s, run)
    ensures Inv(After(s, run))
    decreases run
  {
    if run != [] {
      StepInv(s, run[0]);
      RunInv(Next(s, run[0]), run[1..]);
    }
  }

  /** The pool has the workers and the accept loops it was made with, in every run. */
  lemma ThreadsAsAsked(workers: nat, pushers: nat, run: seq<Step>)
    requires Runnable(Init(workers, pushers), run)
    ensures |After(Init(workers, pushers), run).workers| == workers
    ensures |After(Init(workers, pushers), run).pushers| == pushers
  {
    ThreadsConstant(Init(workers, pushers), run);
  }

  /** In every reachable state, work that a sleeping worker could take is covered by
      workers already awake and seeking it and pushers that still have to signal. */
  lemma NoLostWakeup(workers: nat, pushers: nat, run: seq<Step>)
    requires Runnable(Init(workers, pushers), run)
    ensures var s := After(Init(workers, pushers), run);
      var seeking := set w | 0 <= w < |s.workers| && s.workers[w] in {AtLock, AtTest, Woken, AtPop};
      var owing := set p | 0 <= p < |s.pushers| && s.pushers[p] in {AtPushUnlock, AtSizeTest, AtSignal};
      (exists w :: 0 <= w < |s.workers| && s.workers[w] == Blocked) ==> |s.q| <= |seeking| + |owing|
  {
    InitInv(workers, pushers);
    RunInv(Init(workers, pushers), run);
    var s := After(Init(workers, pushers), run);
    SeekingCount(s.workers);
    OwingCount(s.pushers);
    if w :| 0 <= w < |s.workers| && s.workers[w] == Blocked {
      assert IsBlocked(s, w);
    }
  }

  lemma SeekingCount(ws: seq<WorkerPc>)
    ensures Sum(ws, Seeks) == |set w | 0 <= w < |ws| && ws[w] in {AtLock, AtTest, Woken, AtPop}|
  {
    SumCounts(ws, Seeks);
    assert Hits(ws, Seeks) == set w | 0 <= w < |ws| && ws[w] in {AtLock, AtTest, Woken, AtPop};
  }

  lemma OwingCount(ps: seq<PusherPc>)
    ensures Sum(ps, Owes) == |set p | 0 <= p < |ps| && ps[p] in {AtPushUnlock, AtSizeTest, AtSignal}|
  {
    SumCounts(ps, Owes);
    assert Hits(ps, Owes) == set p | 0 <= p < |ps| && ps[p] in {AtPushUnlock, AtSizeTest, AtSignal};
  }

  // ---- Sockets ------------------------------------------------------------------

  /** A place a live connection can be in. */
  datatype Place = InPusher(p: nat) | InQueue(i: nat) | InWorker(w: nat)

  predicate Occupied(s: State, x: Place) {
    match x
    case InPusher(p) => p < |s.pushers| && PusherHolds(s.pushers[p]) != []
    case InQueue(i) => i < |s.q|
    case InWorker(w) => w < |s.workers| && WorkerHolds(s.workers[w]) != []
  }

  function At(s: State, x: Place): Conn
    requires Occupied(s, x)
  {
    match x
    case InPusher(p) => PusherHolds(s.pushers[p])[0]
    case InQueue(i) => s.q[i]
    case InWorker(w) => WorkerHolds(s.workers[w])[0]
  }

  lemma OccupiedLive(s: State, x: Place)
    requires Occupied(s, x)
    ensures x.InPusher? ==> At(s, x) in Gather(s.pushers, PusherHolds)
    ensures x.InQueue? ==> At(s, x) in multiset(s.q)
    ensures x.InWorker? ==> At(s, x) in Gather(s.workers, WorkerHolds)
    ensures At(s, x) in Live(s)
  {
    match x {
      case InPusher(p) =>
        GatherEntry(s.pushers, p, PusherHolds);
        assert At(s, x) in multiset(PusherHolds(s.pushers[p]));
      case InQueue(i) =>
      case InWorker(w) =>
        GatherEntry(s.workers, w, WorkerHolds);
        assert At(s, x) in multiset(WorkerHolds(s.workers[w]));
    }
  }

  // Two places hold one connection twice over.
  lemma PlacesAddUp(s: State, x: Place, y: Place)
    requires Occupied(s, x) && Occupied(s, y) && x != y && At(s, x) == At(s, y)
    ensures Live(s)[At(s, x)] >= 2
  {
    OccupiedLive(s, x);
    OccupiedLive(s, y);
    var c := At(s, x);
    match x {
      case InPusher(p) => if y.InPusher? { TwiceGathered(s.pushers, p, y.p, PusherHolds, c); }
      case InWorker(w) => if y.InWorker? { TwiceGathered(s.workers, w, y.w, WorkerHolds, c); }
      case InQueue(i) => if y.InQueue? { TwiceQueued(s.q, i, y.i); }
    }
  }

  lemma TwiceGathered<T>(s: seq<T>, i: nat, j: nat, f: T -> seq<Conn>, c: Conn)
    requires i < |s| && j < |s| && i != j && c in f(s[i]) && c in f(s[j])
    ensures Gather(s, f)[c] >= 2
  {
    var (a, b) := if i < j then (i, j) else (j, i);
    GatherPair(s, a, b, f);
    assert (multiset(f(s[a])) + multiset(f(s[b])))[c] >= 2;
  }

  lemma TwiceQueued(q: seq<Conn>, i: nat, j: nat)
    requires i < |q| && j < |q| && i != j && q[i] == q[j]
    ensures multiset(q)[q[i]] >= 2
  {
    var (a, b) := if i < j then (i, j) else (j, i);
    assert q == q[..a + 1] + q[a + 1..];
    assert q[a] in q[..a + 1] && q[a + 1..][b - a - 1] == q[b];
    assert q[b] in q[a + 1..];
  }

  /** In every reachable state the sockets in a pusher's hands, in the queue or with a
      worker that has not closed it are open, and no two of these places share one,
      although the kernel hands out closed numbers again. */
  lemma SocketsSafe(workers: nat, pushers: nat, run: seq<Step>, x: Place, y: Place)
    requires Runnable(Init(workers, pushers), run)
    requires Occupied(After(Init(workers, pushers), run), x) && Occupied(After(Init(workers, pushers), run), y)
    ensures var s := After(Init(workers, pushers), run);
      && At(s, x).fd in s.open
      && (x != y ==> At(s, x).fd != At(s, y).fd)
  {
    InitInv(workers, pushers);
    RunInv(Init(workers, pushers), run);
    var s := After(Init(workers, pushers), run);
    OccupiedLive(s, x);
    OccupiedLive(s, y);
    assert At(s, x) in LiveSet(s) && At(s, y) in LiveSet(s);
    if x != y && At(s, x) == At(s, y) {
      PlacesAddUp(s, x, y);
      LiveOnce(s);
    }
  }

  /** Connections leave the queue in the order they entered it, every accepted one is in
      exactly one place or closed, and none is pushed, dequeued or closed twice. */
  lemma SocketsConserved(workers: nat, pushers: nat, run: seq<Step>)
    requires Runnable(Init(workers, pushers), run)
    ensures var s := After(Init(workers, pushers), run);
      && s.pushed == s.popped + s.q
      && multiset(s.accepted) == Live(s) + multiset(s.closed)
      && multiset(s.closed) <= multiset(s.popped)
      && (forall i, j :: 0 <= i < j < |s.pushed| ==> s.pushed[i] != s.pushed[j])
      && (forall i, j :: 0 <= i < j < |s.closed| ==> s.closed[i] != s.closed[j])
  {
    InitInv(workers, pushers);
    RunInv(Init(workers, pushers), run);
    var s := After(Init(workers, pushers), run);
    LiveOnce(s);
    forall i, j | 0 <= i < j < |s.pushed| ensures s.pushed[i] != s.pushed[j] {
      OnceDistinct(s.pushed, i, j);
    }
    forall i, j | 0 <= i < j < |s.closed| ensures s.closed[i] != s.closed[j] {
      assert forall c :: multiset(s.closed)[c] <= Live(s)[c] + multiset(s.closed)[c];
      OnceDistinct(s.closed, i, j);
    }
  }

  // With the one accept loop the program runs, push order is accept order.
  ghost predicate InAcceptOrder(s: State) {
    |s.pushers| == 1 && s.accepted == s.pushed + PusherHolds(s.pushers[0])
  }

  lemma {:induction false} AcceptOrderKept(s: State, run: seq<Step>)
    requires InAcceptOrder(s) && Runnable(s, run)
    ensures InAcceptOrder(After(s, run))
    decreases run
  {
    if run != [] {
      Flows(s, run[0]);
      assert InAcceptOrder(Next(s, run[0]));
      AcceptOrderKept(Next(s, run[0]), run[1..]);
    }
  }

  /** With one accept loop, connections are dequeued in the order they were accepted. */
  lemma ServedInAcceptOrder(workers: nat, run: seq<Step>)
    requires Runnable(Init(workers, 1), run)
    ensures var s := After(Init(workers, 1), run); s.popped <= s.accepted
  {
    InitInv(workers, 1);
    RunInv(Init(workers, 1), run);
    AcceptOrderKept(Init(workers, 1), run);
  }

  // ---- Progress -------------------------------------------------------------------

  function WorkerCost(pc: WorkerPc): nat {
    match pc
    case Blocked => 0
    case AtWait => 1
    case AtPop => 1
    case AtTest => 2
    case AtLock => 3
    case Woken => 3
    case Handling(_) => 4
    case AtUnlock(_) => 5
  }

  function PusherCost(pc: PusherPc): nat {
    match pc
    case Accepting => 0
    case AtSignal => 1
    case AtSizeTest => 2
    case AtPushUnlock => 3
    case AtPush(_) => 9
    case AtPushLock(_) => 10
  }

  function Busy(pc: PusherPc): nat {
    if pc == Accepting then 0 else 1
  }

  /** Three steps for each worker that each of k signals may wake. */
  function Wakes(workers: nat, k: nat): nat {
    if k == 0 then 0 else 3 * workers + Wakes(workers, k - 1)
  }

  /** Steps still owed: five for a queued connection, a few for each thread's position,
      and for each pusher the wake-ups its signal may cause. */
  function Measure(s: State): nat {
    5 * |s.q| + Sum(s.workers, WorkerCost) + Sum(s.pushers, PusherCost) + Wakes(|s.workers|, Sum(s.pushers, Busy))
  }

  /** What the environment pays in: a new connection or a spurious wake-up brings work. */
  function Credit(workers: nat, step: Step): nat {
    match step
    case Pushes(_, act) => if act.Accept? then 11 + 3 * workers else 0
    case Works(_, job) => if job.WakeSpuriously? then 4 else 0
  }

  lemma AcceptPays(s: State, t: State, p: nat)
    requires p < |s.pushers| && |t.pushers| == |s.pushers| && t.pushers == s.pushers[p := t.pushers[p]]
    requires t.workers == s.workers && t.q == s.q && s.pushers[p] == Accepting && t.pushers[p].AtPushLock?
    ensures Measure(t) + 1 <= Measure(s) + 11 + 3 * |s.workers|
  {
    SumUpdate(s.pushers, p, t.pushers[p], PusherCost);
    SumUpdate(s.pushers, p, t.pushers[p], Busy);
  }

  // A pusher that goes back to accept may have woken every worker.
  lemma PusherPays(s: State, t: State, p: nat)
    requires p < |s.pushers| && |t.pushers| == |s.pushers| && t.pushers == s.pushers[p := t.pushers[p]]
    requires s.pushers[p] != Accepting && |t.workers| == |s.workers|
    requires Sum(t.workers, WorkerCost)
          <= Sum(s.workers, WorkerCost) + (if t.pushers[p] == Accepting then 3 * |s.workers| else 0)
    requires 5 * |t.q| + PusherCost(t.pushers[p]) + 1 <= 5 * |s.q| + PusherCost(s.pushers[p])
    ensures Measure(t) + 1 <= Measure(s)
  {
    SumUpdate(s.pushers, p, t.pushers[p], PusherCost);
    SumUpdate(s.pushers, p, t.pushers[p], Busy);
  }

  lemma WorkerPays(s: State, t: State, w: nat, credit: nat)
    requires w < |s.workers| && |t.workers| == |s.workers| && t.workers == s.workers[w := t.workers[w]]
    requires t.pushers == s.pushers
    requires 5 * |t.q| + WorkerCost(t.workers[w]) + 1 <= 5 * |s.q| + WorkerCost(s.workers[w]) + credit
    ensures Measure(t) + 1 <= Measure(s) + credit
  {
    SumUpdate(s.workers, w, t.workers[w], WorkerCost);
  }

  lemma StepPays(s: State, step: Step)
    requires Enabled(s, step)
    ensures Measure(Next(s, step)) + 1 <= Measure(s) + Credit(|s.workers|, step)
  {
    var t := Next(s, step);
    match step {
      case Pushes(p, act) =>
        if act.Accept? {
          AcceptPays(s, t, p);
        } else {
          if act.Signal? {
            assert forall i :: 0 <= i < |s.workers| && i in act.woken ==> IsBlocked(s, i);
            SumGrowth(s.workers, t.workers, WorkerCost, 3);
          }
          PusherPays(s, t, p);
        }
      case Works(w, job) =>
        WorkerPays(s, t, w, Credit(|s.workers|, step));
    }
  }

  function Credits(workers: nat, run: seq<Step>): nat {
    if run == [] then 0 else Credit(workers, run[0]) + Credits(workers, run[1..])
  }

  /** No run is longer than the work it starts with plus what accepts and spurious
      wake-ups bring in. */
  lemma {:induction false} RunBounded(s: State, run: seq<Step>)
    requires Runnable(s, run)
    ensures |run| + Measure(After(s, run)) <= Measure(s) + Credits(|s.workers|, run)
    decreases run
  {
    if run != [] {
      var t := Next(s, run[0]);
      StepPays(s, run[0]);
      WorkersStay(s, run[0]);
      RunBounded(t, run[1..]);
      var (m, end) := (Measure(t), After(t, run[1..]));
      assert After(s, run) == end;
      assert Credits(|s.workers|, run) == Credit(|s.workers|, run[0]) + Credits(|t.workers|, run[1..]);
    }
  }

  lemma WorkersStay(s: State, step: Step)
    requires Enabled(s, step)
    ensures |Next(s, step).workers| == |s.workers|
  {
  }

  lemma {:induction false} WakesIs(workers: nat, k: nat)
    ensures Wakes(workers, k) == 3 * workers * k
  {
    if k > 0 {
      WakesIs(workers, k - 1);
      assert 3 * workers * k == 3 * workers * (k - 1) + 3 * workers;
    }
  }

  /** In numbers: five steps for a queued connection and for a worker, and ten for a pusher
      besides the three for each worker that its signal may wake. */
  lemma MeasureInNumbers(s: State)
    ensures Measure(s) <= 5 * |s.q| + 5 * |s.workers| + 10 * |s.pushers| + 3 * |s.workers| * |s.pushers|
  {
    SumBounded(s.workers, WorkerCost, 5);
    SumBounded(s.pushers, PusherCost, 10);
    SumBounded(s.pushers, Busy, 1);
    WakesGrow(|s.workers|, Sum(s.pushers, Busy), |s.pushers|);
    WakesIs(|s.workers|, |s.pushers|);
  }

  lemma {:induction false} WakesGrow(workers: nat, k: nat, n: nat)
    requires k <= n
    ensures Wakes(workers, k) <= Wakes(workers, n)
  {
    if k < n {
      WakesGrow(workers, k, n - 1);
    }
  }

  function Spurious(run: seq<Step>): nat {
    if run == [] then 0 else (if run[0].Works? && run[0].job == WakeSpuriously then 1 else 0) + Spurious(run[1..])
  }

  lemma {:induction false} CreditsInNumbers(s: State, run: seq<Step>)
    requires Runnable(s, run)
    ensures |s.accepted| <= |After(s, run).accepted|
    ensures var accepts := |After(s, run).accepted| - |s.accepted|;
      Credits(|s.workers|, run) == (11 + 3 * |s.workers|) * accepts + 4 * Spurious(run)
    decreases run
  {
    if run != [] {
      var t := Next(s, run[0]);
      WorkersStay(s, run[0]);
      CreditsInNumbers(t, run[1..]);
      var (c, n) := (11 + 3 * |s.workers|, |After(t, run[1..]).accepted| - |t.accepted|);
      if run[0].Pushes? && run[0].act.Accept? {
        assert c * (n + 1) == c * n + c;
      }
    }
  }

  lemma {:induction false} AllAt<T>(n: nat, x: T, f: T -> nat)
    ensures Sum(seq(n, _ => x), f) == f(x) * n
  {
    if n > 0 {
      var s := seq(n, _ => x);
      AllAt(n - 1, x, f);
      assert s[..n - 1] == seq(n - 1, _ => x);
    }
  }

  /** From the start: a run is never longer than three steps for each worker, eleven for each
      accepted connection besides the wake-ups its signal may cause, and four for each
      spurious wake-up. */
  lemma RunInNumbers(workers: nat, pushers: nat, run: seq<Step>)
    requires Runnable(Init(workers, pushers), run)
    ensures var accepts := |After(Init(workers, pushers), run).accepted|;
      |run| <= 3 * workers + (11 + 3 * workers) * accepts + 4 * Spurious(run)
  {
    var s := Init(workers, pushers);
    RunBounded(s, run);
    CreditsFromStart(workers, pushers, run);
    InitMeasure(workers, pushers);
  }

  lemma CreditsFromStart(workers: nat, pushers: nat, run: seq<Step>)
    requires Runnable(Init(workers, pushers), run)
    ensures Credits(workers, run)
         == (11 + 3 * workers) * |After(Init(workers, pushers), run).accepted| + 4 * Spurious(run)
  {
    var s := Init(workers, pushers);
    CreditsInNumbers(s, run);
    assert |s.workers| == workers && |After(s, run).accepted| - |s.accepted| == |After(s, run).accepted|;
  }

  lemma InitMeasure(workers: nat, pushers: nat)
    ensures Measure(Init(workers, pushers)) == 3 * workers
  {
    AllAt(workers, AtLock, WorkerCost);
    AllAt(pushers, Accepting, PusherCost);
    AllAt(pushers, Accepting, Busy);
  }

  /** A step of the program itself: nothing new arrives, nobody wakes without a signal. */
  predicate Internal(step: Step) {
    match step
    case Pushes(_, act) => !act.Accept?
    case Works(_, job) => !job.WakeSpuriously?
  }

  predicate AllInternal(run: seq<Step>) {
    forall i :: 0 <= i < |run| ==> Internal(run[i])
  }

  lemma {:induction false} NoCredits(workers: nat, run: seq<Step>)
    requires AllInternal(run)
    ensures Credits(workers, run) == 0
  {
    if run != [] {
      NoCredits(workers, run[1..]);
    }
  }

  ghost predicate Stuck(s: State) {
    !exists step :: Internal(step) && Enabled(s, step)
  }

  ghost predicate Quiet(s: State) {
    && (forall w :: 0 <= w < |s.workers| ==> s.workers[w] == Blocked)
    && (forall p :: 0 <= p < |s.pushers| ==> s.pushers[p] == Accepting)
  }

  function PusherMove(pc: PusherPc, waiting: set<nat>): PusherAct {
    match pc
    case Accepting => Accept(0)
    case AtPushLock(_) => LockToPush
    case AtPush(_) => Push
    case AtPushUnlock => UnlockAfterPush
    case AtSizeTest => ReadSize
    case AtSignal => Signal(waiting)
  }

  function WorkerMove(pc: WorkerPc): WorkerAct {
    match pc
    case AtLock => LockToPop
    case AtTest => TestEmpty
    case AtWait => Wait
    case Blocked => WakeSpuriously
    case Woken => Relock
    case AtPop => Pop
    case AtUnlock(_) => UnlockAfterPop
    case Handling(_) => Finish
  }

  // Whoever can move next, unless everyone waits: the mutex owner, or anyone when it is free.
  lemma NextMover(s: State) returns (step: Step)
    requires Exclusion(s) && !Quiet(s)
    ensures Internal(step) && Enabled(s, step)
  {
    if s.lock.Worker? {
      step := Works(s.lock.w, WorkerMove(s.workers[s.lock.w]));
    } else if s.lock.Pusher? {
      step := Pushes(s.lock.p, PusherMove(s.pushers[s.lock.p], {}));
    } else if w :| 0 <= w < |s.workers| && s.workers[w] != Blocked {
      step := Works(w, WorkerMove(s.workers[w]));
    } else {
      var p :| 0 <= p < |s.pushers| && s.pushers[p] != Accepting;
      var waiting := set w | 0 <= w < |s.workers| && s.workers[w] == Blocked;
      if SomeBlocked(s) {
        var w: nat :| IsBlocked(s, w);
        assert w in waiting;
      }
      step := Pushes(p, PusherMove(s.pushers[p], waiting));
    }
  }

  /** A reachable state in which the program cannot move on its own is one where every
      worker waits, every pusher is back in accept, and, when there is a worker at all,
      the queue is empty and every accepted connection has been closed exactly once. */
  lemma StuckIsDrained(s: State)
    requires Inv(s)
    ensures Stuck(s) <==> Quiet(s)
    ensures Quiet(s) && |s.workers| > 0 ==>
      s.q == [] && s.open == {} && multiset(s.closed) == multiset(s.accepted)
  {
    if Stuck(s) && !Quiet(s) {
      var step := NextMover(s);
      assert false;
    }
    if Quiet(s) {
      forall step | Internal(step) ensures !Enabled(s, step) {
      }
      if |s.workers| > 0 {
        QuietIsEmpty(s);
      }
    }
  }

  lemma QuietIsEmpty(s: State)
    requires Inv(s) && Quiet(s) && |s.workers| > 0
    ensures s.q == [] && s.open == {} && multiset(s.closed) == multiset(s.accepted)
  {
    SumZero(s.pushers, Owes);
    SumZero(s.workers, Seeks);
    assert IsBlocked(s, 0);
    assert s.q == [];
    GatherEmpty(s.pushers, PusherHolds);
    GatherEmpty(s.workers, WorkerHolds);
    LiveOnce(s);
    assert Live(s) == multiset{};
    assert LiveSet(s) == {};
    assert forall fd :: fd !in s.open;
  }

  /** Once accepts stop and no worker wakes without a signal, every schedule from any
      reachable state is at most Measure long, and one that cannot be extended has
      emptied the queue and closed every socket. */
  lemma EveryScheduleDrains(workers: nat, pushers: nat, past: seq<Step>, run: seq<Step>)
    requires workers > 0 && Runnable(Init(workers, pushers), past)
    requires AllInternal(run) && Runnable(After(Init(workers, pushers), past), run)
    ensures var s := After(Init(workers, pushers), past);
      && |run| <= Measure(s) <= 5 * |s.q| + 5 * workers + 10 * pushers + 3 * workers * pushers
      && (Stuck(After(s, run)) ==>
            var t := After(s, run);
            && Quiet(t) && t.q == [] && t.open == {}
            && t.accepted == s.accepted
            && multiset(t.closed) == multiset(s.accepted))
  {
    InitInv(workers, pushers);
    RunInv(Init(workers, pushers), past);
    var s := After(Init(workers, pushers), past);
    RunInv(s, run);
    RunBounded(s, run);
    NoCredits(|s.workers|, run);
    ThreadsConstant(Init(workers, pushers), past);
    ThreadsConstant(s, run);
    NothingNew(s, run);
    StuckIsDrained(After(s, run));
    MeasureInNumbers(s);
  }

  lemma {:induction false} ThreadsConstant(s: State, run: seq<Step>)
    requires Runnable(s, run)
    ensures |After(s, run).workers| == |s.workers| && |After(s, run).pushers| == |s.pushers|
    decreases run
  {
    if run != [] {
      ThreadsConstant(Next(s, run[0]), run[1..]);
    }
  }

  lemma {:induction false} NothingNew(s: State, run: seq<Step>)
    requires Runnable(s, run) && AllInternal(run)
    ensures After(s, run).accepted == s.accepted
    decreases run
  {
    if run != [] {
      assert Internal(run[0]);
      NothingNew(Next(s, run[0]), run[1..]);
    }
  }

  lemma Extend(s: State, step: Step, rest: seq<Step>)
    requires Enabled(s, step) && Runnable(Next(s, step), rest)
    ensures Runnable(s, [step] + rest) && After(s, [step] + rest) == After(Next(s, step), rest)
    ensures Internal(step) && AllInternal(rest) ==> AllInternal([step] + rest)
  {
    assert ([step] + rest)[1..] == rest;
  }

  /** Such a schedule exists from every state the invariant allows. */
  lemma {:induction false} SomeScheduleDrains(s: State) returns (run: seq<Step>)
    requires Inv(s)
    ensures AllInternal(run) && Runnable(s, run) && Quiet(After(s, run))
    decreases Measure(s)
  {
    if Quiet(s) {
      run := [];
    } else {
      var step := NextMover(s);
      StepInv(s, step);
      StepPays(s, step);
      var rest := SomeScheduleDrains(Next(s, step));
      Extend(s, step, rest);
      run := [step] + rest;
    }
  }

  lemma {:induction false} NothingPopped(s: State, run: seq<Step>)
    requires Runnable(s, run) && s.workers == [] && s.popped == []
    ensures After(s, run).popped == []
    decreases run
  {
    if run != [] {
      NothingPopped(Next(s, run[0]), run[1..]);
    }
  }

  /** Quiet means an empty queue, and also every socket closed, exactly when there is a
      worker or nothing was ever pushed. */
  lemma QuietIsDrainedWithWorkers(workers: nat, pushers: nat, run: seq<Step>)
    requires Runnable(Init(workers, pushers), run) && Quiet(After(Init(workers, pushers), run))
    ensures var s := After(Init(workers, pushers), run);
      && (s.q == [] <==> workers > 0 || s.pushed == [])
      && (s.open == {} <==> workers > 0 || s.pushed == [])
  {
    var s := After(Init(workers, pushers), run);
    InitInv(workers, pushers);
    RunInv(Init(workers, pushers), run);
    ThreadsConstant(Init(workers, pushers), run);
    StuckIsDrained(s);
    if workers == 0 {
      NothingPopped(Init(workers, pushers), run);
      OnlyQueued(s);
    }
  }

  // Without workers what is open at rest is what is queued.
  lemma OnlyQueued(s: State)
    requires Inv(s) && Quiet(s) && s.workers == []
    ensures s.open == {} <==> s.q == []
  {
    GatherEmpty(s.pushers, PusherHolds);
    assert Live(s) == multiset(s.q);
    if s.q != [] {
      assert s.q[0] in multiset(s.q);
      assert s.q[0] in LiveSet(s);
    }
  }

  /** With no worker at all, one accepted connection ends up queued for ever. */
  lemma NoWorkerNoService(fd: nat) returns (run: seq<Step>)
    ensures Runnable(Init(0, 1), run) && Quiet(After(Init(0, 1), run)) && After(Init(0, 1), run).q != []
  {
    var s0 := Init(0, 1);
    InitInv(0, 1);
    var first := Pushes(0, Accept(fd));
    var s1 := Next(s0, first);
    StepInv(s0, first);
    var rest := SomeScheduleDrains(s1);
    StaysQueued(s1, rest);
    Extend(s0, first, rest);
    run := [first] + rest;
  }

  lemma StaysQueued(s: State, rest: seq<Step>)
    requires Inv(s) && s.workers == [] && s.popped == [] && |s.accepted| == 1
    requires AllInternal(rest) && Runnable(s, rest) && Quiet(After(s, rest))
    ensures After(s, rest).q != []
  {
    RunInv(s, rest);
    NothingNew(s, rest);
    NothingPopped(s, rest);
    AllPushed(After(s, rest));
  }

  lemma AllPushed(t: State)
    requires Conserved(t) && (forall p :: 0 <= p < |t.pushers| ==> t.pushers[p] == Accepting)
    ensures |t.accepted| == |t.pushed| == |t.popped| + |t.q|
  {
    GatherEmpty(t.pushers, PusherHolds);
    assert multiset(t.accepted) == multiset(t.pushed);
    assert |multiset(t.accepted)| == |t.accepted| && |multiset(t.pushed)| == |t.pushed|;
  }
}
