/** One thread's own statements with the other threads' steps between them. */
module ThreadSchedule {
  import opened WorkerPool
  import opened Options

  datatype Thread = PusherThread(p: nat) | WorkerThread(w: nat)

  /** What the others do before a statement of one's own, and that statement's step. */
  datatype Slice = Slice(others: seq<Step>, own: Step)

  predicate Mine(me: Thread, step: Step) {
    match step
    case Pushes(p, _) => me == PusherThread(p)
    case Works(w, _) => me == WorkerThread(w)
  }

  predicate Present(s: State, me: Thread) {
    match me
    case PusherThread(p) => p < |s.pushers|
    case WorkerThread(w) => w < |s.workers|
  }

  /** Between two rounds: back in accept, or about to take the mutex for the next task. */
  predicate Home(s: State, me: Thread)
    requires Present(s, me)
  {
    match me
    case PusherThread(p) => s.pushers[p] == Accepting
    case WorkerThread(w) => s.workers[w] == AtLock
  }

  /** The thread's statements, with the others between them, until it is home again. */
  ghost predicate Round(s: State, me: Thread, sched: seq<Slice>)
    decreases |sched|
  {
    Present(s, me) &&
    if sched == [] then Home(s, me)
    else
      && (forall step :: step in sched[0].others ==> !Mine(me, step)) && Runnable(s, sched[0].others)
      && Mine(me, sched[0].own) && Enabled(After(s, sched[0].others), sched[0].own)
      && var t := Next(After(s, sched[0].others), sched[0].own);
         Round(t, me, sched[1..]) && (Present(t, me) && Home(t, me) ==> |sched| == 1)
  }

  ghost function Woven(s: State, me: Thread, sched: seq<Slice>): State
    requires Round(s, me, sched)
    decreases |sched|
  {
    if sched == [] then s else Woven(Next(After(s, sched[0].others), sched[0].own), me, sched[1..])
  }

  function Flatten(sched: seq<Slice>): seq<Step> {
    if sched == [] then [] else sched[0].others + ([sched[0].own] + Flatten(sched[1..]))
  }

  lemma {:induction false} RunnableJoin(s: State, a: seq<Step>, b: seq<Step>)
    requires Runnable(s, a) && Runnable(After(s, a), b)
    ensures Runnable(s, a + b) && After(s, a + b) == After(After(s, a), b)
    decreases a
  {
    if a == [] {
      assert a + b == b;
    } else {
      var run := a + b;
      TailOfSum(a, b);
      RunnableJoin(Next(s, a[0]), a[1..], b);
      OneMore(s, run);
    }
  }

  lemma TailOfSum<T>(a: seq<T>, b: seq<T>)
    requires a != []
    ensures (a + b)[0] == a[0] && (a + b)[1..] == a[1..] + b
  {
  }

  lemma OneMore(s: State, run: seq<Step>)
    requires run != [] && Enabled(s, run[0]) && Runnable(Next(s, run[0]), run[1..])
    ensures Runnable(s, run) && After(s, run) == After(Next(s, run[0]), run[1..])
  {
  }

  /** A round is a run of the step system. */
  lemma {:induction false} RoundIsRun(s: State, me: Thread, sched: seq<Slice>)
    requires Round(s, me, sched)
    ensures Runnable(s, Flatten(sched)) && After(s, Flatten(sched)) == Woven(s, me, sched)
    decreases |sched|
  {
    if sched != [] {
      var t := After(s, sched[0].others);
      var rest := Flatten(sched[1..]);
      RoundIsRun(Next(t, sched[0].own), me, sched[1..]);
      assert ([sched[0].own] + rest)[1..] == rest;
      RunnableJoin(s, sched[0].others, [sched[0].own] + rest);
    }
  }

  /** Round after round of an endless loop. */
  ghost predicate Rounds(s: State, me: Thread, rounds: seq<seq<Slice>>)
    decreases |rounds|
  {
    rounds == [] ||
    (rounds[0] != [] && Round(s, me, rounds[0]) && Rounds(Woven(s, me, rounds[0]), me, rounds[1..]))
  }

  ghost function AllWoven(s: State, me: Thread, rounds: seq<seq<Slice>>): State
    requires Rounds(s, me, rounds)
    decreases |rounds|
  {
    if rounds == [] then s else AllWoven(Woven(s, me, rounds[0]), me, rounds[1..])
  }

  /** Any number of rounds is a run of the step system too. */
  lemma {:induction false} RoundsAreRun(s: State, me: Thread, rounds: seq<seq<Slice>>) returns (run: seq<Step>)
    requires Rounds(s, me, rounds)
    ensures Runnable(s, run) && After(s, run) == AllWoven(s, me, rounds)
    decreases |rounds|
  {
    run := [];
    if rounds != [] {
      RoundIsRun(s, me, rounds[0]);
      var rest := RoundsAreRun(Woven(s, me, rounds[0]), me, rounds[1..]);
      RunnableJoin(s, Flatten(rounds[0]), rest);
      run := Flatten(rounds[0]) + rest;
    }
  }

  /** The others leave a thread where it is, except that a signal moves a waiting worker. */
  predicate Undisturbed(s: State, t: State, me: Thread) {
    Present(s, me) && Present(t, me) &&
    match me
    case PusherThread(p) => t.pushers[p] == s.pushers[p]
    case WorkerThread(w) => t.workers[w] == s.workers[w] || (s.workers[w] == Blocked && t.workers[w] == Woken)
  }

  lemma StepLeaves(s: State, me: Thread, step: Step)
    requires Present(s, me) && Enabled(s, step) && !Mine(me, step)
    ensures Undisturbed(s, Next(s, step), me)
  {
    if me.WorkerThread? && step.Pushes? && step.act.Signal? && me.w in step.act.woken {
      assert IsBlocked(s, me.w);
    }
  }

  lemma {:induction false} OthersLeave(s: State, me: Thread, run: seq<Step>)
    requires Present(s, me) && Runnable(s, run) && forall step :: step in run ==> !Mine(me, step)
    ensures Undisturbed(s, After(s, run), me)
    decreases run
  {
    if run != [] {
      StepLeaves(s, me, run[0]);
      OthersLeave(Next(s, run[0]), me, run[1..]);
    }
  }

  /** Away from home there is a next slice, and the thread is still where it was for it. */
  lemma NextSlice(s: State, me: Thread, sched: seq<Slice>)
    requires Round(s, me, sched) && (Home(s, me) ==> sched != [])
    ensures sched != [] && Undisturbed(s, After(s, sched[0].others), me)
  {
    OthersLeave(s, me, sched[0].others);
  }

  // ---- Statements ------------------------------------------------------------------------

  /** The statements of PushTask, of the accept loop and of ThreadRoutine. */
  datatype Statement =
    | AcceptCall | LockCall | PushCall | UnlockCall | SizeCall | SignalCall
    | WaitCall | WakeUp | RelockCall | PopCall | HandleCall

  predicate Names(stmt: Statement, step: Step) {
    match step
    case Pushes(_, act) => (
      match act
      case Accept(_) => stmt == AcceptCall
      case LockToPush => stmt == LockCall
      case Push => stmt == PushCall
      case UnlockAfterPush => stmt == UnlockCall
      case ReadSize => stmt == SizeCall
      case Signal(_) => stmt == SignalCall)
    case Works(_, job) =>
      match job
      case LockToPop => stmt == LockCall
      case TestEmpty => stmt == SizeCall
      case Wait => stmt == WaitCall
      case WakeSpuriously => stmt == WakeUp
      case Relock => stmt == RelockCall || stmt == WakeUp
      case Pop => stmt == PopCall
      case UnlockAfterPop => stmt == UnlockCall
      case Finish => stmt == HandleCall
  }

  /** The thread stands where the program has this statement. */
  predicate Comes(s: State, me: Thread, stmt: Statement) {
    Present(s, me) &&
    match me
    case PusherThread(p) =>
      var pc := s.pushers[p];
      || (pc == Accepting && stmt == AcceptCall) || (pc.AtPushLock? && stmt == LockCall)
      || (pc.AtPush? && stmt == PushCall) || (pc == AtPushUnlock && stmt == UnlockCall)
      || (pc == AtSizeTest && stmt == SizeCall) || (pc == AtSignal && stmt == SignalCall)
    case WorkerThread(w) =>
      var pc := s.workers[w];
      || (pc == AtLock && stmt == LockCall) || (pc == AtTest && stmt == SizeCall)
      || (pc == AtWait && stmt == WaitCall) || (pc == Blocked && stmt == WakeUp)
      || (pc == Woken && stmt == RelockCall) || (pc == AtPop && stmt == PopCall)
      || (pc.AtUnlock? && stmt == UnlockCall) || (pc.Handling? && stmt == HandleCall)
  }

  /** And this is where it can stand after it. */
  predicate Done(s: State, me: Thread, stmt: Statement) {
    Present(s, me) &&
    match me
    case PusherThread(p) => (
      var pc := s.pushers[p];
      match stmt
      case AcceptCall => pc.AtPushLock?
      case LockCall => pc.AtPush?
      case PushCall => pc == AtPushUnlock
      case UnlockCall => pc == AtSizeTest
      case SizeCall => pc == AtSignal || pc == Accepting
      case SignalCall => pc == Accepting
      case _ => false)
    case WorkerThread(w) =>
      var pc := s.workers[w];
      match stmt
      case LockCall => pc == AtTest
      case SizeCall => pc == AtWait || pc == AtPop
      case WaitCall => pc == Blocked
      case WakeUp => pc == Woken || pc == AtTest
      case RelockCall => pc == AtTest
      case PopCall => pc.AtUnlock?
      case UnlockCall => pc.Handling?
      case HandleCall => pc == AtLock
      case _ => false
  }

  /** Whatever the others did first, the thread's next step is the statement it stood at. */
  lemma StatementDone(s: State, t: State, me: Thread, own: Step, stmt: Statement)
    requires Comes(s, me, stmt) && Undisturbed(s, t, me) && Mine(me, own) && Enabled(t, own)
    ensures Names(stmt, own) && Done(Next(t, own), me, stmt)
  {
  }

  // ---- What a thread itself does in a round --------------------------------------------

  datatype Event = Accepted | Queued | Dequeued | Closed

  /** The connection a step accepts, queues, dequeues or closes, if it does. */
  ghost function Happens(s: State, step: Step, event: Event): seq<Conn>
    requires Enabled(s, step)
  {
    match event
    case Accepted => Accepts(s, step)
    case Queued => Queues(s, step)
    case Dequeued => Dequeues(s, step)
    case Closed => Closes(s, step)
  }

  /** The connections that the thread's own statements accept, queue, dequeue or close. */
  ghost function Own(s: State, me: Thread, sched: seq<Slice>, event: Event): seq<Conn>
    requires Round(s, me, sched)
    decreases |sched|
  {
    if sched == [] then []
    else
      var t := After(s, sched[0].others);
      Happens(t, sched[0].own, event) + Own(Next(t, sched[0].own), me, sched[1..], event)
  }

  // From each position, what is still to be dequeued and closed before a worker is home.
  ghost predicate Serves(pc: WorkerPc, dequeued: seq<Conn>, closed: seq<Conn>) {
    if pc.AtUnlock? || pc.Handling? then dequeued == [] && closed == [pc.taken]
    else |dequeued| == 1 && closed == dequeued
  }

  lemma {:induction false} WorkerServes(s: State, w: nat, sched: seq<Slice>)
    requires Round(s, WorkerThread(w), sched) && sched != []
    ensures Serves(s.workers[w], Own(s, WorkerThread(w), sched, Dequeued), Own(s, WorkerThread(w), sched, Closed))
    decreases |sched|
  {
    var (me, t, own) := (WorkerThread(w), After(s, sched[0].others), sched[0].own);
    NextSlice(s, me, sched);
    if |sched| > 1 {
      WorkerServes(Next(t, own), w, sched[1..]);
    }
    ServesBefore(s, t, w, own, Own(Next(t, own), me, sched[1..], Dequeued), Own(Next(t, own), me, sched[1..], Closed));
  }

  lemma ServesBefore(s: State, t: State, w: nat, own: Step, dequeued: seq<Conn>, closed: seq<Conn>)
    requires Undisturbed(s, t, WorkerThread(w)) && Mine(WorkerThread(w), own) && Enabled(t, own)
    requires var pc := Next(t, own).workers[w];
      if pc == AtLock then dequeued == [] && closed == [] else Serves(pc, dequeued, closed)
    ensures Serves(s.workers[w], Dequeues(t, own) + dequeued, Closes(t, own) + closed)
  {
  }

  /** Every round of a worker dequeues one connection and closes that one. */
  lemma RoundServesOne(s: State, w: nat, sched: seq<Slice>)
    requires Round(s, WorkerThread(w), sched) && sched != [] && s.workers[w] == AtLock
    ensures |Own(s, WorkerThread(w), sched, Dequeued)| == 1
    ensures Own(s, WorkerThread(w), sched, Closed) == Own(s, WorkerThread(w), sched, Dequeued)
  {
    WorkerServes(s, w, sched);
  }

  ghost predicate Brings(pc: PusherPc, accepted: seq<Conn>, queued: seq<Conn>) {
    if pc == Accepting then |accepted| == 1 && queued == accepted
    else accepted == [] && queued == if pc.AtPushLock? || pc.AtPush? then [pc.own] else []
  }

  lemma {:induction false} PusherBrings(s: State, p: nat, sched: seq<Slice>)
    requires Round(s, PusherThread(p), sched) && sched != []
    ensures Brings(s.pushers[p], Own(s, PusherThread(p), sched, Accepted), Own(s, PusherThread(p), sched, Queued))
    decreases |sched|
  {
    var (me, t, own) := (PusherThread(p), After(s, sched[0].others), sched[0].own);
    NextSlice(s, me, sched);
    if |sched| > 1 {
      PusherBrings(Next(t, own), p, sched[1..]);
    }
    BringsBefore(s, t, p, own, Own(Next(t, own), me, sched[1..], Accepted), Own(Next(t, own), me, sched[1..], Queued));
  }

  lemma BringsBefore(s: State, t: State, p: nat, own: Step, accepted: seq<Conn>, queued: seq<Conn>)
    requires Undisturbed(s, t, PusherThread(p)) && Mine(PusherThread(p), own) && Enabled(t, own)
    requires var pc := Next(t, own).pushers[p];
      if pc == Accepting then accepted == [] && queued == [] else Brings(pc, accepted, queued)
    ensures Brings(s.pushers[p], Accepts(t, own) + accepted, Queues(t, own) + queued)
  {
  }

  /** Every round of an accept loop accepts one connection and queues that one. */
  lemma RoundBringsOne(s: State, p: nat, sched: seq<Slice>)
    requires Round(s, PusherThread(p), sched) && sched != [] && s.pushers[p] == Accepting
    ensures |Own(s, PusherThread(p), sched, Accepted)| == 1
    ensures Own(s, PusherThread(p), sched, Queued) == Own(s, PusherThread(p), sched, Accepted)
  {
    PusherBrings(s, p, sched);
  }

  /** The state in which the thread's k-th own statement happens. */
  ghost function Before(s: State, me: Thread, sched: seq<Slice>, k: nat): State
    requires Round(s, me, sched) && k < |sched|
    decreases k
  {
    var t := After(s, sched[0].others);
    if k == 0 then t else Before(Next(t, sched[0].own), me, sched[1..], k - 1)
  }

  function OwnAt(sched: seq<Slice>, k: nat): Option<Step> {
    if k < |sched| then Some(sched[k].own) else None
  }

  /** What comes after own, done in state at, and before the end of the round. */
  ghost predicate InOrder(at: State, own: Step, next: Option<Step>) {
    match own
    case Pushes(p, act) => (
      match act
      case Accept(_) => next == Some(Pushes(p, LockToPush))
      case LockToPush => next == Some(Pushes(p, Push))
      case Push => next == Some(Pushes(p, UnlockAfterPush))
      case UnlockAfterPush => next == Some(Pushes(p, ReadSize))
      case ReadSize =>
        if at.q == [] then next == None
        else next.Some? && next.value.Pushes? && next.value.p == p && next.value.act.Signal?
      case Signal(_) => next == None)
    case Works(w, job) =>
      match job
      case LockToPop => next == Some(Works(w, TestEmpty))
      case TestEmpty => next == Some(Works(w, if at.q == [] then Wait else Pop))
      case Wait => next == Some(Works(w, WakeSpuriously)) || next == Some(Works(w, Relock))
      case WakeSpuriously => next == Some(Works(w, Relock))
      case Relock => next == Some(Works(w, TestEmpty))
      case Pop => next == Some(Works(w, UnlockAfterPop))
      case UnlockAfterPop => next == Some(Works(w, Finish))
      case Finish => next == None
  }

  lemma NextInOrder(at: State, me: Thread, own: Step, later: State, next: Step)
    requires Present(at, me) && Mine(me, own) && Enabled(at, own) && !Home(Next(at, own), me)
    requires Undisturbed(Next(at, own), later, me) && Mine(me, next) && Enabled(later, next)
    ensures InOrder(at, own, Some(next))
  {
  }

  lemma LastInOrder(at: State, me: Thread, own: Step)
    requires Present(at, me) && Mine(me, own) && Enabled(at, own) && Home(Next(at, own), me)
    ensures InOrder(at, own, None)
  {
  }

  /** A thread's own steps come in the order of the program: a signal exactly after a size
      that was not 0, a wait exactly after an empty queue was seen, and a pop after a
      nonempty one. */
  lemma {:induction false} StatementsInOrder(s: State, me: Thread, sched: seq<Slice>, k: nat)
    requires Round(s, me, sched) && k < |sched|
    ensures InOrder(Before(s, me, sched, k), sched[k].own, OwnAt(sched, k + 1))
    decreases k
  {
    NextSlice(s, me, sched);
    var (t, own, rest) := (After(s, sched[0].others), sched[0].own, sched[1..]);
    if k > 0 {
      StatementsInOrder(Next(t, own), me, rest, k - 1);
    } else if rest == [] {
      LastInOrder(t, me, own);
    } else {
      NextSlice(Next(t, own), me, rest);
      NextInOrder(t, me, own, After(Next(t, own), rest[0].others), rest[0].own);
    }
  }

  /** And a round starts with an accept, or with taking the mutex. */
  lemma RoundStarts(s: State, me: Thread, sched: seq<Slice>)
    requires Round(s, me, sched) && sched != [] && Home(s, me)
    ensures match me
      case PusherThread(p) => sched[0].own.Pushes? && sched[0].own.act.Accept?
      case WorkerThread(w) => sched[0].own == Works(w, LockToPop)
  {
    NextSlice(s, me, sched);
  }
}
