/** The worker pool and the accept loop that feeds it, as an interleaved step system.

    Any number of workers run ThreadRoutine and any number of pushers run the accept
    loop of HttpServer::Loop followed by PushTask.  One step is one statement that the
    mutex, the condition variable or the kernel makes atomic.  pthread_cond_wait and
    pthread_cond_signal follow IEEE Std 1003.1-2017, System Interfaces: waiting releases
    the mutex and blocks in one step, a signal unblocks at least one waiting thread if
    there is one, and a waiting thread may be unblocked without any signal. */
module WorkerPool {
  import opened Totals

  /** An accepted connection: its serial number in accept order, and the socket number
      the kernel gave it, which may have been used before. */
  datatype Conn = Conn(id: nat, fd: nat)

  /** Where a worker stands in ThreadRoutine.  AtTest, AtWait, AtPop and AtUnlock are
      inside the critical section. */
  datatype WorkerPc =
    | AtLock                // about to take the mutex
    | AtTest                // about to evaluate Size() == 0
    | AtWait                // saw an empty queue, about to wait
    | Blocked               // inside pthread_cond_wait
    | Woken                 // unblocked, has to take the mutex again
    | AtPop                 // saw a nonempty queue, about to pop
    | AtUnlock(taken: Conn) // popped, about to release the mutex
    | Handling(taken: Conn) // in HanderTask, before close(sock)

  /** Where a pusher stands in Loop and PushTask. */
  datatype PusherPc =
    | Accepting             // in accept4
    | AtPushLock(own: Conn) // about to take the mutex
    | AtPush(own: Conn)     // holds the mutex, about to push
    | AtPushUnlock          // pushed, about to release the mutex
    | AtSizeTest            // about to read m_q.size() without the mutex
    | AtSignal              // read a positive size, about to signal

  datatype Owner = Free | Worker(w: nat) | Pusher(p: nat)

  /** The shared state, with the history of what was accepted, pushed, popped and closed. */
  datatype State = State(
    lock: Owner,
    q: seq<Conn>,
    workers: seq<WorkerPc>,
    pushers: seq<PusherPc>,
    open: set<nat>,
    accepted: seq<Conn>,
    pushed: seq<Conn>,
    popped: seq<Conn>,
    closed: seq<Conn>)

  datatype PusherAct =
    | Accept(fd: nat)
    | LockToPush
    | Push
    | UnlockAfterPush
    | ReadSize
    | Signal(woken: set<nat>)

  datatype WorkerAct =
    | LockToPop
    | TestEmpty
    | Wait
    | WakeSpuriously
    | Relock
    | Pop
    | UnlockAfterPop
    | Finish

  datatype Step = Pushes(p: nat, act: PusherAct) | Works(w: nat, job: WorkerAct)

  function Init(workers: nat, pushers: nat): State {
    State(Free, [], seq(workers, _ => AtLock), seq(pushers, _ => Accepting), {}, [], [], [], [])
  }

  predicate IsBlocked(s: State, w: nat) {
    w < |s.workers| && s.workers[w] == Blocked
  }

  ghost predicate SomeBlocked(s: State) {
    exists w: nat :: IsBlocked(s, w)
  }

  ghost predicate PusherReady(s: State, pc: PusherPc, act: PusherAct) {
    match act
    case Accept(fd) => pc == Accepting && fd !in s.open
    case LockToPush => pc.AtPushLock? && s.lock == Free
    case Push => pc.AtPush?
    case UnlockAfterPush => pc == AtPushUnlock
    case ReadSize => pc == AtSizeTest
    case Signal(woken) =>
      pc == AtSignal && (forall w :: w in woken ==> IsBlocked(s, w)) && (SomeBlocked(s) ==> woken != {})
  }

  predicate WorkerReady(s: State, pc: WorkerPc, job: WorkerAct) {
    match job
    case LockToPop => pc == AtLock && s.lock == Free
    case TestEmpty => pc == AtTest
    case Wait => pc == AtWait
    case WakeSpuriously => pc == Blocked
    case Relock => pc == Woken && s.lock == Free
    case Pop => pc == AtPop && s.q != []
    case UnlockAfterPop => pc.AtUnlock?
    case Finish => pc.Handling?
  }

  ghost predicate Enabled(s: State, step: Step) {
    match step
    case Pushes(p, act) => p < |s.pushers| && PusherReady(s, s.pushers[p], act)
    case Works(w, job) => w < |s.workers| && WorkerReady(s, s.workers[w], job)
  }

  ghost function PusherAfter(s: State, pc: PusherPc, act: PusherAct): PusherPc
    requires PusherReady(s, pc, act)
  {
    match act
    case Accept(fd) => AtPushLock(Conn(|s.accepted|, fd))
    case LockToPush => AtPush(pc.own)
    case Push => AtPushUnlock
    case UnlockAfterPush => AtSizeTest
    case ReadSize => if |s.q| > 0 then AtSignal else Accepting
    case Signal(_) => Accepting
  }

  function WorkerAfter(s: State, pc: WorkerPc, job: WorkerAct): WorkerPc
    requires WorkerReady(s, pc, job)
  {
    match job
    case LockToPop => AtTest
    case TestEmpty => if |s.q| == 0 then AtWait else AtPop
    case Wait => Blocked
    case WakeSpuriously => Woken
    case Relock => AtTest
    case Pop => AtUnlock(s.q[0])
    case UnlockAfterPop => Handling(pc.taken)
    case Finish => AtLock
  }

  function Wake(ws: seq<WorkerPc>, woken: set<nat>): (r: seq<WorkerPc>)
    ensures |r| == |ws|
  {
    seq(|ws|, i requires 0 <= i < |ws| => if i in woken then Woken else ws[i])
  }

  ghost function Next(s: State, step: Step): State
    requires Enabled(s, step)
  {
    match step
    case Pushes(p, act) =>
      var pc := s.pushers[p];
      s.(pushers := s.pushers[p := PusherAfter(s, pc, act)],
         lock := if act.LockToPush? then Pusher(p) else if act.UnlockAfterPush? then Free else s.lock,
         q := if act.Push? then s.q + [pc.own] else s.q,
         pushed := if act.Push? then s.pushed + [pc.own] else s.pushed,
         accepted := if act.Accept? then s.accepted + [Conn(|s.accepted|, act.fd)] else s.accepted,
         open := if act.Accept? then s.open + {act.fd} else s.open,
         workers := if act.Signal? then Wake(s.workers, act.woken) else s.workers)
    case Works(w, job) =>
      var pc := s.workers[w];
      s.(workers := s.workers[w := WorkerAfter(s, pc, job)],
         lock := if job.LockToPop? || job.Relock? then Worker(w)
                 else if job.Wait? || job.UnlockAfterPop? then Free else s.lock,
         q := if job.Pop? then s.q[1..] else s.q,
         popped := if job.Pop? then s.popped + [s.q[0]] else s.popped,
         open := if job.Finish? then s.open - {pc.taken.fd} else s.open,
         closed := if job.Finish? then s.closed + [pc.taken] else s.closed)
  }

  /** A schedule that can be followed from s, one enabled step after the other. */
  ghost predicate Runnable(s: State, run: seq<Step>)
    decreases run
  {
    run == [] || (Enabled(s, run[0]) && Runnable(Next(s, run[0]), run[1..]))
  }

  ghost function After(s: State, run: seq<Step>): State
    requires Runnable(s, run)
    decreases run
  {
    if run == [] then s else After(Next(s, run[0]), run[1..])
  }

  // ---- What the environment may do ----------------------------------------------------

  /** A pusher in accept can get any number that is not open, and only such a number; a
      signal may wake any waiting workers, at least one if there is one; and any waiting
      worker may wake without a signal. */
  lemma KernelChoices(s: State, i: nat, fd: nat, woken: set<nat>)
    ensures Enabled(s, Pushes(i, Accept(fd))) <==> i < |s.pushers| && s.pushers[i] == Accepting && fd !in s.open
    ensures Enabled(s, Works(i, WakeSpuriously)) <==> i < |s.workers| && s.workers[i] == Blocked
    ensures Enabled(s, Pushes(i, Signal(woken))) <==>
      && i < |s.pushers| && s.pushers[i] == AtSignal
      && (forall w :: w in woken ==> w < |s.workers| && s.workers[w] == Blocked)
      && ((exists w :: 0 <= w < |s.workers| && s.workers[w] == Blocked) ==> woken != {})
  {
    if w :| 0 <= w < |s.workers| && s.workers[w] == Blocked {
      assert IsBlocked(s, w);
    }
  }

  // ---- Mutual exclusion --------------------------------------------------------

  predicate WorkerInside(pc: WorkerPc) {
    pc == AtTest || pc == AtWait || pc == AtPop || pc.AtUnlock?
  }

  predicate PusherInside(pc: PusherPc) {
    pc.AtPush? || pc == AtPushUnlock
  }

  /** Exactly the mutex owner is inside a critical section, and what a worker read there
      about the queue is still true. */
  ghost predicate Exclusion(s: State) {
    && (forall w :: 0 <= w < |s.workers| ==> (WorkerInside(s.workers[w]) <==> s.lock == Worker(w)))
    && (forall p :: 0 <= p < |s.pushers| ==> (PusherInside(s.pushers[p]) <==> s.lock == Pusher(p)))
    && (s.lock.Worker? ==> s.lock.w < |s.workers|)
    && (s.lock.Pusher? ==> s.lock.p < |s.pushers|)
    && (forall w :: 0 <= w < |s.workers| && s.workers[w] == AtWait ==> s.q == [])
    && (forall w :: 0 <= w < |s.workers| && s.workers[w] == AtPop ==> s.q != [])
  }

  lemma ExclusionKept(s: State, step: Step)
    requires Exclusion(s) && Enabled(s, step)
    ensures Exclusion(Next(s, step))
  {
    var t := Next(s, step);
    if step.Pushes? && step.act.Signal? {
      assert forall w :: 0 <= w < |s.workers| && s.workers[w] != t.workers[w] ==> IsBlocked(s, w);
    }
  }

  // ---- No lost wake-up ---------------------------------------------------------

  /** Awake and on the way to the queue. */
  function Seeks(pc: WorkerPc): nat {
    if pc == AtLock || pc == AtTest || pc == Woken || pc == AtPop then 1 else 0
  }

  /** Has pushed but not yet finished its check and signal. */
  function Owes(pc: PusherPc): nat {
    if pc == AtPushUnlock || pc == AtSizeTest || pc == AtSignal then 1 else 0
  }

  ghost predicate Covered(s: State) {
    SomeBlocked(s) ==> |s.q| <= Sum(s.workers, Seeks) + Sum(s.pushers, Owes)
  }

  lemma CoveredKept(s: State, step: Step)
    requires Exclusion(s) && Covered(s) && Enabled(s, step)
    ensures Covered(Next(s, step))
  {
    var t := Next(s, step);
    if SomeBlocked(t) {
      var b: nat :| IsBlocked(t, b);
      match step {
        case Pushes(p, act) =>
          assert IsBlocked(s, b);
          SumUpdate(s.pushers, p, t.pushers[p], Owes);
          if act.Signal? {
            WakeCounts(s, act.woken);
          }
        case Works(w, job) =>
          if job.Wait? {
            assert s.q == [];
          } else {
            assert IsBlocked(s, b);
            SumUpdate(s.workers, w, t.workers[w], Seeks);
          }
      }
    }
  }

  lemma WakeCounts(s: State, woken: set<nat>)
    requires woken != {} && forall w :: w in woken ==> IsBlocked(s, w)
    ensures Sum(Wake(s.workers, woken), Seeks) >= Sum(s.workers, Seeks) + 1
  {
    var k :| k in woken;
    assert IsBlocked(s, k);
    assert forall i :: 0 <= i < |s.workers| && i in woken ==> IsBlocked(s, i);
    SumStrict(s.workers, Wake(s.workers, woken), Seeks, k);
  }

  // ---- Conservation of sockets ------------------------------------------------

  function WorkerHolds(pc: WorkerPc): seq<Conn> {
    if pc.AtUnlock? || pc.Handling? then [pc.taken] else []
  }

  function PusherHolds(pc: PusherPc): seq<Conn> {
    if pc.AtPushLock? || pc.AtPush? then [pc.own] else []
  }

  /** Connections accepted and not yet closed, wherever they are. */
  function Live(s: State): multiset<Conn> {
    Gather(s.pushers, PusherHolds) + multiset(s.q) + Gather(s.workers, WorkerHolds)
  }

  ghost predicate Conserved(s: State) {
    && multiset(s.accepted) == Gather(s.pushers, PusherHolds) + multiset(s.pushed)
    && s.pushed == s.popped + s.q
    && multiset(s.popped) == Gather(s.workers, WorkerHolds) + multiset(s.closed)
    && (forall i :: 0 <= i < |s.accepted| ==> s.accepted[i].id == i)
  }

  /** What a step takes from the kernel, queues, dequeues and closes. */
  ghost function Accepts(s: State, step: Step): seq<Conn> {
    if step.Pushes? && step.act.Accept? then [Conn(|s.accepted|, step.act.fd)] else []
  }

  ghost function Queues(s: State, step: Step): seq<Conn>
    requires Enabled(s, step)
  {
    if step.Pushes? && step.act.Push? then [s.pushers[step.p].own] else []
  }

  ghost function Dequeues(s: State, step: Step): seq<Conn>
    requires Enabled(s, step)
  {
    if step.Works? && step.job.Pop? then [s.q[0]] else []
  }

  ghost function Closes(s: State, step: Step): seq<Conn>
    requires Enabled(s, step)
  {
    if step.Works? && step.job.Finish? then [s.workers[step.w].taken] else []
  }

  lemma Flows(s: State, step: Step)
    requires Enabled(s, step)
    ensures var t := Next(s, step);
      && t.accepted == s.accepted + Accepts(s, step)
      && t.pushed == s.pushed + Queues(s, step)
      && t.popped == s.popped + Dequeues(s, step)
      && t.closed == s.closed + Closes(s, step)
      && Dequeues(s, step) + t.q == s.q + Queues(s, step)
  {
    if step.Works? && step.job.Pop? {
      assert s.q == [s.q[0]] + s.q[1..];
    }
  }

  lemma PusherFlow(s: State, step: Step)
    requires Enabled(s, step)
    ensures Gather(Next(s, step).pushers, PusherHolds) + multiset(Queues(s, step))
         == Gather(s.pushers, PusherHolds) + multiset(Accepts(s, step))
  {
    if step.Pushes? {
      PusherHands(s, step.p, step.act);
      GatherFlow(s.pushers, step.p, PusherAfter(s, s.pushers[step.p], step.act), PusherHolds,
                 Accepts(s, step), Queues(s, step));
    }
  }

  // What one statement does to the hands of its thread.
  lemma PusherHands(s: State, p: nat, act: PusherAct)
    requires Enabled(s, Pushes(p, act))
    ensures PusherHolds(PusherAfter(s, s.pushers[p], act)) + Queues(s, Pushes(p, act))
         == PusherHolds(s.pushers[p]) + Accepts(s, Pushes(p, act))
  {
  }

  lemma WorkerFlow(s: State, step: Step)
    requires Enabled(s, step)
    ensures Gather(Next(s, step).workers, WorkerHolds) + multiset(Closes(s, step))
         == Gather(s.workers, WorkerHolds) + multiset(Dequeues(s, step))
  {
    if step.Works? {
      WorkerHands(s, step.w, step.job);
      GatherFlow(s.workers, step.w, WorkerAfter(s, s.workers[step.w], step.job), WorkerHolds,
                 Dequeues(s, step), Closes(s, step));
    } else if step.act.Signal? {
      WakeFlow(s, step.act.woken);
    }
  }

  lemma WorkerHands(s: State, w: nat, job: WorkerAct)
    requires Enabled(s, Works(w, job))
    ensures WorkerHolds(WorkerAfter(s, s.workers[w], job)) + Closes(s, Works(w, job))
         == WorkerHolds(s.workers[w]) + Dequeues(s, Works(w, job))
  {
  }

  lemma WakeFlow(s: State, woken: set<nat>)
    requires forall w :: w in woken ==> IsBlocked(s, w)
    ensures Gather(Wake(s.workers, woken), WorkerHolds) == Gather(s.workers, WorkerHolds)
  {
    assert forall i :: 0 <= i < |s.workers| && i in woken ==> IsBlocked(s, i);
    GatherSame(s.workers, Wake(s.workers, woken), WorkerHolds);
  }

  // Bags behind the four flows: hands h, history a, moved in and out.
  lemma Rebalance<T>(h: multiset<T>, h': multiset<T>, a: multiset<T>, b: multiset<T>,
                     inn: multiset<T>, out: multiset<T>)
    requires h' + out == h + inn
    requires a == h + b
    ensures a + inn == h' + (b + out)
  {
    calc {
      a + inn;
      (h + inn) + b;
      (h' + out) + b;
      h' + (b + out);
    }
  }

  lemma ConservedAcross(s: State, t: State, acc: seq<Conn>, put: seq<Conn>, out: seq<Conn>, fin: seq<Conn>)
    requires Conserved(s)
    requires t.accepted == s.accepted + acc && t.pushed == s.pushed + put
    requires t.popped == s.popped + out && t.closed == s.closed + fin && out + t.q == s.q + put
    requires Gather(t.pushers, PusherHolds) + multiset(put) == Gather(s.pushers, PusherHolds) + multiset(acc)
    requires Gather(t.workers, WorkerHolds) + multiset(fin) == Gather(s.workers, WorkerHolds) + multiset(out)
    requires acc == [] || (|acc| == 1 && acc[0].id == |s.accepted|)
    ensures Conserved(t)
  {
    Rebalance(Gather(s.pushers, PusherHolds), Gather(t.pushers, PusherHolds), multiset(s.accepted), multiset(s.pushed),
              multiset(acc), multiset(put));
    Rebalance(Gather(s.workers, WorkerHolds), Gather(t.workers, WorkerHolds), multiset(s.popped), multiset(s.closed),
              multiset(out), multiset(fin));
    QueueAcross(s.popped, s.q, put, out, t.q);
  }

  lemma QueueAcross<T>(popped: seq<T>, q: seq<T>, put: seq<T>, out: seq<T>, q': seq<T>)
    requires out + q' == q + put
    ensures (popped + q) + put == (popped + out) + q'
  {
    assert (popped + q) + put == popped + (q + put);
    assert (popped + out) + q' == popped + (out + q');
  }

  lemma ConservedKept(s: State, step: Step)
    requires Conserved(s) && Enabled(s, step)
    ensures Conserved(Next(s, step))
  {
    Flows(s, step);
    PusherFlow(s, step);
    WorkerFlow(s, step);
    ConservedAcross(s, Next(s, step), Accepts(s, step), Queues(s, step), Dequeues(s, step), Closes(s, step));
  }

  lemma LiveFlow(s: State, step: Step)
    requires Enabled(s, step)
    ensures Live(Next(s, step)) + multiset(Closes(s, step)) == Live(s) + multiset(Accepts(s, step))
  {
    var t := Next(s, step);
    Flows(s, step);
    PusherFlow(s, step);
    WorkerFlow(s, step);
    var (p, p') := (Gather(s.pushers, PusherHolds), Gather(t.pushers, PusherHolds));
    var (w, w') := (Gather(s.workers, WorkerHolds), Gather(t.workers, WorkerHolds));
    var (acc, put) := (multiset(Accepts(s, step)), multiset(Queues(s, step)));
    var (out, fin) := (multiset(Dequeues(s, step)), multiset(Closes(s, step)));
    assert out + multiset(t.q) == multiset(s.q) + put by {
      assert multiset(Dequeues(s, step) + t.q) == multiset(s.q + Queues(s, step));
    }
    LiveBalance(p, p', multiset(s.q), multiset(t.q), w, w', acc, put, out, fin);
  }

  lemma LiveBalance<T>(p: multiset<T>, p': multiset<T>, q: multiset<T>, q': multiset<T>,
                       w: multiset<T>, w': multiset<T>,
                       acc: multiset<T>, put: multiset<T>, out: multiset<T>, fin: multiset<T>)
    requires p' + put == p + acc && out + q' == q + put && w' + fin == w + out
    ensures (p' + q' + w') + fin == (p + q + w) + acc
  {
    forall x ensures ((p' + q' + w') + fin)[x] == ((p + q + w) + acc)[x] {
      assert (p' + put)[x] == (p + acc)[x] && (out + q')[x] == (q + put)[x] && (w' + fin)[x] == (w + out)[x];
    }
  }

  // No connection is in two places, or live and closed at once.
  lemma LiveOnce(s: State)
    requires Conserved(s)
    ensures multiset(s.accepted) == Live(s) + multiset(s.closed)
    ensures forall c :: Live(s)[c] + multiset(s.closed)[c] <= 1
    ensures forall c :: multiset(s.popped)[c] <= 1 && multiset(s.pushed)[c] <= 1
  {
    assert forall i, j :: 0 <= i < j < |s.accepted| ==> s.accepted[i].id != s.accepted[j].id;
    DistinctOnce(s.accepted);
    assert multiset(s.accepted) == Live(s) + multiset(s.closed);
    forall c
      ensures Live(s)[c] + multiset(s.closed)[c] <= 1
      ensures multiset(s.popped)[c] <= 1 && multiset(s.pushed)[c] <= 1
    {
      assert multiset(s.accepted)[c] <= 1;
    }
  }

  /** The kernel's open sockets are exactly those of the live connections, one each. */
  ghost predicate Matches(open: set<nat>, live: set<Conn>) {
    && (forall c :: c in live ==> c.fd in open)
    && (forall fd :: fd in open ==> exists c :: c in live && c.fd == fd)
    && (forall c, d :: c in live && d in live && c.fd == d.fd ==> c == d)
  }

  lemma MatchesAdd(open: set<nat>, live: set<Conn>, a: Conn)
    requires Matches(open, live) && a.fd !in open
    ensures Matches(open + {a.fd}, live + {a})
  {
    forall fd | fd in open + {a.fd} ensures exists c :: c in live + {a} && c.fd == fd {
      if fd == a.fd {
        assert a in live + {a};
      } else {
        var c :| c in live && c.fd == fd;
        assert c in live + {a};
      }
    }
  }

  lemma MatchesRemove(open: set<nat>, live: set<Conn>, a: Conn)
    requires Matches(open, live) && a in live
    ensures Matches(open - {a.fd}, live - {a})
  {
    forall fd | fd in open - {a.fd} ensures exists c :: c in live - {a} && c.fd == fd {
      var c :| c in live && c.fd == fd;
      assert c in live - {a};
    }
  }

  function LiveSet(s: State): set<Conn> {
    set c | c in Live(s)
  }

  ghost predicate SocketsMatch(s: State) {
    Matches(s.open, LiveSet(s))
  }

  lemma SocketsMatchKept(s: State, step: Step)
    requires Conserved(s) && SocketsMatch(s) && Enabled(s, step)
    ensures SocketsMatch(Next(s, step))
  {
    LiveFlow(s, step);
    LiveOnce(s);
    OpenFlow(s, step);
    MatchesAcross(s, Next(s, step), Accepts(s, step), Closes(s, step));
  }

  lemma OpenFlow(s: State, step: Step)
    requires Enabled(s, step)
    ensures Opens(s.open, Next(s, step).open, Accepts(s, step), Closes(s, step))
  {
  }

  /** The kernel opens what is accepted, under a number not in use, or closes what is closed. */
  predicate Opens(open: set<nat>, open': set<nat>, acc: seq<Conn>, fin: seq<Conn>) {
    || (acc == [] && fin == [] && open' == open)
    || (|acc| == 1 && fin == [] && acc[0].fd !in open && open' == open + {acc[0].fd})
    || (acc == [] && |fin| == 1 && open' == open - {fin[0].fd})
  }

  lemma MatchesAcross(s: State, t: State, acc: seq<Conn>, fin: seq<Conn>)
    requires SocketsMatch(s) && Live(t) + multiset(fin) == Live(s) + multiset(acc)
    requires forall c :: Live(s)[c] <= 1
    requires Opens(s.open, t.open, acc, fin)
    ensures SocketsMatch(t)
  {
    var m, m' := Live(s), Live(t);
    if acc != [] {
      var a := acc[0];
      assert acc == [a] && m' + multiset([]) == m';
      MatchesAdd(s.open, LiveSet(s), a);
      AddToSet(m, m', a);
    } else if fin != [] {
      var a := fin[0];
      assert fin == [a] && m + multiset([]) == m;
      RemoveFromSet(m, m', a);
      MatchesRemove(s.open, LiveSet(s), a);
    } else {
      assert m' == m by {
        assert m' + multiset([]) == m' && m + multiset([]) == m;
      }
      assert LiveSet(t) == LiveSet(s);
    }
  }

  lemma AddToSet(m: multiset<Conn>, m': multiset<Conn>, a: Conn)
    requires m' == m + multiset([a])
    ensures (set c | c in m') == (set c | c in m) + {a}
  {
  }

  lemma RemoveFromSet(m: multiset<Conn>, m': multiset<Conn>, a: Conn)
    requires m' + multiset([a]) == m && m[a] <= 1
    ensures a in m && (set c | c in m') == (set c | c in m) - {a}
  {
    assert (m' + multiset([a]))[a] == m'[a] + 1;
    assert forall c :: c != a ==> (m' + multiset([a]))[c] == m'[c];
  }
}
