/** The thread pool as the program holds it: one queue, one mutex and the threads'
    positions, updated in place one atomic statement at a time. */
module ThreadPools {
  import opened WorkerPool
  import opened ThreadSchedule

  class ThreadPool {
    var m_q: seq<Conn>
    var m_mutex: Owner
    var serial: nat // of the next connection; only the specification looks at it
    const workers: array<WorkerPc>
    const pushers: array<PusherPc>
    // Kernel state and history, for the specification.
    ghost var open: set<nat>
    ghost var accepted: seq<Conn>
    ghost var pushed: seq<Conn>
    ghost var popped: seq<Conn>
    ghost var closed: seq<Conn>

    ghost function View(): State
      reads this, workers, pushers
    {
      State(m_mutex, m_q, workers[..], pushers[..], open, accepted, pushed, popped, closed)
    }

    ghost predicate Numbered()
      reads this
    {
      serial == |accepted|
    }

    constructor (num: nat, loops: nat)
      ensures workers.Length == num && forall w :: 0 <= w < num ==> workers[w] == AtLock
      ensures pushers.Length == loops && forall p :: 0 <= p < loops ==> pushers[p] == Accepting
      ensures m_q == [] && m_mutex == Free && open == {}
      ensures accepted == pushed == popped == closed == []
      ensures Numbered() && View() == Init(num, loops)
      ensures fresh(workers) && fresh(pushers)
    {
      workers := new WorkerPc[num](_ => AtLock);
      pushers := new PusherPc[loops](_ => Accepting);
      m_q, m_mutex, serial := [], Free, 0;
      open, accepted, pushed, popped, closed := {}, [], [], [], [];
    }

    // One statement of the accept loop or of PushTask.
    method RunPusher(p: nat, act: PusherAct)
      requires Enabled(View(), Pushes(p, act)) && Numbered()
      modifies this, workers, pushers
      ensures Numbered() && View() == Next(old(View()), Pushes(p, act))
    {
      ghost var before := View();
      match act {
        case Accept(fd) =>
          var c := Conn(serial, fd);
          serial := serial + 1;
          open, accepted := open + {fd}, accepted + [c];
          pushers[p] := AtPushLock(c);
        case LockToPush =>
          m_mutex := Pusher(p);
          pushers[p] := AtPush(pushers[p].own);
        case Push =>
          var c := pushers[p].own;
          m_q := m_q + [c];
          pushed := pushed + [c];
          pushers[p] := AtPushUnlock;
        case UnlockAfterPush =>
          m_mutex := Free;
          pushers[p] := AtSizeTest;
        case ReadSize =>
          pushers[p] := if |m_q| > 0 then AtSignal else Accepting;
        case Signal(woken) =>
          forall i | 0 <= i < workers.Length && i in woken {
            workers[i] := Woken;
          }
          pushers[p] := Accepting;
      }
      assert pushers[..] == before.pushers[p := PusherAfter(before, before.pushers[p], act)];
      assert workers[..] == Next(before, Pushes(p, act)).workers;
    }

    // One statement of ThreadRoutine.
    method RunWorker(w: nat, job: WorkerAct)
      requires Enabled(View(), Works(w, job)) && Numbered()
      modifies this, workers
      ensures Numbered() && View() == Next(old(View()), Works(w, job))
    {
      ghost var before := View();
      match job {
        case LockToPop =>
          m_mutex := Worker(w);
          workers[w] := AtTest;
        case TestEmpty =>
          workers[w] := if |m_q| == 0 then AtWait else AtPop;
        case Wait =>
          m_mutex := Free;
          workers[w] := Blocked;
        case WakeSpuriously =>
          workers[w] := Woken;
        case Relock =>
          m_mutex := Worker(w);
          workers[w] := AtTest;
        case Pop =>
          var out := m_q[0];
          m_q := m_q[1..];
          popped := popped + [out];
          workers[w] := AtUnlock(out);
        case UnlockAfterPop =>
          m_mutex := Free;
          workers[w] := Handling(workers[w].taken);
        case Finish =>
          ghost var c := workers[w].taken;
          open, closed := open - {c.fd}, closed + [c];
          workers[w] := AtLock;
      }
      assert workers[..] == before.workers[w := WorkerAfter(before, before.workers[w], job)];
    }

    // Other threads' statements, in whatever order the schedule has them.
    method Follow(run: seq<Step>)
      requires Runnable(View(), run) && Numbered()
      modifies this, workers, pushers
      ensures Numbered() && View() == After(old(View()), run)
    {
      for i := 0 to |run|
        invariant Numbered() && Runnable(View(), run[i..])
        invariant After(View(), run[i..]) == After(old(View()), run)
      {
        assert run[i..][0] == run[i] && run[i..][1..] == run[i + 1..];
        match run[i] {
          case Pushes(p, act) => RunPusher(p, act);
          case Works(w, job) => RunWorker(w, job);
        }
      }
    }

    // ---- The source's own control flow, other threads running between its statements ----

    // What the others do before the next statement of me.
    method Others(me: Thread, sched: seq<Slice>)
      requires Numbered() && Round(View(), me, sched) && (Home(View(), me) ==> sched != [])
      modifies this, workers, pushers
      ensures sched != [] && Numbered() && View() == After(old(View()), sched[0].others)
      ensures Undisturbed(old(View()), View(), me) && Mine(me, sched[0].own) && Enabled(View(), sched[0].own)
      ensures var t := Next(View(), sched[0].own);
        Round(t, me, sched[1..]) && Woven(t, me, sched[1..]) == Woven(old(View()), me, sched)
    {
      NextSlice(View(), me, sched);
      Follow(sched[0].others);
    }

    /** A round that ends in goal. */
    ghost predicate Starts(goal: State, me: Thread, sched: seq<Slice>)
      reads this, workers, pushers
    {
      Numbered() && Round(View(), me, sched) && Woven(View(), me, sched) == goal && sched != []
    }

    /** What is left of it. */
    ghost predicate Toward(goal: State, me: Thread, rest: seq<Slice>)
      reads this, workers, pushers
    {
      Numbered() && Round(View(), me, rest) && Woven(View(), me, rest) == goal && (Home(View(), me) ==> rest == [])
    }

    lemma AtGoal(goal: State, me: Thread, rest: seq<Slice>)
      requires Toward(goal, me, rest) && Home(View(), me)
      ensures Numbered() && View() == goal
    {
    }

    // The others, and then the next statement of the program.
    method Do(me: Thread, stmt: Statement, sched: seq<Slice>, ghost goal: State) returns (rest: seq<Slice>)
      requires Comes(View(), me, stmt)
      requires if Home(View(), me) then Starts(goal, me, sched) else Toward(goal, me, sched)
      modifies this, workers, pushers
      ensures Toward(goal, me, rest) && |rest| < |sched| && Done(View(), me, stmt)
    {
      ghost var start := View();
      Others(me, sched);
      StatementDone(start, View(), me, sched[0].own, stmt);
      rest := sched[1..];
      match sched[0].own {
        case Pushes(p, act) => RunPusher(p, act);
        case Works(w, job) => RunWorker(w, job);
      }
    }

    // ThreadPool::PushTask.
    method PushTask(p: nat, sched: seq<Slice>, ghost goal: State)
      requires Toward(goal, PusherThread(p), sched) && p < pushers.Length && pushers[p].AtPushLock?
      modifies this, workers, pushers
      ensures Numbered() && View() == goal && pushers[p] == Accepting
    {
      var me := PusherThread(p);
      var rest := Do(me, LockCall, sched, goal);
      rest := Do(me, PushCall, rest, goal);
      rest := Do(me, UnlockCall, rest, goal);
      SignalIfAny(p, rest, goal);
    }

    // Its end, without the mutex.
    method SignalIfAny(p: nat, sched: seq<Slice>, ghost goal: State)
      requires Toward(goal, PusherThread(p), sched) && p < pushers.Length && pushers[p] == AtSizeTest
      modifies this, workers, pushers
      ensures Numbered() && View() == goal && pushers[p] == Accepting
    {
      var me := PusherThread(p);
      var rest := Do(me, SizeCall, sched, goal);
      if pushers[p] == AtSignal {
        rest := Do(me, SignalCall, rest, goal);
      }
      AtGoal(goal, me, rest);
    }

    // One round of HttpServer::Loop: one connection is accepted, and that one is queued.
    method AcceptOne(p: nat, sched: seq<Slice>) returns (ghost c: Conn)
      requires Numbered() && p < pushers.Length && pushers[p] == Accepting
      requires Round(View(), PusherThread(p), sched) && sched != []
      modifies this, workers, pushers
      ensures Numbered() && View() == Woven(old(View()), PusherThread(p), sched) && pushers[p] == Accepting
      ensures Own(old(View()), PusherThread(p), sched, Accepted) == [c]
      ensures Own(old(View()), PusherThread(p), sched, Queued) == [c]
    {
      ghost var goal := Woven(View(), PusherThread(p), sched);
      RoundBringsOne(View(), p, sched);
      c := Own(View(), PusherThread(p), sched, Accepted)[0];
      var rest := Do(PusherThread(p), AcceptCall, sched, goal);
      PushTask(p, rest, goal);
    }

    // pthread_cond_wait: it returns with the mutex held again.
    method CondWait(w: nat, sched: seq<Slice>, ghost goal: State) returns (rest: seq<Slice>)
      requires Toward(goal, WorkerThread(w), sched) && w < workers.Length && workers[w] == AtWait
      modifies this, workers, pushers
      ensures Toward(goal, WorkerThread(w), rest) && |rest| < |sched| && workers[w] == AtTest
    {
      var me := WorkerThread(w);
      rest := Do(me, WaitCall, sched, goal);
      rest := Do(me, WakeUp, rest, goal);
      if workers[w] == Woken {
        rest := Do(me, RelockCall, rest, goal);
      }
    }

    // Lock, and wait for as long as the queue is found empty.
    method AwaitTask(w: nat, sched: seq<Slice>, ghost goal: State) returns (rest: seq<Slice>)
      requires Starts(goal, WorkerThread(w), sched) && w < workers.Length && workers[w] == AtLock
      modifies this, workers, pushers
      ensures Toward(goal, WorkerThread(w), rest) && workers[w] == AtPop
    {
      var me := WorkerThread(w);
      rest := Do(me, LockCall, sched, goal);
      rest := Do(me, SizeCall, rest, goal);
      while workers[w] == AtWait
        invariant Toward(goal, me, rest) && (workers[w] == AtWait || workers[w] == AtPop)
        decreases |rest|
      {
        rest := WaitAndLook(w, rest, goal);
      }
    }

    // The loop's body and its next test.
    method WaitAndLook(w: nat, sched: seq<Slice>, ghost goal: State) returns (rest: seq<Slice>)
      requires Toward(goal, WorkerThread(w), sched) && w < workers.Length && workers[w] == AtWait
      modifies this, workers, pushers
      ensures Toward(goal, WorkerThread(w), rest) && |rest| < |sched| && (workers[w] == AtWait || workers[w] == AtPop)
    {
      rest := CondWait(w, sched, goal);
      rest := Do(WorkerThread(w), SizeCall, rest, goal);
    }

    method TakeTask(w: nat, sched: seq<Slice>, ghost goal: State)
      requires Toward(goal, WorkerThread(w), sched) && w < workers.Length && workers[w] == AtPop
      modifies this, workers, pushers
      ensures Numbered() && View() == goal && workers[w] == AtLock
    {
      var me := WorkerThread(w);
      var rest := Do(me, PopCall, sched, goal);
      rest := Do(me, UnlockCall, rest, goal);
      rest := Do(me, HandleCall, rest, goal);
      AtGoal(goal, me, rest);
    }

    // One round of ThreadPool::ThreadRoutine: one connection is dequeued, and that one closed.
    method ServeOne(w: nat, sched: seq<Slice>) returns (ghost t: Conn)
      requires Numbered() && w < workers.Length && workers[w] == AtLock
      requires Round(View(), WorkerThread(w), sched) && sched != []
      modifies this, workers, pushers
      ensures Numbered() && View() == Woven(old(View()), WorkerThread(w), sched) && workers[w] == AtLock
      ensures Own(old(View()), WorkerThread(w), sched, Dequeued) == [t]
      ensures Own(old(View()), WorkerThread(w), sched, Closed) == [t]
    {
      ghost var goal := Woven(View(), WorkerThread(w), sched);
      RoundServesOne(View(), w, sched);
      t := Own(View(), WorkerThread(w), sched, Dequeued)[0];
      var rest := AwaitTask(w, sched, goal);
      TakeTask(w, rest, goal);
    }

    // The endless loops of one worker and of one accept loop, for as many rounds as given.
    method ThreadRoutine(w: nat, rounds: seq<seq<Slice>>)
      requires Numbered() && w < workers.Length && workers[w] == AtLock && Rounds(View(), WorkerThread(w), rounds)
      modifies this, workers, pushers
      ensures Numbered() && View() == AllWoven(old(View()), WorkerThread(w), rounds) && workers[w] == AtLock
    {
      for k := 0 to |rounds|
        invariant Numbered() && workers[w] == AtLock && Rounds(View(), WorkerThread(w), rounds[k..])
        invariant AllWoven(View(), WorkerThread(w), rounds[k..]) == AllWoven(old(View()), WorkerThread(w), rounds)
      {
        assert rounds[k..][0] == rounds[k] && rounds[k..][1..] == rounds[k + 1..];
        ghost var t := ServeOne(w, rounds[k]);
      }
    }

    method Loop(p: nat, rounds: seq<seq<Slice>>)
      requires Numbered() && p < pushers.Length && pushers[p] == Accepting && Rounds(View(), PusherThread(p), rounds)
      modifies this, workers, pushers
      ensures Numbered() && View() == AllWoven(old(View()), PusherThread(p), rounds) && pushers[p] == Accepting
    {
      for k := 0 to |rounds|
        invariant Numbered() && pushers[p] == Accepting && Rounds(View(), PusherThread(p), rounds[k..])
        invariant AllWoven(View(), PusherThread(p), rounds[k..]) == AllWoven(old(View()), PusherThread(p), rounds)
      {
        assert rounds[k..][0] == rounds[k] && rounds[k..][1..] == rounds[k + 1..];
        ghost var c := AcceptOne(p, rounds[k]);
      }
    }
  }
}
