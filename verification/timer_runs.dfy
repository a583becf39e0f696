/** Whole runs of the timer heap: any mix of add, cancel, pop and tick, from an empty
    heap or one built from an array, on a clock that does not go back. */
module TimerRuns {
  import opened HeapOrder
  import opened Totals

  /** How a timer left the heap: tick number k called it, or passed over it because its
      callback had been taken away, or pop_timer discarded it. */
  datatype Fate = Called(k: nat) | Skipped(k: nat) | Discarded

  datatype Exit = Exit(timer: HeapTimer, fate: Fate)

  /** The calls.  A timer is made at one time, with a delay, and added at another. */
  datatype Op =
    | AddTimer(timer: HeapTimer, made: int, delay: int, at: int)
    | Cancel(timer: HeapTimer)
    | PopTimer
    | Tick(now: int)

  /** The heap, with its history: what was added and when (counted in ticks), which timers
      have no callback, the tick times, the exits in order, and pointers copied.  The clock
      is the time of the last call that has one. */
  datatype State = State(
    items: seq<HeapTimer>,
    cap: nat,
    copied: nat,
    added: seq<HeapTimer>,
    since: map<HeapTimer, nat>,
    cancelled: set<HeapTimer>,
    clock: int,
    ticks: seq<int>,
    exits: seq<Exit>)

  ghost predicate Startable(initial: seq<HeapTimer>, cap: nat) {
    |initial| <= cap && cap >= 1 && forall i, j :: 0 <= i < j < |initial| ==> initial[i] != initial[j]
  }

  /** A heap made at time now, silent being the timers that never had a callback. */
  function Start(initial: seq<HeapTimer>, cap: nat, silent: set<HeapTimer>, now: int): State {
    State(if initial == [] then [] else Build(initial, (|initial| - 1) / 2),
          cap, 0, initial, map t | t in initial :: 0, silent, now, [], [])
  }

  function Exited(s: State): set<HeapTimer> {
    set e | e in s.exits :: e.timer
  }

  /** A timer is added once, one that has been freed is not touched, time does not go back. */
  predicate Legal(s: State, op: Op) {
    match op
    case AddTimer(t, made, delay, at) =>
      t !in s.added && t.expire == made + delay && made <= at && s.clock <= at
    case Cancel(t) => t !in Exited(s)
    case PopTimer => true
    case Tick(now) => s.clock <= now
  }

  function Exits(due: seq<HeapTimer>, k: nat, cancelled: set<HeapTimer>): (r: seq<Exit>)
    ensures |r| == |due|
  {
    seq(|due|, i requires 0 <= i < |due| => Exit(due[i], if due[i] in cancelled then Skipped(k) else Called(k)))
  }

  function Next(s: State, op: Op): State
    requires Legal(s, op)
  {
    match op
    case AddTimer(t, _, _, at) =>
      var full := |s.items| >= s.cap;
      s.(items := Add(s.items, t), added := s.added + [t], since := s.since[t := |s.ticks|], clock := at,
         cap := if full then 2 * s.cap else s.cap,
         copied := if full then s.copied + |s.items| else s.copied)
    case Cancel(t) => s.(cancelled := s.cancelled + {t})
    case PopTimer =>
      if s.items == [] then s
      else s.(items := Pop(s.items), exits := s.exits + [Exit(s.items[0], Discarded)])
    case Tick(now) =>
      s.(items := Later(s.items, now), clock := now, ticks := s.ticks + [now],
         exits := s.exits + Exits(Due(s.items, now), |s.ticks|, s.cancelled))
  }

  ghost predicate Runnable(s: State, run: seq<Op>)
    decreases run
  {
    run == [] || (Legal(s, run[0]) && Runnable(Next(s, run[0]), run[1..]))
  }

  ghost function After(s: State, run: seq<Op>): State
    requires Runnable(s, run)
    decreases run
  {
    if run == [] then s else After(Next(s, run[0]), run[1..])
  }

  // ---- When timers leave -----------------------------------------------------------

  /** Ticks number from to upto (exclusive) all came before t was due. */
  ghost predicate NotYet(ticks: seq<int>, from: nat, upto: nat, t: HeapTimer) {
    upto <= |ticks| && forall k :: from <= k < upto ==> ticks[k] < t.expire
  }

  /** A timer in the heap has not been reached by any tick since it was added. */
  ghost predicate Waiting(s: State) {
    forall t :: t in s.items ==> t in s.since && s.since[t] <= |s.ticks| && NotYet(s.ticks, s.since[t], |s.ticks|, t)
  }

  /** A timer that a tick took out was due then and at no earlier tick since it was added. */
  ghost predicate FirstTick(s: State, e: Exit, k: nat) {
    && e.timer in s.since && s.since[e.timer] <= k < |s.ticks|
    && e.timer.expire <= s.ticks[k]
    && NotYet(s.ticks, s.since[e.timer], k, e.timer)
  }

  ghost predicate Punctual(s: State, e: Exit) {
    match e.fate
    case Called(k) => FirstTick(s, e, k) && e.timer !in s.cancelled
    case Skipped(k) => FirstTick(s, e, k) && e.timer in s.cancelled
    case Discarded => true
  }

  ghost predicate AllPunctual(s: State) {
    forall i :: 0 <= i < |s.exits| ==> Punctual(s, s.exits[i])
  }

  function Timers(exits: seq<Exit>): (r: seq<HeapTimer>)
    ensures |r| == |exits|
  {
    seq(|exits|, i requires 0 <= i < |exits| => exits[i].timer)
  }

  /** Every timer added is in the heap once or has left once. */
  ghost predicate Accounted(s: State) {
    && multiset(s.added) == multiset(s.items) + multiset(Timers(s.exits))
    && (forall i, j :: 0 <= i < j < |s.added| ==> s.added[i] != s.added[j])
  }

  ghost predicate Inv(s: State) {
    && IsHeap(s.items) && Waiting(s) && AllPunctual(s) && Accounted(s)
    && (forall t :: t in s.added ==> t in s.since)
    && (forall t :: t in s.since ==> t in s.added)
    && (forall k :: 0 <= k < |s.ticks| ==> s.ticks[k] <= s.clock)
  }

  lemma TimersAppend(a: seq<Exit>, b: seq<Exit>)
    ensures Timers(a + b) == Timers(a) + Timers(b)
  {
  }

  lemma TimersOfExits(due: seq<HeapTimer>, k: nat, cancelled: set<HeapTimer>)
    ensures Timers(Exits(due, k, cancelled)) == due
  {
  }

  lemma AddAccounted(s: State, op: Op)
    requires Inv(s) && op.AddTimer? && Legal(s, op)
    ensures Accounted(Next(s, op)) && IsHeap(Add(s.items, op.timer))
    ensures forall x :: x in Add(s.items, op.timer) ==> x == op.timer || x in s.items
  {
    var (t, r) := (op.timer, Next(s, op));
    AddKeeps(s.items, t);
    assert multiset(r.added) == multiset(s.added) + multiset{t};
    forall x | x in Add(s.items, t) ensures x == t || x in s.items {
      assert x in multiset(Add(s.items, t));
    }
  }

  lemma LiveNotExited(s: State, t: HeapTimer)
    requires Accounted(s) && t in s.items
    ensures t !in Exited(s) && t in s.added
  {
    assert t in multiset(s.items) && t in multiset(s.added);
    if e :| e in s.exits && e.timer == t {
      var i :| 0 <= i < |s.exits| && s.exits[i] == e;
      assert Timers(s.exits)[i] == t;
      assert multiset(s.added)[t] >= 2;
      DistinctOnce(s.added);
    }
  }

  lemma AddStep(s: State, op: Op)
    requires Inv(s) && op.AddTimer? && Legal(s, op)
    ensures Inv(Next(s, op))
  {
    AddAccounted(s, op);
    var (t, r) := (op.timer, Next(s, op));
    forall i | 0 <= i < |r.exits| ensures Punctual(r, r.exits[i]) {
      var e := s.exits[i];
      assert Punctual(s, e);
      ExitedAdded(s, i);
    }
    forall x | x in r.items
      ensures x in r.since && r.since[x] <= |r.ticks| && NotYet(r.ticks, r.since[x], |r.ticks|, x)
    {
      if x != t {
        assert x in s.items;
        LiveNotExited(s, x);
      }
    }
  }

  lemma ExitedAdded(s: State, i: nat)
    requires Accounted(s) && i < |s.exits|
    ensures s.exits[i].timer in s.added
  {
    assert Timers(s.exits)[i] == s.exits[i].timer;
    assert s.exits[i].timer in multiset(Timers(s.exits));
    assert s.exits[i].timer in multiset(s.added);
  }

  lemma CancelStep(s: State, t: HeapTimer)
    requires Inv(s) && Legal(s, Cancel(t))
    ensures Inv(Next(s, Cancel(t)))
  {
    var r := Next(s, Cancel(t));
    forall i | 0 <= i < |r.exits| ensures Punctual(r, r.exits[i]) {
      assert Punctual(s, s.exits[i]);
      assert s.exits[i].timer in Exited(s);
    }
  }

  lemma PopStep(s: State)
    requires Inv(s)
    ensures Inv(Next(s, PopTimer))
  {
    if s.items != [] {
      PopAccounted(s);
      PopWaiting(s);
      PopPunctual(s);
    }
  }

  lemma PopAccounted(s: State)
    requires Inv(s) && s.items != []
    ensures Accounted(Next(s, PopTimer)) && IsHeap(Pop(s.items))
  {
    PopKeeps(s.items);
    TimersAppend(s.exits, [Exit(s.items[0], Discarded)]);
    assert Timers([Exit(s.items[0], Discarded)]) == [s.items[0]];
  }

  lemma PopWaiting(s: State)
    requires Inv(s) && s.items != []
    ensures Waiting(Next(s, PopTimer))
  {
    PopKeeps(s.items);
    forall x | x in Pop(s.items) ensures x in s.items {
      assert x in multiset(Pop(s.items));
      assert x in multiset(s.items);
    }
  }

  lemma PopPunctual(s: State)
    requires AllPunctual(s) && s.items != []
    ensures AllPunctual(Next(s, PopTimer))
  {
    var r := Next(s, PopTimer);
    forall i | 0 <= i < |r.exits| ensures Punctual(r, r.exits[i]) {
      if i < |s.exits| {
        assert Punctual(s, s.exits[i]);
      }
    }
  }

  lemma TickAccounted(s: State, now: int)
    requires Accounted(s) && IsHeap(s.items) && Legal(s, Tick(now))
    ensures Accounted(Next(s, Tick(now)))
  {
    var due := Due(s.items, now);
    TickSplits(s.items, now);
    TimersAppend(s.exits, Exits(due, |s.ticks|, s.cancelled));
    TimersOfExits(due, |s.ticks|, s.cancelled);
    calc {
      multiset(s.added);
      multiset(due) + multiset(Later(s.items, now)) + multiset(Timers(s.exits));
      multiset(Later(s.items, now)) + multiset(Timers(s.exits) + due);
    }
  }

  lemma TickMembers(items: seq<HeapTimer>, now: int)
    requires IsHeap(items)
    ensures forall t :: t in Later(items, now) ==> t in items && t.expire > now
    ensures forall i :: 0 <= i < |Due(items, now)| ==> Due(items, now)[i] in items && Due(items, now)[i].expire <= now
  {
    TickSplits(items, now);
    var (later, due) := (Later(items, now), Due(items, now));
    forall t | t in later ensures t in items && t.expire > now {
      assert t in multiset(later);
      assert t in multiset(items);
    }
    forall i | 0 <= i < |due| ensures due[i] in items && due[i].expire <= now {
      assert due[i] in multiset(due);
      assert due[i] in multiset(items);
    }
  }

  // One more tick leaves what was said of earlier exits and adds the due timers.
  lemma OldPunctual(s: State, r: State, e: Exit, now: int)
    requires Punctual(s, e) && r.since == s.since && r.cancelled == s.cancelled && r.ticks == s.ticks + [now]
    ensures Punctual(r, e)
  {
  }

  lemma NewPunctual(s: State, r: State, t: HeapTimer, now: int)
    requires Waiting(s) && t in s.items && t.expire <= now
    requires r.since == s.since && r.cancelled == s.cancelled && r.ticks == s.ticks + [now]
    ensures Punctual(r, Exit(t, if t in s.cancelled then Skipped(|s.ticks|) else Called(|s.ticks|)))
  {
  }

  lemma TickStep(s: State, now: int)
    requires Inv(s) && Legal(s, Tick(now))
    ensures Inv(Next(s, Tick(now)))
  {
    TickAccounted(s, now);
    TickMembers(s.items, now);
    TickHeap(s.items, now);
    TickWaiting(s, now);
    TickPunctual(s, now);
  }

  lemma TickHeap(items: seq<HeapTimer>, now: int)
    requires IsHeap(items)
    ensures IsHeap(Later(items, now))
  {
    TickBag(items, now);
  }

  lemma TickWaiting(s: State, now: int)
    requires Waiting(s) && Legal(s, Tick(now))
    requires forall t :: t in Later(s.items, now) ==> t in s.items && t.expire > now
    ensures Waiting(Next(s, Tick(now)))
  {
    var r := Next(s, Tick(now));
    forall t | t in r.items ensures NotYet(r.ticks, r.since[t], |r.ticks|, t) {
      assert t in s.items;
    }
  }

  lemma TickPunctual(s: State, now: int)
    requires Waiting(s) && AllPunctual(s) && Legal(s, Tick(now))
    requires forall i :: 0 <= i < |Due(s.items, now)| ==>
      Due(s.items, now)[i] in s.items && Due(s.items, now)[i].expire <= now
    ensures AllPunctual(Next(s, Tick(now)))
  {
    var (due, r) := (Due(s.items, now), Next(s, Tick(now)));
    forall i | 0 <= i < |r.exits| ensures Punctual(r, r.exits[i]) {
      if i < |s.exits| {
        OldPunctual(s, r, s.exits[i], now);
      } else {
        NewPunctual(s, r, due[i - |s.exits|], now);
      }
    }
  }

  lemma Step(s: State, op: Op)
    requires Inv(s) && Legal(s, op)
    ensures Inv(Next(s, op))
  {
    match op {
      case AddTimer(_, _, _, _) => AddStep(s, op);
      case Cancel(t) => CancelStep(s, t);
      case PopTimer => PopStep(s);
      case Tick(now) => TickStep(s, now);
    }
  }

  lemma StartInv(initial: seq<HeapTimer>, cap: nat, silent: set<HeapTimer>, now: int)
    requires Startable(initial, cap)
    ensures Inv(Start(initial, cap, silent, now))
  {
    var s := Start(initial, cap, silent, now);
    if initial != [] {
      BuildMakesHeap(initial);
    }
    assert Timers(s.exits) == [];
    forall t | t in s.items ensures t in s.since {
      assert t in multiset(s.items);
      assert t in multiset(initial);
    }
  }

  lemma {:induction false} RunInv(s: State, run: seq<Op>)
    requires Inv(s) && Runnable(s, run)
    ensures Inv(After(s, run))
    decreases run
  {
    if run != [] {
      Step(s, run[0]);
      RunInv(Next(s, run[0]), run[1..]);
    }
  }

  /** In every run: each timer added is still in the heap or has left exactly once; one
      still there has not been reached by a tick; one that a tick took out was taken by
      the first tick, since it was added, whose time reached its expiry, and was called
      exactly if it was never cancelled. */
  lemma TimersArePunctual(initial: seq<HeapTimer>, cap: nat, silent: set<HeapTimer>, now: int, run: seq<Op>)
    requires Startable(initial, cap) && Runnable(Start(initial, cap, silent, now), run)
    ensures var s := After(Start(initial, cap, silent, now), run);
      && multiset(s.added) == multiset(s.items) + multiset(Timers(s.exits))
      && (forall i, j :: 0 <= i < j < |s.added| ==> s.added[i] != s.added[j])
      && (forall t :: t in s.items ==>
            t in s.since && forall k :: s.since[t] <= k < |s.ticks| ==> s.ticks[k] < t.expire)
      && (forall i :: 0 <= i < |s.exits| && s.exits[i].fate != Discarded ==>
            var (t, k) := (s.exits[i].timer, s.exits[i].fate.k);
            && t in s.since && s.since[t] <= k < |s.ticks| && t.expire <= s.ticks[k]
            && (forall j :: s.since[t] <= j < k ==> s.ticks[j] < t.expire)
            && (s.exits[i].fate.Called? <==> t !in s.cancelled))
  {
    StartInv(initial, cap, silent, now);
    RunInv(Start(initial, cap, silent, now), run);
    var s := After(Start(initial, cap, silent, now), run);
    assert forall i :: 0 <= i < |s.exits| ==> Punctual(s, s.exits[i]);
  }

  // ---- Order of the calls --------------------------------------------------------------

  /** The callbacks called, in order. */
  function Log(exits: seq<Exit>): seq<HeapTimer> {
    if exits == [] then []
    else
      var last := exits[|exits| - 1];
      Log(exits[..|exits| - 1]) + if last.fate.Called? then [last.timer] else []
  }

  lemma {:induction false} LogAppend(a: seq<Exit>, b: seq<Exit>)
    ensures Log(a + b) == Log(a) + Log(b)
  {
    if b == [] {
      assert a + b == a;
    } else {
      var m := |b| - 1;
      assert (a + b)[..|a + b| - 1] == a + b[..m];
      LogAppend(a, b[..m]);
    }
  }

  /** One tick calls what TimeHeap.Tick calls. */
  lemma {:induction false} LogOfTick(due: seq<HeapTimer>, k: nat, cancelled: set<HeapTimer>)
    ensures Log(Exits(due, k, cancelled)) == Without(due, cancelled)
  {
    if due != [] {
      var (head, rest) := (Exits(due[..1], k, cancelled), Exits(due[1..], k, cancelled));
      LogOfTick(due[1..], k, cancelled);
      assert Exits(due, k, cancelled) == head + rest;
      LogAppend(head, rest);
      assert head[..0] == [];
    }
  }

  lemma LogAfterTick(s: State, now: int)
    requires Legal(s, Tick(now))
    ensures Log(Next(s, Tick(now)).exits) == Log(s.exits) + Without(Due(s.items, now), s.cancelled)
  {
    var due := Due(s.items, now);
    LogAppend(s.exits, Exits(due, |s.ticks|, s.cancelled));
    LogOfTick(due, |s.ticks|, s.cancelled);
  }

  /** A timer is added no earlier than every timer already called expires. */
  ghost predicate OnTime(s: State, op: Op) {
    op.AddTimer? ==> forall t :: t in Log(s.exits) ==> t.expire <= op.timer.expire
  }

  ghost predicate AllOnTime(s: State, run: seq<Op>)
    requires Runnable(s, run)
    decreases run
  {
    run == [] || (OnTime(s, run[0]) && AllOnTime(Next(s, run[0]), run[1..]))
  }

  ghost predicate InOrder(s: State) {
    Sorted(Log(s.exits)) && forall t, u :: t in Log(s.exits) && u in s.items ==> t.expire <= u.expire
  }

  lemma {:induction false} WithoutMembers(due: seq<HeapTimer>, cancelled: set<HeapTimer>)
    ensures forall t :: t in Without(due, cancelled) ==> t in due && t !in cancelled
    ensures forall t :: t in due && t !in cancelled ==> t in Without(due, cancelled)
    ensures Sorted(due) ==> Sorted(Without(due, cancelled))
  {
    if due != [] {
      WithoutMembers(due[1..], cancelled);
      var rest := Without(due[1..], cancelled);
      if Sorted(due) {
        forall i | 0 <= i < |rest| ensures due[0].expire <= rest[i].expire {
          assert rest[i] in rest;
          var j :| 0 <= j < |due[1..]| && due[1..][j] == rest[i];
        }
      }
    }
  }

  lemma AppendSorted(a: seq<HeapTimer>, b: seq<HeapTimer>)
    requires Sorted(a) && Sorted(b)
    requires forall t, u :: t in a && u in b ==> t.expire <= u.expire
    ensures Sorted(a + b)
  {
  }

  lemma TickInOrder(s: State, now: int)
    requires Inv(s) && InOrder(s) && Legal(s, Tick(now))
    ensures InOrder(Next(s, Tick(now)))
  {
    var due := Due(s.items, now);
    TickMembers(s.items, now);
    TickSplits(s.items, now);
    LogAfterTick(s, now);
    WithoutMembers(due, s.cancelled);
    var called := Without(due, s.cancelled);
    forall u | u in called ensures u in s.items && u.expire <= now {
      var i :| 0 <= i < |due| && due[i] == u;
    }
    AppendSorted(Log(s.exits), called);
  }

  lemma StepInOrder(s: State, op: Op)
    requires Inv(s) && InOrder(s) && Legal(s, op) && OnTime(s, op)
    ensures InOrder(Next(s, op))
  {
    match op {
      case AddTimer(_, _, _, _) => AddAccounted(s, op);
      case Cancel(t) =>
      case PopTimer =>
        if s.items != [] {
          LogAppend(s.exits, [Exit(s.items[0], Discarded)]);
          assert Log([Exit(s.items[0], Discarded)]) == [];
          PopKeeps(s.items);
          forall x | x in Pop(s.items) ensures x in s.items {
            assert x in multiset(Pop(s.items));
            assert x in multiset(s.items);
          }
        }
      case Tick(now) => TickInOrder(s, now);
    }
  }

  lemma {:induction false} RunInOrder(s: State, run: seq<Op>)
    requires Inv(s) && InOrder(s) && Runnable(s, run) && AllOnTime(s, run)
    ensures InOrder(After(s, run))
    decreases run
  {
    if run != [] {
      Step(s, run[0]);
      StepInOrder(s, run[0]);
      RunInOrder(Next(s, run[0]), run[1..]);
    }
  }

  /** Over a whole run in which timers are added on time, callbacks are called in the
      order of their expiry, across all ticks. */
  lemma CallsAreSorted(initial: seq<HeapTimer>, cap: nat, silent: set<HeapTimer>, now: int, run: seq<Op>)
    requires Startable(initial, cap) && Runnable(Start(initial, cap, silent, now), run)
    requires AllOnTime(Start(initial, cap, silent, now), run)
    ensures Sorted(Log(After(Start(initial, cap, silent, now), run).exits))
  {
    StartInv(initial, cap, silent, now);
    RunInOrder(Start(initial, cap, silent, now), run);
  }

  /** A timer made with a delay of at least 0 and added before any tick comes between. */
  ghost predicate Prompt(s: State, op: Op) {
    op.AddTimer? ==> op.delay >= 0 && !exists k :: 0 <= k < |s.ticks| && op.made < s.ticks[k] <= op.at
  }

  ghost predicate AllPrompt(s: State, run: seq<Op>)
    requires Runnable(s, run)
    decreases run
  {
    run == [] || (Prompt(s, run[0]) && AllPrompt(Next(s, run[0]), run[1..]))
  }

  lemma PromptIsOnTime(s: State, op: Op)
    requires Inv(s) && Legal(s, op) && Prompt(s, op)
    ensures OnTime(s, op)
  {
    if op.AddTimer? {
      forall u | u in Log(s.exits) ensures u.expire <= op.timer.expire {
        var i := LogEntry(s.exits, u);
        assert Punctual(s, s.exits[i]);
        assert s.ticks[s.exits[i].fate.k] <= op.made;
      }
    }
  }

  lemma {:induction false} PromptRunIsOnTime(s: State, run: seq<Op>)
    requires Inv(s) && Runnable(s, run) && AllPrompt(s, run)
    ensures AllOnTime(s, run)
    decreases run
  {
    if run != [] {
      PromptIsOnTime(s, run[0]);
      Step(s, run[0]);
      PromptRunIsOnTime(Next(s, run[0]), run[1..]);
    }
  }

  /** On a clock that does not go back, with delays of at least 0 and no tick between the
      making of a timer and its adding, every run calls its callbacks in the order of their
      expiry. */
  lemma PromptCallsAreSorted(initial: seq<HeapTimer>, cap: nat, silent: set<HeapTimer>, now: int, run: seq<Op>)
    requires Startable(initial, cap) && Runnable(Start(initial, cap, silent, now), run)
    requires AllPrompt(Start(initial, cap, silent, now), run)
    ensures Sorted(Log(After(Start(initial, cap, silent, now), run).exits))
  {
    StartInv(initial, cap, silent, now);
    PromptRunIsOnTime(Start(initial, cap, silent, now), run);
    CallsAreSorted(initial, cap, silent, now, run);
  }

  /** Two timers made at time 0 with delays 8 and 5; a tick at time 10 comes before the
      second is added. */
  function LateRun(early: HeapTimer, late: HeapTimer): seq<Op> {
    [AddTimer(late, 0, 8, 0), Tick(10), AddTimer(early, 0, 5, 10), Tick(11)]
  }

  /** Delays of at least 0 and the clock are not enough: in this run the timer due at 8 is
      called before the one due at 5. */
  lemma LateAddMisorders(early: HeapTimer, late: HeapTimer)
    requires early.expire == 5 && late.expire == 8
    ensures var s := Start([], 1, {}, 0);
      && Runnable(s, LateRun(early, late)) && !AllPrompt(s, LateRun(early, late))
      && Log(After(s, LateRun(early, late)).exits) == [late, early] && !Sorted([late, early])
  {
    var (s0, run) := (Start([], 1, {}, 0), LateRun(early, late));
    var s2 := AloneIsCalled(s0, run[0], 10, run[2..]);
    var s4 := AloneIsCalled(s2, run[2], 11, []);
    assert [run[0], Tick(10)] + run[2..] == run && [run[2], Tick(11)] + [] == run[2..];
    assert s2.ticks[0] == 10 && !Prompt(s2, run[2]);
    assert After(s4, []) == s4;
    assert [late, early][0].expire > [late, early][1].expire;
  }

  lemma OneStep(s: State, a: Op, rest: seq<Op>)
    requires Legal(s, a)
    ensures Runnable(s, [a] + rest) <==> Runnable(Next(s, a), rest)
    ensures Runnable(Next(s, a), rest) ==>
      && After(s, [a] + rest) == After(Next(s, a), rest)
      && (AllPrompt(s, [a] + rest) <==> Prompt(s, a) && AllPrompt(Next(s, a), rest))
  {
    var run := [a] + rest;
    assert run[0] == a && run[1..] == rest;
  }

  // A timer added to an empty heap, already due at the next tick, at the head of a run.
  lemma AloneIsCalled(s: State, op: Op, now: int, rest: seq<Op>) returns (r: State)
    requires s.items == [] && op.AddTimer? && Legal(s, op) && op.at <= now && op.timer.expire <= now
    requires op.timer !in s.cancelled
    ensures r.items == [] && Log(r.exits) == Log(s.exits) + [op.timer] && r.added == s.added + [op.timer]
    ensures r.clock == now && r.ticks == s.ticks + [now] && r.cancelled == s.cancelled
    ensures var run := [op, Tick(now)] + rest;
      && (Runnable(s, run) <==> Runnable(r, rest))
      && (Runnable(r, rest) ==> After(s, run) == After(r, rest) && (AllPrompt(s, run) ==> AllPrompt(r, rest)))
  {
    var t := Next(s, op);
    assert Add([], op.timer) == [op.timer];
    r := Next(t, Tick(now));
    AloneGoes(t, op.timer, now);
    assert [op, Tick(now)] + rest == [op] + ([Tick(now)] + rest);
    OneStep(t, Tick(now), rest);
    OneStep(s, op, [Tick(now)] + rest);
  }

  lemma AloneGoes(s: State, t: HeapTimer, now: int)
    requires s.items == [t] && t !in s.cancelled && t.expire <= now && Legal(s, Tick(now))
    ensures var r := Next(s, Tick(now));
      r.items == [] && Log(r.exits) == Log(s.exits) + [t]
  {
    assert Pop([t]) == [] && Due([], now) == [];
    assert Due([t], now) == [t] + Due(Pop([t]), now);
    assert Later([t], now) == Later(Pop([t]), now);
    LogAfterTick(s, now);
    assert [t][1..] == [];
    assert Without([t], s.cancelled) == [t];
  }

  lemma {:induction false} LogEntry(exits: seq<Exit>, t: HeapTimer) returns (i: nat)
    requires t in Log(exits)
    ensures i < |exits| && exits[i].timer == t && exits[i].fate.Called?
  {
    var m := |exits| - 1;
    if exits[m].fate.Called? && exits[m].timer == t {
      i := m;
    } else {
      i := LogEntry(exits[..m], t);
    }
  }

  /** On time is exactly what order needs: adding a timer that is not cancelled keeps the
      calls sorted at whatever time the next tick comes if and only if it is on time. */
  lemma OnTimeIsNeeded(s: State, op: Op)
    requires Inv(s) && InOrder(s) && op.AddTimer? && Legal(s, op) && op.timer !in s.cancelled
    ensures var r := Next(s, op);
      OnTime(s, op) <==> forall now :: Legal(r, Tick(now)) ==> Sorted(Log(Next(r, Tick(now)).exits))
  {
    var r := Next(s, op);
    AddStep(s, op);
    if OnTime(s, op) {
      StepInOrder(s, op);
      forall now | Legal(r, Tick(now)) ensures Sorted(Log(Next(r, Tick(now)).exits)) {
        TickInOrder(r, now);
      }
    } else {
      var u :| u in Log(s.exits) && u.expire > op.timer.expire;
      var now := if r.clock < op.timer.expire then op.timer.expire else r.clock;
      LateCall(s, op, u, now);
      assert Legal(r, Tick(now)) && !Sorted(Log(Next(r, Tick(now)).exits));
    }
  }

  lemma LateCall(s: State, op: Op, u: HeapTimer, now: int)
    requires Inv(s) && op.AddTimer? && Legal(s, op) && op.timer !in s.cancelled
    requires u in Log(s.exits) && u.expire > op.timer.expire && op.timer.expire <= now && Legal(Next(s, op), Tick(now))
    ensures !Sorted(Log(Next(Next(s, op), Tick(now)).exits))
  {
    var (t, r) := (op.timer, Next(s, op));
    AddKeeps(s.items, t);
    assert t in multiset(r.items);
    DueIsCalled(r, t, now);
    var (before, after) := (Log(s.exits), Log(Next(r, Tick(now)).exits));
    var i :| 0 <= i < |before| && before[i] == u;
    var j :| |before| <= j < |after| && after[j] == t;
    assert after[i] == before[i];
  }

  lemma DueIsCalled(s: State, t: HeapTimer, now: int)
    requires IsHeap(s.items) && t in s.items && t !in s.cancelled && t.expire <= now && Legal(s, Tick(now))
    ensures var (before, after) := (Log(s.exits), Log(Next(s, Tick(now)).exits));
      before <= after && exists j :: |before| <= j < |after| && after[j] == t
  {
    TickSplits(s.items, now);
    LogAfterTick(s, now);
    WithoutMembers(Due(s.items, now), s.cancelled);
    InSecondPart(Log(s.exits), Without(Due(s.items, now), s.cancelled), t);
  }

  lemma InSecondPart<T>(a: seq<T>, b: seq<T>, t: T)
    requires t in b
    ensures a <= a + b && exists j :: |a| <= j < |a + b| && (a + b)[j] == t
  {
    var j :| 0 <= j < |b| && b[j] == t;
    assert (a + b)[|a| + j] == t;
  }

  // ---- Cost of growing ---------------------------------------------------------------------

  ghost predicate Grown(s: State, cap: nat) {
    && s.copied + cap == s.cap && cap >= 1
    && |s.items| <= s.cap && |s.items| <= |s.added|
    && (s.cap == cap || s.cap <= 2 * |s.added| - 2)
  }

  lemma {:induction false} LaterShrinks(items: seq<HeapTimer>, now: int)
    ensures |Later(items, now)| <= |items|
    decreases |items|
  {
    if items != [] && items[0].expire <= now {
      LaterShrinks(Pop(items), now);
    }
  }

  lemma {:induction false} RunGrown(s: State, cap: nat, run: seq<Op>)
    requires Grown(s, cap) && Runnable(s, run)
    ensures Grown(After(s, run), cap)
    decreases run
  {
    if run != [] {
      if run[0].Tick? {
        LaterShrinks(s.items, run[0].now);
      }
      RunGrown(Next(s, run[0]), cap, run[1..]);
    }
  }

  /** However adds, pops and ticks interleave, resizing copies fewer pointers in all than
      twice the timers the heap has ever held, and the heap always has room. */
  lemma GrowthIsLinear(initial: seq<HeapTimer>, cap: nat, silent: set<HeapTimer>, now: int, run: seq<Op>)
    requires Startable(initial, cap) && Runnable(Start(initial, cap, silent, now), run)
    ensures var s := After(Start(initial, cap, silent, now), run);
      && |s.items| <= s.cap
      && (s.copied == 0 || s.copied + cap + 2 <= 2 * |s.added|)
  {
    RunGrown(Start(initial, cap, silent, now), cap, run);
  }
}
