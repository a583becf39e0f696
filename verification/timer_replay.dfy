/** TimeHeap driven through any legal sequence of calls goes, call by call, where the runs
    of TimerRuns go, so what is proved of those runs holds of the array and its history. */
module TimerReplay {
  import opened HeapOrder
  import opened TimerRuns
  import TimeHeaps

  /** The heap object is in state s.  all holds every timer the calls may mention. */
  ghost predicate Shows(h: TimeHeaps.TimeHeap, s: State, all: set<HeapTimer>)
    reads h, h.slots, all
  {
    && h.Valid() && h.capacity == s.cap >= 1 && h.copied == s.copied
    && h.Contents() == s.items && h.freed == Timers(s.exits) && h.fired == Log(s.exits)
    && h.given == TimeHeaps.Elements(s.added) <= all
    && (forall t :: t in all ==> (t.hasCallback <==> t !in s.cancelled))
  }

  function Mentioned(op: Op): set<HeapTimer> {
    match op
    case AddTimer(t, _, _, _) => {t}
    case Cancel(t) => {t}
    case _ => {}
  }

  // Only what is cancelled among the due timers matters.
  lemma {:induction false} WithoutAgrees(due: seq<HeapTimer>, a: set<HeapTimer>, b: set<HeapTimer>)
    requires forall t :: t in due ==> (t in a <==> t in b)
    ensures Without(due, a) == Without(due, b)
  {
    if due != [] {
      assert due[0] in due;
      WithoutAgrees(due[1..], a, b);
    }
  }

  lemma ExitedTimers(s: State)
    ensures forall t :: t in Timers(s.exits) ==> t in Exited(s)
  {
  }

  lemma TickEffects(s: State, now: int, cancelled: set<HeapTimer>)
    requires IsHeap(s.items) && Legal(s, Tick(now))
    requires forall t :: t in s.items ==> (t in cancelled <==> t in s.cancelled)
    ensures var r := Next(s, Tick(now));
      && Timers(r.exits) == Timers(s.exits) + Due(s.items, now)
      && Log(r.exits) == Log(s.exits) + Without(Due(s.items, now), cancelled)
  {
    var due := Due(s.items, now);
    TimersAppend(s.exits, Exits(due, |s.ticks|, s.cancelled));
    TimersOfExits(due, |s.ticks|, s.cancelled);
    LogAfterTick(s, now);
    TickMembers(s.items, now);
    WithoutAgrees(due, cancelled, s.cancelled);
  }

  lemma LiveGiven(given: set<HeapTimer>, live: seq<HeapTimer>, freed: seq<HeapTimer>)
    requires TimeHeaps.Owned(given, live, freed)
    ensures forall t :: t in live ==> t in given
  {
    forall t | t in live ensures t in given {
      assert t in multiset(live) && t in multiset(given);
    }
  }

  lemma PopEffects(s: State)
    requires s.items != []
    ensures var r := Next(s, PopTimer);
      Timers(r.exits) == Timers(s.exits) + [s.items[0]] && Log(r.exits) == Log(s.exits)
  {
    var e := [Exit(s.items[0], Discarded)];
    TimersAppend(s.exits, e);
    LogAppend(s.exits, e);
    assert Timers(e) == [s.items[0]] && Log(e) == [];
  }

  method PerformAdd(h: TimeHeaps.TimeHeap, op: Op, ghost s: State, ghost all: set<HeapTimer>)
    requires Shows(h, s, all) && op.AddTimer? && Legal(s, op) && op.timer in all
    modifies h, h.slots
    ensures Shows(h, Next(s, op), all) && (h.slots == old(h.slots) || fresh(h.slots))
  {
    ghost var moves := h.AddTimer(op.timer);
  }

  method PerformCancel(h: TimeHeaps.TimeHeap, op: Op, ghost s: State, ghost all: set<HeapTimer>)
    requires Shows(h, s, all) && op.Cancel? && Legal(s, op) && op.timer in all
    modifies op.timer
    ensures Shows(h, Next(s, op), all)
  {
    ExitedTimers(s);
    h.DelTimer(op.timer);
  }

  method PerformPop(h: TimeHeaps.TimeHeap, ghost s: State, ghost all: set<HeapTimer>)
    requires Shows(h, s, all)
    modifies h, h.slots
    ensures Shows(h, Next(s, PopTimer), all) && h.slots == old(h.slots)
  {
    if s.items != [] {
      PopEffects(s);
    }
    ghost var moves := h.PopTimer();
  }

  method PerformTick(h: TimeHeaps.TimeHeap, now: int, ghost s: State, ghost all: set<HeapTimer>)
    requires Shows(h, s, all) && Legal(s, Tick(now))
    modifies h, h.slots
    ensures Shows(h, Next(s, Tick(now)), all) && h.slots == old(h.slots)
  {
    LiveGiven(h.given, h.Contents(), h.freed);
    TickEffects(s, now, h.Cancelled());
    h.Tick(now);
  }

  method Perform(h: TimeHeaps.TimeHeap, op: Op, ghost s: State, ghost all: set<HeapTimer>)
    requires Shows(h, s, all) && Legal(s, op) && Mentioned(op) <= all
    modifies h, h.slots, all
    ensures Shows(h, Next(s, op), all)
    ensures h.slots == old(h.slots) || fresh(h.slots)
  {
    match op {
      case AddTimer(_, _, _, _) => PerformAdd(h, op, s, all);
      case Cancel(_) => PerformCancel(h, op, s, all);
      case PopTimer => PerformPop(h, s, all);
      case Tick(now) => PerformTick(h, now, s, all);
    }
  }

  /** Any run of calls, from any state that h shows. */
  method Replay(h: TimeHeaps.TimeHeap, run: seq<Op>, ghost s: State, ghost all: set<HeapTimer>)
    requires Shows(h, s, all) && Runnable(s, run)
    requires forall i :: 0 <= i < |run| ==> Mentioned(run[i]) <= all
    modifies h, h.slots, all
    ensures Shows(h, After(s, run), all)
  {
    ghost var now := s;
    for i := 0 to |run|
      invariant Shows(h, now, all) && Runnable(now, run[i..]) && After(now, run[i..]) == After(s, run)
      invariant h.slots == old(h.slots) || fresh(h.slots)
    {
      assert run[i..][0] == run[i] && run[i..][1..] == run[i + 1..];
      Perform(h, run[i], now, all);
      now := Next(now, run[i]);
    }
  }

  ghost function Silent(all: set<HeapTimer>): set<HeapTimer>
    reads all
  {
    set t | t in all && !t.hasCallback
  }

  /** From construction through any run to destruction: every timer handed over is freed
      exactly once and resizing stays linear; and the calls come in the order of expiry if
      each timer is added on time. */
  method Lifetime(initial: array<HeapTimer>, cap: nat, now: int, run: seq<Op>, ghost all: set<HeapTimer>)
    returns (h: TimeHeaps.TimeHeap)
    requires Startable(initial[..], cap) && Runnable(Start(initial[..], cap, Silent(all), now), run)
    requires TimeHeaps.Elements(initial[..]) <= all && forall i :: 0 <= i < |run| ==> Mentioned(run[i]) <= all
    modifies all
    ensures var (s0, s) := old((Start(initial[..], cap, Silent(all), now),
                                After(Start(initial[..], cap, Silent(all), now), run)));
      && h.fired == Log(s.exits) && (AllOnTime(s0, run) ==> Sorted(h.fired))
      && h.given == TimeHeaps.Elements(s.added) && multiset(h.freed) == multiset(h.given)
      && h.copied <= 2 * |s.added|
  {
    ghost var (first, silent) := (initial[..], Silent(all));
    var r, _ := TimeHeaps.TimeHeap.FromArray(initial, initial.Length, cap);
    h := r.value;
    assert initial[..initial.Length] == first && Timers([]) == [];
    Replay(h, run, Start(first, cap, silent, now), all);
    GrowthIsLinear(first, cap, silent, now, run);
    if AllOnTime(Start(first, cap, silent, now), run) {
      CallsAreSorted(first, cap, silent, now, run);
    }
    h.Destroy();
  }

  /** The run of two timers that are called in the wrong order, on the heap itself. */
  method LateAdd() returns (h: TimeHeaps.TimeHeap, early: HeapTimer, late: HeapTimer)
    ensures early.expire == 5 && late.expire == 8 && h.fired == [late, early]
  {
    early := new HeapTimer(0, 5, true);
    late := new HeapTimer(0, 8, true);
    h := new TimeHeaps.TimeHeap(1);
    assert Timers([]) == [];
    LateAddMisorders(early, late);
    Replay(h, LateRun(early, late), Start([], 1, {}, 0), {early, late});
  }
}
