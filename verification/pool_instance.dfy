/** GetThreadPool: any number of threads asking for the one pool through a check, a
    mutex and a second check.  The unlocked reads are taken as sequentially consistent. */
module PoolInstance {
  import opened Options

  datatype CallerPc =
    | AtCheck            // first, unlocked, comparison with nullptr
    | AtMutex
    | AtRecheck
    | AtNew
    | AtInit             // the pointer is set, InitThreadPool has not run
    | AtRelease
    | AtReturn
    | Returned(pool: Option<nat>)

  /** The instance pointer names the k-th pool constructed; started counts InitThreadPool runs. */
  datatype State = State(instance: Option<nat>, owner: Option<nat>, built: nat, started: nat, callers: seq<CallerPc>)

  function Init(n: nat): State {
    State(None, None, 0, 0, seq(n, _ => AtCheck))
  }

  predicate CanStep(s: State, i: nat) {
    i < |s.callers| && !s.callers[i].Returned? && (s.callers[i] == AtMutex ==> s.owner == None)
  }

  function Next(s: State, i: nat): State
    requires CanStep(s, i)
  {
    match s.callers[i]
    case AtCheck => s.(callers := s.callers[i := if s.instance == None then AtMutex else AtReturn])
    case AtMutex => s.(callers := s.callers[i := AtRecheck], owner := Some(i))
    case AtRecheck => s.(callers := s.callers[i := if s.instance == None then AtNew else AtRelease])
    case AtNew => s.(callers := s.callers[i := AtInit], instance := Some(s.built), built := s.built + 1)
    case AtInit => s.(callers := s.callers[i := AtRelease], started := s.started + 1)
    case AtRelease => s.(callers := s.callers[i := AtReturn], owner := None)
    case AtReturn => s.(callers := s.callers[i := Returned(s.instance)])
    case Returned(_) => s
  }

  ghost predicate Runnable(s: State, run: seq<nat>)
    decreases run
  {
    run == [] || (CanStep(s, run[0]) && Runnable(Next(s, run[0]), run[1..]))
  }

  ghost function After(s: State, run: seq<nat>): State
    requires Runnable(s, run)
    decreases run
  {
    if run == [] then s else After(Next(s, run[0]), run[1..])
  }

  predicate Inside(pc: CallerPc) {
    pc == AtRecheck || pc == AtNew || pc == AtInit || pc == AtRelease
  }

  predicate Initialising(s: State) {
    s.owner.Some? && s.owner.value < |s.callers| && s.callers[s.owner.value] == AtInit
  }

  ghost predicate Inv(s: State) {
    && (forall i :: 0 <= i < |s.callers| ==> (Inside(s.callers[i]) <==> s.owner == Some(i)))
    && (s.instance == if s.built == 0 then None else Some(0))
    && s.built <= 1
    && s.started + (if Initialising(s) then 1 else 0) == s.built
    && (forall i :: 0 <= i < |s.callers| ==> s.callers[i] == AtNew ==> s.built == 0)
    && (forall i :: 0 <= i < |s.callers| ==>
          s.callers[i] == AtInit || s.callers[i] == AtRelease || s.callers[i] == AtReturn ==> s.built == 1)
    && (forall i :: 0 <= i < |s.callers| ==>
          s.callers[i].Returned? ==> s.callers[i] == Returned(Some(0)) && s.built == 1)
  }

  lemma {:induction false} RunInv(s: State, run: seq<nat>)
    requires Inv(s) && Runnable(s, run)
    ensures Inv(After(s, run))
    decreases run
  {
    if run != [] {
      StepInv(s, run[0]);
      RunInv(Next(s, run[0]), run[1..]);
    }
  }

  lemma StartInv(n: nat, run: seq<nat>)
    requires Runnable(Init(n), run)
    ensures Inv(After(Init(n), run)) && |After(Init(n), run).callers| == n
  {
    RunInv(Init(n), run);
    CallersConstant(Init(n), run);
  }

  lemma {:induction false} CallersConstant(s: State, run: seq<nat>)
    requires Runnable(s, run)
    ensures |After(s, run).callers| == |s.callers| && After(s, run).started >= s.started
    decreases run
  {
    if run != [] {
      CallersConstant(Next(s, run[0]), run[1..]);
    }
  }

  /** At most one pool is ever constructed and started, every caller that has returned got
      that pool, and its workers have been started exactly when no thread stands between
      setting the pointer and InitThreadPool. */
  lemma OnePool(n: nat, run: seq<nat>)
    requires Runnable(Init(n), run)
    ensures var s := After(Init(n), run);
      && s.built <= 1 && s.started <= s.built
      && (forall i :: 0 <= i < |s.callers| && s.callers[i].Returned? ==> s.callers[i].pool == Some(0))
      && ((exists i :: 0 <= i < |s.callers| && s.callers[i].Returned?) ==>
            (s.started == 1 <==> !exists i :: 0 <= i < |s.callers| && s.callers[i] == AtInit))
  {
    RunInv(Init(n), run);
    var s := After(Init(n), run);
    if i :| 0 <= i < |s.callers| && s.callers[i] == AtInit {
      assert Inside(s.callers[i]);
    }
  }

  // ---- When a call returns a pool whose workers have been started ----------------------

  /** Caller i holds a pool that no worker serves yet. */
  predicate Early(s: State, i: nat) {
    i < |s.callers| && s.callers[i].Returned? && s.started == 0
  }

  /** However the other threads run, caller i does not return early. */
  ghost predicate NeverEarly(s: State, i: nat) {
    forall run :: Runnable(s, run) ==> !Early(After(s, run), i)
  }

  /** Caller i goes through the mutex, or its pool has been started. */
  predicate Safe(s: State, i: nat) {
    i < |s.callers| && s.callers[i] != AtCheck
    && (s.callers[i] == AtRelease || s.callers[i] == AtReturn || s.callers[i].Returned? ==> s.started == 1)
  }

  lemma {:induction false} SafeStays(s: State, i: nat, run: seq<nat>)
    requires Inv(s) && Safe(s, i) && Runnable(s, run)
    ensures Safe(After(s, run), i)
    decreases run
  {
    if run != [] {
      SafeStep(s, i, run[0]);
      StepInv(s, run[0]);
      SafeStays(Next(s, run[0]), i, run[1..]);
    }
  }

  lemma StepInv(s: State, j: nat)
    requires Inv(s) && CanStep(s, j)
    ensures Inv(Next(s, j))
  {
  }

  // Whoever holds the mutex and finds the pointer set finds the pool started.
  lemma SafeStep(s: State, i: nat, j: nat)
    requires Inv(s) && Safe(s, i) && CanStep(s, j)
    ensures Safe(Next(s, j), i)
  {
    if j == i && s.callers[i] == AtRecheck {
      assert s.owner == Some(i) && !Initialising(s);
    }
    if s.started == 1 {
      assert Inv(Next(s, j));
    }
  }

  /** A call never returns a pool without workers, whatever the other threads do, if and
      only if its unlocked check finds no pool yet or one that has been started. */
  lemma CallIsSafe(s: State, i: nat)
    requires Inv(s) && i < |s.callers| && s.callers[i] == AtCheck
    ensures NeverEarly(Next(s, i), i) <==> s.instance == None || s.started == 1
  {
    var t := Next(s, i);
    StepInv(s, i);
    if s.instance == None || s.started == 1 {
      forall run | Runnable(t, run) ensures !Early(After(t, run), i) {
        SafeStays(t, i, run);
      }
    } else {
      OneMore(t, i, []);
      assert Early(After(t, [i]), i);
    }
  }

  lemma OneMore(s: State, i: nat, rest: seq<nat>)
    requires CanStep(s, i) && Runnable(Next(s, i), rest)
    ensures Runnable(s, [i] + rest) && After(s, [i] + rest) == After(Next(s, i), rest)
  {
    assert ([i] + rest)[1..] == rest;
  }

  // The first caller has set the pointer and not started the workers; the rest wait.
  function HalfMade(n: nat): State
    requires n >= 1
  {
    State(Some(0), Some(0), 1, 0, seq(n, i => if i == 0 then AtInit else AtCheck))
  }

  lemma HalfMadeIsReached(n: nat, rest: seq<nat>) returns (run: seq<nat>)
    requires n >= 1 && Runnable(HalfMade(n), rest)
    ensures Runnable(Init(n), run) && After(Init(n), run) == After(HalfMade(n), rest)
  {
    var s := Init(n);
    var s1 := Next(s, 0);
    var s2 := Next(s1, 0);
    var s3 := Next(s2, 0);
    assert Next(s3, 0) == HalfMade(n);
    OneMore(s3, 0, rest);
    OneMore(s2, 0, [0] + rest);
    OneMore(s1, 0, [0] + ([0] + rest));
    OneMore(s, 0, [0] + ([0] + ([0] + rest)));
    run := [0] + ([0] + ([0] + ([0] + rest)));
  }

  /** With two callers the second can return before any worker exists: the pointer is set
      first. */
  lemma EarlyReturn(n: nat) returns (run: seq<nat>)
    requires n >= 2
    ensures Runnable(Init(n), run) && Early(After(Init(n), run), 1)
  {
    var s := HalfMade(n);
    OneMore(Next(s, 1), 1, []);
    OneMore(s, 1, [1]);
    assert [1] + [] == [1];
    run := HalfMadeIsReached(n, [1] + [1]);
  }

  lemma AloneIsNeverEarly(n: nat, run: seq<nat>, i: nat)
    requires n <= 1 && Runnable(Init(n), run)
    ensures !Early(After(Init(n), run), i)
  {
    StartInv(n, run);
  }

  ghost predicate EarlyBy(n: nat, run: seq<nat>, i: nat) {
    Runnable(Init(n), run) && Early(After(Init(n), run), i)
  }

  /** Some run lets a caller return early if and only if there are two callers at least. */
  lemma EarlyNeedsTwo(n: nat)
    ensures (exists run: seq<nat>, i: nat :: EarlyBy(n, run, i)) <==> n >= 2
  {
    if n >= 2 {
      var run := EarlyReturn(n);
      assert EarlyBy(n, run, 1);
    } else {
      forall run: seq<nat>, i: nat | Runnable(Init(n), run) ensures !EarlyBy(n, run, i) {
        AloneIsNeverEarly(n, run, i);
      }
    }
  }
}
