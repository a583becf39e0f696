/** TimeHeap on its array: every operation in place, tied to the sequences of HeapOrder,
    with what has been handed over, freed and fired recorded for the specification. */
module TimeHeaps {
  import opened HeapOrder
  import opened Options

  function Elements(s: seq<HeapTimer>): set<HeapTimer> {
    set t | t in s
  }

  /** Every timer handed over is live once or freed once, and nothing else is. */
  ghost predicate Owned(given: set<HeapTimer>, live: seq<HeapTimer>, freed: seq<HeapTimer>) {
    multiset(given) == multiset(live) + multiset(freed)
  }

  class TimeHeap {
    var slots: array<HeapTimer?>
    var capacity: nat
    var curSize: nat
    ghost var given: set<HeapTimer>   // every timer ever handed over
    ghost var freed: seq<HeapTimer>   // in the order of their delete
    ghost var fired: seq<HeapTimer>   // callbacks called, in order
    ghost var copied: nat             // pointers copied by resize

    ghost predicate Shape()
      reads this, slots
    {
      && slots.Length == capacity && curSize <= capacity
      && (forall i :: 0 <= i < curSize ==> slots[i] != null && slots[i] !in freed)
    }

    ghost function Contents(): (s: seq<HeapTimer>)
      requires Shape()
      reads this, slots
      ensures |s| == curSize
    {
      slots[..curSize]
    }

    /** Each timer handed over is in one live slot or has been freed once, never both. */
    ghost predicate Valid()
      reads this, slots
    {
      Shape() && IsHeap(Contents()) && Owned(given, Contents(), freed)
    }

    ghost function Cancelled(): set<HeapTimer>
      requires Shape()
      reads this, slots, set t | t in slots[..curSize] :: t
    {
      set t | t in Contents() && !t.hasCallback
    }

    // Reading through a pointer, allowed for timers that have not been freed.
    function Expire(t: HeapTimer?): int
      requires t != null && t !in freed
      reads this
    {
      t.expire
    }

    function Callback(t: HeapTimer?): bool
      requires t != null && t !in freed
      reads this, t
    {
      t.hasCallback
    }

    ghost method Delete(t: HeapTimer)
      requires t !in freed
      modifies this`freed
      ensures freed == old(freed) + [t]
    {
      freed := freed + [t];
    }

    constructor (cap: nat)
      ensures Valid() && fresh(slots)
      ensures capacity == cap && Contents() == [] && given == {} && freed == [] && fired == [] && copied == 0
    {
      slots := new HeapTimer?[cap](_ => null);
      capacity, curSize := cap, 0;
      given, freed, fired, copied := {}, [], [], 0;
    }

    /** The second constructor; its exception is the result None. */
    static method FromArray(initial: array<HeapTimer>, size: nat, cap: nat)
      returns (r: Option<TimeHeap>, ghost moves: nat)
      requires size <= initial.Length
      requires forall i, j :: 0 <= i < j < size ==> initial[i] != initial[j]
      ensures r.Some? <==> size <= cap
      ensures r.Some? ==>
        var h := r.value;
        && fresh(h) && fresh(h.slots) && h.Valid() && h.capacity == cap && h.copied == 0
        && h.freed == [] && h.fired == [] && h.given == Elements(initial[..size])
        && h.Contents() == (if size == 0 then [] else Build(initial[..size], (size - 1) / 2))
      ensures r.Some? && size > 0 ==> moves == BuildMoves(initial[..size], (size - 1) / 2)
      ensures moves <= size
    {
      moves := 0;
      if cap < size {
        return None, 0;
      }
      var h := new TimeHeap(cap);
      if size != 0 {
        moves := h.Load(initial, size);
      }
      r := Some(h);
    }

    method Load(initial: array<HeapTimer>, size: nat) returns (ghost moves: nat)
      requires 0 < size <= initial.Length && size <= capacity == slots.Length && freed == []
      requires forall i, j :: 0 <= i < j < size ==> initial[i] != initial[j]
      modifies this`curSize, this`given, slots
      ensures Valid() && curSize == size && moves <= size
      ensures moves == old(BuildMoves(initial[..size], (size - 1) / 2))
      ensures Contents() == old(Build(initial[..size], (size - 1) / 2))
      ensures given == old(Elements(initial[..size]))
    {
      ghost var source := initial[..size];
      CopyIn(initial, size);
      moves := SiftAll();
      BuildOwned(source);
      assert Contents() == Build(source, (size - 1) / 2) && freed == [];
    }

    method CopyIn(initial: array<HeapTimer>, size: nat)
      requires size <= initial.Length && size <= capacity == slots.Length && freed == []
      modifies this`curSize, this`given, slots
      ensures Shape() && curSize == size && Contents() == old(initial[..size])
      ensures given == old(Elements(initial[..size]))
    {
      for i := 0 to size
        invariant forall k :: 0 <= k < i ==> slots[k] == initial[k]
      {
        slots[i] := initial[i];
      }
      curSize := size;
      given := Elements(initial[..size]);
      assert slots[..curSize] == initial[..size];
    }

    method SiftAll() returns (ghost moves: nat)
      requires Shape() && curSize > 0
      modifies slots
      ensures Shape() && Contents() == Build(old(Contents()), (curSize - 1) / 2)
      ensures moves == BuildMoves(old(Contents()), (curSize - 1) / 2) < curSize
    {
      ghost var s, c := Contents(), Contents();
      ghost var top := (curSize - 1) / 2;
      moves := 0;
      var i := (curSize - 1) / 2;
      while i >= 0
        invariant -1 <= i < curSize && Shape() && Contents() == c
        invariant SiftedTo(s, c, top, i, moves)
      {
        SiftStep(s, c, top, i, moves);
        ghost var m := PercolateDown(i);
        c, moves := Contents(), moves + m;
        i := i - 1;
      }
      BuildIsLinear(s);
    }

    method AddTimer(timer: HeapTimer?) returns (ghost moves: nat)
      requires Valid() && (curSize < capacity || capacity >= 1)
      requires timer != null ==> timer !in given
      modifies this, slots
      ensures Valid() && (slots == old(slots) || fresh(slots)) && fired == old(fired) && freed == old(freed)
      ensures timer == null ==> Contents() == old(Contents()) && capacity == old(capacity) && copied == old(copied)
      ensures timer == null ==> given == old(given)
      ensures timer != null ==>
        var full := old(curSize) == old(capacity);
        && Contents() == Add(old(Contents()), timer) && given == old(given) + {timer}
        && capacity == (if full then 2 * old(capacity) else old(capacity))
        && copied == (if full then old(copied) + old(curSize) else old(copied))
      ensures moves == (if timer == null then 0 else AddMoves(old(Contents()), timer))
      ensures Pow2(moves) <= old(curSize) + 1
    {
      moves := 0;
      if timer == null {
        return;
      }
      moves := Insert(timer);
      AddIsLogarithmic(old(Contents()), timer);
    }

    method Insert(timer: HeapTimer) returns (ghost moves: nat)
      requires Valid() && (curSize < capacity || capacity >= 1) && timer !in given
      modifies this, slots
      ensures Valid() && (slots == old(slots) || fresh(slots)) && fired == old(fired) && freed == old(freed)
      ensures Contents() == Add(old(Contents()), timer) && given == old(given) + {timer}
      ensures var full := old(curSize) == old(capacity);
        && capacity == (if full then 2 * old(capacity) else old(capacity))
        && copied == (if full then old(copied) + old(curSize) else old(copied))
      ensures moves == AddMoves(old(Contents()), timer)
    {
      ghost var all: set<HeapTimer> := given + {timer};
      AddOwned(given, Contents(), freed, timer);
      MakeRoom();
      moves := SiftUp(timer);
      given := all;
    }

    method MakeRoom()
      requires Shape() && (curSize < capacity || capacity >= 1)
      modifies this`slots, this`capacity, this`copied
      ensures Shape() && curSize < capacity && Contents() == old(Contents())
      ensures slots == old(slots) || fresh(slots)
      ensures var full := curSize == old(capacity);
        && capacity == (if full then 2 * old(capacity) else old(capacity))
        && copied == (if full then old(copied) + curSize else old(copied))
    {
      if curSize >= capacity {
        Resize();
      }
    }

    // The rest of add_timer, once there is room: the hole moves up from the end.
    method SiftUp(timer: HeapTimer) returns (ghost moves: nat)
      requires Shape() && curSize < capacity && timer !in freed
      modifies this`curSize, slots
      ensures Shape() && Contents() == Add(old(Contents()), timer) && moves == AddMoves(old(Contents()), timer)
    {
      moves := 0;
      var hole: nat := curSize;
      curSize := curSize + 1;
      // The cells as they will be, the one at the hole being free to overwrite.
      ghost var cells: seq<HeapTimer> := old(Contents()) + [timer];
      while hole > 0
        invariant hole < curSize == |cells| == old(curSize) + 1
        invariant forall k :: 0 <= k < curSize && k != hole ==> slots[k] == cells[k]
        invariant forall k :: 0 <= k < curSize ==> cells[k] !in freed
        invariant Up(cells, hole, timer) == Add(old(Contents()), timer)
        invariant moves + UpMoves(cells, hole, timer) == AddMoves(old(Contents()), timer)
      {
        var parent := (hole - 1) / 2;
        if Expire(slots[parent]) <= timer.expire {
          break;
        }
        slots[hole] := slots[parent];
        cells := cells[hole := cells[parent]];
        moves := moves + 1;
        hole := parent;
      }
      slots[hole] := timer;
      assert slots[..curSize] == cells[hole := timer];
    }

    // Lazy: the timer stays where it is and will not be called.
    method DelTimer(timer: HeapTimer?)
      requires timer != null ==> timer !in freed
      modifies timer
      ensures timer != null ==> !timer.hasCallback
    {
      if timer == null {
        return;
      }
      timer.hasCallback := false;
    }

    method PopTimer() returns (ghost moves: nat)
      requires Valid()
      modifies this, slots
      ensures Valid() && slots == old(slots)
      ensures given == old(given) && fired == old(fired) && capacity == old(capacity) && copied == old(copied)
      ensures old(curSize) == 0 ==> Contents() == [] && freed == old(freed)
      ensures old(curSize) > 0 ==> Contents() == Pop(old(Contents())) && freed == old(freed) + [old(Contents())[0]]
      ensures moves == (if old(curSize) == 0 then 0 else PopMoves(old(Contents())))
      ensures moves == 0 || Pow2(moves) <= curSize
    {
      moves := 0;
      if curSize == 0 {
        return;
      }
      ghost var s := Contents();
      PopKeeps(s);
      if slots[0] != null {
        OnceInAll(s, freed, given);
        PopBag(s, freed, given);
        moves := DropRoot();
      }
    }

    // delete array[0]; array[0] = array[--cur_size]; percolate_down(0).
    method DropRoot() returns (ghost moves: nat)
      requires Shape() && curSize > 0
      requires forall i :: 0 < i < curSize ==> slots[i] != slots[0]
      modifies this`curSize, this`freed, slots
      ensures Shape() && Contents() == Pop(old(Contents())) && freed == old(freed) + [old(Contents())[0]]
      ensures moves == PopMoves(old(Contents()))
      ensures moves == 0 || Pow2(moves) <= curSize
    {
      ghost var s := Contents();
      Delete(slots[0]);
      curSize := curSize - 1;
      slots[0] := slots[curSize];
      assert curSize > 0 ==> slots[..curSize] == s[..curSize][0 := s[curSize]];
      ghost var rest := Contents();
      moves := PercolateDown(0);
      if rest != [] {
        DownIsLogarithmic(rest, rest[0]);
      }
    }

    method Tick(now: int)
      requires Valid() && capacity >= 1
      modifies this, slots
      ensures Valid() && slots == old(slots)
      ensures given == old(given) && capacity == old(capacity) && copied == old(copied)
      ensures Contents() == Later(old(Contents()), now)
      ensures freed == old(freed) + Due(old(Contents()), now)
      ensures fired == old(fired) + Without(Due(old(Contents()), now), old(Cancelled()))
    {
      var tmp := slots[0];
      ghost var s, off := Contents(), Cancelled();
      while curSize != 0
        invariant Valid() && slots == old(slots) && capacity == old(capacity)
        invariant given == old(given) && copied == old(copied)
        invariant curSize > 0 ==> tmp == slots[0]
        invariant Ticked(Contents(), freed, fired, now, off) == Ticked(s, old(freed), old(fired), now, off)
        invariant forall t :: t in Contents() ==> (t in off <==> !t.hasCallback)
        decreases curSize
      {
        if tmp == null {
          break;
        }
        if Expire(tmp) > now {
          break;
        }
        PopSubset(Contents());
        FireRoot();
        tmp := slots[0];
      }
      TickedMeans(s, old(freed), old(fired), now, off);
    }

    // The body of tick's loop once the root is known to be due.
    method FireRoot()
      requires Valid() && curSize > 0
      modifies this, slots
      ensures Valid() && slots == old(slots)
      ensures given == old(given) && capacity == old(capacity) && copied == old(copied)
      ensures Contents() == Pop(old(Contents())) && freed == old(freed) + [old(Contents())[0]]
      ensures fired == old(fired) + (if old(Contents())[0].hasCallback then [old(Contents())[0]] else [])
    {
      if Callback(slots[0]) {
        fired := fired + [slots[0]];
      }
      ghost var moves := PopTimer();
    }

    /** The destructor frees what is still live. */
    method Destroy()
      requires Valid()
      modifies this
      ensures freed == old(freed) + old(Contents()) && given == old(given)
      ensures fired == old(fired) && copied == old(copied)
      ensures multiset(freed) == multiset(given)
    {
      ghost var s := Contents();
      for i := 0 to curSize
        invariant slots == old(slots) && curSize == old(curSize) && capacity == old(capacity) && given == old(given)
        invariant fired == old(fired) && copied == old(copied)
        invariant freed == old(freed) + s[..i]
      {
        OnceBefore(s, old(freed), given, i);
        Delete(slots[i]);
        assert s[..i + 1] == s[..i] + [s[i]];
      }
      assert s[..curSize] == s;
    }

    method EarlierChild(h: nat) returns (child: nat)
      requires Shape() && 2 * h + 1 < curSize
      ensures child == Child(Contents(), h)
    {
      child := h * 2 + 1;
      if child < curSize - 1 && Expire(slots[child + 1]) < Expire(slots[child]) {
        child := child + 1;
      }
    }

    // The hole may be a stale slot only when the heap has just become empty.
    method PercolateDown(hole: nat) returns (ghost moves: nat)
      requires Shape() && hole < capacity && (curSize == 0 || hole < curSize)
      modifies slots
      ensures Shape()
      ensures curSize > 0 ==> Contents() == Down(old(Contents()), hole, old(Contents()[hole]))
      ensures moves == if curSize > 0 then DownMoves(old(Contents()), hole, old(Contents()[hole])) else 0
    {
      var temp := slots[hole];
      ghost var s := Contents();
      moves := 0;
      var h := hole;
      while h * 2 + 1 < curSize
        invariant h < capacity && (curSize == 0 || h < curSize) && Shape()
        invariant curSize > 0 ==> temp != null && temp !in freed
        invariant curSize > 0 ==> Down(Contents(), h, temp) == Down(s, hole, s[hole])
        invariant curSize == 0 ==> moves == 0
        invariant curSize > 0 ==> moves + DownMoves(Contents(), h, temp) == DownMoves(s, hole, s[hole])
        decreases curSize - h
      {
        var child := EarlierChild(h);
        ghost var before := Contents();
        if Expire(slots[child]) < Expire(temp) {
          Store(h, slots[child]);
          moves := moves + 1;
        } else {
          break;
        }
        h := child;
      }
      Store(h, temp);
    }

    method Store(h: nat, t: HeapTimer?)
      requires Shape() && h < capacity && (curSize > 0 ==> h < curSize && t != null && t !in freed)
      modifies slots
      ensures Shape() && (curSize > 0 ==> Contents() == old(Contents())[h := t])
    {
      ghost var before := Contents();
      slots[h] := t;
      assert curSize > 0 ==> Contents() == before[h := t];
    }

    method Resize()
      requires Shape()
      modifies this`slots, this`capacity, this`copied
      ensures Shape() && fresh(slots) && capacity == 2 * old(capacity)
      ensures Contents() == old(Contents()) && copied == old(copied) + curSize
    {
      var temp := new HeapTimer?[2 * capacity](_ => null);
      capacity := 2 * capacity;
      for i := 0 to curSize
        invariant slots == old(slots) && unchanged(slots) && capacity == temp.Length
        invariant copied == old(copied) + i
        invariant forall k :: 0 <= k < i ==> temp[k] == slots[k]
      {
        temp[i] := slots[i];
        copied := copied + 1;
      }
      slots := temp;
      assert slots[..curSize] == old(slots[..curSize]);
    }
  }

  lemma {:induction false} DistinctBag<T>(s: seq<T>)
    requires forall i, j :: 0 <= i < j < |s| ==> s[i] != s[j]
    ensures multiset(set t | t in s) == multiset(s)
  {
    if s != [] {
      var m := |s| - 1;
      DistinctBag(s[..m]);
      assert s == s[..m] + [s[m]];
      assert (set t | t in s) == (set t | t in s[..m]) + {s[m]};
      assert s[m] !in s[..m];
    }
  }

  // The head of a live sequence is neither freed nor live a second time.
  lemma OnceInAll(s: seq<HeapTimer>, freed: seq<HeapTimer>, given: set<HeapTimer>)
    requires s != [] && Owned(given, s, freed)
    ensures s[0] !in freed && forall i :: 0 < i < |s| ==> s[i] != s[0]
  {
    assert multiset(given)[s[0]] == 1;
    assert s == [s[0]] + s[1..];
    assert multiset(s) == multiset{s[0]} + multiset(s[1..]);
    assert s[0] !in multiset(s[1..]) && s[0] !in multiset(freed);
    forall i | 0 < i < |s| ensures s[i] != s[0] {
      assert s[i] in s[1..];
    }
  }

  lemma PopBag(s: seq<HeapTimer>, freed: seq<HeapTimer>, given: set<HeapTimer>)
    requires IsHeap(s) && s != [] && Owned(given, s, freed)
    ensures IsHeap(Pop(s)) && Owned(given, Pop(s), freed + [s[0]])
  {
    PopKeeps(s);
    calc {
      multiset(given);
      multiset(Pop(s)) + multiset{s[0]} + multiset(freed);
      multiset(Pop(s)) + multiset(freed + [s[0]]);
    }
  }

  /** tick as the loop runs it: the heap, the freed and the called timers when it stops. */
  ghost function Ticked(c: seq<HeapTimer>, freed: seq<HeapTimer>, fired: seq<HeapTimer>, now: int, off: set<HeapTimer>)
    : (seq<HeapTimer>, seq<HeapTimer>, seq<HeapTimer>)
    decreases |c|
  {
    if c == [] || c[0].expire > now then (c, freed, fired)
    else Ticked(Pop(c), freed + [c[0]], fired + (if c[0] in off then [] else [c[0]]), now, off)
  }

  lemma {:induction false} TickedMeans(c: seq<HeapTimer>, freed: seq<HeapTimer>, fired: seq<HeapTimer>,
                                       now: int, off: set<HeapTimer>)
    ensures Ticked(c, freed, fired, now, off)
         == (Later(c, now), freed + Due(c, now), fired + Without(Due(c, now), off))
    decreases |c|
  {
    if c != [] && c[0].expire <= now {
      TickedMeans(Pop(c), freed + [c[0]], fired + (if c[0] in off then [] else [c[0]]), now, off);
      OneTicked(c[0], Due(Pop(c), now), freed, fired, off);
    } else {
      assert freed + [] == freed && fired + [] == fired;
    }
  }

  lemma OneTicked(t: HeapTimer, rest: seq<HeapTimer>, freed: seq<HeapTimer>, fired: seq<HeapTimer>, off: set<HeapTimer>)
    ensures (freed + [t]) + rest == freed + ([t] + rest)
    ensures (fired + (if t in off then [] else [t])) + Without(rest, off) == fired + Without([t] + rest, off)
  {
    WithoutCons(t, rest, off);
  }

  lemma PopSubset(c: seq<HeapTimer>)
    requires IsHeap(c) && c != []
    ensures forall t :: t in Pop(c) ==> t in c
  {
    PopKeeps(c);
    forall t | t in Pop(c) ensures t in c {
      assert t in multiset(Pop(c));
      assert t in multiset(c);
    }
  }

  lemma AddOwned(given: set<HeapTimer>, s: seq<HeapTimer>, freed: seq<HeapTimer>, timer: HeapTimer)
    requires IsHeap(s) && Owned(given, s, freed) && timer !in given
    ensures timer !in s && timer !in freed && IsHeap(Add(s, timer))
    ensures Owned(given + {timer}, Add(s, timer), freed)
  {
    AddKeeps(s, timer);
    assert timer !in multiset(given);
    assert timer !in multiset(s) && timer !in multiset(freed);
    assert multiset(given + {timer}) == multiset(given) + multiset{timer};
  }

  /** The construction of s has reached position i with contents c after moves moves. */
  ghost predicate SiftedTo(s: seq<HeapTimer>, c: seq<HeapTimer>, top: int, i: int, moves: nat) {
    && -1 <= i <= top < |s| && |c| == |s|
    && Build(c, i) == Build(s, top)
    && moves + BuildMoves(c, i) == BuildMoves(s, top)
  }

  lemma SiftStep(s: seq<HeapTimer>, c: seq<HeapTimer>, top: int, i: int, moves: nat)
    requires 0 <= i && SiftedTo(s, c, top, i, moves)
    ensures SiftedTo(s, Down(c, i, c[i]), top, i - 1, moves + DownMoves(c, i, c[i]))
  {
  }

  lemma BuildOwned(s: seq<HeapTimer>)
    requires s != [] && forall i, j :: 0 <= i < j < |s| ==> s[i] != s[j]
    ensures IsHeap(Build(s, (|s| - 1) / 2))
    ensures Owned(Elements(s), Build(s, (|s| - 1) / 2), [])
  {
    BuildMakesHeap(s);
    DistinctBag(s);
  }

  lemma OnceBefore(s: seq<HeapTimer>, freed: seq<HeapTimer>, given: set<HeapTimer>, i: nat)
    requires i < |s| && Owned(given, s, freed)
    ensures s[i] !in freed + s[..i]
  {
    assert s == s[..i] + [s[i]] + s[i + 1..];
    assert multiset(s)[s[i]] >= multiset(s[..i])[s[i]] + 1;
    assert multiset(given)[s[i]] == 1;
    assert s[i] !in multiset(s[..i]) && s[i] !in multiset(freed);
  }
}
