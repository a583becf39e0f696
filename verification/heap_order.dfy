/** Timers and the array min-heap arithmetic of TimeHeap on plain sequences: where a
    hole moves, what that does to order, contents and cost. */
module HeapOrder {

  /** A timer.  Its expiry is fixed when it is made; its callback can be taken away. */
  class HeapTimer {
    const expire: int
    var hasCallback: bool

    constructor (now: int, delay: int, callback: bool)
      ensures expire == now + delay && hasCallback == callback
    {
      expire := now + delay;
      hasCallback := callback;
    }
  }

  function Parent(j: nat): nat
    requires j > 0
  {
    (j - 1) / 2
  }

  /** Entry j is not earlier than its parent. */
  ghost predicate Ordered(s: seq<HeapTimer>, j: nat)
    requires 0 < j < |s|
  {
    s[Parent(j)].expire <= s[j].expire
  }

  /** Every parent from position lo on is at most its children. */
  ghost predicate HeapFrom(s: seq<HeapTimer>, lo: nat) {
    forall j :: 0 < j < |s| && lo <= Parent(j) ==> Ordered(s, j)
  }

  ghost predicate IsHeap(s: seq<HeapTimer>) {
    HeapFrom(s, 0)
  }

  lemma {:induction false} RootIsLeast(s: seq<HeapTimer>, j: nat)
    requires IsHeap(s) && j < |s|
    ensures s[0].expire <= s[j].expire
  {
    if j > 0 {
      assert Ordered(s, j);
      RootIsLeast(s, Parent(j));
    }
  }

  // ---- Moving a hole down ----------------------------------------------------------

  /** The child percolate_down compares with: the right one only when strictly earlier. */
  function Child(s: seq<HeapTimer>, hole: nat): (c: nat)
    requires 2 * hole + 1 < |s|
    ensures c < |s| && (c == 2 * hole + 1 || c == 2 * hole + 2)
  {
    var c := 2 * hole + 1;
    if c < |s| - 1 && s[c + 1].expire < s[c].expire then c + 1 else c
  }

  /** Settling temp from a hole downwards; the entry at the hole is free to overwrite. */
  function Down(s: seq<HeapTimer>, hole: nat, temp: HeapTimer): (r: seq<HeapTimer>)
    requires hole < |s|
    ensures |r| == |s|
    decreases |s| - hole
  {
    if 2 * hole + 1 < |s| && s[Child(s, hole)].expire < temp.expire then
      Down(s[hole := s[Child(s, hole)]], Child(s, hole), temp)
    else
      s[hole := temp]
  }

  /** Number of entries moved on the way. */
  function DownMoves(s: seq<HeapTimer>, hole: nat, temp: HeapTimer): nat
    requires hole < |s|
    decreases |s| - hole
  {
    if 2 * hole + 1 < |s| && s[Child(s, hole)].expire < temp.expire then
      1 + DownMoves(s[hole := s[Child(s, hole)]], Child(s, hole), temp)
    else
      0
  }

  lemma SwapBag<T>(s: seq<T>, i: nat, j: nat, x: T)
    requires i < |s| && j < |s|
    ensures multiset(s[i := s[j]][j := x]) == multiset(s[i := x])
  {
    var u := s[i := x];
    if i == j {
      assert s[i := s[j]][j := x] == u;
    } else {
      Exchanged(u, i, j);
      assert s[i := s[j]][j := x] == u[i := u[j]][j := u[i]];
    }
  }

  lemma Exchanged<T>(u: seq<T>, i: nat, j: nat)
    requires i < |u| && j < |u|
    ensures multiset(u[i := u[j]][j := u[i]]) == multiset(u)
  {
  }

  lemma {:induction false} DownBag(s: seq<HeapTimer>, hole: nat, temp: HeapTimer)
    requires hole < |s|
    ensures multiset(Down(s, hole, temp)) == multiset(s[hole := temp])
    decreases |s| - hole
  {
    if 2 * hole + 1 < |s| && s[Child(s, hole)].expire < temp.expire {
      var c := Child(s, hole);
      DownBag(s[hole := s[c]], c, temp);
      SwapBag(s, hole, c, temp);
    }
  }

  /** With temp put at the hole, order can only fail between the hole and its children. */
  ghost predicate AlmostHeap(s: seq<HeapTimer>, lo: nat, hole: nat, temp: HeapTimer)
    requires hole < |s|
  {
    var u := s[hole := temp];
    && (forall j :: 0 < j < |s| && lo <= Parent(j) && Parent(j) != hole ==> Ordered(u, j))
    && (forall j :: 0 < j < |s| && Parent(j) == hole && hole > 0 && lo <= Parent(hole) ==>
          u[Parent(hole)].expire <= u[j].expire)
  }

  lemma {:induction false} DownHeap(s: seq<HeapTimer>, lo: nat, hole: nat, temp: HeapTimer)
    requires lo <= hole < |s| && AlmostHeap(s, lo, hole, temp)
    ensures HeapFrom(Down(s, hole, temp), lo)
    decreases |s| - hole
  {
    if 2 * hole + 1 < |s| && s[Child(s, hole)].expire < temp.expire {
      HoleMoves(s, lo, hole, temp);
      DownHeap(s[hole := s[Child(s, hole)]], lo, Child(s, hole), temp);
    } else {
      HoleSettles(s, lo, hole, temp);
    }
  }

  lemma HoleMoves(s: seq<HeapTimer>, lo: nat, hole: nat, temp: HeapTimer)
    requires lo <= hole < |s| && AlmostHeap(s, lo, hole, temp)
    requires 2 * hole + 1 < |s| && s[Child(s, hole)].expire < temp.expire
    ensures AlmostHeap(s[hole := s[Child(s, hole)]], lo, Child(s, hole), temp)
  {
    var (u, c) := (s[hole := temp], Child(s, hole));
    var u' := s[hole := s[c]][c := temp];
    forall j | 0 < j < |s| && lo <= Parent(j) && Parent(j) != c ensures Ordered(u', j) {
      if Parent(j) == hole {
        assert j == 2 * hole + 1 || j == 2 * hole + 2;
      } else if j == hole {
        assert Parent(c) == hole;
      } else {
        assert Ordered(u, j);
      }
    }
    forall j | 0 < j < |s| && Parent(j) == c ensures u'[Parent(c)].expire <= u'[j].expire {
      assert Ordered(u, j);
    }
  }

  lemma HoleSettles(s: seq<HeapTimer>, lo: nat, hole: nat, temp: HeapTimer)
    requires lo <= hole < |s| && AlmostHeap(s, lo, hole, temp)
    requires 2 * hole + 1 < |s| ==> s[Child(s, hole)].expire >= temp.expire
    ensures HeapFrom(s[hole := temp], lo)
  {
    var u := s[hole := temp];
    forall j | 0 < j < |s| && lo <= Parent(j) ensures Ordered(u, j) {
      if Parent(j) == hole {
        assert j == 2 * hole + 1 || j == 2 * hole + 2;
      }
    }
  }

  // ---- Moving a hole up -------------------------------------------------------------

  function Up(s: seq<HeapTimer>, hole: nat, timer: HeapTimer): (r: seq<HeapTimer>)
    requires hole < |s|
    ensures |r| == |s|
    decreases hole
  {
    if hole > 0 && s[Parent(hole)].expire > timer.expire then
      Up(s[hole := s[Parent(hole)]], Parent(hole), timer)
    else
      s[hole := timer]
  }

  function UpMoves(s: seq<HeapTimer>, hole: nat, timer: HeapTimer): nat
    requires hole < |s|
    decreases hole
  {
    if hole > 0 && s[Parent(hole)].expire > timer.expire then
      1 + UpMoves(s[hole := s[Parent(hole)]], Parent(hole), timer)
    else
      0
  }

  lemma {:induction false} UpBag(s: seq<HeapTimer>, hole: nat, timer: HeapTimer)
    requires hole < |s|
    ensures multiset(Up(s, hole, timer)) == multiset(s[hole := timer])
    decreases hole
  {
    if hole > 0 && s[Parent(hole)].expire > timer.expire {
      UpBag(s[hole := s[Parent(hole)]], Parent(hole), timer);
      SwapBag(s, hole, Parent(hole), timer);
    }
  }

  /** With timer put at the hole, order can only fail between the hole and its parent. */
  ghost predicate HeapBelow(s: seq<HeapTimer>, hole: nat, timer: HeapTimer)
    requires hole < |s|
  {
    var u := s[hole := timer];
    && (forall j :: 0 < j < |s| && j != hole ==> Ordered(u, j))
    && (forall j :: 0 < j < |s| && Parent(j) == hole && hole > 0 ==> u[Parent(hole)].expire <= u[j].expire)
  }

  lemma {:induction false} UpHeap(s: seq<HeapTimer>, hole: nat, timer: HeapTimer)
    requires hole < |s| && HeapBelow(s, hole, timer)
    ensures IsHeap(Up(s, hole, timer))
    decreases hole
  {
    var u := s[hole := timer];
    if hole > 0 && s[Parent(hole)].expire > timer.expire {
      var p := Parent(hole);
      var s' := s[hole := s[p]];
      var u' := s'[p := timer];
      forall j | 0 < j < |s| && j != p ensures Ordered(u', j) {
        if j != hole && Parent(j) != hole {
          assert Ordered(u, j);
        }
      }
      forall j | 0 < j < |s| && Parent(j) == p && p > 0 ensures u'[Parent(p)].expire <= u'[j].expire {
        assert Ordered(u, p);
        if j != hole {
          assert Ordered(u, j);
        }
      }
      UpHeap(s', p, timer);
    } else {
      forall j | 0 < j < |s| ensures Ordered(u, j) {
      }
    }
  }

  // ---- The operations -----------------------------------------------------------------

  function Add(s: seq<HeapTimer>, timer: HeapTimer): seq<HeapTimer> {
    Up(s + [timer], |s|, timer)
  }

  function AddMoves(s: seq<HeapTimer>, timer: HeapTimer): nat {
    UpMoves(s + [timer], |s|, timer)
  }

  function PopMoves(s: seq<HeapTimer>): nat
    requires s != []
  {
    var rest := s[..|s| - 1];
    if rest == [] then 0 else DownMoves(rest[0 := s[|s| - 1]], 0, s[|s| - 1])
  }

  /** The root goes, the last entry takes its place and settles. */
  function Pop(s: seq<HeapTimer>): (r: seq<HeapTimer>)
    requires s != []
    ensures |r| == |s| - 1
  {
    var rest := s[..|s| - 1];
    if rest == [] then [] else Down(rest[0 := s[|s| - 1]], 0, s[|s| - 1])
  }

  lemma AddKeeps(s: seq<HeapTimer>, timer: HeapTimer)
    requires IsHeap(s)
    ensures IsHeap(Add(s, timer))
    ensures multiset(Add(s, timer)) == multiset(s) + multiset{timer}
  {
    var a := s + [timer];
    assert a[|s| := timer] == a;
    forall j | 0 < j < |a| && j != |s| ensures Ordered(a, j) {
      assert Ordered(s, j);
    }
    UpHeap(a, |s|, timer);
    UpBag(a, |s|, timer);
  }

  lemma PopKeeps(s: seq<HeapTimer>)
    requires IsHeap(s) && s != []
    ensures IsHeap(Pop(s))
    ensures multiset(Pop(s)) + multiset{s[0]} == multiset(s)
  {
    var m := |s| - 1;
    if m > 0 {
      var r := s[..m][0 := s[m]];
      assert r[0 := s[m]] == r;
      LastAtRoot(s, r);
      DownHeap(r, 0, 0, s[m]);
      DownBag(r, 0, s[m]);
      LastForRoot(s);
    } else {
      assert s == [s[0]];
    }
  }

  lemma LastAtRoot(s: seq<HeapTimer>, r: seq<HeapTimer>)
    requires IsHeap(s) && |s| > 1 && r == s[..|s| - 1][0 := s[|s| - 1]]
    ensures AlmostHeap(r, 0, 0, s[|s| - 1])
  {
    assert r[0 := s[|s| - 1]] == r;
    forall j | 0 < j < |r| && Parent(j) != 0 ensures Ordered(r, j) {
      assert Ordered(s, j);
    }
  }

  lemma LastForRoot<T>(s: seq<T>)
    requires |s| > 1
    ensures var m := |s| - 1;
      multiset(s[..m][0 := s[m]]) + multiset{s[0]} == multiset(s)
  {
    var m := |s| - 1;
    assert s[..m][0 := s[m]] == [s[m]] + s[1..m];
    assert s == [s[0]] + s[1..m] + [s[m]];
  }

  // ---- Bottom-up construction -----------------------------------------------------------

  /** The sifts of the second constructor, from position top down to 0. */
  function Build(s: seq<HeapTimer>, top: int): (r: seq<HeapTimer>)
    requires -1 <= top < |s|
    ensures |r| == |s|
    decreases top + 1
  {
    if top < 0 then s else Build(Down(s, top, s[top]), top - 1)
  }

  function BuildMoves(s: seq<HeapTimer>, top: int): nat
    requires -1 <= top < |s|
    decreases top + 1
  {
    if top < 0 then 0 else DownMoves(s, top, s[top]) + BuildMoves(Down(s, top, s[top]), top - 1)
  }

  lemma {:induction false} BuildFrom(s: seq<HeapTimer>, top: int)
    requires -1 <= top < |s| && HeapFrom(s, top + 1)
    ensures IsHeap(Build(s, top))
    ensures multiset(Build(s, top)) == multiset(s)
    decreases top + 1
  {
    if top >= 0 {
      assert s[top := s[top]] == s;
      DownHeap(s, top, top, s[top]);
      DownBag(s, top, s[top]);
      BuildFrom(Down(s, top, s[top]), top - 1);
    }
  }

  /** Sifting from (size-1)/2 down to 0 makes any array a heap with the same timers. */
  lemma BuildMakesHeap(s: seq<HeapTimer>)
    requires s != []
    ensures IsHeap(Build(s, (|s| - 1) / 2))
    ensures multiset(Build(s, (|s| - 1) / 2)) == multiset(s)
  {
    BuildFrom(s, (|s| - 1) / 2);
  }

  /** Levels below position h in a heap of n entries, along the left edge. */
  function Height(h: nat, n: nat): nat
    decreases n - h
  {
    if 2 * h + 1 < n then 1 + Height(2 * h + 1, n) else 0
  }

  lemma {:induction false} HeightShrinks(h: nat, k: nat, n: nat)
    requires h <= k
    ensures Height(k, n) <= Height(h, n)
    decreases n - h
  {
    if 2 * k + 1 < n {
      HeightShrinks(2 * h + 1, 2 * k + 1, n);
    }
  }

  lemma {:induction false} DownMovesBound(s: seq<HeapTimer>, hole: nat, temp: HeapTimer)
    requires hole < |s|
    ensures DownMoves(s, hole, temp) <= Height(hole, |s|)
    decreases |s| - hole
  {
    if 2 * hole + 1 < |s| && s[Child(s, hole)].expire < temp.expire {
      var c := Child(s, hole);
      DownMovesBound(s[hole := s[c]], c, temp);
      HeightShrinks(2 * hole + 1, c, |s|);
    }
  }

  // Below a left child the tree looks like a heap of half the size.
  lemma {:induction false} HeightHalves(h: nat, n: nat)
    ensures Height(2 * h + 1, n) == Height(h, n / 2)
    decreases n - h
  {
    if 2 * h + 1 < n / 2 {
      HeightHalves(2 * h + 1, n);
    }
  }

  function Heights(k: nat, n: nat): nat {
    if k == 0 then 0 else Heights(k - 1, n) + Height(k - 1, n)
  }

  lemma {:induction false} HeightsHalve(k: nat, n: nat)
    ensures Heights(k, n) <= n / 2 + Heights(k, n / 2)
    ensures k <= n / 2 ==> Heights(k, n) == k + Heights(k, n / 2)
  {
    if k > 0 {
      HeightsHalve(k - 1, n);
      if 2 * (k - 1) + 1 < n {
        HeightHalves(k - 1, n);
      }
    }
  }

  lemma {:induction false} HeightsLinear(k: nat, n: nat)
    ensures n > 0 ==> Heights(k, n) < n
    ensures n == 0 ==> Heights(k, n) == 0
    decreases n, k
  {
    if n == 0 {
      if k > 0 {
        HeightsLinear(k - 1, n);
      }
    } else {
      HeightsHalve(k, n);
      HeightsLinear(k, n / 2);
    }
  }

  lemma {:induction false} BuildMovesBound(s: seq<HeapTimer>, top: int)
    requires -1 <= top < |s|
    ensures BuildMoves(s, top) <= Heights(top + 1, |s|)
    decreases top + 1
  {
    if top >= 0 {
      DownMovesBound(s, top, s[top]);
      BuildMovesBound(Down(s, top, s[top]), top - 1);
    }
  }

  /** Four timers in the wrong order: two sifts, of one move and of two. */
  lemma FourBackwards(a: HeapTimer, b: HeapTimer, c: HeapTimer, d: HeapTimer)
    requires a.expire == 4 && b.expire == 3 && c.expire == 2 && d.expire == 1
    ensures Build([a, b, c, d], 1) == [d, b, c, a] && BuildMoves([a, b, c, d], 1) == 3
  {
    var (s, t) := ([a, b, c, d], [a, d, c, b]);
    assert s[1 := d] == [a, d, c, d] && [a, d, c, d][3 := b] == t;
    assert Down([a, d, c, d], 3, b) == t && DownMoves([a, d, c, d], 3, b) == 0;
    assert Child(s, 1) == 3 && Down(s, 1, b) == t && DownMoves(s, 1, b) == 1;
    var u := t[0 := d][1 := b];
    assert u[3 := a] == [d, b, c, a];
    assert Down(u, 3, a) == [d, b, c, a] && DownMoves(u, 3, a) == 0;
    assert Child(t[0 := d], 1) == 3 && Down(t[0 := d], 1, a) == [d, b, c, a] && DownMoves(t[0 := d], 1, a) == 1;
    assert Child(t, 0) == 1 && Down(t, 0, a) == [d, b, c, a] && DownMoves(t, 0, a) == 2;
  }

  /** Construction moves fewer entries in all than the heap has. */
  lemma BuildIsLinear(s: seq<HeapTimer>)
    requires s != []
    ensures BuildMoves(s, (|s| - 1) / 2) < |s|
  {
    BuildMovesBound(s, (|s| - 1) / 2);
    HeightsLinear((|s| - 1) / 2 + 1, |s|);
  }

  // ---- Where a timer settles -------------------------------------------------------------

  /** Position j is m parents above position k. */
  predicate Above(j: nat, m: nat, k: nat)
    decreases m
  {
    if m == 0 then j == k else k > 0 && Above(j, m - 1, Parent(k))
  }

  lemma {:induction false} AboveParent(j: nat, m: nat, k: nat)
    requires j > 0 && Above(j, m, k)
    ensures Above(Parent(j), m + 1, k) && Parent(j) < k
    decreases m
  {
    if m > 0 {
      AboveParent(j, m - 1, Parent(k));
    }
  }

  /** Sifting down puts temp exactly as many levels below the hole as entries are moved. */
  lemma {:induction false} DownLands(s: seq<HeapTimer>, hole: nat, temp: HeapTimer) returns (k: nat)
    requires hole < |s|
    ensures hole <= k < |s| && Down(s, hole, temp)[k] == temp
    ensures Above(hole, DownMoves(s, hole, temp), k) && (k == hole <==> DownMoves(s, hole, temp) == 0)
    decreases |s| - hole
  {
    if 2 * hole + 1 < |s| && s[Child(s, hole)].expire < temp.expire {
      var c := Child(s, hole);
      var s' := s[hole := s[c]];
      k := DownLands(s', c, temp);
      AboveParent(c, DownMoves(s', c, temp), k);
    } else {
      k := hole;
    }
  }

  // Entries before the hole are left alone.
  lemma {:induction false} DownAbove(s: seq<HeapTimer>, hole: nat, temp: HeapTimer, j: nat)
    requires j < hole < |s|
    ensures Down(s, hole, temp)[j] == s[j]
    decreases |s| - hole
  {
    if 2 * hole + 1 < |s| && s[Child(s, hole)].expire < temp.expire {
      DownAbove(s[hole := s[Child(s, hole)]], Child(s, hole), temp, j);
    }
  }

  /** temp stays at the hole exactly when no child is strictly earlier; otherwise the earlier
      child moves up, the left one when both are equal. */
  lemma DownFirst(s: seq<HeapTimer>, hole: nat, temp: HeapTimer)
    requires hole < |s|
    ensures var (l, r) := (2 * hole + 1, 2 * hole + 2);
      && (DownMoves(s, hole, temp) == 0 <==>
            (l < |s| ==> s[l].expire >= temp.expire) && (r < |s| ==> s[r].expire >= temp.expire))
      && (DownMoves(s, hole, temp) > 0 ==>
            Down(s, hole, temp)[hole] == if r < |s| && s[r].expire < s[l].expire then s[r] else s[l])
  {
    if 2 * hole + 1 < |s| && s[Child(s, hole)].expire < temp.expire {
      var c := Child(s, hole);
      DownAbove(s[hole := s[c]], c, temp, hole);
    }
  }

  /** Sifting up puts the timer exactly as many levels above the hole as entries are moved,
      below the first parent that is not later than it. */
  lemma {:induction false} UpLands(s: seq<HeapTimer>, hole: nat, timer: HeapTimer) returns (k: nat)
    requires hole < |s|
    ensures k <= hole && Up(s, hole, timer)[k] == timer && Above(k, UpMoves(s, hole, timer), hole)
    ensures k > 0 ==> s[Parent(k)].expire <= timer.expire
    ensures UpMoves(s, hole, timer) == 0 <==> hole == 0 || s[Parent(hole)].expire <= timer.expire
    decreases hole
  {
    if hole > 0 && s[Parent(hole)].expire > timer.expire {
      k := UpLands(s[hole := s[Parent(hole)]], Parent(hole), timer);
    } else {
      k := hole;
    }
  }

  // ---- The cost of one operation --------------------------------------------------------

  function Pow2(n: nat): (r: nat)
    ensures r >= 1
  {
    if n == 0 then 1 else 2 * Pow2(n - 1)
  }

  lemma {:induction false} HeightIsLogarithmic(h: nat, n: nat)
    requires h < n
    ensures Pow2(Height(h, n)) * (h + 1) <= n
    decreases n - h
  {
    if 2 * h + 1 < n {
      HeightIsLogarithmic(2 * h + 1, n);
      var p := Pow2(Height(2 * h + 1, n));
      assert (2 * p) * (h + 1) == p * (2 * h + 2);
    }
  }

  lemma {:induction false} Pow2Grows(a: nat, b: nat)
    requires a <= b
    ensures Pow2(a) <= Pow2(b)
  {
    if a < b {
      Pow2Grows(a, b - 1);
    }
  }

  /** Sifting down from the root of n timers moves at most log2(n) of them. */
  lemma DownIsLogarithmic(s: seq<HeapTimer>, temp: HeapTimer)
    requires s != []
    ensures Pow2(DownMoves(s, 0, temp)) <= |s|
  {
    DownMovesBound(s, 0, temp);
    HeightIsLogarithmic(0, |s|);
    Pow2Grows(DownMoves(s, 0, temp), Height(0, |s|));
  }

  /** Sifting up from a position moves at most log2(position + 1) timers. */
  lemma {:induction false} UpIsLogarithmic(s: seq<HeapTimer>, hole: nat, timer: HeapTimer)
    requires hole < |s|
    ensures Pow2(UpMoves(s, hole, timer)) <= hole + 1
    decreases hole
  {
    if hole > 0 && s[Parent(hole)].expire > timer.expire {
      UpIsLogarithmic(s[hole := s[Parent(hole)]], Parent(hole), timer);
    }
  }

  /** Adding to n timers moves at most log2(n + 1) of them. */
  lemma AddIsLogarithmic(s: seq<HeapTimer>, timer: HeapTimer)
    ensures Pow2(AddMoves(s, timer)) <= |s| + 1
  {
    UpIsLogarithmic(s + [timer], |s|, timer);
  }

  // ---- Emptying a heap ---------------------------------------------------------------------

  ghost predicate Sorted(s: seq<HeapTimer>) {
    forall i, j :: 0 <= i < j < |s| ==> s[i].expire <= s[j].expire
  }

  /** What repeated pop_timer calls remove, in order. */
  function PopAll(s: seq<HeapTimer>): seq<HeapTimer>
    decreases |s|
  {
    if s == [] then [] else [s[0]] + PopAll(Pop(s))
  }

  lemma {:induction false} PopAllSorts(s: seq<HeapTimer>)
    requires IsHeap(s)
    ensures Sorted(PopAll(s)) && multiset(PopAll(s)) == multiset(s)
    decreases |s|
  {
    if s != [] {
      PopKeeps(s);
      PopAllSorts(Pop(s));
      assert multiset(PopAll(Pop(s))) + multiset{} == multiset(Pop(s));
      RootFirst(s, PopAll(Pop(s)), multiset(Pop(s)), multiset{});
    }
  }

  lemma LeastOfBag(s: seq<HeapTimer>, t: HeapTimer, popped: multiset<HeapTimer>)
    requires IsHeap(s) && s != [] && t in popped && popped + multiset{s[0]} == multiset(s)
    ensures s[0].expire <= t.expire
  {
    assert t in multiset(s);
    var j :| 0 <= j < |s| && s[j] == t;
    RootIsLeast(s, j);
  }

  /** Built from any array and then emptied, the heap gives the array back sorted. */
  lemma BuildThenPopAllSorts(s: seq<HeapTimer>)
    requires s != []
    ensures var r := PopAll(Build(s, (|s| - 1) / 2)); Sorted(r) && multiset(r) == multiset(s)
  {
    BuildMakesHeap(s);
    PopAllSorts(Build(s, (|s| - 1) / 2));
  }

  // ---- tick -----------------------------------------------------------------------------------

  /** tick removes the root while it is due; this is what goes, in order. */
  function Due(s: seq<HeapTimer>, now: int): seq<HeapTimer>
    decreases |s|
  {
    if s == [] || s[0].expire > now then [] else [s[0]] + Due(Pop(s), now)
  }

  /** And this is what stays. */
  function Later(s: seq<HeapTimer>, now: int): seq<HeapTimer>
    decreases |s|
  {
    if s == [] || s[0].expire > now then s else Later(Pop(s), now)
  }

  lemma {:induction false} TickBag(s: seq<HeapTimer>, now: int)
    requires IsHeap(s)
    ensures IsHeap(Later(s, now))
    ensures multiset(Due(s, now)) + multiset(Later(s, now)) == multiset(s)
    decreases |s|
  {
    if s != [] && s[0].expire <= now {
      PopKeeps(s);
      TickBag(Pop(s), now);
      assert multiset([s[0]] + Due(Pop(s), now)) == multiset{s[0]} + multiset(Due(Pop(s), now));
    }
  }

  lemma {:induction false} TickDue(s: seq<HeapTimer>, now: int)
    requires IsHeap(s)
    ensures Sorted(Due(s, now))
    ensures forall i :: 0 <= i < |Due(s, now)| ==> Due(s, now)[i].expire <= now
    decreases |s|
  {
    if s != [] && s[0].expire <= now {
      PopKeeps(s);
      TickDue(Pop(s), now);
      TickBag(Pop(s), now);
      RootFirst(s, Due(Pop(s), now), multiset(Pop(s)), multiset(Later(Pop(s), now)));
    }
  }

  lemma RootFirst(s: seq<HeapTimer>, due: seq<HeapTimer>, popped: multiset<HeapTimer>, later: multiset<HeapTimer>)
    requires IsHeap(s) && s != [] && Sorted(due)
    requires popped + multiset{s[0]} == multiset(s) && multiset(due) + later == popped
    ensures Sorted([s[0]] + due)
  {
    forall i | 0 <= i < |due| ensures s[0].expire <= due[i].expire {
      assert due[i] in multiset(due);
      LeastOfBag(s, due[i], popped);
    }
  }

  lemma {:induction false} TickLater(s: seq<HeapTimer>, now: int)
    requires IsHeap(s)
    ensures forall i :: 0 <= i < |Later(s, now)| ==> Later(s, now)[i].expire > now
    decreases |s|
  {
    if s == [] || s[0].expire > now {
      forall j | 0 <= j < |s| ensures s[j].expire > now {
        RootIsLeast(s, j);
      }
    } else {
      PopKeeps(s);
      TickLater(Pop(s), now);
    }
  }

  /** tick removes exactly the timers whose expiry has been reached, earliest first. */
  lemma TickSplits(s: seq<HeapTimer>, now: int)
    requires IsHeap(s)
    ensures multiset(Due(s, now)) + multiset(Later(s, now)) == multiset(s)
    ensures IsHeap(Later(s, now)) && Sorted(Due(s, now))
    ensures forall t :: t in s ==> (t in Due(s, now) <==> t.expire <= now) && (t in Later(s, now) <==> t.expire > now)
  {
    TickBag(s, now);
    TickDue(s, now);
    TickLater(s, now);
    forall t | t in s
      ensures (t in Due(s, now) <==> t.expire <= now) && (t in Later(s, now) <==> t.expire > now)
    {
      assert t in multiset(s);
      assert t in multiset(Due(s, now)) || t in multiset(Later(s, now));
    }
  }

  /** The timers of due that a set of cancelled ones leaves to fire. */
  function Without(due: seq<HeapTimer>, cancelled: set<HeapTimer>): seq<HeapTimer> {
    if due == [] then []
    else if due[0] in cancelled then Without(due[1..], cancelled)
    else [due[0]] + Without(due[1..], cancelled)
  }

  lemma WithoutCons(t: HeapTimer, rest: seq<HeapTimer>, cancelled: set<HeapTimer>)
    ensures Without([t] + rest, cancelled) == (if t in cancelled then [] else [t]) + Without(rest, cancelled)
  {
    assert ([t] + rest)[1..] == rest;
  }
}
