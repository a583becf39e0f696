/** Totals over sequences: a sum of weights and a union of bags, with the laws a
    step that changes one entry needs. */
module Totals {

  function Sum<T>(s: seq<T>, f: T -> nat): nat {
    if s == [] then 0 else Sum(s[..|s| - 1], f) + f(s[|s| - 1])
  }

  lemma {:induction false} SumUpdate<T>(s: seq<T>, i: nat, x: T, f: T -> nat)
    requires i < |s|
    ensures Sum(s[i := x], f) + f(s[i]) == Sum(s, f) + f(x)
  {
    var m := |s| - 1;
    if i < m {
      SumUpdate(s[..m], i, x, f);
      assert s[i := x][..m] == s[..m][i := x];
    } else {
      assert s[i := x][..m] == s[..m];
    }
  }

  // Every entry grows by at most d.
  lemma {:induction false} SumGrowth<T>(s: seq<T>, t: seq<T>, f: T -> nat, d: nat)
    requires |s| == |t|
    requires forall i :: 0 <= i < |s| ==> f(t[i]) <= f(s[i]) + d
    ensures Sum(t, f) <= Sum(s, f) + d * |s|
  {
    if s != [] {
      SumGrowth(s[..|s| - 1], t[..|s| - 1], f, d);
    }
  }

  // No entry shrinks and entry k grows.
  lemma {:induction false} SumStrict<T>(s: seq<T>, t: seq<T>, f: T -> nat, k: nat)
    requires |s| == |t| && k < |s|
    requires forall i :: 0 <= i < |s| ==> f(s[i]) <= f(t[i])
    requires f(s[k]) < f(t[k])
    ensures Sum(s, f) < Sum(t, f)
  {
    var m := |s| - 1;
    if k < m {
      SumStrict(s[..m], t[..m], f, k);
    } else {
      SumMonotone(s[..m], t[..m], f);
    }
  }

  lemma {:induction false} SumMonotone<T>(s: seq<T>, t: seq<T>, f: T -> nat)
    requires |s| == |t|
    requires forall i :: 0 <= i < |s| ==> f(s[i]) <= f(t[i])
    ensures Sum(s, f) <= Sum(t, f)
  {
    if s != [] {
      SumMonotone(s[..|s| - 1], t[..|s| - 1], f);
    }
  }

  lemma {:induction false} SumZero<T>(s: seq<T>, f: T -> nat)
    ensures Sum(s, f) == 0 <==> forall i :: 0 <= i < |s| ==> f(s[i]) == 0
  {
    if s != [] {
      var m := |s| - 1;
      SumZero(s[..m], f);
      assert forall i :: 0 <= i < m ==> s[..m][i] == s[i];
    }
  }

  function Hits<T>(s: seq<T>, f: T -> nat): set<int> {
    set i | 0 <= i < |s| && f(s[i]) == 1
  }

  lemma HitsGrow<T>(s: seq<T>, f: T -> nat)
    requires s != []
    ensures var m := |s| - 1;
      m !in Hits(s[..m], f) && Hits(s, f) == Hits(s[..m], f) + if f(s[m]) == 1 then {m} else {}
  {
    var m := |s| - 1;
    assert forall i :: 0 <= i < m ==> s[..m][i] == s[i];
  }

  /** With weights 0 and 1 a sum is a count. */
  lemma {:induction false} SumCounts<T>(s: seq<T>, f: T -> nat)
    requires forall i :: 0 <= i < |s| ==> f(s[i]) <= 1
    ensures Sum(s, f) == |Hits(s, f)|
  {
    if s != [] {
      SumCounts(s[..|s| - 1], f);
      HitsGrow(s, f);
    }
  }

  lemma {:induction false} SumBounded<T>(s: seq<T>, f: T -> nat, d: nat)
    requires forall i :: 0 <= i < |s| ==> f(s[i]) <= d
    ensures Sum(s, f) <= d * |s|
  {
    if s != [] {
      SumBounded(s[..|s| - 1], f, d);
    }
  }

  /** Everything the entries of s hold, f naming what one entry holds. */
  function Gather<T, U>(s: seq<T>, f: T -> seq<U>): multiset<U> {
    if s == [] then multiset{} else Gather(s[..|s| - 1], f) + multiset(f(s[|s| - 1]))
  }

  lemma {:induction false} GatherUpdate<T, U>(s: seq<T>, i: nat, x: T, f: T -> seq<U>)
    requires i < |s|
    ensures Gather(s[i := x], f) + multiset(f(s[i])) == Gather(s, f) + multiset(f(x))
  {
    var m := |s| - 1;
    if i < m {
      GatherUpdate(s[..m], i, x, f);
      assert s[i := x][..m] == s[..m][i := x];
      var last := multiset(f(s[m]));
      assert Gather(s[i := x], f) + multiset(f(s[i]))
          == (Gather(s[..m][i := x], f) + multiset(f(s[..m][i]))) + last;
    } else {
      assert s[i := x][..m] == s[..m];
    }
  }

  // Entry i takes in and gives up.
  lemma GatherFlow<T, U>(s: seq<T>, i: nat, x: T, f: T -> seq<U>, inn: seq<U>, out: seq<U>)
    requires i < |s| && f(x) + out == f(s[i]) + inn
    ensures Gather(s[i := x], f) + multiset(out) == Gather(s, f) + multiset(inn)
  {
    GatherUpdate(s, i, x, f);
    assert multiset(f(x) + out) == multiset(f(s[i]) + inn);
    Balance(Gather(s[i := x], f), Gather(s, f), multiset(f(x)), multiset(f(s[i])), multiset(inn), multiset(out));
  }

  lemma Balance<T>(g': multiset<T>, g: multiset<T>, x: multiset<T>, y: multiset<T>, inn: multiset<T>, out: multiset<T>)
    requires g' + y == g + x && x + out == y + inn
    ensures g' + out == g + inn
  {
    forall t ensures (g' + out)[t] == (g + inn)[t] {
      assert (g' + y)[t] == (g + x)[t] && (x + out)[t] == (y + inn)[t];
    }
  }

  lemma {:induction false} GatherSame<T, U>(s: seq<T>, t: seq<T>, f: T -> seq<U>)
    requires |s| == |t|
    requires forall i :: 0 <= i < |s| ==> f(s[i]) == f(t[i])
    ensures Gather(s, f) == Gather(t, f)
  {
    if s != [] {
      GatherSame(s[..|s| - 1], t[..|s| - 1], f);
    }
  }

  lemma {:induction false} GatherEntry<T, U>(s: seq<T>, i: nat, f: T -> seq<U>)
    requires i < |s|
    ensures multiset(f(s[i])) <= Gather(s, f)
  {
    if i < |s| - 1 {
      GatherEntry(s[..|s| - 1], i, f);
    }
  }

  // Two different entries contribute separately.
  lemma {:induction false} GatherPair<T, U>(s: seq<T>, i: nat, j: nat, f: T -> seq<U>)
    requires i < j < |s|
    ensures multiset(f(s[i])) + multiset(f(s[j])) <= Gather(s, f)
  {
    var m := |s| - 1;
    if j < m {
      GatherPair(s[..m], i, j, f);
    } else {
      GatherEntry(s[..m], i, f);
    }
  }

  lemma {:induction false} GatherEmpty<T, U>(s: seq<T>, f: T -> seq<U>)
    requires forall i :: 0 <= i < |s| ==> f(s[i]) == []
    ensures Gather(s, f) == multiset{}
  {
    if s != [] {
      GatherEmpty(s[..|s| - 1], f);
    }
  }

  // A sequence whose entries are pairwise different holds each of them once.
  lemma {:induction false} DistinctOnce<T>(s: seq<T>)
    requires forall i, j :: 0 <= i < j < |s| ==> s[i] != s[j]
    ensures forall x :: multiset(s)[x] <= 1
  {
    if s != [] {
      var m := |s| - 1;
      DistinctOnce(s[..m]);
      assert s == s[..m] + [s[m]];
      assert s[m] !in s[..m];
    }
  }

  // Conversely, an entry held once stands at one position only.
  lemma {:induction false} OnceDistinct<T>(s: seq<T>, i: nat, j: nat)
    requires i < j < |s|
    requires forall x :: multiset(s)[x] <= 1
    ensures s[i] != s[j]
  {
    assert s == s[..j] + [s[j]] + s[j + 1..];
    assert s[i] == s[..j][i];
    assert multiset(s)[s[j]] >= multiset(s[..j])[s[j]] + 1;
  }
}
