/** The measuring loop of WebBench without keep-alive: what it counts, over any outcome of
    every system call and any moment the timer expires. */
module BenchAttempts {

  /** What the calls of one attempt return: the socket, the bytes written, shutdown, each
      read, and close.  The timer that stops a read loop does so where received ends. */
  datatype Attempt = Attempt(connected: bool, written: int, shutdown: int, received: seq<int>, close: int)

  datatype Settings = Settings(length: int, http09: bool, force: bool)

  /** How a read loop ends: a negative read, end of stream, or the timer. */
  datatype Ending = ReadError | EndOfStream | TimerExpired

  function EndOf(received: seq<int>): Ending {
    if received == [] then TimerExpired
    else if received[0] < 0 then ReadError
    else if received[0] == 0 then EndOfStream
    else EndOf(received[1..])
  }

  /** Bytes read before the loop ends. */
  function BytesOf(received: seq<int>): nat {
    if received == [] || received[0] <= 0 then 0 else received[0] + BytesOf(received[1..])
  }

  predicate Reads(a: Attempt, c: Settings) {
    a.connected && a.written == c.length && (c.http09 ==> a.shutdown == 0) && !c.force
  }

  predicate Succeeds(a: Attempt, c: Settings) {
    && a.connected && a.written == c.length && (c.http09 ==> a.shutdown == 0)
    && (!c.force ==> EndOf(a.received) != ReadError)
    && a.close == 0
  }

  predicate Expires(a: Attempt, c: Settings) {
    Reads(a, c) && EndOf(a.received) == TimerExpired
  }

  /** Attempts made: all of them, or up to the first in which the timer expires. */
  function Made(attempts: seq<Attempt>, c: Settings): (k: nat)
    ensures k <= |attempts|
  {
    if attempts == [] then 0
    else if Expires(attempts[0], c) then 1
    else 1 + Made(attempts[1..], c)
  }

  function Successes(attempts: seq<Attempt>, c: Settings): (k: nat)
    ensures k <= |attempts|
  {
    if attempts == [] then 0
    else Successes(attempts[..|attempts| - 1], c) + if Succeeds(attempts[|attempts| - 1], c) then 1 else 0
  }

  function Opened(attempts: seq<Attempt>): nat {
    if attempts == [] then 0
    else Opened(attempts[..|attempts| - 1]) + if attempts[|attempts| - 1].connected then 1 else 0
  }

  function BytesRead(attempts: seq<Attempt>, c: Settings): nat {
    if attempts == [] then 0
    else
      var a := attempts[|attempts| - 1];
      BytesRead(attempts[..|attempts| - 1], c) + if Reads(a, c) then BytesOf(a.received) else 0
  }

  /** How a read loop ends, by the calls themselves: the first that returns nothing more
      decides, and if there is none the timer does. */
  lemma EndingIs(received: seq<int>)
    ensures EndOf(received) == ReadError <==>
      exists k :: 0 <= k < |received| && received[k] < 0 && forall j :: 0 <= j < k ==> received[j] > 0
    ensures EndOf(received) == EndOfStream <==>
      exists k :: 0 <= k < |received| && received[k] == 0 && forall j :: 0 <= j < k ==> received[j] > 0
    ensures EndOf(received) == TimerExpired <==> forall k :: 0 <= k < |received| ==> received[k] > 0
  {
    var k := FirstStop(received);
  }

  lemma {:induction false} FirstStop(received: seq<int>) returns (k: nat)
    ensures k <= |received| && forall j :: 0 <= j < k ==> received[j] > 0
    ensures k < |received| ==> received[k] <= 0
    ensures EndOf(received) ==
      if k == |received| then TimerExpired else if received[k] < 0 then ReadError else EndOfStream
  {
    if received == [] || received[0] <= 0 {
      k := 0;
    } else {
      var rest := FirstStop(received[1..]);
      k := rest + 1;
      assert forall j :: 1 <= j < |received| ==> received[j] == received[1..][j - 1];
    }
  }

  /** The bytes of calls that all bring something are their sum, and nothing counts after one
      that does not. */
  lemma {:induction false} BytesAdd(brings: seq<int>, more: int, rest: seq<int>)
    requires forall k :: 0 <= k < |brings| ==> brings[k] > 0
    ensures BytesOf(brings + [more]) == BytesOf(brings) + if more > 0 then more else 0
    ensures more <= 0 ==> BytesOf(brings + [more] + rest) == BytesOf(brings)
    ensures BytesOf([]) == 0
  {
    if brings != [] {
      assert (brings + [more])[1..] == brings[1..] + [more];
      assert (brings + [more] + rest)[1..] == brings[1..] + [more] + rest;
      BytesAdd(brings[1..], more, rest);
    } else {
      assert ([] + [more])[1..] == [];
    }
  }

  /** An attempt counts as failed exactly if one of its own calls failed: connect, a write
      that is not whole, shutdown where there is one, a read, or close. */
  lemma FailsByCall(a: Attempt, c: Settings)
    ensures !Succeeds(a, c) <==>
      || !a.connected
      || a.written != c.length
      || (c.http09 && a.shutdown != 0)
      || (!c.force && exists k :: 0 <= k < |a.received| && a.received[k] < 0
                                  && forall j :: 0 <= j < k ==> a.received[j] > 0)
      || a.close != 0
  {
    EndingIs(a.received);
  }

  /** The timer ends the loop in the first attempt that reads and whose reads all bring
      something; without one the attempts run out first. */
  lemma {:induction false} LastAttempt(attempts: seq<Attempt>, c: Settings)
    ensures forall i :: 0 <= i < Made(attempts, c) - 1 ==> !ExpiresReading(attempts[i], c)
    ensures Made(attempts, c) < |attempts| ==>
      Made(attempts, c) > 0 && ExpiresReading(attempts[Made(attempts, c) - 1], c)
  {
    if attempts != [] {
      EndingIs(attempts[0].received);
      LastAttempt(attempts[1..], c);
      assert forall i :: 1 <= i < |attempts| ==> attempts[i] == attempts[1..][i - 1];
    }
  }

  predicate ExpiresReading(a: Attempt, c: Settings) {
    && a.connected && a.written == c.length && (!c.http09 || a.shutdown == 0) && !c.force
    && forall k :: 0 <= k < |a.received| ==> a.received[k] > 0
  }

  class BenchCore {
    var speed: int
    var failed: int
    var bytes: int
    var timerExpired: bool
    ghost var opens: nat
    ghost var closes: nat

    // One attempt raises exactly one of the two counters and closes what it opened.
    method TryOnce(a: Attempt, c: Settings)
      requires !timerExpired
      modifies this
      ensures speed == old(speed) + (if Succeeds(a, c) then 1 else 0)
      ensures failed == old(failed) + (if Succeeds(a, c) then 0 else 1)
      ensures bytes == old(bytes) + (if Reads(a, c) then BytesOf(a.received) else 0)
      ensures timerExpired <==> Expires(a, c)
      ensures opens == old(opens) + (if a.connected then 1 else 0)
      ensures closes == old(closes) + (if a.connected then 1 else 0)
    {
      if !a.connected {
        failed := failed + 1;
        return;
      }
      opens := opens + 1;
      if c.length != a.written {
        failed := failed + 1;
        closes := closes + 1;
        return;
      }
      if c.http09 {
        if a.shutdown != 0 {
          failed := failed + 1;
          closes := closes + 1;
          return;
        }
      }
      if !c.force {
        var broken := ReadAll(a.received);
        if broken {
          failed := failed + 1;
          closes := closes + 1;
          return;
        }
      }
      closes := closes + 1;
      if a.close != 0 {
        failed := failed + 1;
        return;
      }
      speed := speed + 1;
    }

    method ReadAll(received: seq<int>) returns (broken: bool)
      requires !timerExpired
      modifies this`bytes, this`timerExpired
      ensures broken <==> EndOf(received) == ReadError
      ensures timerExpired <==> EndOf(received) == TimerExpired
      ensures bytes == old(bytes) + BytesOf(received)
    {
      var k := 0;
      broken := false;
      while true
        invariant 0 <= k <= |received| && !broken && !timerExpired
        invariant EndOf(received[k..]) == EndOf(received)
        invariant bytes + BytesOf(received[k..]) == old(bytes) + BytesOf(received)
        decreases |received| - k
      {
        if k == |received| {
          timerExpired := true;
          break;
        }
        var i := received[k];
        assert received[k..][1..] == received[k + 1..];
        k := k + 1;
        if i < 0 {
          broken := true;
          break;
        } else if i == 0 {
          break;
        } else {
          bytes := bytes + i;
        }
      }
    }

    ghost predicate Counted(made: seq<Attempt>, c: Settings)
      reads this
    {
      && speed == Successes(made, c) && speed + failed == |made|
      && bytes == BytesRead(made, c) && opens == closes == Opened(made)
    }

    /** The whole loop from zeroed counters: every attempt made is counted once, and once
        the timer has expired one failure, if there was any, is taken back. */
    method Run(attempts: seq<Attempt>, c: Settings)
      requires speed == failed == bytes == 0 && !timerExpired && opens == closes == 0
      modifies this
      ensures var made := attempts[..Made(attempts, c)];
        var failures := |made| - Successes(made, c);
        && speed == Successes(made, c)
        && failed == (if failures > 0 then failures - 1 else 0)
        && speed + failed == |made| - (if failures > 0 then 1 else 0)
        && bytes == BytesRead(made, c)
        && opens == closes == Opened(made)
    {
      var k := 0;
      while true
        invariant 0 <= k <= |attempts|
        invariant Made(attempts, c) == k + if timerExpired then 0 else Made(attempts[k..], c)
        invariant Counted(attempts[..k], c)
        decreases |attempts| - k, !timerExpired
      {
        if timerExpired {
          if failed > 0 {
            failed := failed - 1;
          }
          return;
        }
        if k == |attempts| {
          timerExpired := true;
        } else {
          OneMore(attempts, k, c);
          TryOnce(attempts[k], c);
          k := k + 1;
        }
      }
    }
  }

  lemma OneMore(attempts: seq<Attempt>, k: nat, c: Settings)
    requires k < |attempts|
    ensures Made(attempts[k..], c) == 1 + if Expires(attempts[k], c) then 0 else Made(attempts[k + 1..], c)
    ensures Successes(attempts[..k + 1], c) == Successes(attempts[..k], c) + if Succeeds(attempts[k], c) then 1 else 0
    ensures BytesRead(attempts[..k + 1], c)
         == BytesRead(attempts[..k], c) + if Reads(attempts[k], c) then BytesOf(attempts[k].received) else 0
    ensures Opened(attempts[..k + 1]) == Opened(attempts[..k]) + if attempts[k].connected then 1 else 0
  {
    assert attempts[k..][1..] == attempts[k + 1..];
    assert attempts[..k + 1][..k] == attempts[..k];
  }

  /** So the counters add up to the attempts less one exactly when some attempt failed. */
  lemma CountersMissOne(made: seq<Attempt>, c: Settings, speed: int, failed: int)
    requires speed == Successes(made, c)
    requires failed == (var f := |made| - Successes(made, c); if f > 0 then f - 1 else 0)
    ensures speed + failed == |made| - 1 <==> exists i :: 0 <= i < |made| && !Succeeds(made[i], c)
    ensures speed + failed == |made| <==> forall i :: 0 <= i < |made| ==> Succeeds(made[i], c)
  {
    AllSucceed(made, c);
  }

  lemma {:induction false} AllSucceed(made: seq<Attempt>, c: Settings)
    ensures Successes(made, c) == |made| <==> forall i :: 0 <= i < |made| ==> Succeeds(made[i], c)
  {
    if made != [] {
      var m := |made| - 1;
      AllSucceed(made[..m], c);
      assert forall i :: 0 <= i < m ==> made[..m][i] == made[i];
    }
  }
}
