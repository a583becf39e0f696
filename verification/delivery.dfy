/** The loops that push a body through write or send, which may take less than they are
    offered: feeding a CGI program its input, and sending a response body. */
module Delivery {

  /** The other end of a descriptor: how each call will answer, and what it has taken. */
  class Sink {
    const answers: seq<int>
    var calls: nat
    var taken: string

    // A call takes at most what it is offered; after the last answer every call fails.
    method Write(data: string) returns (size: int)
      modifies this`calls, this`taken
      ensures size == Answer(answers, old(calls), |data|) <= |data|
      ensures calls == old(calls) + 1
      ensures taken == old(taken) + (if size > 0 then data[..size] else "")
    {
      size := Answer(answers, calls, |data|);
      calls := calls + 1;
      if size > 0 {
        taken := taken + data[..size];
      }
    }
  }

  function Answer(answers: seq<int>, call: nat, offered: nat): (size: int)
    ensures size <= offered
  {
    if call >= |answers| then -1 else if answers[call] > offered then offered else answers[call]
  }

  /** Any outcome that a call may have is one that some sink has. */
  lemma AnyOutcome(call: nat, offered: nat, size: int)
    requires size <= offered
    ensures Answer(seq(call, _ => 1) + [size], call, offered) == size
  {
  }

  /** Every call from this one on that is offered something takes something, until nothing
      of left is left. */
  ghost predicate Progresses(answers: seq<int>, call: nat, left: nat)
    decreases left
  {
    left == 0 ||
    (Answer(answers, call, left) > 0 && Progresses(answers, call + 1, left - Answer(answers, call, left)))
  }

  function Offered(answers: seq<int>, from: nat, count: nat): int
    requires from + count <= |answers|
    decreases count
  {
    if count == 0 then 0 else answers[from] + Offered(answers, from + 1, count - 1)
  }

  /** In terms of the answers alone: a run of them from this call on, each positive, that
      add up to what is left. */
  ghost predicate Enough(answers: seq<int>, call: nat, left: nat) {
    exists count :: AllTake(answers, call, count) && Offered(answers, call, count) >= left
  }

  ghost predicate AllTake(answers: seq<int>, call: nat, count: nat) {
    call + count <= |answers| && forall i :: call <= i < call + count ==> answers[i] > 0
  }

  lemma {:induction false} DeliversExactlyIfEnough(answers: seq<int>, call: nat, left: nat)
    requires call <= |answers|
    ensures Progresses(answers, call, left) <==> Enough(answers, call, left)
    decreases left
  {
    if left == 0 {
      assert AllTake(answers, call, 0) && Offered(answers, call, 0) == 0;
    } else if call < |answers| && answers[call] > 0 {
      var rest := left - Answer(answers, call, left);
      DeliversExactlyIfEnough(answers, call + 1, rest);
      if Enough(answers, call, left) {
        var count: nat :| AllTake(answers, call, count) && Offered(answers, call, count) >= left;
        assert AllTake(answers, call + 1, count - 1);
        TakersAdd(answers, call + 1, count - 1);
      }
      if Enough(answers, call + 1, rest) {
        var count: nat :| AllTake(answers, call + 1, count) && Offered(answers, call + 1, count) >= rest;
        assert AllTake(answers, call, count + 1);
        TakersAdd(answers, call + 1, count);
      }
    }
  }

  lemma {:induction false} TakersAdd(answers: seq<int>, call: nat, count: nat)
    requires AllTake(answers, call, count)
    ensures Offered(answers, call, count) >= count
    decreases count
  {
    if count > 0 {
      TakersAdd(answers, call + 1, count - 1);
    }
  }

  /** Which covers every descriptor that keeps taking at least a character a call. */
  lemma SteadySinkTakesAll(answers: seq<int>, call: nat, left: nat)
    requires AllTake(answers, call, left)
    ensures Progresses(answers, call, left)
  {
    TakersAdd(answers, call, left);
    DeliversExactlyIfEnough(answers, call, left);
  }

  lemma PrefixGrows(body: string, done: nat, size: nat)
    requires done + size <= |body|
    ensures body[..done] + body[done..][..size] == body[..done + size]
  {
  }

  // The CGI input loop: it goes on until a call takes nothing, also once all is written.
  method FeedProgram(sink: Sink, body: string) returns (sum: nat)
    modifies sink
    ensures sum <= |body| && sink.taken == old(sink.taken) + body[..sum]
    ensures sink.calls > old(sink.calls) && Answer(sink.answers, sink.calls - 1, |body| - sum) <= 0
    ensures sum == |body| <==> Progresses(sink.answers, old(sink.calls), |body|)
  {
    sum := 0;
    var size := sink.Write(body[sum..]);
    while size > 0
      invariant sum <= |body| && size <= |body| - sum
      invariant sink.taken == old(sink.taken) + body[..sum + if size > 0 then size else 0]
      invariant old(sink.calls) < sink.calls && size == Answer(sink.answers, sink.calls - 1, |body| - sum)
      invariant Progresses(sink.answers, old(sink.calls), |body|)
           <==> Progresses(sink.answers, sink.calls - 1, |body| - sum)
      decreases |body| - sum
    {
      sum := sum + size;
      size := sink.Write(body[sum..]);
      if size > 0 {
        PrefixGrows(body, sum, size);
      }
    }
  }

  // The response loop: it also stops as soon as everything has been sent.
  method SendBody(sink: Sink, body: string) returns (total: nat)
    modifies sink
    ensures total <= |body| && sink.taken == old(sink.taken) + body[..total]
    ensures total < |body| ==> sink.calls > old(sink.calls) && Answer(sink.answers, sink.calls - 1, |body| - total) <= 0
    ensures body == "" ==> sink.calls == old(sink.calls)
    ensures total == |body| <==> Progresses(sink.answers, old(sink.calls), |body|)
  {
    var size := 0;
    total := 0;
    while total < |body|
      invariant total <= |body| && sink.taken == old(sink.taken) + body[..total]
      invariant sink.calls >= old(sink.calls) && (body == "" ==> sink.calls == old(sink.calls))
      invariant Progresses(sink.answers, old(sink.calls), |body|)
           <==> Progresses(sink.answers, sink.calls, |body| - total)
      decreases |body| - total
    {
      size := sink.Write(body[total..]);
      if size <= 0 {
        break;
      }
      PrefixGrows(body, total, size);
      total := total + size;
    }
  }

  // ---- A whole response -------------------------------------------------------------

  /** Each of these pieces is offered once, and what a call does not take is lost. */
  function Sent(answers: seq<int>, call: nat, pieces: seq<string>): string
    decreases |pieces|
  {
    if pieces == [] then ""
    else
      var size := Answer(answers, call, |pieces[0]|);
      (if size > 0 then pieces[0][..size] else "") + Sent(answers, call + 1, pieces[1..])
  }

  function Join(pieces: seq<string>): string {
    if pieces == [] then "" else pieces[0] + Join(pieces[1..])
  }

  lemma {:induction false} JoinAppend(a: seq<string>, b: seq<string>)
    ensures Join(a + b) == Join(a) + Join(b)
  {
    if a == [] {
      assert a + b == b;
    } else {
      assert (a + b)[1..] == a[1..] + b;
      JoinAppend(a[1..], b);
    }
  }

  /** The head of a response: the status line first, the headers in order, the blank line. */
  lemma HeadIs(statusLine: string, first: string, second: string, blank: string)
    ensures Join([statusLine] + [first, second] + [blank]) == statusLine + first + second + blank
    ensures Join([statusLine] + [] + [blank]) == statusLine + blank
  {
    JoinOne(statusLine);
    JoinOne(first);
    JoinOne(second);
    JoinOne(blank);
    JoinAppend([first], [second]);
    JoinAppend([statusLine] + [first, second], [blank]);
    JoinAppend([statusLine], [first, second]);
    JoinAppend([statusLine] + [], [blank]);
    assert [first] + [second] == [first, second] && [statusLine] + [] == [statusLine];
    assert statusLine + (first + second) == statusLine + first + second;
  }

  lemma JoinOne(piece: string)
    ensures Join([piece]) == piece
  {
    assert [piece][1..] == [] && piece + "" == piece;
  }

  /** Every piece that is not empty is taken whole by the one call that offers it. */
  predicate TakenWhole(answers: seq<int>, call: nat, pieces: seq<string>) {
    forall k :: 0 <= k < |pieces| && pieces[k] != "" ==> Answer(answers, call + k, |pieces[k]|) == |pieces[k]|
  }

  lemma {:induction false} SentIsWhole(answers: seq<int>, call: nat, pieces: seq<string>)
    ensures |Sent(answers, call, pieces)| <= |Join(pieces)|
    ensures |Sent(answers, call, pieces)| == |Join(pieces)| <==> TakenWhole(answers, call, pieces)
    ensures TakenWhole(answers, call, pieces) ==> Sent(answers, call, pieces) == Join(pieces)
    decreases |pieces|
  {
    if pieces != [] {
      SentIsWhole(answers, call + 1, pieces[1..]);
      TakenFirst(answers, call, pieces);
    }
  }

  lemma TakenFirst(answers: seq<int>, call: nat, pieces: seq<string>)
    requires pieces != []
    ensures TakenWhole(answers, call, pieces) <==>
      (pieces[0] != "" ==> Answer(answers, call, |pieces[0]|) == |pieces[0]|)
      && TakenWhole(answers, call + 1, pieces[1..])
  {
    var rest := pieces[1..];
    if TakenWhole(answers, call + 1, rest) {
      forall k | 1 <= k < |pieces| && pieces[k] != ""
        ensures Answer(answers, call + k, |pieces[k]|) == |pieces[k]|
      {
        assert rest[k - 1] == pieces[k];
      }
    }
    if TakenWhole(answers, call, pieces) {
      forall k | 0 <= k < |rest| && rest[k] != "" ensures Answer(answers, call + 1 + k, |rest[k]|) == |rest[k]| {
        assert pieces[k + 1] == rest[k];
      }
    }
  }

  // SendHttpResponse: one call each for the status line, the headers and the blank line,
  // then the loop for a CGI program's output, or one sendfile call for a static page.
  method SendHttpResponse(sink: Sink, statusLine: string, header: seq<string>, blank: string,
                          cgi: bool, body: string, file: string)
    modifies sink
    ensures var pieces := [statusLine] + header + [blank];
      var (first, next) := (old(sink.calls), old(sink.calls) + |pieces|);
      sink.taken == old(sink.taken) + Join(pieces) + (if cgi then body else file) <==>
        TakenWhole(sink.answers, first, pieces)
        && (if cgi then Progresses(sink.answers, next, |body|) else TakenWhole(sink.answers, next, [file]))
  {
    ghost var (start, first, pieces) := (sink.taken, sink.calls, [statusLine] + header + [blank]);
    SendHead(sink, statusLine, header, blank);
    SentIsWhole(sink.answers, first, pieces);
    ghost var head := Sent(sink.answers, first, pieces);
    if cgi {
      var total := SendBody(sink, body);
      WholeByLength(start, head, Join(pieces), body[..total], body);
    } else {
      SentIsWhole(sink.answers, sink.calls, [file]);
      OnePiece(sink.answers, sink.calls, file);
      var size := sink.Write(file);
      WholeByLength(start, head, Join(pieces), if size > 0 then file[..size] else "", file);
    }
  }

  lemma OnePiece(answers: seq<int>, call: nat, piece: string)
    ensures var size := Answer(answers, call, |piece|);
      Sent(answers, call, [piece]) == (if size > 0 then piece[..size] else "") && Join([piece]) == piece
  {
    assert [piece][1..] == [];
  }

  /** The head of a response is not retried: one short first call, and no later answer makes
      the response whole. */
  lemma ShortStatusLine(later: seq<int>, statusLine: string, header: seq<string>, blank: string)
    requires |statusLine| >= 2
    ensures !TakenWhole([1] + later, 0, [statusLine] + header + [blank])
  {
    var pieces := [statusLine] + header + [blank];
    assert pieces[0] == statusLine && Answer([1] + later, 0, |statusLine|) == 1;
  }

  lemma WholeByLength(start: string, a: string, b: string, c: string, d: string)
    requires |a| <= |b| && |c| <= |d| && (|a| == |b| ==> a == b) && (|c| == |d| ==> c == d)
    ensures start + a + c == start + b + d <==> |a| == |b| && |c| == |d|
  {
    assert |start + a + c| == |start| + |a| + |c|;
    assert |start + b + d| == |start| + |b| + |d|;
  }

  method SendHead(sink: Sink, statusLine: string, header: seq<string>, blank: string)
    modifies sink
    ensures var pieces := [statusLine] + header + [blank];
      && sink.taken == old(sink.taken) + Sent(sink.answers, old(sink.calls), pieces)
      && sink.calls == old(sink.calls) + |pieces|
  {
    ghost var (start, first, pieces) := (sink.taken, sink.calls, [statusLine] + header + [blank]);
    var sz := sink.Write(statusLine);
    SentOn(sink.answers, first, pieces, 0, start);
    for k := 0 to |header|
      invariant sink.calls == first + 1 + k
      invariant sink.taken + Sent(sink.answers, first + 1 + k, pieces[k + 1..])
             == start + Sent(sink.answers, first, pieces)
    {
      SentOn(sink.answers, first, pieces, k + 1, sink.taken);
      sz := sink.Write(header[k]);
    }
    SentOn(sink.answers, first, pieces, |header| + 1, sink.taken);
    sz := sink.Write(blank);
  }

  // Offering one more piece.
  lemma SentOn(answers: seq<int>, first: nat, pieces: seq<string>, k: nat, taken: string)
    requires k < |pieces|
    ensures var size := Answer(answers, first + k, |pieces[k]|);
      taken + Sent(answers, first + k, pieces[k..])
        == (taken + if size > 0 then pieces[k][..size] else "") + Sent(answers, first + k + 1, pieces[k + 1..])
    ensures pieces[0..] == pieces && Sent(answers, first + |pieces|, pieces[|pieces|..]) == ""
  {
    assert pieces[k..][1..] == pieces[k + 1..];
  }
}
