/** Util and the request half of EndPoint: the socket read byte by byte, the request line
    and headers taken off it, and the request line parsed. */
module RequestReader {
  import opened LineReading
  import opened RequestText

  /** A connected socket: all the bytes that will come, then a closed peer (0) or a read
      error (-1). */
  class Socket {
    const bytes: string
    const ending: int
    var pos: nat
    var isOpen: bool

    ghost predicate Valid()
      reads this
    {
      pos <= |bytes| && (ending == 0 || ending == -1)
    }

    constructor (bytes: string, ending: int)
      requires ending == 0 || ending == -1
      ensures Valid() && this.bytes == bytes && this.ending == ending && pos == 0 && isOpen
    {
      this.bytes, this.ending, pos, isOpen := bytes, ending, 0, true;
    }

    // recv of one byte into ch, which stays as it was when nothing comes.
    method Recv(before: char) returns (sz: int, ch: char)
      requires Valid()
      modifies this`pos
      ensures Valid()
      ensures old(pos) < |bytes| ==> sz == 1 && ch == bytes[old(pos)] && pos == old(pos) + 1
      ensures old(pos) == |bytes| ==> sz == ending && ch == before && pos == old(pos)
    {
      if pos < |bytes| {
        sz, ch := 1, bytes[pos];
        pos := pos + 1;
      } else {
        sz, ch := ending, before;
      }
    }

    // The same with MSG_PEEK: the byte stays in the stream.
    method Peek(before: char) returns (sz: int, ch: char)
      requires Valid()
      ensures pos < |bytes| ==> sz == 1 && ch == bytes[pos]
      ensures pos == |bytes| ==> sz == ending && ch == before
    {
      if pos < |bytes| {
        sz, ch := 1, bytes[pos];
      } else {
        sz, ch := ending, before;
      }
    }

    method Close()
      requires isOpen
      modifies this`isOpen
      ensures !isOpen
    {
      isOpen := false;
    }
  }

  /** What has been read of a line continues as what is still to be read. */
  ghost predicate Continues(s: string, start: nat, got: string, pos: nat)
    requires start <= |s| && pos <= |s|
  {
    match ReadLine(s, pos)
    case Line(text, next) => ReadLine(s, start) == Line(got + text, next)
    case Cut(text) => ReadLine(s, start) == Cut(got + text)
  }

  lemma ByteRead(s: string, start: nat, got: string, pos: nat)
    requires start <= |s| && pos < |s| && Continues(s, start, got, pos)
    ensures Head(s[pos]) == '\n' ==> ReadLine(s, start) == Line(got + "\n", Skip(s, pos, |s|))
    ensures Head(s[pos]) != '\n' ==> Continues(s, start, got + [s[pos]], pos + 1)
  {
    match ReadLine(s, pos) {
      case Line(text, next) => if Head(s[pos]) != '\n' { assert got + text == got + [s[pos]] + text[1..]; }
      case Cut(text) => if Head(s[pos]) != '\n' { assert got + text == got + [s[pos]] + text[1..]; }
    }
  }

  // Util::ReaLine; out is appended to.
  method ReaLine(sock: Socket, before: string) returns (result: int, out: string)
    requires sock.Valid()
    modifies sock`pos
    ensures sock.Valid()
    ensures match ReadLine(sock.bytes, old(sock.pos))
      case Line(text, next) => out == before + text && result == |out| && sock.pos == next
      case Cut(text) => out == before + text && result == sock.ending && sock.pos == |sock.bytes|
  {
    var ch := '\0';
    var sz := 0;
    out := before;
    ghost var s, start, got := sock.bytes, sock.pos, "";
    assert before + got == before && Continues(s, start, got, start);
    while ch != '\n'
      invariant sock.Valid() && out == before + got
      invariant ch != '\n' ==> Continues(s, start, got, sock.pos)
      invariant ch == '\n' ==> ReadLine(s, start) == Line(got, sock.pos)
      decreases |s| - sock.pos, ch != '\n'
    {
      if sock.pos < |s| {
        ByteRead(s, start, got, sock.pos);
      } else {
        assert got + "" == got;
      }
      sz, ch := sock.Recv(ch);
      if sz > 0 {
        if ch == '\r' {
          var peeked;
          peeked, ch := sock.Peek(ch);
          if ch == '\n' {
            sz, ch := sock.Recv(ch);
          } else {
            ch := '\n';
          }
        }
        out := out + [ch];
        got := got + [ch];
        assert before + got == out;
      } else if sz == 0 {
        return 0, out;
      } else {
        return -1, out;
      }
    }
    result := |out|;
  }

  // Util::Cutstring; the two results keep their old values when symbol does not occur.
  method Cutstring(target: string, symbol: string, before1: string, before2: string)
    returns (out1: string, out2: string)
    ensures !Occurs(target, symbol) ==> out1 == before1 && out2 == before2
    ensures Occurs(target, symbol) ==>
      target == out1 + symbol + out2 && forall j: nat :: j < |out1| ==> !OccursAt(target, symbol, j)
  {
    var index := Find(target, symbol, 0);
    out1, out2 := before1, before2;
    if index <= |target| {
      out1 := target[..index];
      out2 := target[index + |symbol|..];
      assert target == target[..index] + target[index..index + |symbol|] + target[index + |symbol|..];
    }
  }

  class EndPoint {
    const sock: Socket
    var requestLine: string
    var requestHeader: seq<string>
    var blank: string
    var requestBody: string
    var verb: string
    var url: string
    var version: string
    var headerKv: map<string, string>
    var contentLength: nat
    var path: string
    var parameter: string
    var cgi: bool
    var status: int
    var stop: bool

    constructor (sock: Socket)
      ensures this.sock == sock && requestLine == "" && requestHeader == [] && blank == "" && requestBody == ""
      ensures verb == "" && url == "" && version == "" && headerKv == map[] && path == "" && parameter == ""
      ensures contentLength == 0 && !cgi && status == 200 && !stop
    {
      this.sock := sock;
      requestLine, requestHeader, blank, requestBody := "", [], "", "";
      verb, url, version, headerKv, path, parameter := "", "", "", map[], "", "";
      contentLength, cgi, status, stop := 0, false, 200, false;
    }

    method RecvHttpRequestLine() returns (stopped: bool)
      requires sock.Valid()
      modifies this`requestLine, this`stop, sock`pos
      ensures sock.Valid() && stopped == stop
      ensures match ReadLine(sock.bytes, old(sock.pos))
        case Line(text, next) =>
          stop == old(stop) && requestLine + "\n" == old(requestLine) + text && sock.pos == next
        case Cut(text) => stop && requestLine == old(requestLine) + text && sock.pos == |sock.bytes|
    {
      LineIsFirst(sock.bytes, sock.pos);
      ghost var reading := ReadLine(sock.bytes, sock.pos);
      var line := requestLine;
      var sz;
      sz, line := ReaLine(sock, line);
      requestLine := line;
      if sz > 0 {
        line := line[..sz - 1];
        requestLine := line;
        assert line + "\n" == old(requestLine) + reading.text;
      } else {
        stop := true;
      }
      stopped := stop;
    }

    // The header lines are pushed on a copy of the header list, and the blank line is
    // assigned to a copy, so neither field changes.
    method RecvHttpRequestHeader() returns (stopped: bool)
      requires sock.Valid()
      modifies this`requestHeader, this`blank, this`stop, sock`pos
      ensures sock.Valid() && stopped == stop && requestHeader == old(requestHeader) && blank == old(blank)
      ensures match SkipHeaders(sock.bytes, old(sock.pos))
        case Blank(next) => stop == old(stop) && sock.pos == next
        case Missing => stop && sock.pos == |sock.bytes|
    {
      var s;
      while true
        invariant sock.Valid() && stop == old(stop)
        invariant requestHeader == old(requestHeader) && blank == old(blank)
        invariant SkipHeaders(sock.bytes, sock.pos) == SkipHeaders(sock.bytes, old(sock.pos))
        decreases |sock.bytes| - sock.pos
      {
        LineIsFirst(sock.bytes, sock.pos);
        s := "";
        var sz;
        ghost var reading := ReadLine(sock.bytes, sock.pos);
        sz, s := ReaLine(sock, s);
        assert "" + reading.text == reading.text;
        if sz <= 0 {
          stop := true;
          break;
        }
        if s == "\n" {
          var copy := blank;
          copy := s;
          break;
        }
        s := s[..|s| - 1];
        var copy := requestHeader;
        copy := copy + [s];
      }
      stopped := stop;
    }

    method ParseHttpRequestLine()
      modifies this`verb, this`url, this`version
      ensures verb == ParseLine(requestLine).verb && url == ParseLine(requestLine).url
      ensures version == ParseLine(requestLine).version
    {
      var m := NextWord(requestLine, 0);
      var u := NextWord(requestLine, m.end);
      var v := NextWord(requestLine, u.end);
      verb := m.word;
      url := u.word;
      version := v.word;
      verb := Upper(verb);
    }

    method ParseURL()
      modifies this`path, this`parameter, this`cgi, this`status
      ensures Aim() == Retarget(old(Aim()), verb, url)
      ensures cgi == (old(cgi) || verb == "POST")
      ensures status == if verb == "GET" || verb == "POST" then old(status) else 400
      ensures verb == "POST" ==> path == url && parameter == old(parameter)
      ensures verb == "GET" ==> '?' !in path && url == (if '?' in url then path + "?" + parameter else path)
      ensures verb == "GET" && '?' !in url ==> parameter == old(parameter)
      ensures verb != "GET" && verb != "POST" ==> path == old(path) && parameter == old(parameter)
    {
      QuestionFound(url);
      if verb != "GET" && verb != "POST" {
        status := 400;
      } else if verb == "GET" {
        if '?' in url {
          var p, q := Cutstring(url, "?", "", "");
          CutAtFirst(url, p, q);
          path := p;
          parameter := q;
        } else {
          path := url;
        }
      } else if verb == "POST" {
        path := url;
        cgi := true;
      }
    }

    // Each header is cut at ": " and inserted, into a copy of the map.
    method ParseHttpRequestHeader()
      modifies this`headerKv
      ensures headerKv == old(headerKv)
    {
      for k := 0 to |requestHeader|
        invariant headerKv == old(headerKv)
      {
        var str1, str2 := Cutstring(requestHeader[k], ": ", "", "");
        var copy := headerKv;
        copy := if str1 in copy then copy else copy[str1 := str2];
      }
    }

    method IsNeedRecvHttpRequestBody() returns (need: bool)
      modifies this`contentLength
      ensures need <==> verb == "POST" && "Content-Length" in headerKv
      ensures contentLength == if need then SizeT(Atoi(headerKv["Content-Length"])) else old(contentLength)
    {
      need := false;
      if verb == "POST" {
        if "Content-Length" in headerKv {
          contentLength := SizeT(Atoi(headerKv["Content-Length"]));
          need := true;
        }
      }
    }

    // As many bytes as Content-Length says, or as there are, and then stop.
    method RecvHttpRequestBody()
      requires sock.Valid()
      modifies this`contentLength, this`requestBody, this`stop, sock`pos
      ensures sock.Valid()
      ensures !(verb == "POST" && "Content-Length" in headerKv) ==>
        && sock.pos == old(sock.pos) && requestBody == old(requestBody)
        && stop == old(stop) && contentLength == old(contentLength)
      ensures verb == "POST" && "Content-Length" in headerKv ==>
        var left := |sock.bytes| - old(sock.pos);
        && contentLength == SizeT(Atoi(headerKv["Content-Length"]))
        && sock.pos == old(sock.pos) + (if contentLength <= left then contentLength else left)
        && requestBody == old(requestBody) + sock.bytes[old(sock.pos)..sock.pos]
        && stop == (old(stop) || contentLength > left)
    {
      var need := IsNeedRecvHttpRequestBody();
      if need {
        var left: nat := contentLength;
        var ch := '\0';
        while left != 0
          invariant contentLength == SizeT(Atoi(headerKv["Content-Length"]))
          invariant sock.Valid() && old(sock.pos) <= sock.pos && left + (sock.pos - old(sock.pos)) == contentLength
          invariant requestBody == old(requestBody) + sock.bytes[old(sock.pos)..sock.pos] && stop == old(stop)
        {
          ghost var from, before := sock.pos, requestBody;
          var sz;
          sz, ch := sock.Recv(ch);
          if sz > 0 {
            requestBody := requestBody + [ch];
            assert sock.bytes[old(sock.pos)..from + 1] == sock.bytes[old(sock.pos)..from] + [ch];
            left := left - 1;
          } else {
            stop := true;
            break;
          }
        }
      }
    }

    function Line(): RequestLine
      reads this`verb, this`url, this`version
    {
      RequestLine(verb, url, version)
    }

    function Aim(): Target
      reads this`path, this`parameter, this`cgi, this`status
    {
      Target(path, parameter, cgi, status)
    }

    // The first half of what RecvHttpRequest does once everything is in: the request line.
    method ParseTarget()
      requires Aim() == Target("", "", false, 200)
      modifies this`verb, this`url, this`version, this`path, this`parameter, this`cgi, this`status
      ensures Line() == ParseLine(requestLine) && Aim() == TargetOf(verb, url)
    {
      ParseHttpRequestLine();
      ParseURL();
    }

    // And the second half: headers and body.
    method ParseRest()
      requires sock.Valid() && headerKv == map[]
      modifies this`headerKv, this`contentLength, this`requestBody, this`stop, sock`pos
      ensures sock.Valid() && headerKv == map[] && requestBody == old(requestBody)
      ensures stop == old(stop) && sock.pos == old(sock.pos)
    {
      ParseHttpRequestHeader();
      RecvHttpRequestBody();
    }

    method ParseRequest()
      requires sock.Valid() && headerKv == map[] && Aim() == Target("", "", false, 200)
      modifies this`verb, this`url, this`version, this`path, this`parameter, this`cgi, this`status
      modifies this`headerKv, this`contentLength, this`requestBody, this`stop, sock`pos
      ensures sock.Valid() && Line() == ParseLine(requestLine) && Aim() == TargetOf(verb, url)
      ensures headerKv == map[] && requestBody == old(requestBody) && stop == old(stop) && sock.pos == old(sock.pos)
    {
      ParseTarget();
      ParseRest();
    }

    /** Nothing received or parsed yet, as the constructor leaves it. */
    predicate Blank()
      reads this
    {
      && requestLine == "" && requestHeader == [] && requestBody == "" && headerKv == map[]
      && path == "" && parameter == "" && !cgi && status == 200 && !stop
    }

    // Either the whole request is there, and then the stream stands right after its blank
    // line and the request line has been parsed, or the endpoint stops.
    method RecvHttpRequest()
      requires sock.Valid() && Blank()
      modifies this, sock`pos
      ensures sock.Valid() && requestHeader == [] && requestBody == "" && headerKv == map[]
      ensures var r := ReadRequest(sock.bytes, old(sock.pos));
        && stop == r.Stopped?
        && (r.Request? ==>
              && sock.pos == r.next && requestLine == r.line && Line() == r.parsed && Aim() == r.target)
    {
      var stopped := RecvHead();
      if !stopped {
        ParseRequest();
      }
    }

    // The condition of RecvHttpRequest: the line and, if that is there, the headers.
    method RecvHead() returns (stopped: bool)
      requires sock.Valid() && requestLine == "" && !stop
      modifies this`requestLine, this`requestHeader, this`blank, this`stop, sock`pos
      ensures sock.Valid() && requestHeader == old(requestHeader) && stopped == stop
      ensures var r := ReadRequest(sock.bytes, old(sock.pos));
        r == if stop then Stopped else RequestOf(requestLine, sock.pos)
    {
      ghost var from := sock.pos;
      LineIsFirst(sock.bytes, from);
      stopped := RecvHttpRequestLine();
      if !stopped {
        LineAndBlank(sock.bytes, from, requestLine, sock.pos);
        stopped := RecvHttpRequestHeader();
      }
    }
  }

  /** A number as setContentLength stores it: size_t, 64 bits wide, wraps around below 0. */
  function SizeT(n: int): nat {
    n % 0x1_0000_0000_0000_0000
  }

  /** Lengths from 0 on are stored as they are, and -1 as the largest number there is. */
  lemma StoredLengths(n: int)
    ensures 0 <= n < 0x1_0000_0000_0000_0000 ==> SizeT(n) == n
    ensures -0x1_0000_0000_0000_0000 <= n < 0 ==> SizeT(n) == n + 0x1_0000_0000_0000_0000
  {
  }

  lemma WithoutEnd(line: string, text: string)
    requires line + "\n" == "" + text
    ensures text != "" && line == text[..|text| - 1]
  {
    assert (line + "\n")[..|line|] == line;
  }

  lemma OneCharacter(url: string, j: nat)
    ensures OccursAt(url, "?", j) <==> j < |url| && url[j] == '?'
  {
    if j < |url| {
      assert url[j..j + 1] == [url[j]];
    }
  }

  lemma QuestionFound(url: string)
    ensures '?' in url <==> Find(url, "?", 0) <= |url|
    ensures '?' in url <==> Occurs(url, "?")
  {
    var k := Find(url, "?", 0);
    OneCharacter(url, k);
    if i :| 0 <= i < |url| && url[i] == '?' {
      OneCharacter(url, i);
      assert OccursAt(url, "?", i);
    } else if j: nat :| OccursAt(url, "?", j) {
      OneCharacter(url, j);
    }
  }

  lemma CutAtFirst(url: string, p: string, q: string)
    requires url == p + "?" + q && forall j: nat :: j < |p| ==> !OccursAt(url, "?", j)
    ensures Find(url, "?", 0) == |p| <= |url| && url[..|p|] == p && url[|p| + 1..] == q && '?' !in p
  {
    assert url[|p|..|p| + 1] == "?";
    assert OccursAt(url, "?", |p|);
    forall j | 0 <= j < |p| ensures p[j] != '?' {
      OneCharacter(url, j);
    }
  }

  /** What the reader makes of a stream: the request line without its line end, its parts,
      and the position after the blank line; or no complete request. */
  datatype ReadResult = Request(line: string, parsed: RequestLine, target: Target, next: nat) | Stopped

  function ReadRequest(s: string, i: nat): ReadResult
    requires i <= |s|
  {
    match ReadLine(s, i)
    case Cut(_) => Stopped
    case Line(text, next) =>
      match SkipHeaders(s, next)
      case Missing => Stopped
      case Blank(end) =>
        RequestOf(if text == "" then "" else text[..|text| - 1], end)
  }

  function RequestOf(line: string, next: nat): ReadResult {
    var parsed := ParseLine(line);
    Request(line, parsed, TargetOf(parsed.verb, parsed.url), next)
  }

  /** A framed request is read for its first line alone: whatever its headers say,
      Content-Length included, the reader stops at the body and leaves it in the stream. */
  lemma BodyIsLeft(s: string, first: Written, lines: seq<Written>, blank: Eol, body: string)
    requires s == first.text + EolText(first.eol) + Block(lines, blank, body)
    requires NoEol(first.text) && Framed(lines, blank, body) && !Swallows(first.eol, Block(lines, blank, body))
    ensures ReadRequest(s, 0) == RequestOf(first.text, |s| - |body| + if Swallows(blank, body) then 1 else 0)
  {
    LineThenHeaders(s, first, Block(lines, blank, body));
    HeadersThenBody(s, first.text, |s| - |Block(lines, blank, body)|, lines, blank, body);
  }

  lemma HeadersThenBody(s: string, line: string, next: nat, lines: seq<Written>, blank: Eol, body: string)
    requires ReadLine(s, 0) == Line(line + "\n", next)
    requires s[next..] == Block(lines, blank, body) && Framed(lines, blank, body)
    ensures ReadRequest(s, 0) == RequestOf(line, |s| - |body| + if Swallows(blank, body) then 1 else 0)
  {
    HeadersEndAtBlank(s, next, lines, blank, body);
    LineAndBlank(s, 0, line, next);
  }

  lemma LineThenHeaders(s: string, first: Written, block: string)
    requires s == first.text + EolText(first.eol) + block && NoEol(first.text) && !Swallows(first.eol, block)
    ensures |block| <= |s| && s[|s| - |block|..] == block
    ensures ReadLine(s, 0) == Line(first.text + "\n", |s| - |block|)
  {
    assert s[0..] == s;
    WrittenLineIsRead(s, 0, first.text, first.eol, block);
  }

  lemma LineAndBlank(s: string, i: nat, line: string, next: nat)
    requires i <= |s| && ReadLine(s, i) == Line(line + "\n", next)
    ensures ReadRequest(s, i) ==
      match SkipHeaders(s, next) case Blank(end) => RequestOf(line, end) case Missing => Stopped
  {
    WithoutEnd(line, line + "\n");
  }

  // HandlerTask::HandlerRequest: whatever the request, the socket is closed once.
  method HandlerRequest(sock: Socket) returns (answered: bool)
    requires sock.Valid() && sock.isOpen
    modifies sock
    ensures !sock.isOpen
    ensures answered <==> ReadRequest(sock.bytes, old(sock.pos)).Request?
  {
    var ep := new EndPoint(sock);
    ep.RecvHttpRequest();
    answered := !ep.stop;
    sock.Close();
  }
}
