/** The request WebBench builds from its options and a URL, and what the server's reader
    makes of it. */
module BenchRequest {
  import opened LineReading
  import opened RequestText
  import opened RequestReader

  datatype Verb = GET | HEAD | OPTIONS | TRACE

  function VerbText(v: Verb): string {
    match v
    case GET => "GET"
    case HEAD => "HEAD"
    case OPTIONS => "OPTIONS"
    case TRACE => "TRACE"
  }

  /** Why the program refuses a URL and exits. */
  datatype Refusal = NotValid | TooLong | NotHttp | NoSlash

  /** What becomes of a URL: refused, or taken apart into host, port part and path. */
  datatype Site = Refused(why: Refusal) | Accepted(host: string, port: string, path: string)

  function SplitUrl(url: string): Site {
    if Find(url, "://", 0) > |url| then Refused(NotValid)
    else if |url| > 1500 then Refused(TooLong)
    else if |url| < 7 || Upper(url[..7]) != "HTTP://" then Refused(NotHttp)
    else
      var i := Find(url, "://", 0) + 3;
      var slash := Find(url, "/", i);
      if slash > |url| then Refused(NoSlash)
      else
        var colon := Find(url, ":", i);
        var end := if colon < slash then colon else slash;
        Accepted(url[i..end], url[end..slash], url[slash..])
  }

  /** A URL of at most 1500 characters: the scheme in any case, a host without ':' and '/',
      nothing or a ':' and a port without '/', and a path that starts with '/'. */
  predicate IsUrl(url: string, host: string, port: string, path: string) {
    && 7 <= |url| <= 1500 && Upper(url[..7]) == "HTTP://" && url[7..] == host + port + path
    && ':' !in host && '/' !in host && '/' !in port && (port != "" ==> port[0] == ':')
    && path != "" && path[0] == '/'
  }

  /** The parts of an accepted URL are the only ones of this form, and every URL that has
      such parts is accepted. */
  lemma SplitUrlMeans(url: string, host: string, port: string, path: string)
    ensures SplitUrl(url) == Accepted(host, port, path) <==> IsUrl(url, host, port, path)
  {
    if 7 <= |url| && Upper(url[..7]) == "HTTP://" {
      SchemeEnds(url);
      CharFound(url, '/', 7);
      CharFound(url, ':', 7);
      if IsUrl(url, host, port, path) {
        PartsSplit(url, host, port, path);
      } else if SplitUrl(url) == Accepted(host, port, path) {
        SplitParts(url, Find(url, ":", 7), Find(url, "/", 7));
      }
    }
  }

  const SCHEME := "http://"

  /** A URL written from such parts is taken apart into them. */
  lemma WrittenUrl(host: string, port: string, path: string)
    requires ':' !in host && '/' !in host && '/' !in port && (port != "" ==> port[0] == ':')
    requires path != "" && path[0] == '/' && |host| + |port| + |path| <= 1493
    ensures SplitUrl(SCHEME + (host + port + path)) == Accepted(host, port, path)
  {
    var rest := host + port + path;
    var url := SCHEME + rest;
    assert url[..7] == SCHEME && url[7..] == rest;
    SchemeRaised();
    SplitUrlMeans(url, host, port, path);
  }

  lemma SchemeRaised()
    ensures Upper(SCHEME) == "HTTP://"
  {
    var u := Upper(SCHEME);
    assert forall k :: 0 <= k < 7 ==> u[k] == ToUpper(SCHEME[k]);
    assert u == ['H', 'T', 'T', 'P', ':', '/', '/'];
  }

  lemma SchemeEnds(url: string)
    requires |url| >= 7 && Upper(url[..7]) == "HTTP://"
    ensures Find(url, "://", 0) == 4
  {
    SchemeIs(url);
    FirstAt(url, "://", 4);
  }

  lemma FirstAt(url: string, symbol: string, k: nat)
    requires symbol != "" && OccursAt(url, symbol, k)
    requires forall j :: 0 <= j < k ==> url[j] != symbol[0]
    ensures Find(url, symbol, 0) == k
  {
    forall j | 0 <= j < k ensures !OccursAt(url, symbol, j) {
      FirstCharacter(url, symbol, j);
    }
    FindIs(url, symbol, 0, k);
  }

  lemma FirstCharacter(text: string, symbol: string, j: nat)
    requires symbol != ""
    ensures OccursAt(text, symbol, j) ==> text[j] == symbol[0]
  {
    if j + |symbol| <= |text| {
      assert text[j..j + |symbol|][0] == text[j];
    }
  }

  lemma SchemeIs(url: string)
    requires |url| >= 7 && Upper(url[..7]) == "HTTP://"
    ensures url[4..7] == "://" && forall k :: 0 <= k < 4 ==> url[k] != ':'
  {
    var u := Upper(url[..7]);
    assert u[0] == 'H' && u[1] == 'T' && u[2] == 'T' && u[3] == 'P' && u[4] == ':' && u[5] == '/' && u[6] == '/';
    assert forall k :: 0 <= k < 7 ==> u[k] == ToUpper(url[k]);
  }

  lemma CharFound(text: string, c: char, i: nat)
    requires i <= |text|
    ensures var k := Find(text, [c], i);
      && (k < |text| ==> text[k] == c) && k != |text|
      && forall j :: i <= j < k && j < |text| ==> text[j] != c
  {
    var k := Find(text, [c], i);
    if k < |text| {
      assert text[k..k + 1] == [c];
      assert text[k] == text[k..k + 1][0];
    }
    forall j | i <= j < k && j < |text| ensures text[j] != c {
      assert !OccursAt(text, [c], j) && text[j..j + 1] == [text[j]];
    }
  }

  lemma PartsSplit(url: string, host: string, port: string, path: string)
    requires IsUrl(url, host, port, path) && Find(url, "://", 0) == 4
    ensures SplitUrl(url) == Accepted(host, port, path)
  {
    var (a, b) := (7 + |host|, 7 + |host| + |port|);
    PartsStand(url, host, port, path);
    CharFound(url, '/', 7);
    CharFound(url, ':', 7);
    assert Find(url, "/", 7) == b;
    assert port != "" ==> Find(url, ":", 7) == a;
    assert port == "" ==> Find(url, ":", 7) >= b;
  }

  lemma PartsStand(url: string, host: string, port: string, path: string)
    requires |url| >= 7 && url[7..] == host + port + path
    ensures var (a, b) := (7 + |host|, 7 + |host| + |port|);
      && b + |path| == |url| && url[7..a] == host && url[a..b] == port && url[b..] == path
      && (forall k :: 7 <= k < a ==> url[k] in host) && (forall k :: a <= k < b ==> url[k] in port)
      && (port != "" ==> url[a] == port[0]) && (path != "" ==> url[b] == path[0])
  {
    var (a, b) := (7 + |host|, 7 + |host| + |port|);
    var u := host + port + path;
    assert |url| == 7 + |u| && forall k :: 7 <= k < |url| ==> url[k] == u[k - 7];
    assert url[7..a] == host && url[a..b] == port && url[b..] == path;
    assert forall k :: 7 <= k < a ==> url[k] == host[k - 7];
    assert forall k :: a <= k < b ==> url[k] == port[k - a];
  }

  lemma SplitParts(url: string, colon: nat, slash: nat)
    requires 7 <= slash < |url| && 7 <= colon && url[slash] == '/' && (colon < |url| ==> url[colon] == ':')
    requires forall k :: 7 <= k < slash ==> url[k] != '/'
    requires forall k :: 7 <= k < colon && k < |url| ==> url[k] != ':'
    ensures var end := if colon < slash then colon else slash;
      var (host, port, path) := (url[7..end], url[end..slash], url[slash..]);
      && url[7..] == host + port + path && ':' !in host && '/' !in host && '/' !in port
      && (port != "" ==> port[0] == ':') && path[0] == '/'
  {
    var end := if colon < slash then colon else slash;
    assert url[7..] == url[7..end] + url[end..slash] + url[slash..];
    assert forall k :: 0 <= k < end - 7 ==> url[7..end][k] == url[7 + k];
    assert forall k :: 0 <= k < slash - end ==> url[end..slash][k] == url[end + k];
  }

  /** The port of a port part: 80 for the number 0, and for what is no number. */
  function PortOf(port: string): int
    requires port != ""
  {
    var n := Atoi(port[1..]);
    if n == 0 then 80 else n
  }

  /** The version a request is raised to: 0, 1 and 2 stand for HTTP/0.9, 1.0 and 1.1. */
  function Raised(verb: Verb, http: nat, reload: bool, proxied: bool): nat {
    var h := if reload && proxied && http < 1 then 1 else http;
    match verb
    case GET => h
    case HEAD => if h < 1 then 1 else h
    case OPTIONS => if h < 2 then 2 else h
    case TRACE => if h < 2 then 2 else h
  }

  function VersionText(http: nat): string {
    if http == 1 then "HTTP/1.0" else if http == 2 then "HTTP/1.1" else ""
  }

  const AGENT := "User-Agent: WebBench 1.5"

  function ConnectionText(keepAlive: bool): string {
    if keepAlive then "Connection: Keep-Alive" else "Connection: close"
  }

  function AgentPart(http: nat): string {
    if http > 0 then AGENT + "\r\n" else ""
  }

  function HostPart(http: nat, host: string, proxied: bool): string {
    if !proxied && http > 0 then "Host: " + host + "\r\n" else ""
  }

  function PragmaPart(proxied: bool, reload: bool): string {
    if reload && proxied then "Pragma: no-cache\r\n" else ""
  }

  function ConnectionPart(http: nat, keepAlive: bool): string {
    if http > 1 then ConnectionText(keepAlive) + "\r\n" else ""
  }

  function BlankPart(http: nat): string {
    if http > 0 then "\r\n" else ""
  }

  /** The header lines after the first line, the blank line included. */
  function HeaderText(http: nat, host: string, proxied: bool, reload: bool, keepAlive: bool): string {
    AgentPart(http) + HostPart(http, host, proxied) + PragmaPart(proxied, reload)
      + ConnectionPart(http, keepAlive) + BlankPart(http)
  }

  function VersionPart(http: nat): string {
    if http == 1 || http == 2 then " " + VersionText(http) else ""
  }

  function RequestFor(verb: Verb, http: nat, target: string, host: string,
                      proxied: bool, reload: bool, keepAlive: bool): string {
    VerbText(verb) + " " + target + VersionPart(http) + "\r\n" + HeaderText(http, host, proxied, reload, keepAlive)
  }

  // ---- In literals ----------------------------------------------------------------------

  /** Why a URL is refused, in the order of the checks. */
  lemma RefusedFor(url: string)
    ensures SplitUrl(url) == Refused(NotValid) <==> !Occurs(url, "://")
    ensures SplitUrl(url) == Refused(TooLong) <==> Occurs(url, "://") && |url| > 1500
    ensures SplitUrl(url) == Refused(NotHttp) <==>
      Occurs(url, "://") && |url| <= 1500 && (|url| < 7 || Upper(url[..7]) != "HTTP://")
    ensures SplitUrl(url) == Refused(NoSlash) <==>
      7 <= |url| <= 1500 && Upper(url[..7]) == "HTTP://" && '/' !in url[7..]
  {
    SchemeFound(url);
    if 7 <= |url| && Upper(url[..7]) == "HTTP://" {
      SchemeEnds(url);
      CharFound(url, '/', 7);
      assert forall k :: 7 <= k < |url| ==> url[k] == url[7..][k - 7];
    }
  }

  lemma SchemeFound(url: string)
    ensures Find(url, "://", 0) <= |url| <==> Occurs(url, "://")
    ensures |url| >= 7 && Upper(url[..7]) == "HTTP://" ==> Occurs(url, "://")
  {
    if |url| >= 7 && Upper(url[..7]) == "HTTP://" {
      SchemeIs(url);
      assert OccursAt(url, "://", 4);
    }
  }

  /** The version each method is raised to at least. */
  lemma RaisedIs(http: nat, reload: bool, proxied: bool)
    ensures Raised(GET, http, reload, proxied) == if http == 0 && reload && proxied then 1 else http
    ensures Raised(HEAD, http, reload, proxied) == if http == 0 then 1 else http
    ensures Raised(OPTIONS, http, reload, proxied) == if http < 2 then 2 else http
    ensures Raised(TRACE, http, reload, proxied) == if http < 2 then 2 else http
  {
  }

  /** The port of a written number is that number, and 80 for 0 and where no number stands. */
  lemma PortsRead(n: nat, rest: string)
    requires rest != "" ==> !('0' <= rest[0] <= '9')
    ensures PortOf(":" + (Decimal(n) + rest)) == if n == 0 then 80 else n
    ensures (rest == "" || (!IsSpace(rest[0]) && rest[0] != '+' && rest[0] != '-')) ==> PortOf(":" + rest) == 80
  {
    AtoiReads("", n, rest);
    assert "" + Decimal(n) + rest == Decimal(n) + rest && "" + rest == rest;
    assert (":" + (Decimal(n) + rest))[1..] == Decimal(n) + rest && (":" + rest)[1..] == rest;
    if rest == "" || (!IsSpace(rest[0]) && rest[0] != '+' && rest[0] != '-') {
      AtoiReadsNothing("", rest);
    }
  }

  /** The first line of every request. */
  lemma FirstLinesAre(target: string)
    ensures FirstLine(GET, 1, target) == "GET " + target + " HTTP/1.0"
    ensures FirstLine(GET, 2, target) == "GET " + target + " HTTP/1.1"
    ensures FirstLine(HEAD, 1, target) == "HEAD " + target + " HTTP/1.0"
    ensures FirstLine(HEAD, 2, target) == "HEAD " + target + " HTTP/1.1"
    ensures FirstLine(OPTIONS, 2, target) == "OPTIONS " + target + " HTTP/1.1"
    ensures FirstLine(TRACE, 2, target) == "TRACE " + target + " HTTP/1.1"
  {
    assert "GET" + " " == "GET " && "HEAD" + " " == "HEAD ";
    assert "OPTIONS" + " " == "OPTIONS " && "TRACE" + " " == "TRACE ";
    SpaceFirst("GET " + target, "HTTP/1.0");
    SpaceFirst("HEAD " + target, "HTTP/1.0");
  }

  lemma SpaceFirst(a: string, version: string)
    ensures a + " " + "HTTP/1.0" == a + " HTTP/1.0" && a + " " + "HTTP/1.1" == a + " HTTP/1.1"
  {
    assert " " + "HTTP/1.0" == " HTTP/1.0" && " " + "HTTP/1.1" == " HTTP/1.1";
  }

  /** The headers of every request, with the blank line. */
  lemma HeadersAre(host: string, reload: bool, keepAlive: bool)
    ensures var agent := "User-Agent: WebBench 1.5\r\n";
      var (hosted, pragma) := ("Host: " + host + "\r\n", "Pragma: no-cache\r\n");
      var connection := if keepAlive then "Connection: Keep-Alive\r\n" else "Connection: close\r\n";
      && HeaderText(1, host, false, reload, keepAlive) == agent + hosted + "\r\n"
      && HeaderText(2, host, false, reload, keepAlive) == agent + hosted + connection + "\r\n"
      && HeaderText(1, host, true, true, keepAlive) == agent + pragma + "\r\n"
      && HeaderText(1, host, true, false, keepAlive) == agent + "\r\n"
      && HeaderText(2, host, true, true, keepAlive) == agent + pragma + connection + "\r\n"
      && HeaderText(2, host, true, false, keepAlive) == agent + connection + "\r\n"
      && HeaderText(0, host, false, reload, keepAlive) == ""
  {
    AgentIs();
    ConnectionIs(keepAlive);
    var agent := "User-Agent: WebBench 1.5\r\n";
    var connection := if keepAlive then "Connection: Keep-Alive\r\n" else "Connection: close\r\n";
    NoPart(agent, connection);
    NoPart(agent + ("Host: " + host + "\r\n"), connection);
    NoPart(agent + "Pragma: no-cache\r\n", connection);
  }

  lemma AgentIs()
    ensures AGENT + "\r\n" == "User-Agent: WebBench 1.5\r\n"
  {
  }

  lemma ConnectionIs(keepAlive: bool)
    ensures ConnectionText(keepAlive) + "\r\n"
         == if keepAlive then "Connection: Keep-Alive\r\n" else "Connection: close\r\n"
  {
  }

  lemma NoPart(a: string, c: string)
    ensures a + "" == a && a + "" + c == a + c
  {
  }

  /** The program's globals. */
  class Bench {
    var verb: Verb
    var http10: nat
    var forceReload: bool
    var keepAlive: bool
    var proxied: bool
    var proxyport: int
    var host: string
    var request: string

    // build_request; a refused URL ends the program.
    method BuildRequest(url: string) returns (r: Site)
      requires http10 <= 2
      modifies this`http10, this`proxyport, this`host, this`request
      ensures r == SplitUrl(url)
      ensures r.Accepted? ==>
        && http10 == Raised(verb, old(http10), forceReload, proxied)
        && proxyport == (if proxied || r.port == "" then old(proxyport) else PortOf(r.port))
        && request == RequestFor(verb, http10, if proxied then url else r.path, if proxied then "" else r.host,
                                 proxied, forceReload, keepAlive)
    {
      host := "";
      request := "";
      RaiseVersion();
      AddVerb();
      r := SplitSite(url);
      if r.Refused? {
        return;
      }
      AddTarget(url, r);
      AddVersion();
      AddHeaders();
    }

    method AddVerb()
      requires request == ""
      modifies this`request
      ensures request == VerbText(verb) + " "
    {
      match verb {
        case GET => request := "GET";
        case HEAD => request := "HEAD";
        case OPTIONS => request := "OPTIONS";
        case TRACE => request := "TRACE";
      }
      request := request + " ";
    }

    method AddTarget(url: string, r: Site)
      requires r.Accepted? && host == ""
      modifies this`proxyport, this`host, this`request
      ensures proxyport == (if proxied || r.port == "" then old(proxyport) else PortOf(r.port))
      ensures host == (if proxied then "" else r.host)
      ensures request == old(request) + if proxied then url else r.path
    {
      if !proxied {
        if r.port != "" {
          proxyport := Atoi(r.port[1..]);
          if proxyport == 0 {
            proxyport := 80;
          }
        }
        host := r.host;
        request := request + r.path;
      } else {
        request := request + url;
      }
    }

    method RaiseVersion()
      modifies this`http10
      ensures http10 == Raised(verb, old(http10), forceReload, proxied)
    {
      if forceReload && proxied && http10 < 1 { http10 := 1; }
      if verb == HEAD && http10 < 1 { http10 := 1; }
      if verb == OPTIONS && http10 < 2 { http10 := 2; }
      if verb == TRACE && http10 < 2 { http10 := 2; }
    }

    method SplitSite(url: string) returns (r: Site)
      ensures r == SplitUrl(url)
    {
      if Find(url, "://", 0) > |url| {
        return Refused(NotValid);
      }
      if |url| > 1500 {
        return Refused(TooLong);
      }
      if |url| < 7 || Upper(url[..7]) != "HTTP://" {
        return Refused(NotHttp);
      }
      var i := Find(url, "://", 0) + 3;
      var slash := Find(url, "/", i);
      if slash > |url| {
        return Refused(NoSlash);
      }
      var colon := Find(url, ":", i);
      if colon < slash {
        r := Accepted(url[i..colon], url[colon..slash], url[slash..]);
      } else {
        r := Accepted(url[i..slash], "", url[slash..]);
      }
    }

    method AddVersion()
      modifies this`request
      ensures request == old(request) + VersionPart(http10) + "\r\n"
    {
      if http10 == 1 {
        request := request + " HTTP/1.0";
      } else if http10 == 2 {
        request := request + " HTTP/1.1";
      }
      assert request == old(request) + VersionPart(http10);
      request := request + "\r\n";
    }

    method AddHeaders()
      modifies this`request
      ensures request == old(request) + HeaderText(http10, host, proxied, forceReload, keepAlive)
    {
      ghost var first := request;
      ghost var (a, b) := (AgentPart(http10), HostPart(http10, host, proxied));
      ghost var (c, d) := (PragmaPart(proxied, forceReload), ConnectionPart(http10, keepAlive));
      if http10 > 0 {
        request := request + (AGENT + "\r\n");
      }
      assert request == first + a;
      if !proxied && http10 > 0 {
        AddHost();
      }
      assert request == first + a + b;
      if forceReload && proxied {
        request := request + "Pragma: no-cache\r\n";
      }
      assert request == first + a + b + c;
      if http10 > 1 {
        if !keepAlive {
          request := request + ("Connection: close" + "\r\n");
        } else {
          request := request + ("Connection: Keep-Alive" + "\r\n");
        }
      }
      assert request == first + a + b + c + d;
      if http10 > 0 {
        request := request + "\r\n";
      }
      assert request == first + a + b + c + d + BlankPart(http10);
      Regroup(first, a, b, c, d, BlankPart(http10));
    }

    method AddHost()
      modifies this`request
      ensures request == old(request) + ("Host: " + host + "\r\n")
    {
      request := request + "Host: ";
      request := request + host;
      request := request + "\r\n";
    }
  }

  lemma Regroup(first: string, a: string, b: string, c: string, d: string, e: string)
    ensures first + a + b + c + d + e == first + (a + b + c + d + e)
  {
  }

  // ---- What the server reads -----------------------------------------------------------

  function FirstLine(verb: Verb, http: nat, target: string): string {
    VerbText(verb) + " " + target + " " + VersionText(http)
  }

  lemma PlainTexts(verb: Verb, http: nat)
    requires http == 1 || http == 2
    ensures NoSpace(VerbText(verb)) && NoSpace(VersionText(http)) && Upper(VerbText(verb)) == VerbText(verb)
  {
  }

  /** A stretch of whole header lines. */
  predicate WholeLines(u: string) {
    u != "" ==> u[|u| - 1] == '\n'
  }

  lemma StretchFirst(s: string, off: nat, u: string, rest: string)
    requires off <= |s| && s[off..] == u + rest && WholeLines(u)
    ensures off + |u| <= |s| && s[off + |u|..] == rest
    ensures SkipHeaders(s, off) ==
      match SkipHeaders(u, 0) case Blank(n) => Blank(off + n) case Missing => SkipHeaders(s, off + |u|)
  {
    assert |s[off..]| == |u| + |rest|;
    assert s[off + |u|..] == s[off..][|u|..];
    if u != "" {
      assert s[off..off + |u|] == s[off..][..|u|];
      StretchSkip(s, off, u, 0);
    }
  }

  // Headers in three stretches, of which only the middle one may hold a blank line.
  lemma HeadersRead(s: string, i: nat, a: string, m: string, c: string, rest: string)
    requires i <= |s| && s[i..] == a + rest && rest == m + (c + "\r\n")
    requires WholeLines(a) && WholeLines(m) && WholeLines(c)
    requires SkipHeaders(a, 0) == Missing && SkipHeaders(c, 0) == Missing
    ensures SkipHeaders(s, i).Blank?
    ensures SkipHeaders(s, i).next == |s| <==> SkipHeaders(m, 0) == Missing
  {
    StretchFirst(s, i, a, rest);
    MiddleRead(s, i + |a|, m, c + "\r\n", c);
  }

  lemma MiddleRead(s: string, i: nat, m: string, rest: string, c: string)
    requires i <= |s| && s[i..] == m + rest && rest == c + "\r\n" && WholeLines(m) && WholeLines(c)
    requires SkipHeaders(c, 0) == Missing
    ensures SkipHeaders(s, i).Blank?
    ensures SkipHeaders(s, i).next == |s| <==> SkipHeaders(m, 0) == Missing
  {
    StretchFirst(s, i, m, rest);
    TailRead(s, i + |m|, c);
    StretchEnds(m);
  }

  lemma TailRead(s: string, i: nat, c: string)
    requires i <= |s| && s[i..] == c + "\r\n" && WholeLines(c) && SkipHeaders(c, 0) == Missing
    ensures SkipHeaders(s, i) == Blank(|s|) && i + 2 <= |s|
  {
    StretchFirst(s, i, c, "\r\n");
    LastBlank(s, i + |c|);
    assert |s[i..]| == |c| + 2;
  }

  lemma StretchEnds(u: string)
    ensures SkipHeaders(u, 0).Blank? ==> SkipHeaders(u, 0).next <= |u|
  {
  }

  lemma LastBlank(s: string, i: nat)
    requires i <= |s| && s[i..] == "\r\n"
    ensures SkipHeaders(s, i) == Blank(|s|)
  {
    assert s[i..] == EolText(CrLf) + "";
    EolIsRead(s, i, CrLf, "");
  }

  lemma PlainLineHolds(text: string)
    requires text != "" && NoEol(text)
    ensures WholeLines(text + "\r\n") && SkipHeaders(text + "\r\n", 0) == Missing
  {
    BlankHeld(text, "");
    assert text + "" == text;
  }

  lemma HostLineHolds(host: string)
    ensures WholeLines("Host: " + host + "\r\n")
    ensures SkipHeaders("Host: " + host + "\r\n", 0) == Missing <==> !HoldsBlank(host)
  {
    BlankHeld("Host: ", host);
  }

  /** The Host line, or the Pragma line of a request through a proxy. */
  function MiddlePart(http: nat, host: string, proxied: bool, reload: bool): string {
    HostPart(http, host, proxied) + PragmaPart(proxied, reload)
  }

  lemma MiddleHolds(http: nat, host: string, proxied: bool, reload: bool)
    requires http > 0
    ensures var m := MiddlePart(http, host, proxied, reload);
      WholeLines(m) && (SkipHeaders(m, 0) == Missing <==> proxied || !HoldsBlank(host))
  {
    if !proxied {
      HostLineHolds(host);
      assert MiddlePart(http, host, proxied, reload) == "Host: " + host + "\r\n";
    } else if reload {
      PlainLineHolds("Pragma: no-cache");
      assert MiddlePart(http, host, proxied, reload) == "Pragma: no-cache" + "\r\n";
    }
  }

  lemma EndsHold(http: nat, keepAlive: bool)
    requires http > 0
    ensures WholeLines(AgentPart(http)) && SkipHeaders(AgentPart(http), 0) == Missing
    ensures WholeLines(ConnectionPart(http, keepAlive)) && SkipHeaders(ConnectionPart(http, keepAlive), 0) == Missing
  {
    PlainLineHolds(AGENT);
    PlainLineHolds(ConnectionText(keepAlive));
  }

  lemma AllHeadersRead(s: string, i: nat, http: nat, host: string, proxied: bool, reload: bool, keepAlive: bool)
    requires http > 0 && i <= |s| && s[i..] == HeaderText(http, host, proxied, reload, keepAlive)
    ensures SkipHeaders(s, i).Blank?
    ensures SkipHeaders(s, i).next == |s| <==> proxied || !HoldsBlank(host)
  {
    var (a, m, c) := (AgentPart(http), MiddlePart(http, host, proxied, reload), ConnectionPart(http, keepAlive));
    Regrouped(a, HostPart(http, host, proxied), PragmaPart(proxied, reload), c, "\r\n");
    EndsHold(http, keepAlive);
    MiddleHolds(http, host, proxied, reload);
    HeadersRead(s, i, a, m, c, m + (c + "\r\n"));
  }

  lemma Regrouped(a: string, b: string, c: string, d: string, e: string)
    ensures a + b + c + d + e == a + ((b + c) + (d + e))
  {
  }

  lemma FirstLineRead(s: string, line: string, rest: string)
    requires s == line + "\r\n" + rest && NoEol(line)
    ensures ReadLine(s, 0) == Line(line + "\n", |s| - |rest|) && s[|s| - |rest|..] == rest
    ensures (line + "\n")[..|line + "\n"| - 1] == line
  {
    assert s[0..] == line + EolText(CrLf) + rest;
    WrittenLineIsRead(s, 0, line, CrLf, rest);
  }

  lemma FirstLineIs(verb: Verb, http: nat, target: string)
    requires (http == 1 || http == 2) && target != "" && NoSpace(target)
    ensures NoEol(FirstLine(verb, http, target))
    ensures ParseLine(FirstLine(verb, http, target)) == RequestLine(VerbText(verb), target, VersionText(http))
  {
    PlainTexts(verb, http);
    ThreeWords(VerbText(verb), target, VersionText(http));
    WordsArePlain(VerbText(verb), target, VersionText(http));
  }

  lemma WordsArePlain(a: string, b: string, c: string)
    requires NoSpace(a) && NoSpace(b) && NoSpace(c)
    ensures NoEol(a + " " + b + " " + c)
  {
  }

  // The case of a target without white space, with the stream split into its two parts.
  lemma PlainTargetIsRead(s: string, headers: string, line: string, parsed: RequestLine,
                          http: nat, host: string, proxied: bool, reload: bool, keepAlive: bool)
    requires http > 0 && headers == HeaderText(http, host, proxied, reload, keepAlive)
    requires s == line + "\r\n" + headers && NoEol(line) && ParseLine(line) == parsed
    ensures var r := ReadRequest(s, 0);
      && r.Request? && r.line == line && r.parsed == parsed && r.target == TargetOf(parsed.verb, parsed.url)
      && (r.next == |s| <==> proxied || !HoldsBlank(host))
  {
    FirstLineRead(s, line, headers);
    AllHeadersRead(s, |s| - |headers|, http, host, proxied, reload, keepAlive);
  }

  /** The server's reader on the request built over HTTP/1.0 or 1.1 for a nonempty target,
      with a proxy or without: a target without white space comes back as the URL, with the
      method and the version, and every byte is consumed exactly when no Host line is sent
      or the host does not end in a line end and has no two of them in a row; a target with
      white space never comes back. */
  lemma BuiltRequestIsRead(verb: Verb, http: nat, target: string, host: string,
                           proxied: bool, reload: bool, keepAlive: bool)
    requires (http == 1 || http == 2) && target != ""
    ensures var s := RequestFor(verb, http, target, host, proxied, reload, keepAlive);
      var r := ReadRequest(s, 0);
      && (NoSpace(target) ==>
            && r.Request? && r.line == FirstLine(verb, http, target)
            && r.parsed == RequestLine(VerbText(verb), target, VersionText(http))
            && r.target == TargetOf(VerbText(verb), target)
            && (r.next == |s| <==> proxied || !HoldsBlank(host)))
      && (!NoSpace(target) ==> r.Request? ==> r.parsed.url != target)
  {
    var headers := HeaderText(http, host, proxied, reload, keepAlive);
    var s := RequestFor(verb, http, target, host, proxied, reload, keepAlive);
    if NoSpace(target) {
      FirstLineIs(verb, http, target);
      FirstPart(verb, http, target, headers);
      PlainTargetIsRead(s, headers, FirstLine(verb, http, target),
                        RequestLine(VerbText(verb), target, VersionText(http)), http, host, proxied, reload, keepAlive);
    } else {
      ReadUrlIsWord(s);
    }
  }

  /** What the server reads of each request, in literals. */
  lemma ReadInLiterals(verb: Verb, http: nat, target: string, host: string,
                       proxied: bool, reload: bool, keepAlive: bool)
    requires (http == 1 || http == 2) && target != "" && NoSpace(target)
    ensures ReadParts(verb, http, target, host, proxied, reload, keepAlive) ==
      RequestLine(match verb case GET => "GET" case HEAD => "HEAD" case OPTIONS => "OPTIONS" case TRACE => "TRACE",
                  target, if http == 1 then "HTTP/1.0" else "HTTP/1.1")
  {
    BuiltRequestIsRead(verb, http, target, host, proxied, reload, keepAlive);
  }

  function ReadParts(verb: Verb, http: nat, target: string, host: string,
                     proxied: bool, reload: bool, keepAlive: bool): RequestLine {
    match ReadRequest(RequestFor(verb, http, target, host, proxied, reload, keepAlive), 0)
    case Request(_, parsed, _, _) => parsed
    case Stopped => RequestLine("", "", "")
  }

  lemma ReadUrlIsWord(s: string)
    ensures ReadRequest(s, 0).Request? ==> NoSpace(ReadRequest(s, 0).parsed.url)
  {
    if ReadRequest(s, 0).Request? {
      ParsedUrlIsWord(ReadRequest(s, 0).line);
    }
  }

  lemma FirstPart(verb: Verb, http: nat, target: string, headers: string)
    requires http == 1 || http == 2
    ensures VerbText(verb) + " " + target + VersionPart(http) + "\r\n" + headers
         == FirstLine(verb, http, target) + "\r\n" + headers
  {
    assert VerbText(verb) + " " + target + VersionPart(http) == FirstLine(verb, http, target);
  }

  /** What a request names: the whole URL through a proxy, otherwise its path. */
  function NamedTarget(url: string, site: Site, proxied: bool): string
    requires site.Accepted?
  {
    if proxied then url else site.path
  }

  predicate Servable(url: string, site: Site, proxied: bool)
    requires site.Accepted?
  {
    NoSpace(NamedTarget(url, site, proxied)) && (proxied || !HoldsBlank(site.host))
  }

  /** From the URL on: what the server reads is exactly what was asked for, with nothing
      left in the stream, if and only if the target has no white space and the host, where
      it is sent, puts no blank line into the headers. */
  lemma UrlIsServed(url: string, verb: Verb, http: nat, proxied: bool, reload: bool, keepAlive: bool)
    requires (http == 1 || http == 2) && SplitUrl(url).Accepted?
    ensures var site := SplitUrl(url);
      var target := NamedTarget(url, site, proxied);
      var s := RequestFor(verb, http, target, site.host, proxied, reload, keepAlive);
      ReadRequest(s, 0) == Request(FirstLine(verb, http, target),
                                   RequestLine(VerbText(verb), target, VersionText(http)),
                                   TargetOf(VerbText(verb), target), |s|)
      <==> Servable(url, site, proxied)
  {
    var site := SplitUrl(url);
    SplitUrlMeans(url, site.host, site.port, site.path);
    BuiltRequestIsRead(verb, http, NamedTarget(url, site, proxied), site.host, proxied, reload, keepAlive);
  }

  // Whatever the target, a host that holds a blank line leaves part of the request unread.
  lemma HostEndsEarly(verb: Verb, http: nat, target: string, host: string, reload: bool, keepAlive: bool)
    requires (http == 1 || http == 2) && target != "" && NoSpace(target) && HoldsBlank(host)
    ensures var s := RequestFor(verb, http, target, host, false, reload, keepAlive);
      ReadRequest(s, 0).Request? && ReadRequest(s, 0).next != |s|
  {
    BuiltRequestIsRead(verb, http, target, host, false, reload, keepAlive);
  }

  const LINE_FEED_HOST := "127.0.0.1\n"

  lemma LineFeedHost()
    ensures |LINE_FEED_HOST| == 10 && HoldsBlank(LINE_FEED_HOST)
    ensures ':' !in LINE_FEED_HOST && '/' !in LINE_FEED_HOST
  {
    assert IsEol(LINE_FEED_HOST[9]);
  }

  lemma LineFeedUrl()
    ensures SplitUrl(SCHEME + (LINE_FEED_HOST + "" + "/")) == Accepted(LINE_FEED_HOST, "", "/")
  {
    LineFeedHost();
    WrittenUrl(LINE_FEED_HOST, "", "/");
  }

  lemma LineFeedWritten()
    ensures SCHEME + (LINE_FEED_HOST + "" + "/") == "http://127.0.0.1\n/"
  {
  }

  /** A URL whose request is not read to its end: the LF after the address stays in the host
      and, in the Host line, makes the blank line come early. */
  lemma HostWithLineFeed(http: nat, keepAlive: bool)
    requires http == 1 || http == 2
    ensures SplitUrl("http://127.0.0.1\n/") == Accepted(LINE_FEED_HOST, "", "/")
    ensures var s := RequestFor(GET, http, "/", LINE_FEED_HOST, false, false, keepAlive);
      ReadRequest(s, 0).Request? && ReadRequest(s, 0).next != |s|
  {
    LineFeedUrl();
    LineFeedWritten();
    LineFeedHost();
    assert NoSpace("/");
    HostEndsEarly(GET, http, "/", LINE_FEED_HOST, false, keepAlive);
  }

  lemma SpaceUrl()
    ensures SplitUrl("http://a/b c") == Accepted("a", "", "/b c") && !NoSpace("/b c")
  {
    WrittenUrl("a", "", "/b c");
    assert SCHEME + ("a" + "" + "/b c") == "http://a/b c";
    assert IsSpace("/b c"[2]);
  }

  /** And one whose target does not come back at all: its path has a space in it. */
  lemma PathWithSpace(http: nat, keepAlive: bool)
    requires http == 1 || http == 2
    ensures SplitUrl("http://a/b c") == Accepted("a", "", "/b c")
    ensures var r := ReadRequest(RequestFor(GET, http, "/b c", "a", false, false, keepAlive), 0);
      r.Request? ==> r.parsed.url != "/b c"
  {
    SpaceUrl();
    BuiltRequestIsRead(GET, http, "/b c", "a", false, false, keepAlive);
  }

  /** A request that stays at HTTP/0.9 has no headers and no blank line of its own: the
      server waits for more and stops when the stream ends, exactly when the target does not
      end in a line end and has no two of them in a row. */
  lemma OldRequestStops(verb: Verb, http: nat, target: string, host: string,
                        proxied: bool, reload: bool, keepAlive: bool)
    requires Raised(verb, http, reload, proxied) == 0
    ensures ReadRequest(RequestFor(verb, 0, target, host, proxied, reload, keepAlive), 0) == Stopped
      <==> !HoldsBlank(target)
  {
    OldText(verb, target, host, proxied, reload, keepAlive);
    BlankHeld(VerbText(verb) + " ", target);
    OneLineRead(VerbText(verb) + " " + target + "\r\n");
  }

  lemma OldText(verb: Verb, target: string, host: string, proxied: bool, reload: bool, keepAlive: bool)
    requires !(reload && proxied)
    ensures RequestFor(verb, 0, target, host, proxied, reload, keepAlive) == VerbText(verb) + " " + target + "\r\n"
  {
    var t := VerbText(verb) + " " + target;
    assert VersionPart(0) == "" && HeaderText(0, host, proxied, reload, keepAlive) == "";
    assert t + "" == t && (t + "\r\n") + "" == t + "\r\n";
  }

  // The first line is not blank, so looking for the blank line may start before it.
  lemma OneLineRead(s: string)
    requires |s| > 2 && !IsEol(s[0]) && s[|s| - 1] == '\n'
    ensures ReadRequest(s, 0) == Stopped <==> SkipHeaders(s, 0) == Missing
  {
    LineShape(s, 0);
  }

  /** One that does not stop: the target "/" with a LF after it. */
  lemma OldRequestAnswered(host: string, keepAlive: bool)
    ensures ReadRequest(RequestFor(GET, 0, "/\n", host, false, false, keepAlive), 0).Request?
  {
    OldRequestStops(GET, 0, "/\n", host, false, false, keepAlive);
  }

  /** Both programs together: the request that build_request leaves, read by the server's
      endpoint from a socket that brings it and then closes. */
  method Exchange(bench: Bench, url: string) returns (site: Site, ep: EndPoint?)
    requires bench.http10 <= 2
    modifies bench
    ensures site == SplitUrl(url) && (ep != null <==> site.Accepted?)
    ensures ep != null ==> fresh(ep) && fresh(ep.sock)
    ensures ep != null && bench.http10 > 0 ==>
      var target := NamedTarget(url, site, bench.proxied);
      (!ep.stop && ep.verb == VerbText(bench.verb) && ep.url == target && ep.version == VersionText(bench.http10)
        && ep.sock.pos == |ep.sock.bytes|) <==> Servable(url, site, bench.proxied)
    ensures ep != null && bench.http10 == 0 ==> (ep.stop <==> !HoldsBlank(NamedTarget(url, site, bench.proxied)))
  {
    ghost var http := bench.http10;
    ep := null;
    site := bench.BuildRequest(url);
    if site.Accepted? {
      var sock := new Socket(bench.request, 0);
      ep := new EndPoint(sock);
      ep.RecvHttpRequest();
      ExchangeMeans(url, bench.verb, http, bench.proxied, bench.forceReload, bench.keepAlive);
    }
  }

  lemma ExchangeMeans(url: string, verb: Verb, http: nat, proxied: bool, reload: bool, keepAlive: bool)
    requires http <= 2 && SplitUrl(url).Accepted?
    ensures var site := SplitUrl(url);
      var (target, raised) := (NamedTarget(url, site, proxied), Raised(verb, http, reload, proxied));
      var s := RequestFor(verb, raised, target, if proxied then "" else site.host, proxied, reload, keepAlive);
      var r := ReadRequest(s, 0);
      && (raised == 0 ==> (r == Stopped <==> !HoldsBlank(target)))
      && (raised > 0 ==>
            ((r.Request? && r.parsed == RequestLine(VerbText(verb), target, VersionText(raised)) && r.next == |s|)
              <==> Servable(url, site, proxied)))
  {
    var site := SplitUrl(url);
    var (target, raised) := (NamedTarget(url, site, proxied), Raised(verb, http, reload, proxied));
    var host := if proxied then "" else site.host;
    SplitUrlMeans(url, site.host, site.port, site.path);
    if raised == 0 {
      OldRequestStops(verb, http, target, host, proxied, reload, keepAlive);
    } else {
      BuiltRequestIsRead(verb, raised, target, host, proxied, reload, keepAlive);
    }
  }
}
