/** Reading lines one byte at a time with a one-byte peek, against a plain reference:
    turn every line end into a line feed, then split.  CRLF and LF are the line ends of
    section 3.5 of RFC 7230 and section 2.2 of RFC 9112; a bare CR is taken as one too,
    which those sections do not ask for.  A stream is a string and a position in it. */
module LineReading {

  /** The byte one round of the reading loop appends. */
  function Head(c: char): char {
    if c == '\r' then '\n' else c
  }

  /** The position after that round, reading s up to position j. */
  function Skip(s: string, i: nat, j: nat): (k: nat)
    requires i < j <= |s|
    ensures i < k <= j
  {
    if s[i] == '\r' && i + 1 < j && s[i + 1] == '\n' then i + 2 else i + 1
  }

  /** The bytes from i to j with every CRLF, CR and LF as one LF. */
  function Normal(s: string, i: nat, j: nat): string
    requires i <= j <= |s|
    decreases j - i
  {
    if i == j then "" else [Head(s[i])] + Normal(s, Skip(s, i, j), j)
  }

  /** The outcome of reading a line: its text with the LF and the position after it, or,
      at the end of the stream, the text that no line end followed. */
  datatype Reading = Line(text: string, next: nat) | Cut(text: string)

  function ReadLine(s: string, i: nat): (r: Reading)
    requires i <= |s|
    ensures r.Line? ==> i < r.next <= |s|
    decreases |s| - i
  {
    if i == |s| then Cut("")
    else if Head(s[i]) == '\n' then Line("\n", Skip(s, i, |s|))
    else
      match ReadLine(s, i + 1)
      case Line(text, next) => Line([s[i]] + text, next)
      case Cut(text) => Cut([s[i]] + text)
  }

  /** An LF at the end and nowhere else. */
  predicate IsLine(text: string) {
    text != "" && text[|text| - 1] == '\n' && forall k :: 0 <= k < |text| - 1 ==> text[k] != '\n'
  }

  /** A line read is the first line of the normal form of the stream; when no line end is
      left, everything left has been read. */
  lemma {:induction false} LineIsFirst(s: string, i: nat)
    requires i <= |s|
    ensures var n := Normal(s, i, |s|);
      match ReadLine(s, i)
      case Line(text, next) => IsLine(text) && n == text + Normal(s, next, |s|)
      case Cut(text) => n == text && '\n' !in n
    decreases |s| - i
  {
    if i < |s| && Head(s[i]) != '\n' {
      LineIsFirst(s, i + 1);
      match ReadLine(s, i + 1) {
        case Line(text, next) => assert [s[i]] + (text + Normal(s, next, |s|)) == [s[i]] + text + Normal(s, next, |s|);
        case Cut(text) =>
      }
    }
  }

  /** And it is the normal form of exactly the bytes consumed. */
  lemma {:induction false} LineIsConsumed(s: string, i: nat)
    requires i <= |s| && ReadLine(s, i).Line?
    ensures Normal(s, i, ReadLine(s, i).next) == ReadLine(s, i).text
    decreases |s| - i
  {
    if Head(s[i]) != '\n' {
      LineIsConsumed(s, i + 1);
    } else {
      var next := ReadLine(s, i).next;
      assert Skip(s, i, next) == next;
    }
  }

  /** Position k stands inside a CRLF. */
  predicate InsideCrLf(s: string, i: nat, k: nat, j: nat) {
    i < k < j <= |s| && s[k - 1] == '\r' && s[k] == '\n'
  }

  lemma {:induction false} NormalParts(s: string, i: nat, k: nat, j: nat)
    requires i <= k <= j <= |s|
    ensures !InsideCrLf(s, i, k, j) ==> Normal(s, i, j) == Normal(s, i, k) + Normal(s, k, j)
    ensures InsideCrLf(s, i, k, j) ==> |Normal(s, i, j)| + 1 == |Normal(s, i, k)| + |Normal(s, k, j)|
    decreases j - i
  {
    if i < k {
      if Skip(s, i, j) <= k {
        PartsStep(s, i, k, j);
        NormalParts(s, Skip(s, i, j), k, j);
        HeadFirst(Head(s[i]), Normal(s, Skip(s, i, j), k), Normal(s, k, j));
      } else {
        CrLfParts(s, i, j);
      }
    }
  }

  lemma PartsStep(s: string, i: nat, k: nat, j: nat)
    requires i < k <= j <= |s| && Skip(s, i, j) <= k
    ensures var next := Skip(s, i, j);
      && Normal(s, i, k) == [Head(s[i])] + Normal(s, next, k) && Normal(s, i, j) == [Head(s[i])] + Normal(s, next, j)
      && (InsideCrLf(s, i, k, j) <==> InsideCrLf(s, next, k, j))
  {
    assert Skip(s, i, k) == Skip(s, i, j);
  }

  lemma HeadFirst(c: char, a: string, b: string)
    ensures [c] + (a + b) == ([c] + a) + b
  {
  }

  // The cut that does go through a CRLF.
  lemma CrLfParts(s: string, i: nat, j: nat)
    requires i + 1 < j <= |s| && Skip(s, i, j) == i + 2
    ensures Normal(s, i, i + 1) == "\n" && |Normal(s, i + 1, j)| == |Normal(s, i, j)|
  {
    assert Normal(s, i + 1, i + 1) == "";
    assert Skip(s, i + 1, j) == i + 2;
  }

  /** Normalising the parts of a stream gives what normalising the whole gives exactly
      when the cut does not go through a CRLF. */
  lemma NormalSplits(s: string, i: nat, k: nat, j: nat)
    requires i <= k <= j <= |s|
    ensures Normal(s, i, j) == Normal(s, i, k) + Normal(s, k, j) <==> !InsideCrLf(s, i, k, j)
  {
    NormalParts(s, i, k, j);
  }

  // ---- All the lines ----------------------------------------------------------------------

  /** Reading lines until the stream ends. */
  function ReadLines(s: string, i: nat): seq<string>
    requires i <= |s|
    decreases |s| - i
  {
    match ReadLine(s, i)
    case Line(text, next) => [text] + ReadLines(s, next)
    case Cut(text) => if text == "" then [] else [text]
  }

  function FirstLf(n: string): (k: nat)
    ensures k <= |n| && (forall i :: 0 <= i < k ==> n[i] != '\n') && (k < |n| ==> n[k] == '\n')
  {
    if n == "" || n[0] == '\n' then 0 else 1 + FirstLf(n[1..])
  }

  /** Splitting after every LF. */
  function Split(n: string): seq<string> {
    if n == "" then []
    else
      var k := FirstLf(n);
      if k == |n| then [n] else [n[..k + 1]] + Split(n[k + 1..])
  }

  lemma SplitLine(text: string, rest: string)
    requires IsLine(text)
    ensures Split(text + rest) == [text] + Split(rest)
  {
    var n := text + rest;
    var k := FirstLf(n);
    assert n[|text| - 1] == '\n';
    assert k == |text| - 1;
    assert n[..k + 1] == text && n[k + 1..] == rest;
  }

  /** Reading a stream line by line is normalising it and splitting after every LF. */
  lemma {:induction false} ReadingIsSplitting(s: string, i: nat)
    requires i <= |s|
    ensures ReadLines(s, i) == Split(Normal(s, i, |s|))
    decreases |s| - i
  {
    LineIsFirst(s, i);
    match ReadLine(s, i) {
      case Line(text, next) =>
        ReadingIsSplitting(s, next);
        SplitLine(text, Normal(s, next, |s|));
      case Cut(text) =>
    }
  }

  // ---- Lines as written -----------------------------------------------------------------------

  datatype Eol = CrLf | Lf | Cr

  function EolText(e: Eol): string {
    match e
    case CrLf => "\r\n"
    case Lf => "\n"
    case Cr => "\r"
  }

  predicate NoEol(text: string) {
    forall k :: 0 <= k < |text| ==> text[k] != '\r' && text[k] != '\n'
  }

  /** A line end that takes the first byte of what follows with it. */
  predicate Swallows(e: Eol, next: string) {
    e.Cr? && next != "" && next[0] == '\n'
  }

  lemma EolIsRead(s: string, i: nat, e: Eol, next: string)
    requires i <= |s| && s[i..] == EolText(e) + next
    ensures ReadLine(s, i) == Line("\n", |s| - |next| + if Swallows(e, next) then 1 else 0)
  {
    var t := s[i..];
    assert s[i] == t[0] && (|t| > 1 ==> s[i + 1] == t[1]);
  }

  /** A written line is read back whole, and only a bare CR takes a following LF with it. */
  lemma {:induction false} WrittenLineIsRead(s: string, i: nat, text: string, e: Eol, next: string)
    requires i <= |s| && s[i..] == text + EolText(e) + next && NoEol(text)
    ensures ReadLine(s, i) == Line(text + "\n", |s| - |next| + if Swallows(e, next) then 1 else 0)
    decreases |text|
  {
    if text == "" {
      assert text + EolText(e) + next == EolText(e) + next && text + "\n" == "\n";
      EolIsRead(s, i, e, next);
    } else {
      assert s[i] == text[0];
      assert s[i + 1..] == text[1..] + EolText(e) + next;
      WrittenLineIsRead(s, i + 1, text[1..], e, next);
      assert [text[0]] + (text[1..] + "\n") == text + "\n";
    }
  }

  // ---- Headers ----------------------------------------------------------------------------------

  /** The position after the first blank line, if there is one. */
  datatype Headers = Blank(next: nat) | Missing

  function SkipHeaders(s: string, i: nat): (r: Headers)
    requires i <= |s|
    ensures r.Blank? ==> i < r.next <= |s|
    decreases |s| - i
  {
    match ReadLine(s, i)
    case Cut(_) => Missing
    case Line(text, next) => if text == "\n" then Blank(next) else SkipHeaders(s, next)
  }

  predicate IsEol(c: char) {
    c == '\r' || c == '\n'
  }

  /** A line end that is complete at k, with another one right after it. */
  predicate EndsTwice(s: string, k: nat) {
    k + 1 < |s| && IsEol(s[k]) && IsEol(s[k + 1]) && !(s[k] == '\r' && s[k + 1] == '\n')
  }

  // The line end of a line read is its only one.
  lemma {:induction false} LineShape(s: string, i: nat)
    requires i <= |s|
    ensures match ReadLine(s, i)
      case Line(text, next) =>
        && (text == "\n" <==> IsEol(s[i])) && IsEol(s[next - 1])
        && (next < |s| ==> !(s[next - 1] == '\r' && s[next] == '\n'))
        && (forall k :: i <= k < next - 1 ==> !EndsTwice(s, k))
      case Cut(_) => forall k :: i <= k < |s| ==> !IsEol(s[k])
    decreases |s| - i
  {
    if i < |s| && !IsEol(s[i]) {
      LineShape(s, i + 1);
    }
  }

  /** From the start of a line, there is a blank line to be found exactly when the stream
      goes on with a line end or has two line ends in a row. */
  lemma {:induction false} BlankLineExists(s: string, i: nat)
    requires i <= |s|
    ensures SkipHeaders(s, i).Blank? <==>
      (i < |s| && IsEol(s[i])) || exists k :: i <= k < |s| && EndsTwice(s, k)
    decreases |s| - i
  {
    LineShape(s, i);
    match ReadLine(s, i) {
      case Cut(_) =>
      case Line(text, next) =>
        if text != "\n" {
          BlankLineExists(s, next);
          if next < |s| && IsEol(s[next]) {
            assert EndsTwice(s, next - 1);
          }
        }
    }
  }

  /** A text that ends in CR or LF, or holds two line ends in a row. */
  predicate HoldsBlank(text: string) {
    text != "" && (IsEol(text[|text| - 1]) || exists k :: 0 <= k < |text| && EndsTwice(text, k))
  }

  /** Between a plain prefix and a CRLF, such a text puts a blank line into the stream, and
      no other text does. */
  lemma BlankHeld(prefix: string, text: string)
    requires prefix != "" && NoEol(prefix)
    ensures SkipHeaders(prefix + text + "\r\n", 0).Blank? <==> HoldsBlank(text)
  {
    var u := prefix + text + "\r\n";
    BlankLineExists(u, 0);
    var m := |prefix| + |text|;
    if k :| 0 <= k < |u| && EndsTwice(u, k) {
      DoubleEnds(prefix, text, k);
      assert k >= |prefix|;
    }
    if HoldsBlank(text) {
      if IsEol(text[|text| - 1]) {
        DoubleEnds(prefix, text, m - 1);
      } else {
        var k :| 0 <= k < |text| && EndsTwice(text, k);
        DoubleEnds(prefix, text, k + |prefix|);
      }
    }
  }

  lemma DoubleEnds(prefix: string, text: string, k: nat)
    requires NoEol(prefix)
    ensures var (u, m) := (prefix + text + "\r\n", |prefix| + |text|);
      EndsTwice(u, k) <==>
        |prefix| <= k < m && (EndsTwice(text, k - |prefix|) || (k == m - 1 && IsEol(text[|text| - 1])))
  {
    var (u, m) := (prefix + text + "\r\n", |prefix| + |text|);
    assert u[m] == '\r' && u[m + 1] == '\n';
    if |prefix| <= k < m {
      assert u[k] == text[k - |prefix|] && (k + 1 < m ==> u[k + 1] == text[k + 1 - |prefix|]);
    }
  }

  datatype Written = Written(text: string, eol: Eol)

  /** Header lines as sent, then the blank line, then what comes after. */
  function Block(lines: seq<Written>, blank: Eol, body: string): (r: string)
    ensures |body| < |r|
  {
    if lines == [] then EolText(blank) + body
    else lines[0].text + EolText(lines[0].eol) + Block(lines[1..], blank, body)
  }

  /** Header lines are not empty and hold no line end, and no bare CR stands before an LF. */
  predicate Framed(lines: seq<Written>, blank: Eol, body: string) {
    lines == [] ||
    (&& lines[0].text != "" && NoEol(lines[0].text)
     && !Swallows(lines[0].eol, Block(lines[1..], blank, body))
     && Framed(lines[1..], blank, body))
  }

  /** The header reader stops exactly at the first byte after the blank line, unless that
      line ends in a bare CR and the byte is an LF, which it then takes too. */
  lemma {:induction false} HeadersEndAtBlank(s: string, i: nat, lines: seq<Written>, blank: Eol, body: string)
    requires i <= |s| && s[i..] == Block(lines, blank, body) && Framed(lines, blank, body)
    ensures SkipHeaders(s, i) == Blank(|s| - |body| + if Swallows(blank, body) then 1 else 0)
    decreases |lines|
  {
    if lines == [] {
      EolIsRead(s, i, blank, body);
    } else {
      var next := FirstHeader(s, i, lines, blank, body);
      HeadersEndAtBlank(s, next, lines[1..], blank, body);
    }
  }

  lemma FirstHeader(s: string, i: nat, lines: seq<Written>, blank: Eol, body: string) returns (next: nat)
    requires i <= |s| && s[i..] == Block(lines, blank, body) && Framed(lines, blank, body) && lines != []
    ensures next <= |s| && s[next..] == Block(lines[1..], blank, body) && Framed(lines[1..], blank, body)
    ensures SkipHeaders(s, i) == SkipHeaders(s, next)
  {
    var rest := Block(lines[1..], blank, body);
    HeaderLineIsRead(s, i, lines[0], rest);
    next := |s| - |rest|;
  }

  lemma HeaderLineIsRead(s: string, i: nat, line: Written, rest: string)
    requires i <= |s| && s[i..] == line.text + EolText(line.eol) + rest
    requires line.text != "" && NoEol(line.text) && !Swallows(line.eol, rest)
    ensures |rest| <= |s| && s[|s| - |rest|..] == rest
    ensures SkipHeaders(s, i) == SkipHeaders(s, |s| - |rest|)
  {
    WrittenLineIsRead(s, i, line.text, line.eol, rest);
    NotBlank(line.text);
    SuffixAgain(s, i, line.text + EolText(line.eol), rest);
  }

  lemma NotBlank(text: string)
    requires text != "" && NoEol(text)
    ensures text + "\n" != "\n"
  {
  }

  lemma SuffixAgain(s: string, i: nat, front: string, rest: string)
    requires i <= |s| && s[i..] == front + rest
    ensures |rest| <= |s| && s[|s| - |rest|..] == rest
  {
    assert |s[i..]| == |front| + |rest|;
    assert s[|s| - |rest|..] == s[i..][|front|..];
  }

  /** A whole request, its first line and its headers ended by any mix of CRLF, LF and bare
      CR not before an LF: the two readers leave the stream exactly at the body if and only
      if the blank line's end does not swallow its first byte. */
  lemma RequestFraming(first: Written, lines: seq<Written>, blank: Eol, body: string)
    requires NoEol(first.text) && Framed(lines, blank, body) && !Swallows(first.eol, Block(lines, blank, body))
    ensures var s := first.text + EolText(first.eol) + Block(lines, blank, body);
      && ReadLine(s, 0).Line? && ReadLine(s, 0).text == first.text + "\n"
      && (SkipHeaders(s, ReadLine(s, 0).next) == Blank(|s| - |body|) <==> !Swallows(blank, body))
  {
    var block := Block(lines, blank, body);
    var s := first.text + EolText(first.eol) + block;
    assert s[0..] == s;
    WrittenLineIsRead(s, 0, first.text, first.eol, block);
    assert s[|s| - |block|..] == block;
    HeadersEndAtBlank(s, |s| - |block|, lines, blank, body);
  }

  /** The case set apart there is a matter of reading the same bytes in two ways: a blank
      line that ends in a bare CR, before a body that starts with LF, is byte for byte a blank
      line that ends in CRLF before the rest of the body, and is read as that. */
  lemma CrThenLfIsCrLf(body: string)
    ensures Block([], Cr, "\n" + body) == Block([], CrLf, body) && !Swallows(CrLf, body)
  {
    assert "\r" + ("\n" + body) == "\r\n" + body;
  }

  // ---- A stretch of whole lines inside a stream -----------------------------------------------

  /** u, ending in an LF, stands in s at position off. */
  predicate Inside(s: string, off: nat, u: string) {
    off + |u| <= |s| && s[off..off + |u|] == u && u != "" && u[|u| - 1] == '\n'
  }

  lemma {:induction false} StretchRead(s: string, off: nat, u: string, k: nat)
    requires Inside(s, off, u) && k < |u|
    ensures ReadLine(u, k).Line?
    ensures ReadLine(s, off + k) == Line(ReadLine(u, k).text, off + ReadLine(u, k).next)
    decreases |u| - k
  {
    assert s[off + k] == u[k] && (k + 1 < |u| ==> s[off + k + 1] == u[k + 1]);
    if Head(u[k]) != '\n' {
      StretchRead(s, off, u, k + 1);
    }
  }

  /** Headers end inside a stretch of whole lines exactly as they do in it alone, and
      otherwise the reader comes out at its end. */
  lemma {:induction false} StretchSkip(s: string, off: nat, u: string, k: nat)
    requires Inside(s, off, u) && k <= |u|
    ensures SkipHeaders(s, off + k) ==
      match SkipHeaders(u, k) case Blank(n) => Blank(off + n) case Missing => SkipHeaders(s, off + |u|)
    decreases |u| - k
  {
    if k < |u| {
      StretchRead(s, off, u, k);
      if ReadLine(u, k).text != "\n" {
        StretchSkip(s, off, u, ReadLine(u, k).next);
      }
    }
  }
}
