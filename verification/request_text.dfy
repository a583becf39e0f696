/** The request line as text: words between white space, the method in capitals, and the
    target's path and parameter. */
module RequestText {

  /** White space as stream extraction skips it. */
  predicate IsSpace(c: char) {
    c == ' ' || '\t' <= c <= '\r'
  }

  predicate NoSpace(s: string) {
    forall k :: 0 <= k < |s| ==> !IsSpace(s[k])
  }

  function SkipSpace(s: string, i: nat): (k: nat)
    requires i <= |s|
    ensures i <= k <= |s| && (k < |s| ==> !IsSpace(s[k]))
    decreases |s| - i
  {
    if i < |s| && IsSpace(s[i]) then SkipSpace(s, i + 1) else i
  }

  function WordEnd(s: string, i: nat): (k: nat)
    requires i <= |s|
    ensures i <= k <= |s| && (forall j :: i <= j < k ==> !IsSpace(s[j])) && (k < |s| ==> IsSpace(s[k]))
    decreases |s| - i
  {
    if i < |s| && !IsSpace(s[i]) then WordEnd(s, i + 1) else i
  }

  /** One extraction from position i: the next word, empty at the end, and where it ends. */
  datatype Extracted = Extracted(word: string, end: nat)

  function NextWord(s: string, i: nat): (r: Extracted)
    requires i <= |s|
    ensures i <= r.end <= |s| && NoSpace(r.word)
  {
    var a := SkipSpace(s, i);
    var b := WordEnd(s, a);
    Extracted(s[a..b], b)
  }

  predicate IsDigit(c: char) {
    '0' <= c <= '9'
  }

  /** The digits of s from i on, after the number read so far. */
  function Digits(s: string, i: nat, sofar: nat): nat
    requires i <= |s|
    decreases |s| - i
  {
    if i < |s| && IsDigit(s[i]) then Digits(s, i + 1, 10 * sofar + (s[i] as int - '0' as int)) else sofar
  }

  /** atoi: white space, a sign or none, and digits; 0 where there are none. */
  function Atoi(s: string): int {
    var i := SkipSpace(s, 0);
    var signed := i < |s| && (s[i] == '-' || s[i] == '+');
    var n: int := Digits(s, if signed then i + 1 else i, 0);
    if signed && s[i] == '-' then -n else n
  }

  datatype RequestLine = RequestLine(verb: string, url: string, version: string)

  function ToUpper(c: char): char {
    if 'a' <= c <= 'z' then 'A' + (c - 'a') else c
  }

  function Upper(s: string): (r: string)
    ensures |r| == |s|
  {
    seq(|s|, i requires 0 <= i < |s| => ToUpper(s[i]))
  }

  function ParseLine(line: string): RequestLine {
    var verb := NextWord(line, 0);
    var url := NextWord(line, verb.end);
    var version := NextWord(line, url.end);
    RequestLine(Upper(verb.word), url.word, version.word)
  }

  lemma ParsedUrlIsWord(line: string)
    ensures NoSpace(ParseLine(line).url)
  {
  }

  lemma WordIs(s: string, i: nat, word: string, j: nat)
    requires i + |word| == j <= |s| && s[i..j] == word && word != "" && NoSpace(word)
    requires j < |s| ==> IsSpace(s[j])
    ensures NextWord(s, i) == Extracted(word, j)
  {
    assert forall k :: i <= k < j ==> s[k] == word[k - i];
  }

  lemma SpaceThenWord(s: string, i: nat, word: string, j: nat)
    requires i + 1 + |word| == j <= |s| && s[i] == ' ' && s[i + 1..j] == word && word != "" && NoSpace(word)
    requires j < |s| ==> IsSpace(s[j])
    ensures NextWord(s, i) == Extracted(word, j)
  {
    assert forall k :: i + 1 <= k < j ==> s[k] == word[k - i - 1];
    assert SkipSpace(s, i) == SkipSpace(s, i + 1) == i + 1;
  }

  /** Three words with a space between them are read back as they are (compare section
      3.1.1 of RFC 7230). */
  lemma ThreeWords(verb: string, url: string, version: string)
    requires Words(verb, url, version)
    ensures ParseLine(verb + " " + url + " " + version) == RequestLine(Upper(verb), url, version)
  {
    var s := verb + " " + url + " " + version;
    ThreeStand(s, verb, url, version);
    WordsOfLine(s, verb, url, version);
  }

  predicate Standing(s: string, verb: string, url: string, version: string) {
    var (a, b) := (|verb|, |verb| + 1 + |url|);
    && b + 1 + |version| == |s| && s[0..a] == verb && s[a] == ' ' && s[a + 1..b] == url && s[b] == ' '
    && s[b + 1..|s|] == version
  }

  predicate Words(verb: string, url: string, version: string) {
    verb != "" && url != "" && version != "" && NoSpace(verb) && NoSpace(url) && NoSpace(version)
  }

  lemma WordsOfLine(s: string, verb: string, url: string, version: string)
    requires Words(verb, url, version) && Standing(s, verb, url, version)
    ensures ParseLine(s) == RequestLine(Upper(verb), url, version)
  {
    FirstWord(s, verb, url, version);
    SecondWord(s, verb, url, version);
    ThirdWord(s, verb, url, version);
    LineOfWords(s, verb, |verb|, url, |verb| + 1 + |url|, version);
  }

  lemma FirstWord(s: string, verb: string, url: string, version: string)
    requires Words(verb, url, version) && Standing(s, verb, url, version)
    ensures NextWord(s, 0) == Extracted(verb, |verb|)
  {
    WordIs(s, 0, verb, |verb|);
  }

  lemma SecondWord(s: string, verb: string, url: string, version: string)
    requires Words(verb, url, version) && Standing(s, verb, url, version)
    ensures NextWord(s, |verb|) == Extracted(url, |verb| + 1 + |url|)
  {
    SpaceThenWord(s, |verb|, url, |verb| + 1 + |url|);
  }

  lemma ThirdWord(s: string, verb: string, url: string, version: string)
    requires Words(verb, url, version) && Standing(s, verb, url, version)
    ensures NextWord(s, |verb| + 1 + |url|) == Extracted(version, |s|)
  {
    SpaceThenWord(s, |verb| + 1 + |url|, version, |s|);
  }

  lemma LineOfWords(s: string, verb: string, a: nat, url: string, b: nat, version: string)
    requires NextWord(s, 0) == Extracted(verb, a) && a <= |s| && NextWord(s, a) == Extracted(url, b) && b <= |s|
    requires NextWord(s, b).word == version
    ensures ParseLine(s) == RequestLine(Upper(verb), url, version)
  {
  }

  lemma ThreeStand(s: string, verb: string, url: string, version: string)
    requires s == verb + " " + url + " " + version
    ensures Standing(s, verb, url, version)
  {
    var (a, b) := (|verb|, |verb| + 1 + |url|);
    var front := verb + " " + url;
    assert s == front + (" " + version) && |front| == b;
    assert s[0..b] == front && s[b] == ' ';
    assert s[b + 1..|s|] == version;
    assert front[0..a] == verb && front[a] == ' ' && front[a + 1..b] == url;
  }

  // ---- Words, spaces, capitals and numbers, character by character ---------------------

  /** The six characters that separate words, by their codes. */
  lemma SpacesAre(c: char)
    ensures IsSpace(c) <==> c as int in {9, 10, 11, 12, 13, 32}
  {
  }

  /** All lower-case letters are raised, in the order of the alphabet, and nothing else is. */
  lemma UpperIs(s: string)
    ensures |Upper(s)| == |s|
    ensures forall i :: 0 <= i < |s| ==>
      Upper(s)[i] == if 97 <= s[i] as int <= 122 then (s[i] as int - 32) as char else s[i]
  {
  }

  predicate AllSpace(s: string) {
    forall k :: 0 <= k < |s| ==> s[k] as int in {9, 10, 11, 12, 13, 32}
  }

  lemma {:induction false} SpacesSkipped(s: string, i: nat, j: nat)
    requires i <= j <= |s| && AllSpace(s[i..j]) && (j < |s| ==> !IsSpace(s[j]))
    ensures SkipSpace(s, i) == j
    decreases j - i
  {
    if i < j {
      assert s[i] == s[i..j][0];
      assert s[i + 1..j] == s[i..j][1..];
      SpacesSkipped(s, i + 1, j);
    }
  }

  /** A word between white space of any length is the next word. */
  lemma SpacedWord(s: string, i: nat, space: string, word: string, rest: string)
    requires i <= |s| && s[i..] == space + word + rest && AllSpace(space) && word != "" && NoSpace(word)
    requires rest != "" ==> IsSpace(rest[0])
    ensures NextWord(s, i) == Extracted(word, |s| - |rest|) && s[|s| - |rest|..] == rest
  {
    var (a, b) := (i + |space|, i + |space| + |word|);
    WordStands(s, i, space, word, rest);
    SpacesSkipped(s, i, a);
    WordIs(s, a, word, b);
    SkipThere(s, i, a);
  }

  lemma SkipThere(s: string, i: nat, a: nat)
    requires i <= a <= |s| && SkipSpace(s, i) == a && (a < |s| ==> !IsSpace(s[a]))
    ensures NextWord(s, i) == NextWord(s, a)
  {
    assert SkipSpace(s, a) == a;
  }

  lemma WordStands(s: string, i: nat, space: string, word: string, rest: string)
    requires i <= |s| && s[i..] == space + word + rest
    ensures var (a, b) := (i + |space|, i + |space| + |word|);
      && b + |rest| == |s| && s[i..a] == space && s[a..b] == word && s[b..] == rest
  {
    var t := s[i..];
    assert |t| == |space| + |word| + |rest|;
    assert s[i..i + |space|] == t[..|space|] == space;
    assert s[i + |space|..i + |space| + |word|] == t[|space|..|space| + |word|] == word;
    assert s[i + |space| + |word|..] == t[|space| + |word|..] == rest;
  }

  /** A request line is its first three words, whatever white space stands around them and
      whatever follows. */
  lemma AnySpaces(s: string, a: string, verb: string, r1: string, b: string, url: string, r2: string,
                  c: string, version: string, rest: string)
    requires s == a + verb + r1 && r1 == b + url + r2 && r2 == c + version + rest
    requires AllSpace(a) && AllSpace(b) && AllSpace(c) && b != "" && c != "" && Words(verb, url, version)
    requires rest != "" ==> IsSpace(rest[0])
    ensures ParseLine(s) == RequestLine(Upper(verb), url, version)
  {
    FirstOfLine(s, a, verb, r1, b, url, r2);
    AfterFirst(s, verb, |s| - |r1|, b, url, r2, c, version, rest);
  }

  lemma AfterFirst(s: string, verb: string, i: nat, b: string, url: string, r2: string,
                   c: string, version: string, rest: string)
    requires i <= |s| && NextWord(s, 0) == Extracted(verb, i) && s[i..] == b + url + r2 && r2 == c + version + rest
    requires AllSpace(b) && AllSpace(c) && c != "" && Words(verb, url, version)
    requires rest != "" ==> IsSpace(rest[0])
    ensures ParseLine(s) == RequestLine(Upper(verb), url, version)
  {
    LastTwoWords(s, i, b, url, r2, c, version, rest);
    LineOfWords(s, verb, i, url, |s| - |r2|, version);
  }

  lemma FirstOfLine(s: string, a: string, verb: string, r1: string, b: string, url: string, r2: string)
    requires s == a + verb + r1 && r1 == b + url + r2
    requires AllSpace(a) && AllSpace(b) && b != "" && verb != "" && NoSpace(verb)
    ensures |r1| <= |s| && s[|s| - |r1|..] == b + url + r2 && NextWord(s, 0) == Extracted(verb, |s| - |r1|)
  {
    assert s[0..] == s && r1[0] == b[0];
    SpacedWord(s, 0, a, verb, r1);
  }

  lemma LastTwoWords(s: string, i: nat, b: string, url: string, r2: string, c: string, version: string, rest: string)
    requires i <= |s| && s[i..] == b + url + r2 && r2 == c + version + rest && c != ""
    requires AllSpace(b) && AllSpace(c) && url != "" && version != "" && NoSpace(url) && NoSpace(version)
    requires rest != "" ==> IsSpace(rest[0])
    ensures |r2| <= |s| && NextWord(s, i) == Extracted(url, |s| - |r2|)
    ensures NextWord(s, |s| - |r2|).word == version
  {
    assert r2[0] == c[0];
    SpacedWord(s, i, b, url, r2);
    SpacedWord(s, |s| - |r2|, c, version, rest);
  }

  lemma {:induction false} NoMoreWords(s: string, i: nat)
    requires i <= |s| && AllSpace(s[i..])
    ensures NextWord(s, i) == Extracted("", |s|)
  {
    assert s[i..|s|] == s[i..];
    SpacesSkipped(s, i, |s|);
  }

  /** Words that are not there are empty: a line of one word is a method and nothing else. */
  lemma OneWord(a: string, verb: string, b: string)
    requires AllSpace(a) && AllSpace(b) && verb != "" && NoSpace(verb)
    ensures ParseLine(a + verb + b) == RequestLine(Upper(verb), "", "")
  {
    var s := a + verb + b;
    assert s[0..] == s;
    SpacedWord(s, 0, a, verb, b);
    NoMoreWords(s, |s| - |b|);
    assert s[|s|..] == "";
    NoMoreWords(s, |s|);
    LineOfWords(s, verb, |s| - |b|, "", |s|, "");
  }

  // ---- Decimal numbers ------------------------------------------------------------------

  /** A number as it is written. */
  function Decimal(n: nat): string {
    if n < 10 then [(48 + n) as char] else Decimal(n / 10) + [(48 + n % 10) as char]
  }

  lemma {:induction false} DigitsRead(s: string, i: nat, n: nat, rest: string)
    requires i <= |s| && s[i..] == Decimal(n) + rest
    ensures |rest| <= |s| && Digits(s, i, 0) == Digits(s, |s| - |rest|, n)
    decreases n
  {
    assert |s[i..]| == |Decimal(n)| + |rest|;
    if n >= 10 {
      var last := [(48 + n % 10) as char];
      assert Decimal(n) + rest == Decimal(n / 10) + (last + rest);
      DigitsRead(s, i, n / 10, last + rest);
      var j := |s| - |last + rest|;
      assert s[j] == s[i..][j - i] == last[0];
      OneDigit(s, j, n / 10, n % 10);
    } else {
      assert s[i] == s[i..][0] == (48 + n) as char;
      OneDigit(s, i, 0, n);
    }
  }

  lemma OneDigit(s: string, j: nat, sofar: nat, d: nat)
    requires j < |s| && d < 10 && s[j] == (48 + d) as char
    ensures Digits(s, j, sofar) == Digits(s, j + 1, 10 * sofar + d)
  {
    assert IsDigit(s[j]) && s[j] as int - '0' as int == d;
  }

  /** atoi reads back a written number, after white space and a sign, before anything that is
      no digit; and it reads 0 where no digit comes. */
  lemma AtoiReads(space: string, n: nat, rest: string)
    requires AllSpace(space) && (rest != "" ==> !('0' <= rest[0] <= '9'))
    ensures Atoi(space + Decimal(n) + rest) == n == Atoi(space + "+" + Decimal(n) + rest)
    ensures Atoi(space + "-" + Decimal(n) + rest) + n == 0
  {
    AtoiFrom(space, "", n, rest);
    AtoiFrom(space, "+", n, rest);
    AtoiFrom(space, "-", n, rest);
    NoSign(space);
  }

  lemma NoSign(space: string)
    ensures space + "" == space
  {
  }

  lemma {:induction false} DecimalStarts(n: nat)
    ensures Decimal(n) != "" && '0' <= Decimal(n)[0] <= '9'
    decreases n
  {
    if n >= 10 {
      DecimalStarts(n / 10);
    }
  }

  lemma AtoiFrom(space: string, sign: string, n: nat, rest: string)
    requires AllSpace(space) && sign in {"", "+", "-"} && (rest != "" ==> !('0' <= rest[0] <= '9'))
    ensures sign != "-" ==> Atoi(space + sign + Decimal(n) + rest) == n
    ensures sign == "-" ==> Atoi(space + sign + Decimal(n) + rest) + n == 0
  {
    var s := space + sign + Decimal(n) + rest;
    var (i, j) := (|space|, |space| + |sign|);
    DecimalStarts(n);
    SignStands(s, space, sign, Decimal(n), rest);
    SpacesSkipped(s, 0, i);
    DigitsRead(s, j, n, rest);
    DigitsEnd(s, |s| - |rest|, n);
  }

  lemma SignStands(s: string, space: string, sign: string, d: string, rest: string)
    requires s == space + sign + d + rest && sign in {"", "+", "-"} && d != "" && '0' <= d[0] <= '9'
    ensures var (i, j) := (|space|, |space| + |sign|);
      && j < |s| && s[0..i] == space && s[j..] == d + rest && !IsSpace(s[i])
      && (sign != "" ==> s[i] == sign[0]) && (sign == "" ==> '0' <= s[i] <= '9')
      && |rest| <= |s| && s[|s| - |rest|..] == rest
  {
    WordStands(s, 0, space, sign, d + rest);
    assert s[0..] == s && s == space + sign + (d + rest);
    assert s[|space| + |sign|] == (d + rest)[0] == d[0];
  }

  lemma DigitsEnd(s: string, i: nat, n: nat)
    requires i <= |s| && (i < |s| ==> !IsDigit(s[i]))
    ensures Digits(s, i, n) == n
  {
  }

  /** Where neither digit nor sign follows the white space, atoi reads 0. */
  lemma AtoiReadsNothing(space: string, rest: string)
    requires AllSpace(space)
    requires rest != "" ==> !IsSpace(rest[0]) && rest[0] != '+' && rest[0] != '-' && !('0' <= rest[0] <= '9')
    ensures Atoi(space + rest) == 0
  {
    var s := space + rest;
    assert s[0..|space|] == space && (rest != "" ==> s[|space|] == rest[0]);
    SpacesSkipped(s, 0, |space|);
  }

  // ---- Substrings -----------------------------------------------------------------------

  predicate OccursAt(text: string, symbol: string, i: nat) {
    i + |symbol| <= |text| && text[i..i + |symbol|] == symbol
  }

  /** The first place from i on where symbol occurs, |text| + 1 if there is none. */
  function Find(text: string, symbol: string, i: nat): (k: nat)
    requires i <= |text| + 1
    ensures i <= k <= |text| + 1
    ensures k <= |text| ==> OccursAt(text, symbol, k)
    ensures forall j :: i <= j < k ==> !OccursAt(text, symbol, j)
    decreases |text| + 1 - i
  {
    if i > |text| || OccursAt(text, symbol, i) then i else Find(text, symbol, i + 1)
  }

  lemma FindIs(text: string, symbol: string, i: nat, k: nat)
    requires i <= k && OccursAt(text, symbol, k) && forall j :: i <= j < k ==> !OccursAt(text, symbol, j)
    ensures Find(text, symbol, i) == k
  {
  }

  ghost predicate Occurs(text: string, symbol: string) {
    exists i: nat :: OccursAt(text, symbol, i)
  }

  // ---- The target ------------------------------------------------------------------------

  /** What the request line asks for. */
  datatype Target = Target(path: string, parameter: string, cgi: bool, status: int)

  /** What parsing the URL makes of the target so far. */
  function Retarget(t: Target, verb: string, url: string): Target {
    if verb != "GET" && verb != "POST" then t.(status := 400)
    else if verb == "POST" then t.(path := url, cgi := true)
    else
      var k := Find(url, "?", 0);
      if k <= |url| then t.(path := url[..k], parameter := url[k + 1..]) else t.(path := url)
  }

  function TargetOf(verb: string, url: string): Target {
    Retarget(Target("", "", false, 200), verb, url)
  }

  /** Which requests run a program, which are refused, and what a POST names. */
  lemma TargetByMethod(verb: string, url: string)
    ensures var t := TargetOf(verb, url);
      && (t.cgi <==> verb == "POST")
      && t.status == (if verb == "GET" || verb == "POST" then 200 else 400)
      && (verb == "POST" ==> t.path == url && t.parameter == "")
      && (verb != "GET" && verb != "POST" ==> t.path == "" && t.parameter == "")
  {
  }

  /** The target of a GET is its URL cut at the first '?', and nothing is lost: the URL is
      the path, or the path, a '?' and the parameter. */
  lemma GetTarget(url: string)
    ensures var t := TargetOf("GET", url);
      && !t.cgi && t.status == 200 && '?' !in t.path
      && url == (if '?' in url then t.path + "?" + t.parameter else t.path)
      && ('?' !in url ==> t.parameter == "")
  {
    var k := Find(url, "?", 0);
    forall j | 0 <= j < k && j < |url| ensures url[j] != '?' {
      assert !OccursAt(url, "?", j);
      assert url[j..j + 1] == [url[j]];
    }
    if k <= |url| {
      assert url[k..k + 1] == "?";
      assert url[k] == url[k..k + 1][0];
      assert url == url[..k] + url[k..k + 1] + url[k + 1..];
    }
  }
}
