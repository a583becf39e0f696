/** What a log pattern means: the tokens the scanner of LogFormatter finds in it, the
    text those tokens print as, and how the two undo each other. */
module LogPattern {

  /** A literal, or an item with its name and the text between its braces. */
  datatype Token = Text(text: string) | Item(name: string, fmt: string)

  const PATTERN_ERROR := "<<pattern_error>>"

  predicate IsAlpha(c: char) {
    'a' <= c <= 'z' || 'A' <= c <= 'Z'
  }

  /** A name goes on over letters and, since only '{' opens a format, over '}' too. */
  predicate InName(c: char) {
    IsAlpha(c) || c == '}'
  }

  /** Where the name that goes on at n ends. */
  function NameEnd(s: string, n: nat): (k: nat)
    requires n <= |s|
    ensures n <= k <= |s|
    decreases |s| - n
  {
    if n < |s| && InName(s[n]) then NameEnd(s, n + 1) else n
  }

  /** Where the first '}' from n on is, the end of s if there is none. */
  function FormatEnd(s: string, n: nat): (k: nat)
    requires n <= |s|
    ensures n <= k <= |s|
    decreases |s| - n
  {
    if n < |s| && s[n] != '}' then FormatEnd(s, n + 1) else n
  }

  /** What stands first in a text: a literal character, a '%' whose brace is never closed,
      or a whole item with the number of characters it takes. */
  datatype Piece = Plain | Broken | Whole(item: Token, used: nat)

  predicate Doubled(s: string) {
    |s| >= 2 && s[0] == '%' && s[1] == '%'
  }

  function ItemPiece(s: string): (r: Piece)
    requires s != ""
    ensures r.Whole? ==> r.item.Item? && 1 <= r.used <= |s|
  {
    var k := NameEnd(s, 1);
    if k < |s| && s[k] == '{' then
      var c := FormatEnd(s, k + 1);
      if c == |s| then Broken else Whole(Item(s[1..k], s[k + 1..c]), c + 1)
    else
      Whole(Item(s[1..k], ""), k)
  }

  function FirstPiece(s: string): (r: Piece)
    requires s != ""
    ensures r.Whole? ==> r.item.Item? && 1 <= r.used <= |s|
  {
    if s[0] != '%' || Doubled(s) then Plain else ItemPiece(s)
  }

  function Flush(text: string): seq<Token> {
    if text == "" then [] else [Text(text)]
  }

  /** The tokens of s, text being the literal collected so far.  Of "%%" the first '%' is
      literal and the second starts an item; an unclosed brace leaves an error token, keeps
      the collected literal for later and goes on right after the '%'. */
  function Scan(s: string, text: string): seq<Token>
    decreases |s|
  {
    if s == "" then Flush(text)
    else
      match FirstPiece(s)
      case Plain => Scan(s[1..], text + [s[0]])
      case Broken => [Text(PATTERN_ERROR)] + Scan(s[1..], text)
      case Whole(item, used) => Flush(text) + [item] + Scan(s[used..], "")
  }

  function Tokens(pattern: string): seq<Token> {
    Scan(pattern, "")
  }

  function PrintToken(t: Token): string {
    match t
    case Text(text) => text
    case Item(name, fmt) => "%" + name + (if fmt == "" then "" else "{" + fmt + "}")
  }

  function Print(ts: seq<Token>): string {
    if ts == [] then "" else PrintToken(ts[0]) + Print(ts[1..])
  }

  /** Item braces never closed, and formats that are an empty pair of braces. */
  function OpenBraces(s: string): nat
    decreases |s|
  {
    if s == "" then 0
    else
      match FirstPiece(s)
      case Plain => OpenBraces(s[1..])
      case Broken => 1 + OpenBraces(s[1..])
      case Whole(_, used) => OpenBraces(s[used..])
  }

  function EmptyFormats(s: string): nat
    decreases |s|
  {
    if s == "" then 0
    else
      match FirstPiece(s)
      case Plain => EmptyFormats(s[1..])
      case Broken => EmptyFormats(s[1..])
      case Whole(item, used) => (if EmptyBraces(s, item, used) then 1 else 0) + EmptyFormats(s[used..])
  }

  /** The item that takes the first used characters of s ends in "{}", with nothing between. */
  predicate EmptyBraces(s: string, item: Token, used: nat) {
    item.Item? && item.fmt == "" && 2 <= used <= |s| && s[used - 2] == '{' && s[used - 1] == '}'
  }

  predicate Clean(s: string) {
    OpenBraces(s) == 0 && EmptyFormats(s) == 0
  }

  // ---- Pieces ------------------------------------------------------------------------

  lemma {:induction false} NameEndIs(s: string, n: nat, k: nat)
    requires n <= k <= |s| && (forall i :: n <= i < k ==> InName(s[i])) && (k < |s| ==> !InName(s[k]))
    ensures NameEnd(s, n) == k
    decreases |s| - n
  {
    if n < k {
      NameEndIs(s, n + 1, k);
    }
  }

  lemma {:induction false} NameEndMeans(s: string, n: nat)
    requires n <= |s|
    ensures forall i :: n <= i < NameEnd(s, n) ==> InName(s[i])
    ensures NameEnd(s, n) < |s| ==> !InName(s[NameEnd(s, n)])
    decreases |s| - n
  {
    if n < |s| && InName(s[n]) {
      NameEndMeans(s, n + 1);
    }
  }

  lemma {:induction false} FormatEndIs(s: string, n: nat, k: nat)
    requires n <= k <= |s| && (forall i :: n <= i < k ==> s[i] != '}') && (k < |s| ==> s[k] == '}')
    ensures FormatEnd(s, n) == k
    decreases |s| - n
  {
    if n < k {
      FormatEndIs(s, n + 1, k);
    }
  }

  lemma {:induction false} FormatEndMeans(s: string, n: nat)
    requires n <= |s|
    ensures forall i :: n <= i < FormatEnd(s, n) ==> s[i] != '}'
    ensures FormatEnd(s, n) < |s| ==> s[FormatEnd(s, n)] == '}'
    decreases |s| - n
  {
    if n < |s| && s[n] != '}' {
      FormatEndMeans(s, n + 1);
    }
  }

  /** An item and what follows it. */
  predicate ItemStops(name: string, fmt: string, next: string) {
    && (forall i :: 0 <= i < |name| ==> InName(name[i]))
    && (forall i :: 0 <= i < |fmt| ==> fmt[i] != '}')
    && (fmt == "" && next != "" ==> !InName(next[0]) && next[0] != '{' && (name == "" ==> next[0] != '%'))
  }

  lemma PieceOfItem(name: string, fmt: string, next: string)
    requires ItemStops(name, fmt, next)
    ensures var p := PrintToken(Item(name, fmt));
      FirstPiece(p + next) == Whole(Item(name, fmt), |p|)
  {
    if fmt == "" {
      assert PrintToken(Item(name, fmt)) + next == "%" + name + next;
      BarePiece("%" + name + next, name, next);
    } else {
      BracedPrints(name, fmt);
      PieceOfBraced(PrintToken(Item(name, fmt)) + next, name, fmt, next);
    }
  }

  lemma BarePiece(s: string, name: string, next: string)
    requires ItemStops(name, "", next) && s == "%" + name + next
    ensures FirstPiece(s) == Whole(Item(name, ""), 1 + |name|)
  {
    assert s[1..1 + |name|] == name;
    NameEndIs(s, 1, 1 + |name|);
  }

  lemma PieceOfBraced(s: string, name: string, fmt: string, next: string)
    requires ItemStops(name, fmt, next) && fmt != "" && s == "%" + name + "{" + fmt + "}" + next
    ensures FirstPiece(s) == Whole(Item(name, fmt), |name| + |fmt| + 3)
  {
    var k := 1 + |name|;
    BracedIndices(s, name, fmt, next);
    NameEndIs(s, 1, k);
    FormatEndIs(s, k + 1, k + 1 + |fmt|);
  }

  lemma BracedIndices(s: string, name: string, fmt: string, next: string)
    requires s == "%" + name + "{" + fmt + "}" + next
    ensures var k := 1 + |name|;
      && |s| == k + 2 + |fmt| + |next| && s[0] == '%' && s[k] == '{' && s[k + 1 + |fmt|] == '}'
      && s[1..k] == name && s[k + 1..k + 1 + |fmt|] == fmt
      && (forall i :: 1 <= i < k ==> s[i] == name[i - 1])
      && (forall i :: k < i <= k + |fmt| ==> s[i] == fmt[i - k - 1])
  {
  }

  // Conversely, what a whole item takes from the text.
  predicate Takes(s: string, item: Token, used: nat) {
    && item.Item? && used <= |s|
    && (used == |PrintToken(item)| ==> s[..used] == PrintToken(item) && ItemStops(item.name, item.fmt, s[used..]))
    && (used != |PrintToken(item)| ==> s[..used] == PrintToken(item) + "{}")
  }

  /** Only an empty pair of braces makes an item take more than it prints as. */
  lemma WholePiece(s: string)
    requires s != "" && FirstPiece(s).Whole?
    ensures var Whole(item, used) := FirstPiece(s);
      Takes(s, item, used) && (used != |PrintToken(item)| <==> EmptyBraces(s, item, used))
  {
    var k := NameEnd(s, 1);
    if k < |s| && s[k] == '{' {
      FormatEndMeans(s, k + 1);
      BracedTaken(s, k, FormatEnd(s, k + 1));
      BracedIsEmpty(s, k, FormatEnd(s, k + 1));
    } else {
      BareTaken(s, k);
      BareIsNotEmpty(s, k);
    }
  }

  lemma BareTaken(s: string, k: nat)
    requires s != "" && s[0] == '%' && !Doubled(s) && k == NameEnd(s, 1)
    requires k < |s| ==> s[k] != '{'
    ensures Takes(s, Item(s[1..k], ""), k)
  {
    NameEndMeans(s, 1);
    assert PrintToken(Item(s[1..k], "")) == s[..k];
  }

  lemma BracedTaken(s: string, k: nat, c: nat)
    requires s != "" && s[0] == '%' && k == NameEnd(s, 1) < |s| && s[k] == '{' && c == FormatEnd(s, k + 1) < |s|
    ensures Takes(s, Item(s[1..k], s[k + 1..c]), c + 1)
  {
    NameEndMeans(s, 1);
    FormatEndMeans(s, k + 1);
    BracedSlice(s, k, c);
    BracedPrints(s[1..k], s[k + 1..c]);
  }

  lemma BareIsNotEmpty(s: string, k: nat)
    requires s != "" && s[0] == '%' && k == NameEnd(s, 1)
    ensures !EmptyBraces(s, Item(s[1..k], ""), k) && |PrintToken(Item(s[1..k], ""))| == k
  {
    NameEndMeans(s, 1);
  }

  lemma BracedIsEmpty(s: string, k: nat, c: nat)
    requires s != "" && s[0] == '%' && 1 <= k < c < |s| && s[k] == '{' && s[c] == '}'
    ensures EmptyBraces(s, Item(s[1..k], s[k + 1..c]), c + 1) <==> c == k + 1
    ensures |PrintToken(Item(s[1..k], s[k + 1..c]))| == if c == k + 1 then k else c + 1
  {
  }

  lemma BracedSlice(s: string, k: nat, c: nat)
    requires 1 <= k < c < |s| && s[0] == '%' && s[k] == '{' && s[c] == '}'
    ensures s[..c + 1] == "%" + s[1..k] + "{" + s[k + 1..c] + "}"
  {
  }

  lemma BracedPrints(name: string, fmt: string)
    ensures "%" + name + "{" + fmt + "}" == PrintToken(Item(name, fmt)) + (if fmt == "" then "{}" else "")
  {
    if fmt == "" {
      assert ("%" + name) + "{}" == "%" + name + "{" + fmt + "}";
    } else {
      assert ("%" + name) + ("{" + fmt + "}") == "%" + name + "{" + fmt + "}";
    }
  }

  // ---- Losslessness ------------------------------------------------------------------

  lemma {:induction false} PrintAppend(a: seq<Token>, b: seq<Token>)
    ensures Print(a + b) == Print(a) + Print(b)
  {
    if a == [] {
      assert a + b == b;
    } else {
      assert (a + b)[1..] == a[1..] + b;
      PrintAppend(a[1..], b);
    }
  }

  lemma PrintOne(t: Token)
    ensures Print([t]) == PrintToken(t)
  {
    assert [t][1..] == [];
  }

  lemma PrintFlush(text: string)
    ensures Print(Flush(text)) == text
  {
    if text != "" {
      PrintOne(Text(text));
    }
  }

  lemma PrintWhole(text: string, item: Token, rest: seq<Token>)
    ensures Print(Flush(text) + [item] + rest) == text + PrintToken(item) + Print(rest)
  {
    PrintAppend(Flush(text) + [item], rest);
    PrintAppend(Flush(text), [item]);
    PrintFlush(text);
    PrintOne(item);
  }

  lemma {:induction false} CleanIsPrinted(s: string, text: string)
    requires Clean(s)
    ensures Print(Scan(s, text)) == text + s
    decreases |s|
  {
    if s == "" {
      PrintFlush(text);
    } else {
      match FirstPiece(s) {
        case Plain =>
          CleanIsPrinted(s[1..], text + [s[0]]);
          assert text + [s[0]] + s[1..] == text + s;
        case Broken =>
        case Whole(item, used) =>
          WholePiece(s);
          CleanIsPrinted(s[used..], "");
          PrintWhole(text, item, Scan(s[used..], ""));
          Regroup(text, s, used);
      }
    }
  }

  lemma Regroup(text: string, s: string, used: nat)
    requires used <= |s|
    ensures text + s[..used] + ("" + s[used..]) == text + s
  {
  }

  function Percents(s: string): nat {
    if s == "" then 0 else (if s[0] == '%' then 1 else 0) + Percents(s[1..])
  }

  lemma {:induction false} PercentsAppend(a: string, b: string)
    ensures Percents(a + b) == Percents(a) + Percents(b)
  {
    if a == "" {
      assert a + b == b;
    } else {
      assert (a + b)[1..] == a[1..] + b;
      PercentsAppend(a[1..], b);
    }
  }

  lemma PercentsOfItem(item: Token, taken: string)
    requires item.Item? && (taken == PrintToken(item) || taken == PrintToken(item) + "{}")
    ensures Percents(taken) == Percents(PrintToken(item))
  {
    PercentsAppend(PrintToken(item), "{}");
    assert "{}"[1..] == "}" && "}"[1..] == "";
    assert Percents("{}") == 0;
  }

  lemma PercentsOfError()
    ensures Percents(PATTERN_ERROR) == 0
  {
    NoPercents(PATTERN_ERROR);
  }

  lemma {:induction false} NoPercents(s: string)
    requires '%' !in s
    ensures Percents(s) == 0
  {
    if s != "" {
      NoPercents(s[1..]);
    }
  }

  /** What scanning and printing does to length and to the number of '%': every unclosed
      brace costs a '%' and adds 16 characters, every empty format loses two. */
  lemma {:induction false} PrintedSize(s: string, text: string)
    ensures |Print(Scan(s, text))| + 2 * EmptyFormats(s) == |text| + |s| + 16 * OpenBraces(s)
    ensures Percents(Print(Scan(s, text))) + OpenBraces(s) == Percents(text) + Percents(s)
    decreases |s|
  {
    if s == "" {
      PrintFlush(text);
    } else {
      match FirstPiece(s) {
        case Plain =>
          PrintedSize(s[1..], text + [s[0]]);
          PlainSize(s, text);
        case Broken =>
          PrintedSize(s[1..], text);
          BrokenSize(Scan(s[1..], text));
        case Whole(item, used) =>
          var rest := Scan(s[used..], "");
          PrintedSize(s[used..], "");
          WholePiece(s);
          WholeSize(s, text, item, used, rest);
      }
    }
  }

  lemma PlainSize(s: string, text: string)
    requires s != ""
    ensures Percents(text + [s[0]]) + Percents(s[1..]) == Percents(text) + Percents(s)
  {
    PercentsAppend(text, [s[0]]);
    assert [s[0]][1..] == "";
  }

  lemma BrokenSize(rest: seq<Token>)
    ensures var p := Print([Text(PATTERN_ERROR)] + rest);
      |p| == 17 + |Print(rest)| && Percents(p) == Percents(Print(rest))
  {
    PrintAppend([Text(PATTERN_ERROR)], rest);
    PrintOne(Text(PATTERN_ERROR));
    PercentsAppend(PATTERN_ERROR, Print(rest));
    PercentsOfError();
  }

  lemma WholeSize(s: string, text: string, item: Token, used: nat, rest: seq<Token>)
    requires Takes(s, item, used)
    ensures var p := Print(Flush(text) + [item] + rest);
      && Percents(p) + Percents(s[used..]) == Percents(text) + Percents(s) + Percents(Print(rest))
      && |p| == |text| + |PrintToken(item)| + |Print(rest)|
      && (used == |PrintToken(item)| || used == |PrintToken(item)| + 2)
  {
    PrintWhole(text, item, rest);
    WholePercents(s, text, PrintToken(item), used, Print(rest));
    PercentsOfItem(item, s[..used]);
    assert used == |s[..used]|;
  }

  lemma WholePercents(s: string, text: string, item: string, used: nat, rest: string)
    requires used <= |s|
    ensures Percents(text + item + rest) == Percents(text) + Percents(item) + Percents(rest)
    ensures Percents(s) == Percents(s[..used]) + Percents(s[used..])
  {
    PercentsAppend(text + item, rest);
    PercentsAppend(text, item);
    PercentsAppend(s[..used], s[used..]);
    assert s == s[..used] + s[used..];
  }

  /** Printing the tokens of a pattern gives the pattern back, character for character,
      exactly when no item brace is left open and no format is an empty pair of braces. */
  lemma PatternLossless(pattern: string)
    ensures Print(Tokens(pattern)) == pattern <==> Clean(pattern)
  {
    PrintedSize(pattern, "");
    if Clean(pattern) {
      CleanIsPrinted(pattern, "");
    }
  }

  /** Two patterns that do not come back: an empty pair of braces is dropped, and an unclosed
      one becomes the error text. */
  lemma LossyPatterns()
    ensures Print(Tokens("%d{}")) != "%d{}" && Print(Tokens("%d{")) != "%d{"
  {
    assert NameEnd("%d{}", 1) == 2 && FormatEnd("%d{}", 3) == 3;
    assert FirstPiece("%d{}") == Whole(Item("d", ""), 4);
    assert NameEnd("%d{", 1) == 2 && FormatEnd("%d{", 3) == 3;
    assert FirstPiece("%d{") == Broken;
    assert "%d{}"[4..] == "" && !Clean("%d{}") && !Clean("%d{");
    PatternLossless("%d{}");
    PatternLossless("%d{");
  }

  // ---- Round trip ----------------------------------------------------------------------

  /** A literal holds '%' only as its last characters, and then an item follows. */
  predicate PercentsLast(text: string) {
    forall i, j :: 0 <= i < j < |text| && text[i] == '%' ==> text[j] == '%'
  }

  predicate HeadFits(t: Token, rest: seq<Token>) {
    match t
    case Text(text) =>
      && text != "" && PercentsLast(text)
      && (rest == [] ==> text[|text| - 1] != '%')
      && (rest != [] ==> rest[0].Item?)
    case Item(name, fmt) => ItemStops(name, fmt, Print(rest))
  }

  predicate WellFormed(ts: seq<Token>) {
    ts == [] || (HeadFits(ts[0], ts[1..]) && WellFormed(ts[1..]))
  }

  lemma {:induction false} ScanText(u: string, next: string, text: string)
    requires PercentsLast(u) && (u != "" && u[|u| - 1] == '%' ==> next != "" && next[0] == '%')
    ensures Scan(u + next, text) == Scan(next, text + u)
    decreases |u|
  {
    if u == "" {
      assert u + next == next && text + u == text;
    } else {
      var s := u + next;
      assert s[1..] == u[1..] + next;
      if u[0] == '%' {
        assert u[|u| - 1] == '%';
        assert s[1] == '%';
      }
      ScanText(u[1..], next, text + [u[0]]);
      assert text + [u[0]] + u[1..] == text + u;
    }
  }

  lemma {:induction false} WellFormedRoundTrip(ts: seq<Token>)
    requires WellFormed(ts)
    ensures Tokens(Print(ts)) == ts
    decreases |ts|
  {
    if ts != [] {
      WellFormedRoundTrip(ts[1..]);
      if ts[0].Text? {
        TextFirst(ts[0].text, ts[1..]);
      } else {
        ScanItem(ts[0], Print(ts[1..]), "");
      }
    }
  }

  lemma TextFirst(text: string, rest: seq<Token>)
    requires HeadFits(Text(text), rest) && WellFormed(rest) && Tokens(Print(rest)) == rest
    ensures Tokens(text + Print(rest)) == [Text(text)] + rest
  {
    if rest != [] {
      ItemAfterText(text, rest);
    }
    ScanText(text, Print(rest), "");
    assert "" + text == text;
  }

  lemma ScanItem(t: Token, next: string, text: string)
    requires t.Item? && ItemStops(t.name, t.fmt, next)
    ensures Scan(PrintToken(t) + next, text) == Flush(text) + [t] + Tokens(next)
  {
    PieceOfItem(t.name, t.fmt, next);
    assert (PrintToken(t) + next)[|PrintToken(t)|..] == next;
  }

  lemma ItemAfterText(text: string, rest: seq<Token>)
    requires text != "" && rest != [] && rest[0].Item? && WellFormed(rest) && Tokens(Print(rest)) == rest
    ensures Print(rest) != "" && Print(rest)[0] == '%'
    ensures Scan(Print(rest), text) == [Text(text)] + rest
  {
    var item, more := rest[0], Print(rest[1..]);
    ScanItem(item, more, text);
    ScanItem(item, more, "");
    FlushedFirst(text, item, Tokens(more), rest);
  }

  lemma FlushedFirst(text: string, item: Token, more: seq<Token>, rest: seq<Token>)
    requires text != "" && Flush("") + [item] + more == rest
    ensures Flush(text) + [item] + more == [Text(text)] + rest
  {
    assert Flush("") + [item] + more == [item] + more;
  }

  /** The tokens of a clean pattern are well formed. */
  lemma {:induction false} CleanIsWellFormed(s: string, text: string)
    requires Clean(s) && PercentsLast(text)
    requires text != "" && text[|text| - 1] == '%' ==> s != "" && s[0] == '%'
    ensures WellFormed(Scan(s, text))
    decreases |s|
  {
    if s == "" {
      if text != "" {
        assert [Text(text)][1..] == [];
      }
    } else {
      match FirstPiece(s) {
        case Plain =>
          CleanIsWellFormed(s[1..], text + [s[0]]);
        case Broken =>
        case Whole(item, used) =>
          WholePiece(s);
          CleanIsWellFormed(s[used..], "");
          var rest := Scan(s[used..], "");
          CleanIsPrinted(s[used..], "");
          assert "" + s[used..] == s[used..];
          FlushedFits(text, item, rest);
      }
    }
  }

  lemma FlushedFits(text: string, item: Token, rest: seq<Token>)
    requires WellFormed(rest) && item.Item? && HeadFits(item, rest) && PercentsLast(text)
    ensures WellFormed(Flush(text) + [item] + rest)
  {
    assert ([item] + rest)[1..] == rest;
    assert WellFormed([item] + rest);
    if text != "" {
      assert ([Text(text)] + ([item] + rest))[1..] == [item] + rest;
      assert Flush(text) + [item] + rest == [Text(text)] + ([item] + rest);
    } else {
      assert Flush(text) + [item] + rest == [item] + rest;
    }
  }

  /** Scanning what a token list prints as gives the list back exactly when it is well
      formed; so scanning and printing are inverse between well-formed lists and clean
      patterns. */
  lemma TokensRoundTrip(ts: seq<Token>)
    ensures Tokens(Print(ts)) == ts <==> WellFormed(ts)
    ensures WellFormed(ts) ==> Clean(Print(ts))
  {
    if WellFormed(ts) {
      WellFormedRoundTrip(ts);
    }
    if Tokens(Print(ts)) == ts {
      PatternLossless(Print(ts));
      CleanIsWellFormed(Print(ts), "");
    }
  }

  /** A list that does not come back: the item %d with the literal "x" after it prints as
      the pattern of another item. */
  lemma LetterJoinsItem()
    ensures Print([Item("d", ""), Text("x")]) == "%dx"
    ensures Tokens("%dx") != [Item("d", ""), Text("x")]
  {
    var ts := [Item("d", ""), Text("x")];
    assert ts[1..] == [Text("x")];
    PrintOne(Text("x"));
    assert Print(ts) == "%d" + "x" == "%dx";
    assert InName('x') && !ItemStops("d", "", "x");
    TokensRoundTrip(ts);
  }

  // ---- Resolving -------------------------------------------------------------------------

  /** The names the formatter has an item class for. */
  const KNOWN: set<string> := {"m", "p", "r", "c", "t", "n", "d", "f", "l", "T", "F"}

  datatype FormatItem = Literal(text: string) | Directive(name: string, fmt: string)

  function Resolve(t: Token): FormatItem {
    match t
    case Text(text) => Literal(text)
    case Item(name, fmt) => if name in KNOWN then Directive(name, fmt) else Literal("<<error_format %" + name + ">>")
  }

  function ResolveAll(ts: seq<Token>): (r: seq<FormatItem>)
    ensures |r| == |ts|
  {
    seq(|ts|, i requires 0 <= i < |ts| => Resolve(ts[i]))
  }

  predicate Unknown(t: Token) {
    t.Item? && t.name !in KNOWN
  }

  ghost predicate AnyUnknown(ts: seq<Token>) {
    exists i :: 0 <= i < |ts| && Unknown(ts[i])
  }

  /** The names with an item class are eleven single letters; any other name resolves to the
      error text with the name in it. */
  lemma KnownNames(name: string)
    ensures name in KNOWN <==> |name| == 1 && name[0] in {'m', 'p', 'r', 'c', 't', 'n', 'd', 'f', 'l', 'T', 'F'}
    ensures forall fmt ::
      Resolve(Item(name, fmt)) ==
        (if |name| == 1 && name[0] in {'m', 'p', 'r', 'c', 't', 'n', 'd', 'f', 'l', 'T', 'F'} then Directive(name, fmt)
         else Literal("<<error_format %" + name + ">>"))
  {
    if |name| == 1 {
      assert name == [name[0]];
    }
  }

  /** One character after a '%' is an item name exactly for the letters and '}'. */
  lemma NameCharacters(c: char)
    ensures Tokens(['%', c]) == [Item([c], "")]
      <==> 65 <= c as int <= 90 || 97 <= c as int <= 122 || c as int == 125
  {
    if InName(c) {
      NameCharacter(c);
    } else if c == '{' {
      var s := ['%', c];
      assert NameEnd(s, 1) == 1 && FormatEnd(s, 2) == 2 && FirstPiece(s) == Broken;
      assert Tokens(s)[0] == Text(PATTERN_ERROR);
    } else if c == '%' {
      TwoPercents();
      assert ['%', c] == "%%";
    } else {
      OtherCharacter(c);
    }
  }

  lemma WholeFirst(s: string, item: Token, used: nat, rest: string)
    requires s != "" && FirstPiece(s) == Whole(item, used) && used <= |s| && s[used..] == rest
    ensures Tokens(s) == [item] + Tokens(rest)
  {
    assert Flush("") + [item] == [item];
  }

  lemma NameCharacter(c: char)
    requires InName(c)
    ensures Tokens(['%', c]) == [Item([c], "")]
  {
    var s := ['%', c];
    assert NameEnd(s, 2) == 2 && NameEnd(s, 1) == 2 && s[1..2] == [c];
    WholeFirst(s, Item([c], ""), 2, "");
  }

  lemma OtherCharacter(c: char)
    requires !InName(c) && c != '{' && c != '%'
    ensures Tokens(['%', c]) != [Item([c], "")]
  {
    var s := ['%', c];
    assert NameEnd(s, 1) == 1 && s[1..1] == "" && s[1..] == [c];
    WholeFirst(s, Item("", ""), 1, [c]);
    assert ([Item("", "")] + Tokens([c]))[0].name == "";
  }

  lemma TwoPercents()
    ensures Tokens("%%") == [Text("%"), Item("", "")]
  {
    assert FirstPiece("%%") == Plain && "%%"[1..] == "%" && "%"[1..] == "";
    assert NameEnd("%", 1) == 1 && FirstPiece("%") == Whole(Item("", ""), 1);
    assert Scan("%%", "") == Scan("%", "" + "%") && "" + "%" == "%";
  }

  /** So every known name scans as itself. */
  lemma KnownNamesScan(c: char)
    requires c in {'m', 'p', 'r', 'c', 't', 'n', 'd', 'f', 'l', 'T', 'F'}
    ensures Tokens(['%', c]) == [Item([c], "")] && !AnyUnknown(Tokens(['%', c])) && OpenBraces(['%', c]) == 0
  {
    NameCharacters(c);
    KnownNames([c]);
    assert Print([Item([c], "")]) == ['%', c] by {
      PrintOne(Item([c], ""));
    }
    PatternLossless(['%', c]);
  }

  /** Two '%' are a literal one and the start of an item; an unclosed brace is the error text,
      with what was pending before and what comes after the '%' joined behind it. */
  lemma OddPatterns()
    ensures Tokens("%%") == [Text("%"), Item("", "")]
    ensures Tokens("a%{") == [Text("<<pattern_error>>"), Text("a{")] && OpenBraces("a%{") == 1
  {
    TwoPercents();
    assert "a%{"[1..] == "%{" && "%{"[1..] == "{" && "{"[1..] == "";
    assert NameEnd("%{", 1) == 1 && FormatEnd("%{", 2) == 2 && FirstPiece("%{") == Broken;
    assert "" + "a" == "a" && "a" + "{" == "a{";
    assert Scan("{", "a") == Scan("", "a{") == [Text("a{")];
    assert OpenBraces("a%{") == OpenBraces("%{") == 1 + OpenBraces("{") == 1;
  }

  // ---- The default pattern --------------------------------------------------------------

  // One letter's item, or one character of literal text, put before a list that prints as p.
  lemma LetterBefore(c: char, ts: seq<Token>, p: string) returns (us: seq<Token>, q: string)
    requires WellFormed(ts) && Print(ts) == p && 'A' <= c <= 'z' && IsAlpha(c)
    requires p == "" || p[0] in {'%', '[', ']', ':'}
    ensures us == [Item([c], "")] + ts && q == ['%', c] + p && WellFormed(us) && Print(us) == q
  {
    us, q := [Item([c], "")] + ts, ['%', c] + p;
    assert us[1..] == ts && PrintToken(us[0]) == ['%', c];
    assert ItemStops([c], "", p);
  }

  lemma TextBefore(c: char, ts: seq<Token>, p: string) returns (us: seq<Token>, q: string)
    requires WellFormed(ts) && Print(ts) == p && c != '%' && ts != [] && ts[0].Item?
    ensures us == [Text([c])] + ts && q == [c] + p && WellFormed(us) && Print(us) == q
  {
    us, q := [Text([c])] + ts, [c] + p;
    assert us[1..] == ts;
    assert HeadFits(us[0], ts);
  }

  lemma DefaultEnd() returns (ts: seq<Token>, p: string)
    ensures p == "%T%f:%l%T%m%n" && WellFormed(ts) && Print(ts) == p
    ensures ts == [Item("T", ""), Item("f", ""), Text(":"), Item("l", ""), Item("T", ""), Item("m", ""), Item("n", "")]
  {
    ts, p := LetterBefore('n', [], "");
    ts, p := LetterBefore('m', ts, p);
    ts, p := LetterBefore('T', ts, p);
    ts, p := LetterBefore('l', ts, p);
    ts, p := TextBefore(':', ts, p);
    ts, p := LetterBefore('f', ts, p);
    ts, p := LetterBefore('T', ts, p);
  }

  // A letter's item in brackets.
  lemma BracketsBefore(c: char, end: seq<Token>, q: string) returns (ts: seq<Token>, p: string)
    requires WellFormed(end) && Print(end) == q && end != [] && end[0].Item? && 'A' <= c <= 'z' && IsAlpha(c)
    ensures p == ['[', '%', c, ']'] + q && WellFormed(ts) && Print(ts) == p
    ensures ts == [Text("["), Item([c], ""), Text("]")] + end
  {
    ts, p := TextBefore(']', end, q);
    ts, p := LetterBefore(c, ts, p);
    ts, p := TextBefore('[', ts, p);
  }

  lemma DefaultMiddle(end: seq<Token>, q: string) returns (ts: seq<Token>, p: string)
    requires WellFormed(end) && Print(end) == q && end != [] && end[0].Item?
    ensures p == "[%p]" + ("%T" + ("[%c]" + q)) && WellFormed(ts) && Print(ts) == p
    ensures ts == [Text("["), Item("p", ""), Text("]")]
      + ([Item("T", "")] + ([Text("["), Item("c", ""), Text("]")] + end))
  {
    var ts1, p1 := BracketsBefore('c', end, q);
    var ts2, p2 := LetterBefore('T', ts1, p1);
    ts, p := BracketsBefore('p', ts2, p2);
  }

  lemma Joined3<T>(a: seq<T>, b: seq<T>, c: seq<T>, q: seq<T>)
    ensures a + (b + (c + q)) == (a + b + c) + q
  {
  }

  // Two letters' items.
  lemma PairBefore(c: char, d: char, end: seq<Token>, q: string) returns (ts: seq<Token>, p: string)
    requires WellFormed(end) && Print(end) == q && 'A' <= c <= 'z' && IsAlpha(c) && 'A' <= d <= 'z' && IsAlpha(d)
    requires q == "" || q[0] in {'%', '[', ']', ':'}
    ensures p == ['%', c, '%', d] + q && WellFormed(ts) && Print(ts) == p
    ensures ts == [Item([c], ""), Item([d], "")] + end
  {
    ts, p := LetterBefore(d, end, q);
    ts, p := LetterBefore(c, ts, p);
  }

  lemma DefaultStart(end: seq<Token>, q: string) returns (ts: seq<Token>, p: string)
    requires WellFormed(end) && Print(end) == q && q != "" && q[0] == '['
    ensures p == "%T%t%T%F%T" + q && WellFormed(ts) && Print(ts) == p
    ensures ts == [Item("T", ""), Item("t", ""), Item("T", ""), Item("F", ""), Item("T", "")] + end
  {
    var ts1, p1 := LetterBefore('T', end, q);
    var ts2, p2 := PairBefore('T', 'F', ts1, p1);
    ts, p := PairBefore('T', 't', ts2, p2);
    Joined3("%T%t", "%T%F", "%T", q);
    Joined3([Item("T", ""), Item("t", "")], [Item("T", ""), Item("F", "")], [Item("T", "")], end);
  }

  const DATE := "%Y-%m-%d %H:%M:%S"

  lemma DateIsFormat()
    ensures DATE != "" && forall i :: 0 <= i < |DATE| ==> DATE[i] != '}'
  {
  }

  lemma DateBefore(ts: seq<Token>, p: string) returns (us: seq<Token>, q: string)
    requires WellFormed(ts) && Print(ts) == p
    ensures us == [Item("d", DATE)] + ts && q == "%d{" + DATE + "}" + p && WellFormed(us) && Print(us) == q
  {
    DateIsFormat();
    us, q := [Item("d", DATE)] + ts, PrintToken(Item("d", DATE)) + p;
    assert us[1..] == ts && us[0] == Item("d", DATE);
    assert ItemStops("d", DATE, p);
    assert ("%" + "d") + ("{" + DATE + "}") == "%d{" + DATE + "}";
  }

  /** The pattern a logger starts with, token by token; it raises no error. */
  lemma DefaultPattern()
    ensures var pattern := "%d{" + "%Y-%m-%d %H:%M:%S" + "}"
        + ("%T%t%T%F%T" + ("[%p]" + ("%T" + ("[%c]" + "%T%f:%l%T%m%n"))));
      && Tokens(pattern) ==
           [Item("d", "%Y-%m-%d %H:%M:%S")]
           + ([Item("T", ""), Item("t", ""), Item("T", ""), Item("F", ""), Item("T", "")]
           + ([Text("["), Item("p", ""), Text("]")] + ([Item("T", "")] + ([Text("["), Item("c", ""), Text("]")]
           + [Item("T", ""), Item("f", ""), Text(":"), Item("l", ""), Item("T", ""), Item("m", ""), Item("n", "")]))))
      && OpenBraces(pattern) == 0 && !AnyUnknown(Tokens(pattern))
  {
    var ts1, p1 := DefaultEnd();
    var ts2, p2 := DefaultMiddle(ts1, p1);
    var ts3, p3 := DefaultStart(ts2, p2);
    var ts, p := DateBefore(ts3, p3);
    TokensRoundTrip(ts);
    DefaultKnown(ts1, ts2, ts3, ts);
  }

  lemma DefaultKnown(ts1: seq<Token>, ts2: seq<Token>, ts3: seq<Token>, ts: seq<Token>)
    requires ts1 ==
      [Item("T", ""), Item("f", ""), Text(":"), Item("l", ""), Item("T", ""), Item("m", ""), Item("n", "")]
    requires ts2 == [Text("["), Item("p", ""), Text("]")]
      + ([Item("T", "")] + ([Text("["), Item("c", ""), Text("]")] + ts1))
    requires ts3 == [Item("T", ""), Item("t", ""), Item("T", ""), Item("F", ""), Item("T", "")] + ts2
    requires ts == [Item("d", DATE)] + ts3
    ensures !AnyUnknown(ts)
  {
    var (t4, t5) := ([Text("["), Item("c", ""), Text("]")] + ts1, [Text("["), Item("p", ""), Text("]")]);
    KnownTogether([Text("["), Item("c", ""), Text("]")], ts1);
    KnownTogether([Item("T", "")], t4);
    KnownTogether(t5, [Item("T", "")] + t4);
    KnownTogether([Item("T", ""), Item("t", ""), Item("T", ""), Item("F", ""), Item("T", "")], ts2);
    KnownTogether([Item("d", DATE)], ts3);
  }

  predicate AllKnown(ts: seq<Token>) {
    forall i :: 0 <= i < |ts| && ts[i].Item? ==> ts[i].name in KNOWN
  }

  lemma KnownTogether(a: seq<Token>, b: seq<Token>)
    requires AllKnown(a) && AllKnown(b)
    ensures AllKnown(a + b) && !AnyUnknown(a + b)
  {
  }

  /** What format writes, given what each directive writes. */
  function Written(item: FormatItem, write: (string, string) -> string): string {
    match item
    case Literal(text) => text
    case Directive(name, fmt) => write(name, fmt)
  }

  function Render(items: seq<FormatItem>, write: (string, string) -> string): string {
    if items == [] then "" else Written(items[0], write) + Render(items[1..], write)
  }

  function Echo(name: string, fmt: string): string {
    PrintToken(Item(name, fmt))
  }

  /** With directives writing themselves back, a clean pattern of known names formats as
      itself. */
  lemma CleanRendersItself(pattern: string)
    requires Clean(pattern) && !AnyUnknown(Tokens(pattern))
    ensures Render(ResolveAll(Tokens(pattern)), Echo) == pattern
  {
    CleanIsPrinted(pattern, "");
    RenderPrints(Tokens(pattern));
  }

  lemma {:induction false} RenderPrints(ts: seq<Token>)
    requires !AnyUnknown(ts)
    ensures Render(ResolveAll(ts), Echo) == Print(ts)
  {
    if ts != [] {
      KnownTail(ts);
      RenderPrints(ts[1..]);
      ResolveTail(ts);
    }
  }

  lemma KnownTail(ts: seq<Token>)
    requires ts != [] && !AnyUnknown(ts)
    ensures !AnyUnknown(ts[1..]) && Written(Resolve(ts[0]), Echo) == PrintToken(ts[0])
  {
    assert !Unknown(ts[0]);
    assert forall i :: 0 <= i < |ts| - 1 ==> ts[1..][i] == ts[i + 1];
  }

  lemma ResolveTail(ts: seq<Token>)
    requires ts != []
    ensures ResolveAll(ts)[0] == Resolve(ts[0]) && ResolveAll(ts)[1..] == ResolveAll(ts[1..])
  {
  }
}
