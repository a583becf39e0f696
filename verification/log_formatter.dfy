/** LogFormatter: the pattern scanner with its index, brace state and token vector, the
    resolving pass, and format. */
module LogFormatters {
  import opened LogPattern

  class LogFormatter {
    const m_pattern: string
    var m_items: seq<FormatItem>
    var m_error: bool

    constructor (pattern: string)
      ensures m_pattern == pattern
      ensures m_items == ResolveAll(Tokens(pattern))
      ensures m_error <==> OpenBraces(pattern) > 0 || AnyUnknown(Tokens(pattern))
    {
      m_pattern := pattern;
      m_items := [];
      m_error := false;
      new;
      Init();
    }

    // Scan and resolve.  The error flag goes up exactly for an item brace that is never
    // closed or an item name that is not one of the eleven known ones.
    method Init()
      modifies this
      ensures m_items == old(m_items) + ResolveAll(Tokens(m_pattern))
      ensures m_error <==> old(m_error) || OpenBraces(m_pattern) > 0 || AnyUnknown(Tokens(m_pattern))
    {
      var vec := ScanPattern();
      for k := 0 to |vec|
        invariant m_items == old(m_items) + ResolveAll(vec[..k])
        invariant m_error <==> old(m_error) || OpenBraces(m_pattern) > 0 || AnyUnknown(vec[..k])
      {
        ResolveNext(vec, k);
        match vec[k] {
          case Text(text) =>
            m_items := m_items + [Literal(text)];
          case Item(name, fmt) =>
            if name in KNOWN {
              m_items := m_items + [Directive(name, fmt)];
            } else {
              m_items := m_items + [Literal("<<error_format %" + name + ">>")];
              m_error := true;
            }
        }
      }
      assert vec[..|vec|] == vec;
    }

    method ScanPattern() returns (vec: seq<Token>)
      modifies this`m_error
      ensures vec == Tokens(m_pattern)
      ensures m_error <==> old(m_error) || OpenBraces(m_pattern) > 0
    {
      vec := [];
      var nstr := "";
      var i := 0;
      ghost var broken := 0;
      while i < |m_pattern|
        invariant 0 <= i <= |m_pattern|
        invariant Reaches(m_pattern, i, vec, nstr, broken)
        invariant m_error <==> old(m_error) || broken > 0
      {
        ghost var more;
        ghost var i0, vec0, nstr0 := i, vec, nstr;
        i, vec, nstr, more := ScanOne(i, vec, nstr);
        StepReaches(m_pattern, i0, vec0, nstr0, broken, i, vec, nstr, more);
        broken := broken + more;
      }
      ScanEnds(m_pattern, vec, nstr, broken);
      if nstr != "" {
        vec := vec + [Text(nstr)];
      }
    }

    // The body of the outer loop, from one value of i to the next.
    method ScanOne(start: nat, tokens: seq<Token>, text: string)
      returns (i: nat, vec: seq<Token>, nstr: string, ghost more: nat)
      requires start < |m_pattern|
      modifies this`m_error
      ensures StepTo(m_pattern, start, tokens, text, i, vec, nstr, more)
      ensures m_error <==> old(m_error) || more > 0
    {
      i, vec, nstr, more := start, tokens, text, 0;
      if m_pattern[i] != '%' {
        nstr := nstr + [m_pattern[i]];
        i := i + 1;
        return;
      }
      if i + 1 < |m_pattern| {
        if m_pattern[i + 1] == '%' {
          nstr := nstr + ['%'];
          i := i + 1;
          return;
        }
      }
      var n, status, str, fmt := ReadItem(i);
      if status == 0 {
        if nstr != "" {
          vec := vec + [Text(nstr)];
          nstr := "";
        }
        vec := vec + [Item(str, fmt)];
        i := n - 1;
      } else {
        more := 1;
        m_error := true;
        vec := vec + [Text(PATTERN_ERROR)];
      }
      i := i + 1;
    }

    // The inner loop: n runs over the name and, once a '{' has been seen, over the format.
    method ReadItem(i: nat) returns (n: nat, status: int, str: string, fmt: string)
      requires i < |m_pattern| && m_pattern[i] == '%'
      ensures (status == 0 || status == 1) && i < n <= |m_pattern|
      ensures ItemPiece(m_pattern[i..]) == if status == 0 then Whole(Item(str, fmt), n - i) else Broken
    {
      n := i + 1;
      status := 0;
      var begin := 0;
      str, fmt := "", "";
      ghost var ended := false;
      while n < |m_pattern|
        invariant i < n <= |m_pattern| && (status == 0 || status == 1) && fmt == "" && !ended
        invariant status == 0 ==> InTheName(m_pattern, i, n)
        invariant status == 0 ==> str == if n == |m_pattern| && n > i + 1 then m_pattern[i + 1..] else ""
        invariant status == 1 ==> InTheFormat(m_pattern, i, begin, n)
        invariant status == 1 && n < |m_pattern| ==> str == m_pattern[i + 1..begin]
      {
        if status == 0 && !IsAlpha(m_pattern[n]) && m_pattern[n] != '{' && m_pattern[n] != '}' {
          str := m_pattern[i + 1..n];
          NameEnds(m_pattern, i, n);
          ended := true;
          break;
        }
        if status == 0 {
          if m_pattern[n] == '{' {
            str := m_pattern[i + 1..n];
            FormatBegins(m_pattern, i, n);
            status := 1;
            begin := n;
            n := n + 1;
            continue;
          }
          NameGoesOn(m_pattern, i, n);
        } else if status == 1 {
          if m_pattern[n] == '}' {
            fmt := m_pattern[begin + 1..n];
            FormatEnds(m_pattern, i, begin, n);
            ended := true;
            status := 0;
            n := n + 1;
            break;
          }
          FormatGoesOn(m_pattern, i, begin, n);
        }
        n := n + 1;
        if n == |m_pattern| {
          if str == "" {
            str := m_pattern[i + 1..];
          }
        }
      }
      if status == 1 {
        NeverCloses(m_pattern, i, begin);
      } else if !ended {
        PatternEnds(m_pattern, i);
      }
    }

    // Each item appends what it writes.
    method Format(write: (string, string) -> string) returns (out: string)
      ensures out == Render(m_items, write)
    {
      out := "";
      for k := 0 to |m_items|
        invariant out + Render(m_items[k..], write) == Render(m_items, write)
      {
        RenderNext(m_items, k, write, out);
        match m_items[k] {
          case Literal(text) => out := out + text;
          case Directive(name, fmt) => out := out + write(name, fmt);
        }
      }
    }
  }

  // ---- The inner loop's position -----------------------------------------------------

  /** p[i+1..n] are name characters. */
  ghost predicate InTheName(p: string, i: nat, n: nat) {
    i < n <= |p| && NameEnd(p[i..], 1) == NameEnd(p[i..], n - i)
  }

  /** The name stopped at the '{' at begin and p[begin+1..n] holds no '}'. */
  ghost predicate InTheFormat(p: string, i: nat, begin: nat, n: nat) {
    && i < begin < n <= |p| && p[begin] == '{'
    && NameEnd(p[i..], 1) == begin - i
    && FormatEnd(p[i..], begin - i + 1) == FormatEnd(p[i..], n - i)
  }

  lemma NameGoesOn(p: string, i: nat, n: nat)
    requires InTheName(p, i, n) && n < |p| && InName(p[n])
    ensures InTheName(p, i, n + 1)
  {
  }

  lemma FormatBegins(p: string, i: nat, n: nat)
    requires InTheName(p, i, n) && n < |p| && p[n] == '{'
    ensures InTheFormat(p, i, n, n + 1)
  {
  }

  lemma FormatGoesOn(p: string, i: nat, begin: nat, n: nat)
    requires InTheFormat(p, i, begin, n) && n < |p| && p[n] != '}'
    ensures InTheFormat(p, i, begin, n + 1)
  {
  }

  lemma NameEnds(p: string, i: nat, n: nat)
    requires InTheName(p, i, n) && n < |p| && !InName(p[n]) && p[n] != '{'
    ensures ItemPiece(p[i..]) == Whole(Item(p[i + 1..n], ""), n - i)
  {
    assert p[i..][1..n - i] == p[i + 1..n];
  }

  lemma PatternEnds(p: string, i: nat)
    requires InTheName(p, i, |p|)
    ensures ItemPiece(p[i..]) == Whole(Item(p[i + 1..], ""), |p| - i)
  {
    assert p[i..][1..|p| - i] == p[i + 1..];
  }

  lemma FormatEnds(p: string, i: nat, begin: nat, n: nat)
    requires InTheFormat(p, i, begin, n) && n < |p| && p[n] == '}'
    ensures ItemPiece(p[i..]) == Whole(Item(p[i + 1..begin], p[begin + 1..n]), n + 1 - i)
  {
    assert p[i..][1..begin - i] == p[i + 1..begin];
    assert p[i..][begin - i + 1..n - i] == p[begin + 1..n];
  }

  lemma NeverCloses(p: string, i: nat, begin: nat)
    requires InTheFormat(p, i, begin, |p|)
    ensures ItemPiece(p[i..]) == Broken
  {
  }

  // ---- The outer loop ------------------------------------------------------------------

  function Flushed(vec: seq<Token>, nstr: string): seq<Token> {
    if nstr != "" then vec + [Text(nstr)] else vec
  }

  /** The outer loop on what is left of the pattern, with tokens vec, pending literal nstr
      and broken open braces so far: all tokens, and all open braces. */
  ghost function ScanOn(s: string, vec: seq<Token>, nstr: string, broken: nat): (seq<Token>, nat)
    decreases |s|
  {
    if s == "" then (Flushed(vec, nstr), broken)
    else
      match FirstPiece(s)
      case Plain => ScanOn(s[1..], vec, nstr + [s[0]], broken)
      case Broken => ScanOn(s[1..], vec + [Text(PATTERN_ERROR)], nstr, broken + 1)
      case Whole(item, used) => ScanOn(s[used..], Flushed(vec, nstr) + [item], "", broken)
  }

  /** Index i is a point of the scan of p. */
  ghost predicate Reaches(p: string, i: nat, vec: seq<Token>, nstr: string, broken: nat) {
    i <= |p| && ScanOn(p[i..], vec, nstr, broken) == ScanOn(p, [], "", 0)
  }

  /** One round of the outer loop, from index i to i1. */
  ghost predicate StepTo(p: string, i: nat, vec: seq<Token>, nstr: string,
                         i1: nat, vec1: seq<Token>, nstr1: string, more: nat)
    requires i < |p|
  {
    match FirstPiece(p[i..])
    case Plain => i1 == i + 1 && vec1 == vec && nstr1 == nstr + [p[i]] && more == 0
    case Broken => i1 == i + 1 && vec1 == vec + [Text(PATTERN_ERROR)] && nstr1 == nstr && more == 1
    case Whole(item, used) => i1 == i + used && vec1 == Flushed(vec, nstr) + [item] && nstr1 == "" && more == 0
  }

  lemma StepReaches(p: string, i: nat, vec: seq<Token>, nstr: string, broken: nat,
                    i1: nat, vec1: seq<Token>, nstr1: string, more: nat)
    requires i < |p| && Reaches(p, i, vec, nstr, broken) && StepTo(p, i, vec, nstr, i1, vec1, nstr1, more)
    ensures i < i1 <= |p| && Reaches(p, i1, vec1, nstr1, broken + more)
  {
    var s := p[i..];
    assert s[i1 - i..] == p[i1..];
  }

  /** What ScanOn computes in terms of Scan and OpenBraces. */
  ghost predicate Means(s: string, vec: seq<Token>, nstr: string, broken: nat) {
    ScanOn(s, vec, nstr, broken) == (vec + Scan(s, nstr), broken + OpenBraces(s))
  }

  lemma {:induction false} ScanOnMeans(s: string, vec: seq<Token>, nstr: string, broken: nat)
    ensures Means(s, vec, nstr, broken)
    decreases |s|
  {
    if s == "" {
      assert vec + Flush(nstr) == Flushed(vec, nstr);
    } else {
      var piece := FirstPiece(s);
      if piece.Plain? {
        ScanOnMeans(s[1..], vec, nstr + [s[0]], broken);
      } else if piece.Broken? {
        ScanOnMeans(s[1..], vec + [Text(PATTERN_ERROR)], nstr, broken + 1);
        BrokenMeans(s, vec, nstr, broken);
      } else {
        ScanOnMeans(s[piece.used..], Flushed(vec, nstr) + [piece.item], "", broken);
        WholeMeans(s, vec, nstr, broken, piece.item, piece.used);
      }
    }
  }

  lemma BrokenMeans(s: string, vec: seq<Token>, nstr: string, broken: nat)
    requires s != "" && FirstPiece(s).Broken?
    requires Means(s[1..], vec + [Text(PATTERN_ERROR)], nstr, broken + 1)
    ensures Means(s, vec, nstr, broken)
  {
    Associates(vec, [Text(PATTERN_ERROR)], Scan(s[1..], nstr));
  }

  lemma WholeMeans(s: string, vec: seq<Token>, nstr: string, broken: nat, item: Token, used: nat)
    requires s != "" && FirstPiece(s) == Whole(item, used) && used <= |s|
    requires Means(s[used..], Flushed(vec, nstr) + [item], "", broken)
    ensures Means(s, vec, nstr, broken)
  {
    Regrouped(vec, nstr, item, Scan(s[used..], ""));
  }

  lemma Associates<T>(a: seq<T>, b: seq<T>, c: seq<T>)
    ensures a + (b + c) == a + b + c
  {
  }

  lemma Regrouped(vec: seq<Token>, nstr: string, item: Token, rest: seq<Token>)
    ensures vec + (Flush(nstr) + [item] + rest) == Flushed(vec, nstr) + [item] + rest
  {
  }

  lemma ScanEnds(p: string, vec: seq<Token>, nstr: string, broken: nat)
    requires Reaches(p, |p|, vec, nstr, broken)
    ensures Flushed(vec, nstr) == Tokens(p) && broken == OpenBraces(p)
  {
    ScanOnMeans(p, [], "", 0);
    assert p[|p|..] == "" && [] + Tokens(p) == Tokens(p);
  }

  lemma ResolveNext(vec: seq<Token>, k: nat)
    requires k < |vec|
    ensures ResolveAll(vec[..k + 1]) == ResolveAll(vec[..k]) + [Resolve(vec[k])]
    ensures AnyUnknown(vec[..k + 1]) <==> AnyUnknown(vec[..k]) || Unknown(vec[k])
  {
    assert vec[..k + 1] == vec[..k] + [vec[k]];
    if AnyUnknown(vec[..k]) {
      var i :| 0 <= i < k && Unknown(vec[..k][i]);
      assert Unknown(vec[..k + 1][i]);
    }
    if Unknown(vec[k]) {
      assert Unknown(vec[..k + 1][k]);
    }
  }

  lemma RenderNext(items: seq<FormatItem>, k: nat, write: (string, string) -> string, out: string)
    requires k < |items|
    ensures out + Render(items[k..], write) == (out + Written(items[k], write)) + Render(items[k + 1..], write)
  {
    assert items[k..][1..] == items[k + 1..];
    Associates(out, Written(items[k], write), Render(items[k + 1..], write));
  }
}
