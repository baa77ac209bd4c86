/** The configuration reader: a single-index scan of a zero-filled buffer. */
module IniReader {
  import opened Common
  import opened IniText

  const MAX_INI_FILE_SIZE := 10 * 1024

  /** The buffer holds `t` and a zero byte that ends it; what comes after is open. */
  ghost predicate Holds(p: seq<char>, t: string) {
    && |t| < |p| && NoNul(t) && p[|t|] == '\0'
    && (forall k :: 0 <= k < |t| ==> p[k] == t[k])
  }

  /** There is a second zero byte, for a scan that goes one too far. */
  ghost predicate Room(p: seq<char>, t: string) {
    |t| + 1 < |p| && p[|t| + 1] == '\0'
  }

  /** strncasecmp(a, b, n) == 0 for the C strings `a`, which may go on, and `b`. */
  predicate StrNCaseEqual(a: seq<char>, b: string, n: nat)
    requires n <= |a|
    decreases n
  {
    if n == 0 then true
    else if b == [] then a[0] == '\0'
    else Lower(a[0]) == Lower(b[0]) && (a[0] == '\0' || StrNCaseEqual(a[1..], b[1..], n - 1))
  }

  lemma {:induction false} StrNCaseEqualIsPrefix(a: seq<char>, b: string, n: nat)
    requires n <= |a| && NoNul(a[..n]) && NoNul(b)
    ensures StrNCaseEqual(a, b, n) <==> CiPrefix(a[..n], b)
    ensures StrNCaseEqual(a, b, n) <==>
            n <= |b| && forall i :: 0 <= i < n ==>
              a[i] == b[i] || ('A' <= a[i] <= 'Z' && b[i] as int == a[i] as int + 32) ||
              ('A' <= b[i] <= 'Z' && a[i] as int == b[i] as int + 32)
    decreases n
  {
    if n > 0 {
      assert a[0] == a[..n][0];
      if b != [] {
        assert a[1..][..n - 1] == a[..n][1..];
        StrNCaseEqualIsPrefix(a[1..], b[1..], n - 1);
        assert CiPrefix(a[..n], b) <==> Lower(a[0]) == Lower(b[0]) && CiPrefix(a[..n][1..], b[1..]) by {
          CiPrefixStep(a[..n], b);
        }
      }
    }
  }

  lemma CiPrefixStep(a: string, b: string)
    requires a != [] && b != []
    ensures CiPrefix(a, b) <==> Lower(a[0]) == Lower(b[0]) && CiPrefix(a[1..], b[1..])
  {
    if Lower(a[0]) == Lower(b[0]) && CiPrefix(a[1..], b[1..]) {
      forall i | 0 <= i < |a| ensures Lower(a[i]) == Lower(b[i]) {
        if i > 0 { assert a[i] == a[1..][i - 1] && b[i] == b[1..][i - 1]; }
      }
    }
    if CiPrefix(a, b) {
      forall i | 0 <= i < |a| - 1 ensures Lower(a[1..][i]) == Lower(b[1..][i]) {
        assert a[1..][i] == a[i + 1] && b[1..][i] == b[i + 1];
      }
    }
  }

  lemma ComparesText(p: seq<char>, t: string, i: nat, e: nat, name: string)
    requires Holds(p, t) && i <= e <= |t| && NoNul(name)
    ensures StrNCaseEqual(p[i..], name, e - i) <==> CiPrefix(t[i..e], name)
  {
    assert p[i..][..e - i] == t[i..e];
    StrNCaseEqualIsPrefix(p[i..], name, e - i);
  }

  // ---- the scan keeps the lookup

  /** Text without a section header in it does not change which sections follow. */
  lemma {:induction false} NoHeaderBetween(t: string, a: nat, b: nat)
    requires a <= b <= |t| + 1 && forall k :: a <= k < b ==> !HeaderAt(t, k)
    ensures Sections(t, a) == Sections(t, b)
    decreases b - a
  {
    if a < b { NoHeaderBetween(t, a + 1, b); }
  }

  lemma NoHeaderInLine(t: string, i: nat)
    requires 0 < i < |t| && !HeaderAt(t, i)
    ensures Sections(t, i) == Sections(t, LineEnd(t, i) + 1)
  {
    LineEndIs(t, i);
    NoHeaderBetween(t, i, LineEnd(t, i) + 1);
  }

  lemma NoHeaderAfterName(t: string, e: nat)
    requires e <= |t| && (e < |t| ==> t[e] == ']')
    ensures Sections(t, e) == if e < |t| then Sections(t, SkipSpace(t, e + 1)) else []
  {
    if e < |t| {
      SkipSpaceIs(t, e + 1);
      NoHeaderBetween(t, e, SkipSpace(t, e + 1));
    }
  }

  /** A name that ends at its last non-blank. */
  lemma {:induction false} NameOfEndsAt(raw: string, v: nat)
    requires v < |raw| && (v == 0 || !Blank(raw[v])) && forall k :: v < k < |raw| ==> Blank(raw[k])
    ensures NameOf(raw) == raw[..v + 1]
    decreases |raw|
  {
    if v + 1 < |raw| {
      NameOfEndsAt(raw[..|raw| - 1], v);
      assert raw[..|raw| - 1][..v + 1] == raw[..v + 1];
    } else {
      assert raw[..v + 1] == raw;
    }
  }

  // ---- the scanner

  method SkipLine(p: seq<char>, ghost t: string, i0: nat) returns (i: nat)
    requires Holds(p, t) && i0 <= |t|
    ensures i == LineEnd(t, i0)
  {
    i := i0;
    while !Newline(p[i]) && p[i] != '\0'
      invariant i <= |t| && LineEnd(t, i) == LineEnd(t, i0)
      decreases |t| - i
    {
      i := i + 1;
    }
  }

  /** `valid` is the last non-blank of `t[start..j + 1]`, or its first character. */
  ghost predicate NameScan(t: string, start: nat, j: nat, valid: nat)
    requires j < |t|
  {
    start <= valid <= j && (valid == start || !Blank(t[valid])) && forall k :: valid < k <= j ==> Blank(t[k])
  }

  /** With the `=` at `q` and the name ending at `valid`: the comparison and the start of the value. */
  method CompareKey(p: seq<char>, ghost t: string, start: nat, q: nat, valid: nat, ghost end: nat, key: string)
    returns (found: bool, value: nat)
    requires Holds(p, t) && start <= |t| && end == LineEnd(t, start) && NoNul(key)
    requires q == EqualSign(t, start, end) && start < q < end && t[start] != '#' && NameScan(t, start, q - 1, valid)
    ensures found == Matches(t, Line(start, end), key)
    ensures found ==> value == ValueStart(t, Line(start, end))
  {
    hide NameOf, EqualSign, LineEnd;
    NameText(t, start, q, valid);
    ComparesText(p, t, start, valid + 1, key);
    if !StrNCaseEqual(p[start..], key, valid - start + 1) { return false, valid; }
    value := SkipBlanks(p, t, q + 1);
    return true, value;
  }

  lemma NameText(t: string, start: nat, q: nat, valid: nat)
    requires start < q < |t| && NameScan(t, start, q - 1, valid)
    ensures NameOf(t[start..q]) == t[start..valid + 1]
  {
    NameOfEndsAt(t[start..q], valid - start);
    assert t[start..q][..valid - start + 1] == t[start..valid + 1];
  }

  method SkipBlanks(p: seq<char>, ghost t: string, i0: nat) returns (i: nat)
    requires Holds(p, t) && i0 <= |t|
    ensures i == SkipBlank(t, i0)
  {
    i := i0;
    while p[i] == ' ' || p[i] == '\t'
      invariant i <= |t| && SkipBlank(t, i) == SkipBlank(t, i0)
      decreases |t| - i
    {
      i := i + 1;
    }
  }

  /** Looks for the first `=` of a line, keeping track of where the name before it ends. */
  method ScanKey(p: seq<char>, ghost t: string, start: nat, end: nat, key: string)
    returns (found: bool, j: nat, valid: nat)
    requires Holds(p, t) && start <= |t| && end == LineEnd(t, start) && NoNul(key)
    ensures found == Matches(t, Line(start, end), key)
    ensures found ==> j == EqualSign(t, start, end) && valid == ValueStart(t, Line(start, end))
  {
    hide EqualSign, LineEnd;
    ghost var q := EqualSign(t, start, end);
    EqualSignIs(t, start, end);
    LineEndIs(t, start);
    found, j, valid := false, start, start;
    if p[j] == '#' { return; }
    while j < end && p[j] != '='
      invariant start <= j <= q
      invariant j < q ==> NameScan(t, start, j, valid)
      invariant j == q ==> !Matches(t, Line(start, end), key)
      decreases end - j
    {
      j := j + 1;
      if p[j] != ' ' && p[j] != '\t' && p[j] != '=' { valid := j; }
      if p[j] == '=' {
        var value;
        found, value := CompareKey(p, t, start, j, valid, end, key);
        if found { return true, j, value; }
      }
    }
  }

  // ---- parse_file

  /** What parse_file writes through its pointers for the key and the value. */
  datatype Span = Span(keyStart: int, keyEnd: int, valueStart: int, valueEnd: int)

  const NOWHERE := Span(-1, -1, -1, -1)

  /** The spans for a line that was found. */
  ghost predicate Spans(t: string, l: Line, s: Span) {
    && IsLine(t, l) && EqualSign(t, l.start, l.end) < l.end
    && s.keyStart == l.start && s.keyEnd == EqualSign(t, l.start, l.end) - 1
    && s.valueStart == ValueStart(t, l) && s.valueEnd == l.end
  }

  /** Tries one line; without a match the scan goes on at `next`. */
  method ScanLine(p: seq<char>, ghost t: string, i: nat, key: string) returns (found: bool, next: nat, s: Span)
    requires Holds(p, t) && 0 < i < |t| && !HeaderAt(t, i) && NoNul(key)
    ensures found ==> FindLineFrom(t, i, key).Some? && Spans(t, FindLineFrom(t, i, key).value, s)
    ensures !found ==> FindLineFrom(t, i, key) == FindLineFrom(t, next, key) && LinesOut(t, i) == LinesOut(t, next)
    ensures !found ==> i < next <= |t| + 1 && Sections(t, next) == Sections(t, i) && s == NOWHERE
  {
    hide FindLineFrom, Sections, Spans, Matches, LineEnd, EqualSign, ValueStart, IsLine, LinesOut;
    LineStep(t, i, key);
    next := SkipLine(p, t, i);
    var j, valid;
    found, j, valid := ScanKey(p, t, i, next, key);
    s := NOWHERE;
    if found {
      s := Span(i, j - 1, valid, next);
      MatchHasSpans(t, Line(i, next), key, s);
    }
    next := next + 1;
  }

  lemma NoLinesHere(t: string, i: nat, key: string)
    requires i >= |t| || (i > 0 && HeaderAt(t, i))
    ensures FindLineFrom(t, i, key) == None && LinesOut(t, i) == (i > |t|)
  {
  }

  /** Tries the lines of a section that begin at `i0`, and stops at the next section or at the end. */
  method ScanLines(p: seq<char>, ghost t: string, i0: nat, key: string) returns (found: bool, i: nat, s: Span)
    requires Holds(p, t) && 0 < i0 <= |t| + 1 && NoNul(key)
    requires FindLineFrom(t, i0, key).None? && LinesOut(t, i0) ==> Room(p, t)
    ensures found == FindLineFrom(t, i0, key).Some?
    ensures found ==> Spans(t, FindLineFrom(t, i0, key).value, s)
    ensures !found ==> i0 <= i <= |t| + 1 && Sections(t, i) == Sections(t, i0) && s == NOWHERE
    ensures !found ==> (i == |t| + 1 <==> LinesOut(t, i0))
  {
    hide FindLineFrom, Sections, Spans, LinesOut;
    i, s, found := i0, NOWHERE, false;
    if i == |t| + 1 { NoLinesHere(t, i, key); }
    while !(Newline(p[i - 1]) && p[i] == '[') && p[i] != '\0'
      invariant i0 <= i <= |t| + 1 && s == NOWHERE
      invariant FindLineFrom(t, i, key) == FindLineFrom(t, i0, key)
      invariant Sections(t, i) == Sections(t, i0) && LinesOut(t, i) == LinesOut(t, i0)
      invariant i == |t| + 1 ==> Room(p, t)
      decreases |t| + 1 - i
    {
      found, i, s := ScanLine(p, t, i, key);
      if found { return; }
      if i == |t| + 1 { NoLinesHere(t, i, key); }
    }
    NoLinesHere(t, i, key);
  }

  lemma FindLineFirst(t: string, l: Line, ls: seq<Line>, key: string)
    ensures FindLine(t, [l] + ls, key) == if Matches(t, l, key) then Some(l) else FindLine(t, ls, key)
  {
    hide Matches;
    assert ([l] + ls)[1..] == ls;
  }

  lemma LastLineEnds(t: string, i: nat)
    requires 0 < i < |t| && !HeaderAt(t, i)
    ensures LinesOut(t, i) == LinesOut(t, LineEnd(t, i) + 1)
  {
    var first, rest := Line(i, LineEnd(t, i)), Lines(t, LineEnd(t, i) + 1);
    assert Lines(t, i) == [first] + rest;
  }

  lemma LinesFirst(t: string, i: nat)
    requires 0 < i < |t| && !HeaderAt(t, i)
    ensures IsLine(t, Line(i, LineEnd(t, i)))
    ensures Lines(t, i) == [Line(i, LineEnd(t, i))] + Lines(t, LineEnd(t, i) + 1)
    ensures i <= LineEnd(t, i) <= |t| && Sections(t, LineEnd(t, i) + 1) == Sections(t, i)
  {
    NoHeaderInLine(t, i);
    hide LineEnd, Sections;
  }

  /** One line of the lookup: it matches, or the lookup goes on after it. */
  lemma LineStep(t: string, i: nat, key: string)
    requires 0 < i < |t| && !HeaderAt(t, i)
    ensures IsLine(t, Line(i, LineEnd(t, i)))
    ensures Matches(t, Line(i, LineEnd(t, i)), key) ==> FindLineFrom(t, i, key) == Some(Line(i, LineEnd(t, i)))
    ensures !Matches(t, Line(i, LineEnd(t, i)), key) ==>
      FindLineFrom(t, i, key) == FindLineFrom(t, LineEnd(t, i) + 1, key)
    ensures i <= LineEnd(t, i) <= |t| && Sections(t, LineEnd(t, i) + 1) == Sections(t, i)
    ensures LinesOut(t, i) == LinesOut(t, LineEnd(t, i) + 1)
  {
    hide FindLine, Lines, Sections, Matches, LineEnd, IsLine, LinesOut;
    LastLineEnds(t, i);
    LinesFirst(t, i);
    FindLineFirst(t, Line(i, LineEnd(t, i)), Lines(t, LineEnd(t, i) + 1), key);
  }

  lemma MatchHasSpans(t: string, l: Line, key: string, s: Span)
    requires IsLine(t, l) && Matches(t, l, key)
    requires s == Span(l.start, EqualSign(t, l.start, l.end) - 1, ValueStart(t, l), l.end)
    ensures Spans(t, l, s)
  {
  }

  /** One section of the lookup: a line of it matches, or the lookup goes on with the sections after it. */
  lemma SectionStep(t: string, i: nat, e: nat, section: string, key: string)
    requires HeaderAt(t, i) && e == NameEnd(t, i + 1)
    ensures CiPrefix(t[i + 1..e], section) && FindLineFrom(t, SkipSpace(t, e + 1), key).Some? ==>
              FindFrom(t, i, section, key) == FindLineFrom(t, SkipSpace(t, e + 1), key)
    ensures !CiPrefix(t[i + 1..e], section) || FindLineFrom(t, SkipSpace(t, e + 1), key).None? ==>
              FindFrom(t, i, section, key) == FindFrom(t, e, section, key)
  {
    hide FindLine, Lines, CiPrefix, SkipSpace;
    var first := Section(i + 1, e, Lines(t, SkipSpace(t, e + 1)));
    assert Sections(t, i) == [first] + Sections(t, e);
    assert ([first] + Sections(t, e))[1..] == Sections(t, e);
  }

  /** How far a fruitless scan of one section goes. */
  lemma SectionPast(t: string, i: nat, e: nat, section: string, key: string)
    requires HeaderAt(t, i) && e == NameEnd(t, i + 1)
    ensures PastFrom(t, i, section, key) ==
            if CiPrefix(t[i + 1..e], section)
            then FindLineFrom(t, SkipSpace(t, e + 1), key).None? &&
              (LinesOut(t, SkipSpace(t, e + 1)) || PastFrom(t, e, section, key))
            else PastFrom(t, e, section, key)
  {
    hide FindLine, Lines, CiPrefix;
    var first := Section(i + 1, e, Lines(t, SkipSpace(t, e + 1)));
    assert Sections(t, i) == [first] + Sections(t, e);
    assert ([first] + Sections(t, e))[1..] == Sections(t, e);
  }

  /** Position of the closing bracket of a section name, or of the end of the text. */
  method SkipName(p: seq<char>, ghost t: string, i0: nat) returns (i: nat)
    requires Holds(p, t) && i0 < |t|
    ensures i == NameEnd(t, i0 + 1)
  {
    i := i0 + 1;
    while p[i] != ']' && p[i] != '\0'
      invariant i0 + 1 <= i <= |t| && NameEnd(t, i) == NameEnd(t, i0 + 1)
      decreases |t| - i
    {
      i := i + 1;
    }
  }

  method SkipSpaces(p: seq<char>, ghost t: string, i0: nat) returns (i: nat)
    requires Holds(p, t) && i0 <= |t| + 1 && (i0 == |t| + 1 ==> Room(p, t))
    ensures i == SkipSpace(t, i0)
  {
    i := i0;
    while Space(p[i])
      invariant i <= |t| + 1 && SkipSpace(t, i) == SkipSpace(t, i0)
      decreases |t| + 1 - i
    {
      i := i + 1;
    }
  }

  /** Tries one section; without a match the scan goes on at `next`. */
  method ScanSection(p: seq<char>, ghost t: string, i0: nat, section: string, key: string)
    returns (found: bool, i: nat, s: Span)
    requires Holds(p, t) && HeaderAt(t, i0) && NoNul(section) && NoNul(key)
    requires PastFrom(t, i0, section, key) ==> Room(p, t)
    ensures found ==> FindFrom(t, i0, section, key).Some? && !PastFrom(t, i0, section, key) &&
                      Spans(t, FindFrom(t, i0, section, key).value, s)
    ensures !found ==> FindFrom(t, i0, section, key) == FindFrom(t, i, section, key)
    ensures !found ==> i0 < i <= |t| + 1 && s == NOWHERE
    ensures !found ==> PastFrom(t, i0, section, key) == (i == |t| + 1 || PastFrom(t, i, section, key))
  {
    hide Find, FindLineFrom, Sections, Spans, StrNCaseEqual, CiPrefix, SkipSpace, PastFrom, LinesOut;
    i := SkipName(p, t, i0);
    SectionPast(t, i0, i, section, key);
    SectionStep(t, i0, i, section, key);
    ComparesText(p, t, i0 + 1, i, section);
    found, s := false, NOWHERE;
    if StrNCaseEqual(p[i0 + 1..], section, i - (i0 + 1)) {
      AfterName(t, i, section, key);
      i := i + 1;
      i := SkipSpaces(p, t, i);
      ghost var j := i;
      found, i, s := ScanLines(p, t, i, key);
      if !found { SameSectionsPast(t, i, j, section, key); }
      if i > |t| { NoSectionHere(t, i, section, key); }
    }
  }

  lemma AfterName(t: string, e: nat, section: string, key: string)
    requires e <= |t| && (e < |t| ==> t[e] == ']')
    ensures e < SkipSpace(t, e + 1) <= |t| + 1
    ensures FindFrom(t, e, section, key) == FindFrom(t, SkipSpace(t, e + 1), section, key)
    ensures PastFrom(t, e, section, key) == PastFrom(t, SkipSpace(t, e + 1), section, key)
    ensures e == |t| ==> FindLineFrom(t, SkipSpace(t, e + 1), key).None? && LinesOut(t, SkipSpace(t, e + 1))
  {
    NoHeaderAfterName(t, e);
  }

  lemma SameSectionsPast(t: string, i: nat, j: nat, section: string, key: string)
    requires Sections(t, i) == Sections(t, j)
    ensures FindFrom(t, i, section, key) == FindFrom(t, j, section, key) &&
      PastFrom(t, i, section, key) == PastFrom(t, j, section, key)
  {
  }

  lemma NoSectionHere(t: string, i: nat, section: string, key: string)
    requires !HeaderAt(t, i)
    ensures i < |t| ==> FindFrom(t, i, section, key) == FindFrom(t, i + 1, section, key)
    ensures i < |t| ==> PastFrom(t, i, section, key) == PastFrom(t, i + 1, section, key)
    ensures i >= |t| ==> FindFrom(t, i, section, key) == None && !PastFrom(t, i, section, key)
  {
  }

  /**
   Terminates on every text, stays inside the buffer, and finds exactly what the text says.
   `stop` is the last place looked at without a result: one past the ending zero byte
   exactly if StepsPast says so, which is when a second zero byte has to be there.
   */
  method ParseFile(section: string, key: string, p: seq<char>, ghost t: string) returns (found: bool, s: Span,
    ghost stop: nat)
    requires Holds(p, t) && section != "" && key != "" && NoNul(section) && NoNul(key)
    requires StepsPast(t, section, key) ==> Room(p, t)
    ensures found == Lookup(t, section, key).Some?
    ensures found ==> Spans(t, Lookup(t, section, key).value, s) && !StepsPast(t, section, key)
    ensures !found ==> s == NOWHERE && stop == if StepsPast(t, section, key) then |t| + 1 else |t|
  {
    hide FindFrom, Spans, PastFrom;
    var i := 0;
    s, found, stop := NOWHERE, false, 0;
    while p[i] != '\0'
      invariant i <= |t| + 1 && s == NOWHERE
      invariant Lookup(t, section, key) == FindFrom(t, i, section, key)
      invariant StepsPast(t, section, key) == (i == |t| + 1 || PastFrom(t, i, section, key))
      decreases |t| + 1 - i
    {
      if (i == 0 || Newline(p[i - 1])) && p[i] == '[' {
        found, i, s := ScanSection(p, t, i, section, key);
        if found { return; }
      } else {
        NoSectionHere(t, i, section, key);
        i := i + 1;
      }
    }
    NoSectionHere(t, i, section, key);
    stop := i;
  }

  // ---- values

  function Clip(v: string, n: nat): (r: string)
    ensures r <= v && |r| == if |v| <= n then |v| else n
  {
    if |v| <= n then v else v[..n]
  }

  /** Up to the first blank. */
  function FirstWord(v: string): (r: string)
    ensures |r| <= |v|
  {
    if v == [] || Blank(v[0]) then [] else [v[0]] + FirstWord(v[1..])
  }

  /** The longest beginning without a blank. */
  lemma {:induction false} FirstWordIs(v: string, r: string)
    ensures r == FirstWord(v) <==>
            && r <= v && (forall k :: 0 <= k < |r| ==> r[k] != ' ' && r[k] != '\t')
            && (|r| < |v| ==> v[|r|] == ' ' || v[|r|] == '\t')
  {
    if v != "" && !Blank(v[0]) {
      assert v == [v[0]] + v[1..];
      FirstWordIs(v[1..], FirstWord(v[1..]));
      if r != "" {
        assert r == [r[0]] + r[1..];
        FirstWordIs(v[1..], r[1..]);
        assert r <= v <==> r[0] == v[0] && r[1..] <= v[1..];
      }
    }
  }

  predicate Digit(c: char) { '0' <= c <= '9' }

  /** The number the leading digits of `s` continue `n` to. */
  function DigitsValue(n: int, s: string): int
    decreases |s|
  {
    if s != [] && Digit(s[0]) then DigitsValue(10 * n + (s[0] as int - '0' as int), s[1..]) else n
  }

  /** atoi, without a bound on the result. */
  function Atoi(s: string): int
    decreases |s|
  {
    if s == [] then 0
    else if Space(s[0]) then Atoi(s[1..])
    else if s[0] == '-' then -DigitsValue(0, s[1..])
    else if s[0] == '+' then DigitsValue(0, s[1..])
    else DigitsValue(0, s)
  }

  function Value(text: string, section: string, key: string): Option<string> {
    var l := Lookup(text, section, key);
    FoundMatches(text, Sections(text, 0), section, key);
    if l.Some? then Some(ValueOf(text, l.value)) else None
  }

  /** What a C string function makes of file contents: everything up to the first zero byte. */
  function CText(text: string): (t: string)
    ensures NoNul(t) && |t| <= |text| && (NoNul(text) ==> t == text)
    ensures (forall k :: 0 <= k < |t| ==> t[k] == text[k]) && (|t| < |text| ==> text[|t|] == '\0')
  {
    if text == "" || text[0] == '\0' then ""
    else
      assert NoNul(text) ==> NoNul(text[1..]) && [text[0]] + text[1..] == text;
      [text[0]] + CText(text[1..])
  }

  /**
   The file fits the buffer with its ending zero byte, as the loader asserts, and if the
   scan goes one place further, a zero byte is there as well.
   */
  ghost predicate Scannable(text: string, section: string, key: string) {
    var n := |CText(text)|;
    |text| < MAX_INI_FILE_SIZE &&
    (StepsPast(CText(text), section, key) ==> n + 1 < MAX_INI_FILE_SIZE && (n + 1 < |text| ==> text[n + 1] == '\0'))
  }

  /** Lines that end only with the text have no section after them. */
  lemma {:induction false} NoSectionsAfterLinesOut(t: string, i: nat)
    requires 0 < i && LinesOut(t, i)
    ensures Sections(t, i) == []
    decreases |t| + 1 - i
  {
    if i < |t| && !HeaderAt(t, i) {
      LastLineEnds(t, i);
      NoHeaderInLine(t, i);
      NoSectionsAfterLinesOut(t, LineEnd(t, i) + 1);
    }
  }

  /** A scan that goes too far has found nothing. */
  lemma {:induction false} PastFindsNothing(t: string, i: nat, section: string, key: string)
    requires PastFrom(t, i, section, key)
    ensures FindFrom(t, i, section, key) == None
    decreases |t| - i
  {
    hide FindFrom, PastFrom, CiPrefix, LinesOut, FindLineFrom, Sections;
    if HeaderAt(t, i) {
      var e := NameEnd(t, i + 1);
      SectionPast(t, i, e, section, key);
      SectionStep(t, i, e, section, key);
      AfterName(t, e, section, key);
      if PastFrom(t, e, section, key) {
        PastFindsNothing(t, e, section, key);
      } else {
        NoSectionsAfterLinesOut(t, SkipSpace(t, e + 1));
        NothingInNoSections(t, SkipSpace(t, e + 1), section, key);
      }
    } else {
      NoSectionHere(t, i, section, key);
      if i < |t| { PastFindsNothing(t, i + 1, section, key); }
    }
  }

  lemma NothingInNoSections(t: string, i: nat, section: string, key: string)
    requires Sections(t, i) == []
    ensures FindFrom(t, i, section, key) == None
  {
  }

  /** Which files can be scanned: all that fit with two zero bytes, and with one if the scan does not go too far. */
  lemma ScannableIff(text: string, section: string, key: string)
    requires NoNul(text)
    ensures Scannable(text, section, key) <==>
            |text| <= 10238 || (|text| == 10239 && !StepsPast(text, section, key))
    ensures Lookup(text, section, key).Some? ==> (Scannable(text, section, key) <==> |text| <= 10239)
  {
    hide PastFrom, FindFrom;
    assert CText(text) == text;
    if StepsPast(text, section, key) { PastFindsNothing(text, 0, section, key); }
  }

  method FillBuffer(text: string) returns (p: seq<char>)
    requires |text| < MAX_INI_FILE_SIZE
    ensures |p| == MAX_INI_FILE_SIZE && forall k :: 0 <= k < |p| ==> p[k] == if k < |text| then text[k] else '\0'
  {
    var buf := new char[MAX_INI_FILE_SIZE](_ => '\0');
    for i := 0 to |text|
      invariant forall k :: 0 <= k < i ==> buf[k] == text[k]
      invariant forall k :: i <= k < buf.Length ==> buf[k] == '\0'
    {
      buf[i] := text[i];
    }
    p := buf[..];
  }

  /** Copies the value, cut to the size of the destination, and ends it with a zero byte. */
  method ReadProfileString(section: string, key: string, value: array<char>, text: string) returns (ok: bool)
    requires section != "" && key != "" && NoNul(section) && NoNul(key) && value.Length > 0
    requires Scannable(text, section, key)
    modifies value
    ensures ok == Value(CText(text), section, key).Some?
    ensures !ok ==> value[..] == old(value[..])
    ensures ok ==> var v := Clip(Value(CText(text), section, key).value, value.Length - 1);
                   value[..|v|] == v && value[|v|] == '\0'
  {
    hide StepsPast, Lookup, Spans;
    var p := FillBuffer(text);
    ghost var t := CText(text);
    var s;
    ghost var stop;
    ok, s, stop := ParseFile(section, key, p, t);
    if !ok {
      NotFoundNoValue(t, section, key);
      return;
    }
    SpansValue(t, section, key, s, p);
    var cpcount := s.valueEnd - s.valueStart;
    if value.Length - 1 < cpcount { cpcount := value.Length - 1; }
    CopyOut(p, s.valueStart, value, cpcount);
    value[cpcount] := '\0';
  }

  lemma NotFoundNoValue(t: string, section: string, key: string)
    ensures Value(t, section, key).Some? == Lookup(t, section, key).Some?
  {
  }

  lemma SpansValue(t: string, section: string, key: string, s: Span, p: seq<char>)
    requires Holds(p, t) && Lookup(t, section, key).Some? && Spans(t, Lookup(t, section, key).value, s)
    ensures 0 <= s.valueStart <= s.valueEnd <= |t|
    ensures Value(t, section, key) == Some(p[s.valueStart..s.valueEnd])
  {
    FoundMatches(t, Sections(t, 0), section, key);
    ValueStartInLine(t, Lookup(t, section, key).value);
    assert p[s.valueStart..s.valueEnd] == t[s.valueStart..s.valueEnd];
  }

  /** The key's span ends before the first `=` of its line, the value's begins after the blanks that follow it. */
  lemma SpansPlaces(t: string, section: string, key: string, s: Span)
    requires Lookup(t, section, key).Some? && Spans(t, Lookup(t, section, key).value, s)
    ensures 0 <= s.keyStart <= s.keyEnd && s.keyEnd + 1 < s.valueStart <= s.valueEnd <= |t| && t[s.keyStart] != '#'
    ensures t[s.keyEnd + 1] == '=' && forall k :: s.keyStart <= k <= s.keyEnd ==> t[k] != '='
    ensures forall k :: s.keyEnd + 1 < k < s.valueStart ==> t[k] == ' ' || t[k] == '\t'
    ensures s.valueStart < s.valueEnd ==> t[s.valueStart] != ' ' && t[s.valueStart] != '\t'
    ensures forall k :: s.keyStart <= k < s.valueEnd ==> t[k] != '\n' && t[k] != '\r'
    ensures s.valueEnd < |t| ==> t[s.valueEnd] == '\n' || t[s.valueEnd] == '\r'
  {
    hide EqualSign, LineEnd, SkipBlank, NameOf, CiPrefix;
    FoundMatches(t, Sections(t, 0), section, key);
    var l := Lookup(t, section, key).value;
    ValueStartInLine(t, l);
    EqualSignIs(t, l.start, l.end);
    LineEndIs(t, l.start);
    SkipBlankIs(t, s.keyEnd + 2);
  }

  method CopyOut(p: seq<char>, from: nat, value: array<char>, n: nat)
    requires from + n <= |p| && n <= value.Length
    modifies value
    ensures value[..n] == p[from..from + n]
  {
    for i := 0 to n
      invariant value[..i] == p[from..from + i]
    {
      value[i] := p[from + i];
    }
  }

  class ConfReader {
    /** What the file holds. */
    const text: string
    var section: string

    constructor (t: string)
      ensures text == t && section == ""
    {
      text, section := t, "";
    }

    method SetSection(s: string)
      modifies this
      ensures section == s
    {
      section := s;
    }

    /** Without the key the result is what the unset buffer happens to hold. */
    method ReadStr(key: string) returns (r: string)
      requires section != "" && key != "" && NoNul(section) && NoNul(key)
      requires Scannable(text, section, key)
      ensures Value(CText(text), section, key).Some? ==>
        var v := Value(CText(text), section, key).value;
        && r == FirstWord(Clip(v, 1023)) && r <= v && |r| <= 1023
        && (forall k :: 0 <= k < |r| ==> r[k] != ' ' && r[k] != '\t')
        && (|r| < |v| && |r| < 1023 ==> v[|r|] == ' ' || v[|r|] == '\t')
    {
      hide Value, CText, Scannable, FirstWord;
      var buf := new char[1024];
      var ok := ReadProfileString(section, key, buf, text);
      ghost var v := if ok then Clip(Value(CText(text), section, key).value, 1023) else "";
      ClippedHasNoNul(CText(text), section, key, 1023);
      r := TakeWord(buf, v, ok);
      FirstWordIs(v, r);
    }

    /** atoi of at most 31 characters of the value; -1 without the key. */
    method ReadInt(key: string) returns (r: int)
      requires section != "" && key != "" && NoNul(section) && NoNul(key)
      requires Scannable(text, section, key)
      ensures r == if Value(CText(text), section, key).Some?
        then Atoi(Clip(Value(CText(text), section, key).value, 31)) else -1
    {
      hide Value, CText, Clip, Scannable, Atoi;
      var value := new char[32](_ => '\0');
      var ok := ReadProfileString(section, key, value, text);
      if !ok { return -1; }
      ClippedHasNoNul(CText(text), section, key, 31);
      ghost var v := Clip(Value(CText(text), section, key).value, 31);
      assert forall k :: 0 <= k < |v| ==> value[k] == value[..|v|][k];
      var i := 0;
      while value[i] != '\0'
        invariant 0 <= i <= |v|
        decreases |v| - i
      {
        i := i + 1;
      }
      return Atoi(value[..i]);
    }
  }

  lemma ValueHasNoNul(text: string, section: string, key: string)
    requires NoNul(text)
    ensures Value(text, section, key).Some? ==> NoNul(Value(text, section, key).value)
  {
    FoundMatches(text, Sections(text, 0), section, key);
    if Value(text, section, key).Some? { ValueStartInLine(text, Lookup(text, section, key).value); }
  }

  lemma ClippedHasNoNul(text: string, section: string, key: string, n: nat)
    requires NoNul(text)
    ensures Value(text, section, key).Some? ==>
              NoNul(Clip(Value(text, section, key).value, n)) && |Clip(Value(text, section, key).value, n)| <= n
  {
    hide Value;
    ValueHasNoNul(text, section, key);
  }

  /** The C string in `buf`, cut at its first blank. */
  method TakeWord(buf: array<char>, ghost v: string, ghost ok: bool) returns (r: string)
    requires buf.Length == 1024
    requires ok ==> |v| < 1024 && NoNul(v) && buf[..|v|] == v && buf[|v|] == '\0'
    modifies buf
    ensures ok ==> r <= v && (forall k :: 0 <= k < |r| ==> r[k] != ' ' && r[k] != '\t') &&
                   (|r| < |v| ==> v[|r|] == ' ' || v[|r|] == '\t')
  {
    var i := 0;
    while i < 1024
      invariant 0 <= i <= 1024
      invariant ok ==> i <= |v| && buf[..] == old(buf[..])
      invariant ok ==> forall k :: 0 <= k < i ==> v[k] != ' ' && v[k] != '\t'
    {
      assert ok && i < |v| ==> buf[i] == buf[..|v|][i] == v[i];
      if buf[i] == '\t' || buf[i] == ' ' { buf[i] := '\0'; }
      if buf[i] == '\0' { break; }
      i := i + 1;
    }
    r := buf[..i];
    assert ok ==> r == v[..i];
  }
}
