/**
 What a configuration text says, independently of how it is scanned: its sections in file
 order, the lines of each, and the value a section and a key name look up.
 */
module IniText {
  import opened Common

  predicate Newline(c: char) { c == '\n' || c == '\r' }

  predicate Blank(c: char) { c == ' ' || c == '\t' }

  /** isspace: blank, or one of the five control characters from tab to carriage return. */
  predicate Space(c: char) { c == ' ' || 9 <= c as int <= 13 }

  function Lower(c: char): char {
    if 'A' <= c <= 'Z' then (c as int + 32) as char else c
  }

  /** Letter case is put aside exactly for the 26 letters: two characters are the same, or one letter in two cases. */
  lemma LowerAlike(c: char, d: char)
    ensures Lower(c) == Lower(d) <==>
            c == d || ('A' <= c <= 'Z' && d as int == c as int + 32) || ('A' <= d <= 'Z' && c as int == d as int + 32)
  {
  }

  /** `a` is a prefix of `b`, letter case aside. */
  predicate CiPrefix(a: string, b: string) {
    |a| <= |b| && forall i :: 0 <= i < |a| ==> Lower(a[i]) == Lower(b[i])
  }

  predicate NoNul(t: string) { '\0' !in t }

  // ---- positions

  function LineEnd(t: string, i: nat): (r: nat)
    requires i <= |t|
    ensures i <= r <= |t|
    decreases |t| - i
  {
    if i == |t| || Newline(t[i]) then i else LineEnd(t, i + 1)
  }

  /** First `]` from `i` on, or the end of the text. */
  function NameEnd(t: string, i: nat): (r: nat)
    requires i <= |t|
    ensures i <= r <= |t| && (r < |t| ==> t[r] == ']')
    decreases |t| - i
  {
    if i == |t| || t[i] == ']' then i else NameEnd(t, i + 1)
  }

  function SkipSpace(t: string, i: nat): (r: nat)
    ensures i <= r && (r == i || r <= |t|)
    decreases |t| - i
  {
    if i < |t| && Space(t[i]) then SkipSpace(t, i + 1) else i
  }

  function SkipBlank(t: string, i: nat): (r: nat)
    ensures i <= r && (r == i || r <= |t|)
    decreases |t| - i
  {
    if i < |t| && Blank(t[i]) then SkipBlank(t, i + 1) else i
  }

  /** First `=` in `t[i..e]`, or `e`. */
  function EqualSign(t: string, i: nat, e: nat): (r: nat)
    requires i <= e <= |t|
    ensures i <= r <= e
    decreases e - i
  {
    if i == e || t[i] == '=' then i else EqualSign(t, i + 1, e)
  }

  /** A section begins with a bracket in the first column. */
  predicate HeaderAt(t: string, i: nat) {
    i < |t| && (i == 0 || Newline(t[i - 1])) && t[i] == '['
  }

  // ---- sections and lines

  datatype Line = Line(start: nat, end: nat)

  datatype Section = Section(start: nat, end: nat, lines: seq<Line>)

  predicate IsLine(t: string, l: Line) {
    l.start <= |t| && l.end == LineEnd(t, l.start)
  }

  /** The lines from `i` up to the next section. */
  function Lines(t: string, i: nat): seq<Line>
    decreases |t| - i
  {
    if i >= |t| || (i > 0 && HeaderAt(t, i)) then []
    else [Line(i, LineEnd(t, i))] + Lines(t, LineEnd(t, i) + 1)
  }

  /** The sections whose bracket is at `i` or later. White space after the closing bracket is skipped. */
  function Sections(t: string, i: nat): seq<Section>
    decreases |t| - i
  {
    if i >= |t| then []
    else if HeaderAt(t, i) then
      var e := NameEnd(t, i + 1);
      [Section(i + 1, e, Lines(t, SkipSpace(t, e + 1)))] + Sections(t, e)
    else Sections(t, i + 1)
  }

  /** Text before the `=`, without trailing blanks; its first character always belongs to the name. */
  function NameOf(raw: string): (r: string)
  {
    if |raw| > 1 && Blank(raw[|raw| - 1]) then NameOf(raw[..|raw| - 1]) else raw
  }

  /** A line gives a value to `key`: no comment, text before a `=`, and that name is a prefix of `key`. */
  predicate Matches(t: string, l: Line, key: string) {
    IsLine(t, l) &&
    var q := EqualSign(t, l.start, l.end);
    l.start < q < l.end && t[l.start] != '#' && CiPrefix(NameOf(t[l.start..q]), key)
  }

  /** Bracket text is a prefix of the section asked for. */
  predicate Named(t: string, s: Section, section: string) {
    s.start <= s.end <= |t| && CiPrefix(t[s.start..s.end], section)
  }

  /** The first line that matches. */
  function FindLine(t: string, ls: seq<Line>, key: string): Option<Line> {
    if ls == [] then None
    else if Matches(t, ls[0], key) then Some(ls[0])
    else FindLine(t, ls[1..], key)
  }

  /** The first matching line of all sections with a fitting name, in file order. */
  function Find(t: string, ss: seq<Section>, section: string, key: string): Option<Line> {
    if ss == [] then None
    else
      var here := if Named(t, ss[0], section) then FindLine(t, ss[0].lines, key) else None;
      if here.Some? then here else Find(t, ss[1..], section, key)
  }

  /** The first matching line from `i` up to the next section. */
  function FindLineFrom(t: string, i: nat, key: string): Option<Line> {
    FindLine(t, Lines(t, i), key)
  }

  /** The first matching line of the sections that begin at `i` or later. */
  function FindFrom(t: string, i: nat, section: string, key: string): Option<Line> {
    Find(t, Sections(t, i), section, key)
  }

  /** The line that gives the value of `key` in `section`, over the whole text. */
  function Lookup(t: string, section: string, key: string): Option<Line> {
    FindFrom(t, 0, section, key)
  }

  /** The first matching line, if there is one. */
  lemma {:induction false} FoundLineMatches(t: string, ls: seq<Line>, key: string)
    ensures FindLine(t, ls, key).Some? ==>
              exists b :: 0 <= b < |ls| && ls[b] == FindLine(t, ls, key).value && Matches(t, ls[b], key) &&
                forall k :: 0 <= k < b ==> !Matches(t, ls[k], key)
    ensures FindLine(t, ls, key).None? ==> forall k :: 0 <= k < |ls| ==> !Matches(t, ls[k], key)
  {
    hide Matches;
    if ls != [] {
      FoundLineMatches(t, ls[1..], key);
      if !Matches(t, ls[0], key) && FindLine(t, ls[1..], key).Some? {
        var b :| 0 <= b < |ls| - 1 && ls[1..][b] == FindLine(t, ls, key).value && Matches(t, ls[1..][b], key) &&
                 forall k :: 0 <= k < b ==> !Matches(t, ls[1..][k], key);
        assert ls[b + 1] == ls[1..][b] && forall k :: 1 <= k < b + 1 ==> ls[k] == ls[1..][k - 1];
      }
    }
  }

  /** Line `b` of section `a` answers a lookup. */
  predicate Answers(t: string, ss: seq<Section>, a: nat, b: nat, section: string, key: string) {
    a < |ss| && b < |ss[a].lines| && Named(t, ss[a], section) && Matches(t, ss[a].lines[b], key)
  }

  /** Section `a` comes before section `c`, or they are the same and line `b` comes before line `d`. */
  predicate Before(a: nat, b: nat, c: nat, d: nat) { a < c || (a == c && b < d) }

  ghost predicate FirstAnswer(t: string, ss: seq<Section>, a: nat, b: nat, section: string, key: string) {
    Answers(t, ss, a, b, section, key) &&
    forall c: nat, d: nat :: Before(c, d, a, b) ==> !Answers(t, ss, c, d, section, key)
  }

  /** A lookup finds the first answering line in file order, and nothing exactly if no line answers. */
  lemma {:induction false} FoundIsFirst(t: string, ss: seq<Section>, section: string, key: string)
    ensures Find(t, ss, section, key).Some? ==>
              exists a: nat, b: nat :: FirstAnswer(t, ss, a, b, section, key) &&
                ss[a].lines[b] == Find(t, ss, section, key).value
    ensures Find(t, ss, section, key).None? ==> forall a: nat, b: nat :: !Answers(t, ss, a, b, section, key)
  {
    hide Matches, Named, FindLine;
    if ss != [] {
      FoundLineMatches(t, ss[0].lines, key);
      FoundIsFirst(t, ss[1..], section, key);
      var here := if Named(t, ss[0], section) then FindLine(t, ss[0].lines, key) else None;
      if here.Some? {
        var b: nat :| b < |ss[0].lines| && ss[0].lines[b] == here.value && Matches(t, ss[0].lines[b], key) &&
                      forall k :: 0 <= k < b ==> !Matches(t, ss[0].lines[k], key);
        assert FirstAnswer(t, ss, 0, b, section, key);
      } else if Find(t, ss[1..], section, key).Some? {
        var a: nat, b: nat :| FirstAnswer(t, ss[1..], a, b, section, key) &&
          ss[1..][a].lines[b] == Find(t, ss, section, key).value;
        FirstAnswerLater(t, ss, a, b, section, key);
      } else {
        forall a: nat, b: nat ensures !Answers(t, ss, a, b, section, key) {
          if a > 0 { AnswersLater(t, ss, a - 1, b, section, key); }
        }
      }
    }
  }

  lemma AnswersLater(t: string, ss: seq<Section>, a: nat, b: nat, section: string, key: string)
    requires ss != []
    ensures Answers(t, ss[1..], a, b, section, key) <==> Answers(t, ss, a + 1, b, section, key)
  {
  }

  lemma FirstAnswerLater(t: string, ss: seq<Section>, a: nat, b: nat, section: string, key: string)
    requires ss != [] && FirstAnswer(t, ss[1..], a, b, section, key)
    requires forall d: nat :: !Answers(t, ss, 0, d, section, key)
    ensures FirstAnswer(t, ss, a + 1, b, section, key)
  {
    hide Answers;
    AnswersLater(t, ss, a, b, section, key);
    forall c: nat, d: nat | Before(c, d, a + 1, b) ensures !Answers(t, ss, c, d, section, key) {
      if c > 0 {
        AnswersLater(t, ss, c - 1, d, section, key);
        assert Before(c - 1, d, a, b);
      }
    }
  }

  // ---- how far a fruitless scan goes

  /** The bracket of the section, or its last line, ends only with the text. */
  predicate RunsOut(t: string, s: Section) {
    s.end == |t| || (s.lines != [] && s.lines[|s.lines| - 1].end == |t|)
  }

  /** The lines from `i` on end only with the text; `i` can already be past it. */
  predicate LinesOut(t: string, i: nat) {
    i > |t| || (Lines(t, i) != [] && Lines(t, i)[|Lines(t, i)| - 1].end == |t|)
  }

  /** Nothing is found, and a section with a fitting name runs out of text. */
  predicate PastIn(t: string, ss: seq<Section>, section: string, key: string) {
    if ss == [] then false
    else if Named(t, ss[0], section) then
      FindLine(t, ss[0].lines, key).None? && (RunsOut(t, ss[0]) || PastIn(t, ss[1..], section, key))
    else PastIn(t, ss[1..], section, key)
  }

  predicate FitsAndRunsOut(t: string, ss: seq<Section>, a: nat, section: string) {
    a < |ss| && Named(t, ss[a], section) && RunsOut(t, ss[a])
  }

  ghost predicate NoAnswerUpTo(t: string, ss: seq<Section>, a: nat, section: string, key: string) {
    forall c: nat, d: nat :: c <= a ==> !Answers(t, ss, c, d, section, key)
  }

  lemma FoundAnswers(t: string, ss: seq<Section>, section: string, key: string)
    requires ss != []
    ensures Named(t, ss[0], section) && FindLine(t, ss[0].lines, key).Some? ==>
      exists d: nat :: Answers(t, ss, 0, d, section, key)
  {
    hide Matches, Named, FindLine;
    FoundLineMatches(t, ss[0].lines, key);
    if Named(t, ss[0], section) && FindLine(t, ss[0].lines, key).Some? {
      var b: nat :| b < |ss[0].lines| && Matches(t, ss[0].lines[b], key);
      assert Answers(t, ss, 0, b, section, key);
    }
  }

  /** Exactly when some fitting section runs out of text and no line up to its end answers. */
  lemma {:induction false} PastInIff(t: string, ss: seq<Section>, section: string, key: string)
    ensures PastIn(t, ss, section, key) <==>
            exists a: nat :: FitsAndRunsOut(t, ss, a, section) && NoAnswerUpTo(t, ss, a, section, key)
  {
    hide Matches, Named, FindLine, RunsOut;
    if ss != [] {
      FoundLineMatches(t, ss[0].lines, key);
      FoundAnswers(t, ss, section, key);
      PastInIff(t, ss[1..], section, key);
      forall a: nat, d: nat ensures Answers(t, ss[1..], a, d, section, key) <==>
        Answers(t, ss, a + 1, d, section, key) {
        AnswersLater(t, ss, a, d, section, key);
      }
      if a: nat :| FitsAndRunsOut(t, ss[1..], a, section) && NoAnswerUpTo(t, ss[1..], a, section, key) {
        if !Named(t, ss[0], section) || FindLine(t, ss[0].lines, key).None? {
          forall c: nat, d: nat | c <= a + 1 ensures !Answers(t, ss, c, d, section, key) {
            if c > 0 { assert !Answers(t, ss[1..], c - 1, d, section, key); }
          }
          assert FitsAndRunsOut(t, ss, a + 1, section);
        }
      }
      if a: nat :| FitsAndRunsOut(t, ss, a, section) && NoAnswerUpTo(t, ss, a, section, key) {
        if a > 0 {
          forall c: nat, d: nat | c <= a - 1 ensures !Answers(t, ss[1..], c, d, section, key) {
            assert !Answers(t, ss, c + 1, d, section, key);
          }
          assert FitsAndRunsOut(t, ss[1..], a - 1, section);
        }
      }
      if FitsAndRunsOut(t, ss, 0, section) && FindLine(t, ss[0].lines, key).None? {
        assert NoAnswerUpTo(t, ss, 0, section, key);
      }
    }
  }

  predicate PastFrom(t: string, i: nat, section: string, key: string) {
    PastIn(t, Sections(t, i), section, key)
  }

  /** The scan for the key goes one character past the zero byte that ends the text. */
  predicate StepsPast(t: string, section: string, key: string) {
    PastFrom(t, 0, section, key)
  }

  lemma {:induction false} FoundMatches(t: string, ss: seq<Section>, section: string, key: string)
    ensures Find(t, ss, section, key).Some? ==> Matches(t, Find(t, ss, section, key).value, key)
  {
    if ss != [] {
      FoundLineMatches(t, ss[0].lines, key);
      FoundMatches(t, ss[1..], section, key);
    }
  }

  /** Where the value of a line begins: after the `=` and blanks. */
  function ValueStart(t: string, l: Line): nat
    requires IsLine(t, l)
  {
    SkipBlank(t, EqualSign(t, l.start, l.end) + 1)
  }

  lemma ValueStartInLine(t: string, l: Line)
    requires IsLine(t, l) && EqualSign(t, l.start, l.end) < l.end
    ensures EqualSign(t, l.start, l.end) < ValueStart(t, l) <= l.end
  {
    LineEndIs(t, l.start);
    SkipBlankIs(t, EqualSign(t, l.start, l.end) + 1);
  }

  /** The value of a line: the rest of the line from there. */
  function ValueOf(t: string, l: Line): string
    requires IsLine(t, l) && EqualSign(t, l.start, l.end) < l.end
  {
    ValueStartInLine(t, l);
    t[ValueStart(t, l)..l.end]
  }

  // ---- what the positions are

  lemma {:induction false} LineEndIs(t: string, i: nat)
    requires i <= |t|
    ensures forall k :: i <= k < LineEnd(t, i) ==> !Newline(t[k])
    ensures LineEnd(t, i) < |t| ==> Newline(t[LineEnd(t, i)])
    decreases |t| - i
  {
    if i < |t| && !Newline(t[i]) { LineEndIs(t, i + 1); }
  }

  lemma {:induction false} SkipSpaceIs(t: string, i: nat)
    ensures forall k :: i <= k < SkipSpace(t, i) ==> Space(t[k])
    ensures SkipSpace(t, i) < |t| ==> !Space(t[SkipSpace(t, i)])
    decreases |t| - i
  {
    if i < |t| && Space(t[i]) { SkipSpaceIs(t, i + 1); }
  }

  lemma {:induction false} SkipBlankIs(t: string, i: nat)
    ensures forall k :: i <= k < SkipBlank(t, i) ==> Blank(t[k])
    ensures SkipBlank(t, i) < |t| ==> !Blank(t[SkipBlank(t, i)])
    decreases |t| - i
  {
    if i < |t| && Blank(t[i]) { SkipBlankIs(t, i + 1); }
  }

  lemma {:induction false} EqualSignIs(t: string, i: nat, e: nat)
    requires i <= e <= |t|
    ensures forall k :: i <= k < EqualSign(t, i, e) ==> t[k] != '='
    ensures EqualSign(t, i, e) < e ==> t[EqualSign(t, i, e)] == '='
    decreases e - i
  {
    if i < e && t[i] != '=' { EqualSignIs(t, i + 1, e); }
  }
}
