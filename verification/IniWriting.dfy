/** Configuration files as they are written, and what a lookup finds in them. */
module IniWriting {
  import opened Common
  import opened IniText
  import opened IniReader

  /** A line `key = value`, with the blanks around the sign, or a blank or comment line. */
  datatype Entry =
    | Entry(key: string, before: string, after: string, value: string)
    | Filler(text: string)

  datatype Sec = Sec(name: string, entries: seq<Entry>)

  predicate AllBlank(s: string) { forall i :: 0 <= i < |s| ==> s[i] == ' ' || s[i] == '\t' }

  /** Text that stays on its line. */
  predicate OneLine(s: string) { '\n' !in s && '\r' !in s && '\0' !in s }

  /** Blanks inside the name are part of it. */
  predicate GoodKey(k: string) {
    && k != "" && OneLine(k) && '=' !in k && k[0] != '#' && k[0] != '['
    && k[0] != ' ' && !(9 <= k[0] as int <= 13) && k[|k| - 1] != ' ' && k[|k| - 1] != '\t'
  }

  /** All that follows the blanks after the sign, to the end of the line. */
  predicate GoodValue(v: string) {
    OneLine(v) && (v != "" ==> v[0] != ' ' && v[0] != '\t')
  }

  predicate GoodFiller(text: string) {
    OneLine(text) && (text == "" || text[0] == '#' || AllBlank(text))
  }

  predicate GoodEntry(e: Entry) {
    match e
    case Entry(key, before, after, value) => GoodKey(key) && AllBlank(before) && AllBlank(after) && GoodValue(value)
    case Filler(text) => GoodFiller(text)
  }

  predicate GoodEnd(eol: string) { eol == "\n" || eol == "\r\n" }

  predicate GoodSec(s: Sec) {
    ']' !in s.name && '\0' !in s.name && forall i :: 0 <= i < |s.entries| ==> GoodEntry(s.entries[i])
  }

  function Content(e: Entry): string {
    match e
    case Entry(key, before, after, value) => key + (before + ("=" + (after + value)))
    case Filler(text) => text
  }

  function RenderEntries(es: seq<Entry>, eol: string): string {
    if es == [] then "" else Content(es[0]) + (eol + RenderEntries(es[1..], eol))
  }

  function RenderSecs(ss: seq<Sec>, eol: string): string {
    if ss == [] then ""
    else "[" + (ss[0].name + ("]" + (eol + (RenderEntries(ss[0].entries, eol) + RenderSecs(ss[1..], eol)))))
  }

  /** The value of the first entry whose key is a prefix of `key`. */
  function FirstValue(es: seq<Entry>, key: string): Option<string> {
    if es == [] then None
    else if es[0].Entry? && CiPrefix(es[0].key, key) then Some(es[0].value)
    else FirstValue(es[1..], key)
  }

  function FirstOfSecs(ss: seq<Sec>, section: string, key: string): Option<string> {
    if ss == [] then None
    else
      var here := if CiPrefix(ss[0].name, section) then FirstValue(ss[0].entries, key) else None;
      if here.Some? then here else FirstOfSecs(ss[1..], section, key)
  }

  // ---- positions in a text known from `a` on

  lemma {:induction false} LineEndAt(t: string, i: nat, r: nat)
    requires i <= r <= |t| && (forall k :: i <= k < r ==> !Newline(t[k])) && (r < |t| ==> Newline(t[r]))
    ensures LineEnd(t, i) == r
    decreases r - i
  {
    if i < r { LineEndAt(t, i + 1, r); }
  }

  lemma {:induction false} NameEndAt(t: string, i: nat, r: nat)
    requires i <= r < |t| && (forall k :: i <= k < r ==> t[k] != ']') && t[r] == ']'
    ensures NameEnd(t, i) == r
    decreases r - i
  {
    if i < r { NameEndAt(t, i + 1, r); }
  }

  lemma {:induction false} SkipBlankAt(t: string, i: nat, r: nat)
    requires i <= r <= |t| && (forall k :: i <= k < r ==> Blank(t[k])) && (r < |t| ==> !Blank(t[r]))
    ensures SkipBlank(t, i) == r
    decreases r - i
  {
    if i < r { SkipBlankAt(t, i + 1, r); }
  }

  lemma {:induction false} SkipSpaceAt(t: string, i: nat, r: nat)
    requires i <= r <= |t| && (forall k :: i <= k < r ==> Space(t[k])) && (r < |t| ==> !Space(t[r]))
    ensures SkipSpace(t, i) == r
    decreases r - i
  {
    if i < r { SkipSpaceAt(t, i + 1, r); }
  }

  lemma {:induction false} EqualSignAt(t: string, i: nat, r: nat, e: nat)
    requires i <= r < e <= |t| && (forall k :: i <= k < r ==> t[k] != '=') && t[r] == '='
    ensures EqualSign(t, i, e) == r
    decreases r - i
  {
    if i < r { EqualSignAt(t, i + 1, r, e); }
  }

  // ---- one written line

  /** `t[a..]` begins with `s`. */
  ghost predicate Begins(t: string, a: nat, s: string) {
    a + |s| <= |t| && t[a..a + |s|] == s
  }

  lemma BeginsSplit(t: string, a: nat, s: string, u: string)
    requires Begins(t, a, s + u)
    ensures Begins(t, a, s) && Begins(t, a + |s|, u)
  {
    var w := t[a..a + |s + u|];
    assert t[a..a + |s|] == w[..|s|] == s;
    assert t[a + |s|..a + |s| + |u|] == w[|s|..] == u;
  }

  lemma BeginsChars(t: string, a: nat, s: string)
    requires Begins(t, a, s)
    ensures a + |s| <= |t| && t[a..a + |s|] == s
    ensures forall k {:trigger t[k]} :: a <= k < a + |s| ==> t[k] in s && t[k] == s[k - a]
  {
    assert forall k {:trigger t[k]} :: a <= k < a + |s| ==> t[k] == t[a..a + |s|][k - a];
  }

  lemma BlankPart(t: string, a: nat, s: string)
    requires Begins(t, a, s) && AllBlank(s)
    ensures forall k {:trigger t[k]} :: a <= k < a + |s| && k < |t| ==> Blank(t[k])
  {
    hide Begins;
    BeginsChars(t, a, s);
  }

  lemma TextPart(t: string, a: nat, s: string)
    requires Begins(t, a, s) && OneLine(s)
    ensures a + |s| <= |t| && t[a..a + |s|] == s
    ensures forall k {:trigger t[k]} :: a <= k < a + |s| ==> !Newline(t[k]) && ('=' !in s ==> t[k] != '=')
  {
    hide Begins;
    BeginsChars(t, a, s);
  }

  /** `e` is written in `t` at `a`, and its line ends there. */
  ghost predicate WrittenAt(t: string, a: nat, e: Entry) {
    && e.Entry? && GoodEntry(e) && Begins(t, a, Content(e))
    && a + |Content(e)| < |t| && Newline(t[a + |Content(e)|])
  }

  lemma EntryContent(e: Entry)
    requires e.Entry?
    ensures Content(e) == e.key + (e.before + ("=" + (e.after + e.value)))
  {
  }

  lemma WrittenParts(t: string, a: nat, e: Entry)
    requires WrittenAt(t, a, e)
    ensures var q := a + |e.key| + |e.before|;
            Begins(t, a, e.key) && Begins(t, a + |e.key|, e.before) && Begins(t, q, "=") &&
            Begins(t, q + 1, e.after) && Begins(t, q + 1 + |e.after|, e.value) &&
            a + |Content(e)| == q + 1 + |e.after| + |e.value|
  {
    hide Begins, GoodEntry, Content, Newline;
    EntryContent(e);
    var q := a + |e.key| + |e.before|;
    BeginsSplit(t, a, e.key, e.before + ("=" + (e.after + e.value)));
    BeginsSplit(t, a + |e.key|, e.before, "=" + (e.after + e.value));
    BeginsSplit(t, q, "=", e.after + e.value);
    BeginsSplit(t, q + 1, e.after, e.value);
  }

  lemma WrittenChars(t: string, a: nat, e: Entry)
    requires WrittenAt(t, a, e) && a + |Content(e)| < |t|
    ensures var q := a + |e.key| + |e.before|; var v := q + 1 + |e.after|; var r := a + |Content(e)|;
            a < q < v <= r == v + |e.value| && t[q] == '=' && t[v..r] == e.value && Newline(t[r]) &&
            (forall k :: a <= k < q ==> t[k] != '=' && !Newline(t[k])) &&
            (forall k :: q < k < v ==> Blank(t[k])) &&
            (forall k :: v <= k < r ==> !Newline(t[k])) && (v < r ==> !Blank(t[v]))
  {
    hide Begins, Content, AllBlank, OneLine;
    WrittenParts(t, a, e);
    var q := a + |e.key| + |e.before|;
    TextPart(t, a, e.key);
    BlankPart(t, a + |e.key|, e.before);
    BeginsChars(t, q, "=");
    BlankPart(t, q + 1, e.after);
    TextPart(t, q + 1 + |e.after|, e.value);
  }

  /** A written line is a line of the text, and its `=` and value are where they were put. */
  lemma WrittenPositions(t: string, a: nat, e: Entry)
    requires WrittenAt(t, a, e) && a + |Content(e)| < |t|
    ensures LineEnd(t, a) == a + |Content(e)|
    ensures EqualSign(t, a, a + |Content(e)|) == a + |e.key| + |e.before|
    ensures a < a + |e.key| + |e.before| < a + |Content(e)| && |e.value| <= |Content(e)|
    ensures SkipBlank(t, a + |e.key| + |e.before| + 1) == a + |Content(e)| - |e.value|
    ensures t[a + |Content(e)| - |e.value|..a + |Content(e)|] == e.value
  {
    hide Begins, GoodEntry, Content;
    WrittenChars(t, a, e);
    var q, r := a + |e.key| + |e.before|, a + |Content(e)|;
    LineEndAt(t, a, r);
    EqualSignAt(t, a, q, r);
    SkipBlankAt(t, q + 1, r - |e.value|);
  }

  lemma WrittenName(t: string, a: nat, e: Entry)
    requires WrittenAt(t, a, e)
    ensures a + |e.key| + |e.before| <= |t|
    ensures NameOf(t[a..a + |e.key| + |e.before|]) == e.key
    ensures t[a] != '#' && t[a] != '[' && !Space(t[a])
  {
    hide Begins, Content, NameOf;
    WrittenParts(t, a, e);
    BeginsChars(t, a, e.key);
    BeginsChars(t, a + |e.key|, e.before);
    assert t[a..a + |e.key| + |e.before|] == e.key + e.before;
    NameOfEndsAt(e.key + e.before, |e.key| - 1);
    assert (e.key + e.before)[..|e.key|] == e.key;
  }

  /** The lookup of a line in a written entry. */
  lemma WrittenLine(t: string, a: nat, e: Entry, key: string)
    requires WrittenAt(t, a, e)
    ensures var l := Line(a, a + |Content(e)|);
            IsLine(t, l) && EqualSign(t, l.start, l.end) < l.end && ValueOf(t, l) == e.value &&
            (Matches(t, l, key) <==> CiPrefix(e.key, key))
    ensures !HeaderAt(t, a) && !Space(t[a])
  {
    hide Begins, Content, GoodEntry, Newline, Space, LineEnd, EqualSign, SkipBlank, NameOf, CiPrefix;
    WrittenPositions(t, a, e);
    WrittenName(t, a, e);
  }

  // ---- written sections

  /** What the value of a found line is. */
  function ValueFound(t: string, l: Option<Line>): Option<string> {
    if l.Some? && IsLine(t, l.value) && EqualSign(t, l.value.start, l.value.end) < l.value.end
    then Some(ValueOf(t, l.value)) else None
  }

  /** After a line end, the rest of the line end changes nothing. */
  lemma AfterEol(t: string, r: nat, eol: string, key: string)
    requires GoodEnd(eol) && r + |eol| <= |t| && t[r..r + |eol|] == eol
    ensures FindLineFrom(t, r + 1, key) == FindLineFrom(t, r + |eol|, key)
    ensures Sections(t, r + 1) == Sections(t, r + |eol|)
    ensures Newline(t[r + |eol| - 1])
  {
    assert t[r] == eol[0];
    if eol == "\r\n" {
      assert t[r + 1] == eol[1];
      LineStep(t, r + 1, key);
      LineEndAt(t, r + 1, r + 1);
    }
  }

  /** A written entry gives the value asked for, or the lookup goes on with the next entry. */
  lemma EntryStep(t: string, a: nat, e: Entry, eol: string, key: string)
    requires GoodEnd(eol) && e.Entry? && GoodEntry(e) && a > 0
    requires Begins(t, a, Content(e)) && Begins(t, a + |Content(e)|, eol)
    ensures CiPrefix(e.key, key) ==>
              FindLineFrom(t, a, key).Some? && ValueFound(t, FindLineFrom(t, a, key)) == Some(e.value)
    ensures !CiPrefix(e.key, key) ==> FindLineFrom(t, a, key) == FindLineFrom(t, a + |Content(e)| + |eol|, key)
    ensures Newline(t[a + |Content(e)| + |eol| - 1]) && !Space(t[a])
    ensures Sections(t, a) == Sections(t, a + |Content(e)| + |eol|)
  {
    hide Content, Sections, FindLineFrom, CiPrefix, LineEnd, EqualSign, IsLine, Matches, ValueOf, Space;
    var r := a + |Content(e)|;
    assert t[r] == t[r..r + |eol|][0];
    WrittenLine(t, a, e, key);
    LineStep(t, a, key);
    LineIsIts(t, Line(a, r));
    AfterEol(t, r, eol, key);
  }

  /** A blank or comment line holds no section header. */
  lemma FillerNoHeader(t: string, a: nat, text: string, eol: string)
    requires GoodEnd(eol) && GoodFiller(text) && (a == 0 || (a <= |t| && Newline(t[a - 1])))
    requires Begins(t, a, text) && Begins(t, a + |text|, eol)
    ensures a + |text| + |eol| <= |t| && Sections(t, a) == Sections(t, a + |text| + |eol|)
    ensures Newline(t[a + |text| + |eol| - 1])
  {
    hide Begins, Sections;
    BeginsChars(t, a, text);
    BeginsChars(t, a + |text|, eol);
    NoHeaderBetween(t, a, a + |text| + |eol|);
  }

  /** ... and no lookup stops at it. */
  lemma FillerStep(t: string, a: nat, text: string, eol: string, key: string)
    requires GoodEnd(eol) && GoodFiller(text) && 0 < a <= |t| && Newline(t[a - 1])
    requires Begins(t, a, text) && Begins(t, a + |text|, eol)
    ensures FindLineFrom(t, a, key) == FindLineFrom(t, a + |text| + |eol|, key)
  {
    hide Sections, FindLineFrom, LineEnd, EqualSign, NameOf, Space;
    var r := a + |text|;
    BeginsAt(t, r, eol);
    FillerLine(t, a, text, key);
    LineStep(t, a, key);
    AfterEol(t, r, eol, key);
  }

  lemma FillerLine(t: string, a: nat, text: string, key: string)
    requires GoodFiller(text) && a > 0 && Begins(t, a, text) && a + |text| < |t| && Newline(t[a + |text|])
    ensures LineEnd(t, a) == a + |text| && !Matches(t, Line(a, a + |text|), key) && !HeaderAt(t, a)
  {
    hide Begins, LineEnd, EqualSign, NameOf, CiPrefix;
    BeginsChars(t, a, text);
    LineEndAt(t, a, a + |text|);
    if text != "" && text[0] != '#' {
      NoEqualSign(t, a, a + |text|);
    }
  }

  lemma {:induction false} NoEqualSign(t: string, i: nat, e: nat)
    requires i <= e <= |t| && forall k :: i <= k < e ==> t[k] != '='
    ensures EqualSign(t, i, e) == e
    decreases e - i
  {
    if i < e { NoEqualSign(t, i + 1, e); }
  }

  /** White space ahead of the lines takes blank lines with it. */
  lemma SkipsBlankLine(t: string, a: nat, text: string, eol: string)
    requires GoodEnd(eol) && AllBlank(text) && Begins(t, a, text) && Begins(t, a + |text|, eol)
    ensures SkipSpace(t, a) == SkipSpace(t, a + |text| + |eol|)
  {
    hide Begins, SkipSpace;
    BeginsChars(t, a, text);
    BeginsChars(t, a + |text|, eol);
    SkipsSpaces(t, a, a + |text| + |eol|);
  }

  lemma {:induction false} SkipsSpaces(t: string, i: nat, r: nat)
    requires i <= r <= |t| && forall k :: i <= k < r ==> Space(t[k])
    ensures SkipSpace(t, i) == SkipSpace(t, r)
    decreases r - i
  {
    if i < r { SkipsSpaces(t, i + 1, r); }
  }

  lemma LineIsIts(t: string, l: Line)
    requires IsLine(t, l)
    ensures l == Line(l.start, LineEnd(t, l.start))
  {
  }

  lemma NothingFound(t: string, a: nat, key: string)
    requires a == |t| || (a > 0 && HeaderAt(t, a))
    ensures FindLineFrom(t, a, key) == None && ValueFound(t, None) == None && FirstValue([], key) == None
  {
  }

  lemma RenderNone(eol: string)
    ensures RenderEntries([], eol) == "" && RenderSecs([], eol) == ""
  {
  }

  lemma EntriesFirst(es: seq<Entry>, eol: string, key: string)
    requires es != []
    ensures RenderEntries(es, eol) == Content(es[0]) + (eol + RenderEntries(es[1..], eol))
    ensures FirstValue(es, key) ==
            if es[0].Entry? && CiPrefix(es[0].key, key) then Some(es[0].value) else FirstValue(es[1..], key)
  {
  }

  /** The entries written from `a` on, and nothing else up to `b`, decide the lookup of a line. */
  lemma {:induction false} EntriesRead(t: string, a: nat, es: seq<Entry>, eol: string, b: nat, key: string)
    requires GoodEnd(eol) && 0 < a <= b <= |t| && Newline(t[a - 1])
    requires b == a + |RenderEntries(es, eol)| && Begins(t, a, RenderEntries(es, eol))
    requires b == |t| || t[b] == '['
    requires forall i :: 0 <= i < |es| ==> GoodEntry(es[i])
    ensures ValueFound(t, FindLineFrom(t, a, key)) == FirstValue(es, key)
    ensures FindLineFrom(t, a, key).Some? <==> FirstValue(es, key).Some?
    ensures Sections(t, a) == Sections(t, b) && (b < |t| ==> HeaderAt(t, b))
    decreases |es|
  {
    hide FindLineFrom, ValueFound, CiPrefix, RenderEntries, FirstValue, GoodKey, GoodFiller, Begins, Sections, Newline;
    if es == [] {
      RenderNone(eol);
      NothingFound(t, a, key);
    } else {
      var e, rest := es[0], RenderEntries(es[1..], eol);
      EntriesFirst(es, eol, key);
      BeginsSplit(t, a, Content(e), eol + rest);
      BeginsSplit(t, a + |Content(e)|, eol, rest);
      match e {
        case Entry(_, _, _, _) => EntryStep(t, a, e, eol, key);
        case Filler(text) =>
          FillerNoHeader(t, a, text, eol);
          FillerStep(t, a, text, eol, key);
      }
      EntriesRead(t, a + |Content(e)| + |eol|, es[1..], eol, b, key);
    }
  }

  lemma EntryStart(t: string, a: nat, e: Entry)
    requires GoodEntry(e) && Begins(t, a, Content(e)) && !(e.Filler? && AllBlank(e.text))
    ensures a < |t| && !Space(t[a])
  {
    hide Begins;
    BeginsAt(t, a, Content(e));
  }

  /** The same where white space ahead of the entries has been skipped. */
  lemma {:induction false} EntriesReadAfterSpace(t: string, a: nat, es: seq<Entry>, eol: string, b: nat, key: string)
    requires GoodEnd(eol) && 0 < a <= b <= |t| && Newline(t[a - 1])
    requires b == a + |RenderEntries(es, eol)| && Begins(t, a, RenderEntries(es, eol))
    requires b == |t| || t[b] == '['
    requires forall i :: 0 <= i < |es| ==> GoodEntry(es[i])
    ensures ValueFound(t, FindLineFrom(t, SkipSpace(t, a), key)) == FirstValue(es, key)
    ensures FindLineFrom(t, SkipSpace(t, a), key).Some? <==> FirstValue(es, key).Some?
    decreases |es|
  {
    hide FindLineFrom, ValueFound, Content, CiPrefix, RenderEntries, FirstValue, GoodEntry, Begins, Sections,
      SkipSpace, AllBlank;
    if es == [] {
      RenderNone(eol);
      NothingFound(t, a, key);
      SkipSpaceAt(t, a, a);
    } else {
      var e, rest := es[0], RenderEntries(es[1..], eol);
      EntriesFirst(es, eol, key);
      BeginsSplit(t, a, Content(e), eol + rest);
      BeginsSplit(t, a + |Content(e)|, eol, rest);
      if e.Filler? && AllBlank(e.text) {
        FillerContent(e);
        SkipsBlankLine(t, a, e.text, eol);
        EolEnds(t, a + |e.text|, eol);
        EntriesReadAfterSpace(t, a + |e.text| + |eol|, es[1..], eol, b, key);
      } else {
        EntryStart(t, a, e);
        SkipSpaceAt(t, a, a);
        EntriesRead(t, a, es, eol, b, key);
      }
    }
  }

  lemma FillerContent(e: Entry)
    requires e.Filler?
    ensures Content(e) == e.text
  {
  }

  lemma SecsFirst(ss: seq<Sec>, eol: string, section: string, key: string)
    requires ss != []
    ensures RenderSecs(ss, eol) ==
            "[" + (ss[0].name + ("]" + (eol + (RenderEntries(ss[0].entries, eol) + RenderSecs(ss[1..], eol)))))
    ensures CiPrefix(ss[0].name, section) && FirstValue(ss[0].entries, key).Some? ==>
              FirstOfSecs(ss, section, key) == FirstValue(ss[0].entries, key)
    ensures !CiPrefix(ss[0].name, section) || FirstValue(ss[0].entries, key).None? ==>
              FirstOfSecs(ss, section, key) == FirstOfSecs(ss[1..], section, key)
    ensures RenderSecs(ss[1..], eol) != "" ==> RenderSecs(ss[1..], eol)[0] == '['
  {
  }

  lemma HeaderName(t: string, a: nat, name: string)
    requires ']' !in name && (a == 0 || (a <= |t| && Newline(t[a - 1])))
    requires Begins(t, a, "[") && Begins(t, a + 1, name) && Begins(t, a + 1 + |name|, "]")
    ensures HeaderAt(t, a) && NameEnd(t, a + 1) == a + 1 + |name|
    ensures t[a + 1..a + 1 + |name|] == name && t[a + 1 + |name|] == ']'
  {
    hide NameEnd, Begins, Newline;
    BeginsChars(t, a, "[");
    BeginsChars(t, a + 1, name);
    BeginsChars(t, a + 1 + |name|, "]");
    NameEndAt(t, a + 1, a + 1 + |name|);
  }

  lemma HeaderEol(t: string, a: nat, eol: string)
    requires GoodEnd(eol) && Begins(t, a, eol)
    ensures SkipSpace(t, a) == SkipSpace(t, a + |eol|)
  {
    hide SkipSpace, Begins;
    BeginsChars(t, a, eol);
    SkipsSpaces(t, a, a + |eol|);
  }

  lemma SecsReadNone(t: string, section: string, key: string)
    ensures FindFrom(t, |t|, section, key) == None && ValueFound(t, None) == None &&
      FirstOfSecs([], section, key) == None
  {
  }

  /** Both lookups of a section agree on what they find. */
  ghost predicate SameValue(t: string, found: Option<Line>, value: Option<string>) {
    ValueFound(t, found) == value && (found.Some? <==> value.Some?)
  }

  lemma FindFromSections(t: string, a: nat, b: nat, section: string, key: string)
    requires Sections(t, a) == Sections(t, b)
    ensures FindFrom(t, a, section, key) == FindFrom(t, b, section, key)
  {
  }

  /** The pieces of a written section and what comes after it. */
  lemma SecPieces(t: string, a: nat, name: string, eol: string, es: string, rest: string)
    requires GoodEnd(eol) && Begins(t, a, "[" + (name + ("]" + (eol + (es + rest)))))
    ensures Begins(t, a, "[") && Begins(t, a + 1, name) && Begins(t, a + 1 + |name|, "]")
    ensures Begins(t, a + 2 + |name|, eol) && Newline(t[a + 2 + |name| + |eol| - 1])
    ensures Begins(t, a + 2 + |name| + |eol|, es) && Begins(t, a + 2 + |name| + |eol| + |es|, rest)
  {
    hide Begins, Newline;
    BeginsSplit(t, a, "[", name + ("]" + (eol + (es + rest))));
    BeginsSplit(t, a + 1, name, "]" + (eol + (es + rest)));
    BeginsSplit(t, a + 1 + |name|, "]", eol + (es + rest));
    BeginsSplit(t, a + 2 + |name|, eol, es + rest);
    BeginsSplit(t, a + 2 + |name| + |eol|, es, rest);
    EolEnds(t, a + 2 + |name|, eol);
  }

  lemma SectionsAfterName(t: string, e: nat, b: nat)
    requires e < b <= |t| && t[e] == ']' && SkipSpace(t, e + 1) == SkipSpace(t, b)
    ensures Sections(t, e) == Sections(t, b)
  {
    hide Sections, SkipSpace;
    NoHeaderAfterName(t, e);
    SkipSpaceIs(t, b);
    NoHeaderBetween(t, b, SkipSpace(t, b));
  }

  /** One written section: its entries give the value, or the lookup goes on after them, at `next`. */
  lemma SecStep(t: string, a: nat, sec: Sec, eol: string, rest: string, next: nat, section: string, key: string)
    requires GoodEnd(eol) && GoodSec(sec) && (a == 0 || (a <= |t| && Newline(t[a - 1])))
    requires Begins(t, a, "[" + (sec.name + ("]" + (eol + (RenderEntries(sec.entries, eol) + rest)))))
    requires next == a + 2 + |sec.name| + |eol| + |RenderEntries(sec.entries, eol)| && next + |rest| == |t|
    requires rest != "" ==> rest[0] == '['
    ensures CiPrefix(sec.name, section) && FirstValue(sec.entries, key).Some? ==>
              SameValue(t, FindFrom(t, a, section, key), FirstValue(sec.entries, key))
    ensures !CiPrefix(sec.name, section) || FirstValue(sec.entries, key).None? ==>
              FindFrom(t, a, section, key) == FindFrom(t, next, section, key)
    ensures Begins(t, next, rest) && 0 < next && Newline(t[next - 1])
  {
    hide RenderEntries, FindFrom, FindLineFrom, FirstValue, Sections, CiPrefix, ValueFound,
         Begins, Space, Newline, NameEnd, SkipSpace, HeaderAt, GoodEntry;
    var name, es := sec.name, RenderEntries(sec.entries, eol);
    SecPieces(t, a, name, eol, es, rest);
    var e, b := a + 1 + |name|, a + 2 + |name| + |eol|;
    if rest != "" { BeginsAt(t, next, rest); }
    EntriesRead(t, b, sec.entries, eol, next, key);
    EntriesReadAfterSpace(t, b, sec.entries, eol, next, key);
    HeaderName(t, a, name);
    HeaderEol(t, e + 1, eol);
    SectionStep(t, a, e, section, key);
    SectionsAfterName(t, e, b);
    FindFromSections(t, e, next, section, key);
    NewlineBefore(t, b, sec.entries, eol);
  }

  /** A written file is looked up section by section and entry by entry. */
  lemma {:induction false} SecsRead(t: string, a: nat, ss: seq<Sec>, eol: string, section: string, key: string)
    requires GoodEnd(eol) && forall i :: 0 <= i < |ss| ==> GoodSec(ss[i])
    requires a <= |t| == a + |RenderSecs(ss, eol)| && Begins(t, a, RenderSecs(ss, eol))
    requires a == 0 || Newline(t[a - 1])
    ensures SameValue(t, FindFrom(t, a, section, key), FirstOfSecs(ss, section, key))
    decreases |ss|
  {
    hide RenderSecs, RenderEntries, FindFrom, FirstOfSecs, FirstValue, CiPrefix, ValueFound, Begins, Newline, GoodSec;
    if ss == [] {
      RenderNone(eol);
      SecsReadNone(t, section, key);
    } else {
      var rest := RenderSecs(ss[1..], eol);
      SecsFirst(ss, eol, section, key);
      var next := a + 2 + |ss[0].name| + |eol| + |RenderEntries(ss[0].entries, eol)|;
      SecStep(t, a, ss[0], eol, rest, next, section, key);
      SecsRead(t, next, ss[1..], eol, section, key);
    }
  }

  lemma BeginsAt(t: string, a: nat, s: string)
    requires Begins(t, a, s) && s != ""
    ensures a < |t| && t[a] == s[0]
  {
    assert t[a..a + |s|][0] == t[a];
  }

  lemma EolEnds(t: string, a: nat, eol: string)
    requires GoodEnd(eol) && Begins(t, a, eol)
    ensures a + |eol| <= |t| && Newline(t[a + |eol| - 1])
  {
    assert t[a..a + |eol|][|eol| - 1] == t[a + |eol| - 1];
  }

  /** Written entries end with a line end. */
  lemma {:induction false} NewlineBefore(t: string, b: nat, es: seq<Entry>, eol: string)
    requires GoodEnd(eol) && 0 < b <= |t| && Newline(t[b - 1]) && Begins(t, b, RenderEntries(es, eol))
    ensures b + |RenderEntries(es, eol)| <= |t| && Newline(t[b + |RenderEntries(es, eol)| - 1])
    decreases |es|
  {
    hide Begins, Newline, RenderEntries, Content, FirstValue;
    if es == [] {
      RenderNone(eol);
    } else {
      var rest := RenderEntries(es[1..], eol);
      EntriesFirst(es, eol, "");
      BeginsSplit(t, b, Content(es[0]), eol + rest);
      BeginsSplit(t, b + |Content(es[0])|, eol, rest);
      EolEnds(t, b + |Content(es[0])|, eol);
      NewlineBefore(t, b + |Content(es[0])| + |eol|, es[1..], eol);
    }
  }

  /** A file: blank and comment lines, then sections. */
  function RenderFile(head: seq<Entry>, ss: seq<Sec>, eol: string): string {
    RenderEntries(head, eol) + RenderSecs(ss, eol)
  }

  predicate GoodHead(head: seq<Entry>) {
    forall i :: 0 <= i < |head| ==> head[i].Filler? && GoodEntry(head[i])
  }

  lemma {:induction false} HeadRead(t: string, a: nat, head: seq<Entry>, eol: string)
    requires GoodEnd(eol) && GoodHead(head) && (a == 0 || (a <= |t| && Newline(t[a - 1])))
    requires Begins(t, a, RenderEntries(head, eol))
    ensures a + |RenderEntries(head, eol)| <= |t| && Sections(t, a) == Sections(t, a + |RenderEntries(head, eol)|)
    ensures head == [] || Newline(t[a + |RenderEntries(head, eol)| - 1])
    decreases |head|
  {
    hide Begins, GoodFiller, Sections, Newline, RenderEntries, Content, FirstValue;
    RenderNone(eol);
    if head != [] {
      var e, rest := head[0], RenderEntries(head[1..], eol);
      EntriesFirst(head, eol, "");
      FillerContent(e);
      BeginsSplit(t, a, e.text, eol + rest);
      BeginsSplit(t, a + |e.text|, eol, rest);
      FillerNoHeader(t, a, e.text, eol);
      EolEnds(t, a + |e.text|, eol);
      HeadRead(t, a + |e.text| + |eol|, head[1..], eol);
    }
  }

  /** What a key looks up in a written file is the first entry, in file order, whose names fit. */
  lemma WrittenValue(head: seq<Entry>, ss: seq<Sec>, eol: string, section: string, key: string)
    requires GoodEnd(eol) && GoodHead(head) && forall i :: 0 <= i < |ss| ==> GoodSec(ss[i])
    ensures Value(RenderFile(head, ss, eol), section, key) == FirstOfSecs(ss, section, key)
  {
    hide RenderEntries, RenderSecs, FindFrom, FirstOfSecs, Begins, GoodSec, GoodHead;
    var t, b := RenderFile(head, ss, eol), |RenderEntries(head, eol)|;
    WholeText(RenderEntries(head, eol), RenderSecs(ss, eol));
    HeadRead(t, 0, head, eol);
    if head == [] { RenderNone(eol); }
    FindFromSections(t, 0, b, section, key);
    SecsRead(t, b, ss, eol, section, key);
    FoundMatches(t, Sections(t, 0), section, key);
  }

  lemma WholeText(a: string, b: string)
    ensures Begins(a + b, 0, a) && Begins(a + b, |a|, b)
  {
  }

  // ---- what a written file is made of, and how long it is

  lemma {:induction false} EntriesNoNul(es: seq<Entry>, eol: string)
    requires GoodEnd(eol) && forall i :: 0 <= i < |es| ==> GoodEntry(es[i])
    ensures NoNul(RenderEntries(es, eol))
    decreases |es|
  {
    if es != [] {
      assert GoodEntry(es[0]);
      ContentNoNul(es[0]);
      EntriesNoNul(es[1..], eol);
      hide Content;
    }
  }

  lemma ContentNoNul(e: Entry)
    requires GoodEntry(e)
    ensures NoNul(Content(e))
  {
  }

  lemma FileTextNoNul(head: seq<Entry>, ss: seq<Sec>, eol: string)
    requires GoodEnd(eol) && GoodHead(head) && forall i :: 0 <= i < |ss| ==> GoodSec(ss[i])
    ensures NoNul(RenderFile(head, ss, eol))
  {
    hide RenderEntries, RenderSecs, GoodSec;
    EntriesNoNul(head, eol);
    SecsNoNul(ss, eol);
  }

  lemma {:induction false} SecsNoNul(ss: seq<Sec>, eol: string)
    requires GoodEnd(eol) && forall i :: 0 <= i < |ss| ==> GoodSec(ss[i])
    ensures NoNul(RenderSecs(ss, eol))
    decreases |ss|
  {
    if ss != [] {
      assert GoodSec(ss[0]);
      EntriesNoNul(ss[0].entries, eol);
      SecsNoNul(ss[1..], eol);
    }
  }

  /** Bytes of the lines of some entries. */
  function EntriesSize(es: seq<Entry>, end: nat): nat {
    if es == [] then 0 else |Content(es[0])| + end + EntriesSize(es[1..], end)
  }

  lemma {:induction false} RenderedEntriesSize(es: seq<Entry>, eol: string)
    ensures |RenderEntries(es, eol)| == EntriesSize(es, |eol|)
    decreases |es|
  {
    if es != [] { RenderedEntriesSize(es[1..], eol); }
  }

  lemma {:induction false} EntriesSizeSplit(a: seq<Entry>, b: seq<Entry>, end: nat)
    ensures EntriesSize(a + b, end) == EntriesSize(a, end) + EntriesSize(b, end)
    decreases |a|
  {
    if a == [] {
      assert a + b == b;
    } else {
      assert (a + b)[1..] == a[1..] + b;
      EntriesSizeSplit(a[1..], b, end);
    }
  }

  /** Shorter lines make a shorter file. */
  lemma {:induction false} EntriesSizeMonotone(a: seq<Entry>, b: seq<Entry>, end: nat)
    requires |a| == |b| && forall i :: 0 <= i < |a| ==> |Content(a[i])| <= |Content(b[i])|
    ensures EntriesSize(a, end) <= EntriesSize(b, end)
    decreases |a|
  {
    if a != [] { EntriesSizeMonotone(a[1..], b[1..], end); }
  }

  // ---- a file that the scanner goes past

  /** A section without a name, and one line without a sign that fills the buffer to its last byte. */
  ghost predicate FillsBuffer(t: string) {
    |t| == 10239 && t[0] == '[' && t[1] == ']' && forall k :: 2 <= k < |t| ==> t[k] == 'x'
  }

  /** Every request scans past the zero byte that ends this file, which is the last one of the buffer. */
  lemma FullBufferIsScannedPast(t: string, section: string, key: string)
    requires FillsBuffer(t) && section != "" && key != ""
    ensures NoNul(t) && StepsPast(t, section, key) && !Scannable(t, section, key)
  {
    hide NameEnd, LineEnd, EqualSign, NameOf, FindLine;
    NameEndAt(t, 1, 1);
    SkipSpaceAt(t, 2, 2);
    LineEndAt(t, 2, |t|);
    NoEqualSign(t, 2, |t|);
    assert Lines(t, |t| + 1) == [] && Lines(t, 2) == [Line(2, |t|)];
    OnlyLine(t, Line(2, |t|), key);
    NoHeaderBetween(t, 1, |t|);
    assert Sections(t, |t|) == [] && Sections(t, 0) == [Section(1, 1, Lines(t, 2))];
    assert [Section(1, 1, Lines(t, 2))][1..] == [];
    ScannableIff(t, section, key);
  }

  lemma OnlyLine(t: string, l: Line, key: string)
    requires !Matches(t, l, key)
    ensures FindLine(t, [l], key) == None
  {
    assert [l][1..] == [];
  }

  /** There is such a file. */
  lemma SomeFileFillsBuffer() returns (t: string)
    ensures FillsBuffer(t)
  {
    t := "[]" + seq(10237, _ => 'x');
  }
}
