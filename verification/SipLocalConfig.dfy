/** The lower domain's configuration: what ReadConf reads back from a written file. */
module SipLocalConfig {
  import opened Common
  import opened IniText
  import opened IniReader
  import opened IniWriting
  import opened Numbers

  const LOCAL_SECTION := "localserver"
  const SIP_SECTION := "sipserver"

  datatype Field = Id | Ip | Port | Poto | Expires

  /** The keys of both sections; node keys carry a number from 1 on. */
  datatype Key = LocalIp | LocalPort | SipId | SipIp | SipPort | NodeNum | Node(field: Field, number: nat)

  function FieldName(f: Field): string {
    match f
    case Id => "sip_supnode_id"
    case Ip => "sip_supnode_ip"
    case Port => "sip_supnode_port"
    case Poto => "sip_supnode_poto"
    case Expires => "sip_supnode_expires"
  }

  /** The key without its number. */
  function KeyBase(k: Key): string {
    match k
    case LocalIp => "local_ip"
    case LocalPort => "local_port"
    case SipId => "sip_id"
    case SipIp => "sip_ip"
    case SipPort => "sip_port"
    case NodeNum => "supnode_num"
    case Node(f, _) => FieldName(f)
  }

  function KeyName(k: Key): string {
    KeyBase(k) + if k.Node? then Decimal(k.number) else ""
  }

  // ---- which key names are prefixes of which

  /** At place `i` the two names differ, letter case aside. */
  predicate DifferAt(a: string, b: string, i: nat) {
    i < |a| && i < |b| && Lower(a[i]) != Lower(b[i])
  }

  /** A place that tells two keys with different bases apart. */
  function DifferingPlace(a: Key, b: Key): nat {
    var (x, y) := (KeyBase(a), KeyBase(b));
    if DifferAt(x, y, 0) then 0
    else if DifferAt(x, y, 1) then 1
    else if DifferAt(x, y, 4) then 4
    else if DifferAt(x, y, 5) then 5
    else if DifferAt(x, y, 6) then 6
    else if DifferAt(x, y, 12) then 12
    else if DifferAt(x, y, 13) then 13
    else 14
  }

  lemma FieldsDiffer(f: Field, g: Field)
    requires f != g
    ensures DifferAt(FieldName(f), FieldName(g), DifferingPlace(Node(f, 1), Node(g, 1)))
  {
    var a, b := FieldName(f), FieldName(g);
    assert f.Id? ==> a[12] == 'i' && a[13] == 'd';
    assert f.Ip? ==> a[12] == 'i' && a[13] == 'p';
    assert f.Port? ==> a[12] == 'p' && a[13] == 'o' && a[14] == 'r';
    assert f.Poto? ==> a[12] == 'p' && a[13] == 'o' && a[14] == 't';
    assert f.Expires? ==> a[12] == 'e';
    assert g.Id? ==> b[12] == 'i' && b[13] == 'd';
    assert g.Ip? ==> b[12] == 'i' && b[13] == 'p';
    assert g.Port? ==> b[12] == 'p' && b[13] == 'o' && b[14] == 'r';
    assert g.Poto? ==> b[12] == 'p' && b[13] == 'o' && b[14] == 't';
    assert g.Expires? ==> b[12] == 'e';
  }

  lemma BasesDiffer(a: Key, b: Key)
    requires a != b && !(a.Node? && b.Node?)
    ensures DifferAt(KeyBase(a), KeyBase(b), DifferingPlace(a, b))
  {
    BaseChars(a);
    BaseChars(b);
  }

  lemma BaseChars(k: Key)
    ensures var x := KeyBase(k);
            |x| >= 6 &&
            (k.LocalIp? ==> |x| == 8 && x[0] == 'l' && x[6] == 'i') &&
            (k.LocalPort? ==> |x| == 10 && x[0] == 'l' && x[6] == 'p') &&
            (k.SipId? ==> x[0] == 's' && x[1] == 'i' && x[4] == 'i' && x[5] == 'd') &&
            (k.SipIp? ==> x[0] == 's' && x[1] == 'i' && x[4] == 'i' && x[5] == 'p') &&
            (k.SipPort? ==> x[0] == 's' && x[1] == 'i' && x[4] == 'p') &&
            (k.NodeNum? ==> x[0] == 's' && x[1] == 'u') &&
            (k.Node? ==> x[0] == 's' && x[1] == 'i' && x[4] == 's')
  {
    match k
    case Node(f, _) => match f { case Id => case Ip => case Port => case Poto => case Expires => }
    case _ =>
  }

  /** A line with key `a` answers a request for key `b`. */
  predicate Fits(a: Key, b: Key) {
    if a.Node? && b.Node? then a.field == b.field && CiPrefix(Decimal(a.number), Decimal(b.number)) else a == b
  }

  lemma DifferNotPrefix(a: string, x: string, b: string, y: string, i: nat)
    requires DifferAt(a, b, i)
    ensures !CiPrefix(a + x, b + y)
  {
    assert (a + x)[i] == a[i] && (b + y)[i] == b[i];
  }

  lemma SameStartPrefix(a: string, x: string, y: string)
    ensures CiPrefix(a + x, a + y) <==> CiPrefix(x, y)
  {
    if CiPrefix(a + x, a + y) {
      forall i | 0 <= i < |x| ensures Lower(x[i]) == Lower(y[i]) {
        assert (a + x)[|a| + i] == x[i] && (a + y)[|a| + i] == y[i];
      }
    }
  }

  /** Node keys fit by their number's digits, other keys only themselves. */
  lemma KeysFit(a: Key, b: Key)
    ensures CiPrefix(KeyName(a), KeyName(b)) <==> Fits(a, b)
  {
    hide KeyBase, FieldName, Decimal, CiPrefix, DifferAt, DifferingPlace;
    var x, y := if a.Node? then Decimal(a.number) else "", if b.Node? then Decimal(b.number) else "";
    if a.Node? && b.Node? && a.field != b.field {
      FieldsDiffer(a.field, b.field);
      BaseOfNode(a);
      BaseOfNode(b);
      DifferNotPrefix(FieldName(a.field), x, FieldName(b.field), y, DifferingPlace(Node(a.field, 1), Node(b.field, 1)));
    } else if a != b && !(a.Node? && b.Node?) {
      BasesDiffer(a, b);
      DifferNotPrefix(KeyBase(a), x, KeyBase(b), y, DifferingPlace(a, b));
    } else {
      if a.Node? && b.Node? {
        BaseOfNode(a);
        BaseOfNode(b);
      }
      SameStartPrefix(KeyBase(a), x, y);
      NothingIsPrefix("");
    }
  }

  lemma BaseOfNode(k: Key)
    requires k.Node?
    ensures KeyBase(k) == FieldName(k.field)
  {
  }

  lemma NothingIsPrefix(y: string)
    ensures CiPrefix("", y)
  {
  }

  /** A one-digit number is a prefix of exactly the numbers that begin with it. */
  lemma OneDigitFits(j: nat, i: nat)
    requires 0 < j < 10 && 0 < i
    ensures CiPrefix(Decimal(j), Decimal(i)) <==> j == Lead(i)
  {
    DecimalLeads(i);
    assert Decimal(j) == [DigitChar(j)];
    assert Digit(Decimal(i)[0]) && Lower(Decimal(i)[0]) == Decimal(i)[0] && Lower(DigitChar(j)) == DigitChar(j);
  }

  // ---- the configuration and its file

  datatype NodeInfo = NodeInfo(id: string, ip: string, port: int, poto: int, expires: int)

  datatype Config = Config(localIp: string, localPort: int, sipId: string, sipIp: string, sipPort: int,
    nodes: seq<NodeInfo>)

  predicate GoodText(s: string) { s != "" && OneWord(s) && |s| <= 1023 }

  predicate OneWord(s: string) { OneLine(s) && ' ' !in s && '\t' !in s }

  predicate GoodInt(n: int) { 0 <= n < INT_LIMIT }

  predicate GoodNode(n: NodeInfo) {
    GoodText(n.id) && GoodText(n.ip) && GoodInt(n.port) && GoodInt(n.poto) && GoodInt(n.expires)
  }

  predicate GoodConfig(c: Config) {
    && GoodText(c.localIp) && GoodInt(c.localPort) && c.localPort > 0
    && GoodText(c.sipId) && GoodText(c.sipIp) && GoodInt(c.sipPort) && c.sipPort > 0
    && |c.nodes| < INT_LIMIT && forall i :: 0 <= i < |c.nodes| ==> GoodNode(c.nodes[i])
  }

  /** A key of the configuration: node numbers run from 1 to the number of nodes. */
  predicate KeyOf(k: Key, n: nat) {
    k.Node? ==> 1 <= k.number <= n
  }

  predicate TextKey(k: Key) {
    k.LocalIp? || k.SipId? || k.SipIp? || (k.Node? && (k.field.Id? || k.field.Ip?))
  }

  function TextOf(c: Config, k: Key): string
    requires KeyOf(k, |c.nodes|) && TextKey(k)
  {
    match k
    case LocalIp => c.localIp
    case SipId => c.sipId
    case SipIp => c.sipIp
    case Node(f, i) => if f.Id? then c.nodes[i - 1].id else c.nodes[i - 1].ip
  }

  function NumberOf(c: Config, k: Key): int
    requires KeyOf(k, |c.nodes|) && !TextKey(k)
  {
    match k
    case LocalPort => c.localPort
    case SipPort => c.sipPort
    case NodeNum => |c.nodes|
    case Node(f, i) =>
      if f.Port? then c.nodes[i - 1].port else if f.Poto? then c.nodes[i - 1].poto else c.nodes[i - 1].expires
  }

  function Written(c: Config, k: Key): string
    requires GoodConfig(c) && KeyOf(k, |c.nodes|)
  {
    if TextKey(k) then TextOf(c, k) else assert NumberOf(c, k) >= 0 by { NumberGood(c, k); } Decimal(NumberOf(c, k))
  }

  lemma NumberGood(c: Config, k: Key)
    requires GoodConfig(c) && KeyOf(k, |c.nodes|) && !TextKey(k)
    ensures GoodInt(NumberOf(c, k))
  {
    if k.Node? { assert GoodNode(c.nodes[k.number - 1]); }
  }

  lemma TextGood(c: Config, k: Key)
    requires GoodConfig(c) && KeyOf(k, |c.nodes|) && TextKey(k)
    ensures GoodText(TextOf(c, k))
  {
    if k.Node? { assert GoodNode(c.nodes[k.number - 1]); }
  }

  /**
   A line with a key, the blanks around its `=` and what comes after the value's first word,
   or a blank or comment line.
   */
  datatype ConfLine = KeyLine(key: Key, before: string, after: string, tail: string) | Other(text: string)

  /** Blanks, or anything that begins with a blank. */
  predicate GoodTail(tail: string) { OneLine(tail) && (tail != "" ==> tail[0] == ' ' || tail[0] == '\t') }

  predicate GoodLine(x: ConfLine) {
    match x
    case KeyLine(_, before, after, tail) => AllBlank(before) && AllBlank(after) && GoodTail(tail)
    case Other(text) => GoodFiller(text)
  }

  predicate GoodLines(xs: seq<ConfLine>) { forall i :: 0 <= i < |xs| ==> GoodLine(xs[i]) }

  function Keys(xs: seq<ConfLine>): seq<Key> {
    if xs == [] then [] else (if xs[0].KeyLine? then [xs[0].key] else []) + Keys(xs[1..])
  }

  /**
   How a file is laid out: lines ahead of the sections, the lines of each section, which
   section comes first, and the line ends.
   */
  datatype Layout = Layout(head: seq<string>, localLines: seq<ConfLine>, sipLines: seq<ConfLine>, sipFirst: bool,
    eol: string) {
    function LocalKeys(): seq<Key> { Keys(localLines) }

    function SipKeys(): seq<Key> { Keys(sipLines) }

    function LinesWith(b: Key): seq<ConfLine> {
      if InLocal(b) then localLines else sipLines
    }
  }

  predicate InLocal(k: Key) { k.LocalIp? || k.LocalPort? }

  /** The keys are those of the section, with node numbers up to `n`. */
  predicate KeysOf(ks: seq<Key>, n: nat, inLocal: bool) {
    forall i :: 0 <= i < |ks| ==> KeyOf(ks[i], n) && InLocal(ks[i]) == inLocal
  }

  /** Every line with a key carries one of its section, in any order, and no key is left out. */
  ghost predicate GoodLayout(l: Layout, n: nat) {
    && GoodEnd(l.eol) && GoodLines(l.localLines) && GoodLines(l.sipLines)
    && (forall i :: 0 <= i < |l.head| ==> GoodFiller(l.head[i]))
    && KeysOf(l.LocalKeys(), n, true) && KeysOf(l.SipKeys(), n, false)
    && (forall k: Key {:trigger KeyOf(k, n)} :: KeyOf(k, n) ==> k in Keys(l.LinesWith(k)))
  }

  /** A line's key is among the keys, and every key comes from a line. */
  lemma {:induction false} KeysOfLines(xs: seq<ConfLine>)
    ensures forall i :: 0 <= i < |xs| && xs[i].KeyLine? ==> xs[i].key in Keys(xs)
    ensures forall k :: k in Keys(xs) ==> exists i :: 0 <= i < |xs| && xs[i] .KeyLine? && xs[i].key == k
    decreases |xs|
  {
    if xs != [] {
      KeysOfLines(xs[1..]);
      forall k | k in Keys(xs) ensures exists i :: 0 <= i < |xs| && xs[i].KeyLine? && xs[i].key == k {
        if k in Keys(xs[1..]) {
          var i :| 0 <= i < |xs| - 1 && xs[1..][i].KeyLine? && xs[1..][i].key == k;
          assert xs[i + 1].KeyLine? && xs[i + 1].key == k;
        }
      }
    }
  }

  /** All keys of the lines have node numbers up to `n`. */
  predicate LinesOf(xs: seq<ConfLine>, n: nat) {
    forall i :: 0 <= i < |xs| && xs[i].KeyLine? ==> KeyOf(xs[i].key, n)
  }

  lemma LayoutLines(l: Layout, n: nat)
    requires GoodLayout(l, n)
    ensures LinesOf(l.localLines, n) && LinesOf(l.sipLines, n)
  {
    hide Keys;
    KeysOfLines(l.localLines);
    KeysOfLines(l.sipLines);
  }

  function EntryFor(c: Config, k: Key, before: string, after: string, tail: string): Entry
    requires GoodConfig(c) && KeyOf(k, |c.nodes|)
  {
    Entry(KeyName(k), before, after, Written(c, k) + tail)
  }

  function LineEntry(c: Config, x: ConfLine): Entry
    requires GoodConfig(c) && (x.KeyLine? ==> KeyOf(x.key, |c.nodes|))
  {
    match x
    case KeyLine(k, before, after, tail) => EntryFor(c, k, before, after, tail)
    case Other(text) => Filler(text)
  }

  function EntriesFor(c: Config, xs: seq<ConfLine>): (es: seq<Entry>)
    requires GoodConfig(c) && LinesOf(xs, |c.nodes|)
    ensures |es| == |xs| && forall i :: 0 <= i < |xs| ==> es[i] == LineEntry(c, xs[i])
  {
    seq(|xs|, i requires 0 <= i < |xs| => LineEntry(c, xs[i]))
  }

  function LocalSec(c: Config, l: Layout): Sec
    requires GoodConfig(c) && GoodLayout(l, |c.nodes|)
  {
    LayoutLines(l, |c.nodes|);
    Sec(LOCAL_SECTION, EntriesFor(c, l.localLines))
  }

  function SipSec(c: Config, l: Layout): Sec
    requires GoodConfig(c) && GoodLayout(l, |c.nodes|)
  {
    LayoutLines(l, |c.nodes|);
    Sec(SIP_SECTION, EntriesFor(c, l.sipLines))
  }

  function FileSecs(c: Config, l: Layout): seq<Sec>
    requires GoodConfig(c) && GoodLayout(l, |c.nodes|)
  {
    if l.sipFirst then [SipSec(c, l), LocalSec(c, l)] else [LocalSec(c, l), SipSec(c, l)]
  }

  function Head(l: Layout): (es: seq<Entry>)
    ensures |es| == |l.head| && forall i :: 0 <= i < |es| ==> es[i] == Filler(l.head[i])
  {
    seq(|l.head|, i requires 0 <= i < |l.head| => Filler(l.head[i]))
  }

  function FileText(c: Config, l: Layout): string
    requires GoodConfig(c) && GoodLayout(l, |c.nodes|)
  {
    RenderFile(Head(l), FileSecs(c, l), l.eol)
  }

  predicate PlainChar(c: char) { 'a' <= c <= 'z' || c == '_' || Digit(c) }

  lemma FieldNamePlain(f: Field)
    ensures FieldName(f)[0] == 's' && forall i :: 0 <= i < |FieldName(f)| ==> PlainChar(FieldName(f)[i])
  {
    match f { case Id => case Ip => case Port => case Poto => case Expires => }
  }

  lemma KeyBasePlain(k: Key)
    ensures KeyBase(k) != "" && 'a' <= KeyBase(k)[0] <= 'z'
    ensures forall i :: 0 <= i < |KeyBase(k)| ==> PlainChar(KeyBase(k)[i])
  {
    if k.Node? { FieldNamePlain(k.field); }
    match k {
      case LocalIp =>
      case LocalPort =>
      case SipId =>
      case SipIp =>
      case SipPort =>
      case NodeNum =>
      case Node(_, _) =>
    }
  }

  lemma KeyNameGood(k: Key)
    ensures GoodKey(KeyName(k)) && NoNul(KeyName(k)) && KeyName(k) != ""
  {
    hide KeyBase;
    KeyBasePlain(k);
    assert forall i :: 0 <= i < |KeyName(k)| ==> PlainChar(KeyName(k)[i]);
  }

  lemma WrittenWord(c: Config, k: Key)
    requires GoodConfig(c) && KeyOf(k, |c.nodes|)
    ensures OneWord(Written(c, k)) && Written(c, k) != ""
  {
    hide GoodConfig, TextOf, NumberOf;
    if TextKey(k) { TextGood(c, k); } else { NumberGood(c, k); }
  }

  lemma EntryGood(c: Config, k: Key, before: string, after: string, tail: string)
    requires GoodConfig(c) && KeyOf(k, |c.nodes|) && AllBlank(before) && AllBlank(after) && GoodTail(tail)
    ensures GoodEntry(EntryFor(c, k, before, after, tail))
  {
    hide KeyName, GoodConfig, Written, GoodKey;
    KeyNameGood(k);
    WrittenWord(c, k);
  }

  // ---- which line answers a request

  /** The key of the first line that answers a request for `b`. */
  function FirstKey(ks: seq<Key>, b: Key): Option<Key> {
    if ks == [] then None else if Fits(ks[0], b) then Some(ks[0]) else FirstKey(ks[1..], b)
  }

  lemma {:induction false} FirstKeyIs(ks: seq<Key>, b: Key, k: Key, p: nat)
    requires p < |ks| && ks[p] == k && Fits(k, b)
    requires forall q :: 0 <= q < p && Fits(ks[q], b) ==> ks[q] == k
    ensures FirstKey(ks, b) == Some(k)
    decreases p
  {
    if p > 0 && !Fits(ks[0], b) {
      assert forall q :: 0 <= q < p - 1 ==> ks[1..][q] == ks[q + 1];
      FirstKeyIs(ks[1..], b, k, p - 1);
    }
  }

  lemma FitsItself(k: Key)
    ensures Fits(k, k)
  {
  }

  /** A key with a line of its own is answered, by a line of the same kind. */
  lemma {:induction false} FirstKeyFits(ks: seq<Key>, b: Key)
    ensures b in ks ==> FirstKey(ks, b).Some?
    ensures FirstKey(ks, b).Some? ==> Fits(FirstKey(ks, b).value, b) && FirstKey(ks, b).value in ks
    decreases |ks|
  {
    hide Fits;
    FitsItself(b);
    if ks != [] { FirstKeyFits(ks[1..], b); }
  }

  /** What follows the value's first word on the line that answers a request for `b`. */
  function FirstTail(xs: seq<ConfLine>, b: Key): string {
    if xs == [] then "" else if xs[0].KeyLine? && Fits(xs[0].key, b) then xs[0].tail else FirstTail(xs[1..], b)
  }

  lemma {:induction false} FirstTailGood(xs: seq<ConfLine>, b: Key)
    requires GoodLines(xs)
    ensures GoodTail(FirstTail(xs, b))
    decreases |xs|
  {
    hide Fits;
    if xs != [] {
      assert GoodLine(xs[0]);
      FirstTailGood(xs[1..], b);
    }
  }

  lemma {:induction false} FirstValueIsFirstKey(c: Config, xs: seq<ConfLine>, b: Key)
    requires GoodConfig(c) && LinesOf(xs, |c.nodes|)
    ensures FirstKey(Keys(xs), b).Some? ==> KeyOf(FirstKey(Keys(xs), b).value, |c.nodes|)
    ensures FirstValue(EntriesFor(c, xs), KeyName(b)) ==
            if FirstKey(Keys(xs), b).Some? then Some(Written(c, FirstKey(Keys(xs), b).value) + FirstTail(xs, b))
              else None
    decreases |xs|
  {
    hide GoodConfig, KeyName, Written, Fits, CiPrefix;
    var es := EntriesFor(c, xs);
    if xs != [] {
      assert es[0] == LineEntry(c, xs[0]) && es[1..] == EntriesFor(c, xs[1..]);
      FirstValueIsFirstKey(c, xs[1..], b);
      if xs[0].KeyLine? {
        KeysFit(xs[0].key, b);
        assert KeyOf(xs[0].key, |c.nodes|) && Keys(xs)[1..] == Keys(xs[1..]);
      } else {
        assert Keys(xs) == Keys(xs[1..]);
      }
    }
  }

  /** The line a key's number leads to when node lines ascend: the one with its leading digit. */
  function LeadKey(b: Key): Key {
    if b.Node? then Node(b.field, Lead(b.number)) else b
  }

  /** Lines with the same node field come in ascending order of their numbers. */
  ghost predicate Ascending(ks: seq<Key>) {
    forall p, q :: 0 <= p < q < |ks| && ks[p].Node? && ks[q].Node? && ks[p].field == ks[q].field ==>
      ks[p].number <= ks[q].number
  }

  /** With at most nine nodes in any order, or with ascending node lines, the leading digit decides. */
  lemma FirstKeyIsLeadKey(ks: seq<Key>, n: nat, b: Key)
    requires (forall i :: 0 <= i < |ks| ==> KeyOf(ks[i], n)) && LeadKey(b) in ks && KeyOf(b, n)
    requires n <= 9 || Ascending(ks)
    ensures FirstKey(ks, b) == Some(LeadKey(b))
  {
    var k := LeadKey(b);
    var p :| 0 <= p < |ks| && ks[p] == k;
    if b.Node? { OneDigitFits(k.number, b.number); }
    forall q | 0 <= q < p && Fits(ks[q], b) ensures ks[q] == k {
      if b.Node? {
        assert KeyOf(ks[q], n) && ks[q].Node? && ks[q].number <= 9;
        OneDigitFits(ks[q].number, b.number);
      }
    }
    FirstKeyIs(ks, b, k, p);
  }

  lemma SectionsApart()
    ensures !CiPrefix(LOCAL_SECTION, SIP_SECTION) && !CiPrefix(SIP_SECTION, LOCAL_SECTION)
    ensures CiPrefix(LOCAL_SECTION, LOCAL_SECTION) && CiPrefix(SIP_SECTION, SIP_SECTION)
  {
    assert Lower(LOCAL_SECTION[0]) == 'l' && Lower(SIP_SECTION[0]) == 's';
  }

  function SectionOf(k: Key): string {
    if InLocal(k) then LOCAL_SECTION else SIP_SECTION
  }

  lemma LinesEntriesGood(c: Config, xs: seq<ConfLine>)
    requires GoodConfig(c) && LinesOf(xs, |c.nodes|) && GoodLines(xs)
    ensures forall i :: 0 <= i < |xs| ==> GoodEntry(EntriesFor(c, xs)[i])
  {
    hide GoodConfig, Written, KeyName, GoodFiller, AllBlank, GoodKey;
    forall i | 0 <= i < |xs| ensures GoodEntry(EntriesFor(c, xs)[i]) {
      assert GoodLine(xs[i]);
      if xs[i].KeyLine? { EntryGood(c, xs[i].key, xs[i].before, xs[i].after, xs[i].tail); }
    }
  }

  lemma FileGood(c: Config, l: Layout)
    requires GoodConfig(c) && GoodLayout(l, |c.nodes|)
    ensures GoodHead(Head(l)) && forall i :: 0 <= i < |FileSecs(c, l)| ==> GoodSec(FileSecs(c, l)[i])
  {
    hide GoodConfig, GoodEntry, GoodLine, Keys, EntriesFor, GoodFiller;
    LayoutLines(l, |c.nodes|);
    LinesEntriesGood(c, l.localLines);
    LinesEntriesGood(c, l.sipLines);
    FillersGood(l.head);
  }

  lemma FillersGood(ts: seq<string>)
    ensures forall i :: 0 <= i < |ts| && GoodFiller(ts[i]) ==> GoodEntry(Filler(ts[i]))
  {
    hide GoodFiller;
  }

  /** The key whose line answers a request for `b`. */
  function LineFor(l: Layout, n: nat, b: Key): (k: Key)
    requires GoodLayout(l, n) && KeyOf(b, n)
    ensures KeyOf(k, n) && Fits(k, b) && (b.Node? ==> FirstKey(l.SipKeys(), b) == Some(k))
  {
    var ks := Keys(l.LinesWith(b));
    FirstKeyFits(ks, b);
    FirstKey(ks, b).value
  }

  /** What a lookup in the written file gives, for every key and every layout. */
  lemma FileValue(c: Config, l: Layout, b: Key)
    requires GoodConfig(c) && GoodLayout(l, |c.nodes|) && KeyOf(b, |c.nodes|)
    ensures Value(FileText(c, l), SectionOf(b), KeyName(b)) ==
            Some(Written(c, LineFor(l, |c.nodes|, b)) + FirstTail(l.LinesWith(b), b))
  {
    hide GoodConfig, Written, KeyName, FirstValue, Value, CiPrefix, RenderFile, EntriesFor, FirstKey, GoodSec,
      GoodHead, Fits, Keys;
    FileGood(c, l);
    WrittenValue(Head(l), FileSecs(c, l), l.eol, SectionOf(b), KeyName(b));
    SectionsApart();
    LayoutLines(l, |c.nodes|);
    FirstKeyFits(Keys(l.LinesWith(b)), b);
    FirstValueIsFirstKey(c, l.LinesWith(b), b);
    TwoSecs(FileSecs(c, l)[0], FileSecs(c, l)[1], SectionOf(b), KeyName(b));
  }

  lemma TwoSecs(x: Sec, y: Sec, section: string, key: string)
    requires CiPrefix(x.name, section) ==> FirstValue(x.entries, key).Some? || !CiPrefix(y.name, section)
    ensures FirstOfSecs([x, y], section, key) ==
            if CiPrefix(x.name, section) then FirstValue(x.entries, key)
            else if CiPrefix(y.name, section) then FirstValue(y.entries, key) else None
  {
    assert [x, y][1..] == [y] && [y][1..] == [];
    assert FirstOfSecs([], section, key) == None;
  }

  // ---- ReadConf

  predicate IsThere(text: string, section: string, key: string) { Value(CText(text), section, key).Some? }

  /** What readStr makes of a key that is there. */
  function TextAt(text: string, section: string, key: string): string
    requires IsThere(text, section, key)
  {
    FirstWord(Clip(Value(CText(text), section, key).value, 1023))
  }

  /** What readInt makes of a key. */
  function NumberAt(text: string, section: string, key: string): int {
    if IsThere(text, section, key) then Atoi(Clip(Value(CText(text), section, key).value, 31)) else -1
  }

  predicate Present(text: string, k: Key) { IsThere(text, SectionOf(k), KeyName(k)) }

  function Text(text: string, k: Key): string
    requires Present(text, k)
  {
    TextAt(text, SectionOf(k), KeyName(k))
  }

  function Number(text: string, k: Key): int { NumberAt(text, SectionOf(k), KeyName(k)) }

  /** The names as the program writes them. */
  lemma KeyNames()
    ensures KeyName(LocalIp) == "local_ip" && KeyName(LocalPort) == "local_port"
    ensures KeyName(SipId) == "sip_id" && KeyName(SipIp) == "sip_ip" && KeyName(SipPort) == "sip_port"
    ensures KeyName(NodeNum) == "supnode_num"
    ensures SectionOf(LocalIp) == SectionOf(LocalPort) == "localserver"
    ensures SectionOf(SipId) == SectionOf(SipIp) == SectionOf(SipPort) == SectionOf(NodeNum) == "sipserver"
  {
    NoNumber(KeyBase(LocalIp));
    NoNumber(KeyBase(LocalPort));
    NoNumber(KeyBase(SipId));
    NoNumber(KeyBase(SipIp));
    NoNumber(KeyBase(SipPort));
    NoNumber(KeyBase(NodeNum));
  }

  lemma NoNumber(base: string)
    ensures base + "" == base
  {
  }

  lemma NodeKeyNames(i: nat)
    ensures KeyName(Node(Id, i)) == "sip_supnode_id" + Decimal(i)
    ensures KeyName(Node(Ip, i)) == "sip_supnode_ip" + Decimal(i)
    ensures KeyName(Node(Port, i)) == "sip_supnode_port" + Decimal(i)
    ensures KeyName(Node(Poto, i)) == "sip_supnode_poto" + Decimal(i)
    ensures KeyName(Node(Expires, i)) == "sip_supnode_expires" + Decimal(i)
    ensures forall f: Field :: SectionOf(Node(f, i)) == "sipserver"
    ensures Decimal(10) == "10"
  {
    assert Decimal(1) == "1";
  }

  ghost predicate ScannableFor(text: string, k: Key) { Scannable(text, SectionOf(k), KeyName(k)) }

  /** The reader can scan the file for every key that it may ask for. */
  ghost predicate Readable(text: string) {
    forall k: Key {:trigger ScannableFor(text, k)} :: (k.Node? ==> 1 <= k.number <= Number(text, NodeNum)) ==>
      ScannableFor(text, k)
  }

  /** A text read in the servers' section; one whose key is missing can be anything. */
  predicate ReadAsText(text: string, key: string, r: string) {
    IsThere(text, "sipserver", key) ==> r == TextAt(text, "sipserver", key)
  }

  /** Node number `i` of a list is read under the keys with that number. */
  predicate NodeRead(text: string, n: NodeInfo, i: nat) {
    && ReadAsText(text, "sip_supnode_id" + Decimal(i), n.id) && ReadAsText(text, "sip_supnode_ip" + Decimal(i), n.ip)
    && n.port == NumberAt(text, "sipserver", "sip_supnode_port" + Decimal(i))
    && n.poto == NumberAt(text, "sipserver", "sip_supnode_poto" + Decimal(i))
    && n.expires == NumberAt(text, "sipserver", "sip_supnode_expires" + Decimal(i))
  }

  predicate NodesRead(text: string, ns: seq<NodeInfo>) {
    forall i :: 0 <= i < |ns| ==> NodeRead(text, ns[i], i + 1)
  }

  class SipLocalConfig {
    const conf: ConfReader
    var localIp: string
    var localPort: int
    var sipId: string
    var sipIp: string
    var sipPort: int
    var upNodeInfoList: seq<NodeInfo>

    constructor (text: string)
      ensures fresh(conf) && conf.text == text && upNodeInfoList == []
      ensures localIp == sipId == sipIp == "" && localPort == sipPort == 0
    {
      conf := new ConfReader(text);
      localIp, localPort, sipId, sipIp, sipPort, upNodeInfoList := "", 0, "", "", 0, [];
    }

    /** readStr of a key in the section that is set. */
    method ReadText(k: Key) returns (r: string)
      requires conf.section == SectionOf(k) && ScannableFor(conf.text, k)
      ensures Present(conf.text, k) ==> r == Text(conf.text, k)
    {
      hide KeyName, Value, Scannable, CText;
      KeyNameGood(k);
      r := conf.ReadStr(KeyName(k));
    }

    method ReadNumber(k: Key) returns (r: int)
      requires conf.section == SectionOf(k) && ScannableFor(conf.text, k)
      ensures r == Number(conf.text, k)
    {
      hide KeyName, Value, Scannable, CText;
      KeyNameGood(k);
      r := conf.ReadInt(KeyName(k));
    }

    method ReadNode(i: nat) returns (n: NodeInfo)
      requires conf.section == SIP_SECTION && Readable(conf.text) && 1 <= i <= Number(conf.text, NodeNum)
      ensures NodeRead(conf.text, n, i)
    {
      hide IsThere, TextAt, NumberAt, ScannableFor, KeyName, SectionOf;
      NodeKeyNames(i);
      var id := ReadText(Node(Id, i));
      var ip := ReadText(Node(Ip, i));
      var port := ReadNumber(Node(Port, i));
      var poto := ReadNumber(Node(Poto, i));
      var expires := ReadNumber(Node(Expires, i));
      return NodeInfo(id, ip, port, poto, expires);
    }

    method ReadNodes(num: int)
      requires conf.section == SIP_SECTION && Readable(conf.text) && num == Number(conf.text, NodeNum)
      modifies `upNodeInfoList
      ensures |upNodeInfoList| == |old(upNodeInfoList)| + if num > 0 then num else 0
      ensures old(upNodeInfoList) <= upNodeInfoList
      ensures NodesRead(conf.text, upNodeInfoList[|old(upNodeInfoList)|..])
    {
      hide NodeRead, Readable, Number;
      var i := 1;
      ghost var was := |upNodeInfoList|;
      while i < num + 1
        invariant 1 <= i && (num > 0 ==> i <= num + 1) && (num <= 0 ==> i == 1)
        invariant |upNodeInfoList| == was + i - 1 && old(upNodeInfoList) <= upNodeInfoList
        invariant NodesRead(conf.text, upNodeInfoList[was..])
      {
        var info := ReadNode(i);
        upNodeInfoList := upNodeInfoList + [info];
        i := i + 1;
      }
    }

    /**
     Reads key after key and stops with -1 at the first that is empty or not positive; the
     fields after it keep what they were.
     */
    method ReadConf() returns (ret: int)
      requires Readable(conf.text)
      modifies this, conf
      ensures IsThere(conf.text, "localserver", "local_ip") ==>
        localIp == TextAt(conf.text, "localserver", "local_ip")
      ensures localPort ==
        if localIp == "" then old(localPort) else NumberAt(conf.text, "localserver", "local_port")
      ensures localIp == "" || localPort <= 0 ==> ret == -1 && sipId == old(sipId)
      ensures localIp != "" && localPort > 0 ==> ReadAsText(conf.text, "sip_id", sipId)
      ensures localIp == "" || localPort <= 0 || sipId == "" ==> ret == -1 && sipIp == old(sipIp)
      ensures localIp != "" && localPort > 0 && sipId != "" ==> ReadAsText(conf.text, "sip_ip", sipIp)
      ensures localIp == "" || localPort <= 0 || sipId == "" || sipIp == "" ==> ret == -1 && sipPort == old(sipPort)
      ensures localIp != "" && localPort > 0 && sipId != "" && sipIp != "" ==>
        sipPort == NumberAt(conf.text, "sipserver", "sip_port")
      ensures ret == 0 <==> localIp != "" && localPort > 0 && sipId != "" && sipIp != "" && sipPort > 0
      ensures ret != 0 ==> ret == -1 && upNodeInfoList == old(upNodeInfoList)
      ensures ret == 0 ==> var num := NumberAt(conf.text, "sipserver", "supnode_num");
                           |upNodeInfoList| == |old(upNodeInfoList)| + (if num > 0 then num else 0) &&
                           old(upNodeInfoList) <= upNodeInfoList &&
                           NodesRead(conf.text, upNodeInfoList[|old(upNodeInfoList)|..])
    {
      hide IsThere, TextAt, NumberAt, NodesRead, ScannableFor, KeyName, SectionOf;
      KeyNames();
      conf.SetSection(LOCAL_SECTION);
      localIp := ReadText(LocalIp);
      if localIp == "" { return -1; }
      localPort := ReadNumber(LocalPort);
      if localPort <= 0 { return -1; }
      conf.SetSection(SIP_SECTION);
      sipId := ReadText(SipId);
      if sipId == "" { return -1; }
      sipIp := ReadText(SipIp);
      if sipIp == "" { return -1; }
      sipPort := ReadNumber(SipPort);
      if sipPort <= 0 { return -1; }
      var num := ReadNumber(NodeNum);
      ReadNodes(num);
      return 0;
    }
  }

  // ---- a written file read back

  lemma FirstWordRead(w: string, tail: string)
    requires GoodText(w) && GoodTail(tail)
    ensures FirstWord(Clip(w + tail, 1023)) == w
  {
    FirstWordIs(Clip(w + tail, 1023), w);
  }

  lemma NumberIsRead(n: nat, tail: string)
    requires n < INT_LIMIT && GoodTail(tail)
    ensures Atoi(Clip(Decimal(n) + tail, 31)) == n
  {
    IntFits(n);
    var v := Clip(Decimal(n) + tail, 31);
    assert v == Decimal(n) + v[|Decimal(n)|..];
    AtoiDecimal(n, v[|Decimal(n)|..]);
  }

  lemma FileNoNul(c: Config, l: Layout)
    requires GoodConfig(c) && GoodLayout(l, |c.nodes|)
    ensures NoNul(FileText(c, l)) && CText(FileText(c, l)) == FileText(c, l)
  {
    hide GoodConfig, FileSecs, RenderFile, NoNul, GoodSec, GoodHead;
    FileGood(c, l);
    FileTextNoNul(Head(l), FileSecs(c, l), l.eol);
  }

  lemma LayoutLinesGood(l: Layout, n: nat, b: Key)
    requires GoodLayout(l, n)
    ensures GoodLines(l.LinesWith(b))
  {
  }

  /** What each kind of read makes of a key of the written file. */
  lemma WrittenRead(c: Config, l: Layout, b: Key)
    requires GoodConfig(c) && GoodLayout(l, |c.nodes|) && KeyOf(b, |c.nodes|)
    ensures Present(FileText(c, l), b)
    ensures var k := LineFor(l, |c.nodes|, b);
            && TextKey(k) == TextKey(b) && (!b.Node? ==> k == b)
            && if TextKey(b) then Text(FileText(c, l), b) == TextOf(c, k)
              else Number(FileText(c, l), b) == NumberOf(c, k)
  {
    hide GoodConfig, FileText, Value, KeyName, GoodLayout, SectionOf, Atoi, FirstWord, Decimal, LineFor, CText;
    FileValue(c, l, b);
    FileNoNul(c, l);
    var k := LineFor(l, |c.nodes|, b);
    assert GoodLines(l.LinesWith(b)) by { LayoutLinesGood(l, |c.nodes|, b); }
    FirstTailGood(l.LinesWith(b), b);
    if TextKey(b) {
      TextGood(c, k);
      FirstWordRead(TextOf(c, k), FirstTail(l.LinesWith(b), b));
    } else {
      NumberGood(c, k);
      NumberIsRead(NumberOf(c, k), FirstTail(l.LinesWith(b), b));
    }
  }

  /** The loader asserts that the file fits its buffer with an ending zero byte. */
  predicate Loads(c: Config, l: Layout)
    requires GoodConfig(c) && GoodLayout(l, |c.nodes|)
  {
    |FileText(c, l)| < MAX_INI_FILE_SIZE
  }

  /** A written file that loads can be scanned for all its keys. */
  lemma WrittenReadable(c: Config, l: Layout)
    requires GoodConfig(c) && GoodLayout(l, |c.nodes|)
    ensures Readable(FileText(c, l)) <==> Loads(c, l)
  {
    hide GoodConfig, GoodLayout, FileText, KeyName, SectionOf, Number, CText, LineFor;
    FileNoNul(c, l);
    WrittenRead(c, l, NodeNum);
    assert LineFor(l, |c.nodes|, NodeNum) == NodeNum;
    forall k: Key | k.Node? ==> 1 <= k.number <= Number(FileText(c, l), NodeNum)
      ensures ScannableFor(FileText(c, l), k) <==> Loads(c, l)
    {
      WrittenScannable(c, l, k);
    }
    if Readable(FileText(c, l)) { assert ScannableFor(FileText(c, l), NodeNum); }
  }

  lemma WrittenScannable(c: Config, l: Layout, k: Key)
    requires GoodConfig(c) && GoodLayout(l, |c.nodes|) && KeyOf(k, |c.nodes|)
    ensures ScannableFor(FileText(c, l), k) <==> Loads(c, l)
  {
    hide GoodConfig, GoodLayout, FileText, KeyName, SectionOf, CText, LineFor, Scannable, Value, Lookup, StepsPast;
    FileNoNul(c, l);
    FileValue(c, l, k);
    NotFoundNoValue(FileText(c, l), SectionOf(k), KeyName(k));
    ScannableIff(FileText(c, l), SectionOf(k), KeyName(k));
  }

  /** The number whose line is read for field `f` of node `i`. */
  function NumberRead(l: Layout, n: nat, f: Field, i: nat): (j: nat)
    requires GoodLayout(l, n) && 1 <= i <= n
    ensures 1 <= j <= n && FirstKey(l.SipKeys(), Node(f, i)) == Some(Node(f, j))
  {
    LineFor(l, n, Node(f, i)).number
  }

  /** The node that comes back under number `i`, each field from the line that is read for it. */
  function NodeBack(ns: seq<NodeInfo>, l: Layout, i: nat): NodeInfo
    requires GoodLayout(l, |ns|) && 1 <= i <= |ns|
  {
    NodeInfo(ns[NumberRead(l, |ns|, Id, i) - 1].id, ns[NumberRead(l, |ns|, Ip, i) - 1].ip,
      ns[NumberRead(l, |ns|, Port, i) - 1].port, ns[NumberRead(l, |ns|, Poto, i) - 1].poto,
      ns[NumberRead(l, |ns|, Expires, i) - 1].expires)
  }

  predicate IsReadBack(ns: seq<NodeInfo>, l: Layout, back: seq<NodeInfo>)
    requires GoodLayout(l, |ns|)
  {
    |back| == |ns| && forall i :: 0 <= i < |ns| ==> back[i] == NodeBack(ns, l, i + 1)
  }

  lemma NodeReadBack(c: Config, l: Layout, n: NodeInfo, i: nat)
    requires GoodConfig(c) && GoodLayout(l, |c.nodes|) && 1 <= i <= |c.nodes|
    requires NodeRead(FileText(c, l), n, i)
    ensures n == NodeBack(c.nodes, l, i)
  {
    hide GoodConfig, GoodLayout, FileText, IsThere, TextAt, NumberAt, FirstKey, KeyName, SectionOf;
    NodeKeyNames(i);
    WrittenRead(c, l, Node(Id, i));
    WrittenRead(c, l, Node(Ip, i));
    WrittenRead(c, l, Node(Port, i));
    WrittenRead(c, l, Node(Poto, i));
    WrittenRead(c, l, Node(Expires, i));
  }

  lemma NodesReadBack(c: Config, l: Layout, ns: seq<NodeInfo>)
    requires GoodConfig(c) && GoodLayout(l, |c.nodes|) && |ns| == |c.nodes|
    requires NodesRead(FileText(c, l), ns)
    ensures IsReadBack(c.nodes, l, ns)
  {
    hide GoodConfig, GoodLayout, FileText, NodeRead, NodeBack;
    forall i | 0 <= i < |ns| ensures ns[i] == NodeBack(c.nodes, l, i + 1) {
      NodeReadBack(c, l, ns[i], i + 1);
    }
  }

  // ---- any configuration file

  /** What readInt makes of the first answering line, -1 without one. */
  function NumberIn(v: Option<string>): int {
    if v.Some? then Atoi(Clip(v.value, 31)) else -1
  }

  /** What readStr makes of it, if there is one. */
  predicate IsWordOf(v: Option<string>, r: string) { v.Some? ==> r == FirstWord(Clip(v.value, 1023)) }

  /** A key of a rendered file is read from the first entry whose names fit. */
  lemma RenderedRead(head: seq<Entry>, ss: seq<Sec>, eol: string, section: string, key: string)
    requires GoodEnd(eol) && GoodHead(head) && forall i :: 0 <= i < |ss| ==> GoodSec(ss[i])
    ensures IsThere(RenderFile(head, ss, eol), section, key) <==> FirstOfSecs(ss, section, key).Some?
    ensures IsThere(RenderFile(head, ss, eol), section, key) ==>
              IsWordOf(FirstOfSecs(ss, section, key), TextAt(RenderFile(head, ss, eol), section, key))
    ensures NumberAt(RenderFile(head, ss, eol), section, key) == NumberIn(FirstOfSecs(ss, section, key))
  {
    hide GoodSec, GoodHead, Value, RenderFile, FirstOfSecs, Atoi, FirstWord, CText;
    FileTextNoNul(head, ss, eol);
    WrittenValue(head, ss, eol, section, key);
  }

  /** Every rendered file that leaves two places of the buffer free can be read. */
  lemma RenderedReadable(head: seq<Entry>, ss: seq<Sec>, eol: string)
    requires GoodEnd(eol) && GoodHead(head) && forall i :: 0 <= i < |ss| ==> GoodSec(ss[i])
    ensures |RenderFile(head, ss, eol)| <= 10238 ==> Readable(RenderFile(head, ss, eol))
    ensures Readable(RenderFile(head, ss, eol)) ==> |RenderFile(head, ss, eol)| <= 10239
  {
    hide GoodSec, GoodHead, RenderFile, SectionOf, KeyName, Scannable, CText, StepsPast;
    var t := RenderFile(head, ss, eol);
    FileTextNoNul(head, ss, eol);
    forall k: Key ensures |t| <= 10238 ==> ScannableFor(t, k) { ScannableIff(t, SectionOf(k), KeyName(k)); }
    ScannableIff(t, SectionOf(NodeNum), KeyName(NodeNum));
    if Readable(t) { assert ScannableFor(t, NodeNum); }
  }

  /**
   Every field of the configuration is read from the first line, in a section of its own
   name, whose key is its own name, letter case and shorter keys aside.
   */
  method ReadAnyFile(head: seq<Entry>, ss: seq<Sec>, eol: string) returns (ret: int, c: Config)
    requires GoodEnd(eol) && GoodHead(head) && forall i :: 0 <= i < |ss| ==> GoodSec(ss[i])
    requires Readable(RenderFile(head, ss, eol))
    ensures ret == 0 || ret == -1
    ensures IsWordOf(FirstOfSecs(ss, "localserver", "local_ip"), c.localIp)
    ensures c.localIp != "" ==> c.localPort == NumberIn(FirstOfSecs(ss, "localserver", "local_port"))
    ensures c.localIp != "" && c.localPort > 0 ==> IsWordOf(FirstOfSecs(ss, "sipserver", "sip_id"), c.sipId)
    ensures c.sipId != "" ==> IsWordOf(FirstOfSecs(ss, "sipserver", "sip_ip"), c.sipIp)
    ensures c.sipIp != "" ==> c.sipPort == NumberIn(FirstOfSecs(ss, "sipserver", "sip_port"))
    ensures ret == 0 <==> c.localIp != "" && c.localPort > 0 && c.sipId != "" && c.sipIp != "" && c.sipPort > 0
    ensures ret == 0 ==> var num := NumberIn(FirstOfSecs(ss, "sipserver", "supnode_num"));
                         |c.nodes| == if num > 0 then num else 0
    ensures ret != 0 ==> c.nodes == []
    ensures forall i :: 1 <= i <= |c.nodes| ==>
              IsWordOf(FirstOfSecs(ss, "sipserver", "sip_supnode_id" + Decimal(i)), c.nodes[i - 1].id)
    ensures forall i :: 1 <= i <= |c.nodes| ==>
              IsWordOf(FirstOfSecs(ss, "sipserver", "sip_supnode_ip" + Decimal(i)), c.nodes[i - 1].ip)
    ensures forall i :: 1 <= i <= |c.nodes| ==>
              c.nodes[i - 1].port == NumberIn(FirstOfSecs(ss, "sipserver", "sip_supnode_port" + Decimal(i)))
    ensures forall i :: 1 <= i <= |c.nodes| ==>
              c.nodes[i - 1].poto == NumberIn(FirstOfSecs(ss, "sipserver", "sip_supnode_poto" + Decimal(i)))
    ensures forall i :: 1 <= i <= |c.nodes| ==>
              c.nodes[i - 1].expires == NumberIn(FirstOfSecs(ss, "sipserver", "sip_supnode_expires" + Decimal(i)))
  {
    hide Readable, IsThere, TextAt, NumberAt, NodeRead, GoodSec, GoodHead, RenderFile, FirstOfSecs, NumberIn,
      FirstWord, Clip, Decimal;
    ghost var text := RenderFile(head, ss, eol);
    RenderedRead(head, ss, eol, "localserver", "local_ip");
    RenderedRead(head, ss, eol, "localserver", "local_port");
    RenderedRead(head, ss, eol, "sipserver", "sip_id");
    RenderedRead(head, ss, eol, "sipserver", "sip_ip");
    RenderedRead(head, ss, eol, "sipserver", "sip_port");
    RenderedRead(head, ss, eol, "sipserver", "supnode_num");
    var conf := new SipLocalConfig(RenderFile(head, ss, eol));
    ret := conf.ReadConf();
    assert conf.upNodeInfoList[0..] == conf.upNodeInfoList;
    c := Config(conf.localIp, conf.localPort, conf.sipId, conf.sipIp, conf.sipPort, conf.upNodeInfoList);
    forall i | 1 <= i <= |c.nodes|
      ensures NodeOfFile(ss, c.nodes[i - 1], Decimal(i))
    {
      assert NodeRead(text, c.nodes[i - 1], i);
      NodeFromFile(head, ss, eol, c.nodes[i - 1], i);
    }
  }

  /** A node's fields from the lines with its number. */
  predicate NodeOfFile(ss: seq<Sec>, n: NodeInfo, number: string) {
    && IsWordOf(FirstOfSecs(ss, "sipserver", "sip_supnode_id" + number), n.id)
    && IsWordOf(FirstOfSecs(ss, "sipserver", "sip_supnode_ip" + number), n.ip)
    && n.port == NumberIn(FirstOfSecs(ss, "sipserver", "sip_supnode_port" + number))
    && n.poto == NumberIn(FirstOfSecs(ss, "sipserver", "sip_supnode_poto" + number))
    && n.expires == NumberIn(FirstOfSecs(ss, "sipserver", "sip_supnode_expires" + number))
  }

  lemma NodeFromFile(head: seq<Entry>, ss: seq<Sec>, eol: string, n: NodeInfo, i: nat)
    requires GoodEnd(eol) && GoodHead(head) && forall j :: 0 <= j < |ss| ==> GoodSec(ss[j])
    requires NodeRead(RenderFile(head, ss, eol), n, i)
    ensures NodeOfFile(ss, n, Decimal(i))
  {
    hide IsThere, TextAt, NumberAt, GoodSec, GoodHead, RenderFile, FirstOfSecs, NumberIn, FirstWord, Clip, Decimal;
    RenderedRead(head, ss, eol, "sipserver", "sip_supnode_id" + Decimal(i));
    RenderedRead(head, ss, eol, "sipserver", "sip_supnode_ip" + Decimal(i));
    RenderedRead(head, ss, eol, "sipserver", "sip_supnode_port" + Decimal(i));
    RenderedRead(head, ss, eol, "sipserver", "sip_supnode_poto" + Decimal(i));
    RenderedRead(head, ss, eol, "sipserver", "sip_supnode_expires" + Decimal(i));
  }
}
