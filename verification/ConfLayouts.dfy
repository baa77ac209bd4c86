/** Which layouts of a configuration file give its nodes back, and how many nodes fit. */
module ConfLayouts {
  import opened Common
  import opened IniText
  import opened IniReader
  import opened IniWriting
  import opened Numbers
  import opened SipLocalConfig

  // ---- which layouts give the nodes back

  /** Before the first line of a node's key comes no line of that field whose number begins the node's number. */
  ghost predicate OwnLineFirst(ks: seq<Key>, b: Key) {
    exists p :: 0 <= p < |ks| && ks[p] == b && forall q :: 0 <= q < p ==> !Fits(ks[q], b)
  }

  ghost predicate OwnLinesFirst(l: Layout, n: nat) {
    forall b: Key {:trigger OwnLineFirst(l.SipKeys(), b)} :: b.Node? && KeyOf(b, n) ==> OwnLineFirst(l.SipKeys(), b)
  }

  lemma {:induction false} OwnLineIsRead(ks: seq<Key>, b: Key)
    ensures OwnLineFirst(ks, b) <==> FirstKey(ks, b) == Some(b)
    decreases |ks|
  {
    hide Fits;
    FitsItself(b);
    if ks != [] && ks[0] == b {
      OwnLineNow(ks, b);
    } else if ks != [] && !Fits(ks[0], b) {
      OwnLineIsRead(ks[1..], b);
      OwnLineLater(ks, b);
    }
  }

  lemma OwnLineNow(ks: seq<Key>, b: Key)
    requires ks != [] && ks[0] == b
    ensures OwnLineFirst(ks, b)
  {
    hide Fits;
    var p := 0;
    assert ks[p] == b;
  }

  lemma OwnLineLater(ks: seq<Key>, b: Key)
    requires ks != [] && ks[0] != b && !Fits(ks[0], b)
    ensures OwnLineFirst(ks, b) <==> OwnLineFirst(ks[1..], b)
  {
    hide Fits;
    if OwnLineFirst(ks, b) {
      var p :| 0 <= p < |ks| && ks[p] == b && forall q :: 0 <= q < p ==> !Fits(ks[q], b);
      assert ks[1..][p - 1] == b && forall q :: 0 <= q < p - 1 ==> ks[1..][q] == ks[q + 1];
    }
    if OwnLineFirst(ks[1..], b) {
      var p :| 0 <= p < |ks| - 1 && ks[1..][p] == b && forall q :: 0 <= q < p ==> !Fits(ks[1..][q], b);
      assert ks[p + 1] == b && forall q :: 0 < q < p + 1 ==> ks[q] == ks[1..][q - 1];
    }
  }

  lemma OwnLinesReadBack(ns: seq<NodeInfo>, l: Layout, back: seq<NodeInfo>)
    requires GoodLayout(l, |ns|) && OwnLinesFirst(l, |ns|) && IsReadBack(ns, l, back)
    ensures back == ns
  {
    hide GoodLayout, OwnLineFirst, NumberRead;
    forall i | 0 <= i < |ns| ensures back[i] == ns[i] {
      OwnNumberRead(l, |ns|, Id, i + 1);
      OwnNumberRead(l, |ns|, Ip, i + 1);
      OwnNumberRead(l, |ns|, Port, i + 1);
      OwnNumberRead(l, |ns|, Poto, i + 1);
      OwnNumberRead(l, |ns|, Expires, i + 1);
    }
  }

  lemma OwnNumberRead(l: Layout, n: nat, f: Field, i: nat)
    requires GoodLayout(l, n) && 1 <= i <= n
    ensures OwnLineFirst(l.SipKeys(), Node(f, i)) <==> NumberRead(l, n, f, i) == i
  {
    hide GoodLayout, OwnLineFirst, FirstKey;
    OwnLineIsRead(l.SipKeys(), Node(f, i));
  }

  /** Nodes that are all the same but one. */
  function OddNodes(n: nat, i: nat): (ns: seq<NodeInfo>)
    ensures |ns| == n && forall k :: 0 <= k < n ==> GoodNode(ns[k])
    ensures forall k :: 0 <= k < n ==> ns[k] == if k == i then NodeInfo("c", "d", 1, 1, 1)
      else NodeInfo("a", "b", 0, 0, 0)
  {
    seq(n, k => if k == i then NodeInfo("c", "d", 1, 1, 1) else NodeInfo("a", "b", 0, 0, 0))
  }

  lemma OddNodeLost(l: Layout, n: nat, f: Field, i: nat, back: seq<NodeInfo>)
    requires GoodLayout(l, n) && 1 <= i <= n && !OwnLineFirst(l.SipKeys(), Node(f, i))
    requires IsReadBack(OddNodes(n, i - 1), l, back)
    ensures back != OddNodes(n, i - 1)
  {
    hide GoodLayout, OwnLineFirst, NumberRead;
    OwnNumberRead(l, n, f, i);
    assert back[i - 1] == NodeBack(OddNodes(n, i - 1), l, i);
  }

  lemma SomeReadBack(ns: seq<NodeInfo>, l: Layout) returns (back: seq<NodeInfo>)
    requires GoodLayout(l, |ns|)
    ensures IsReadBack(ns, l, back)
  {
    hide GoodLayout, NodeBack;
    back := seq(|ns|, i requires 0 <= i < |ns| && GoodLayout(l, |ns|) => NodeBack(ns, l, i + 1));
  }

  /** Reads the file that holds the configuration, in any layout. */
  method WriteThenReadConf(c: Config, l: Layout) returns (ret: int, back: Config)
    requires GoodConfig(c) && GoodLayout(l, |c.nodes|) && Loads(c, l)
    ensures ret == 0 && back == c.(nodes := back.nodes) && IsReadBack(c.nodes, l, back.nodes)
    ensures |c.nodes| <= 9 ==> back == c
  {
    hide GoodConfig, GoodLayout, FileText, Readable, IsThere, TextAt, NumberAt, NodesRead, LineFor, FirstKey,
      IsReadBack, Loads, KeyName, SectionOf;
    KeyNames();
    WrittenReadable(c, l);
    var conf := new SipLocalConfig(FileText(c, l));
    WrittenRead(c, l, LocalIp);
    WrittenRead(c, l, LocalPort);
    WrittenRead(c, l, SipId);
    WrittenRead(c, l, SipIp);
    WrittenRead(c, l, SipPort);
    WrittenRead(c, l, NodeNum);
    Positive(c);
    ret := conf.ReadConf();
    assert conf.upNodeInfoList[0..] == conf.upNodeInfoList;
    NodesReadBack(c, l, conf.upNodeInfoList);
    if |c.nodes| <= 9 {
      AtMostNineOwnLines(l, |c.nodes|);
      OwnLinesReadBack(c.nodes, l, conf.upNodeInfoList);
    }
    back := Config(conf.localIp, conf.localPort, conf.sipId, conf.sipIp, conf.sipPort, conf.upNodeInfoList);
  }

  lemma Positive(c: Config)
    requires GoodConfig(c)
    ensures c.localIp != "" && c.localPort > 0 && c.sipId != "" && c.sipIp != "" && c.sipPort > 0
  {
  }

  // ---- files that load

  /** The shortest values everywhere. */
  function SmallConfig(ns: seq<NodeInfo>): Config {
    Config("a", 1, "a", "a", 1, ns)
  }

  lemma SmallGood(n: nat, i: nat)
    requires n < INT_LIMIT
    ensures GoodConfig(SmallConfig(OddNodes(n, i)))
  {
    hide GoodNode;
    assert GoodText("a");
  }

  lemma SmallWritten(n: nat, i: nat, k: Key)
    requires n < INT_LIMIT && KeyOf(k, n) && GoodConfig(SmallConfig(OddNodes(n, i)))
    ensures |Written(SmallConfig(OddNodes(n, i)), k)| == if k.NodeNum? then |Decimal(n)| else 1
  {
    var c := SmallConfig(OddNodes(n, i));
    if TextKey(k) { SmallText(n, i, k); } else { SmallNumber(n, i, k); }
  }

  lemma SmallText(n: nat, i: nat, k: Key)
    requires KeyOf(k, n) && TextKey(k)
    ensures |TextOf(SmallConfig(OddNodes(n, i)), k)| == 1
  {
  }

  lemma SmallNumber(n: nat, i: nat, k: Key)
    requires KeyOf(k, n) && !TextKey(k)
    ensures var m := NumberOf(SmallConfig(OddNodes(n, i)), k); if k.NodeNum? then m == n else 0 <= m <= 1
  {
  }

  lemma WrittenNotEmpty(c: Config, k: Key)
    requires GoodConfig(c) && KeyOf(k, |c.nodes|)
    ensures |Written(c, k)| >= 1 && (k.NodeNum? ==> Written(c, k) == Decimal(|c.nodes|))
  {
    hide GoodConfig, TextOf;
    if TextKey(k) { TextGood(c, k); } else { NumberGood(c, k); }
  }

  lemma LineNotLonger(c: Config, n: nat, i: nat, x: ConfLine)
    requires GoodConfig(c) && |c.nodes| == n && GoodConfig(SmallConfig(OddNodes(n, i))) &&
      (x.KeyLine? ==> KeyOf(x.key, n))
    ensures |Content(LineEntry(SmallConfig(OddNodes(n, i)), x))| <= |Content(LineEntry(c, x))|
  {
    hide GoodConfig, Written, KeyName, OddNodes;
    FewerThanLimit(c);
    if x.KeyLine? {
      SmallWritten(n, i, x.key);
      WrittenNotEmpty(c, x.key);
    }
  }

  lemma EntriesNotLonger(c: Config, n: nat, i: nat, xs: seq<ConfLine>, end: nat)
    requires GoodConfig(c) && |c.nodes| == n && GoodConfig(SmallConfig(OddNodes(n, i))) && LinesOf(xs, n)
    ensures EntriesSize(EntriesFor(SmallConfig(OddNodes(n, i)), xs), end) <= EntriesSize(EntriesFor(c, xs), end)
  {
    hide GoodConfig, EntriesSize, LineEntry, Content, OddNodes;
    var d := SmallConfig(OddNodes(n, i));
    forall j | 0 <= j < |xs| ensures |Content(LineEntry(d, xs[j]))| <= |Content(LineEntry(c, xs[j]))| {
      LineNotLonger(c, n, i, xs[j]);
    }
    EntriesSizeMonotone(EntriesFor(d, xs), EntriesFor(c, xs), end);
  }

  lemma FewerThanLimit(c: Config)
    requires GoodConfig(c)
    ensures |c.nodes| < INT_LIMIT
  {
  }

  lemma FileLength(c: Config, l: Layout)
    requires GoodConfig(c) && GoodLayout(l, |c.nodes|)
    ensures |FileText(c, l)| == EntriesSize(Head(l), |l.eol|) + 4 + |LOCAL_SECTION| + |SIP_SECTION| + 2 * |l.eol| +
                                EntriesSize(LocalSec(c, l).entries, |l.eol|) +
                                EntriesSize(SipSec(c, l).entries, |l.eol|)
  {
    hide GoodConfig, GoodLayout, EntriesSize, EntriesFor, RenderEntries, RenderSecs, Head;
    RenderedEntriesSize(Head(l), l.eol);
    RenderedEntriesSize(LocalSec(c, l).entries, l.eol);
    RenderedEntriesSize(SipSec(c, l).entries, l.eol);
    TwoSecsLength(FileSecs(c, l)[0], FileSecs(c, l)[1], l.eol);
  }

  lemma TwoSecsLength(x: Sec, y: Sec, eol: string)
    ensures |RenderSecs([x, y], eol)| ==
            4 + |x.name| + |y.name| + 2 * |eol| + |RenderEntries(x.entries, eol)| + |RenderEntries(y.entries, eol)|
  {
    assert [x, y][1..] == [y] && [y][1..] == [];
    assert RenderSecs([], eol) == "";
  }

  /** No file of as many nodes is shorter. */
  lemma SmallFileShortest(c: Config, l: Layout, i: nat)
    requires GoodConfig(c) && GoodLayout(l, |c.nodes|)
    ensures GoodConfig(SmallConfig(OddNodes(|c.nodes|, i))) &&
      |FileText(SmallConfig(OddNodes(|c.nodes|, i)), l)| <= |FileText(c, l)|
  {
    hide GoodConfig, GoodLayout, EntriesSize, EntriesFor, FileText, Head;
    FewerThanLimit(c);
    SmallGood(|c.nodes|, i);
    FileLength(c, l);
    FileLength(SmallConfig(OddNodes(|c.nodes|, i)), l);
    LayoutLines(l, |c.nodes|);
    EntriesNotLonger(c, |c.nodes|, i, l.localLines, |l.eol|);
    EntriesNotLonger(c, |c.nodes|, i, l.sipLines, |l.eol|);
  }

  /** Some configuration of `n` nodes in this layout loads. */
  ghost predicate SomeLoads(l: Layout, n: nat)
    requires GoodLayout(l, n)
  {
    exists c: Config {:trigger GoodConfig(c)} :: GoodConfig(c) && |c.nodes| == n && Loads(c, l)
  }

  /** Exactly if the one with the shortest values does. */
  lemma SomeLoadsIffSmall(l: Layout, n: nat, i: nat)
    requires GoodLayout(l, n)
    ensures SomeLoads(l, n) <==> GoodConfig(SmallConfig(OddNodes(n, i))) && Loads(SmallConfig(OddNodes(n, i)), l)
  {
    hide GoodConfig, GoodLayout, FileText, OddNodes;
    if SomeLoads(l, n) {
      var c: Config :| GoodConfig(c) && |c.nodes| == n && Loads(c, l);
      SmallFileShortest(c, l, i);
    }
  }

  /** Every configuration of `n` nodes whose file loads comes back. */
  ghost predicate AllComeBack(l: Layout, n: nat)
    requires GoodLayout(l, n)
  {
    forall c: Config, back: seq<NodeInfo> {:trigger IsReadBack(c.nodes, l, back)} ::
      |c.nodes| == n && GoodConfig(c) && Loads(c, l) && IsReadBack(c.nodes, l, back) ==> back == c.nodes
  }

  /**
   What a layout promises: the nodes of every file that loads come back, exactly if every
   node key's own line is found first, or no file of so many nodes loads at all.
   */
  lemma NodesSurviveIffOwnLinesFirst(l: Layout, n: nat)
    requires GoodLayout(l, n)
    ensures AllComeBack(l, n) <==> OwnLinesFirst(l, n) || !SomeLoads(l, n)
  {
    hide GoodLayout, OwnLineFirst, IsReadBack, GoodConfig, Loads, OddNodes;
    if OwnLinesFirst(l, n) {
      forall c: Config, back: seq<NodeInfo> | |c.nodes| == n && IsReadBack(c.nodes, l, back) ensures back == c.nodes {
        OwnLinesReadBack(c.nodes, l, back);
      }
    } else if SomeLoads(l, n) {
      var b: Key :| b.Node? && KeyOf(b, n) && !OwnLineFirst(l.SipKeys(), b);
      SomeLoadsIffSmall(l, n, b.number - 1);
      var ns := OddNodes(n, b.number - 1);
      var back := SomeReadBack(ns, l);
      OddNodeLost(l, n, b.field, b.number, back);
      assert SmallConfig(ns).nodes == ns;
    }
  }

  lemma LinesGood(l: Layout, n: nat, k: Key)
    requires GoodLayout(l, n) && k.Node? && KeyOf(k, n)
    ensures k in l.SipKeys() && forall i :: 0 <= i < |l.SipKeys()| ==> KeyOf(l.SipKeys()[i], n)
  {
    hide Keys;
    assert l.LinesWith(k) == l.sipLines;
  }

  lemma LeadKeyOwnLine(l: Layout, n: nat, b: Key)
    requires GoodLayout(l, n) && b.Node? && KeyOf(b, n) && (n <= 9 || Ascending(l.SipKeys()))
    ensures OwnLineFirst(l.SipKeys(), b) <==> b.number <= 9
  {
    hide OwnLineFirst, FirstKey, Ascending;
    LinesGood(l, n, LeadKey(b));
    FirstKeyIsLeadKey(l.SipKeys(), n, b);
    OwnLineIsRead(l.SipKeys(), b);
  }

  /** At most nine nodes come back from any order of lines. */
  lemma AtMostNineOwnLines(l: Layout, n: nat)
    requires GoodLayout(l, n) && n <= 9
    ensures OwnLinesFirst(l, n)
  {
    hide GoodLayout, OwnLineFirst;
    forall b: Key | b.Node? && KeyOf(b, n) ensures OwnLineFirst(l.SipKeys(), b) {
      LeadKeyOwnLine(l, n, b);
    }
  }

  /** With ascending node lines a tenth node is too many. */
  lemma AscendingSurviveIffAtMostNine(l: Layout, n: nat)
    requires GoodLayout(l, n) && Ascending(l.SipKeys())
    ensures OwnLinesFirst(l, n) <==> n <= 9
  {
    hide GoodLayout, OwnLineFirst, Ascending;
    if n <= 9 { AtMostNineOwnLines(l, n); } else { LeadKeyOwnLine(l, n, Node(Id, 10)); }
  }

  /** The five lines of each node, node after node. */
  function NodeKeys(n: nat): seq<Key> {
    if n == 0 then [] else NodeKeys(n - 1) + LastKeys(n)
  }

  function LastKeys(n: nat): seq<Key> {
    [Node(Id, n), Node(Ip, n), Node(Port, n), Node(Poto, n), Node(Expires, n)]
  }

  lemma {:induction false} NodeKeysListed(n: nat)
    ensures forall p :: 0 <= p < |NodeKeys(n)| ==> NodeKeys(n)[p].Node? && KeyOf(NodeKeys(n)[p], n)
    ensures forall k: Key :: k.Node? && KeyOf(k, n) ==> k in NodeKeys(n)
  {
    if n > 0 {
      NodeKeysListed(n - 1);
      var last := [Node(Id, n), Node(Ip, n), Node(Port, n), Node(Poto, n), Node(Expires, n)];
      forall k: Key | k.Node? && KeyOf(k, n) ensures k in NodeKeys(n) {
        if k.number == n { LastHasEveryField(last, k); } else { assert KeyOf(k, n - 1); }
      }
    }
  }

  lemma LastHasEveryField(last: seq<Key>, k: Key)
    requires k.Node? && last == [Node(Id, k.number), Node(Ip, k.number), Node(Port, k.number), Node(Poto, k.number),
      Node(Expires, k.number)]
    ensures k in last
  {
    match k.field {
      case Id => assert k == last[0];
      case Ip => assert k == last[1];
      case Port => assert k == last[2];
      case Poto => assert k == last[3];
      case Expires => assert k == last[4];
    }
  }

  lemma {:induction false} NodeKeysAscend(n: nat)
    ensures Ascending(NodeKeys(n))
  {
    if n > 0 {
      NodeKeysAscend(n - 1);
      NodeKeysListed(n - 1);
    }
  }

  /** One line for each key, without blanks. */
  function PlainLines(ks: seq<Key>): (xs: seq<ConfLine>)
    ensures |xs| == |ks| && forall i :: 0 <= i < |ks| ==> xs[i] == KeyLine(ks[i], "", "", "")
  {
    seq(|ks|, i requires 0 <= i < |ks| => KeyLine(ks[i], "", "", ""))
  }

  lemma {:induction false} KeysOfPlain(ks: seq<Key>)
    ensures Keys(PlainLines(ks)) == ks
    decreases |ks|
  {
    if ks != [] {
      KeysOfPlain(ks[1..]);
      assert PlainLines(ks)[1..] == PlainLines(ks[1..]);
    }
  }

  function UsualSipKeys(n: nat): seq<Key> {
    [SipId, SipIp, SipPort, NodeNum] + NodeKeys(n)
  }

  /** The file as one would write it: every key once, nodes in order. */
  function UsualLayout(n: nat): Layout {
    Layout([], PlainLines([LocalIp, LocalPort]), PlainLines(UsualSipKeys(n)), false, "\n")
  }

  lemma PlainGood(ks: seq<Key>)
    ensures GoodLines(PlainLines(ks))
  {
  }

  lemma UsualKeys(n: nat)
    ensures KeysOf([LocalIp, LocalPort], n, true) && KeysOf(UsualSipKeys(n), n, false)
    ensures forall k: Key {:trigger KeyOf(k, n)} :: KeyOf(k, n) ==>
      if InLocal(k) then k in [LocalIp, LocalPort] else k in UsualSipKeys(n)
    ensures Ascending(UsualSipKeys(n))
  {
    hide NodeKeys;
    NodeKeysListed(n);
    NodeKeysAscend(n);
    var ks := UsualSipKeys(n);
    assert ks[0] == SipId && ks[1] == SipIp && ks[2] == SipPort && ks[3] == NodeNum;
    assert [LocalIp, LocalPort][0] == LocalIp && [LocalIp, LocalPort][1] == LocalPort;
    forall k: Key | KeyOf(k, n) && !InLocal(k) ensures k in ks {
      if k.Node? { assert k in NodeKeys(n); }
    }
  }

  lemma UsualLayoutGood(n: nat)
    ensures GoodLayout(UsualLayout(n), n) && UsualLayout(n).SipKeys() == UsualSipKeys(n) &&
      Ascending(UsualLayout(n).SipKeys())
  {
    hide Keys, GoodEnd, Ascending, GoodLines, UsualSipKeys, PlainLines;
    NewlineEnds();
    UsualKeys(n);
    KeysOfPlain([LocalIp, LocalPort]);
    KeysOfPlain(UsualSipKeys(n));
    PlainGood([LocalIp, LocalPort]);
    PlainGood(UsualSipKeys(n));
  }

  lemma NewlineEnds()
    ensures GoodEnd("\n")
  {
  }

  function PlainEntries(c: Config, ks: seq<Key>): (es: seq<Entry>)
    requires GoodConfig(c) && forall i :: 0 <= i < |ks| ==> KeyOf(ks[i], |c.nodes|)
    ensures |es| == |ks| && forall i :: 0 <= i < |ks| ==> es[i] == EntryFor(c, ks[i], "", "", "")
  {
    EntriesFor(c, PlainLines(ks))
  }

  /** Every value of a node is one character long. */
  ghost predicate ShortNodes(c: Config)
    requires GoodConfig(c)
  {
    forall k: Key {:trigger Written(c, k)} :: k.Node? && KeyOf(k, |c.nodes|) ==> |Written(c, k)| == 1
  }

  lemma NodeLineSize(c: Config, k: Key)
    requires GoodConfig(c) && ShortNodes(c) && k.Node? && KeyOf(k, |c.nodes|) && k.number < 100
    ensures |Content(EntryFor(c, k, "", "", ""))| <= |FieldName(k.field)| + 4
  {
    hide GoodConfig, Written, Decimal, FieldName;
    assert Pow10(2) == 100;
    DecimalLength(k.number, 2);
  }

  lemma FieldLengths()
    ensures |FieldName(Id)| == |FieldName(Ip)| == 14 && |FieldName(Port)| == |FieldName(Poto)| == 16 &&
      |FieldName(Expires)| == 19
  {
  }

  lemma {:induction false} EntriesSizeAtMost(es: seq<Entry>, limits: seq<nat>)
    requires |es| == |limits| && forall i :: 0 <= i < |es| ==> |Content(es[i])| <= limits[i]
    ensures EntriesSize(es, 1) <= Sum(limits) + |es|
    decreases |es|
  {
    hide Content;
    if es != [] { EntriesSizeAtMost(es[1..], limits[1..]); }
  }

  function Sum(ns: seq<nat>): nat {
    if ns == [] then 0 else ns[0] + Sum(ns[1..])
  }

  lemma NodeLinesSize(c: Config, m: nat)
    requires GoodConfig(c) && ShortNodes(c) && 0 < m < 100 && m <= |c.nodes|
    ensures EntriesSize(PlainEntries(c, LastKeys(m)), 1) <= 104
  {
    hide GoodConfig, EntryFor, EntriesSize, FieldName, ShortNodes;
    var ks := LastKeys(m);
    FieldLengths();
    forall j | 0 <= j < 5 ensures |Content(EntryFor(c, ks[j], "", "", ""))| <= [18, 18, 20, 20, 23][j] {
      NodeLineSize(c, ks[j]);
    }
    EntriesSizeAtMost(PlainEntries(c, ks), [18, 18, 20, 20, 23]);
    FiveSum(18, 18, 20, 20, 23);
  }

  lemma FiveSum(a: nat, b: nat, c: nat, d: nat, e: nat)
    ensures Sum([a, b, c, d, e]) == a + b + c + d + e
  {
    FirstSum(a, [b, c, d, e]);
    FirstSum(b, [c, d, e]);
    FirstSum(c, [d, e]);
    FirstSum(d, [e]);
    FirstSum(e, []);
    assert [a, b, c, d, e] == [a] + [b, c, d, e] && [b, c, d, e] == [b] + [c, d, e] && [c, d, e] == [c] + [d, e];
    assert [d, e] == [d] + [e] && [e] == [e] + [];
  }

  lemma FirstSum(a: nat, rest: seq<nat>)
    ensures Sum([a] + rest) == a + Sum(rest)
  {
    assert ([a] + rest)[1..] == rest;
  }

  lemma EntriesForSplit(c: Config, a: seq<Key>, b: seq<Key>)
    requires GoodConfig(c) && forall i :: 0 <= i < |a| ==> KeyOf(a[i], |c.nodes|)
    requires forall i :: 0 <= i < |b| ==> KeyOf(b[i], |c.nodes|)
    ensures EntriesSize(PlainEntries(c, a + b), 1) ==
            EntriesSize(PlainEntries(c, a), 1) + EntriesSize(PlainEntries(c, b), 1)
  {
    hide GoodConfig, EntryFor, EntriesSize;
    assert PlainEntries(c, a + b) == PlainEntries(c, a) + PlainEntries(c, b);
    EntriesSizeSplit(PlainEntries(c, a), PlainEntries(c, b), 1);
  }

  lemma {:induction false} NodesSize(c: Config, m: nat)
    requires GoodConfig(c) && ShortNodes(c) && m < 100 && m <= |c.nodes|
    ensures forall p :: 0 <= p < |NodeKeys(m)| ==> KeyOf(NodeKeys(m)[p], |c.nodes|)
    ensures EntriesSize(PlainEntries(c, NodeKeys(m)), 1) <= 104 * m
  {
    hide GoodConfig, PlainEntries, EntriesSize, LastKeys, ShortNodes;
    NodeKeysListed(m);
    if m > 0 {
      NodesSize(c, m - 1);
      NodeLinesSize(c, m);
      LastKeysOf(m);
      assert NodeKeys(m) == NodeKeys(m - 1) + LastKeys(m);
      EntriesForSplit(c, NodeKeys(m - 1), LastKeys(m));
    } else {
      NoLines(c);
    }
  }

  lemma NoHeadLines(l: Layout)
    requires l.head == []
    ensures EntriesSize(Head(l), |l.eol|) == 0
  {
  }

  lemma NoLines(c: Config)
    requires GoodConfig(c)
    ensures EntriesSize(PlainEntries(c, []), 1) == 0
  {
  }

  lemma LastKeysOf(m: nat)
    requires m > 0
    ensures forall p :: 0 <= p < |LastKeys(m)| ==> LastKeys(m)[p].Node? && LastKeys(m)[p].number == m
  {
  }

  lemma HeadLineSize(n: nat, i: nat, k: Key)
    requires n < 100 && GoodConfig(SmallConfig(OddNodes(n, i))) && !k.Node?
    ensures |Content(EntryFor(SmallConfig(OddNodes(n, i)), k, "", "", ""))| <= |KeyBase(k)| + if k.NodeNum?
      then 3 else 2
  {
    hide GoodConfig, Written, Decimal, OddNodes, KeyBase;
    assert Pow10(2) == 100;
    DecimalLength(n, 2);
    SmallWritten(n, i, k);
  }

  /** The lines before the nodes, with a number of nodes below a hundred. */
  lemma HeadSize(n: nat, i: nat, ks: seq<Key>, limits: seq<nat>)
    requires n < 100 && GoodConfig(SmallConfig(OddNodes(n, i))) && |ks| == |limits|
    requires forall j :: 0 <= j < |ks| ==> !ks[j].Node?
    requires forall j :: 0 <= j < |ks| ==> |KeyBase(ks[j])| + (if ks[j].NodeNum? then 3 else 2) == limits[j]
    ensures EntriesSize(PlainEntries(SmallConfig(OddNodes(n, i)), ks), 1) <= Sum(limits) + |ks|
  {
    hide GoodConfig, EntriesSize, EntryFor, Content, Sum, KeyBase, OddNodes;
    var c := SmallConfig(OddNodes(n, i));
    forall j | 0 <= j < |ks| ensures |Content(EntryFor(c, ks[j], "", "", ""))| <=
      limits[j] { HeadLineSize(n, i, ks[j]); }
    EntriesSizeAtMost(PlainEntries(c, ks), limits);
  }

  lemma HeadSums()
    ensures Sum([10, 12]) == 22 && Sum([8, 8, 10, 14]) == 40
  {
    assert [10, 12][1..] == [12] && [12][1..] == [];
    FiveSum(0, 8, 8, 10, 14);
    assert [0, 8, 8, 10, 14][1..] == [8, 8, 10, 14];
  }

  lemma HeadLengths()
    ensures |KeyBase(LocalIp)| == 8 && |KeyBase(LocalPort)| == 10 && |KeyBase(SipId)| == |KeyBase(SipIp)| == 6
    ensures |KeyBase(SipPort)| == 8 && |KeyBase(NodeNum)| == 11
  {
  }

  /** In the usual layout up to 97 nodes fit the reader's buffer. */
  lemma UsualFileLoads(n: nat, i: nat)
    requires n <= 97
    ensures GoodLayout(UsualLayout(n), n) && GoodConfig(SmallConfig(OddNodes(n, i)))
    ensures Loads(SmallConfig(OddNodes(n, i)), UsualLayout(n))
  {
    hide GoodConfig, GoodLayout, EntriesSize, EntriesFor, NodeKeys, Written, FileText, OddNodes, KeyBase, Sum, Keys,
      Head, LineEntry;
    UsualLayoutGood(n);
    SmallGood(n, i);
    var c, l := SmallConfig(OddNodes(n, i)), UsualLayout(n);
    assert ShortNodes(c) by {
      forall k: Key | k.Node? && KeyOf(k, n) ensures |Written(c, k)| == 1 { SmallWritten(n, i, k); }
    }
    NodesSize(c, n);
    HeadLengths();
    HeadSums();
    HeadSize(n, i, [LocalIp, LocalPort], [10, 12]);
    HeadSize(n, i, [SipId, SipIp, SipPort, NodeNum], [8, 8, 10, 14]);
    UsualKeys(n);
    EntriesForSplit(c, [SipId, SipIp, SipPort, NodeNum], NodeKeys(n));
    NoHeadLines(l);
    FileLength(c, l);
    assert SipSec(c, l).entries == PlainEntries(c, UsualSipKeys(n));
    assert LocalSec(c, l).entries == PlainEntries(c, [LocalIp, LocalPort]);
  }

  /** The usual file gives n nodes back exactly if there are at most nine, or too many for any file to load. */
  lemma UsualFileSurvivesIffAtMostNine(n: nat)
    ensures GoodLayout(UsualLayout(n), n)
    ensures AllComeBack(UsualLayout(n), n) <==> n <= 9 || !SomeLoads(UsualLayout(n), n)
    ensures n <= 97 ==> SomeLoads(UsualLayout(n), n)
  {
    hide GoodLayout, UsualLayout, AllComeBack, SomeLoads, OwnLinesFirst, Ascending;
    UsualLayoutGood(n);
    NodesSurviveIffOwnLinesFirst(UsualLayout(n), n);
    AscendingSurviveIffAtMostNine(UsualLayout(n), n);
    if n <= 97 {
      UsualFileLoads(n, 0);
      SomeLoadsIffSmall(UsualLayout(n), n, 0);
    }
  }

  /** Ten nodes of which the last one differs, in the usual file. */
  const TEN_NODES := SmallConfig(OddNodes(10, 9))

  /** A file that loads and does not come back: node 10 is read from node 1's lines. */
  method TenNodesReadBack() returns (ret: int, back: Config)
    ensures GoodConfig(TEN_NODES) && GoodLayout(UsualLayout(10), 10)
    ensures ret == 0 && |back.nodes| == 10 && back.nodes[9] == TEN_NODES.nodes[0] != TEN_NODES.nodes[9]
  {
    hide GoodConfig, GoodLayout, Loads, IsReadBack;
    UsualFileLoads(10, 9);
    ret, back := WriteThenReadConf(TEN_NODES, UsualLayout(10));
    TenthIsFirst(back.nodes);
  }

  lemma TenthIsFirst(back: seq<NodeInfo>)
    requires GoodLayout(UsualLayout(10), 10) && IsReadBack(TEN_NODES.nodes, UsualLayout(10), back)
    ensures |back| == 10 && back[9] == TEN_NODES.nodes[0]
  {
    hide GoodLayout, UsualLayout, Ascending, NumberRead;
    UsualLayoutGood(10);
    forall f: Field ensures NumberRead(UsualLayout(10), 10, f, 10) == 1 {
      assert LeadKey(Node(f, 10)) == Node(f, 1) && KeyOf(Node(f, 1), 10);
      LinesGood(UsualLayout(10), 10, Node(f, 1));
      FirstKeyIsLeadKey(UsualLayout(10).SipKeys(), 10, Node(f, 10));
    }
    assert back[9] == NodeBack(TEN_NODES.nodes, UsualLayout(10), 10);
  }
}
