/**
 How many bytes an RTCP compound packet will need: the size predictions of the builder
 against the packets themselves (sections 6.1, 6.4 and 6.5 of RFC 3550).
 */
module CompoundBuilder {
  import opened Common
  import opened SdesWire

  const SR_TYPE := 200
  const RR_TYPE := 201

  /** sizeof(RTCPReceiverReport), sizeof(RTCPSenderReport), sizeof(RTCPCommonHeader) and sizeof(uint32_t) */
  const BLOCK_SIZE := 24
  const SENDER_INFO_SIZE := 20
  const HEADER_SIZE := 4
  const WORD_SIZE := 4

  const ERR_OUTOFMEM := -1
  const ERR_NOCURRENTSOURCE := -40

  // ---- the packets

  function First31<T>(xs: seq<T>): (r: seq<T>)
    ensures |r| == (if |xs| < 31 then |xs| else 31) && forall i :: 0 <= i < |r| ==> r[i] == xs[i]
  {
    if |xs| < 31 then xs else xs[..31]
  }

  function After31<T>(xs: seq<T>): (r: seq<T>)
    ensures |r| == |xs| - |First31(xs)| && forall i :: 0 <= i < |r| ==> r[i] == xs[|First31(xs)| + i]
  {
    xs[|First31(xs)|..]
  }

  /** Receiver report packets for the blocks that did not fit in the packets before. */
  function MoreReports(ssrc: seq<byte>, blocks: seq<seq<byte>>): seq<byte>
    requires |ssrc| == WORD_SIZE
    decreases |blocks|
  {
    if blocks == [] then []
    else
      var body := ssrc + Concat(First31(blocks));
      Header(|First31(blocks)|, RR_TYPE, |body|) + body + MoreReports(ssrc, After31(blocks))
  }

  /** A report: `start` is the SSRC, followed by the sender information in a sender report. */
  function Reports(isSR: bool, start: seq<byte>, blocks: seq<seq<byte>>): seq<byte>
    requires |start| >= WORD_SIZE
  {
    var body := start + Concat(First31(blocks));
    Header(|First31(blocks)|, if isSR then SR_TYPE else RR_TYPE, |body|) + body +
    MoreReports(start[..WORD_SIZE], After31(blocks))
  }

  /** The sender information of a sender report (section 6.4.1 of RFC 3550). */
  datatype SenderInfo = SenderInfo(ntpHigh: int, ntpLow: int, rtpTime: int, packets: int, octets: int) {
    predicate Legal() { IsWord(ntpHigh) && IsWord(ntpLow) && IsWord(rtpTime) && IsWord(packets) && IsWord(octets) }

    function Bytes(): seq<byte>
      requires Legal()
    {
      Word(ntpHigh) + Word(ntpLow) + Word(rtpTime) + Word(packets) + Word(octets)
    }
  }

  /** A report block: about whom, the fraction and the number of packets lost, and four more words. */
  datatype ReportBlock = ReportBlock(ssrc: int, fraction: byte, lost: seq<byte>, extendedHigh: int, jitter: int,
    lastSR: int, delay: int) {
    predicate Legal() {
      IsWord(ssrc) && |lost| == 3 && IsWord(extendedHigh) && IsWord(jitter) && IsWord(lastSR) && IsWord(delay)
    }

    function Bytes(): seq<byte>
      requires Legal()
    {
      Word(ssrc) + [fraction] + lost + Word(extendedHigh) + Word(jitter) + Word(lastSR) + Word(delay)
    }
  }

  predicate IsWord(v: int) { 0 <= v < 0x1_0000_0000 }

  lemma InfoSize(info: SenderInfo)
    requires info.Legal()
    ensures |info.Bytes()| == SENDER_INFO_SIZE == 20
  {
  }

  lemma BlockSize(block: ReportBlock)
    requires block.Legal()
    ensures |block.Bytes()| == BLOCK_SIZE == 24
  {
  }

  function BlockBytes(blocks: seq<ReportBlock>): (bs: seq<seq<byte>>)
    requires forall i :: 0 <= i < |blocks| ==> blocks[i].Legal()
    ensures |bs| == |blocks| && forall i :: 0 <= i < |blocks| ==> bs[i] == blocks[i].Bytes()
  {
    seq(|blocks|, i requires 0 <= i < |blocks| => blocks[i].Bytes())
  }

  /** A chunk before it is written: its SSRC and the bytes of its items. */
  datatype Source = Source(ssrc: int, items: seq<seq<byte>>)

  predicate GoodSource(s: Source) { 0 <= s.ssrc < 0x1_0000_0000 }

  predicate GoodSources(ss: seq<Source>) { forall i :: 0 <= i < |ss| ==> GoodSource(ss[i]) }

  function SourceBytes(ss: seq<Source>): seq<byte>
    requires GoodSources(ss)
  {
    if ss == [] then []
    else
      assert GoodSource(ss[0]);
      ChunkBytes(ss[0].ssrc, ss[0].items) + SourceBytes(ss[1..])
  }

  /** SDES packets of at most 31 chunks each. */
  function SdesPackets(ss: seq<Source>): seq<byte>
    requires GoodSources(ss)
    decreases |ss|
  {
    if ss == [] then []
    else
      var body := SourceBytes(First31(ss));
      Header(|First31(ss)|, SDES_TYPE, |body|) + body + SdesPackets(After31(ss))
  }

  // ---- their sizes

  function PacketCount(n: nat): (d: nat)
  {
    if n % 31 != 0 then n / 31 + 1 else n / 31
  }

  lemma PacketCountStep(n: nat)
    requires n > 0
    ensures PacketCount(n) == 1 + PacketCount(if n < 31 then 0 else n - 31)
  {
  }

  lemma {:induction false} BlocksSize(blocks: seq<seq<byte>>)
    requires forall i :: 0 <= i < |blocks| ==> |blocks[i]| == BLOCK_SIZE
    ensures |Concat(blocks)| == BLOCK_SIZE * |blocks|
  {
    if blocks != [] { BlocksSize(blocks[1..]); }
  }

  lemma {:induction false} MoreReportsSize(ssrc: seq<byte>, blocks: seq<seq<byte>>)
    requires |ssrc| == WORD_SIZE && forall i :: 0 <= i < |blocks| ==> |blocks[i]| == BLOCK_SIZE
    ensures |MoreReports(ssrc, blocks)| == BLOCK_SIZE * |blocks| + (HEADER_SIZE + WORD_SIZE) * PacketCount(|blocks|)
    decreases |blocks|
  {
    if blocks != [] {
      BlocksSize(First31(blocks));
      MoreReportsSize(ssrc, After31(blocks));
      PacketCountStep(|blocks|);
    }
  }

  lemma ReportsSize(isSR: bool, start: seq<byte>, blocks: seq<seq<byte>>)
    requires |start| >= WORD_SIZE && forall i :: 0 <= i < |blocks| ==> |blocks[i]| == BLOCK_SIZE
    ensures |Reports(isSR, start, blocks)| ==
            if blocks == [] then HEADER_SIZE + |start|
            else BLOCK_SIZE * |blocks| + (HEADER_SIZE + WORD_SIZE) * PacketCount(|blocks|) + |start| - WORD_SIZE
  {
    BlocksSize(First31(blocks));
    MoreReportsSize(start[..WORD_SIZE], After31(blocks));
    if blocks != [] { PacketCountStep(|blocks|); }
  }

  /**
   A report in bytes: a header and an SSRC for every 31 blocks begun, 24 bytes for each block
   and 20 for the sender information; the first packet says 200 or 201, and how many blocks it has.
   */
  lemma ReportsOfFields(isSR: bool, ssrc: int, info: SenderInfo, blocks: seq<ReportBlock>)
    requires IsWord(ssrc) && info.Legal() && forall i :: 0 <= i < |blocks| ==> blocks[i].Legal()
    ensures var p := Reports(isSR, Word(ssrc) + if isSR then info.Bytes() else [], BlockBytes(blocks));
            && |p| == (if blocks == [] then 8 else 24 * |blocks| + 8 * ((|blocks| + 30) / 31)) + (if isSR
              then 20 else 0)
            && p[0] == 0x80 + (if |blocks| < 31 then |blocks| else 31) && p[1] == (if isSR then 200 else 201)
            && p[4..8] == Word(ssrc)
  {
    hide Reports, Word, SenderInfo.Bytes, ReportBlock.Bytes, SenderInfo.Legal, ReportBlock.Legal, PacketCount, First31;
    var bs, start := BlockBytes(blocks), Word(ssrc) + if isSR then info.Bytes() else [];
    InfoSize(info);
    forall i | 0 <= i < |bs| ensures |bs[i]| == BLOCK_SIZE { BlockSize(blocks[i]); }
    ReportsSize(isSR, start, bs);
    PacketCountIs(|bs|);
    FirstReport(isSR, start, bs);
    assert start[..4] == Word(ssrc);
  }

  lemma PacketCountIs(n: nat)
    ensures PacketCount(n) == (n + 30) / 31
  {
  }

  lemma FirstReport(isSR: bool, start: seq<byte>, blocks: seq<seq<byte>>)
    requires |start| >= 4 && |start| % 4 == 0 && forall i :: 0 <= i < |blocks| ==> |blocks[i]| == BLOCK_SIZE
    ensures var p := Reports(isSR, start, blocks);
            && |p| >= 8 && p[0] == 0x80 + |First31(blocks)| && p[1] == (if isSR then 200 else 201)
            && p[4..8] == start[..4]
  {
    var blocksBytes := Concat(First31(blocks));
    BlocksSize(First31(blocks));
    HeaderFields(|First31(blocks)|, if isSR then SR_TYPE else RR_TYPE, |start + blocksBytes|);
    ReportsStart(isSR, start, blocks);
    hide Header, Reports, MoreReports, Concat;
    FirstBytes(Header(|First31(blocks)|, if isSR then SR_TYPE else RR_TYPE, |start + blocksBytes|), start,
      blocksBytes + MoreReports(start[..WORD_SIZE], After31(blocks)));
  }

  lemma ReportsStart(isSR: bool, start: seq<byte>, blocks: seq<seq<byte>>)
    requires |start| >= 4
    ensures var b := Concat(First31(blocks));
            Reports(isSR, start, blocks) == Header(|First31(blocks)|, if isSR then SR_TYPE else RR_TYPE, |start + b|) +
              (start + (b + MoreReports(start[..WORD_SIZE], After31(blocks))))
  {
    hide Header, MoreReports, Concat;
  }

  lemma FirstBytes(h: seq<byte>, start: seq<byte>, rest: seq<byte>)
    requires |h| == 4 && |start| >= 4
    ensures var p := h + (start + rest); p[0] == h[0] && p[1] == h[1] && p[4..8] == start[..4]
  {
  }

  function SourceSize(items: seq<seq<byte>>): nat {
    WORD_SIZE + RoundUp4(|Concat(items)| + 1)
  }

  function SourceSizes(ss: seq<Source>): nat {
    if ss == [] then 0 else SourceSize(ss[0].items) + SourceSizes(ss[1..])
  }

  lemma {:induction false} SourceSizesSplit(a: seq<Source>, b: seq<Source>)
    ensures SourceSizes(a + b) == SourceSizes(a) + SourceSizes(b)
  {
    if a == [] {
      assert a + b == b;
    } else {
      SourceSizesSplit(a[1..], b);
      assert (a + b)[1..] == a[1..] + b;
    }
  }

  lemma {:induction false} SourceBytesSize(ss: seq<Source>)
    requires GoodSources(ss)
    ensures |SourceBytes(ss)| == SourceSizes(ss)
  {
    if ss != [] {
      assert GoodSource(ss[0]);
      ChunkSize(ss[0].ssrc, ss[0].items);
      SourceBytesSize(ss[1..]);
    }
  }

  lemma {:induction false} SdesPacketsSize(ss: seq<Source>)
    requires GoodSources(ss)
    ensures |SdesPackets(ss)| == SourceSizes(ss) + HEADER_SIZE * PacketCount(|ss|)
    decreases |ss|
  {
    if ss != [] {
      SourceBytesSize(First31(ss));
      SdesPacketsSize(After31(ss));
      SourceSizesSplit(First31(ss), After31(ss));
      assert First31(ss) + After31(ss) == ss;
      PacketCountStep(|ss|);
    }
  }

  lemma {:induction false} ConcatSnoc(bs: seq<seq<byte>>, b: seq<byte>)
    ensures Concat(bs + [b]) == Concat(bs) + b
  {
    if bs == [] {
      assert bs + [b] == [b] && [b][1..] == [];
    } else {
      ConcatSnoc(bs[1..], b);
      assert (bs + [b])[1..] == bs[1..] + [b];
    }
  }

  /** Every packet of a report or an SDES is a whole number of 32-bit words, and so is their total. */
  lemma SdesPacketsAligned(ss: seq<Source>)
    requires GoodSources(ss)
    ensures |SdesPackets(ss)| % 4 == 0
  {
    hide SdesPackets, SourceSizes, PacketCount, GoodSources;
    SdesPacketsSize(ss);
    SourceSizesAligned(ss);
    WordsAligned(SourceSizes(ss), PacketCount(|ss|));
  }

  lemma WordsAligned(a: int, b: int)
    requires a % 4 == 0
    ensures (a + 4 * b) % 4 == 0
  {
  }

  lemma SourceSizeAligned(items: seq<seq<byte>>)
    ensures SourceSize(items) % 4 == 0
  {
    hide Concat, RoundUp4;
  }

  lemma {:induction false} SourceSizesAligned(ss: seq<Source>)
    ensures SourceSizes(ss) % 4 == 0
  {
    hide SourceSize;
    if ss != [] {
      SourceSizesAligned(ss[1..]);
      SourceSizeAligned(ss[0].items);
      WholeWords(SourceSize(ss[0].items), SourceSizes(ss[1..]));
    }
  }

  lemma ReportsAligned(isSR: bool, start: seq<byte>, blocks: seq<seq<byte>>)
    requires |start| == WORD_SIZE || |start| == WORD_SIZE + SENDER_INFO_SIZE
    requires forall i :: 0 <= i < |blocks| ==> |blocks[i]| == BLOCK_SIZE
    ensures |Reports(isSR, start, blocks)| % 4 == 0
  {
    ReportsSize(isSR, start, blocks);
  }

  function SourceOf(c: Chunk): (s: Source)
    requires c.Legal()
    ensures GoodSource(s)
  {
    Source(c.ssrc, ItemBytes(c.items))
  }

  function AsSources(cs: seq<Chunk>): (ss: seq<Source>)
    requires forall i :: 0 <= i < |cs| ==> cs[i].Legal()
    ensures |ss| == |cs| && GoodSources(ss)
    ensures forall i :: 0 <= i < |cs| ==> ss[i] == SourceOf(cs[i])
  {
    seq(|cs|, i requires 0 <= i < |cs| => SourceOf(cs[i]))
  }

  lemma {:induction false} SourceBytesAreChunks(cs: seq<Chunk>)
    requires forall i :: 0 <= i < |cs| ==> cs[i].Legal()
    ensures SourceBytes(AsSources(cs)) == ChunksBytes(cs)
  {
    if cs != [] {
      assert cs[0].Legal();
      SourceBytesAreChunks(cs[1..]);
      assert AsSources(cs)[1..] == AsSources(cs[1..]);
    }
  }

  /** What the builder sizes is what the packet reader reads: each packet holds the next 31 chunks. */
  lemma SdesPacketsReadable(cs: seq<Chunk>)
    requires cs != [] && forall i :: 0 <= i < |cs| ==> cs[i].Legal()
    ensures SdesPackets(AsSources(cs)) == PacketBytes(First31(cs)) + SdesPackets(AsSources(After31(cs)))
    ensures ChunksFit(PacketBytes(First31(cs)), 4, |First31(cs)|)
    ensures ReadChunks(PacketBytes(First31(cs)), 4, |First31(cs)|) == First31(cs)
  {
    SourceBytesAreChunks(First31(cs));
    assert First31(AsSources(cs)) == AsSources(First31(cs));
    assert After31(AsSources(cs)) == AsSources(After31(cs));
    RoundTrip(First31(cs));
  }

  /** The distance the packet reader advances over a chunk is the size the builder predicts for it. */
  lemma ReaderAdvancesByNeededBytes(pre: seq<byte>, c: Chunk, post: seq<byte>, d: seq<byte>)
    requires c.Legal() && d == pre + (ChunkBytes(c.ssrc, ItemBytes(c.items)) + post)
    ensures ListEnd(d, |pre| + 4).Some? && NextChunk(d, |pre|) - |pre| == SourceSize(ItemBytes(c.items))
  {
    hide ListEnd, ChunkBytes, NextChunk, ItemBytes, Concat, RoundUp4;
    ReadWrittenChunk(pre, c, post, d);
    ChunkSize(c.ssrc, ItemBytes(c.items));
  }

  // ---- the builder's parts

  class Report {
    var isSR: bool
    var headerlength: int
    /** The SSRC, and the sender information of a sender report. */
    var headerdata: seq<byte>
    var reportblocks: seq<seq<byte>>

    ghost predicate Valid()
      reads this
    {
      && headerlength == |headerdata|
      && (headerlength == 0 ==> !isSR && reportblocks == [])
      && (headerlength != 0 ==> headerlength == if isSR then WORD_SIZE + SENDER_INFO_SIZE else WORD_SIZE)
      && (forall i :: 0 <= i < |reportblocks| ==> |reportblocks[i]| == BLOCK_SIZE)
    }

    /** The report packets as they will be sent. */
    ghost function Packets(): seq<byte>
      requires Valid()
      reads this
    {
      if headerlength == 0 then [] else Reports(isSR, headerdata, reportblocks)
    }

    constructor ()
      ensures Valid() && headerlength == 0
    {
      isSR, headerlength, headerdata, reportblocks := false, 0, [], [];
    }

    method Clear()
      modifies this
      ensures Valid() && Packets() == []
    {
      reportblocks := [];
      isSR := false;
      headerlength, headerdata := 0, [];
    }

    method NeededBytes() returns (x: int)
      requires Valid()
      ensures x == |Packets()|
    {
      if headerlength != 0 { ReportsSize(isSR, headerdata, reportblocks); }
      var n := |reportblocks|;
      if n == 0 {
        if headerlength == 0 { return 0; }
        x := HEADER_SIZE + headerlength;
      } else {
        x := n * BLOCK_SIZE;
        var d := n / 31;
        var r := n % 31;
        if r != 0 { d := d + 1; }
        x := x + d * (HEADER_SIZE + WORD_SIZE);
        if isSR { x := x + SENDER_INFO_SIZE; }
      }
    }

    /** The size after one more block, whatever the block and the header data are. */
    method NeededBytesWithExtraReportBlock() returns (x: int)
      requires Valid()
      ensures forall start: seq<byte>, block: seq<byte> ::
                |start| == (if isSR then WORD_SIZE + SENDER_INFO_SIZE else WORD_SIZE) && |block| == BLOCK_SIZE ==>
                x == |Reports(isSR, start, reportblocks + [block])|
    {
      var n := |reportblocks| + 1;
      x := n * BLOCK_SIZE;
      var d := n / 31;
      var r := n % 31;
      if r != 0 { d := d + 1; }
      x := x + d * (HEADER_SIZE + WORD_SIZE);
      if isSR { x := x + SENDER_INFO_SIZE; }
      forall start: seq<byte>, block: seq<byte> |
          |start| == (if isSR then WORD_SIZE + SENDER_INFO_SIZE else WORD_SIZE) && |block| == BLOCK_SIZE
        ensures x == |Reports(isSR, start, reportblocks + [block])|
      {
        ReportsSize(isSR, start, reportblocks + [block]);
      }
    }
  }

  class SDESSource {
    const ssrc: int
    var items: seq<seq<byte>>
    var totalitemsize: int

    ghost predicate Valid()
      reads this
    {
      0 <= ssrc < 0x1_0000_0000 && totalitemsize == |Concat(items)|
    }

    ghost function Value(): Source
      reads this
    {
      Source(ssrc, items)
    }

    constructor (s: int)
      requires 0 <= s < 0x1_0000_0000
      ensures Valid() && Value() == Source(s, [])
    {
      ssrc, items, totalitemsize := s, [], 0;
    }

    method NeededBytes() returns (x: int)
      requires Valid()
      ensures x == SourceSize(items) == |ChunkBytes(ssrc, items)|
    {
      ChunkSize(ssrc, items);
      x := totalitemsize + 1;
      var r := x % WORD_SIZE;
      if r != 0 { x := x + (WORD_SIZE - r); }
      x := x + WORD_SIZE;
    }

    method NeededBytesWithExtraItem(itemdatalength: byte) returns (x: int)
      requires Valid()
      ensures forall buf: seq<byte> :: |buf| == 2 + itemdatalength ==> x == SourceSize(items + [buf])
    {
      x := totalitemsize + 2 + itemdatalength + 1;
      var r := x % WORD_SIZE;
      if r != 0 { x := x + (WORD_SIZE - r); }
      x := x + WORD_SIZE;
      forall buf: seq<byte> | |buf| == 2 + itemdatalength ensures x == SourceSize(items + [buf]) {
        ConcatSnoc(items, buf);
      }
    }

    method AddItem(buf: seq<byte>)
      requires Valid()
      modifies this
      ensures Valid() && Value() == Source(ssrc, old(items) + [buf])
    {
      ConcatSnoc(items, buf);
      totalitemsize := totalitemsize + |buf|;
      items := items + [buf];
    }
  }

  ghost function Values(ss: seq<SDESSource>): (vs: seq<Source>)
    reads ss
    ensures |vs| == |ss|
  {
    if ss == [] then [] else Values(ss[..|ss| - 1]) + [ss[|ss| - 1].Value()]
  }

  lemma {:induction false} ValuesAt(ss: seq<SDESSource>, i: nat)
    requires i <= |ss|
    ensures Values(ss)[..i] == Values(ss[..i])
    ensures i < |ss| ==> Values(ss)[i] == ss[i].Value()
  {
    var n := |ss| - 1;
    if i < n {
      ValuesAt(ss[..n], i);
      assert ss[..n][..i] == ss[..i];
    } else if i == |ss| {
      assert ss[..i] == ss;
    }
  }

  lemma ValuesSnoc(ss: seq<SDESSource>, s: SDESSource)
    ensures Values(ss + [s]) == Values(ss) + [s.Value()]
  {
    assert (ss + [s])[..|ss|] == ss;
  }

  lemma NextSourceSize(vs: seq<Source>, i: nat)
    requires i < |vs|
    ensures SourceSizes(vs[..i + 1]) == SourceSizes(vs[..i]) + SourceSize(vs[i].items)
  {
    SourceSizesSplit(vs[..i], [vs[i]]);
    assert vs[..i + 1] == vs[..i] + [vs[i]];
    assert [vs[i]][1..] == [];
  }

  class SDES {
    var sdessources: seq<SDESSource>
    /** Position of the current source, the one items are added to. */
    var sdesit: int

    ghost predicate Valid()
      reads this, sdessources
    {
      && (forall i, j :: 0 <= i < j < |sdessources| ==> sdessources[i] != sdessources[j])
      && (forall i :: 0 <= i < |sdessources| ==> sdessources[i].Valid())
      && (sdessources != [] ==> sdesit == |sdessources| - 1)
    }

    ghost function View(): (vs: seq<Source>)
      requires Valid()
      reads this, sdessources
      ensures |vs| == |sdessources| && GoodSources(vs)
    {
      ViewGood();
      Values(sdessources)
    }

    lemma ViewGood()
      requires Valid()
      ensures GoodSources(Values(sdessources))
    {
      forall i | 0 <= i < |sdessources| ensures GoodSource(Values(sdessources)[i]) {
        ValuesAt(sdessources, i);
        assert sdessources[i].Valid();
      }
    }

    constructor ()
      ensures Valid() && View() == []
    {
      sdessources, sdesit := [], 0;
    }

    method Clear()
      modifies this
      ensures Valid() && View() == []
    {
      sdessources := [];
    }

    method AddSSRC(ssrc: int, rtpNew: bool) returns (status: int)
      requires Valid() && 0 <= ssrc < 0x1_0000_0000
      modifies this
      ensures Valid() && status == if rtpNew then 0 else -1
      ensures View() == if status == 0 then old(View()) + [Source(ssrc, [])] else old(View())
      ensures old(sdessources) <= sdessources && |sdessources| == |old(sdessources)| + if status == 0 then 1 else 0
      ensures forall i :: |old(sdessources)| <= i < |sdessources| ==> fresh(sdessources[i])
    {
      hide GoodSources, Values, GoodSource;
      if !rtpNew { return ERR_OUTOFMEM; }
      var s := new SDESSource(ssrc);
      ValuesSnoc(sdessources, s);
      sdessources := sdessources + [s];
      sdesit := |sdessources|;
      sdesit := sdesit - 1;
      return 0;
    }

    method AddItem(buf: seq<byte>) returns (status: int)
      requires Valid()
      modifies sdessources
      ensures Valid() && sdessources == old(sdessources)
      ensures status == if sdessources == [] then -40 else 0
      ensures status != 0 ==> View() == old(View())
      ensures status == 0 ==>
                var n := |View()| - 1;
                && View()[..n] == old(View())[..n]
                && View()[n] == Source(old(View())[n].ssrc, old(View())[n].items + [buf])
    {
      if sdessources == [] { return ERR_NOCURRENTSOURCE; }
      ghost var init := sdessources[..|sdessources| - 1];
      sdessources[sdesit].AddItem(buf);
      assert Values(init) == old(Values(init));
      return 0;
    }

    method NeededBytes() returns (x: int)
      requires Valid()
      ensures x == |SdesPackets(View())|
    {
      SdesPacketsSize(View());
      hide SdesPackets, SourceSizes, PacketCount;
      x := 0;
      if sdessources == [] { return 0; }
      x := SumUpTo(|sdessources|);
      assert View()[..|sdessources|] == View();
      x := AddHeaders(x, |sdessources|);
    }

    /** One common header for every 31 sources begun. */
    static method AddHeaders(size: int, n: int) returns (x: int)
      requires 0 <= n
      ensures x == size + HEADER_SIZE * PacketCount(n)
    {
      var d := n / 31;
      var r := n % 31;
      if r != 0 { d := d + 1; }
      x := size + d * HEADER_SIZE;
    }

    /** Adds up the needed bytes of the first `n` sources. */
    method SumUpTo(n: int) returns (x: int)
      requires Valid() && 0 <= n <= |sdessources|
      ensures x == SourceSizes(View()[..n])
    {
      hide GoodSources;
      x := 0;
      ghost var vs := View();
      for it := 0 to n
        invariant x == SourceSizes(vs[..it])
      {
        assert sdessources[it].Valid();
        ValuesAt(sdessources, it);
        NextSourceSize(vs, it);
        hide SourceSizes;
        var b := sdessources[it].NeededBytes();
        x := x + b;
      }
    }

    /** The size after an item of the given length is added to the current source. */
    method NeededBytesWithExtraItem(itemdatalength: byte) returns (x: int)
      requires Valid()
      ensures sdessources == [] ==> x == 0
      ensures sdessources != [] ==> forall buf: seq<byte> :: |buf| == 2 + itemdatalength ==>
                x == |SdesPackets(WithItem(View(), buf))|
    {
      hide SdesPackets, SourceSizes, PacketCount, GoodSources, WithItem;
      if sdessources == [] { return 0; }
      x := SumUpTo(sdesit);
      assert sdessources[sdesit].Valid();
      var b := sdessources[sdesit].NeededBytesWithExtraItem(itemdatalength);
      x := x + b;
      x := AddHeaders(x, |sdessources|);
      ValuesAt(sdessources, sdesit);
      ghost var vs := View();
      hide *;
      assert vs != [] && vs[|vs| - 1].items == sdessources[sdesit].items;
      ExtraItemSizes(vs, 2 + itemdatalength, x);
    }

    /** On a non-empty table the size after one more source is added; on an empty one, 0. */
    method NeededBytesWithExtraSource() returns (x: int)
      requires Valid()
      ensures forall ssrc :: 0 <= ssrc < 0x1_0000_0000 ==>
                (x == |SdesPackets(View() + [Source(ssrc, [])])| <==> sdessources != [])
      ensures sdessources == [] ==> x == 0
    {
      forall ssrc | 0 <= ssrc < 0x1_0000_0000
        ensures |SdesPackets(View() + [Source(ssrc, [])])| ==
                SourceSizes(View()) + 2 * WORD_SIZE + HEADER_SIZE * PacketCount(|sdessources| + 1)
      {
        WithSourceSize(View(), ssrc);
      }
      hide SdesPackets, SourceSizes;
      if sdessources == [] { return 0; }
      x := SumUpTo(|sdessources|);
      assert View()[..|sdessources|] == View();
      x := x + WORD_SIZE * 2;
      x := AddHeaders(x, |sdessources| + 1);
    }
  }

  /** `buf` added to the last source. */
  function WithItem(ss: seq<Source>, buf: seq<byte>): (r: seq<Source>)
    requires ss != []
    ensures |r| == |ss| && (GoodSources(ss) ==> GoodSources(r))
  {
    var n := |ss| - 1;
    assert GoodSources(ss) ==> GoodSource(ss[n]);
    ss[..n] + [Source(ss[n].ssrc, ss[n].items + [buf])]
  }

  lemma WithItemSize(ss: seq<Source>, buf: seq<byte>)
    requires GoodSources(ss) && ss != []
    ensures |SdesPackets(WithItem(ss, buf))| ==
            SourceSizes(ss[..|ss| - 1]) + SourceSize(ss[|ss| - 1].items + [buf]) + HEADER_SIZE * PacketCount(|ss|)
  {
    var n := |ss| - 1;
    var last := [Source(ss[n].ssrc, ss[n].items + [buf])];
    SdesPacketsSize(WithItem(ss, buf));
    SourceSizesSplit(ss[..n], last);
    assert last[1..] == [];
  }

  lemma ExtraItemSizes(ss: seq<Source>, n: int, x: int)
    requires GoodSources(ss) && ss != []
    requires forall buf: seq<byte> :: |buf| == n ==>
      x == SourceSizes(ss[..|ss| - 1]) + SourceSize(ss[|ss| - 1].items + [buf]) + HEADER_SIZE * PacketCount(|ss|)
    ensures forall buf: seq<byte> :: |buf| == n ==> x == |SdesPackets(WithItem(ss, buf))|
  {
    hide *;
    forall buf: seq<byte> | |buf| == n ensures x == |SdesPackets(WithItem(ss, buf))| { WithItemSize(ss, buf); }
  }

  lemma WithSourceSize(ss: seq<Source>, ssrc: int)
    requires GoodSources(ss) && 0 <= ssrc < 0x1_0000_0000
    ensures |SdesPackets(ss + [Source(ssrc, [])])| ==
            SourceSizes(ss) + 2 * WORD_SIZE + HEADER_SIZE * PacketCount(|ss| + 1)
  {
    var last := [Source(ssrc, [])];
    assert last[1..] == [] && SourceSizes(last) == 2 * WORD_SIZE by { assert Concat([]) == []; }
    hide *;
    assert GoodSources(ss + last) by { OneMoreGood(ss, ssrc); }
    SdesPacketsSize(ss + last);
    SourceSizesSplit(ss, last);
  }

  lemma OneMoreGood(ss: seq<Source>, ssrc: int)
    requires GoodSources(ss) && 0 <= ssrc < 0x1_0000_0000
    ensures GoodSources(ss + [Source(ssrc, [])])
  {
  }

  // ---- runs of the add operations

  /** A source added, with `rtpNew` for the memory manager, or an item of its id, its length and its data. */
  datatype AddOp = AddSource(ssrc: int, rtpNew: bool) | AddData(buf: seq<byte>)

  predicate GoodOp(op: AddOp) {
    match op
    case AddSource(ssrc, _) => 0 <= ssrc < 0x1_0000_0000
    case AddData(buf) => 2 <= |buf| <= 257
  }

  /** The sources after the operation, when there is memory for it. */
  function Added(vs: seq<Source>, op: AddOp): (r: seq<Source>)
    requires GoodOp(op) && GoodSources(vs)
    ensures GoodSources(r)
  {
    match op
    case AddSource(ssrc, _) => vs + [Source(ssrc, [])]
    case AddData(buf) => if vs == [] then vs else WithItem(vs, buf)
  }

  function AfterOp(vs: seq<Source>, op: AddOp): (r: seq<Source>)
    requires GoodOp(op) && GoodSources(vs)
    ensures GoodSources(r)
  {
    if op.AddSource? && !op.rtpNew then vs else Added(vs, op)
  }

  predicate GoodOps(ops: seq<AddOp>) { forall i :: 0 <= i < |ops| ==> GoodOp(ops[i]) }

  function AfterOps(vs: seq<Source>, ops: seq<AddOp>): (r: seq<Source>)
    requires GoodOps(ops) && GoodSources(vs)
    ensures GoodSources(r)
    decreases |ops|
  {
    if ops == [] then vs
    else
      assert GoodOp(ops[|ops| - 1]);
      AfterOp(AfterOps(vs, ops[..|ops| - 1]), ops[|ops| - 1])
  }

  /** The prediction asked for before an operation, and the size after it. */
  datatype Sizes = Sizes(predicted: int, actual: int)

  /** The size after the operation is that of the packets, and so is the prediction, unless it is for a first source. */
  predicate SizesHold(vs: seq<Source>, op: AddOp, x: Sizes)
    requires GoodOp(op) && GoodSources(vs)
  {
    && x.actual == |SdesPackets(AfterOp(vs, op))|
    && (x.predicted == |SdesPackets(Added(vs, op))| <==> op.AddData? || vs != [])
  }

  method DoAddSource(b: SDES, op: AddOp) returns (x: Sizes)
    requires b.Valid() && GoodOp(op) && op.AddSource?
    modifies b
    ensures b.Valid() && b.View() == AfterOp(old(b.View()), op) && SizesHold(old(b.View()), op, x)
    ensures old(b.sdessources) <= b.sdessources
    ensures forall i :: |old(b.sdessources)| <= i < |b.sdessources| ==> fresh(b.sdessources[i])
  {
    hide SdesPackets, GoodSources, SDES.Valid;
    var predicted := b.NeededBytesWithExtraSource();
    var _ := b.AddSSRC(op.ssrc, op.rtpNew);
    var actual := b.NeededBytes();
    x := Sizes(predicted, actual);
  }

  method DoAddData(b: SDES, op: AddOp) returns (x: Sizes)
    requires b.Valid() && GoodOp(op) && op.AddData?
    modifies b.sdessources
    ensures b.Valid() && b.View() == AfterOp(old(b.View()), op) && SizesHold(old(b.View()), op, x)
    ensures b.sdessources == old(b.sdessources)
  {
    hide SdesPackets, GoodSources, SDES.Valid, WithItem;
    NoPackets();
    ghost var was := b.View();
    var predicted := b.NeededBytesWithExtraItem(|op.buf| - 2);
    var _ := b.AddItem(op.buf);
    if was != [] { IsWithItem(was, op.buf, b.View()); }
    var actual := b.NeededBytes();
    x := Sizes(predicted, actual);
  }

  method DoAdd(b: SDES, op: AddOp) returns (x: Sizes)
    requires b.Valid() && GoodOp(op)
    modifies b, b.sdessources
    ensures b.Valid() && b.View() == AfterOp(old(b.View()), op) && SizesHold(old(b.View()), op, x)
    ensures old(b.sdessources) <= b.sdessources
    ensures forall i :: |old(b.sdessources)| <= i < |b.sdessources| ==> fresh(b.sdessources[i])
  {
    hide *;
    if op.AddSource? { x := DoAddSource(b, op); } else { x := DoAddData(b, op); }
  }

  lemma IsWithItem(ss: seq<Source>, buf: seq<byte>, r: seq<Source>)
    requires ss != [] && |r| == |ss| && r[..|r| - 1] == ss[..|r| - 1]
    requires r[|r| - 1] == Source(ss[|r| - 1].ssrc, ss[|r| - 1].items + [buf])
    ensures r == WithItem(ss, buf)
  {
    assert r == r[..|r| - 1] + [r[|r| - 1]];
  }

  lemma NoPackets()
    ensures SdesPackets([]) == []
  {
  }

  /** In every run of the add operations every size is right, and every prediction but that for a first source. */
  method RunAdds(ops: seq<AddOp>) returns (xs: seq<Sizes>)
    requires GoodOps(ops)
    ensures |xs| == |ops|
    ensures forall i :: 0 <= i < |ops| ==> GoodOps(ops[..i]) && SizesHold(AfterOps([], ops[..i]), ops[i], xs[i])
  {
    hide AfterOp, SizesHold, GoodOp, SDES.Valid;
    var b := new SDES();
    xs := [];
    for i := 0 to |ops|
      invariant b.Valid() && fresh(b) && forall j :: 0 <= j < |b.sdessources| ==> fresh(b.sdessources[j])
      invariant |xs| == i && b.View() == AfterOps([], ops[..i])
      invariant forall j :: 0 <= j < i ==> GoodOps(ops[..j]) && SizesHold(AfterOps([], ops[..j]), ops[j], xs[j])
    {
      assert ops[..i + 1][..i] == ops[..i] && ops[..i + 1][i] == ops[i];
      var x := DoAdd(b, ops[i]);
      xs := xs + [x];
    }
  }
}
