/** SDES packets on the wire: section 6.5 of RFC 3550 as a serializer, and reading back by offsets. */
module SdesWire {
  import opened Common

  type byte = b: int | 0 <= b < 256

  /** An item with its type id; id 0 would end the list and a length takes one byte. */
  datatype Item = Item(id: byte, data: seq<byte>) {
    predicate Legal() { id != 0 && |data| <= 255 }

    function Bytes(): seq<byte>
      requires Legal()
    {
      [id, |data|] + data
    }
  }

  datatype Chunk = Chunk(ssrc: int, items: seq<Item>) {
    predicate Legal() {
      0 <= ssrc < 0x1_0000_0000 && forall i :: 0 <= i < |items| ==> items[i].Legal()
    }
  }

  const SDES_TYPE := 202

  // ---- writing

  function Zeros(n: nat): (z: seq<byte>)
    ensures |z| == n && forall i :: 0 <= i < n ==> z[i] == 0
  {
    seq(n, _ => 0)
  }

  /** 32 bits in network byte order. */
  function Word(v: int): (w: seq<byte>)
    requires 0 <= v < 0x1_0000_0000
    ensures |w| == 4
  {
    [v / 0x100 / 0x100 / 0x100, v / 0x100 / 0x100 % 0x100, v / 0x100 % 0x100, v % 0x100]
  }

  function WordAt(d: seq<byte>, off: nat): int
    requires off + 4 <= |d|
  {
    d[off] as int * 0x100_0000 + d[off + 1] as int * 0x1_0000 + d[off + 2] as int * 0x100 + d[off + 3]
  }

  function Concat(bs: seq<seq<byte>>): seq<byte> {
    if bs == [] then [] else bs[0] + Concat(bs[1..])
  }

  /** SSRC, then the items, then one to four zero bytes up to a 32-bit boundary. */
  function ChunkBytes(ssrc: int, items: seq<seq<byte>>): seq<byte>
    requires 0 <= ssrc < 0x1_0000_0000
  {
    var body := Concat(items);
    Word(ssrc) + (body + Zeros(4 - |body| % 4))
  }

  function ItemBytes(items: seq<Item>): (bs: seq<seq<byte>>)
    requires forall i :: 0 <= i < |items| ==> items[i].Legal()
    ensures |bs| == |items| && forall i :: 0 <= i < |items| ==> bs[i] == items[i].Bytes()
  {
    seq(|items|, i requires 0 <= i < |items| => items[i].Bytes())
  }

  function ChunksBytes(cs: seq<Chunk>): seq<byte>
    requires forall i :: 0 <= i < |cs| ==> cs[i].Legal()
  {
    if cs == [] then []
    else
      assert cs[0].Legal();
      ChunkBytes(cs[0].ssrc, ItemBytes(cs[0].items)) + ChunksBytes(cs[1..])
  }

  /** Version 2, no padding, the chunk count, the packet type, and the length in words minus one. */
  function Header(count: nat, packetType: byte, bodySize: nat): (h: seq<byte>)
    requires count <= 31
    ensures |h| == 4 && h[0] % 32 == count
  {
    var words := (bodySize + 3) / 4;
    [0x80 + count, packetType, words / 0x100 % 0x100, words % 0x100]
  }

  function PacketBytes(cs: seq<Chunk>): seq<byte>
    requires |cs| <= 31 && forall i :: 0 <= i < |cs| ==> cs[i].Legal()
  {
    Header(|cs|, SDES_TYPE, |ChunksBytes(cs)|) + ChunksBytes(cs)
  }

  // ---- reading

  /** Offset of the zero byte that ends the item list starting at `off`, if it is inside `d`. */
  function ListEnd(d: seq<byte>, off: nat): (r: Option<nat>)
    ensures r.Some? ==> off <= r.value < |d|
    decreases |d| - off
  {
    if off >= |d| then None
    else if d[off] == 0 then Some(off)
    else if off + 1 >= |d| then None
    else ListEnd(d, off + 2 + d[off + 1])
  }

  function ReadItems(d: seq<byte>, off: nat): (items: seq<Item>)
    requires ListEnd(d, off).Some?
    ensures forall i :: 0 <= i < |items| ==> items[i].Legal()
    decreases |d| - off
  {
    if d[off] == 0 then []
    else
      var next := off + 2 + d[off + 1];
      [Item(d[off], d[off + 2..next])] + ReadItems(d, next)
  }

  function RoundUp4(n: nat): (r: nat)
    ensures r % 4 == 0 && n <= r < n + 4
  {
    if n % 4 != 0 then n + (4 - n % 4) else n
  }

  /** From one chunk to the next: past the SSRC, the items and the zero byte, rounded up. */
  function NextChunk(d: seq<byte>, off: nat): (r: nat)
    requires ListEnd(d, off + 4).Some?
    ensures r > off && (off % 4 == 0 ==> r % 4 == 0)
  {
    off + RoundUp4(ListEnd(d, off + 4).value + 1 - off)
  }

  /** `n` chunks lie inside `d` from `off` on. */
  predicate ChunksFit(d: seq<byte>, off: nat, n: nat)
    decreases n
  {
    n > 0 ==> ListEnd(d, off + 4).Some? && ChunksFit(d, NextChunk(d, off), n - 1)
  }

  function ReadChunks(d: seq<byte>, off: nat, n: nat): (cs: seq<Chunk>)
    requires ChunksFit(d, off, n)
    ensures |cs| == n
    decreases n
  {
    if n == 0 then []
    else [Chunk(WordAt(d, off), ReadItems(d, off + 4))] + ReadChunks(d, NextChunk(d, off), n - 1)
  }

  // ---- reading what was written

  /** An item in front of a readable list is a readable list. */
  lemma ReadOneThenItems(pre: seq<byte>, it: Item, tail: seq<byte>, d: seq<byte>, end: Option<nat>, rest: seq<Item>)
    requires it.Legal() && d == (pre + it.Bytes()) + tail && end.Some?
    requires ListEnd(d, |pre + it.Bytes()|) == end && ReadItems(d, |pre + it.Bytes()|) == rest
    ensures ListEnd(d, |pre|) == end && ReadItems(d, |pre|) == [it] + rest
  {
    assert d[|pre|] == it.Bytes()[0] && d[|pre| + 1] == it.Bytes()[1];
    assert d[|pre| + 2..|pre + it.Bytes()|] == it.data;
  }

  /** What a readable list at `off` says when it does not end there. */
  lemma ReadItemsStep(d: seq<byte>, off: nat)
    requires ListEnd(d, off).Some?
    ensures d[off] == 0 <==> ReadItems(d, off) == []
    ensures d[off] != 0 ==> off + 1 < |d|
    ensures d[off] != 0 ==>
              var next := off + 2 + d[off + 1];
              next < |d| && ListEnd(d, next).Some? &&
              ReadItems(d, off) == [Item(d[off], d[off + 2..next])] + ReadItems(d, next) &&
              (d[next] == 0 <==> ReadItems(d, next) == [])
  {
    if d[off] != 0 {
      var next := off + 2 + d[off + 1];
      assert d[next] == 0 <==> ReadItems(d, next) == [];
    }
  }

  lemma Assoc(a: seq<byte>, b: seq<byte>, c: seq<byte>)
    ensures a + (b + c) == (a + b) + c
  {
  }

  lemma ItemsSplit(items: seq<Item>)
    requires items != [] && forall i :: 0 <= i < |items| ==> items[i].Legal()
    ensures items == [items[0]] + items[1..]
    ensures Concat(ItemBytes(items)) == items[0].Bytes() + Concat(ItemBytes(items[1..]))
  {
    assert ItemBytes(items)[1..] == ItemBytes(items[1..]);
  }

  lemma {:induction false} ReadWrittenItems(pre: seq<byte>, items: seq<Item>, post: seq<byte>, d: seq<byte>)
    requires forall i :: 0 <= i < |items| ==> items[i].Legal()
    requires post != [] && post[0] == 0 && d == pre + (Concat(ItemBytes(items)) + post)
    ensures ListEnd(d, |pre|) == Some(|pre| + |Concat(ItemBytes(items))|) && ReadItems(d, |pre|) == items
    decreases |items|
  {
    if items == [] {
      assert d[|pre|] == post[0];
    } else {
      ItemsSplit(items);
      hide *;
      var b, rest := items[0].Bytes(), Concat(ItemBytes(items[1..]));
      Assoc(b, rest, post);
      Assoc(pre, b, rest + post);
      ReadWrittenItems(pre + b, items[1..], post, d);
      ReadOneThenItems(pre, items[0], rest + post, d, Some(|pre + b| + |rest|), items[1..]);
    }
  }

  lemma WordReads(v: int)
    requires 0 <= v < 0x1_0000_0000
    ensures WordAt(Word(v), 0) == v
  {
    var high := v / 0x100;
    var higher := high / 0x100;
    var highest := higher / 0x100;
    assert Word(v) == [highest, higher % 0x100, high % 0x100, v % 0x100];
    assert v == 0x100 * high + v % 0x100 && high == 0x100 * higher + high % 0x100;
    assert higher == 0x100 * highest + higher % 0x100;
  }

  lemma WordAtSlice(d: seq<byte>, off: nat, v: int)
    requires off + 4 <= |d| && 0 <= v < 0x1_0000_0000 && d[off..off + 4] == Word(v)
    ensures WordAt(d, off) == v
  {
    var w := d[off..off + 4];
    WordReads(v);
    hide Word;
    assert d[off] == w[0] && d[off + 1] == w[1] && d[off + 2] == w[2] && d[off + 3] == w[3];
  }

  /** Rounding up after the SSRC, as the reader does, or before it, as the writer does, is the same. */
  lemma PaddingAgrees(n: nat)
    ensures 4 + n + (4 - n % 4) == RoundUp4(4 + n + 1) == 4 + RoundUp4(n + 1)
    ensures RoundUp4(4 + n + 1) % 4 == 0
  {
  }

  lemma ChunkSize(ssrc: int, items: seq<seq<byte>>)
    requires 0 <= ssrc < 0x1_0000_0000
    ensures |ChunkBytes(ssrc, items)| == 4 + RoundUp4(|Concat(items)| + 1)
    ensures |ChunkBytes(ssrc, items)| % 4 == 0
  {
    PaddingAgrees(|Concat(items)|);
  }

  lemma Regroup(pre: seq<byte>, w: seq<byte>, body: seq<byte>, z: seq<byte>, post: seq<byte>)
    ensures pre + ((w + (body + z)) + post) == (pre + w) + (body + (z + post))
    ensures (pre + ((w + (body + z)) + post))[|pre|..|pre| + |w|] == w
  {
  }

  lemma ReadWrittenItemList(pre: seq<byte>, c: Chunk, post: seq<byte>, d: seq<byte>)
    requires c.Legal() && d == pre + (ChunkBytes(c.ssrc, ItemBytes(c.items)) + post)
    ensures ListEnd(d, |pre| + 4) == Some(|pre| + 4 + |Concat(ItemBytes(c.items))|)
    ensures ReadItems(d, |pre| + 4) == c.items && d[|pre|..|pre| + 4] == Word(c.ssrc)
  {
    var w, body := Word(c.ssrc), Concat(ItemBytes(c.items));
    var z := Zeros(4 - |body| % 4);
    assert ChunkBytes(c.ssrc, ItemBytes(c.items)) == w + (body + z);
    hide *;
    Regroup(pre, w, body, z, post);
    ReadWrittenItems(pre + w, c.items, z + post, d);
  }

  lemma ReadWrittenChunk(pre: seq<byte>, c: Chunk, post: seq<byte>, d: seq<byte>)
    requires c.Legal() && d == pre + (ChunkBytes(c.ssrc, ItemBytes(c.items)) + post)
    ensures ListEnd(d, |pre| + 4).Some?
    ensures NextChunk(d, |pre|) == |pre| + |ChunkBytes(c.ssrc, ItemBytes(c.items))|
    ensures WordAt(d, |pre|) == c.ssrc && ReadItems(d, |pre| + 4) == c.items
  {
    hide ListEnd, ReadItems, ChunkBytes, Word, WordAt, RoundUp4, Concat, ItemBytes;
    ReadWrittenItemList(pre, c, post, d);
    ChunkSize(c.ssrc, ItemBytes(c.items));
    PaddingAgrees(|Concat(ItemBytes(c.items))|);
    WordAtSlice(d, |pre|, c.ssrc);
  }

  lemma ReadOneThenRest(d: seq<byte>, off: nat, n: nat, c: Chunk, next: nat, rest: seq<Chunk>)
    requires n > 0 && ListEnd(d, off + 4).Some? && NextChunk(d, off) == next
    requires WordAt(d, off) == c.ssrc && ReadItems(d, off + 4) == c.items
    requires ChunksFit(d, next, n - 1) && ReadChunks(d, next, n - 1) == rest
    ensures ChunksFit(d, off, n) && ReadChunks(d, off, n) == [c] + rest
  {
  }

  lemma ChunksSplit(cs: seq<Chunk>)
    requires cs != [] && forall i :: 0 <= i < |cs| ==> cs[i].Legal()
    ensures cs == [cs[0]] + cs[1..] && cs[0].Legal() && 0 <= cs[0].ssrc < 0x1_0000_0000
    ensures forall i :: 0 <= i < |cs[0].items| ==> cs[0].items[i].Legal()
    ensures ChunksBytes(cs) == ChunkBytes(cs[0].ssrc, ItemBytes(cs[0].items)) + ChunksBytes(cs[1..])
  {
  }

  lemma ReadNoChunks(d: seq<byte>, off: nat)
    ensures ChunksFit(d, off, 0) && ReadChunks(d, off, 0) == []
  {
  }

  lemma {:induction false} ReadWrittenChunks(pre: seq<byte>, cs: seq<Chunk>, d: seq<byte>)
    requires (forall i :: 0 <= i < |cs| ==> cs[i].Legal()) && d == pre + ChunksBytes(cs)
    ensures ChunksFit(d, |pre|, |cs|) && ReadChunks(d, |pre|, |cs|) == cs
    decreases |cs|
  {
    hide *;
    if cs == [] {
      ReadNoChunks(d, |pre|);
      assert cs == [];
    } else {
      ChunksSplit(cs);
      var b, rest := ChunkBytes(cs[0].ssrc, ItemBytes(cs[0].items)), ChunksBytes(cs[1..]);
      ReadWrittenChunk(pre, cs[0], rest, d);
      Assoc(pre, b, rest);
      ReadWrittenChunks(pre + b, cs[1..], d);
      ReadOneThenRest(d, |pre|, |cs|, cs[0], |pre + b|, cs[1..]);
    }
  }

  lemma WholeWords(a: int, b: int)
    requires a % 4 == 0 && b % 4 == 0
    ensures (a + b) % 4 == 0
  {
  }

  lemma {:induction false} ChunksAligned(cs: seq<Chunk>)
    requires forall i :: 0 <= i < |cs| ==> cs[i].Legal()
    ensures |ChunksBytes(cs)| % 4 == 0
    decreases |cs|
  {
    if cs != [] {
      assert cs[0].Legal();
      var b := ChunkBytes(cs[0].ssrc, ItemBytes(cs[0].items));
      assert |b| % 4 == 0 by { ChunkSize(cs[0].ssrc, ItemBytes(cs[0].items)); }
      hide ChunkBytes, ItemBytes;
      ChunksAligned(cs[1..]);
      assert ChunksBytes(cs) == b + ChunksBytes(cs[1..]);
      WholeWords(|b|, |ChunksBytes(cs[1..])|);
    }
  }

  lemma PacketHeader(cs: seq<Chunk>)
    requires |cs| <= 31 && forall i :: 0 <= i < |cs| ==> cs[i].Legal()
    ensures |PacketBytes(cs)| % 4 == 0 && PacketBytes(cs)[0] % 32 == |cs|
  {
    hide Header, ChunksBytes;
    ChunksAligned(cs);
    var h := Header(|cs|, SDES_TYPE, |ChunksBytes(cs)|);
    assert PacketBytes(cs) == h + ChunksBytes(cs);
    hide *;
    assert PacketBytes(cs)[0] == h[0];
  }

  /** Chunks written to a packet are read back unchanged; nothing is read outside the packet. */
  lemma RoundTrip(cs: seq<Chunk>)
    requires |cs| <= 31 && forall i :: 0 <= i < |cs| ==> cs[i].Legal()
    ensures |PacketBytes(cs)| % 4 == 0 && PacketBytes(cs)[0] % 32 == |cs|
    ensures ChunksFit(PacketBytes(cs), 4, |cs|) && ReadChunks(PacketBytes(cs), 4, |cs|) == cs
  {
    var h := Header(|cs|, SDES_TYPE, |ChunksBytes(cs)|);
    assert PacketBytes(cs) == h + ChunksBytes(cs);
    hide *;
    PacketHeader(cs);
    ReadWrittenChunks(h, cs, PacketBytes(cs));
  }

  // ---- the packet byte by byte

  /**
   The header of a packet of whole words: version 2, the count, the type, and the length in
   words minus one, which its sixteen bits hold exactly up to 65536 words.
   */
  lemma HeaderFields(count: nat, packetType: byte, bodySize: nat)
    requires count <= 31 && bodySize % 4 == 0
    ensures var h := Header(count, packetType, bodySize);
            && h[0] == 2 * 0x40 + count && h[1] == packetType
            && (4 * (h[2] as int * 0x100 + h[3] as int + 1) == 4 + bodySize <==> 4 + bodySize <= 0x4_0000)
  {
    var words := bodySize / 4;
    assert (bodySize + 3) / 4 == words && bodySize == 4 * words;
    var h := Header(count, packetType, bodySize);
    assert h[2] == words / 0x100 % 0x100 && h[3] == words % 0x100 && h[0] == 0x80 + count && h[1] == packetType;
    hide Header;
    SixteenBits(words);
  }

  lemma SixteenBits(words: nat)
    ensures words / 0x100 % 0x100 * 0x100 + words % 0x100 == words <==> words < 0x1_0000
  {
  }

  /** An SDES packet says that it is one, how many chunks it has, and how long it is. */
  lemma PacketFields(cs: seq<Chunk>)
    requires |cs| <= 31 && forall i :: 0 <= i < |cs| ==> cs[i].Legal()
    ensures var p := PacketBytes(cs);
            && |p| >= 4 && p[0] == 2 * 0x40 + |cs| && p[1] == 202
            && (|p| <= 0x4_0000 <==> 4 * (p[2] as int * 0x100 + p[3] as int + 1) == |p|)
  {
    ChunksAligned(cs);
    HeaderFields(|cs|, SDES_TYPE, |ChunksBytes(cs)|);
    hide Header;
  }

  /** One packet: the chunk of source 0x01020304 with the CNAME "ab" and an empty NOTE. */
  lemma OnePacket()
    ensures PacketBytes([Chunk(0x0102_0304, [Item(1, [97, 98]), Item(7, [])])]) ==
            [0x81, 202, 0, 3, 1, 2, 3, 4, 1, 2, 97, 98, 7, 0, 0, 0]
  {
    var a, b := Item(1, [97, 98]), Item(7, []);
    var c := Chunk(0x0102_0304, [a, b]);
    OneBody(a, b);
    OneChunk(c, [1, 2, 97, 98, 7, 0]);
    hide *;
    assert ChunkBytes(c.ssrc, ItemBytes(c.items)) == [1, 2, 3, 4, 1, 2, 97, 98, 7, 0, 0, 0];
    OneChunkPacket(c);
  }

  lemma OneChunkPacket(c: Chunk)
    requires c.Legal() && |ChunkBytes(c.ssrc, ItemBytes(c.items))| == 12
    ensures PacketBytes([c]) == [0x81, 202, 0, 3] + ChunkBytes(c.ssrc, ItemBytes(c.items))
  {
    hide ChunkBytes, ItemBytes;
    var b := ChunkBytes(c.ssrc, ItemBytes(c.items));
    assert [c][1..] == [] && ChunksBytes([]) == [];
    assert ChunksBytes([c]) == b + [] == b;
    assert Header(1, SDES_TYPE, 12) == [0x81, 202, 0, 3];
  }

  lemma OneChunk(c: Chunk, body: seq<byte>)
    requires c.Legal() && c.ssrc == 0x0102_0304 && Concat(ItemBytes(c.items)) == body && |body| == 6
    ensures ChunkBytes(c.ssrc, ItemBytes(c.items)) == [1, 2, 3, 4] + (body + [0, 0])
  {
    hide Concat, ItemBytes;
    assert Zeros(2) == [0, 0] && Word(c.ssrc) == [1, 2, 3, 4];
  }

  lemma OneBody(a: Item, b: Item)
    requires a.Legal() && b.Legal()
    ensures Concat(ItemBytes([a, b])) == [a.id, |a.data|] + a.data + ([b.id, |b.data|] + b.data)
  {
    assert ItemBytes([a, b])[1..] == [b.Bytes()] && [b.Bytes()][1..] == [];
    assert Concat([]) == [];
  }
}
