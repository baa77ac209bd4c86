/** The SDES packet reader: a cursor over chunks and a cursor over the items of the current chunk. */
module SdesPacket {
  import opened Common
  import opened SdesWire

  datatype ItemType = None_ | CNAME | NAME | EMAIL | PHONE | LOC | TOOL | NOTE | PRIV | Unknown

  /** The null pointer; other pointers into the packet are offsets. */
  const NULL := -1

  const SDES_ID_PRIVATE := 8

  /** What a PRIV item's data says: prefix length, prefix, value. An impossible length means neither. */
  function PrivateParts(data: seq<byte>): (seq<byte>, seq<byte>) {
    if |data| == 0 || data[0] > |data| - 1 then ([], [])
    else (data[1..1 + data[0]], data[1 + data[0]..])
  }

  lemma PrivatePartsRoundTrip(prefix: seq<byte>, value: seq<byte>)
    requires |prefix| + |value| <= 254
    ensures PrivateParts([|prefix|] + prefix + value) == (prefix, value)
    ensures forall data: seq<byte> :: |data| == 0 || data[0] >= |data| ==> PrivateParts(data) == ([], [])
  {
    var data: seq<byte> := [|prefix|] + prefix + value;
    assert data[0] == |prefix|;
    assert data[1..1 + |prefix|] == prefix && data[1 + |prefix|..] == value;
  }

  function PartsOf(it: Item): (seq<byte>, seq<byte>) {
    if it.id == SDES_ID_PRIVATE then PrivateParts(it.data) else ([], [])
  }

  /** What reading `n + 1` chunks says about the next `n`. */
  lemma ReadOn(d: seq<byte>, off: nat, n: nat)
    requires ChunksFit(d, off, n + 1)
    ensures ListEnd(d, off + 4).Some? && ChunksFit(d, NextChunk(d, off), n)
    ensures ReadChunks(d, off, n + 1)[1..] == ReadChunks(d, NextChunk(d, off), n)
    ensures n > 0 ==> ListEnd(d, NextChunk(d, off) + 4).Some? &&
                      ReadChunks(d, NextChunk(d, off), n)[0].items == ReadItems(d, NextChunk(d, off) + 4)
  {
  }

  class RTCPSDESPacket {
    const data: seq<byte>
    const knownformat: bool
    /** The five-bit count of the header. */
    ghost const count: nat
    var currentchunk: int
    var curchunknum: int
    var itemoffset: int

    /** A recognised packet has a header, and its announced chunks lie inside it. */
    ghost predicate WellFormed() {
      knownformat ==> |data| >= 4 && count == data[0] % 32 && ChunksFit(data, 4, count)
    }

    /** All chunks of the packet. */
    ghost function Chunks(): (cs: seq<Chunk>)
      requires WellFormed()
    {
      if knownformat then ReadChunks(data, 4, count) else []
    }

    ghost predicate Valid()
      reads this
    {
      && WellFormed()
      && (knownformat && currentchunk != NULL ==>
            && 4 <= currentchunk && currentchunk % 4 == 0
            && 1 <= curchunknum <= count
            && ChunksFit(data, currentchunk, count - curchunknum + 1)
            && 4 <= itemoffset && ListEnd(data, currentchunk + itemoffset).Some?)
    }

    /** The current chunk and those after it. */
    ghost function RestChunks(): (cs: seq<Chunk>)
      requires Valid()
      reads this
      ensures knownformat && currentchunk != NULL ==> |cs| == count - curchunknum + 1
    {
      if knownformat && currentchunk != NULL
      then ReadChunks(data, currentchunk, count - curchunknum + 1) else []
    }

    /** The current item and those after it in the current chunk. */
    ghost function RestItems(): seq<Item>
      requires Valid()
      reads this
    {
      if knownformat && currentchunk != NULL then ReadItems(data, currentchunk + itemoffset) else []
    }

    /** The item cursor is on the first item of the current chunk. */
    ghost predicate AtFirstItem()
      requires Valid()
      reads this
    {
      RestChunks() != [] && RestItems() == RestChunks()[0].items
    }

    /** The current chunk starts where the chunk at `before` ends, rounded up. */
    ghost predicate IsNextAfter(before: int)
      reads this
    {
      0 <= before && ListEnd(data, before + 4).Some? && currentchunk == NextChunk(data, before)
    }

    /** Before the first GotoFirstChunk there is no current chunk. */
    constructor (packet: seq<byte>, known: bool)
      requires known ==> |packet| >= 4 && ChunksFit(packet, 4, packet[0] % 32)
      ensures Valid() && data == packet && knownformat == known && currentchunk == NULL
    {
      data, knownformat := packet, known;
      count := if known then packet[0] % 32 else 0;
      currentchunk, curchunknum, itemoffset := NULL, 0, 0;
    }

    function GetChunkCount(): (n: nat)
      requires WellFormed()
      ensures n == |Chunks()|
    {
      if !knownformat then 0 else data[0] % 32
    }

    method GotoFirstChunk() returns (ok: bool)
      requires Valid()
      modifies this
      ensures Valid() && RestChunks() == Chunks()
      ensures ok == (Chunks() != [])
      ensures ok ==> currentchunk == 4 && RestItems() == Chunks()[0].items
    {
      if GetChunkCount() == 0 {
        currentchunk := NULL;
        return false;
      }
      currentchunk := 4;
      curchunknum := 1;
      itemoffset := 4;
      return true;
    }

    method GotoNextChunk() returns (ok: bool)
      requires Valid()
      modifies this
      ensures Valid()
      ensures ok == (|old(RestChunks())| > 1)
      ensures ok ==> RestChunks() == old(RestChunks())[1..] && AtFirstItem() && IsNextAfter(old(currentchunk))
      ensures !ok ==> RestChunks() == old(RestChunks()) && RestItems() == old(RestItems())
    {
      hide ListEnd, ReadItems, ReadChunks, ChunksFit, NextChunk;
      if !knownformat { return false; }
      if currentchunk == NULL { return false; }
      if curchunknum == GetChunkCount() { return false; }

      ReadOn(data, currentchunk, count - curchunknum);
      var offset := ChunkDistance();
      currentchunk := currentchunk + offset;
      curchunknum := curchunknum + 1;
      itemoffset := 4;
      return true;
    }

    /** Distance to the next chunk: past the zero byte that ends the items, and on to a 32-bit boundary. */
    method ChunkDistance() returns (offset: int)
      requires 0 <= currentchunk && ListEnd(data, currentchunk + 4).Some?
      ensures currentchunk + offset == NextChunk(data, currentchunk)
    {
      offset := 4;
      var sdeshdr := currentchunk + 4;
      while data[sdeshdr] != 0
        invariant sdeshdr == currentchunk + offset && offset >= 4
        invariant ListEnd(data, sdeshdr).Some? && ListEnd(data, sdeshdr) == ListEnd(data, currentchunk + 4)
        decreases |data| - sdeshdr
      {
        offset := offset + 2;
        offset := offset + data[sdeshdr + 1];
        sdeshdr := currentchunk + offset;
      }
      offset := offset + 1;
      if offset % 4 != 0 {
        offset := offset + (4 - offset % 4);
      }
    }

    method GetChunkSSRC() returns (ssrc: int)
      requires Valid()
      ensures ssrc == if RestChunks() != [] then RestChunks()[0].ssrc else 0
    {
      if !knownformat { return 0; }
      if currentchunk == NULL { return 0; }
      return WordAt(data, currentchunk);
    }

    method GotoFirstItem() returns (ok: bool)
      requires Valid()
      modifies this`itemoffset
      ensures Valid() && RestChunks() == old(RestChunks())
      ensures RestChunks() != [] ==> RestItems() == RestChunks()[0].items
      ensures ok == (RestItems() != [])
    {
      if !knownformat { return false; }
      if currentchunk == NULL { return false; }
      itemoffset := 4;
      if data[currentchunk + itemoffset] == 0 { return false; }
      return true;
    }

    /** On the last item the cursor stays where it is. */
    method GotoNextItem() returns (ok: bool)
      requires Valid()
      modifies this`itemoffset
      ensures Valid() && RestChunks() == old(RestChunks())
      ensures ok == (|old(RestItems())| > 1)
      ensures RestItems() == if ok then old(RestItems())[1..] else old(RestItems())
    {
      hide ListEnd, ReadItems, ChunksFit, ReadChunks;
      if !knownformat { return false; }
      if currentchunk == NULL { return false; }
      var sdeshdr := currentchunk + itemoffset;
      ReadItemsStep(data, sdeshdr);
      if data[sdeshdr] == 0 { return false; }
      var offset := itemoffset;
      offset := offset + 2;
      offset := offset + data[sdeshdr + 1];
      sdeshdr := currentchunk + offset;
      if data[sdeshdr] == 0 { return false; }
      itemoffset := offset;
      return true;
    }

    method GetItemType() returns (t: ItemType)
      requires Valid()
      ensures t == None_ <==> RestItems() == []
      ensures RestItems() != [] ==>
                var id := RestItems()[0].id;
                && (t == CNAME <==> id == 1) && (t == NAME <==> id == 2) && (t == EMAIL <==> id == 3)
                && (t == PHONE <==> id == 4) && (t == LOC <==> id == 5) && (t == TOOL <==> id == 6)
                && (t == NOTE <==> id == 7) && (t == PRIV <==> id == 8) && (t == Unknown <==> id > 8)
    {
      hide ListEnd, ReadItems, ChunksFit, ReadChunks;
      if !knownformat { return None_; }
      if currentchunk == NULL { return None_; }
      ReadItemsStep(data, currentchunk + itemoffset);
      match data[currentchunk + itemoffset] {
        case 0 => return None_;
        case 1 => return CNAME;
        case 2 => return NAME;
        case 3 => return EMAIL;
        case 4 => return PHONE;
        case 5 => return LOC;
        case 6 => return TOOL;
        case 7 => return NOTE;
        case 8 => return PRIV;
        case _ => return Unknown;
      }
    }

    method GetItemLength() returns (n: int)
      requires Valid()
      ensures n == if RestItems() == [] then 0 else |RestItems()[0].data|
    {
      if !knownformat { return 0; }
      if currentchunk == NULL { return 0; }
      if data[currentchunk + itemoffset] == 0 { return 0; }
      return data[currentchunk + itemoffset + 1];
    }

    method GetItemData() returns (p: int)
      requires Valid()
      ensures RestItems() == [] ==> p == NULL
      ensures RestItems() != [] ==> Points(p, RestItems()[0].data)
    {
      if !knownformat { return NULL; }
      if currentchunk == NULL { return NULL; }
      if data[currentchunk + itemoffset] == 0 { return NULL; }
      return currentchunk + itemoffset + 2;
    }

    /** `bytes` lie inside the packet at `p`. */
    ghost predicate Points(p: int, bytes: seq<byte>) {
      0 <= p <= p + |bytes| <= |data| && data[p..p + |bytes|] == bytes
    }

    /** Prefix and value of the data of a PRIV item, both empty for any other item or none. */
    ghost function Private(): (parts: (seq<byte>, seq<byte>))
      requires Valid()
      reads this
      ensures RestItems() == [] || RestItems()[0].id != 8 ==> parts == ([], [])
      ensures RestItems() != [] && RestItems()[0].id == 8 ==> parts == PrivateParts(RestItems()[0].data)
    {
      if RestItems() == [] then ([], []) else PartsOf(RestItems()[0])
    }

    method GetPRIVPrefixLength() returns (n: int)
      requires Valid()
      ensures n == |Private().0|
    {
      hide ListEnd, ReadItems, ChunksFit, ReadChunks;
      if !knownformat { return 0; }
      if currentchunk == NULL { return 0; }
      var sdeshdr := currentchunk + itemoffset;
      ReadItemsStep(data, sdeshdr);
      if data[sdeshdr] != SDES_ID_PRIVATE { return 0; }
      if data[sdeshdr + 1] == 0 { return 0; }
      var prefixlength := data[sdeshdr + 2];
      if prefixlength > data[sdeshdr + 1] - 1 { return 0; }
      return prefixlength;
    }

    method GetPRIVPrefixData() returns (p: int)
      requires Valid()
      ensures Private().0 == [] ==> p == NULL
      ensures Private().0 != [] ==> Points(p, Private().0)
    {
      hide ListEnd, ReadItems, ChunksFit, ReadChunks;
      if !knownformat { return NULL; }
      if currentchunk == NULL { return NULL; }
      var sdeshdr := currentchunk + itemoffset;
      ReadItemsStep(data, sdeshdr);
      if data[sdeshdr] != SDES_ID_PRIVATE { return NULL; }
      if data[sdeshdr + 1] == 0 { return NULL; }
      var prefixlength := data[sdeshdr + 2];
      if prefixlength > data[sdeshdr + 1] - 1 { return NULL; }
      if prefixlength == 0 { return NULL; }
      return sdeshdr + 2 + 1;
    }

    method GetPRIVValueLength() returns (n: int)
      requires Valid()
      ensures n == |Private().1|
    {
      hide ListEnd, ReadItems, ChunksFit, ReadChunks;
      if !knownformat { return 0; }
      if currentchunk == NULL { return 0; }
      var sdeshdr := currentchunk + itemoffset;
      ReadItemsStep(data, sdeshdr);
      if data[sdeshdr] != SDES_ID_PRIVATE { return 0; }
      if data[sdeshdr + 1] == 0 { return 0; }
      var prefixlength := data[sdeshdr + 2];
      if prefixlength > data[sdeshdr + 1] - 1 { return 0; }
      return data[sdeshdr + 1] - prefixlength - 1;
    }

    method GetPRIVValueData() returns (p: int)
      requires Valid()
      ensures Private().1 == [] ==> p == NULL
      ensures Private().1 != [] ==> Points(p, Private().1)
    {
      hide ListEnd, ReadItems, ChunksFit, ReadChunks;
      if !knownformat { return NULL; }
      if currentchunk == NULL { return NULL; }
      var sdeshdr := currentchunk + itemoffset;
      ReadItemsStep(data, sdeshdr);
      if data[sdeshdr] != SDES_ID_PRIVATE { return NULL; }
      if data[sdeshdr + 1] == 0 { return NULL; }
      var prefixlength := data[sdeshdr + 2];
      if prefixlength > data[sdeshdr + 1] - 1 { return NULL; }
      var valuelen := data[sdeshdr + 1] - prefixlength - 1;
      if valuelen == 0 { return NULL; }
      return sdeshdr + 2 + 1 + prefixlength;
    }
  }

  function TypeOf(id: byte): ItemType {
    var known := [None_, CNAME, NAME, EMAIL, PHONE, LOC, TOOL, NOTE, PRIV];
    if id < |known| then known[id] else Unknown
  }

  /** What a reader learns of an item: its type, its length, its data, and the parts of a PRIV item. */
  datatype Seen = Seen(itemType: ItemType, length: int, data: seq<byte>, prefix: seq<byte>, value: seq<byte>)

  datatype SeenChunk = SeenChunk(ssrc: int, items: seq<Seen>)

  function See(it: Item): Seen {
    Seen(TypeOf(it.id), |it.data|, it.data, PartsOf(it).0, PartsOf(it).1)
  }

  function SeeItems(items: seq<Item>): seq<Seen> {
    if items == [] then [] else [See(items[0])] + SeeItems(items[1..])
  }

  function SeeChunk(c: Chunk): SeenChunk {
    SeenChunk(c.ssrc, SeeItems(c.items))
  }

  function SeeChunks(cs: seq<Chunk>): seq<SeenChunk> {
    if cs == [] then [] else [SeeChunk(cs[0])] + SeeChunks(cs[1..])
  }

  lemma {:induction false} SeenChunksAt(cs: seq<Chunk>)
    ensures |SeeChunks(cs)| == |cs| && forall i :: 0 <= i < |cs| ==> SeeChunks(cs)[i] == SeeChunk(cs[i])
  {
    if cs != [] { SeenChunksAt(cs[1..]); }
  }

  /** Nothing is lost in what a reader sees as long as the item ids are the defined ones. */
  lemma {:induction false} SeenItemsDetermineItems(a: seq<Item>, b: seq<Item>)
    requires SeeItems(a) == SeeItems(b)
    requires forall i :: 0 <= i < |a| ==> 1 <= a[i].id <= 8
    ensures a == b
  {
    assert a == [] <==> b == [];
    if a != [] {
      assert SeeItems(a)[0] == SeeItems(b)[0] && SeeItems(a)[1..] == SeeItems(b)[1..];
      assert a[0] == b[0];
      SeenItemsDetermineItems(a[1..], b[1..]);
      assert a == [a[0]] + a[1..] && b == [b[0]] + b[1..];
    }
  }

  lemma SeeItemsStep(seen: seq<Seen>, rest: seq<Item>)
    ensures rest == [] ==> SeeItems(rest) == []
    ensures rest != [] ==>
              seen + SeeItems(rest) ==
              seen + [See(rest[0])] + SeeItems(rest[1..])
  {
  }

  lemma SeeChunksStep(seen: seq<SeenChunk>, rest: seq<Chunk>)
    ensures rest == [] ==> SeeChunks(rest) == []
    ensures rest != [] ==>
              seen + SeeChunks(rest) == seen + [SeenChunk(rest[0].ssrc, SeeItems(rest[0].items))] + SeeChunks(rest[1..])
  {
  }

  /** What the calls on an item gather is what See says of it. */
  lemma GatheredIsSeen(it: Item, t: ItemType)
    requires it.Legal() && (t == CNAME <==> it.id == 1) && (t == NAME <==> it.id == 2) && (t == EMAIL <==> it.id == 3)
    requires (t == PHONE <==> it.id == 4) && (t == LOC <==> it.id == 5) && (t == TOOL <==> it.id == 6)
    requires (t == NOTE <==> it.id == 7) && (t == PRIV <==> it.id == 8) && (t == Unknown <==> it.id > 8)
    requires !t.None_?
    ensures See(it) == Seen(t, |it.data|, it.data, PartsOf(it).0, PartsOf(it).1)
  {
  }

  lemma RestItemsLegal(p: RTCPSDESPacket)
    requires p.Valid()
    ensures forall j :: 0 <= j < |p.RestItems()| ==> p.RestItems()[j].Legal()
  {
  }

  /** Prefix and value of the current item, by their lengths and places. */
  method ReadPrivateParts(p: RTCPSDESPacket) returns (prefix: seq<byte>, value: seq<byte>)
    requires p.Valid() && p.RestItems() != []
    ensures prefix == PartsOf(p.RestItems()[0]).0 && value == PartsOf(p.RestItems()[0]).1
  {
    hide RTCPSDESPacket.Valid, RTCPSDESPacket.RestItems, PrivateParts;
    prefix, value := [], [];
    var n := p.GetPRIVPrefixLength();
    var at := p.GetPRIVPrefixData();
    if n != 0 { prefix := p.data[at..at + n]; }
    var m := p.GetPRIVValueLength();
    at := p.GetPRIVValueData();
    if m != 0 { value := p.data[at..at + m]; }
  }

  /** Iterates over the items of the current chunk. */
  method ReadCurrentChunk(p: RTCPSDESPacket) returns (ssrc: int, items: seq<Seen>)
    requires p.Valid() && p.RestChunks() != []
    modifies p
    ensures p.Valid() && p.RestChunks() == old(p.RestChunks())
    ensures ssrc == p.RestChunks()[0].ssrc && items == SeeItems(p.RestChunks()[0].items)
  {
    hide *;
    ssrc := p.GetChunkSSRC();
    items := [];
    var more := p.GotoFirstItem();
    ghost var all := p.RestItems();
    SeeItemsStep([], all);
    while more
      invariant p.Valid() && p.RestChunks() == old(p.RestChunks())
      invariant more ==> p.RestItems() != []
      invariant SeeItems(all) == items + if more then SeeItems(p.RestItems()) else []
      decreases more, if more then |p.RestItems()| else 0
    {
      var t := p.GetItemType();
      var n := p.GetItemLength();
      var at := p.GetItemData();
      SeeItemsStep(items, p.RestItems());
      SeeItemsStep(items, p.RestItems()[1..]);
      assert p.Points(at, p.RestItems()[0].data) && p.data[at..at + n] == p.RestItems()[0].data by {
        PointsMeans(p, at, p.RestItems()[0].data);
      }
      var prefix, value := ReadPrivateParts(p);
      RestItemsLegal(p);
      GatheredIsSeen(p.RestItems()[0], t);
      items := items + [Seen(t, n, p.data[at..at + n], prefix, value)];
      more := p.GotoNextItem();
    }
    assert items + [] == items;
  }

  lemma PointsMeans(p: RTCPSDESPacket, at: int, bytes: seq<byte>)
    requires p.Points(at, bytes)
    ensures 0 <= at <= at + |bytes| <= |p.data| && p.data[at..at + |bytes|] == bytes
  {
  }

  /** The documented iteration over a packet finds exactly its chunks and items, in order. */
  method Walk(p: RTCPSDESPacket) returns (seen: seq<SeenChunk>)
    requires p.Valid()
    modifies p
    ensures p.Valid() && seen == SeeChunks(p.Chunks())
  {
    hide *;
    seen := [];
    var more := p.GotoFirstChunk();
    SeeChunksStep([], p.Chunks());
    while more
      invariant p.Valid()
      invariant more ==> p.RestChunks() != []
      invariant SeeChunks(p.Chunks()) == seen + if more then SeeChunks(p.RestChunks()) else []
      decreases more, if more then |p.RestChunks()| else 0
    {
      SeeChunksStep(seen, p.RestChunks());
      SeeChunksStep(seen, p.RestChunks()[1..]);
      var ssrc, items := ReadCurrentChunk(p);
      seen := seen + [SeenChunk(ssrc, items)];
      more := p.GotoNextChunk();
    }
  }

  /**
   Writing chunks to a packet and walking the packet shows every chunk and every item again,
   in order, each with the type that its id stands for (section 6.5 of RFC 3550).
   */
  method WriteThenWalk(cs: seq<Chunk>) returns (r: seq<SeenChunk>)
    requires |cs| <= 31
    requires forall i :: 0 <= i < |cs| ==> cs[i].Legal()
    ensures |r| == |cs|
    ensures forall i :: 0 <= i < |cs| ==> r[i].ssrc == cs[i].ssrc && |r[i].items| == |cs[i].items|
    ensures forall i, j :: 0 <= i < |cs| && 0 <= j < |cs[i].items| ==> ShowsData(r[i].items[j], cs[i].items[j])
    ensures forall i, j :: 0 <= i < |cs| && 0 <= j < |cs[i].items| ==>
              var (t, id) := (r[i].items[j].itemType, cs[i].items[j].id);
              && (t == CNAME <==> id == 1) && (t == NAME <==> id == 2) && (t == EMAIL <==> id == 3)
              && (t == PHONE <==> id == 4) && (t == LOC <==> id == 5) && (t == TOOL <==> id == 6)
              && (t == NOTE <==> id == 7) && (t == PRIV <==> id == 8) && (t == Unknown <==> id > 8)
  {
    hide ChunksFit, ReadChunks, See, SeeItems, SeeChunks;
    RoundTrip(cs);
    var p := new RTCPSDESPacket(PacketBytes(cs), true);
    r := Walk(p);
    SeenChunksAt(cs);
    forall i | 0 <= i < |cs| ensures r[i].ssrc == cs[i].ssrc && |r[i].items| == |cs[i].items| {
      SeenItemsAt(cs[i].items);
    }
    forall i, j | 0 <= i < |cs| && 0 <= j < |cs[i].items|
      ensures r[i].items[j] == See(cs[i].items[j]) && cs[i].items[j].id != 0
    {
      SeenItemsAt(cs[i].items);
      assert cs[i].Legal();
    }
    forall i, j | 0 <= i < |cs| && 0 <= j < |cs[i].items| ensures ShowsData(r[i].items[j], cs[i].items[j]) {
      SeeShows(cs[i].items[j]);
    }
    forall i, j | 0 <= i < |cs| && 0 <= j < |cs[i].items|
      ensures ShowsType(r[i].items[j].itemType, cs[i].items[j].id)
    {
      SeeShows(cs[i].items[j]);
    }
  }

  predicate ShowsType(t: ItemType, id: byte) {
    && (t == CNAME <==> id == 1) && (t == NAME <==> id == 2) && (t == EMAIL <==> id == 3)
    && (t == PHONE <==> id == 4) && (t == LOC <==> id == 5) && (t == TOOL <==> id == 6)
    && (t == NOTE <==> id == 7) && (t == PRIV <==> id == 8) && (t == Unknown <==> id > 8)
  }

  lemma SeeShows(it: Item)
    requires it.id != 0
    ensures ShowsData(See(it), it) && ShowsType(See(it).itemType, it.id)
  {
  }

  /** The item's data, all of it, and its parts if it is a PRIV item. */
  predicate ShowsData(x: Seen, it: Item) {
    && x.data == it.data && x.length == |it.data|
    && (x.prefix, x.value) == if it.id == 8 then PrivateParts(it.data) else ([], [])
  }

  lemma {:induction false} SeenItemsAt(items: seq<Item>)
    ensures |SeeItems(items)| == |items| && forall j :: 0 <= j < |items| ==> SeeItems(items)[j] == See(items[j])
  {
    if items != [] { SeenItemsAt(items[1..]); }
  }

  /** An item by its type; a PRIV item is written as the length of its prefix, its prefix and its value. */
  datatype TypedItem = Plain(itemType: ItemType, text: seq<byte>) | Private(prefix: seq<byte>, value: seq<byte>) {
    predicate Legal() {
      match this
      case Plain(t, text) => !t.None_? && !t.Unknown? && !t.PRIV? && |text| <= 255
      case Private(prefix, value) => |prefix| + |value| <= 254
    }

    /** The ids of section 6.5 of RFC 3550. */
    function AsItem(): (it: Item)
      requires Legal()
      ensures it.Legal()
    {
      match this
      case Private(prefix, value) => Item(8, [|prefix|] + prefix + value)
      case Plain(t, text) =>
        Item(match t case CNAME => 1 case NAME => 2 case EMAIL => 3 case PHONE => 4 case LOC => 5 case TOOL => 6
             case _ => 7, text)
    }
  }

  function AsItems(ts: seq<TypedItem>): (items: seq<Item>)
    requires forall j :: 0 <= j < |ts| ==> ts[j].Legal()
    ensures |items| == |ts| && forall j :: 0 <= j < |ts| ==> items[j] == ts[j].AsItem()
  {
    seq(|ts|, j requires 0 <= j < |ts| => ts[j].AsItem())
  }

  /** Items written by type in one chunk are shown with their types, texts, prefixes and values. */
  method WriteTypedThenWalk(ssrc: int, ts: seq<TypedItem>) returns (r: seq<Seen>)
    requires 0 <= ssrc < 0x1_0000_0000 && forall j :: 0 <= j < |ts| ==> ts[j].Legal()
    ensures |r| == |ts|
    ensures forall j :: 0 <= j < |ts| && ts[j].Plain? ==> r[j].itemType == ts[j].itemType && r[j].data == ts[j].text
    ensures forall j :: 0 <= j < |ts| && ts[j].Private? ==>
              r[j].itemType == PRIV && r[j].prefix == ts[j].prefix && r[j].value == ts[j].value
  {
    var seen := WriteThenWalk([Chunk(ssrc, AsItems(ts))]);
    r := seen[0].items;
    forall j | 0 <= j < |ts| && ts[j].Private? ensures r[j].prefix == ts[j].prefix && r[j].value == ts[j].value {
      PrivatePartsRoundTrip(ts[j].prefix, ts[j].value);
      assert ShowsData(r[j], AsItems(ts)[j]);
    }
    forall j | 0 <= j < |ts| && ts[j].Plain? ensures r[j].itemType == ts[j].itemType && r[j].data == ts[j].text {
      assert ShowsData(r[j], AsItems(ts)[j]);
    }
  }
}
