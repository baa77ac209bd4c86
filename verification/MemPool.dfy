/** The block allocator: a free list threaded through the items of all blocks. */
module MemPools {
  import opened Common

  /** While an item is live its first word belongs to the user, so `next` then means nothing. */
  class Item {
    var next: Item?
    /** The item is number `slot` of block number `block`. */
    ghost const block: int
    ghost const slot: int
    /** Depth on the free list counted from its end, or -1 while live. */
    ghost var freepos: int

    constructor (ghost b: int, ghost s: int, ghost pos: int)
      ensures block == b && slot == s && freepos == pos
    {
      block, slot, freepos := b, s, pos;
    }
  }

  class Block {
    const items: seq<Item>

    constructor (n: nat, ghost number: int)
      ensures |items| == n
      ensures forall i :: 0 <= i < n ==> fresh(items[i]) && items[i].block == number && items[i].slot == i
      ensures forall i :: 0 <= i < n ==> items[i].freepos == n - 1 - i
    {
      var its: seq<Item> := [];
      for k := 0 to n
        invariant |its| == k
        invariant forall i :: 0 <= i < k ==> fresh(its[i]) && its[i].block == number && its[i].slot == i
        invariant forall i :: 0 <= i < k ==> its[i].freepos == n - 1 - i
      {
        var it := new Item(number, k, n - 1 - k);
        its := its + [it];
      }
      items := its;
    }
  }

  ghost function Elements<T>(s: seq<T>): set<T> {
    set x | x in s
  }

  lemma {:induction false} SlotsCount(s: seq<Item>)
    requires forall i :: 0 <= i < |s| ==> s[i].slot == i
    ensures |Elements(s)| == |s|
  {
    if s != [] {
      var n := |s| - 1;
      SlotsCount(s[..n]);
      assert Elements(s) == Elements(s[..n]) + {s[n]};
    }
  }

  /** Item `j` of block `i` is in `items` and knows its place. */
  ghost predicate InPlace(blocks: seq<Block>, i: int, j: int, items: set<Item>)
    requires 0 <= i < |blocks| && 0 <= j < |blocks[i].items|
  {
    blocks[i].items[j] in items && blocks[i].items[j].block == i && blocks[i].items[j].slot == j
  }

  ghost predicate Placed(blocks: seq<Block>, x: Item) {
    0 <= x.block < |blocks| && 0 <= x.slot < |blocks[x.block].items| && blocks[x.block].items[x.slot] == x
  }

  /** `items` is exactly the items of the blocks, each at its own place, `n` in each block. */
  ghost predicate BlocksHold(blocks: seq<Block>, items: set<Item>, n: nat) {
    && (forall i :: 0 <= i < |blocks| ==> |blocks[i].items| == n)
    && (forall i, j :: 0 <= i < |blocks| && 0 <= j < n ==> InPlace(blocks, i, j, items))
    && (forall x :: x in items ==> Placed(blocks, x))
    && |items| == |blocks| * n
  }

  lemma AddBlock(blocks: seq<Block>, items: set<Item>, n: nat, block: Block)
    requires BlocksHold(blocks, items, n) && |block.items| == n
    requires forall j :: 0 <= j < n ==> block.items[j].block == |blocks| && block.items[j].slot == j
    ensures BlocksHold(blocks + [block], items + Elements(block.items), n)
    ensures |items + Elements(block.items)| == |items| + n
  {
    var bs, xs := blocks + [block], items + Elements(block.items);
    forall i, j | 0 <= i < |bs| && 0 <= j < n ensures InPlace(bs, i, j, xs) {
      if i < |blocks| { assert InPlace(blocks, i, j, items); }
    }
    forall x | x in xs ensures Placed(bs, x) {
      assert x in items ==> Placed(blocks, x);
    }
    SlotsCount(block.items);
    assert items !! Elements(block.items) by {
      assert forall x :: x in items ==> Placed(blocks, x);
    }
    Distribute(|blocks|, n);
  }

  lemma Distribute(a: nat, n: nat)
    ensures (a + 1) * n == a * n + n
  {
  }

  /** `m` is the largest number of `h`, 0 if there is none. */
  ghost predicate IsPeak(m: int, h: seq<nat>) {
    && (forall i :: 0 <= i < |h| ==> h[i] <= m)
    && (if h == [] then m == 0 else exists i :: 0 <= i < |h| && h[i] == m)
  }

  lemma PeakSnoc(m: int, h: seq<nat>, n: nat)
    requires IsPeak(m, h)
    ensures IsPeak(if n > m then n else m, h + [n])
  {
    var k := h + [n];
    if n > m || h == [] {
      assert k[|h|] == n;
    } else {
      var i :| 0 <= i < |h| && h[i] == m;
      assert k[i] == m;
    }
  }

  /** `s[i]` is at depth `i` of the free list `s`. */
  ghost predicate FreeNode(s: seq<Item>, i: int)
    requires 0 <= i < |s|
    reads {s[i]}`freepos, {s[i]}`next
  {
    s[i].freepos == i && s[i].next == if i > 0 then s[i - 1] else null
  }

  /** One block was added at the end, and `x` is its first item. */
  ghost predicate FirstOfNewBlock(before: seq<Block>, after: seq<Block>, x: Item) {
    && |after| == |before| + 1 && after[..|before|] == before
    && |after[|before|].items| > 0 && x == after[|before|].items[0]
  }

  lemma BlockAdded(before: seq<Block>, block: Block)
    requires |block.items| > 0
    ensures FirstOfNewBlock(before, before + [block], block.items[0])
  {
  }

  class MemPoolT {
    /** ITEMS_PER_BLOCK */
    const perBlock: nat
    var blockPtrs: seq<Block>
    var root: Item?
    var currentAllocs: int
    var nAllocs: int
    var maxAllocs: int
    var nUntracked: int

    /** The free list, its end first. */
    ghost var free: seq<Item>
    ghost var live: set<Item>
    /** All items of all blocks. */
    ghost var items: set<Item>
    /** The number of live items after each Alloc and Free since the last Clear. */
    ghost var history: seq<nat>

    /** The free list is well linked from `root`. */
    ghost predicate FreeLinked()
      reads this`root, this`free, this`items, items`freepos, items`next
    {
      && Within(free, items)
      && (forall i :: 0 <= i < |free| ==> FreeNode(free, i))
      && root == (if free == [] then null else free[|free| - 1])
    }

    /** Free and live items partition all items. */
    ghost predicate AllCovered()
      reads this`free, this`live, this`items, items`freepos
    {
      && live <= items
      && (forall x :: x in items ==> Covered(x))
      && |live| + |free| == |items|
    }

    ghost predicate ListsValid()
      reads this`root, this`free, this`live, this`items, items`freepos, items`next
    {
      FreeLinked() && AllCovered()
    }

    ghost predicate Covered(x: Item)
      reads this`free, this`live, x`freepos
    {
      if x in live then x.freepos == -1 else 0 <= x.freepos < |free| && free[x.freepos] == x
    }

    /** The high-water mark is the largest number of live items so far, and lies in the last block. */
    ghost predicate Counted()
      reads this`live, this`items, this`history, this`currentAllocs, this`maxAllocs
    {
      && currentAllocs == |live| == (if history == [] then 0 else history[|history| - 1])
      && IsPeak(maxAllocs, history)
      && maxAllocs <= |items| < maxAllocs + perBlock
    }

    ghost predicate Valid()
      reads this, items
    {
      && 1 <= perBlock
      && BlocksHold(blockPtrs, items, perBlock)
      && ListsValid()
      && Counted()
    }

    /** Live and free items partition the items of all blocks, and no item is on the free list twice. */
    lemma FreeAndLivePartition()
      requires Valid()
      ensures forall x :: x in items <==> exists i, j :: 0 <= i < |blockPtrs| && 0 <= j < perBlock &&
                                                        |blockPtrs[i].items| == perBlock && blockPtrs[i].items[j] == x
      ensures live !! Elements(free) && live + Elements(free) == items
      ensures forall i, j :: 0 <= i < j < |free| ==> free[i] != free[j]
      ensures currentAllocs == |live|
    {
      forall i, j | 0 <= i < |blockPtrs| && 0 <= j < perBlock ensures blockPtrs[i].items[j] in items {
        assert InPlace(blockPtrs, i, j, items);
      }
      forall x | x in items ensures Placed(blockPtrs, x) && Covered(x) {}
      forall i | 0 <= i < |free| ensures FreeNode(free, i) && Covered(free[i]) {}
    }

    /** Never more blocks than the peak number of live items since the last Clear called for. */
    lemma BlocksMatchPeak()
      requires Valid()
      ensures |blockPtrs| == (maxAllocs + perBlock - 1) / perBlock
      ensures IsPeak(maxAllocs, history)
    {
      CeilingOf(maxAllocs, perBlock, |blockPtrs|);
    }

    lemma CeilingOf(m: int, n: nat, b: nat)
      requires 0 < n && m <= b * n < m + n
      ensures b == (m + n - 1) / n
    {
      var q := (m + n - 1) / n;
      assert n * q <= m + n - 1 < n * q + n;
      assert q + 1 <= b ==> n * (q + 1) <= n * b;
      assert b + 1 <= q ==> n * (b + 1) <= n * q;
    }

    constructor (itemSize: nat)
      requires 1 <= itemSize <= 4 * 1024
      ensures Valid() && perBlock == 4 * 1024 / itemSize
      ensures live == {} && history == [] && blockPtrs == [] && nAllocs == nUntracked == 0
    {
      perBlock := 4 * 1024 / itemSize;
      blockPtrs := [];
      root, currentAllocs, nAllocs, maxAllocs, nUntracked := null, 0, 0, 0, 0;
      free, live, items, history := [], {}, {}, [];
    }

    lemma EmptyPool()
      requires 1 <= perBlock && blockPtrs == [] && root == null && currentAllocs == maxAllocs == 0
      requires free == [] && live == {} && items == {} && history == []
      ensures BlocksHold(blockPtrs, items, perBlock) && ListsValid() && Counted()
    {
    }

    method Clear()
      requires Valid()
      modifies this
      ensures Valid() && live == {} && history == [] && blockPtrs == [] && nAllocs == nUntracked == 0
    {
      hide BlocksHold, MemPoolT.ListsValid, MemPoolT.Counted;
      while blockPtrs != []
        decreases |blockPtrs|
      {
        blockPtrs := blockPtrs[..|blockPtrs| - 1];
      }
      root := null;
      currentAllocs, nAllocs, maxAllocs, nUntracked := 0, 0, 0, 0;
      free, live, items, history := [], {}, {}, [];
      EmptyPool();
    }

    /** An item that was not live before, new or taken from the free list. */
    method Alloc() returns (result: Item)
      requires Valid()
      modifies this, items
      ensures Valid()
      ensures fresh(items - old(items))
      ensures result !in old(live) && live == old(live) + {result}
      ensures old(root) != null ==> result == old(root) && blockPtrs == old(blockPtrs)
      ensures old(root) == null ==> FirstOfNewBlock(old(blockPtrs), blockPtrs, result)
      ensures history == old(history) + [|live|]
      ensures nAllocs == old(nAllocs) + 1 && nUntracked == old(nUntracked) + 1
    {
      hide MemPoolT.Covered, FreeNode, Within, FirstOfNewBlock;
      if root == null { NewBlock(); }
      result := TakeRoot();
      assert BlocksHold(blockPtrs, items, perBlock);
      CountAlloc();
      assert ListsValid();
    }

    method CountAlloc()
      requires 1 <= perBlock && |live| == currentAllocs + 1 && IsPeak(maxAllocs, history)
      requires currentAllocs <= maxAllocs <= |items| && |live| <= |items|
      requires |items| < maxAllocs + perBlock || (currentAllocs == maxAllocs && |items| == maxAllocs + perBlock)
      modifies this`currentAllocs, this`maxAllocs, this`nAllocs, this`nUntracked, this`history
      ensures Counted() && history == old(history) + [|live|]
      ensures nAllocs == old(nAllocs) + 1 && nUntracked == old(nUntracked) + 1
    {
      currentAllocs := currentAllocs + 1;
      PeakSnoc(maxAllocs, history, |live|);
      if currentAllocs > maxAllocs { maxAllocs := currentAllocs; }
      nAllocs := nAllocs + 1;
      nUntracked := nUntracked + 1;
      history := history + [|live|];
    }

    method NewBlock()
      requires 1 <= perBlock && BlocksHold(blockPtrs, items, perBlock) && ListsValid()
      requires root == null
      modifies this`root, this`free, this`items, this`blockPtrs
      ensures BlocksHold(blockPtrs, items, perBlock) && ListsValid() && root != null
      ensures |items| == |old(items)| + perBlock && fresh(items - old(items))
      ensures FirstOfNewBlock(old(blockPtrs), blockPtrs, root)
    {
      hide FirstOfNewBlock, BlocksHold, MemPoolT.FreeLinked, MemPoolT.AllCovered;
      var block := new Block(perBlock, |blockPtrs|);
      BlockAdded(blockPtrs, block);
      AddBlock(blockPtrs, items, perBlock, block);
      blockPtrs := blockPtrs + [block];
      SlotsCount(block.items);
      ThreadBlock(block, Elements(block.items));
    }

    /** With nothing free, the items of a new block become the free list, first item first. */
    method ThreadBlock(block: Block, ghost added: set<Item>)
      requires 1 <= perBlock == |block.items| == |added| && added !! items
      requires forall i :: 0 <= i < perBlock ==> ReadyItem(block.items, i, added)
      requires forall x :: x in added ==> 0 <= x.slot < perBlock && block.items[x.slot] == x
      requires ListsValid() && root == null
      modifies this`root, this`free, this`items, added`next
      ensures ListsValid() && root == block.items[0]
      ensures items == old(items) + added
    {
      hide AllCovered, Covered, MemPoolT.ReadyItem;
      root := block.items[0];
      Adopt(block, added);
      LinkItems(block, added, free);
    }

    /** The bookkeeping of ThreadBlock: the new items are the free ones. */
    ghost method Adopt(block: Block, added: set<Item>)
      requires 1 <= perBlock == |block.items| == |added| && added !! items
      requires forall i :: 0 <= i < perBlock ==> ReadyItem(block.items, i, added)
      requires forall x :: x in added ==> 0 <= x.slot < perBlock && block.items[x.slot] == x
      requires free == [] && AllCovered()
      modifies this`items, this`free
      ensures items == old(items) + added && AllCovered() && Within(free, items)
      ensures |free| == perBlock && forall i :: 0 <= i < perBlock ==> free[i] == block.items[perBlock - 1 - i]
    {
      forall x | x in items ensures x in live && x.freepos == -1 { assert Covered(x); }
      free := seq(perBlock, i requires 0 <= i < perBlock => block.items[perBlock - 1 - i]);
      forall i | 0 <= i < perBlock ensures free[i] in added {
        assert ReadyItem(block.items, perBlock - 1 - i, added);
      }
      forall x | x in added ensures x !in live && Covered(x) {
        assert ReadyItem(block.items, x.slot, added);
      }
      items := items + added;
    }

    /** Item `i` of a new block: in `u`, at its place, with the depth it is going to have. */
    static ghost predicate ReadyItem(its: seq<Item>, i: int, u: set<Item>)
      requires 0 <= i < |its|
      reads {its[i]}`freepos
    {
      its[i] in u && its[i].slot == i && its[i].freepos == |its| - 1 - i
    }

    /** Links each item to the one after it, which makes a free list of `list`, the items in reverse. */
    method LinkItems(block: Block, ghost added: set<Item>, ghost list: seq<Item>)
      requires 1 <= perBlock == |block.items| == |list|
      requires forall i :: 0 <= i < perBlock ==> ReadyItem(block.items, i, added)
      requires forall i :: 0 <= i < perBlock ==> list[i] == block.items[perBlock - 1 - i]
      modifies added`next
      ensures forall i :: 0 <= i < perBlock ==> FreeNode(list, i)
    {
      var its := block.items;
      for i := 0 to perBlock - 1
        invariant forall j :: 0 <= j < i ==> LinkedTo(its[j], its[j + 1])
      {
        assert ReadyItem(its, i, added);
        its[i].next := its[i + 1];
        forall j | 0 <= j < i ensures LinkedTo(its[j], its[j + 1]) { assert ReadyItem(its, j, added); }
      }
      assert ReadyItem(its, perBlock - 1, added);
      its[perBlock - 1].next := null;
      forall i | 0 <= i < perBlock ensures FreeNode(list, i) {
        assert ReadyItem(its, perBlock - 1 - i, added);
        assert i > 0 ==> LinkedTo(its[perBlock - 1 - i], its[perBlock - i]);
      }
    }

    static ghost predicate LinkedTo(x: Item, y: Item)
      reads x`next
    {
      x.next == y
    }

    method TakeRoot() returns (result: Item)
      requires ListsValid() && root != null
      modifies this`root, this`free, this`live, items`freepos
      ensures ListsValid()
      ensures result == old(root) && result !in old(live) && live == old(live) + {result} && |live| == |old(live)| + 1
    {
      result := root;
      ghost var k := |free| - 1;
      assert FreeNode(free, k) && Covered(result);
      root := root.next;
      result.freepos := -1;
      free := free[..k];
      live := live + {result};
      forall i | 0 <= i < |free| ensures FreeNode(free, i) { assert old(FreeNode(free, i)); }
      forall x | x in items ensures Covered(x) { assert old(Covered(x)); }
    }

    method PutRoot(item: Item)
      requires ListsValid() && item in live
      modifies this`root, this`free, this`live, item`next, item`freepos
      ensures ListsValid()
      ensures root == item && live == old(live) - {item}
    {
      item.next := root;
      root := item;
      assert old(Covered(item));
      item.freepos := |free|;
      free := free + [item];
      live := live - {item};
      forall i | 0 <= i < |free| ensures FreeNode(free, i) {
        if i < |old(free)| { assert old(FreeNode(free, i)); }
      }
      forall x | x in items ensures Covered(x) { assert old(Covered(x)); }
    }

    /** Gives a live item back; the next Alloc will return it first. */
    method Free(mem: Item?)
      requires Valid() && (mem != null ==> mem in live)
      modifies this, items
      ensures Valid() && blockPtrs == old(blockPtrs) && items == old(items)
      ensures nAllocs == old(nAllocs) && nUntracked == old(nUntracked) && maxAllocs == old(maxAllocs)
      ensures mem == null ==> live == old(live) && root == old(root) && history == old(history)
      ensures mem != null ==> live == old(live) - {mem} && root == mem && history == old(history) + [|live|]
    {
      hide BlocksHold, MemPoolT.Covered, FreeNode;
      if mem == null { return; }
      currentAllocs := currentAllocs - 1;
      PutRoot(mem);
      PeakSnoc(maxAllocs, history, |live|);
      history := history + [|live|];
    }
  }
}
