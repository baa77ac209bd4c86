/**
 The insertion-ordered hash table. Every element sits on two doubly linked lists, the
 chain of its bucket and the list of all elements in insertion order.
 */
module KeyHashTable {
  import opened Common
  import opened OrderedEntries

  const ERR_OUTOFMEM := -1
  const ERR_INVALIDHASHINDEX := -8
  const ERR_KEYALREADYEXISTS := -9
  const ERR_KEYNOTFOUND := -10
  const ERR_NOCURRENTELEMENT := -11

  class HashElement<Key, Element> {
    const hashindex: int
    const key: Key
    const element: Element
    var hashprev: HashElement?<Key, Element>
    var hashnext: HashElement?<Key, Element>
    var listprev: HashElement?<Key, Element>
    var listnext: HashElement?<Key, Element>
    /** Places in the order list and in the bucket chain. */
    ghost var listpos: int
    ghost var hashpos: int

    constructor (k: Key, e: Element, index: int)
      ensures hashindex == index && key == k && element == e
      ensures hashprev == null && hashnext == null && listprev == null && listnext == null
    {
      hashindex, key, element := index, k, e;
      hashprev, hashnext, listprev, listnext := null, null, null, null;
    }
  }

  ghost function Ref<Key, Element>(s: seq<HashElement<Key, Element>>, i: int): HashElement?<Key, Element> {
    if 0 <= i < |s| then s[i] else null
  }

  /** `s[i]` sits at place `i` of the order list: its neighbours are those of `s`. */
  ghost predicate ListNode<Key, Element>(s: seq<HashElement<Key, Element>>, i: int)
    requires 0 <= i < |s|
    reads {s[i]}`listpos, {s[i]}`listprev, {s[i]}`listnext
  {
    s[i].listpos == i && s[i].listprev == Ref(s, i - 1) && s[i].listnext == Ref(s, i + 1)
  }

  /** `c[i]` sits in the chain of bucket `b`; `c` holds the oldest element first, the chain the newest. */
  ghost predicate ChainNode<Key, Element>(c: seq<HashElement<Key, Element>>, b: int, i: int)
    requires 0 <= i < |c|
    reads {c[i]}`hashpos, {c[i]}`hashprev, {c[i]}`hashnext
  {
    c[i].hashindex == b && c[i].hashpos == i && c[i].hashprev == Ref(c, i + 1) && c[i].hashnext == Ref(c, i - 1)
  }

  ghost predicate Chain<Key, Element>(c: seq<HashElement<Key, Element>>, b: int)
    reads c`hashpos, c`hashprev, c`hashnext
  {
    forall i :: 0 <= i < |c| ==> ChainNode(c, b, i)
  }

  /** Like ListNode, with the neighbours of place `k` already linked past it. */
  ghost predicate ListNodeSkipping<Key, Element>(s: seq<HashElement<Key, Element>>, k: int, i: int)
    requires 0 <= i < |s|
    reads {s[i]}`listpos, {s[i]}`listprev, {s[i]}`listnext
  {
    && s[i].listpos == i
    && s[i].listprev == Ref(s, if i == k + 1 then k - 1 else i - 1)
    && s[i].listnext == Ref(s, if i == k - 1 then k + 1 else i + 1)
  }

  ghost predicate ChainNodeSkipping<Key, Element>(c: seq<HashElement<Key, Element>>, b: int, k: int, i: int)
    requires 0 <= i < |c|
    reads {c[i]}`hashpos, {c[i]}`hashprev, {c[i]}`hashnext
  {
    && c[i].hashindex == b && c[i].hashpos == i
    && c[i].hashprev == Ref(c, if i == k - 1 then k + 1 else i + 1)
    && c[i].hashnext == Ref(c, if i == k + 1 then k - 1 else i - 1)
  }

  ghost method RenumberList<Key, Element>(s: seq<HashElement<Key, Element>>, k: nat)
    requires k < |s| && s[k].listpos == k
    requires forall i :: 0 <= i < |s| && i != k ==> ListNodeSkipping(s, k, i)
    modifies s`listpos
    ensures forall i :: 0 <= i < |s| - 1 ==> ListNode(Without(s, k), i)
    ensures s[k] !in Without(s, k)
  {
    forall n | n in s && n.listpos > k { n.listpos := n.listpos - 1; }
    forall i | 0 <= i < |s| - 1 ensures ListNode(Without(s, k), i) && Without(s, k)[i] != s[k] {
      assert old(ListNodeSkipping(s, k, if i < k then i else i + 1));
    }
  }

  ghost method RenumberChain<Key, Element>(c: seq<HashElement<Key, Element>>, b: int, k: nat)
    requires k < |c| && c[k].hashpos == k
    requires forall i :: 0 <= i < |c| && i != k ==> ChainNodeSkipping(c, b, k, i)
    modifies c`hashpos
    ensures Chain(Without(c, k), b) && c[k] !in Without(c, k)
  {
    forall n | n in c && n.hashpos > k { n.hashpos := n.hashpos - 1; }
    forall i | 0 <= i < |c| - 1 ensures ChainNode(Without(c, k), b, i) && Without(c, k)[i] != c[k] {
      assert old(ChainNodeSkipping(c, b, k, if i < k then i else i + 1));
    }
  }

  class RTPKeyHashTable<Key(==), Element> {
    const getIndex: Key -> int
    const table: array<HashElement?<Key, Element>>
    var firsthashelem: HashElement?<Key, Element>
    var lasthashelem: HashElement?<Key, Element>
    var curhashelem: HashElement?<Key, Element>

    /** All elements in insertion order, and the elements of each bucket in chain order. */
    ghost var nodes: seq<HashElement<Key, Element>>
    ghost var chains: seq<seq<HashElement<Key, Element>>>

    ghost predicate ListValid()
      reads this`firsthashelem, this`lasthashelem, this`nodes, nodes`listpos, nodes`listprev, nodes`listnext
    {
      && (forall i :: 0 <= i < |nodes| ==> ListNode(nodes, i))
      && firsthashelem == Ref(nodes, 0)
      && lasthashelem == Ref(nodes, |nodes| - 1)
    }

    /** Chain `b` is well linked, starts at `table[b]` and holds elements of `u` only. */
    ghost predicate BucketValid(b: int, u: set<HashElement<Key, Element>>)
      requires 0 <= b < |chains| && 0 <= b < table.Length
      reads this`chains, table, u`hashpos, u`hashprev, u`hashnext
    {
      && Within(chains[b], u)
      && Chain(chains[b], b)
      && table[b] == Ref(chains[b], |chains[b]| - 1)
    }

    /** `n` is on the chain of its own bucket. */
    ghost predicate Owned(n: HashElement<Key, Element>)
      reads this`chains, n`hashpos
    {
      && 0 <= n.hashindex < |chains|
      && 0 <= n.hashpos < |chains[n.hashindex]|
      && chains[n.hashindex][n.hashpos] == n
    }

    ghost predicate BucketsValid(u: set<HashElement<Key, Element>>)
      reads this`chains, table, u`hashpos, u`hashprev, u`hashnext
    {
      && |chains| == table.Length
      && (forall b :: 0 <= b < |chains| ==> BucketValid(b, u))
      && (forall n :: n in u ==> Owned(n))
    }

    ghost predicate Valid()
      reads this, table, nodes
    {
      && ListValid()
      && BucketsValid(Nodes())
      && (forall i :: 0 <= i < |nodes| ==> nodes[i].hashindex == getIndex(nodes[i].key))
      && (forall i, j :: 0 <= i < j < |nodes| ==> nodes[i].key != nodes[j].key)
    }

    ghost function Nodes(): set<HashElement<Key, Element>>
      reads this`nodes
    {
      set n | n in nodes
    }

    ghost function Entries(): (es: seq<Entry<Key, Element>>)
      reads this`nodes
      ensures |es| == |nodes|
      ensures forall i :: 0 <= i < |es| ==> es[i] == Entry(nodes[i].key, nodes[i].element)
    {
      var ns := nodes;
      seq(|ns|, i requires 0 <= i < |ns| => Entry(ns[i].key, ns[i].element))
    }

    /** False after construction and after Clear, until the next Goto*. */
    ghost predicate CursorValid()
      reads this`curhashelem, this`nodes
    {
      curhashelem == null || curhashelem in nodes
    }

    /** Position of the cursor in insertion order; `|nodes|` when it is past the end. */
    ghost function Cursor(): (i: nat)
      requires Valid() && CursorValid()
      reads this, table, nodes
      ensures i <= |nodes| && curhashelem == Ref(nodes, i)
      ensures i < |nodes| ==> ListNode(nodes, i)
    {
      if curhashelem == null then |nodes| else
        CursorInList();
        curhashelem.listpos
    }

    lemma CursorEnd()
      requires Valid() && CursorValid()
      ensures Cursor() == |nodes| <==> curhashelem == null
    {
    }

    lemma CursorInList()
      requires ListValid() && curhashelem != null && curhashelem in nodes
      ensures 0 <= curhashelem.listpos < |nodes| && nodes[curhashelem.listpos] == curhashelem
      ensures ListNode(nodes, curhashelem.listpos)
    {
      var i :| 0 <= i < |nodes| && nodes[i] == curhashelem;
      assert ListNode(nodes, i);
    }

    lemma CursorAt(i: nat)
      requires Valid() && i <= |nodes| && curhashelem == Ref(nodes, i)
      ensures CursorValid() && Cursor() == i
    {
      if i < |nodes| { assert ListNode(nodes, i); }
    }

    constructor (hashsize: nat, index: Key -> int)
      ensures Valid() && fresh(table) && table.Length == hashsize && getIndex == index
      ensures Entries() == []
    {
      getIndex := index;
      table := new HashElement?<Key, Element>[hashsize];
      new;
      for i := 0 to hashsize
        invariant forall j :: 0 <= j < i ==> table[j] == null
        invariant fresh(table)
      {
        table[i] := null;
      }
      firsthashelem, lasthashelem := null, null;
      nodes := [];
      chains := seq(hashsize, _ => []);
    }

    /** Walks one bucket; `p` is the element with key `k`, or null. */
    method FindInBucket(k: Key, index: int) returns (p: HashElement?<Key, Element>)
      requires Valid()
      requires index == getIndex(k) && 0 <= index < table.Length
      ensures p == null ==> !Has(Entries(), k)
      ensures p != null ==> p in nodes && Has(Entries(), k) && p == nodes[IndexOf(Entries(), k)]
    {
      p := table[index];
      ghost var c := chains[index];
      ghost var j := |c| - 1;
      assert BucketValid(index, Nodes());
      while p != null
        invariant -1 <= j < |c| && p == Ref(c, j)
        invariant forall i :: j < i < |c| ==> c[i].key != k
        decreases j
      {
        assert ChainNode(c, index, j);
        if p.key == k {
          assert p in Nodes();
          ghost var i :| 0 <= i < |nodes| && nodes[i] == p;
          IndexOfUnique(Entries(), i);
          return;
        }
        p := p.hashnext;
        j := j - 1;
      }
      assert forall i :: 0 <= i < |nodes| ==> nodes[i] in Nodes() && Owned(nodes[i]);
    }

    lemma HasMeansInRange(k: Key)
      requires Valid() && Has(Entries(), k)
      ensures getIndex(k) < table.Length
    {
      var i := IndexOf(Entries(), k);
      assert nodes[i] in Nodes() && Owned(nodes[i]);
    }

    method HasElement(k: Key) returns (found: bool)
      requires Valid() && 0 <= getIndex(k)
      ensures found == Has(Entries(), k)
    {
      var index := getIndex(k);
      if index >= table.Length {
        if Has(Entries(), k) { HasMeansInRange(k); }
        return false;
      }
      var p := FindInBucket(k, index);
      found := p != null;
    }

    method GotoFirstElement()
      requires Valid()
      modifies this`curhashelem
      ensures Valid() && CursorValid() && Cursor() == 0
    {
      curhashelem := firsthashelem;
      CursorAt(0);
    }

    method GotoLastElement()
      requires Valid()
      modifies this`curhashelem
      ensures Valid() && CursorValid()
      ensures Cursor() == if nodes == [] then 0 else |nodes| - 1
    {
      curhashelem := lasthashelem;
      CursorAt(if nodes == [] then 0 else |nodes| - 1);
    }

    method GotoNextElement()
      requires Valid() && CursorValid()
      modifies this`curhashelem
      ensures Valid() && CursorValid()
      ensures Cursor() == if old(Cursor()) < |nodes| then old(Cursor()) + 1 else |nodes|
    {
      ghost var i := Cursor();
      if curhashelem != null {
        curhashelem := curhashelem.listnext;
        CursorAt(i + 1);
      }
    }

    /** Stepping back from the first element leaves the list: the cursor becomes null. */
    method GotoPreviousElement()
      requires Valid() && CursorValid()
      modifies this`curhashelem
      ensures Valid() && CursorValid()
      ensures Cursor() == if 0 < old(Cursor()) < |nodes| then old(Cursor()) - 1 else |nodes|
    {
      ghost var i := Cursor();
      if curhashelem != null {
        curhashelem := curhashelem.listprev;
        CursorAt(if i > 0 then i - 1 else |nodes|);
      }
    }

    method GotoElement(k: Key) returns (status: int)
      requires Valid() && 0 <= getIndex(k)
      modifies this`curhashelem
      ensures Valid()
      ensures getIndex(k) >= table.Length ==> status == -8 && curhashelem == old(curhashelem)
      ensures getIndex(k) < table.Length ==>
                CursorValid() && Cursor() == IndexOf(Entries(), k) &&
                status == if Has(Entries(), k) then 0 else -10
    {
      var index := getIndex(k);
      if index >= table.Length { return ERR_INVALIDHASHINDEX; }
      curhashelem := FindInBucket(k, index);
      if curhashelem == null { return ERR_KEYNOTFOUND; }
      CursorAt(IndexOf(Entries(), k));
      return 0;
    }

    /** `rtpNew` says whether the memory manager had room for a new element. */
    method AddElement(k: Key, elem: Element, rtpNew: bool) returns (status: int)
      requires Valid() && 0 <= getIndex(k)
      modifies this`firsthashelem, this`lasthashelem, this`nodes, this`chains, table, Nodes()
      ensures Valid() && curhashelem == old(curhashelem)
      ensures status == if getIndex(k) >= table.Length then -8
                        else if Has(old(Entries()), k) then -9
                        else if !rtpNew then -1
                        else 0
      ensures Entries() == old(Entries()) + if status == 0 then [Entry(k, elem)] else []
      ensures old(nodes) <= nodes && (status != 0 ==> nodes == old(nodes))
      ensures fresh(Nodes() - old(Nodes()))
    {
      var index := getIndex(k);
      if index >= table.Length { return ERR_INVALIDHASHINDEX; }
      var e := FindInBucket(k, index);
      if e != null { return ERR_KEYALREADYEXISTS; }
      if !rtpNew { return ERR_OUTOFMEM; }
      var newelem := new HashElement(k, elem, index);
      Append(newelem);
      return 0;
    }

    method Append(newelem: HashElement<Key, Element>)
      requires Valid() && newelem !in nodes && !Has(Entries(), newelem.key)
      requires newelem.hashindex == getIndex(newelem.key) && 0 <= newelem.hashindex < table.Length
      requires newelem.hashprev == null && newelem.hashnext == null
      requires newelem.listprev == null && newelem.listnext == null
      modifies this`firsthashelem, this`lasthashelem, this`nodes, this`chains, table, Nodes(), newelem
      ensures Valid() && nodes == old(nodes) + [newelem]
    {
      ghost var u := Nodes();
      PushBucket(newelem);
      PushList(newelem);
      assert Nodes() == u + {newelem};
      assert forall b :: 0 <= b < |chains| ==> BucketValid(b, u + {newelem});
      assert forall i :: 0 <= i < |old(nodes)| ==> old(Entries())[i].key == nodes[i].key;
    }

    /** New elements go to the front of their chain. */
    method PushBucket(newelem: HashElement<Key, Element>)
      requires BucketsValid(Nodes()) && 0 <= newelem.hashindex < table.Length
      requires newelem !in nodes && newelem.hashnext == null && newelem.hashprev == null
      modifies table, this`chains, newelem`hashnext, newelem`hashpos, Nodes()`hashprev
      ensures BucketsValid(Nodes() + {newelem})
    {
      var index := newelem.hashindex;
      var e := table[index];
      ghost var u, c := Nodes(), chains[index];
      assert BucketValid(index, u);
      assert e != null ==> ChainNode(c, index, |c| - 1);
      table[index] := newelem;
      newelem.hashnext := e;
      if e != null { e.hashprev := newelem; }
      chains := chains[index := c + [newelem]];
      newelem.hashpos := |c|;
      forall i | 0 <= i < |c| + 1 ensures ChainNode(chains[index], index, i) {
        if i < |c| { assert old(ChainNode(c, index, i)); }
      }
      forall b | 0 <= b < |chains| ensures BucketValid(b, u + {newelem}) {
        assert old(BucketValid(b, u));
        forall i | 0 <= i < |chains[b]| ensures ChainNode(chains[b], b, i) {
          if b != index { assert old(ChainNode(chains[b], b, i)); }
        }
      }
      forall n | n in u ensures Owned(n) { assert old(Owned(n)); }
    }

    method PushList(newelem: HashElement<Key, Element>)
      requires ListValid()
      requires newelem !in nodes && newelem.listnext == null && newelem.listprev == null
      modifies this`firsthashelem, this`lasthashelem, this`nodes, newelem`listprev, newelem`listpos, Nodes()`listnext
      ensures ListValid() && nodes == old(nodes) + [newelem]
    {
      if firsthashelem == null {
        firsthashelem := newelem;
        lasthashelem := newelem;
      } else {
        lasthashelem.listnext := newelem;
        newelem.listprev := lasthashelem;
        lasthashelem := newelem;
      }
      newelem.listpos := |nodes|;
      nodes := nodes + [newelem];
      forall i | 0 <= i < |nodes| ensures ListNode(nodes, i) {
        if i < |old(nodes)| { assert old(ListNode(nodes, i)); assert old(ListNode(nodes, |nodes| - 1)); }
      }
    }

    /** The cursor moves on to the element after the deleted one. */
    method DeleteCurrentElement() returns (status: int)
      requires Valid() && CursorValid()
      modifies this, table, Nodes()
      ensures Valid() && CursorValid()
      ensures status == if old(Cursor()) < |old(nodes)| then 0 else -11
      ensures status != 0 ==> nodes == old(nodes) && curhashelem == old(curhashelem)
      ensures status == 0 ==> nodes == Without(old(nodes), old(Cursor())) && Cursor() == old(Cursor())
      ensures Nodes() <= old(Nodes())
    {
      if curhashelem == null { return ERR_NOCURRENTELEMENT; }
      ghost var k := Cursor();
      curhashelem := Unlink(curhashelem, k);
      CursorAt(k);
      return 0;
    }

    method Unlink(cur: HashElement<Key, Element>, ghost k: nat) returns (next: HashElement?<Key, Element>)
      requires Valid() && k < |nodes| && nodes[k] == cur
      modifies this`firsthashelem, this`lasthashelem, this`nodes, this`chains, table, Nodes()
      ensures Valid() && nodes == Without(old(nodes), k) && next == Ref(nodes, k)
    {
      ghost var u := Nodes();
      UnlinkBucket(cur, u);
      next := UnlinkList(cur, k);
      assert BucketsValid(u - {cur});
    }

    method UnlinkBucket(cur: HashElement<Key, Element>, ghost u: set<HashElement<Key, Element>>)
      requires BucketsValid(u) && cur in u
      modifies table, this`chains, u`hashpos, u`hashprev, u`hashnext
      ensures BucketsValid(u - {cur})
    {
      ghost var index, j := cur.hashindex, cur.hashpos;
      assert Owned(cur) && BucketValid(index, u);
      CutBucket(cur, index, j, u);
      forall b | 0 <= b < |chains| && b != index ensures BucketValid(b, u - {cur}) {
        NotInBucket(b, u, cur);
      }
      label L:
      chains := chains[index := Without(chains[index], j)];
      forall b | 0 <= b < |chains| && b != index ensures BucketValid(b, u - {cur}) {
        assert old@L(BucketValid(b, u - {cur}));
      }
      forall n | n in u - {cur} ensures Owned(n) { assert old(Owned(n)); }
    }

    lemma NotInBucket(b: int, u: set<HashElement<Key, Element>>, cur: HashElement<Key, Element>)
      requires 0 <= b < |chains| && b < table.Length && BucketValid(b, u) && cur.hashindex != b
      ensures BucketValid(b, u - {cur})
    {
      assert forall i :: 0 <= i < |chains[b]| ==> ChainNode(chains[b], b, i) && chains[b][i] in u;
    }

    method CutBucket(cur: HashElement<Key, Element>, ghost index: int, ghost j: nat,
      ghost u: set<HashElement<Key, Element>>)
      requires |chains| == table.Length && forall b :: 0 <= b < |chains| ==> BucketValid(b, u)
      requires cur.hashindex == index && 0 <= index < |chains| && j < |chains[index]| && chains[index][j] == cur
      modifies table, u`hashpos, u`hashprev, u`hashnext
      ensures forall b :: 0 <= b < |chains| && b != index ==> BucketValid(b, u)
      ensures table[index] == Ref(Without(chains[index], j), |chains[index]| - 2)
      ensures Chain(Without(chains[index], j), index) && cur !in Without(chains[index], j)
      ensures forall i :: 0 <= i < |chains[index]| && i != j ==> chains[index][i].hashpos == if i < j then i else i - 1
      ensures forall x :: x in u && x.hashindex != index ==> x.hashpos == old(x.hashpos)
    {
      assert BucketValid(index, u);
      CutChain(cur, chains[index], j, u);
      forall b | 0 <= b < |chains| && b != index ensures BucketValid(b, u) {
        assert old(BucketValid(b, u));
        forall i | 0 <= i < |chains[b]| ensures ChainNode(chains[b], b, i) {
          assert old(ChainNode(chains[b], b, i));
          assert chains[b][i] in u;
        }
      }
    }

    /** Takes `cur` out of its chain `c`; elements of other buckets keep their links. */
    method CutChain(cur: HashElement<Key, Element>, ghost c: seq<HashElement<Key, Element>>, ghost j: nat,
                    ghost u: set<HashElement<Key, Element>>)
      requires Chain(c, cur.hashindex) && j < |c| && c[j] == cur && Within(c, u)
      requires 0 <= cur.hashindex < table.Length && table[cur.hashindex] == Ref(c, |c| - 1)
      modifies table, u`hashpos, u`hashprev, u`hashnext
      ensures table[cur.hashindex] == Ref(Without(c, j), |c| - 2)
      ensures forall b :: 0 <= b < table.Length && b != cur.hashindex ==> table[b] == old(table[b])
      ensures Chain(Without(c, j), cur.hashindex) && cur !in Without(c, j)
      ensures forall i :: 0 <= i < |c| && i != j ==> c[i].hashpos == if i < j then i else i - 1
      ensures forall x :: x in u && x.hashindex != cur.hashindex ==>
                x.hashpos == old(x.hashpos) && x.hashprev == old(x.hashprev) && x.hashnext == old(x.hashnext)
    {
      forall x | x in c ensures x in u && x.hashindex == cur.hashindex {
        ghost var i :| 0 <= i < |c| && c[i] == x;
        assert ChainNode(c, cur.hashindex, i);
      }
      RelinkChain(cur, c, j);
      RenumberChain(c, cur.hashindex, j);
      forall i | 0 <= i < |c| && i != j ensures c[i].hashpos == if i < j then i else i - 1 {
        assert ChainNode(Without(c, j), cur.hashindex, if i < j then i else i - 1);
      }
    }

    method RelinkChain(cur: HashElement<Key, Element>, ghost c: seq<HashElement<Key, Element>>, ghost j: nat)
      requires Chain(c, cur.hashindex) && j < |c| && c[j] == cur
      requires 0 <= cur.hashindex < table.Length && table[cur.hashindex] == Ref(c, |c| - 1)
      modifies table, c`hashprev, c`hashnext
      ensures table[cur.hashindex] == Ref(Without(c, j), |c| - 2)
      ensures forall b :: 0 <= b < table.Length && b != cur.hashindex ==> table[b] == old(table[b])
      ensures cur.hashpos == j
      ensures forall i :: 0 <= i < |c| && i != j ==> ChainNodeSkipping(c, cur.hashindex, j, i)
    {
      var index := cur.hashindex;
      assert ChainNode(c, index, j);
      assert j > 0 ==> ChainNode(c, index, j - 1);
      assert j + 1 < |c| ==> ChainNode(c, index, j + 1);
      var tmp1 := cur.hashprev;
      var tmp2 := cur.hashnext;
      if tmp1 == null {
        table[index] := tmp2;
        if tmp2 != null { tmp2.hashprev := null; }
      } else {
        tmp1.hashnext := tmp2;
        if tmp2 != null { tmp2.hashprev := tmp1; }
      }
      forall i | 0 <= i < |c| && i != j ensures ChainNodeSkipping(c, index, j, i) {
        assert old(ChainNode(c, index, i));
      }
    }

    static lemma WithoutTakesOne(s: seq<HashElement<Key, Element>>, k: nat)
      requires k < |s| && s[k] !in Without(s, k)
      ensures forall n :: n in Without(s, k) <==> n in s && n != s[k]
    {
      assert s == Without(s, k)[..k] + [s[k]] + Without(s, k)[k..];
    }

    method UnlinkList(cur: HashElement<Key, Element>, ghost k: nat) returns (tmp2: HashElement?<Key, Element>)
      requires ListValid() && k < |nodes| && nodes[k] == cur
      modifies this`firsthashelem, this`lasthashelem, this`nodes, nodes`listpos, nodes`listprev, nodes`listnext
      ensures ListValid() && nodes == Without(old(nodes), k)
      ensures Nodes() == old(Nodes()) - {cur}
      ensures tmp2 == Ref(nodes, k)
    {
      tmp2 := RelinkList(cur, k);
      RenumberList(nodes, k);
      WithoutTakesOne(nodes, k);
      nodes := Without(nodes, k);
    }

    method RelinkList(cur: HashElement<Key, Element>, ghost k: nat) returns (tmp2: HashElement?<Key, Element>)
      requires ListValid() && k < |nodes| && nodes[k] == cur
      modifies this`firsthashelem, this`lasthashelem, nodes`listprev, nodes`listnext
      ensures firsthashelem == Ref(Without(nodes, k), 0) && lasthashelem == Ref(Without(nodes, k), |nodes| - 2)
      ensures tmp2 == Ref(Without(nodes, k), k)
      ensures cur.listpos == k
      ensures forall i :: 0 <= i < |nodes| && i != k ==> ListNodeSkipping(nodes, k, i)
    {
      assert ListNode(nodes, k);
      assert k > 0 ==> ListNode(nodes, k - 1);
      assert k + 1 < |nodes| ==> ListNode(nodes, k + 1);
      var tmp1 := cur.listprev;
      tmp2 := cur.listnext;
      if tmp1 == null {
        firsthashelem := tmp2;
        if tmp2 != null { tmp2.listprev := null; } else { lasthashelem := null; }
      } else {
        tmp1.listnext := tmp2;
        if tmp2 != null { tmp2.listprev := tmp1; } else { lasthashelem := tmp1; }
      }
      forall i | 0 <= i < |nodes| && i != k ensures ListNodeSkipping(nodes, k, i) { assert old(ListNode(nodes, i)); }
    }

    method DeleteElement(k: Key) returns (status: int)
      requires Valid() && 0 <= getIndex(k)
      modifies this, table, Nodes()
      ensures Valid()
      ensures status == if getIndex(k) >= table.Length then -8 else if Has(old(Entries()), k) then 0 else -10
      ensures Entries() == if status == 0 then Without(old(Entries()), IndexOf(old(Entries()), k)) else old(Entries())
      ensures status == 0 ==> CursorValid() && Cursor() == IndexOf(old(Entries()), k)
      ensures status == -8 ==> curhashelem == old(curhashelem)
      ensures status == -10 ==> curhashelem == null
      ensures Nodes() <= old(Nodes()) && (status != 0 ==> nodes == old(nodes))
    {
      status := GotoElement(k);
      if status == ERR_KEYNOTFOUND { CursorEnd(); }
      if status < 0 { return status; }
      status := DeleteCurrentElement();
    }

    /** Empties the table; the cursor keeps pointing at a deleted element. */
    method Clear()
      requires Valid()
      modifies this`firsthashelem, this`lasthashelem, this`nodes, this`chains, table
      ensures Valid() && Entries() == [] && curhashelem == old(curhashelem)
    {
      for i := 0 to table.Length
        invariant forall j :: 0 <= j < i ==> table[j] == null
        invariant ListValid() && nodes == old(nodes)
      {
        table[i] := null;
      }
      var tmp1 := firsthashelem;
      ghost var i := 0;
      while tmp1 != null
        invariant 0 <= i <= |nodes| && tmp1 == Ref(nodes, i)
        decreases |nodes| - i
      {
        assert ListNode(nodes, i);
        tmp1 := tmp1.listnext;
        i := i + 1;
      }
      firsthashelem, lasthashelem := null, null;
      nodes := [];
      chains := seq(table.Length, _ => []);
    }
  }

  /**
   The sweep idiom of the table's users: from the first element on, either delete the
   current element or step to the next one. `keep` holds the decision for each visit.
   */
  method Sweep<Key(==), Element>(t: RTPKeyHashTable<Key, Element>, keep: seq<bool>)
    returns (visited: seq<Entry<Key, Element>>)
    requires t.Valid() && |keep| == |t.nodes|
    modifies t, t.table, t.Nodes()
    ensures t.Valid() && t.Nodes() <= old(t.Nodes())
    ensures visited == old(t.Entries())
    ensures t.Entries() == Kept(old(t.Entries()), keep)
  {
    hide *;
    ghost var u := t.Nodes();
    visited := [];
    t.GotoFirstElement();
    ghost var es, kept, rest := t.Entries(), [], t.Entries();
    SweepStarts(t, keep);
    var n := 0;
    while t.curhashelem != null
      invariant Swept(t, keep, es, n, visited, kept, rest)
      invariant t.Nodes() <= u
      decreases |rest|
    {
      var e := SweepStep(t, u, keep, es, n, visited, kept, rest);
      visited := visited + [e];
      kept := if keep[n] then kept + [e] else kept;
      rest := rest[1..];
      n := n + 1;
    }
    SweepEnds(t, keep, es, n, visited, kept, rest);
  }

  lemma SweepStarts<Key, Element>(t: RTPKeyHashTable<Key, Element>, keep: seq<bool>)
    requires t.Valid() && t.CursorValid() && t.Cursor() == 0 && |keep| == |t.nodes|
    ensures Swept(t, keep, t.Entries(), 0, [], [], t.Entries())
  {
    assert keep[0..] == keep;
  }

  lemma SweepEnds<Key, Element>(t: RTPKeyHashTable<Key, Element>, keep: seq<bool>, es: seq<Entry<Key, Element>>,
      n: nat, visited: seq<Entry<Key, Element>>, kept: seq<Entry<Key, Element>>, rest: seq<Entry<Key, Element>>)
    requires Swept(t, keep, es, n, visited, kept, rest) && t.curhashelem == null
    ensures t.Valid() && visited == es && |es| == |keep| && t.Entries() == Kept(es, keep)
  {
    t.CursorEnd();
    assert rest == [] && keep[n..] == [];
  }

  /** After `n` visits: what was visited, what was kept of it, and what the cursor has still to reach. */
  ghost predicate Swept<Key, Element>(t: RTPKeyHashTable<Key, Element>, keep: seq<bool>, es: seq<Entry<Key, Element>>,
      n: nat, visited: seq<Entry<Key, Element>>, kept: seq<Entry<Key, Element>>, rest: seq<Entry<Key, Element>>)
    reads t, t.table, t.nodes
  {
    && t.Valid() && t.CursorValid()
    && n + |rest| == |keep| == |es| && visited + rest == es
    && t.Entries() == kept + rest && t.Cursor() == |kept|
    && kept + Kept(rest, keep[n..]) == Kept(es, keep)
  }

  method SweepStep<Key(==), Element>(t: RTPKeyHashTable<Key, Element>, ghost u: set<HashElement<Key, Element>>,
      keep: seq<bool>, ghost es: seq<Entry<Key, Element>>,
      n: nat, ghost visited: seq<Entry<Key, Element>>, ghost kept: seq<Entry<Key, Element>>,
        ghost rest: seq<Entry<Key, Element>>)
    returns (e: Entry<Key, Element>)
    requires Swept(t, keep, es, n, visited, kept, rest) && t.curhashelem != null && t.Nodes() <= u
    modifies t, t.table, u
    ensures n < |keep| && rest != [] && t.Nodes() <= u
    ensures Swept(t, keep, es, n + 1, visited + [e], if keep[n] then kept + [e] else kept, rest[1..])
  {
    t.CursorEnd();
    KeptStep(visited, kept, rest, keep[n..]);
    hide Kept;
    e := VisitCurrent(t, keep[n], kept, rest);
    assert keep[n..][1..] == keep[n + 1..];
  }

  /** Keeps or deletes the current element and moves on. */
  method VisitCurrent<Key(==), Element>(t: RTPKeyHashTable<Key, Element>, keep: bool,
                                        ghost kept: seq<Entry<Key, Element>>, ghost rest: seq<Entry<Key, Element>>)
    returns (e: Entry<Key, Element>)
    requires t.Valid() && t.CursorValid()
    requires t.Entries() == kept + rest && rest != [] && t.Cursor() == |kept|
    modifies t, t.table, t.Nodes()
    ensures t.Valid() && t.CursorValid() && t.Nodes() <= old(t.Nodes())
    ensures e == rest[0]
    ensures t.Entries() == (if keep then kept + [rest[0]] else kept) + rest[1..]
    ensures t.Cursor() == if keep then |kept| + 1 else |kept|
  {
    hide RTPKeyHashTable.BucketsValid;
    assert t.Entries()[|kept|] == rest[0];
    e := Entry(t.curhashelem.key, t.curhashelem.element);
    if keep {
      t.GotoNextElement();
      assert kept + rest == kept + [rest[0]] + rest[1..];
    } else {
      var _ := t.DeleteCurrentElement();
      assert t.Entries() == Without(kept + rest, |kept|) == kept + rest[1..];
    }
  }
}
