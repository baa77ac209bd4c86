/** Whole runs of the key table: any sequence of its operations does what it does to the ordered map. */
module KeyHashRuns {
  import opened OrderedEntries
  import opened KeyHashTable

  datatype Op<Key, Element> =
    | Add(key: Key, element: Element, rtpNew: bool)
    | Delete(key: Key)
    | Goto(key: Key)
    | First
    | Last
    | Next
    | Previous
    | DeleteCurrent
    | ClearAll

  /** Where the cursor is: not set, past the list, or at a place in insertion order. */
  datatype Place = Unset | Outside | At(i: nat)

  /** The simple form of the table: its entries in insertion order, and the cursor. */
  datatype OrderedMap<Key, Element> = OrderedMap(entries: seq<Entry<Key, Element>>, cursor: Place)

  function PlaceIn(i: nat, n: nat): Place {
    if i < n then At(i) else Outside
  }

  /** Only an operation that follows the cursor needs one that is set. */
  predicate Allowed<Key, Element>(m: OrderedMap<Key, Element>, op: Op<Key, Element>) {
    op.Next? || op.Previous? || op.DeleteCurrent? ==> !m.cursor.Unset?
  }

  /** What an operation does to the map; `inRange` says which keys have a valid hash index. */
  function Apply<Key(==), Element>(m: OrderedMap<Key, Element>, op: Op<Key, Element>,
    inRange: Key -> bool): OrderedMap<Key, Element> {
    var n := |m.entries|;
    match op
    case Add(k, e, room) =>
      if inRange(k) && !Has(m.entries, k) && room then m.(entries := m.entries + [Entry(k, e)]) else m
    case Delete(k) =>
      if !inRange(k) then m
      else if Has(m.entries, k) then OrderedMap(Without(m.entries, IndexOf(m.entries, k)),
        PlaceIn(IndexOf(m.entries, k), n - 1))
      else m.(cursor := Outside)
    case Goto(k) => if inRange(k) then m.(cursor := PlaceIn(IndexOf(m.entries, k), n)) else m
    case First => m.(cursor := PlaceIn(0, n))
    case Last => m.(cursor := if n > 0 then At(n - 1) else Outside)
    case Next => if m.cursor.At? then m.(cursor := PlaceIn(m.cursor.i + 1, n)) else m
    case Previous => if m.cursor.At? then m.(cursor := if m.cursor.i > 0 then At(m.cursor.i - 1) else Outside) else m
    case DeleteCurrent =>
      if m.cursor.At? && m.cursor.i < n then OrderedMap(Without(m.entries, m.cursor.i),
        PlaceIn(m.cursor.i, n - 1)) else m
    case ClearAll => OrderedMap([], if m.cursor.At? then Unset else m.cursor)
  }

  /** What the operation returns; 0 where it returns nothing. */
  function Status<Key(==), Element>(m: OrderedMap<Key, Element>, op: Op<Key, Element>, inRange: Key -> bool): int {
    match op
    case Add(k, _, room) =>
      if !inRange(k) then ERR_INVALIDHASHINDEX
      else if Has(m.entries, k) then ERR_KEYALREADYEXISTS
      else if !room then ERR_OUTOFMEM else 0
    case Delete(k) => if !inRange(k) then ERR_INVALIDHASHINDEX else if Has(m.entries, k) then 0 else ERR_KEYNOTFOUND
    case Goto(k) => if !inRange(k) then ERR_INVALIDHASHINDEX else if Has(m.entries, k) then 0 else ERR_KEYNOTFOUND
    case DeleteCurrent => if m.cursor.At? then 0 else ERR_NOCURRENTELEMENT
    case _ => 0
  }

  function ApplyAll<Key(==), Element>(m: OrderedMap<Key, Element>, ops: seq<Op<Key, Element>>,
    inRange: Key -> bool): OrderedMap<Key, Element>
    decreases |ops|
  {
    if ops == [] then m else ApplyAll(Apply(m, ops[0], inRange), ops[1..], inRange)
  }

  function Statuses<Key(==), Element>(m: OrderedMap<Key, Element>, ops: seq<Op<Key, Element>>,
    inRange: Key -> bool): seq<int>
    decreases |ops|
  {
    if ops == [] then [] else [Status(m, ops[0], inRange)] + Statuses(Apply(m, ops[0], inRange), ops[1..], inRange)
  }

  predicate AllAllowed<Key(==), Element>(m: OrderedMap<Key, Element>, ops: seq<Op<Key, Element>>, inRange: Key -> bool)
    decreases |ops|
  {
    ops == [] || (Allowed(m, ops[0]) && AllAllowed(Apply(m, ops[0], inRange), ops[1..], inRange))
  }

  /** The table `t` stands for the map `m`. */
  ghost predicate Represents<Key, Element>(t: RTPKeyHashTable<Key, Element>, m: OrderedMap<Key, Element>)
    reads t, t.table, t.nodes
  {
    && t.Valid() && t.Entries() == m.entries
    && match m.cursor
       case Unset => true
       case Outside => t.curhashelem == null
       case At(i) => i < |t.nodes| && t.curhashelem == t.nodes[i]
  }

  function InRange<Key, Element>(t: RTPKeyHashTable<Key, Element>): Key -> bool {
    k => t.getIndex(k) < t.table.Length
  }

  predicate IndexNotNegative<Key, Element>(t: RTPKeyHashTable<Key, Element>, op: Op<Key, Element>) {
    op.Add? || op.Delete? || op.Goto? ==> 0 <= t.getIndex(op.key)
  }

  lemma CursorOf<Key, Element>(t: RTPKeyHashTable<Key, Element>, m: OrderedMap<Key, Element>)
    requires Represents(t, m) && !m.cursor.Unset?
    ensures t.CursorValid() && m.cursor == PlaceIn(t.Cursor(), |t.nodes|)
  {
    if m.cursor.At? { t.CursorAt(m.cursor.i); } else { t.CursorAt(|t.nodes|); }
  }

  lemma PlaceOf<Key, Element>(t: RTPKeyHashTable<Key, Element>, m: OrderedMap<Key, Element>)
    requires t.Valid() && t.CursorValid() && t.Entries() == m.entries && m.cursor == PlaceIn(t.Cursor(), |t.nodes|)
    ensures Represents(t, m)
  {
  }

  method DoAdd<Key(==), Element>(t: RTPKeyHashTable<Key, Element>, op: Op<Key, Element>,
    ghost m: OrderedMap<Key, Element>)
    returns (status: int)
    requires Represents(t, m) && op.Add? && IndexNotNegative(t, op)
    modifies t, t.table, t.Nodes()
    ensures Represents(t, Apply(m, op, InRange(t))) && status == Status(m, op, InRange(t))
    ensures fresh(t.Nodes() - old(t.Nodes()))
  {
    hide RTPKeyHashTable.Valid, Has;
    status := t.AddElement(op.key, op.element, op.rtpNew);
    if m.cursor.At? { assert t.nodes[m.cursor.i] == old(t.nodes)[m.cursor.i]; }
  }

  method DoDelete<Key(==), Element>(t: RTPKeyHashTable<Key, Element>, op: Op<Key, Element>,
    ghost m: OrderedMap<Key, Element>)
    returns (status: int)
    requires Represents(t, m) && op.Delete? && IndexNotNegative(t, op)
    modifies t, t.table, t.Nodes()
    ensures Represents(t, Apply(m, op, InRange(t))) && status == Status(m, op, InRange(t))
    ensures t.Nodes() <= old(t.Nodes())
  {
    hide RTPKeyHashTable.Valid, Without;
    status := t.DeleteElement(op.key);
  }

  method DoGoto<Key(==), Element>(t: RTPKeyHashTable<Key, Element>, op: Op<Key, Element>,
    ghost m: OrderedMap<Key, Element>)
    returns (status: int)
    requires Represents(t, m) && op.Goto? && IndexNotNegative(t, op)
    modifies t`curhashelem
    ensures Represents(t, Apply(m, op, InRange(t))) && status == Status(m, op, InRange(t))
  {
    hide RTPKeyHashTable.Valid;
    status := t.GotoElement(op.key);
  }

  method DoMove<Key(==), Element>(t: RTPKeyHashTable<Key, Element>, op: Op<Key, Element>,
    ghost m: OrderedMap<Key, Element>)
    requires Represents(t, m) && Allowed(m, op) && (op.First? || op.Last? || op.Next? || op.Previous?)
    modifies t`curhashelem
    ensures Represents(t, Apply(m, op, InRange(t)))
  {
    hide RTPKeyHashTable.Valid;
    if !m.cursor.Unset? { CursorOf(t, m); }
    match op {
      case First => t.GotoFirstElement();
      case Last => t.GotoLastElement();
      case Next => t.GotoNextElement();
      case Previous => t.GotoPreviousElement();
    }
    PlaceOf(t, Apply(m, op, InRange(t)));
  }

  method DoDeleteCurrent<Key(==), Element>(t: RTPKeyHashTable<Key, Element>, ghost m: OrderedMap<Key, Element>)
    returns (status: int)
    requires Represents(t, m) && !m.cursor.Unset?
    modifies t, t.table, t.Nodes()
    ensures Represents(t, Apply(m, DeleteCurrent, InRange(t))) && status == Status(m, DeleteCurrent, InRange(t))
    ensures t.Nodes() <= old(t.Nodes())
  {
    hide RTPKeyHashTable.Valid;
    CursorOf(t, m);
    status := t.DeleteCurrentElement();
    if status == 0 { assert t.Entries() == Without(m.entries, m.cursor.i); }
    PlaceOf(t, Apply(m, DeleteCurrent, InRange(t)));
  }

  method Do<Key(==), Element>(t: RTPKeyHashTable<Key, Element>, op: Op<Key, Element>, ghost m: OrderedMap<Key, Element>)
    returns (status: int)
    requires Represents(t, m) && Allowed(m, op) && IndexNotNegative(t, op)
    modifies t, t.table, t.Nodes()
    ensures Represents(t, Apply(m, op, InRange(t))) && status == Status(m, op, InRange(t))
    ensures fresh(t.Nodes() - old(t.Nodes()))
  {
    hide Has, Without, IndexOf, PlaceIn, RTPKeyHashTable.Valid;
    status := 0;
    match op {
      case Add(_, _, _) => status := DoAdd(t, op, m);
      case Delete(_) => status := DoDelete(t, op, m);
      case Goto(_) => status := DoGoto(t, op, m);
      case DeleteCurrent => status := DoDeleteCurrent(t, m);
      case ClearAll => t.Clear();
      case _ => DoMove(t, op, m);
    }
  }

  /**
   Any sequence of operations: the table stays well linked with distinct keys, and its
   entries, its cursor and every status are those of the ordered map.
   */
  method Run<Key(==), Element>(t: RTPKeyHashTable<Key, Element>, ops: seq<Op<Key, Element>>,
    ghost m: OrderedMap<Key, Element>)
    returns (statuses: seq<int>)
    requires Represents(t, m) && AllAllowed(m, ops, InRange(t))
    requires forall i :: 0 <= i < |ops| ==> IndexNotNegative(t, ops[i])
    modifies t, t.table, t.Nodes()
    ensures Represents(t, ApplyAll(m, ops, InRange(t))) && statuses == Statuses(m, ops, InRange(t))
    ensures fresh(t.Nodes() - old(t.Nodes()))
  {
    hide Apply, Status, Allowed, Represents;
    ghost var inRange := InRange(t);
    ghost var at := m;
    statuses := [];
    var i := 0;
    assert ops[0..] == ops;
    while i < |ops|
      invariant 0 <= i <= |ops| && Represents(t, at) && AllAllowed(at, ops[i..], inRange)
      invariant ApplyAll(m, ops, inRange) == ApplyAll(at, ops[i..], inRange)
      invariant Statuses(m, ops, inRange) == statuses + Statuses(at, ops[i..], inRange)
      invariant fresh(t.Nodes() - old(t.Nodes()))
    {
      assert ops[i..][0] == ops[i] && ops[i..][1..] == ops[i + 1..];
      var status := Do(t, ops[i], at);
      statuses := statuses + [status];
      at := Apply(at, ops[i], inRange);
      i := i + 1;
    }
  }

  /** The same from a new table on, whose cursor is not set. */
  method RunFromNew<Key(==), Element>(hashsize: nat, index: Key -> int, ops: seq<Op<Key, Element>>)
    returns (t: RTPKeyHashTable<Key, Element>, statuses: seq<int>)
    requires AllAllowed(OrderedMap([], Unset), ops, k => index(k) < hashsize)
    requires forall i :: 0 <= i < |ops| && (ops[i].Add? || ops[i].Delete? || ops[i].Goto?) ==> 0 <= index(ops[i].key)
    ensures t.table.Length == hashsize && t.getIndex == index
    ensures Represents(t, ApplyAll(OrderedMap([], Unset), ops, InRange(t)))
    ensures statuses == Statuses(OrderedMap([], Unset), ops, InRange(t))
  {
    t := new RTPKeyHashTable<Key, Element>(hashsize, index);
    RangeOnly(OrderedMap([], Unset), ops, k => index(k) < hashsize, InRange(t));
    statuses := Run(t, ops, OrderedMap([], Unset));
  }

  lemma {:induction false} RangeOnly<Key, Element>(m: OrderedMap<Key, Element>, ops: seq<Op<Key, Element>>,
    f: Key -> bool, g: Key -> bool)
    requires forall i :: 0 <= i < |ops| && (ops[i].Add? || ops[i].Delete? || ops[i].Goto?) ==>
      f(ops[i].key) == g(ops[i].key)
    ensures AllAllowed(m, ops, f) == AllAllowed(m, ops, g)
    decreases |ops|
  {
    if ops != [] {
      assert Apply(m, ops[0], f) == Apply(m, ops[0], g);
      RangeOnly(Apply(m, ops[0], f), ops[1..], f, g);
    }
  }

  /** In every run of the map keys stay distinct and a set cursor stays inside. */
  ghost predicate Sound<Key, Element>(m: OrderedMap<Key, Element>) {
    DistinctKeys(m.entries) && (m.cursor.At? ==> m.cursor.i < |m.entries|)
  }

  lemma StepStaysSound<Key, Element>(m: OrderedMap<Key, Element>, op: Op<Key, Element>, inRange: Key -> bool)
    requires Sound(m)
    ensures Sound(Apply(m, op, inRange))
  {
    match op
    case Add(k, _, _) => if !Has(m.entries, k) { assert forall i :: 0 <= i < |m.entries| ==> m.entries[i].key != k; }
    case Delete(k) => if Has(m.entries, k) { WithoutStaysDistinct(m.entries, IndexOf(m.entries, k)); }
    case DeleteCurrent => if m.cursor.At? { WithoutStaysDistinct(m.entries, m.cursor.i); }
    case _ =>
  }

  lemma {:induction false} RunStaysSound<Key, Element>(m: OrderedMap<Key, Element>, ops: seq<Op<Key, Element>>,
    inRange: Key -> bool)
    requires Sound(m)
    ensures Sound(ApplyAll(m, ops, inRange))
    decreases |ops|
  {
    hide Sound, Apply;
    if ops != [] {
      StepStaysSound(m, ops[0], inRange);
      RunStaysSound(Apply(m, ops[0], inRange), ops[1..], inRange);
    }
  }
}
