/** The growable array of plain data. */
module DynArrays {

  const INT_MAX := 0x7fff_ffff
  const MAX_GROWTH := 0x3fff_ffff

  /** What an operation does to the sizes; element values do not matter here. */
  datatype Op = Grow(count: nat) | Shrink(count: nat) | Reset

  /** Elements in use and allocated, and the running totals of elements pushed and copied. */
  datatype Account = Account(size: nat, capacity: nat, pushed: nat, copied: nat) {

    function After(op: Op): Account {
      match op
      case Grow(n) =>
        var cap := size + n;
        if cap > capacity then Account(cap, 2 * cap, pushed + n, copied + size)
        else Account(cap, capacity, pushed + n, copied)
      case Shrink(n) => Account(if n <= size then size - n else 0, capacity, pushed, copied)
      case Reset => Account(0, capacity, pushed, copied)
    }

    /** At most two elements copied for every element pushed; the second line pays for the next growth. */
    ghost predicate Amortised() {
      && copied <= 2 * pushed
      && copied + 2 * size <= 2 * pushed + capacity
    }
  }

  function Run(initial: nat, ops: seq<Op>): Account {
    if ops == [] then Account(0, initial, 0, 0)
    else Run(initial, ops[..|ops| - 1]).After(ops[|ops| - 1])
  }

  /**
   Amortised cost: however growth, shrinking and clearing are mixed, and whatever the
   initial capacity, at most two elements are copied for every element pushed.
   */
  lemma {:induction false} CopiedAtMostTwicePushed(initial: nat, ops: seq<Op>)
    ensures Run(initial, ops).Amortised() && Run(initial, ops).copied <= 2 * Run(initial, ops).pushed
    ensures Run(initial, ops).size <= Run(initial, ops).capacity && initial <= Run(initial, ops).capacity
  {
    if ops != [] {
      CopiedAtMostTwicePushed(initial, ops[..|ops| - 1]);
    }
  }

  class DynArray<T(0)> {
    const pool: array<T>
    var mem: array<T>
    var capacity: int
    var size: int
    /** What all operations so far add up to. */
    ghost var cost: Account
    /** How many elements have been copied, counted copy by copy. */
    ghost var copies: nat

    ghost predicate Valid()
      reads this
    {
      && 0 <= size <= capacity == mem.Length
      && size == cost.size && capacity == cost.capacity && copies == cost.copied
      && cost.Amortised()
    }

    function Contents(): seq<T>
      requires Valid()
      reads this, mem
    {
      mem[..size]
    }

    constructor (initialSize: nat)
      ensures Valid() && fresh(mem) && Contents() == []
      ensures pool.Length == initialSize && cost == Account(0, initialSize, 0, 0) && copies == 0
    {
      pool := new T[initialSize];
      new;
      mem, capacity, size := pool, initialSize, 0;
      cost, copies := Account(0, initialSize, 0, 0), 0;
    }

    method Clear()
      requires Valid()
      modifies this`size, this`cost
      ensures Valid() && Contents() == [] && cost == old(cost).After(Reset)
    {
      size := 0;
      cost := cost.After(Reset);
    }

    /** Growth is refused beyond half of the int range: the new capacity is twice the need. */
    ghost predicate Fits(count: int)
      reads this
    {
      && 0 <= count <= INT_MAX - size
      && (size + count > capacity ==> size + count <= MAX_GROWTH)
    }

    /** Copies every element in use once when the array grows, and nothing otherwise. */
    method EnsureCapacity(cap: int)
      requires 0 <= size <= capacity == mem.Length && 0 < cap
      requires cap > capacity ==> cap <= MAX_GROWTH
      modifies this`mem, this`capacity, this`copies
      ensures size <= capacity == mem.Length && cap <= capacity
      ensures capacity == if cap > old(capacity) then 2 * cap else old(capacity)
      ensures mem == old(mem) || fresh(mem)
      ensures mem[..size] == old(mem[..size])
      ensures copies == old(copies) + if cap > old(capacity) then size else 0
    {
      if cap > capacity {
        var newAllocated := cap * 2;
        var newMem := new T[newAllocated];
        for i := 0 to size
          invariant mem == old(mem) && size <= mem.Length && size <= newMem.Length
          invariant newMem[..i] == mem[..i] && mem[..] == old(mem[..])
          invariant copies == old(copies) + i
        {
          newMem[i] := mem[i];
          copies := copies + 1;
        }
        mem := newMem;
        capacity := newAllocated;
      }
    }

    method Push(t: T)
      requires Valid() && Fits(1)
      modifies this, mem
      ensures Valid() && (mem == old(mem) || fresh(mem))
      ensures Contents() == old(Contents()) + [t]
      ensures cost == old(cost).After(Grow(1))
    {
      EnsureCapacity(size + 1);
      assert mem[..size] == old(Contents());
      mem[size] := t;
      assert mem[..size + 1] == old(Contents()) + [t];
      size := size + 1;
      cost := cost.After(Grow(1));
    }

    /** Makes room for `count` elements and returns where they start; their values are not set. */
    method PushArr(count: int) returns (start: int)
      requires Valid() && Fits(count) && 0 < size + count
      modifies this, mem
      ensures Valid() && (mem == old(mem) || fresh(mem))
      ensures start == old(size) && size == old(size) + count
      ensures Contents()[..start] == old(Contents())
      ensures cost == old(cost).After(Grow(count))
    {
      EnsureCapacity(size + count);
      start := size;
      size := size + count;
      cost := cost.After(Grow(count));
    }

    method Pop() returns (t: T)
      requires Valid() && size > 0
      modifies this`size, this`cost
      ensures Valid() && old(Contents()) == Contents() + [t]
      ensures cost == old(cost).After(Shrink(1))
    {
      size := size - 1;
      t := mem[size];
      cost := cost.After(Shrink(1));
    }

    method PopArr(count: int)
      requires Valid() && 0 <= count <= size
      modifies this`size, this`cost
      ensures Valid() && Contents() == old(Contents())[..old(size) - count]
      ensures cost == old(cost).After(Shrink(count))
    {
      size := size - count;
      cost := cost.After(Shrink(count));
    }

    /** Assignment through the index operator. */
    method Put(i: int, t: T)
      requires Valid() && 0 <= i < size
      modifies mem
      ensures Valid() && Contents() == old(Contents())[i := t]
    {
      mem[i] := t;
    }

    method SwapRemove(i: int)
      requires Valid() && 0 <= i < size
      modifies this`size, this`cost, mem
      ensures Valid() && cost == old(cost).After(Shrink(1))
      ensures Contents() == SwapRemoved(old(Contents()), i)
    {
      mem[i] := mem[size - 1];
      size := size - 1;
      cost := cost.After(Shrink(1));
    }
  }

  /** The array's own limits on an operation. */
  predicate Possible(a: Account, op: Op) {
    match op
    case Grow(n) => 0 < a.size + n <= INT_MAX && (a.size + n > a.capacity ==> a.size + n <= MAX_GROWTH)
    case Shrink(n) => n <= a.size
    case Reset => true
  }

  /** Elements pushed by the operations. */
  function Pushed(ops: seq<Op>): nat {
    if ops == [] then 0
    else Pushed(ops[..|ops| - 1]) + if ops[|ops| - 1].Grow? then ops[|ops| - 1].count else 0
  }

  lemma {:induction false} RunCountsPushed(initial: nat, ops: seq<Op>)
    ensures Run(initial, ops).pushed == Pushed(ops)
  {
    if ops != [] { RunCountsPushed(initial, ops[..|ops| - 1]); }
  }

  /** The operations with their elements; PushMany is PushArr followed by filling the room it made. */
  datatype Act<T> =
    | PushOne(t: T)
    | PushMany(ts: seq<T>)
    | PopOne
    | PopMany(count: nat)
    | Remove(i: nat)
    | Assign(i: nat, t: T)
    | ClearAll

  /** What it does to the sequence of elements. */
  function Effect<T>(s: seq<T>, act: Act<T>): seq<T> {
    match act
    case PushOne(t) => s + [t]
    case PushMany(ts) => s + ts
    case PopOne => if s == [] then [] else s[..|s| - 1]
    case PopMany(n) => if n <= |s| then s[..|s| - n] else []
    case Remove(i) => if i < |s| then SwapRemoved(s, i) else s
    case Assign(i, t) => if i < |s| then s[i := t] else s
    case ClearAll => []
  }

  /** What it hands back. */
  function Handed<T>(s: seq<T>, act: Act<T>): seq<T> {
    if act.PopOne? && s != [] then [s[|s| - 1]] else []
  }

  /** What it does to the sizes. */
  function OpOf<T>(act: Act<T>): Op {
    match act
    case PushOne(_) => Grow(1)
    case PushMany(ts) => Grow(|ts|)
    case PopOne => Shrink(1)
    case PopMany(n) => Shrink(n)
    case Remove(_) => Shrink(1)
    case Assign(_, _) => Shrink(0)
    case ClearAll => Reset
  }

  predicate Allowed<T>(a: Account, act: Act<T>) {
    Possible(a, OpOf(act)) && (act.Remove? || act.Assign? ==> act.i < a.size)
  }

  function Effects<T>(acts: seq<Act<T>>): seq<T> {
    if acts == [] then [] else Effect(Effects(acts[..|acts| - 1]), acts[|acts| - 1])
  }

  function AllHanded<T>(acts: seq<Act<T>>): seq<T> {
    if acts == [] then []
    else AllHanded(acts[..|acts| - 1]) + Handed(Effects(acts[..|acts| - 1]), acts[|acts| - 1])
  }

  function Ops<T>(acts: seq<Act<T>>): (ops: seq<Op>)
    ensures |ops| == |acts| && forall i :: 0 <= i < |acts| ==> ops[i] == OpOf(acts[i])
  {
    seq(|acts|, i requires 0 <= i < |acts| => OpOf(acts[i]))
  }

  method Fill<T(0)>(a: DynArray<T>, start: int, ts: seq<T>)
    requires a.Valid() && 0 <= start && start + |ts| == a.size
    modifies a.mem
    ensures a.Valid() && a.Contents() == old(a.Contents())[..start] + ts
  {
    ghost var front := a.Contents()[..start];
    for i := 0 to |ts|
      invariant a.Valid() && a.Contents()[..start + i] == front + ts[..i]
    {
      a.Put(start + i, ts[i]);
      assert a.Contents()[..start + i + 1] == a.Contents()[..start + i] + [ts[i]];
      assert ts[..i + 1] == ts[..i] + [ts[i]];
    }
    assert a.Contents()[..start + |ts|] == a.Contents() && ts[..|ts|] == ts;
  }

  method Do<T(0)>(a: DynArray<T>, act: Act<T>) returns (handed: seq<T>)
    requires a.Valid() && Allowed(a.cost, act)
    modifies a, a.mem
    ensures a.Valid() && (a.mem == old(a.mem) || fresh(a.mem))
    ensures a.Contents() == Effect(old(a.Contents()), act) && handed == Handed(old(a.Contents()), act)
    ensures a.cost == old(a.cost).After(OpOf(act))
  {
    handed := [];
    match act {
      case PushOne(t) => a.Push(t);
      case PushMany(ts) =>
        var start := a.PushArr(|ts|);
        Fill(a, start, ts);
      case PopOne =>
        var t := a.Pop();
        handed := [t];
      case PopMany(n) => a.PopArr(n);
      case Remove(i) => a.SwapRemove(i);
      case Assign(i, t) => a.Put(i, t);
      case ClearAll => a.Clear();
    }
  }

  /**
   Any run of a new array: its contents and what it hands back are those of a sequence, and
   the copies its loop makes are at most twice the elements pushed.
   */
  method Perform<T(0)>(initial: nat, acts: seq<Act<T>>) returns (a: DynArray<T>, handed: seq<T>)
    requires forall i :: 0 <= i < |acts| ==> Allowed(Run(initial, Ops(acts)[..i]), acts[i])
    ensures a.Valid() && a.Contents() == Effects(acts) && handed == AllHanded(acts)
    ensures a.copies == Run(initial, Ops(acts)).copied && a.copies <= 2 * Pushed(Ops(acts))
  {
    hide Run, Pushed, Effect, Handed, Allowed, OpOf;
    var ops := Ops(acts);
    a := new DynArray<T>(initial);
    handed := [];
    RunStarts(initial, ops);
    for i := 0 to |acts|
      invariant a.Valid() && fresh(a) && fresh(a.mem) && a.cost == Run(initial, ops[..i])
      invariant a.Contents() == Effects(acts[..i]) && handed == AllHanded(acts[..i])
    {
      var one := Do(a, acts[i]);
      handed := handed + one;
      RunStep(initial, ops, i);
      assert acts[..i + 1][..i] == acts[..i];
    }
    assert ops[..|acts|] == ops && acts[..|acts|] == acts;
    CopiedAtMostTwicePushed(initial, ops);
    RunCountsPushed(initial, ops);
  }

  lemma RunStarts(initial: nat, ops: seq<Op>)
    ensures Run(initial, ops[..0]) == Account(0, initial, 0, 0)
  {
  }

  lemma RunStep(initial: nat, ops: seq<Op>, i: nat)
    requires i < |ops|
    ensures Run(initial, ops[..i + 1]) == Run(initial, ops[..i]).After(ops[i])
  {
    assert ops[..i + 1][..i] == ops[..i];
  }

  /** The last element takes the place of element `i`. */
  function SwapRemoved<T>(s: seq<T>, i: nat): seq<T>
    requires i < |s|
  {
    s[i := s[|s| - 1]][..|s| - 1]
  }

  /** Exactly the element at `i` is lost, and every place but `i` keeps its element. */
  lemma SwapRemoveLosesOne<T>(s: seq<T>, i: nat)
    requires i < |s|
    ensures multiset(SwapRemoved(s, i)) == multiset(s) - multiset{s[i]}
    ensures forall j :: 0 <= j < |s| - 1 && j != i ==> SwapRemoved(s, i)[j] == s[j]
  {
    var n := |s| - 1;
    assert s == s[..n] + [s[n]];
    if i < n {
      assert s[..n] == s[..i] + [s[i]] + s[i + 1..n];
      assert SwapRemoved(s, i) == s[..i] + [s[n]] + s[i + 1..n];
    } else {
      assert SwapRemoved(s, i) == s[..n];
    }
  }
}
