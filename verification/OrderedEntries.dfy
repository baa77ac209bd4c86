/** The simple form of the key table: entries in insertion order, no key twice. */
module OrderedEntries {

  datatype Entry<Key, Element> = Entry(key: Key, element: Element)

  /** Position of the first entry with key `k`, or `|es|` when there is none. */
  function IndexOf<Key(==), Element>(es: seq<Entry<Key, Element>>, k: Key): (i: nat)
    ensures i <= |es|
    ensures i < |es| ==> es[i].key == k
    ensures forall j :: 0 <= j < i ==> es[j].key != k
  {
    if es == [] then 0
    else if es[0].key == k then 0
    else
      var i := IndexOf(es[1..], k);
      assert forall j :: 1 <= j < i + 1 ==> es[j] == es[1..][j - 1];
      i + 1
  }

  predicate Has<Key(==), Element>(es: seq<Entry<Key, Element>>, k: Key) {
    IndexOf(es, k) < |es|
  }

  ghost predicate DistinctKeys<Key, Element>(es: seq<Entry<Key, Element>>) {
    forall i, j :: 0 <= i < j < |es| ==> es[i].key != es[j].key
  }

  function Without<T>(s: seq<T>, i: nat): (r: seq<T>)
    requires i < |s|
    ensures |r| == |s| - 1
    ensures forall j :: 0 <= j < |r| ==> r[j] == s[if j < i then j else j + 1]
  {
    s[..i] + s[i + 1..]
  }

  /** Keeps the entries whose mark is set, in their original order. */
  function Kept<T>(s: seq<T>, keep: seq<bool>): seq<T>
    requires |s| == |keep|
  {
    if s == [] then []
    else (if keep[0] then [s[0]] else []) + Kept(s[1..], keep[1..])
  }

  /** In a table with distinct keys the position of an entry is the only one with its key. */
  lemma IndexOfUnique<Key, Element>(es: seq<Entry<Key, Element>>, i: nat)
    requires DistinctKeys(es) && i < |es|
    ensures IndexOf(es, es[i].key) == i
  {
    var j := IndexOf(es, es[i].key);
    assert j <= i;
    assert es[j].key == es[i].key;
  }

  lemma WithoutStaysDistinct<Key, Element>(es: seq<Entry<Key, Element>>, i: nat)
    requires DistinctKeys(es) && i < |es|
    ensures DistinctKeys(Without(es, i))
  {
    var r := Without(es, i);
    assert forall j :: 0 <= j < |r| ==> r[j] == es[if j < i then j else j + 1];
  }

  /** Removing the entry of a key takes exactly that key away. */
  lemma WithoutRemovesKey<Key, Element>(es: seq<Entry<Key, Element>>, k: Key, q: Key)
    requires DistinctKeys(es) && Has(es, k)
    ensures DistinctKeys(Without(es, IndexOf(es, k)))
    ensures Has(Without(es, IndexOf(es, k)), q) <==> Has(es, q) && q != k
  {
    hide DistinctKeys, Without;
    var i := IndexOf(es, k);
    WithoutStaysDistinct(es, i);
    OnlyHere(es, i, k);
    var r := Without(es, i);
    if Has(r, q) {
      var j := IndexOf(r, q);
      assert r[j] == es[if j < i then j else j + 1];
    }
    if Has(es, q) && q != k {
      var j := IndexOf(es, q);
      assert r[if j < i then j else j - 1] == es[j];
    }
  }

  lemma OnlyHere<Key, Element>(es: seq<Entry<Key, Element>>, i: nat, k: Key)
    requires DistinctKeys(es) && i < |es| && es[i].key == k
    ensures forall j :: 0 <= j < |es| && j != i ==> es[j].key != k
  {
  }

  lemma Regroup<T>(a: seq<T>, x: T, b: seq<T>)
    ensures a + [x] + b == a + ([x] + b)
  {
  }

  /** One visit of a sweep moves the head of `s` to the visited entries, and to the kept ones if marked. */
  lemma KeptStep<T>(visited: seq<T>, kept: seq<T>, s: seq<T>, keep: seq<bool>)
    requires |s| == |keep| && s != []
    ensures visited + [s[0]] + s[1..] == visited + s
    ensures (if keep[0] then kept + [s[0]] else kept) + Kept(s[1..], keep[1..]) == kept + Kept(s, keep)
  {
    hide *;
    KeptFirst(s, keep);
    assert s == [s[0]] + s[1..];
    Regroup(visited, s[0], s[1..]);
    Regroup(kept, s[0], Kept(s[1..], keep[1..]));
  }

  lemma KeptFirst<T>(s: seq<T>, keep: seq<bool>)
    requires |s| == |keep| && s != []
    ensures Kept(s, keep) == if keep[0] then [s[0]] + Kept(s[1..], keep[1..]) else Kept(s[1..], keep[1..])
  {
  }
}
