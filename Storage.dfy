/**
 * The container's registration store `HashRegistry<Type, V>`: an array of bucket heads and an array of
 * entries, each entry linking to the next entry of its bucket. Only the bucket-chain lookup and the
 * put/get behaviour of the store are modelled; resizing is not.
 */
module Storage {
  import opened Wrappers
  import opened Types

  /** One slot of `Entries`: the masked hash of its key, the key, the value and the next index (-1 ends a chain). */
  datatype Entry<V> = Entry(hashCode: nat, key: Key, value: V, next: int)

  datatype HashRegistry<V> = HashRegistry(buckets: seq<int>, entries: seq<Entry<V>>)

  /** Every entry links only to an earlier entry, so every chain ends. */
  predicate Chained<V>(entries: seq<Entry<V>>) {
    forall i :: 0 <= i < |entries| ==> -1 <= entries[i].next < i
  }

  /** At least one bucket; every bucket head is -1 or an entry index; every chain ends. */
  predicate Shape<V>(r: HashRegistry<V>) {
    && |r.buckets| > 0
    && (forall b :: 0 <= b < |r.buckets| ==> -1 <= r.buckets[b] < |r.entries|)
    && Chained(r.entries)
  }

  type Registry<V> = r: HashRegistry<V> | Shape(r) witness HashRegistry([-1], [])

  /**
   * The key's hash code (0 for the null key) with the sign bit cleared. For a 32-bit two's-complement
   * value, clearing the sign bit is the same as taking it modulo 2^31, which Dafny's Euclidean `%` computes.
   */
  function Masked(k: Key): (h: nat)
    ensures h < 0x8000_0000
    ensures k.Some? && k.value.hashCode >= 0 ==> h == k.value.hashCode as int
  {
    (match k
     case None => 0
     case Some(t) => t.hashCode as int) % 0x8000_0000
  }

  /** The bucket of a key: its masked hash modulo the bucket count, always an existing bucket. */
  function Bucket<V>(r: Registry<V>, k: Key): (b: nat)
    ensures b < |r.buckets|
  {
    Masked(k) % |r.buckets|
  }

  /** A fresh registry of the given capacity: all buckets empty, no entries. */
  function Empty<V>(capacity: nat): (r: Registry<V>)
    requires capacity > 0
    ensures |r.buckets| == capacity && r.entries == []
  {
    HashRegistry(seq(capacity, _ => -1), [])
  }

  /** The entry holds key `k` under masked hash `h`. */
  predicate Matches<V>(e: Entry<V>, k: Key, h: nat) {
    e.hashCode == h && e.key == k
  }

  /** The indices on the chain that starts at entry `i`, following the links down to -1. */
  function ChainFrom<V>(entries: seq<Entry<V>>, i: int): (chain: set<nat>)
    requires Chained(entries) && -1 <= i < |entries|
    ensures forall j :: j in chain ==> j <= i
    decreases i + 1
  {
    if i < 0 then {} else {i as nat} + ChainFrom(entries, entries[i].next)
  }

  /**
   * The chain walk from entry `i`: `None` exactly when no entry on the chain matches, and otherwise the
   * first match the walk meets, which is the highest-indexed match since links only go down.
   */
  function FindFrom<V>(entries: seq<Entry<V>>, i: int, k: Key, h: nat): (res: Option<nat>)
    requires Chained(entries) && -1 <= i < |entries|
    ensures res.None? <==> forall j :: j in ChainFrom(entries, i) ==> !Matches(entries[j], k, h)
    ensures res.Some? ==> res.value in ChainFrom(entries, i) && Matches(entries[res.value], k, h)
    ensures res.Some? ==> forall j :: j in ChainFrom(entries, i) && j > res.value ==> !Matches(entries[j], k, h)
    decreases i + 1
  {
    if i < 0 then None
    else if entries[i].hashCode == h && entries[i].key == k then Some(i)
    else FindFrom(entries, entries[i].next, k, h)
  }

  /**
   * The index of the entry for `k`, walking the chain of its bucket: `None` exactly when no entry on that
   * chain holds `k` under its masked hash.
   */
  function Find<V>(r: Registry<V>, k: Key): (res: Option<nat>)
    ensures res.Some? ==> res.value < |r.entries| && r.entries[res.value].key == k
    ensures res.None? <==> forall j :: j in ChainFrom(r.entries, r.buckets[Bucket(r, k)]) ==> !Matches(r.entries[j], k, Masked(k))
  {
    FindFrom(r.entries, r.buckets[Bucket(r, k)], k, Masked(k))
  }

  /** `Get(type)`: the value stored for `k`, if any. */
  function Get<V>(r: Registry<V>, k: Key): Option<V> {
    match Find(r, k)
    case None => None
    case Some(i) => Some(r.entries[i].value)
  }

  /** Insert or replace the value of `k`: a new key becomes the head of its bucket's chain. */
  function Put<V>(r: Registry<V>, k: Key, v: V): (r': Registry<V>)
    ensures |r'.buckets| == |r.buckets|
  {
    match Find(r, k)
    case Some(i) =>
      HashRegistry(r.buckets, r.entries[i := r.entries[i].(value := v)])
    case None =>
      var b := Bucket(r, k);
      var e := Entry(Masked(k), k, v, r.buckets[b]);
      HashRegistry(r.buckets[b := |r.entries|], r.entries + [e])
  }

  /** Nothing is stored in an empty registry. */
  lemma EmptyGet<V>(capacity: nat, k: Key)
    requires capacity > 0
    ensures Get(Empty<V>(capacity), k).None?
  {
  }

  /** A walk over a chain only looks at keys, hashes and links, never at values. */
  lemma {:induction false} FindFromSameLinks<V>(a: seq<Entry<V>>, b: seq<Entry<V>>, i: int, k: Key, h: nat)
    requires Chained(a) && Chained(b) && |a| == |b| && -1 <= i < |a|
    requires forall j :: 0 <= j < |a| ==> a[j].key == b[j].key && a[j].hashCode == b[j].hashCode && a[j].next == b[j].next
    ensures FindFrom(a, i, k, h) == FindFrom(b, i, k, h)
    decreases i + 1
  {
    if i >= 0 && !(a[i].hashCode == h && a[i].key == k) {
      FindFromSameLinks(a, b, a[i].next, k, h);
    }
  }

  /** Appending an entry leaves every walk that starts at an old entry unchanged. */
  lemma {:induction false} FindFromAppend<V>(a: seq<Entry<V>>, e: Entry<V>, i: int, k: Key, h: nat)
    requires Chained(a) && Chained(a + [e]) && -1 <= i < |a|
    ensures FindFrom(a + [e], i, k, h) == FindFrom(a, i, k, h)
    decreases i + 1
  {
    if i >= 0 {
      assert (a + [e])[i] == a[i];
      if !(a[i].hashCode == h && a[i].key == k) {
        FindFromAppend(a, e, a[i].next, k, h);
      }
    }
  }

  /** The store's contract: after `Put(k, v)`, `k` maps to `v` and every other key keeps its value. */
  lemma PutGet<V>(r: Registry<V>, k: Key, v: V, k': Key)
    ensures Get(Put(r, k, v), k') == if k' == k then Some(v) else Get(r, k')
  {
    var r' := Put(r, k, v);
    match Find(r, k)
    case Some(i) =>
      FindFromSameLinks(r.entries, r'.entries, r.buckets[Bucket(r, k')], k', Masked(k'));
      assert Bucket(r', k') == Bucket(r, k');
    case None =>
      var b := Bucket(r, k);
      var e := Entry(Masked(k), k, v, r.buckets[b]);
      assert r'.entries == r.entries + [e];
      var b' := Bucket(r, k');
      assert Bucket(r', k') == b';
      if b' == b {
        if k' != k {
          FindFromAppend(r.entries, e, r.buckets[b], k', Masked(k'));
        }
      } else {
        FindFromAppend(r.entries, e, r.buckets[b'], k', Masked(k'));
      }
  }
}
