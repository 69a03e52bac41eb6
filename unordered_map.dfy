/** The chained hash map of include/unordered_map.h: a row of buckets, each a
    vector of key/value entries, an entry count and a load limit past which
    the whole table is rehashed into a larger row. The hash function is a
    parameter and keys are compared with `==`. */
module UnorderedMaps {

  const InitialBucketCapacity: nat := 256

  datatype Entry<K, V> = Entry(key: K, value: V)

  /** What an iterator of the source names: a bucket and a slot in it; the
      slot equal to the bucket's length is that bucket's end. */
  datatype Position = Position(bucket: nat, index: nat)

  /** `capacity * 0.7`, truncated, written in integer arithmetic. */
  function LoadLimit(capacity: nat): (r: nat)
    ensures r <= capacity
    ensures 10 * r <= 7 * capacity < 10 * (r + 1)
  {
    capacity * 7 / 10
  }

  /** `(capacity + required) * 1.4`, truncated, written in integer
      arithmetic. */
  function ResizedCapacity(capacity: nat, required: nat): (r: nat)
    ensures 10 * r <= 14 * (capacity + required) < 10 * (r + 1)
  {
    (capacity + required) * 14 / 10
  }

  /** A resize never lowers the load limit of a non-empty row. */
  lemma LoadLimitGrows(capacity: nat, required: nat)
    requires capacity > 0
    ensures ResizedCapacity(capacity, required) >= capacity
    ensures LoadLimit(capacity) <= LoadLimit(ResizedCapacity(capacity, required))
  {
    var grown := ResizedCapacity(capacity, required);
    assert 10 * grown > 14 * capacity - 10;
  }

  /** One resize for one more entry always makes room for it: once the count
      reaches the load limit of `capacity`, it lies below the limit of the
      resized row. */
  lemma RoomAfterResize(capacity: nat)
    requires capacity > 0
    ensures LoadLimit(capacity) + 1 <= LoadLimit(ResizedCapacity(capacity, 1))
  {
    var grown := ResizedCapacity(capacity, 1);
    var limit := LoadLimit(grown);
    if capacity < 6 {
      assert grown == (capacity + 1) * 14 / 10;
    } else {
      assert 10 * grown > 14 * capacity + 4;
      assert 10 * limit > 7 * grown - 10;
    }
  }

  /** The entries in iteration order: bucket by bucket, each bucket front to
      back (begin() through end()). */
  function Entries<K, V>(buckets: seq<seq<Entry<K, V>>>): seq<Entry<K, V>>
  {
    if buckets == [] then [] else buckets[0] + Entries(buckets[1..])
  }

  /** An entry is met by iteration exactly when some bucket holds it. */
  lemma {:induction false} InEntries<K, V>(buckets: seq<seq<Entry<K, V>>>, e: Entry<K, V>)
    ensures e in Entries(buckets) <==> exists b :: 0 <= b < |buckets| && e in buckets[b]
  {
    if buckets != [] {
      InEntries(buckets[1..], e);
      if e in Entries(buckets) && e !in buckets[0] {
        var b :| 0 <= b < |buckets[1..]| && e in buckets[1..][b];
        assert e in buckets[b + 1];
      }
      if exists b :: 0 <= b < |buckets| && e in buckets[b] {
        var b :| 0 <= b < |buckets| && e in buckets[b];
        if b > 0 {
          assert e in buckets[1..][b - 1];
        }
      }
    }
  }

  /** Appending `e` to bucket `b` (emplace_back / push_back on one bucket). */
  function Push<K, V>(buckets: seq<seq<Entry<K, V>>>, b: nat, e: Entry<K, V>): (r: seq<seq<Entry<K, V>>>)
    requires b < |buckets|
    ensures |r| == |buckets| && r[b] == buckets[b] + [e]
    ensures forall c :: 0 <= c < |r| && c != b ==> r[c] == buckets[c]
  {
    buckets[b := buckets[b] + [e]]
  }

  /** Pushing onto one bucket adds exactly that entry to the iteration. */
  lemma {:induction false} EntriesPush<K, V>(buckets: seq<seq<Entry<K, V>>>, b: nat, e: Entry<K, V>)
    requires b < |buckets|
    ensures multiset(Entries(Push(buckets, b, e))) == multiset(Entries(buckets)) + multiset{e}
    ensures |Entries(Push(buckets, b, e))| == |Entries(buckets)| + 1
  {
    var pushed := Push(buckets, b, e);
    if b == 0 {
      assert pushed[1..] == buckets[1..];
    } else {
      assert pushed[1..] == Push(buckets[1..], b - 1, e);
      EntriesPush(buckets[1..], b - 1, e);
    }
  }

  /** Two orderings of the same entries hold the same keys. */
  lemma SameKeys<K, V>(a: seq<Entry<K, V>>, b: seq<Entry<K, V>>, key: K)
    requires multiset(a) == multiset(b)
    ensures (exists e :: e in a && e.key == key) <==> (exists e :: e in b && e.key == key)
  {
    if exists e :: e in a && e.key == key {
      var e :| e in a && e.key == key;
      assert e in multiset(b);
    }
    if exists e :: e in b && e.key == key {
      var e :| e in b && e.key == key;
      assert e in multiset(a);
    }
  }

  /** Every entry sits in the bucket its key hashes to. */
  ghost predicate Placed<K, V>(buckets: seq<seq<Entry<K, V>>>, hash: K -> nat)
  {
    forall b, i :: 0 <= b < |buckets| && 0 <= i < |buckets[b]| ==> hash(buckets[b][i].key) % |buckets| == b
  }

  /** Pushing an entry onto its key's bucket keeps every entry placed. */
  lemma PlacedPush<K, V>(buckets: seq<seq<Entry<K, V>>>, hash: K -> nat, e: Entry<K, V>)
    requires |buckets| > 0 && Placed(buckets, hash)
    ensures Placed(Push(buckets, hash(e.key) % |buckets|, e), hash)
  {
    var pushed: seq<seq<Entry<K, V>>> := Push(buckets, hash(e.key) % |buckets|, e);
    forall b: nat, i: nat | b < |pushed| && i < |pushed[b]|
      ensures hash(pushed[b][i].key) % |pushed| == b
    {
      if b == hash(e.key) % |buckets| && i == |buckets[b]| {
        assert pushed[b][i] == e;
      } else {
        assert pushed[b][i] == buckets[b][i];
      }
    }
  }

  /** A row of `capacity` empty buckets. */
  function Empty<K, V>(capacity: nat): (r: seq<seq<Entry<K, V>>>)
    ensures |r| == capacity && Entries(r) == []
    ensures forall b :: 0 <= b < |r| ==> r[b] == []
  {
    if capacity == 0 then [] else [[]] + Empty(capacity - 1)
  }

  /** The row the rehashing constructor builds: `entries`, pushed one after
      the other onto the bucket of a new row of `capacity` that their key
      hashes to. It holds the same entries, each in its key's bucket. */
  function Spread<K, V>(entries: seq<Entry<K, V>>, capacity: nat, hash: K -> nat): (r: seq<seq<Entry<K, V>>>)
    requires capacity > 0
    ensures |r| == capacity
    ensures multiset(Entries(r)) == multiset(entries)
    ensures Placed(r, hash)
  {
    if entries == [] then Empty(capacity)
    else
      var last := entries[|entries| - 1];
      var before := Spread(entries[..|entries| - 1], capacity, hash);
      EntriesPush(before, hash(last.key) % capacity, last);
      PlacedPush(before, hash, last);
      assert entries == entries[..|entries| - 1] + [last];
      Push(before, hash(last.key) % capacity, last)
  }

  /** The loop of the rehashing constructor: walk `source` in iteration
      order and push each entry onto its key's bucket in a new row of
      `capacity`. */
  method Rehash<K, V>(source: seq<Entry<K, V>>, capacity: nat, hash: K -> nat) returns (row: seq<seq<Entry<K, V>>>)
    requires capacity > 0
    ensures row == Spread(source, capacity, hash)
  {
    row := Empty(capacity);
    for j := 0 to |source|
      invariant row == Spread(source[..j], capacity, hash)
    {
      var e := source[j];
      assert source[..j + 1][..j] == source[..j];
      row := Push(row, hash(e.key) % capacity, e);
    }
    assert source[..|source|] == source;
  }

  /** find_entry: the first slot of `values` whose key equals `key`, or the
      bucket's end when there is none. */
  method FindEntry<K(==), V>(values: seq<Entry<K, V>>, key: K) returns (i: nat)
    ensures i <= |values|
    ensures forall j :: 0 <= j < i ==> values[j].key != key
    ensures i < |values| ==> values[i].key == key
  {
    i := 0;
    while i < |values|
      invariant i <= |values|
      invariant forall j :: 0 <= j < i ==> values[j].key != key
    {
      if values[i].key == key {
        return;
      }
      i := i + 1;
    }
  }

  class UnorderedMap<K(==), V(==)> {
    var buckets: seq<seq<Entry<K, V>>>
    var entryCount: nat
    var maximumLoad: nat
    const hash: K -> nat

    /** The count matches the entries, the load limit matches the row, and
        the count never exceeds the limit (every insertion checks the load
        first). */
    ghost predicate Valid()
      reads this
    {
      |buckets| > 0 && entryCount == |Entries(buckets)| &&
      maximumLoad == LoadLimit(|buckets|) && entryCount <= maximumLoad
    }

    ghost function Contents(): multiset<Entry<K, V>>
      reads this
    {
      multiset(Entries(buckets))
    }

    /** Some entry holds `key`. */
    ghost predicate Contains(key: K)
      reads this
    {
      exists e :: e in Entries(buckets) && e.key == key
    }

    function Size(): nat
      reads this
    {
      entryCount
    }

    function Capacity(): nat
      reads this
    {
      |buckets|
    }

    function BucketIndex(key: K): (r: nat)
      reads this
      requires |buckets| > 0
      ensures r < |buckets|
    {
      hash(key) % |buckets|
    }

    /** end(): the end of the last bucket. */
    function End(): (r: Position)
      reads this
      requires |buckets| > 0
      ensures r.bucket < |buckets| && r.index == |buckets[r.bucket]|
    {
      Position(|buckets| - 1, |buckets[|buckets| - 1]|)
    }

    /** Iterator equality: the same slot of the same bucket, or both at the
        end of their own bucket. */
    predicate Same(p: Position, q: Position)
      reads this
      requires p.bucket < |buckets| && q.bucket < |buckets|
    {
      p == q || (p.index == |buckets[p.bucket]| && q.index == |buckets[q.bucket]|)
    }

    /** A map of `capacity` empty buckets; the source reads bucket
        `hash % capacity` on every access, so the row must not be empty. */
    constructor (capacity: nat, hash: K -> nat)
      requires capacity > 0
      ensures Valid() && Placed(buckets, hash)
      ensures buckets == Empty(capacity) && this.hash == hash
      ensures Size() == 0 && maximumLoad == LoadLimit(capacity)
    {
      buckets := Empty(capacity);
      entryCount := 0;
      maximumLoad := LoadLimit(capacity);
      this.hash := hash;
    }

    /** A map of the default 256 buckets. */
    constructor WithHash(hash: K -> nat)
      ensures Valid() && Placed(buckets, hash)
      ensures buckets == Empty(InitialBucketCapacity) && this.hash == hash
      ensures Size() == 0 && maximumLoad == LoadLimit(InitialBucketCapacity)
    {
      buckets := Empty(InitialBucketCapacity);
      entryCount := 0;
      maximumLoad := LoadLimit(InitialBucketCapacity);
      this.hash := hash;
    }

    /** resize: the rehashing constructor builds the new row and the map
        takes it over; count and entries stay, the load limit follows the
        new row. */
    method Resize(newCapacity: nat)
      requires Valid() && newCapacity > 0 && entryCount <= LoadLimit(newCapacity)
      modifies this
      ensures Valid() && Placed(buckets, hash)
      ensures buckets == Spread(old(Entries(buckets)), newCapacity, hash)
      ensures Contents() == old(Contents()) && entryCount == old(entryCount)
    {
      var row := Rehash(Entries(buckets), newCapacity, hash);
      assert |Entries(row)| == |multiset(Entries(row))| == |multiset(Entries(buckets))| == |Entries(buckets)|;
      buckets := row;
      maximumLoad := LoadLimit(newCapacity);
    }

    /** resize_on_demand: rehash into `(capacity + required) * 1.4` buckets
        exactly when the count plus `required` exceeds the load limit; a
        single required slot is then always free. */
    method ResizeOnDemand(required: nat) returns (resized: bool)
      requires Valid()
      modifies this
      ensures Valid() && (old(Placed(buckets, hash)) ==> Placed(buckets, hash))
      ensures resized == (old(entryCount) + required > old(maximumLoad))
      ensures resized ==> buckets == Spread(old(Entries(buckets)), ResizedCapacity(old(|buckets|), required), hash)
      ensures !resized ==> buckets == old(buckets)
      ensures Contents() == old(Contents()) && entryCount == old(entryCount)
      ensures required == 1 ==> entryCount + 1 <= maximumLoad
    {
      if entryCount + required > maximumLoad {
        LoadLimitGrows(|buckets|, required);
        if required == 1 {
          RoomAfterResize(|buckets|);
        }
        Resize(ResizedCapacity(|buckets|, required));
        resized := true;
      } else {
        resized := false;
      }
    }

    /** The private force_insert: after its own load check, append the entry
        to the hinted bucket, or to the key's bucket of the new row when the
        check rehashed. */
    method ForceInsertAt(key: K, value: V, hint: nat) returns (p: Position)
      requires Valid() && hint < |buckets|
      modifies this
      ensures Valid()
      ensures Contents() == old(Contents()) + multiset{Entry(key, value)}
      ensures entryCount == old(entryCount) + 1
      ensures p.bucket < |buckets| && p.index + 1 == |buckets[p.bucket]|
      ensures buckets[p.bucket][p.index] == Entry(key, value)
      ensures old(entryCount) + 1 <= old(maximumLoad) ==>
        p.bucket == hint && |buckets| == old(|buckets|) && buckets == Push(old(buckets), hint, Entry(key, value))
      ensures old(entryCount) + 1 > old(maximumLoad) ==> p.bucket == BucketIndex(key)
      ensures old(Placed(buckets, hash)) && hint == old(BucketIndex(key)) ==> Placed(buckets, hash)
    {
      var bucket := hint;
      var resized := ResizeOnDemand(1);
      if resized {
        bucket := BucketIndex(key);
      }
      EntriesPush(buckets, bucket, Entry(key, value));
      if Placed(buckets, hash) && bucket == BucketIndex(key) {
        PlacedPush(buckets, hash, Entry(key, value));
      }
      buckets := Push(buckets, bucket, Entry(key, value));
      entryCount := entryCount + 1;
      p := Position(bucket, |buckets[bucket]| - 1);
    }

    /** The public force_insert: append without looking for the key. */
    method ForceInsert(key: K, value: V, hint: Position) returns (p: Position)
      requires Valid() && hint.bucket < |buckets|
      modifies this
      ensures Valid()
      ensures Contents() == old(Contents()) + multiset{Entry(key, value)}
      ensures entryCount == old(entryCount) + 1
      ensures p.bucket < |buckets| && p.index < |buckets[p.bucket]| && buckets[p.bucket][p.index] == Entry(key, value)
      ensures old(entryCount) + 1 <= old(maximumLoad) ==> p.bucket == hint.bucket
      ensures old(Placed(buckets, hash)) && hint.bucket == old(BucketIndex(key)) ==> Placed(buckets, hash)
    {
      p := ForceInsertAt(key, value, hint.bucket);
    }

    /** The missing-key branch of insert: with room for one more entry,
        force_insert appends to the key's own bucket, after every entry
        already there. */
    method AppendMissing(key: K, value: V) returns (p: Position)
      requires Valid() && Placed(buckets, hash) && entryCount + 1 <= maximumLoad
      modifies this
      ensures Valid() && Placed(buckets, hash)
      ensures buckets == Push(old(buckets), old(BucketIndex(key)), Entry(key, value))
      ensures Contents() == old(Contents()) + multiset{Entry(key, value)} && entryCount == old(entryCount) + 1
      ensures p == Position(BucketIndex(key), old(|buckets[BucketIndex(key)]|))
    {
      p := ForceInsertAt(key, value, BucketIndex(key));
    }

    /** insert: check the load (rehashing even when the key turns out to be
        present), then return the first entry of the key's bucket holding
        the key, or append a new entry there when there is none. The second
        load check inside force_insert then never rehashes. */
    method Insert(key: K, value: V) returns (p: Position)
      requires Valid() && Placed(buckets, hash)
      modifies this
      ensures Valid() && Placed(buckets, hash)
      ensures |buckets| == (if old(entryCount) + 1 > old(maximumLoad) then ResizedCapacity(old(|buckets|), 1) else old(|buckets|))
      ensures p.bucket == BucketIndex(key) && p.index < |buckets[p.bucket]|
      ensures buckets[p.bucket][p.index].key == key
      ensures forall j :: 0 <= j < p.index ==> buckets[p.bucket][j].key != key
      ensures old(Contains(key)) ==>
        Contents() == old(Contents()) && entryCount == old(entryCount) && buckets[p.bucket][p.index] in old(Contents())
      ensures !old(Contains(key)) ==>
        Contents() == old(Contents()) + multiset{Entry(key, value)} && entryCount == old(entryCount) + 1 &&
        buckets[p.bucket][p.index] == Entry(key, value)
    {
      ghost var wasPresent := Contains(key);
      var _ := ResizeOnDemand(1);
      SameKeys(old(Entries(buckets)), Entries(buckets), key);
      assert Contains(key) == wasPresent;
      var b := BucketIndex(key);
      var i := FindEntry(buckets[b], key);
      if i == |buckets[b]| {
        MissingFromBucket(key);
        p := AppendMissing(key, value);
      } else {
        p := Position(b, i);
        HeldAt(b, i);
      }
    }

    /** find: the first entry of the key's bucket holding the key, or that
        bucket's end, which compares equal to end(). */
    method Find(key: K) returns (p: Position)
      requires Valid()
      ensures p.bucket == BucketIndex(key) && p.index <= |buckets[p.bucket]|
      ensures forall j :: 0 <= j < p.index ==> buckets[p.bucket][j].key != key
      ensures p.index < |buckets[p.bucket]| ==> buckets[p.bucket][p.index].key == key
      ensures Same(p, End()) <==> p.index == |buckets[p.bucket]|
      ensures Placed(buckets, hash) ==> (Same(p, End()) <==> !Contains(key))
    {
      var b := BucketIndex(key);
      var i := FindEntry(buckets[b], key);
      p := Position(b, i);
      if i < |buckets[b]| {
        HeldAt(b, i);
      } else if Placed(buckets, hash) {
        MissingFromBucket(key);
      }
    }

    /** Every slot of every bucket is met by iteration. */
    lemma HeldAt(b: nat, i: nat)
      requires b < |buckets| && i < |buckets[b]|
      ensures buckets[b][i] in Contents() && Contains(buckets[b][i].key)
    {
      InEntries(buckets, buckets[b][i]);
    }

    /** With every entry in its key's bucket, iteration meets an entry
        only in its key's bucket. */
    lemma Home(e: Entry<K, V>)
      requires |buckets| > 0 && Placed(buckets, hash) && e in Contents()
      ensures e in buckets[BucketIndex(e.key)]
    {
      InEntries(buckets, e);
      var b :| 0 <= b < |buckets| && e in buckets[b];
      var i :| 0 <= i < |buckets[b]| && buckets[b][i] == e;
      assert hash(buckets[b][i].key) % |buckets| == b;
    }

    /** With every entry in its key's bucket, a key its bucket lacks is
        nowhere in the map. */
    lemma MissingFromBucket(key: K)
      requires |buckets| > 0 && Placed(buckets, hash)
      requires forall i :: 0 <= i < |buckets[BucketIndex(key)]| ==> buckets[BucketIndex(key)][i].key != key
      ensures !Contains(key)
    {
      forall e | e in Entries(buckets)
        ensures e.key != key
      {
        Home(e);
      }
    }
  }
}
