/** The chained hash table that grows by rehashing in place. */
module BasicHashTable {
  import opened Basics

  const SMALL_HASH_TABLE_SIZE := 4
  const REBUILD_MULTIPLIER := 3
  /** As many buckets as fDownShift allows; it would become negative at the next rebuild. */
  const MAX_BUCKETS := 0x4000_0000

  /** A key of one of the three kinds: text, one machine word, or several 32-bit words. */
  datatype Key = StringKey(chars: seq<nat>) | WordKey(word: nat) | WordsKey(words: seq<nat>)

  function Pow2(n: nat): (p: nat)
    ensures p > 0
  {
    if n == 0 then 1 else 2 * Pow2(n - 1)
  }

  lemma Pow2Of28()
    ensures Pow2(28) == 0x1000_0000
  {
    assert Pow2(4) == 16;
    assert Pow2(8) == 0x100;
    assert Pow2(12) == 0x1000;
    assert Pow2(16) == 0x1_0000;
    assert Pow2(20) == 0x10_0000;
    assert Pow2(24) == 0x100_0000;
  }

  /** Four times the buckets and two bits less of shift. */
  lemma Quadrupled(buckets: nat, downShift: nat)
    requires downShift >= 2
    ensures 4 * buckets * Pow2(downShift - 2) == buckets * Pow2(downShift)
  {
    assert Pow2(downShift) == 2 * Pow2(downShift - 1) == 4 * Pow2(downShift - 2);
  }

  /** The text digest, in 32 bits; `chars` are the characters as unsigned values. */
  function TextDigest(chars: seq<nat>): nat {
    if |chars| == 0 then 0
    else
      var r := TextDigest(chars[..|chars| - 1]);
      (r + (r * 8) + chars[|chars| - 1]) % 0x1_0000_0000
  }

  function WordSum(words: seq<nat>): nat {
    if |words| == 0 then 0 else (WordSum(words[..|words| - 1]) + words[|words| - 1]) % 0x1_0000_0000_0000_0000
  }

  /** The bucket of a key; masking with `mask` is taken modulo mask + 1, a power of two. */
  function HashIndex(key: Key, downShift: nat, mask: nat): (index: nat)
    ensures index <= mask
  {
    match key
    case StringKey(chars) => TextDigest(chars) % (mask + 1)
    case WordKey(word) => RandomIndex(word, downShift, mask)
    case WordsKey(words) => RandomIndex(WordSum(words), downShift, mask)
  }

  function RandomIndex(i: nat, downShift: nat, mask: nat): (index: nat)
    ensures index <= mask
  {
    ((i * 1103515245 % 0x1_0000_0000_0000_0000) / Pow2(downShift)) % (mask + 1)
  }

  class TableEntry<V> {
    var fNext: TableEntry?<V>
    const key: Key
    var value: V

    constructor (k: Key, v: V)
      ensures key == k && value == v
    {
      key, value := k, v;
    }
  }

  /** `fNext` threads one chain. */
  ghost predicate ChainLinked<V>(head: TableEntry?<V>, chain: seq<TableEntry<V>>)
    reads chain`fNext
  {
    && head == (if chain == [] then null else chain[0])
    && forall i {:trigger chain[i].fNext} :: 0 <= i < |chain| ==>
         chain[i].fNext == if i + 1 < |chain| then chain[i + 1] else null
  }

  ghost predicate Within<V>(chains: seq<seq<TableEntry<V>>>, all: set<TableEntry<V>>) {
    forall b, e :: 0 <= b < |chains| && e in chains[b] ==> e in all
  }

  ghost predicate BucketsLinked<V>(buckets: array<TableEntry?<V>>, chains: seq<seq<TableEntry<V>>>,
          all: set<TableEntry<V>>)
    requires Within(chains, all)
    reads buckets, all`fNext
  {
    && |chains| == buckets.Length
    && forall b :: 0 <= b < |chains| ==> ChainLinked(buckets[b], chains[b])
  }

  /** Every entry is in one chain, the one its key's index names, once. */
  ghost predicate Hashed<V>(chains: seq<seq<TableEntry<V>>>, all: set<TableEntry<V>>, downShift: nat) {
    && |chains| > 0
    && (forall b, e :: 0 <= b < |chains| && e in chains[b] ==>
       e in all && HashIndex(e.key, downShift, |chains| - 1) == b)
    && (forall e :: e in all ==> e in chains[HashIndex(e.key, downShift, |chains| - 1)])
    && (forall b, i, j :: 0 <= b < |chains| && 0 <= i < j < |chains[b]| ==> chains[b][i] != chains[b][j])
  }

  /** The entries hold exactly the associations of the map, one each. */
  ghost predicate Holds<V>(all: set<TableEntry<V>>, contents: map<Key, V>)
    reads all`value
  {
    && (forall e :: e in all ==> e.key in contents && contents[e.key] == e.value)
    && (forall k :: k in contents ==> exists e :: e in all && e.key == k)
    && (forall e, e' :: e in all && e' in all && e.key == e'.key ==> e == e')
  }

  /** Puts `e` at the head of a chain. */
  method PushFront<V>(buckets: array<TableEntry?<V>>, index: nat, e: TableEntry<V>,
                      ghost chains: seq<seq<TableEntry<V>>>, ghost all: set<TableEntry<V>>)
    requires Within(chains, all) && BucketsLinked(buckets, chains, all) && index < |chains| && e !in all
    modifies buckets, e`fNext
    ensures Within(chains[index := [e] + chains[index]], all + {e})
    ensures BucketsLinked(buckets, chains[index := [e] + chains[index]], all + {e})
  {
    ghost var chain: seq<TableEntry<V>> := [e] + chains[index];
    assert ChainLinked(buckets[index], chains[index]);
    e.fNext := buckets[index];
    buckets[index] := e;
    ghost var chains' := chains[index := chain];
    forall b | 0 <= b < |chains'|
      ensures ChainLinked(buckets[b], chains'[b])
    {
      assert old(ChainLinked(buckets[b], chains[b]));
    }
  }

  /** Takes the head off a chain. */
  method PopFront<V>(buckets: array<TableEntry?<V>>, index: nat,
                     ghost chains: seq<seq<TableEntry<V>>>, ghost all: set<TableEntry<V>>) returns (e: TableEntry<V>)
    requires Within(chains, all) && BucketsLinked(buckets, chains, all) && index < |chains| && chains[index] != []
    requires forall b, i, j :: 0 <= b < |chains| && 0 <= i < j < |chains[b]| ==> chains[b][i] != chains[b][j]
    modifies buckets
    ensures e == chains[index][0] && Within(chains[index := chains[index][1..]], all)
    ensures BucketsLinked(buckets, chains[index := chains[index][1..]], all)
  {
    assert ChainLinked(buckets[index], chains[index]);
    e := buckets[index];
    buckets[index] := e.fNext;
    ghost var chains' := chains[index := chains[index][1..]];
    forall b | 0 <= b < |chains'|
      ensures ChainLinked(buckets[b], chains'[b])
    {
      assert old(ChainLinked(buckets[b], chains[b]));
    }
  }

  /** Removes the entry after its predecessor, or the head. */
  method UnlinkAt<V>(buckets: array<TableEntry?<V>>, index: nat, entry: TableEntry<V>,
                     ghost chains: seq<seq<TableEntry<V>>>, ghost all: set<TableEntry<V>>, ghost j: nat)
    requires Within(chains, all) && BucketsLinked(buckets, chains, all)
    requires index < |chains| && j < |chains[index]| && chains[index][j] == entry
    requires forall b, e :: 0 <= b < |chains| && b != index && e in chains[b] ==> e !in chains[index]
    requires forall b, a, c :: 0 <= b < |chains| && 0 <= a < c < |chains[b]| ==> chains[b][a] != chains[b][c]
    modifies buckets, all`fNext
    ensures Within(chains[index := Without(chains[index], j)], all)
    ensures BucketsLinked(buckets, chains[index := Without(chains[index], j)], all)
  {
    ghost var chain := chains[index];
    assert ChainLinked(buckets[index], chain);
    if buckets[index] == entry {
      buckets[index] := entry.fNext;
    } else {
      var ep := buckets[index];
      ghost var i := 0;
      while ep.fNext != entry
        invariant 0 <= i < j && ep == chain[i]
        decreases j - i
      {
        ep := ep.fNext;
        i := i + 1;
      }
      ep.fNext := entry.fNext;
    }
    ghost var chains' := chains[index := Without(chain, j)];
    forall b | 0 <= b < |chains'|
      ensures ChainLinked(buckets[b], chains'[b])
    {
      assert old(ChainLinked(buckets[b], chains[b]));
      assert j > 0 ==> chain[j - 1] in chain;
    }
  }

  class BasicHashTable<V> {
    var fBuckets: array<TableEntry?<V>>
    var fNumBuckets: nat
    var fNumEntries: nat
    var fRebuildSize: nat
    var fDownShift: nat
    var fMask: nat
    ghost var chains: seq<seq<TableEntry<V>>>
    ghost var entries: set<TableEntry<V>>
    /** The map that the table stands for. */
    ghost var contents: map<Key, V>

    ghost predicate Sized()
      reads this
    {
      && fBuckets.Length == fNumBuckets == fMask + 1 == |chains|
      && fRebuildSize == REBUILD_MULTIPLIER * fNumBuckets
      && fNumBuckets * Pow2(fDownShift) == MAX_BUCKETS && fDownShift % 2 == 0
      && fNumEntries == |contents|
    }

    ghost predicate Valid()
      reads this, fBuckets, entries
    {
      && Sized() && fNumEntries < fRebuildSize
      && Hashed(chains, entries, fDownShift)
      && BucketsLinked(fBuckets, chains, entries)
      && Holds(entries, contents)
    }

    constructor ()
      ensures Valid() && contents == map[] && fresh(fBuckets) && entries == {}
    {
      hide HashIndex, Pow2, Hashed, Within, BucketsLinked, ChainLinked;
      fBuckets := new TableEntry?<V>[SMALL_HASH_TABLE_SIZE](_ => null);
      fNumBuckets, fNumEntries := SMALL_HASH_TABLE_SIZE, 0;
      fRebuildSize := SMALL_HASH_TABLE_SIZE * REBUILD_MULTIPLIER;
      fDownShift, fMask := 28, 3;
      chains, entries, contents := [[], [], [], []], {}, map[];
      new;
      NothingHashed(fBuckets, chains, 28);
      Pow2Of28();
    }

    method LookupKey(key: Key) returns (entry: TableEntry?<V>, index: nat)
      requires Valid()
      ensures index == HashIndex(key, fDownShift, fMask)
      ensures entry == null <==> key !in contents
      ensures entry != null ==>
                entry in entries && entry in chains[index] && entry.key == key && entry.value == contents[key]
    {
      hide HashIndex;
      index := HashIndex(key, fDownShift, fMask);
      ghost var chain := chains[index];
      assert ChainLinked(fBuckets[index], chain);
      entry := fBuckets[index];
      ghost var i := 0;
      while entry != null && entry.key != key
        invariant 0 <= i <= |chain| && entry == if i < |chain| then chain[i] else null
        invariant forall j :: 0 <= j < i ==> chain[j].key != key
        decreases |chain| - i
      {
        entry := entry.fNext;
        i := i + 1;
      }
    }

    method Lookup(key: Key) returns (value: Option<V>)
      requires Valid()
      ensures value == if key in contents then Some(contents[key]) else None
    {
      var entry, _ := LookupKey(key);
      value := if entry == null then None else Some(entry.value);
    }

    /** The old value, if there was one. */
    method Add(key: Key, value: V) returns (oldValue: Option<V>)
      requires Valid() && |contents[key := value]| < REBUILD_MULTIPLIER * MAX_BUCKETS
      modifies this, fBuckets, entries
      ensures Valid() && contents == old(contents)[key := value]
      ensures oldValue == if key in old(contents) then Some(old(contents)[key]) else None
      ensures fBuckets == old(fBuckets) || fresh(fBuckets)
      ensures fresh(entries - old(entries))
    {
      hide HashIndex, Hashed, BucketsLinked, Holds, Pow2;
      var entry, index := LookupKey(key);
      if entry != null {
        oldValue := Some(entry.value);
        Overwrite(entry, value);
      } else {
        oldValue := None;
        InsertNewEntry(index, key, value);
        if fNumEntries >= fRebuildSize {
          RoomToGrow();
          Rebuild();
        }
      }
    }

    /** A table that is full short of its last size can grow. */
    lemma RoomToGrow()
      requires Sized() && fRebuildSize <= fNumEntries < REBUILD_MULTIPLIER * MAX_BUCKETS
      ensures fDownShift >= 2
    {}

    method Overwrite(entry: TableEntry<V>, value: V)
      requires Valid() && entry in entries
      modifies entry`value, this`contents
      ensures Valid() && contents == old(contents)[entry.key := value]
    {
      hide Hashed, BucketsLinked;
      entry.value := value;
      contents := contents[entry.key := value];
    }

    /** The table may now be full enough for a rebuild. */
    method InsertNewEntry(index: nat, key: Key, value: V)
      requires Valid() && index == HashIndex(key, fDownShift, fMask) && key !in contents
      modifies this`fNumEntries, this`chains, this`entries, this`contents, fBuckets
      ensures Sized() && Hashed(chains, entries, fDownShift) && BucketsLinked(fBuckets, chains, entries)
      ensures Holds(entries, contents)
      ensures contents == old(contents)[key := value] && fNumEntries <= fRebuildSize
      ensures entries > old(entries) && fresh(entries - old(entries))
    {
      hide HashIndex, ChainLinked, Hashed, BucketsLinked, Within, Holds;
      var entry := new TableEntry(key, value);
      HashedIsWithin(chains, entries, fDownShift);
      HashedAfterPush(chains, entries, fDownShift, entry);
      PushFront(fBuckets, index, entry, chains, entries);
      HoldsAfterAdd(entries, contents, entry);
      AddedSize(contents, key, value);
      fNumEntries := fNumEntries + 1;
      chains := chains[index := [entry] + chains[index]];
      entries := entries + {entry};
      contents := contents[key := value];
    }

    /** Half-way through a rehash: the pending entries are where the old table had them, the others in the new one. */
    ghost predicate Rehashing(oldBuckets: array<TableEntry?<V>>, rest: seq<seq<TableEntry<V>>>, oldShift: nat,
                              pending: set<TableEntry<V>>, moved: set<TableEntry<V>>)
      reads this`fBuckets, this`fDownShift, this`chains, this`entries, oldBuckets, fBuckets, pending`fNext, moved`fNext
    {
      && oldBuckets != fBuckets
      && pending !! moved && pending + moved == entries
      && Hashed(rest, pending, oldShift) && Within(rest, pending) && BucketsLinked(oldBuckets, rest, pending)
      && Hashed(chains, moved, fDownShift) && Within(chains, moved) && BucketsLinked(fBuckets, chains, moved)
    }

    /** Four times as many buckets, and every entry in the one that its key now names. */
    method Rebuild()
      requires Sized() && fDownShift >= 2 && fNumEntries <= fRebuildSize
      requires Hashed(chains, entries, fDownShift) && BucketsLinked(fBuckets, chains, entries)
      requires Holds(entries, contents)
      modifies this`fBuckets, this`fNumBuckets, this`fRebuildSize, this`fDownShift, this`fMask, this`chains
      modifies fBuckets, entries`fNext
      ensures Valid() && contents == old(contents) && entries == old(entries)
      ensures fNumBuckets == 4 * old(fNumBuckets) && fresh(fBuckets)
    {
      hide HashIndex, ChainLinked, Hashed, BucketsLinked, Within, Holds, Pow2;
      var oldSize, oldBuckets := fNumBuckets, fBuckets;
      ghost var rest, oldShift := chains, fDownShift;
      Grow();
      Rehash(oldBuckets, oldSize, rest, oldShift);
    }

    /** The new, empty table, with everything still to be moved. */
    method Grow()
      requires Sized() && fDownShift >= 2 && Hashed(chains, entries, fDownShift)
      requires BucketsLinked(fBuckets, chains, entries)
      modifies this`fBuckets, this`fNumBuckets, this`fRebuildSize, this`fDownShift, this`fMask, this`chains
      ensures Sized() && fNumBuckets == 4 * old(fNumBuckets) && fresh(fBuckets)
      ensures Rehashing(old(fBuckets), old(chains), old(fDownShift), entries, {})
    {
      hide HashIndex, ChainLinked, Hashed, BucketsLinked, Within, Pow2;
      HashedIsWithin(chains, entries, fDownShift);
      Quadrupled(fNumBuckets, fDownShift);
      fNumBuckets := fNumBuckets * 4;
      fBuckets := new TableEntry?<V>[fNumBuckets](_ => null);
      fRebuildSize := fRebuildSize * 4;
      fDownShift := fDownShift - 2;
      fMask := fMask * 4 + 3;
      chains := seq(fNumBuckets, _ => []);
      NothingHashed(fBuckets, chains, fDownShift);
    }

    /** The rehashing loop over the old buckets. */
    method Rehash(oldBuckets: array<TableEntry?<V>>, oldSize: nat, ghost rest: seq<seq<TableEntry<V>>>,
            ghost oldShift: nat)
      requires Rehashing(oldBuckets, rest, oldShift, entries, {}) && |rest| == oldSize && |chains| == fMask + 1
      modifies oldBuckets, fBuckets, this`chains, entries`fNext
      ensures |chains| == fMask + 1
      ensures Hashed(chains, entries, fDownShift) && Within(chains, entries) && BucketsLinked(fBuckets, chains, entries)
    {
      hide HashIndex, ChainLinked, Hashed, BucketsLinked, Within;
      ghost var left, pending := rest, entries;
      ghost var moved: set<TableEntry<V>> := {};
      for i := 0 to oldSize
        invariant Rehashing(oldBuckets, left, oldShift, pending, moved) && |chains| == fMask + 1
        invariant |left| == oldSize && forall b :: 0 <= b < i ==> left[b] == []
      {
        left, pending, moved := DrainBucket(oldBuckets, i, left, oldShift, pending, moved);
      }
      NothingPending(left, pending, oldShift);
      assert moved == entries;
    }

    /** Moves all entries of one old bucket. */
    method DrainBucket(oldBuckets: array<TableEntry?<V>>, i: nat, ghost rest: seq<seq<TableEntry<V>>>,
            ghost oldShift: nat,
                       ghost pending: set<TableEntry<V>>, ghost moved: set<TableEntry<V>>)
      returns (ghost rest': seq<seq<TableEntry<V>>>, ghost pending': set<TableEntry<V>>,
          ghost moved': set<TableEntry<V>>)
      requires Rehashing(oldBuckets, rest, oldShift, pending, moved) && i < |rest| && |chains| == fMask + 1
      modifies oldBuckets, fBuckets, this`chains, entries`fNext
      ensures |chains| == fMask + 1 && |rest'| == |rest| && rest'[i] == [] && rest' == rest[i := []]
      ensures Rehashing(oldBuckets, rest', oldShift, pending', moved')
    {
      hide HashIndex, ChainLinked, Hashed, BucketsLinked, Within;
      rest', pending', moved' := rest, pending, moved;
      var hPtr := HeadOf(oldBuckets, i, rest', pending');
      while hPtr != null
        invariant Rehashing(oldBuckets, rest', oldShift, pending', moved') && |chains| == fMask + 1
        invariant |rest'| == |rest| && rest' == rest[i := rest'[i]]
        invariant hPtr == if rest'[i] == [] then null else rest'[i][0]
        decreases |rest'[i]|
      {
        MoveHead(oldBuckets, i, rest', oldShift, pending', moved');
        moved' := moved' + {hPtr};
        pending' := pending' - {hPtr};
        rest' := rest'[i := rest'[i][1..]];
        hPtr := HeadOf(oldBuckets, i, rest', pending');
      }
    }

    static method HeadOf(buckets: array<TableEntry?<V>>, i: nat, ghost rest: seq<seq<TableEntry<V>>>,
            ghost all: set<TableEntry<V>>)
      returns (e: TableEntry?<V>)
      requires Within(rest, all) && BucketsLinked(buckets, rest, all) && i < |rest|
      ensures e == if rest[i] == [] then null else rest[i][0]
    {
      assert ChainLinked(buckets[i], rest[i]);
      e := buckets[i];
    }

    /** Moves the first entry of an old bucket to the head of its new one. */
    method MoveHead(oldBuckets: array<TableEntry?<V>>, i: nat, ghost rest: seq<seq<TableEntry<V>>>, ghost oldShift: nat,
                    ghost pending: set<TableEntry<V>>, ghost moved: set<TableEntry<V>>)
      requires Rehashing(oldBuckets, rest, oldShift, pending, moved) && i < |rest| && rest[i] != []
      requires |chains| == fMask + 1
      modifies oldBuckets, fBuckets, this`chains, entries`fNext
      ensures |chains| == |old(chains)|
      ensures Rehashing(oldBuckets, rest[i := rest[i][1..]], oldShift, pending - {rest[i][0]}, moved + {rest[i][0]})
    {
      hide HashIndex, ChainLinked, BucketsLinked;
      HashedIsWithin(rest, pending, oldShift);
      var hPtr := PopFront(oldBuckets, i, rest, pending);
      ghost var j := HashedAfterDelete(rest, pending, oldShift, hPtr);
      assert j == 0;
      assert Without(rest[i], 0) == rest[i][1..];
      BucketsShrink(oldBuckets, rest[i := rest[i][1..]], pending, pending - {hPtr});
      var index := HashIndex(hPtr.key, fDownShift, fMask);
      HashedAfterPush(chains, moved, fDownShift, hPtr);
      PushFront(fBuckets, index, hPtr, chains, moved);
      chains := chains[index := [hPtr] + chains[index]];
    }

    method Remove(key: Key) returns (removed: bool)
      requires Valid()
      modifies this`fNumEntries, this`chains, this`entries, this`contents, fBuckets, entries`fNext
      ensures Valid() && contents == old(contents) - {key} && removed == (key in old(contents))
      ensures entries <= old(entries)
    {
      var entry, index := LookupKey(key);
      if entry == null {
        removed := false;
        assert contents - {key} == contents;
      } else {
        DeleteEntry(index, entry);
        removed := true;
      }
    }

    method DeleteEntry(index: nat, entry: TableEntry<V>)
      requires Valid() && entry in entries && index == HashIndex(entry.key, fDownShift, fMask)
      modifies this`fNumEntries, this`chains, this`entries, this`contents, fBuckets, entries`fNext
      ensures Valid() && contents == old(contents) - {entry.key} && entries == old(entries) - {entry}
    {
      hide HashIndex, ChainLinked, Hashed, BucketsLinked, Within, Holds;
      HashedIsWithin(chains, entries, fDownShift);
      HashedDisjoint(chains, entries, fDownShift, index);
      ghost var j := HashedAfterDelete(chains, entries, fDownShift, entry);
      UnlinkAt(fBuckets, index, entry, chains, entries, j);
      BucketsShrink(fBuckets, chains[index := Without(chains[index], j)], entries, entries - {entry});
      HoldsAfterDelete(entries, contents, entry);
      fNumEntries := fNumEntries - 1;
      chains := chains[index := Without(chains[index], j)];
      entries := entries - {entry};
      contents := contents - {entry.key};
    }
  }

  // ----- runs

  datatype Operation<V> = Add(key: Key, value: V) | Remove(key: Key) | Lookup(key: Key)
  datatype Answer<V> = OldValue(replaced: Option<V>) | Removed(removed: bool) | Found(found: Option<V>)

  function Get<V>(m: map<Key, V>, key: Key): Option<V> {
    if key in m then Some(m[key]) else None
  }

  /** The operation on the map. */
  function Applied<V>(m: map<Key, V>, op: Operation<V>): (map<Key, V>, Answer<V>) {
    match op
    case Add(key, value) => (m[key := value], OldValue(Get(m, key)))
    case Remove(key) => (m - {key}, Removed(key in m))
    case Lookup(key) => (m, Found(Get(m, key)))
  }

  function AllApplied<V>(m: map<Key, V>, ops: seq<Operation<V>>): (map<Key, V>, seq<Answer<V>>)
    decreases |ops|
  {
    if |ops| == 0 then (m, [])
    else
      var (m', answer) := Applied(m, ops[0]);
      var (end, answers) := AllApplied(m', ops[1..]);
      (end, [answer] + answers)
  }

  /** The map never holds as much as the largest table may not hold. */
  predicate Fits<V>(m: map<Key, V>, ops: seq<Operation<V>>)
    decreases |ops|
  {
    |ops| == 0 || (|Applied(m, ops[0]).0| < REBUILD_MULTIPLIER * MAX_BUCKETS && Fits(Applied(m, ops[0]).0, ops[1..]))
  }

  method Perform<V>(table: BasicHashTable<V>, op: Operation<V>) returns (answer: Answer<V>)
    requires table.Valid() && |Applied(table.contents, op).0| < REBUILD_MULTIPLIER * MAX_BUCKETS
    modifies table, table.fBuckets, table.entries
    ensures table.Valid() && (table.contents, answer) == Applied(old(table.contents), op)
    ensures table.fBuckets == old(table.fBuckets) || fresh(table.fBuckets)
    ensures fresh(table.entries - old(table.entries))
  {
    match op
    case Add(key, value) =>
      var oldValue := table.Add(key, value);
      answer := OldValue(oldValue);
    case Remove(key) =>
      var removed := table.Remove(key);
      answer := Removed(removed);
    case Lookup(key) =>
      var found := table.Lookup(key);
      answer := Found(found);
  }

  /** Over every run, with all its rebuilds, the table gives the answers of the map and holds what the map holds. */
  method PerformAll<V>(table: BasicHashTable<V>, ops: seq<Operation<V>>) returns (answers: seq<Answer<V>>)
    requires table.Valid() && Fits(table.contents, ops)
    modifies table, table.fBuckets, table.entries
    ensures table.Valid() && (table.contents, answers) == AllApplied(old(table.contents), ops)
    ensures table.fBuckets == old(table.fBuckets) || fresh(table.fBuckets)
    ensures fresh(table.entries - old(table.entries))
    decreases |ops|
  {
    hide HashIndex, Hashed, BucketsLinked, Holds, Pow2, Applied;
    if |ops| == 0 {
      answers := [];
    } else {
      var answer := Perform(table, ops[0]);
      answers := PerformAll(table, ops[1..]);
      answers := [answer] + answers;
    }
  }

  /** All chains, one after the other from bucket `from` on. */
  ghost function Joined<T>(chains: seq<seq<T>>, from: nat): (all: seq<T>)
    requires from <= |chains|
    decreases |chains| - from
  {
    if from == |chains| then [] else chains[from] + Joined(chains, from + 1)
  }

  /** Joining the chains of a table loses no entry and repeats none. */
  lemma {:induction false} JoinedHoldsEachOnce<V>(chains: seq<seq<TableEntry<V>>>, all: set<TableEntry<V>>,
          downShift: nat, from: nat)
    requires Hashed(chains, all, downShift) && from <= |chains|
    ensures forall e :: e in Joined(chains, from) <==> e in all && HashIndex(e.key, downShift, |chains| - 1) >= from
    ensures forall i, j :: 0 <= i < j < |Joined(chains, from)| ==> Joined(chains, from)[i] != Joined(chains, from)[j]
    decreases |chains| - from
  {
    hide HashIndex;
    if from < |chains| {
      JoinedHoldsEachOnce(chains, all, downShift, from + 1);
      var rest := Joined(chains, from + 1);
      var joined := Joined(chains, from);
      forall i, j | 0 <= i < j < |joined|
        ensures joined[i] != joined[j]
      {
        if i < |chains[from]| {
          assert joined[i] in chains[from];
          assert j >= |chains[from]| ==> joined[j] in rest;
        }
      }
    }
  }

  class Iterator<V> {
    const fTable: BasicHashTable<V>
    var fNextIndex: nat
    var fNextEntry: TableEntry?<V>
    /** What is left of the chain being walked. */
    ghost var chain: seq<TableEntry<V>>

    ghost predicate Valid()
      reads this, fTable, fTable.fBuckets, fTable.entries
    {
      && fTable.Valid() && fNextIndex <= fTable.fNumBuckets
      && (forall e :: e in chain ==> e in fTable.entries)
      && ChainLinked(fNextEntry, chain)
    }

    /** The entries that it has yet to give, in order. */
    ghost function Ahead(): seq<TableEntry<V>>
      reads this, fTable
    {
      if fNextIndex <= |fTable.chains| then chain + Joined(fTable.chains, fNextIndex) else []
    }

    constructor (table: BasicHashTable<V>)
      requires table.Valid()
      ensures fTable == table && Valid() && Ahead() == Joined(table.chains, 0)
    {
      fTable, fNextIndex, fNextEntry, chain := table, 0, null, [];
    }

    /** The next entry's key and value, or None once all have been given. */
    method Next() returns (next: Option<(Key, V)>)
      requires Valid()
      modifies this
      ensures Valid()
      ensures next.None? <==> old(Ahead()) == []
      ensures next.Some? ==> && next.value == (old(Ahead())[0].key, old(Ahead())[0].value)
                             && Ahead() == old(Ahead())[1..]
    {
      hide Hashed, Holds, HashIndex;
      while fNextEntry == null && fNextIndex < fTable.fNumBuckets
        invariant Valid() && Ahead() == old(Ahead())
        decreases fTable.fNumBuckets - fNextIndex
      {
        TakeChain();
      }
      if fNextEntry == null {
        next := None;
      } else {
        var entry := fNextEntry;
        fNextEntry := entry.fNext;
        chain := chain[1..];
        next := Some((entry.key, entry.value));
      }
    }

    /** Starts on the next bucket. */
    method TakeChain()
      requires Valid() && fNextEntry == null && fNextIndex < fTable.fNumBuckets
      modifies this
      ensures Valid() && Ahead() == old(Ahead()) && fNextIndex == old(fNextIndex) + 1
    {
      hide Holds, HashIndex;
      assert ChainLinked(fTable.fBuckets[fNextIndex], fTable.chains[fNextIndex]);
      assert chain == [];
      chain := fTable.chains[fNextIndex];
      fNextEntry := fTable.fBuckets[fNextIndex];
      fNextIndex := fNextIndex + 1;
    }
  }

  lemma {:induction false} DistinctSize<T>(s: seq<T>, all: set<T>)
    requires forall x :: x in s <==> x in all
    requires forall i, j :: 0 <= i < j < |s| ==> s[i] != s[j]
    ensures |s| == |all|
  {
    if s == [] {
      assert all == {};
    } else {
      forall x | x in all - {s[0]}
        ensures x in s[1..]
      {
        assert x in s;
      }
      DistinctSize(s[1..], all - {s[0]});
    }
  }

  /** The entries of the table, each once, read off as pairs, are the map. */
  lemma PairsAreContents<V>(all: seq<TableEntry<V>>, entries: set<TableEntry<V>>, contents: map<Key, V>,
          visited: seq<(Key, V)>)
    requires Holds(entries, contents) && (forall e :: e in all <==> e in entries)
    requires forall i, j :: 0 <= i < j < |all| ==> all[i] != all[j]
    requires |visited| == |all| && forall i :: 0 <= i < |all| ==> visited[i] == (all[i].key, all[i].value)
    ensures forall k :: k in contents ==> (k, contents[k]) in visited
    ensures forall p :: p in visited ==> p.0 in contents && contents[p.0] == p.1
    ensures forall i, j :: 0 <= i < j < |visited| ==> visited[i].0 != visited[j].0
    ensures |visited| == |contents|
  {
    forall k | k in contents
      ensures (k, contents[k]) in visited
    {
      var e :| e in entries && e.key == k;
      var i :| 0 <= i < |all| && all[i] == e;
      assert visited[i] == (k, contents[k]);
    }
    forall i | 0 <= i < |visited|
      ensures visited[i].0 in contents && contents[visited[i].0] == visited[i].1
    {
      assert all[i] in entries;
    }
    var keys: seq<Key> := seq(|visited|, i requires 0 <= i < |visited| => visited[i].0);
    forall k
      ensures k in keys <==> k in contents.Keys
    {
      if k in contents {
        var i :| 0 <= i < |visited| && visited[i] == (k, contents[k]);
        assert keys[i] == k;
      }
    }
    forall i, j | 0 <= i < j < |visited|
      ensures keys[i] != keys[j]
    {
      assert all[i] in entries && all[j] in entries;
    }
    DistinctSize(keys, contents.Keys);
  }

  /** A whole iteration over an unchanged table gives every association of the map, once. */
  method Iterate<V>(table: BasicHashTable<V>) returns (visited: seq<(Key, V)>)
    requires table.Valid()
    ensures forall k :: k in table.contents ==> (k, table.contents[k]) in visited
    ensures forall p :: p in visited ==> p.0 in table.contents && table.contents[p.0] == p.1
    ensures forall i, j :: 0 <= i < j < |visited| ==> visited[i].0 != visited[j].0
    ensures |visited| == table.fNumEntries
  {
    hide Hashed, Holds, HashIndex, BucketsLinked, Joined;
    ghost var all := Joined(table.chains, 0);
    visited := CollectAll(table, all);
    JoinedHoldsEachOnce(table.chains, table.entries, table.fDownShift, 0);
    PairsAreContents(all, table.entries, table.contents, visited);
  }

  method CollectAll<V>(table: BasicHashTable<V>, ghost all: seq<TableEntry<V>>) returns (visited: seq<(Key, V)>)
    requires table.Valid() && all == Joined(table.chains, 0)
    ensures |visited| == |all| && forall i :: 0 <= i < |all| ==> visited[i] == (all[i].key, all[i].value)
  {
    hide *;
    var it := new Iterator(table);
    var next := it.Next();
    visited := [];
    while next.Some?
      invariant it.Valid() && it.fTable == table && |visited| <= |all|
      invariant forall i :: 0 <= i < |visited| ==> visited[i] == (all[i].key, all[i].value)
      invariant next.None? ==> |visited| == |all|
      invariant next.Some? ==> && |visited| < |all| && next.value == (all[|visited|].key, all[|visited|].value)
                               && it.Ahead() == all[|visited| + 1..]
      decreases |all| - |visited|
    {
      visited := visited + [next.value];
      next := it.Next();
    }
  }

  lemma HashedIsWithin<V>(chains: seq<seq<TableEntry<V>>>, all: set<TableEntry<V>>, downShift: nat)
    requires Hashed(chains, all, downShift)
    ensures Within(chains, all)
    ensures forall b, i, j :: 0 <= b < |chains| && 0 <= i < j < |chains[b]| ==> chains[b][i] != chains[b][j]
  {}

  lemma HashedDisjoint<V>(chains: seq<seq<TableEntry<V>>>, all: set<TableEntry<V>>, downShift: nat, index: nat)
    requires Hashed(chains, all, downShift) && index < |chains|
    ensures forall b, e :: 0 <= b < |chains| && b != index && e in chains[b] ==> e !in chains[index]
  {
    hide HashIndex;
    forall b, e | 0 <= b < |chains| && e in chains[b] && e in chains[index]
      ensures b == index
    {
      assert HashIndex(e.key, downShift, |chains| - 1) == b;
    }
  }

  lemma HoldsAfterAdd<V>(all: set<TableEntry<V>>, contents: map<Key, V>, e: TableEntry<V>)
    requires Holds(all, contents) && e.key !in contents
    ensures Holds(all + {e}, contents[e.key := e.value])
  {
    var contents' := contents[e.key := e.value];
    forall k | k in contents'
      ensures exists x :: x in all + {e} && x.key == k
    {
      if k == e.key {
        assert e in all + {e};
      } else {
        var x :| x in all && x.key == k;
        assert x in all + {e};
      }
    }
  }

  lemma AddedSize<V>(contents: map<Key, V>, k: Key, v: V)
    requires k !in contents
    ensures |contents[k := v]| == |contents| + 1
  {
    assert contents[k := v].Keys == contents.Keys + {k};
  }

  lemma HoldsAfterDelete<V>(all: set<TableEntry<V>>, contents: map<Key, V>, e: TableEntry<V>)
    requires Holds(all, contents) && e in all
    ensures Holds(all - {e}, contents - {e.key})
    ensures |contents - {e.key}| == |contents| - 1
  {
    var contents' := contents - {e.key};
    forall k | k in contents'
      ensures exists x :: x in all - {e} && x.key == k
    {
      var x :| x in all && x.key == k;
      assert x in all - {e};
    }
    assert contents.Keys == contents'.Keys + {e.key};
  }

  lemma NothingHashed<V>(buckets: array<TableEntry?<V>>, chains: seq<seq<TableEntry<V>>>, downShift: nat)
    requires |chains| == buckets.Length > 0
    requires forall b :: 0 <= b < |chains| ==> chains[b] == [] && buckets[b] == null
    ensures Hashed(chains, {}, downShift) && Within(chains, {}) && BucketsLinked(buckets, chains, {})
  {
    hide HashIndex;
  }

  lemma NothingPending<V>(rest: seq<seq<TableEntry<V>>>, pending: set<TableEntry<V>>, oldShift: nat)
    requires Hashed(rest, pending, oldShift) && forall b :: 0 <= b < |rest| ==> rest[b] == []
    ensures pending == {}
  {
    hide HashIndex;
    assert forall e :: e in pending ==> e in rest[HashIndex(e.key, oldShift, |rest| - 1)];
  }

  lemma BucketsShrink<V>(buckets: array<TableEntry?<V>>, chains: seq<seq<TableEntry<V>>>, all: set<TableEntry<V>>,
          fewer: set<TableEntry<V>>)
    requires Within(chains, all) && Within(chains, fewer) && BucketsLinked(buckets, chains, all)
    ensures BucketsLinked(buckets, chains, fewer)
  {}

  lemma HashedAfterPush<V>(chains: seq<seq<TableEntry<V>>>, all: set<TableEntry<V>>, downShift: nat, e: TableEntry<V>)
    requires Hashed(chains, all, downShift) && e !in all
    ensures var index := HashIndex(e.key, downShift, |chains| - 1);
            Hashed(chains[index := [e] + chains[index]], all + {e}, downShift)
  {
    hide HashIndex;
    var index := HashIndex(e.key, downShift, |chains| - 1);
    var chains': seq<seq<TableEntry<V>>> := chains[index := [e] + chains[index]];
    forall x | x in all + {e}
      ensures x in chains'[HashIndex(x.key, downShift, |chains| - 1)]
    {
      if x == e {
        assert chains'[index][0] == e;
      }
    }
  }

  lemma HashedAfterDelete<V>(chains: seq<seq<TableEntry<V>>>, all: set<TableEntry<V>>, downShift: nat, e: TableEntry<V>)
    returns (j: nat)
    requires Hashed(chains, all, downShift) && e in all
    ensures var index := HashIndex(e.key, downShift, |chains| - 1);
            && j < |chains[index]| && chains[index][j] == e
            && Hashed(chains[index := Without(chains[index], j)], all - {e}, downShift)
            && Within(chains[index := Without(chains[index], j)], all - {e})
  {
    hide HashIndex;
    var index := HashIndex(e.key, downShift, |chains| - 1);
    j :| 0 <= j < |chains[index]| && chains[index][j] == e;
    var chains': seq<seq<TableEntry<V>>> := chains[index := Without(chains[index], j)];
    forall x | x in all - {e}
      ensures x in chains'[HashIndex(x.key, downShift, |chains| - 1)]
    {
      if HashIndex(x.key, downShift, |chains| - 1) == index {
        var i :| 0 <= i < |chains[index]| && chains[index][i] == x;
        assert chains'[index][if i < j then i else i - 1] == x;
      }
    }
  }
}
