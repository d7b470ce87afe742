/** `dense_hashtable`: quadratic probing over an array of buckets, tombstones left by erasures,
    and rehashing into a larger or smaller array. */
module DenseHashtable {
  import opened Powers
  import opened Probing
  import opened OpenAddressing
  import opened Options

  const HT_MIN_BUCKETS := 4
  const HT_DEFAULT_STARTING_BUCKETS := 32

  /** Where a key is, or where it would be put. */
  datatype Position = Found(at: nat) | Vacant(at: nat)

  /** The smallest table size that holds `elements` with room to spare and has at least `wanted` buckets. */
  method MinBuckets(elements: nat, wanted: nat) returns (size: nat)
    ensures IsPow2(size) && size >= HT_MIN_BUCKETS
    ensures size >= wanted && elements < size / 2
    ensures size > HT_MIN_BUCKETS ==> size / 2 < wanted || elements >= size / 2 / 2
  {
    size := HT_MIN_BUCKETS;
    ghost var k: nat := 2;
    assert Pow2(0) == 1 && Pow2(1) == 2 && Pow2(2) == 4;
    while size < wanted || elements >= size / 2
      invariant size == Pow2(k) && size >= HT_MIN_BUCKETS
      invariant size > HT_MIN_BUCKETS ==> size / 2 < wanted || elements >= size / 2 / 2
      decreases wanted + 2 * elements + 2 - size
    {
      size := size * 2;
      k := k + 1;
    }
  }

  /** The empty bucket where rehashing puts a key: its probe path is followed over the occupied ones. */
  method EmptyBucket<K(==), V>(g: Keying<K>, table: array<Bucket<K, V>>, key: K) returns (bucket: nat)
    requires IsPow2(table.Length) && table.Length > 0
    requires Occupied(g, table[..]) < table.Length
    ensures bucket < table.Length && table[bucket].key == g.empty
    ensures Reachable(g, table[..], key, bucket)
  {
    hide Probe, Occupied, IsPow2;
    var h, probes: nat := g.hash(key), 0;
    bucket := h % table.Length;
    FirstProbe(h, table.Length);
    while table[bucket].key != g.empty
      invariant probes < table.Length
      invariant bucket == Probe(h, probes, table.Length)
      invariant forall j: nat :: j < probes ==> table[Probe(h, j, table.Length)].key != g.empty
      decreases table.Length - probes
    {
      probes := probes + 1;
      NextProbe(h, probes - 1, table.Length);
      ProbesEnd(g, table[..], h, probes);
      bucket := (bucket + probes) % table.Length;
    }
    assert Leads(g, table[..], key, bucket, probes);
  }

  // ---- What a run of operations means for a finite map ----

  datatype Operation<K, V> =
    | InsertOp(key: K, value: V)
    | FindOrInsertOp(key: K)
    | EraseOp(key: K)
    | FindOp(key: K)
    | SizeOp
    | ResizeOp(items: nat)
    | ClearOp
    | ClearNoResizeOp

  datatype Reply<V> = Done | Flag(yes: bool) | Value(value: V) | Hit(result: Option<V>) | Count(count: nat)

  predicate Permitted<K(==), V>(g: Keying<K>, op: Operation<K, V>) {
    (op.InsertOp? || op.FindOrInsertOp? || op.EraseOp?) ==> Ordinary(g, op.key)
  }

  function Meaning<K, V>(m: map<K, V>, op: Operation<K, V>, blank: V): (map<K, V>, Reply<V>) {
    match op
    case InsertOp(k, v) => if k in m then (m, Flag(false)) else (m[k := v], Flag(true))
    case FindOrInsertOp(k) => if k in m then (m, Value(m[k])) else (m[k := blank], Value(blank))
    case EraseOp(k) => (m - {k}, Count(if k in m then 1 else 0))
    case FindOp(k) => (m, Hit(if k in m then Some(m[k]) else None))
    case SizeOp => (m, Count(|m|))
    case ResizeOp(_) => (m, Done)
    case ClearOp => (map[], Done)
    case ClearNoResizeOp => (map[], Done)
  }

  function MeaningOfAll<K, V>(m: map<K, V>, ops: seq<Operation<K, V>>, blank: V): (map<K, V>, seq<Reply<V>>)
    decreases |ops|
  {
    if ops == [] then (m, []) else
      var (before, replies) := MeaningOfAll(m, ops[..|ops| - 1], blank);
      var (after, reply) := Meaning(before, ops[|ops| - 1], blank);
      (after, replies + [reply])
  }

  class DenseHashtable<K(==, !new), V> {
    const keys: Keying<K>
    const blank: V
    const shrinkFactor: real
    var table: array<Bucket<K, V>>
    var numElements: nat
    var numDeleted: nat
    var enlargeThreshold: nat
    var shrinkThreshold: nat
    var considerShrink: bool

    function ShrinkSize(buckets: nat): (size: nat)
      requires shrinkFactor >= 0.0
    {
      (buckets as real * shrinkFactor).Floor
    }

    ghost predicate Valid()
      reads this, table
    {
      && Sound(keys, table[..])
      && HT_MIN_BUCKETS <= table.Length
      && numElements == Occupied(keys, table[..])
      && numDeleted == Tombs(keys, table[..])
      && numElements <= enlargeThreshold
      && shrinkFactor >= 0.0
      && enlargeThreshold == table.Length / 2
      && shrinkThreshold == ShrinkSize(table.Length)
    }

    /** The finite map the table stands for. */
    ghost function Contents(): map<K, V>
      reads this, table
    {
      OpenAddressing.Contents(keys, table[..])
    }

    constructor (keys: Keying<K>, blank: V, shrinkFactor: real, expectedItems: nat)
      requires keys.empty != keys.deleted && shrinkFactor >= 0.0
      ensures Valid() && fresh(table) && Contents() == map[]
      ensures this.keys == keys && this.blank == blank
    {
      var buckets := HT_DEFAULT_STARTING_BUCKETS;
      if expectedItems == 0 {
        assert 32 == Pow2(5) by { assert Pow2(1) == 2 && Pow2(3) == 8; }
      } else {
        buckets := MinBuckets(expectedItems, 0);
      }
      this.keys, this.blank, this.shrinkFactor := keys, blank, shrinkFactor;
      table := new Bucket<K, V>[buckets](_ => Bucket(keys.empty, blank));
      numElements, numDeleted := 0, 0;
      enlargeThreshold, shrinkThreshold := buckets / 2, (buckets as real * shrinkFactor).Floor;
      considerShrink := false;
      new;
      AllEmpty(keys, table[..]);
    }

    method ResetThresholds()
      requires shrinkFactor >= 0.0
      modifies this`enlargeThreshold, this`shrinkThreshold, this`considerShrink
      ensures enlargeThreshold == table.Length / 2 && shrinkThreshold == ShrinkSize(table.Length)
      ensures !considerShrink
    {
      enlargeThreshold := table.Length / 2;
      shrinkThreshold := ShrinkSize(table.Length);
      considerShrink := false;
    }

    method Size() returns (n: nat)
      requires Valid()
      ensures n == |Contents()|
    {
      ContentsSize(keys, table[..]);
      n := numElements - numDeleted;
    }

    /** Whether a bucket is a tombstone; the count of tombstones is looked at first. */
    method TestDeleted(bucket: nat) returns (deleted: bool)
      requires Valid() && bucket < table.Length
      ensures deleted <==> table[bucket].key == keys.deleted
    {
      hide Sound;
      if table[bucket].key == keys.deleted {
        TombCounted(keys, table[..], bucket);
      }
      deleted := numDeleted > 0 && table[bucket].key == keys.deleted;
    }

    method FindPosition(key: K) returns (pos: Position)
      requires Valid()
      ensures pos.at < table.Length
      ensures pos.Found? <==> key in Contents()
      ensures pos.Found? ==> table[pos.at].key == key && Contents()[key] == table[pos.at].value
      ensures pos.Vacant? ==> FirstFree(keys, table[..], key, pos.at)
    {
      hide Probe, Occupied, Tombs, Sound, IsPow2, DistinctKeys, OpenAddressing.Contents;
      SoundTable(keys, table[..]);
      var h, probes: nat := keys.hash(key), 0;
      var bucket := h % table.Length;
      FirstProbe(h, table.Length);
      var insertPos: Option<nat> := None;
      ghost var jumps: nat := 0;
      while true
        invariant probes < table.Length
        invariant bucket == Probe(h, probes, table.Length)
        invariant forall j: nat :: j < probes ==> table[Probe(h, j, table.Length)].key != keys.empty
        invariant forall j: nat ::
                    j < probes && Ordinary(keys, table[Probe(h, j, table.Length)].key) ==>
                      table[Probe(h, j, table.Length)].key != key
        invariant insertPos.None? ==> AllOrdinary(keys, table[..], key, probes)
        invariant insertPos.Some? ==> FirstFree(keys, table[..], key, insertPos.value)
        decreases table.Length - probes
      {
        if table[bucket].key == keys.empty {
          AbsentAtEmpty(keys, table[..], key, probes);
          if insertPos.None? {
            assert Leads(keys, table[..], key, bucket, probes);
            return Vacant(bucket);
          }
          return Vacant(insertPos.value);
        }
        var deleted := TestDeleted(bucket);
        if deleted {
          if insertPos.None? {
            assert Leads(keys, table[..], key, bucket, probes);
            insertPos := Some(bucket);
          }
        } else if key == table[bucket].key {
          ContentsAt(keys, table[..], bucket);
          return Found(bucket);
        }
        probes := probes + 1;
        NextProbe(h, probes - 1, table.Length);
        bucket := (bucket + probes) % table.Length;
        ProbesEnd(keys, table[..], h, probes);
      }
    }

    /** The bucket of a key; an empty table answers without probing. */
    method Find(key: K) returns (bucket: Option<nat>)
      requires Valid()
      ensures bucket.Some? <==> key in Contents()
      ensures bucket.Some? ==>
        && bucket.value < table.Length
        && table[bucket.value].key == key
        && table[bucket.value].value == Contents()[key]
    {
      var size := Size();
      if size == 0 {
        return None;
      }
      var pos := FindPosition(key);
      bucket := if pos.Found? then Some(pos.at) else None;
    }

    method InsertAt(bucket: nat, key: K, value: V)
      requires Valid() && Ordinary(keys, key) && key !in Contents()
      requires FirstFree(keys, table[..], key, bucket) && numElements < enlargeThreshold
      modifies this`numElements, this`numDeleted, table
      ensures Valid() && Contents() == old(Contents())[key := value]
      ensures table[bucket] == Bucket(key, value)
    {
      assert keys.empty != keys.deleted;
      hide Sound, IsPow2, OpenAddressing.Contents, Occupied, Tombs, Leads, AllOrdinary;
      FreeIsReachable(keys, table[..], key, bucket);
      Fill(keys, table[..], bucket, key, value);
      var deleted := TestDeleted(bucket);
      if deleted {
        TombCounted(keys, table[..], bucket);
        numDeleted := numDeleted - 1;
      } else {
        numElements := numElements + 1;
      }
      ghost var before := table[..];
      table[bucket] := Bucket(key, value);
      assert table[..] == before[bucket := Bucket(key, value)];
    }

    /** Inserts where there is room; a key that is present keeps its value. */
    method InsertNoResize(key: K, value: V) returns (bucket: nat, inserted: bool)
      requires Valid() && Ordinary(keys, key) && numElements < enlargeThreshold
      modifies this`numElements, this`numDeleted, table
      ensures Valid()
      ensures inserted <==> key !in old(Contents())
      ensures Contents() == if inserted then old(Contents())[key := value] else old(Contents())
      ensures bucket < table.Length && table[bucket] == Bucket(key, Contents()[key])
    {
      var pos := FindPosition(key);
      bucket := pos.at;
      if pos.Found? {
        return bucket, false;
      }
      InsertAt(bucket, key, value);
      inserted := true;
    }

    /** Moves the live buckets into a fresh table with at least `wanted` buckets and takes that over. */
    method Rebuild(wanted: nat)
      requires Valid()
      modifies this
      ensures Valid() && fresh(table) && Contents() == old(Contents())
      ensures numDeleted == 0 && table.Length >= wanted && !considerShrink
      ensures numElements == |Contents()|
    {
      var size := Size();
      var buckets := MinBuckets(size, wanted);
      var moved := Rehash(table, buckets);
      table := moved;
      numElements, numDeleted := size, 0;
      ContentsSize(keys, table[..]);
      ResetThresholds();
    }

    /** Copies the live buckets of one array into a fresh one. */
    method Rehash(source: array<Bucket<K, V>>, buckets: nat) returns (moved: array<Bucket<K, V>>)
      requires Sound(keys, source[..]) && IsPow2(buckets)
      requires |OpenAddressing.Contents(keys, source[..])| < buckets
      ensures fresh(moved) && moved.Length == buckets && Sound(keys, moved[..])
      ensures OpenAddressing.Contents(keys, moved[..]) == OpenAddressing.Contents(keys, source[..])
      ensures Tombs(keys, moved[..]) == 0
    {
      hide IsPow2, Reachable, Contents;
      moved := new Bucket<K, V>[buckets](_ => Bucket(keys.empty, blank));
      AllEmpty(keys, moved[..]);
      for i := 0 to source.Length
        invariant Sound(keys, moved[..]) && Tombs(keys, moved[..]) == 0
        invariant OpenAddressing.Contents(keys, moved[..]) == OpenAddressing.Contents(keys, source[..i])
      {
        PrefixContents(keys, source[..], i);
        assert source[..][..i] == source[..i] && source[..][..i + 1] == source[..i + 1];
        var b := source[i];
        if Ordinary(keys, b.key) {
          ContentsSize(keys, moved[..]);
          var bucket := EmptyBucket(keys, moved, b.key);
          Fill(keys, moved[..], bucket, b.key, b.value);
          ghost var before := moved[..];
          moved[bucket] := b;
          assert moved[..] == before[bucket := b];
        }
      }
      assert source[..source.Length] == source[..];
    }

    /** Half the table, halved again as long as the keys left stay below the shrink factor. */
    method ShrinkTarget(remaining: nat) returns (size: nat)
      requires table.Length > HT_DEFAULT_STARTING_BUCKETS && shrinkFactor >= 0.0
      ensures size <= table.Length / 2
      ensures size <= HT_DEFAULT_STARTING_BUCKETS || !BelowFactor(remaining, size)
    {
      size := table.Length / 2;
      while size > HT_DEFAULT_STARTING_BUCKETS && BelowFactor(remaining, size)
        invariant size <= table.Length / 2
      {
        size := size / 2;
      }
    }

    predicate BelowFactor(remaining: nat, buckets: nat) {
      remaining as real < buckets as real * shrinkFactor
    }

    method MaybeShrink() returns (shrunk: bool)
      requires Valid()
      modifies this
      ensures Valid() && Contents() == old(Contents()) && !considerShrink
      ensures if shrunk then fresh(table) else table == old(table) && numElements == old(numElements)
      ensures shrunk ==> numDeleted == 0
      ensures shrunk <==>
              old(0 < shrinkThreshold && |Contents()| < shrinkThreshold && table.Length > HT_DEFAULT_STARTING_BUCKETS)
    {
      var remaining := Size();
      shrunk := false;
      if shrinkThreshold > 0 && remaining < shrinkThreshold && table.Length > HT_DEFAULT_STARTING_BUCKETS {
        var size := ShrinkTarget(remaining);
        Rebuild(size);
        shrunk := true;
      }
      considerShrink := false;
    }

    /** How many buckets a table gets that has no room for `delta` more keys: enough for the live ones,
        or twice as many if most of the tombstones, counted as keys, would need that and the larger
        table would not be shrunk again. */
    method GrowthTarget(delta: nat) returns (target: nat)
      requires Valid()
      ensures numDeleted <= numElements && numElements - numDeleted + delta < target / 2
    {
      ContentsSize(keys, table[..]);
      hide Sound, Occupied, Tombs;
      target := MinBuckets(numElements - numDeleted + delta, table.Length);
      var needed := MinBuckets(numElements - numDeleted / 4 + delta, 0);
      if target < needed && numElements - numDeleted + delta >= ShrinkSize(target * 2) {
        target := target * 2;
      }
    }

    /** Makes room for `delta` more keys; says whether the table was rebuilt. */
    method ResizeDelta(delta: nat) returns (resized: bool)
      requires Valid()
      modifies this
      ensures Valid() && Contents() == old(Contents())
      ensures numElements + delta <= enlargeThreshold
      ensures if resized then fresh(table) else table == old(table) && numElements == old(numElements)
    {
      resized := false;
      if considerShrink {
        resized := MaybeShrink();
      }
      if table.Length >= HT_MIN_BUCKETS && numElements + delta <= enlargeThreshold {
        return;
      }
      var needed := MinBuckets(numElements + delta, 0);
      if needed <= table.Length {
        // The threshold that was just passed is half of the table: this branch is dead.
        assert false;
      }
      ContentsSize(keys, table[..]);
      var target := GrowthTarget(delta);
      Rebuild(target);
      resized := true;
    }

    method Resize(required: nat)
      requires Valid()
      modifies this
      ensures Valid() && Contents() == old(Contents()) && (table == old(table) || fresh(table))
      ensures required <= enlargeThreshold + old(numDeleted)
    {
      if considerShrink || required == 0 {
        var _ := MaybeShrink();
      }
      if required > numElements {
        ContentsSize(keys, table[..]);
        var _ := ResizeDelta(required - numElements);
        ContentsSize(keys, table[..]);
      }
    }

    method Insert(key: K, value: V) returns (bucket: nat, inserted: bool)
      requires Valid() && Ordinary(keys, key)
      modifies this, table
      ensures Valid() && (table == old(table) || fresh(table))
      ensures inserted <==> key !in old(Contents())
      ensures Contents() == if inserted then old(Contents())[key := value] else old(Contents())
      ensures bucket < table.Length && table[bucket] == Bucket(key, Contents()[key])
    {
      var _ := ResizeDelta(1);
      bucket, inserted := InsertNoResize(key, value);
    }

    /** The bucket of a key, which is inserted with the blank value if it was absent. */
    method FindOrInsert(key: K) returns (bucket: nat)
      requires Valid() && Ordinary(keys, key)
      modifies this, table
      ensures Valid() && (table == old(table) || fresh(table))
      ensures Contents() == if key in old(Contents()) then old(Contents()) else old(Contents())[key := blank]
      ensures bucket < table.Length && table[bucket] == Bucket(key, Contents()[key])
    {
      var pos := FindPosition(key);
      if pos.Found? {
        return pos.at;
      }
      var resized := ResizeDelta(1);
      if resized {
        bucket, resized := InsertNoResize(key, blank);
      } else {
        bucket := pos.at;
        InsertAt(bucket, key, blank);
      }
    }

    /** Removes a key, leaving a tombstone; says how many keys went. */
    method Erase(key: K) returns (erased: nat)
      requires Valid() && Ordinary(keys, key)
      modifies this`numDeleted, this`considerShrink, table
      ensures Valid() && Contents() == old(Contents()) - {key}
      ensures erased == if key in old(Contents()) then 1 else 0
      ensures considerShrink <==> old(considerShrink) || key in old(Contents())
    {
      hide Sound, IsPow2, OpenAddressing.Contents, Occupied, Tombs;
      var found := Find(key);
      if found.None? {
        return 0;
      }
      var bucket := found.value;
      ghost var before := table[..];
      Bury(keys, before, bucket, before[bucket].value);
      table[bucket] := Bucket(keys.deleted, table[bucket].value);
      assert table[..] == before[bucket := Bucket(keys.deleted, before[bucket].value)];
      numDeleted := numDeleted + 1;
      considerShrink := true;
      erased := 1;
    }

    method Clear()
      requires Valid()
      modifies this
      ensures Valid() && Contents() == map[] && (table == old(table) || fresh(table))
    {
      var buckets := MinBuckets(0, 0);
      if numElements == 0 && buckets == table.Length {
        NoneOccupied(keys, table[..]);
        AllEmpty(keys, table[..]);
        return;
      }
      table := new Bucket<K, V>[buckets](_ => Bucket(keys.empty, blank));
      AllEmpty(keys, table[..]);
      numElements, numDeleted := 0, 0;
      ResetThresholds();
    }

    method ClearNoResize()
      requires Valid()
      modifies this, table
      ensures Valid() && Contents() == map[] && table == old(table)
    {
      if numElements > 0 {
        for i := 0 to table.Length
          invariant table == old(table)
          invariant forall p: nat :: p < i ==> table[p].key == keys.empty
        {
          table[i] := Bucket(keys.empty, blank);
        }
      } else {
        NoneOccupied(keys, table[..]);
      }
      AllEmpty(keys, table[..]);
      ResetThresholds();
      numElements, numDeleted := 0, 0;
    }

    /** Walks the buckets in order, skipping the empty ones and the tombstones. */
    method Iterate() returns (items: seq<(K, V)>)
      requires Valid()
      ensures Lists(items, Contents())
    {
      hide Sound, Lists;
      items := [];
      for i := 0 to table.Length
        invariant items == Items(keys, table[..i])
      {
        assert table[..i + 1][..i] == table[..i];
        var deleted := TestDeleted(i);
        if table[i].key != keys.empty && !deleted {
          items := items + [(table[i].key, table[i].value)];
        }
      }
      assert table[..table.Length] == table[..];
      SoundTable(keys, table[..]);
      ItemsList(keys, table[..]);
    }

    method Perform(op: Operation<K, V>) returns (reply: Reply<V>)
      requires Valid() && Permitted(keys, op)
      modifies this, table
      ensures Valid() && (table == old(table) || fresh(table))
      ensures (Contents(), reply) == Meaning(old(Contents()), op, blank)
    {
      hide Sound, OpenAddressing.Contents, Occupied, Tombs;
      match op
      case InsertOp(key, value) =>
        var _, inserted := Insert(key, value);
        reply := Flag(inserted);
      case FindOrInsertOp(key) =>
        var bucket := FindOrInsert(key);
        reply := Value(table[bucket].value);
      case EraseOp(key) =>
        var erased := Erase(key);
        reply := Count(erased);
      case FindOp(key) =>
        var found := Find(key);
        reply := Hit(if found.Some? then Some(table[found.value].value) else None);
      case SizeOp =>
        var size := Size();
        reply := Count(size);
      case ResizeOp(items) =>
        Resize(items);
        reply := Done;
      case ClearOp =>
        Clear();
        reply := Done;
      case ClearNoResizeOp =>
        ClearNoResize();
        reply := Done;
    }

    /** Any sequence of operations, with whatever rehashing happens on the way, answers as a finite
        map would and ends with its contents. */
    method PerformAll(ops: seq<Operation<K, V>>) returns (replies: seq<Reply<V>>)
      requires Valid() && forall op :: op in ops ==> Permitted(keys, op)
      modifies this, table
      ensures Valid()
      ensures (Contents(), replies) == MeaningOfAll(old(Contents()), ops, blank)
    {
      hide Contents, Valid;
      replies := [];
      for i := 0 to |ops|
        invariant Valid() && (table == old(table) || fresh(table))
        invariant (Contents(), replies) == MeaningOfAll(old(Contents()), ops[..i], blank)
      {
        assert ops[..i + 1][..i] == ops[..i];
        var reply := Perform(ops[i]);
        replies := replies + [reply];
      }
      assert ops[..|ops|] == ops;
    }
  }
}
