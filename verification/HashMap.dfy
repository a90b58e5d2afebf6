/**
 The emhash8 hash map: open chains inside one bucket array, collisions resolved
 by kicking out buckets that are away from home, erasure by moving the last
 pair into the hole.  `T()` is the table value of module HashIndex that the
 arrays currently spell out.
 */
module EmHash {
  import Bits
  import opened HashIndex
  import opened ChainGraph
  import opened Wrappers
  import Arith

  const MLF: int := 5 * 0x200_0000

  /** Buckets wanted for `n` pairs: `n * _mlf >> 27`. */
  function Required(n: int): int {
    n * MLF / 0x800_0000
  }

  /** Pairs allocated for `nb` buckets: `(nb * 0.8f) + 4`, 0.8f being 13421773 / 2^24. */
  function Capacity(nb: int): int {
    nb * 13421773 / 0x100_0000 + 4
  }

  // ----- Sizes

  lemma NextPowerFits(k: nat)
    requires Bits.Pow2(k) < MAX_SIZE
    ensures Bits.Pow2(k + 1) <= MAX_SIZE
  {
    Bits.SmallPowers();
    if k >= 31 {
      Bits.Pow2Monotone(31, k);
    }
    Bits.Pow2Monotone(k + 1, 31);
  }

  /** The load test, five quarters of the pairs, leaves an empty bucket and an unused pair. */
  lemma RoomForOne(n: int, nb: int)
    requires 0 <= n && Required(n) < nb - 1
    ensures n + 1 < nb && n < Capacity(nb) && Required(n) == 5 * n / 4
  {
  }

  lemma CapacityMonotone(a: int, b: int)
    requires a <= b
    ensures Capacity(a) <= Capacity(b)
  {
  }

  /** The least doubling of `nb` that reaches `required`. */
  function Doubled(nb: int, required: int): int
    requires nb > 0
    decreases required - nb
  {
    if nb >= required then nb else Doubled(2 * nb, required)
  }

  /** The number of buckets rehash settles on. */
  function BucketCount(required: int, filled: int): int {
    Doubled(if filled > 0x1_0000 then 0x1_0000 else 4, required)
  }

  lemma {:induction false} DoubledReaches(nb: int, required: int)
    requires nb > 0
    ensures nb <= Doubled(nb, required) && required <= Doubled(nb, required)
    decreases required - nb
  {
    if nb < required { DoubledReaches(2 * nb, required); }
  }

  /** A table of `filled` pairs can be rehashed to `required` buckets. */
  predicate RoomFor(required: int, filled: int) {
    filled <= required ==> filled <= Capacity(BucketCount(required, filled))
  }

  lemma {:induction false} DoubledPower(i: nat, k: nat)
    requires i <= k
    ensures Doubled(Bits.Pow2(i), Bits.Pow2(k)) == Bits.Pow2(k)
    decreases k - i
  {
    Bits.Pow2Monotone(i, k);
    if i < k {
      Bits.Pow2Monotone(i + 1, k);
      DoubledPower(i + 1, k);
    }
  }

  /** Asking for as many buckets as there are pairs, a power of two from 4 on: room only below 32. */
  lemma FullRequest(k: nat)
    requires k >= 2
    ensures RoomFor(Bits.Pow2(k), Bits.Pow2(k)) <==> Bits.Pow2(k) < 32
  {
    hide Doubled;
    Bits.SmallPowers();
    if k > 16 { Bits.Pow2Monotone(17, k); DoubledPower(16, k); } else { Bits.Pow2Monotone(k, 16); DoubledPower(2, k); }
    if k < 5 { Bits.Pow2Monotone(k, 4); } else { Bits.Pow2Monotone(5, k); }
    assert Bits.Pow2(4) == 16 && Bits.Pow2(5) == 32 && Bits.Pow2(17) == 0x2_0000;
  }

  // ----- Reading links off a table

  lemma FollowLink<K, V>(t: Table<K, V>, b: int)
    requires t.Linked() && t.Occ(b)
    ensures var n := t.index[b].next;
            && t.Occ(n) && t.MainAt(n) == t.MainAt(b)
            && b in t.links.rank && n in t.links.rank && t.links.rank[n] < t.tick
            && (n == b || t.links.rank[b] < t.links.rank[n])
  {
    var n := t.index[b].next;
    assert t.Mirrored(b) && t.links.Step(b) && t.Mirrored(n);
  }

  /** Following the link of `b` does not overshoot a later bucket `c` of its chain. */
  lemma TowardsLater<K, V>(t: Table<K, V>, b: int, c: int)
    requires t.Linked() && t.links.After(b, c)
    ensures t.Occ(b) && t.Occ(c)
    ensures var n := t.index[b].next;
            n != b && t.Occ(n) && n in t.links.rank && t.links.rank[b] < t.links.rank[n] < t.tick && (n == c || t.links.After(n, c))
  {
    var n := t.index[b].next;
    assert t.Mirrored(b) && t.Mirrored(c) && t.links.Step(b) && t.Mirrored(n);
    assert n != c ==> !t.links.SameTime(n, c);
  }

  lemma HeadOf<K, V>(t: Table<K, V>, b: int)
    requires t.Linked() && t.Occ(b)
    ensures var m := t.MainAt(b);
            && t.Occ(m) && t.MainAt(m) == m && m in t.links.next && t.links.main[m] == m
            && (m == b || t.links.After(m, b))
  {
    assert t.Mirrored(b) && t.links.Head(b) && t.Mirrored(t.MainAt(b));
  }

  // ----- Searching a chain for a key

  /** If `k` is in the table at all, it lies beyond `b` on the chain of `b`. */
  ghost predicate Ahead<K, V>(t: Table<K, V>, b: int, k: K)
    requires t.Linked()
  {
    forall c {:trigger t.KeyAt(c)} :: t.Occ(c) && t.KeyAt(c) == k ==> t.links.After(b, c)
  }

  ghost predicate Nowhere<K, V>(t: Table<K, V>, k: K)
    requires t.WF()
  {
    forall c {:trigger t.KeyAt(c)} :: t.Occ(c) ==> t.KeyAt(c) != k
  }

  lemma LookAtMain<K, V>(t: Table<K, V>, k: K)
    requires t.Linked()
    ensures var m := t.Main(k);
            && 0 <= m < t.nb
            && if t.Occ(m) then m in t.links.rank && (t.KeyAt(m) == k || Ahead(t, m, k)) else Nowhere(t, k)
  {
    var m := t.Main(k);
    assert t.Mirrored(m);
    forall c | t.Occ(c) && t.KeyAt(c) == k ensures t.Occ(m) && (c == m || t.links.After(m, c)) {
      HeadOf(t, c);
    }
  }

  /** A main bucket held by another chain's key means no key hashes to it. */
  lemma LookInForeign<K, V>(t: Table<K, V>, k: K)
    requires t.Linked() && t.Occ(t.Main(k)) && t.MainAt(t.Main(k)) != t.Main(k)
    ensures Nowhere(t, k)
  {
    forall c | t.Occ(c) ensures t.KeyAt(c) != k {
      HeadOf(t, c);
    }
  }

  lemma LookAhead<K, V>(t: Table<K, V>, b: int, k: K)
    requires t.Linked() && t.Occ(b) && Ahead(t, b, k)
    ensures var n := t.index[b].next;
            && t.Occ(n) && b in t.links.rank && n in t.links.rank && t.links.rank[n] < t.tick
            && if n == b then Nowhere(t, k)
               else t.links.rank[b] < t.links.rank[n] && (t.KeyAt(n) == k || Ahead(t, n, k))
  {
    FollowLink(t, b);
    var n := t.index[b].next;
    forall c | t.Occ(c) && t.KeyAt(c) == k ensures n != b && (n == c || t.links.After(n, c)) {
      TowardsLater(t, b, c);
    }
  }

  /** A key in no bucket is in no slot; a key in a bucket is in its slot. */
  lemma LookupEnds<K, V>(t: Table<K, V>, k: K)
    requires t.Inv()
    ensures k !in ToMap(t.pairs[..|t.home|]) <==> Nowhere(t, k)
    ensures forall c {:trigger t.KeyAt(c)} :: t.Occ(c) && t.KeyAt(c) == k ==> k in ToMap(t.pairs[..|t.home|])
  {
    var cells := t.pairs[..|t.home|];
    forall c | t.Occ(c) && t.KeyAt(c) == k ensures k in ToMap(cells) {
      ToMapHas(cells, t.Slot(c));
    }
    if k in ToMap(cells) {
      var s := ToMapSlot(cells, k);
      assert t.Occ(t.home[s]) && t.KeyAt(t.home[s]) == k;
    }
  }

  /** The doubling loop of rehash: the least power of two that holds `required`. */
  method BucketsFor(required: int, filled: int) returns (nb: int, ghost k: nat)
    requires required < MAX_SIZE
    ensures nb == Bits.Pow2(k) && required <= nb && 4 <= nb <= MAX_SIZE && nb % 2 == 0
    ensures nb == BucketCount(required, filled) && (nb == 4 || nb == 0x1_0000 || nb / 2 < required)
  {
    nb := if filled > 0x1_0000 then 0x1_0000 else 4;
    k := if filled > 0x1_0000 then 16 else 2;
    Bits.SmallPowers();
    while nb < required
      invariant nb == Bits.Pow2(k) && 4 <= nb <= MAX_SIZE && nb % 2 == 0
      invariant Doubled(nb, required) == BucketCount(required, filled)
      invariant nb == 4 || nb == 0x1_0000 || nb / 2 < required
    {
      NextPowerFits(k);
      nb := nb * 2;
      k := k + 1;
    }
  }

  lemma KeyNotStored<K, V>(cells: seq<Cell<K, V>>, k: K)
    requires Listed(cells) && k !in ToMap(cells)
    ensures forall s :: 0 <= s < |cells| ==> cells[s].key != k
  {
  }

  lemma CellsListed<K, V>(t: Table<K, V>)
    requires t.Inv()
    ensures |t.home| <= |t.pairs| && Listed(t.pairs[..|t.home|])
  {
  }

  lemma NoPairsNoBuckets<K, V>(t: Table<K, V>)
    requires t.Inv()
    ensures |t.home| <= |t.pairs| && t.nb <= |t.index|
    ensures t.home == [] ==> forall b :: 0 <= b < t.nb ==> Empty(t.index[b])
  {
    if t.home == [] {
      forall b | 0 <= b < t.nb ensures Empty(t.index[b]) {
        assert !t.Occ(b);
      }
    }
  }

  lemma HomeOccupied<K, V>(t: Table<K, V>, dead: int, s: int)
    requires t.Semi(dead) && 0 <= s < |t.home|
    ensures t.Shape() && (s != dead ==> t.Occ(t.home[s]))
  {
  }

  lemma EntryHolds<K, V>(t: Table<K, V>, b: int, k: K)
    requires t.Inv() && t.Occ(b) && t.KeyAt(b) == k
    ensures t.Shape() && Holds(t.pairs[..|t.home|], t.Slot(b), k)
  {
  }

  /** The table once its stale bucket `e` is marked empty. */
  ghost function Cleared<K, V>(t: Table<K, V>, e: int): Table<K, V>
    requires 0 <= e < |t.index|
  {
    t.(index := t.index[e := Index(INACTIVE, 0)])
  }

  /** Overwriting a value leaves the index as it is. */
  lemma SetValKeeps<K, V>(t: Table<K, V>, s: int, v: V)
    requires t.Inv() && 0 <= s < |t.home|
    ensures |t.home| <= |t.pairs| && t.pairs[s].Pair?
    ensures t.(pairs := t.pairs[s := Pair(t.pairs[s].key, v)]).Inv()
  {
    var t1 := t.(pairs := t.pairs[s := Pair(t.pairs[s].key, v)]);
    ListedUpdate(t.pairs[..|t.home|], s, v);
    assert t1.pairs[..|t.home|] == t.pairs[..|t.home|][s := Pair(t.pairs[s].key, v)];
    forall c | t1.Occ(c) ensures t.Occ(c) && t1.Slot(c) == t.Slot(c) && t1.Entry(c) {
      assert t.Occ(c);
      assert t.Entry(c);
    }
    forall c ensures t1.Mirrored(c) {
      assert t.Mirrored(c);
    }
  }

  class HashMap<K(==), V> {
    const hasher: K -> nat
    var index: array<Index>
    var pairs: array<Cell<K, V>>
    var mask: int
    var numBuckets: int
    var numFilled: int
    var last: int
    var etail: int
    ghost var home: seq<int>
    ghost var links: Graph
    ghost var tick: int
    ghost var log: nat

    ghost function T(): Table<K, V>
      reads this`index, this`pairs, this`numBuckets, this`home, this`links, this`tick, index, pairs
    {
      Table(hasher, numBuckets, index[..], pairs[..], home, links, tick)
    }

    /** The bucket array: a power of two buckets and two occupied sentinels. */
    ghost predicate Framed()
      reads this`index, this`numBuckets, this`mask, this`log, index
    {
      && 4 <= numBuckets <= MAX_SIZE && numBuckets % 2 == 0
      && mask == numBuckets - 1 && numBuckets == Bits.Pow2(log)
      && index.Length == numBuckets + 2 && !Empty(index[numBuckets]) && !Empty(index[numBuckets + 1])
    }

    /** Sizes and cursors, independent of what the buckets hold. */
    ghost predicate Sized()
      reads this, index, pairs
    {
      && Framed() && 0 <= last <= numBuckets
      && pairs.Length == Capacity(numBuckets) && index as object != pairs as object
    }

    ghost predicate Valid()
      reads this, index, pairs
    {
      && Sized() && T().Inv() && |home| == numFilled
      && (etail == INACTIVE || (numFilled > 0 && etail == home[numFilled - 1]))
    }

    /** The dense listing of the entries. */
    ghost function Cells(): seq<Cell<K, V>>
      requires Valid()
      reads this, index, pairs
    {
      pairs[..numFilled]
    }

    ghost function Contents(): map<K, V>
      requires Valid()
      reads this, index, pairs
    {
      ToMap(Cells())
    }

    /** `w & _mask`. */
    function Masked(w: nat): (r: int)
      requires Framed()
      reads this`index, this`numBuckets, this`mask, this`log, index
      ensures r == w % numBuckets
    {
      Bits.AndMask(w, log);
      Bits.And(w, mask)
    }

    // ----- Probing

    method FindEmptyBucket(from: int, csize: int, ghost e: int) returns (bucket: int)
      requires Framed() && 0 <= last <= numBuckets && 0 <= from < numBuckets && csize >= 0
      requires 0 <= e < numBuckets && Empty(index[e])
      modifies this`last
      ensures 0 <= last <= numBuckets && 0 <= bucket < numBuckets && Empty(index[bucket])
    {
      bucket := from + 1;
      if Empty(index[bucket]) { return; }
      bucket := bucket + 1;
      if Empty(index[bucket]) { return; }
      var offset, step := 1 + csize, 3;
      while step < 6
        invariant offset >= 0
      {
        bucket := Masked(from + offset);
        if Empty(index[bucket]) { return; }
        bucket := bucket + 1;
        if Empty(index[bucket]) { return; }
        offset := offset + step;
        step := step + 1;
      }
      bucket := ProbeFromLast(e);
    }

    /** The half of the search that walks `_last` and its half-table partner. */
    method ProbeFromLast(ghost e: int) returns (bucket: int)
      requires Framed() && 0 <= last <= numBuckets
      requires 0 <= e < numBuckets && Empty(index[e])
      modifies this`last
      ensures 0 <= last <= numBuckets && 0 <= bucket < numBuckets && Empty(index[bucket])
    {
      // the bucket at which the probe is bound to meet `e`
      ghost var goal := if e == 0 then numBuckets / 2 else e;
      while true
        invariant 0 <= last <= numBuckets
        decreases if last == numBuckets then goal - 1 else if last < goal then goal - 1 - last else numBuckets + goal - 1 - last
      {
        ghost var before := last;
        Arith.Wraps(last, numBuckets);
        last := Masked(last);
        last := last + 1;
        if Empty(index[last]) { return last; }
        var medium := Masked(numBuckets / 2 + last);
        Arith.Wraps(numBuckets / 2 + last, numBuckets);
        if Empty(index[medium]) { return medium; }
      }
    }

    // ----- Walking a chain

    method FindLastBucket(start: int) returns (bucket: int)
      requires T().Linked() && T().Occ(start)
      ensures T().Occ(bucket) && T().MainAt(bucket) == T().MainAt(start) && index[bucket].next == bucket
    {
      ghost var t := T();
      FollowLink(t, start);
      var next := index[start].next;
      if next == start { return start; }
      while true
        invariant t.Occ(next) && t.MainAt(next) == t.MainAt(start) && next in links.rank
        decreases tick - links.rank[next]
      {
        FollowLink(t, next);
        var n := index[next].next;
        if n == next { return next; }
        next := n;
      }
    }

    method FindPrevBucket(main: int, bucket: int) returns (prev: int)
      requires T().Linked() && T().Occ(bucket) && T().MainAt(bucket) == main != bucket
      ensures T().Occ(prev) && prev != bucket && index[prev].next == bucket
    {
      ghost var t := T();
      HeadOf(t, bucket);
      TowardsLater(t, main, bucket);
      var next := index[main].next;
      if next == bucket { return main; }
      while true
        invariant links.After(next, bucket) && t.Occ(next)
        decreases tick - links.rank[next]
      {
        TowardsLater(t, next, bucket);
        var n := index[next].next;
        if n == bucket { return next; }
        next := n;
      }
    }

    // ----- Looking up a key

    /** EMH_EQHASH: the bucket's hash bits agree with `hash`. */
    predicate EqHash(b: int, hash: nat)
      requires numBuckets > 0 && 0 <= b < index.Length
      reads this`index, this`numBuckets, index
    {
      High(index[b].slot, numBuckets) == HashHigh(hash, numBuckets)
    }

    method FindFilledBucket(key: K, hash: nat) returns (bucket: int)
      requires Framed() && T().Inv() && hash == hasher(key)
      ensures if bucket == INACTIVE then Nowhere(T(), key) else T().Occ(bucket) && T().KeyAt(bucket) == key
    {
      ghost var t := T();
      bucket := Masked(hash);
      LookAtMain(t, key);
      var next := index[bucket].next;
      if Empty(index[bucket]) { return INACTIVE; }
      assert t.Entry(bucket);
      var slot := Low(index[bucket].slot, numBuckets);
      if EqHash(bucket, hash) && pairs[slot].key == key { return bucket; }
      LookAhead(t, bucket, key);
      if next == bucket { return INACTIVE; }
      while true
        invariant t.Occ(next) && next in links.rank && (t.KeyAt(next) == key || Ahead(t, next, key))
        decreases tick - links.rank[next]
      {
        assert t.Entry(next);
        if EqHash(next, hash) {
          var eslot := Low(index[next].slot, numBuckets);
          if pairs[eslot].key == key { return next; }
        }
        LookAhead(t, next, key);
        var n := index[next].next;
        if n == next { return INACTIVE; }
        next := n;
      }
    }

    method FindFilledSlot(key: K) returns (slot: int)
      requires Valid()
      ensures key in Contents() ==> 0 <= slot < numFilled && Cells()[slot] == Pair(key, Contents()[key])
      ensures key !in Contents() ==> slot == numFilled
    {
      ghost var t := T();
      var hash := hasher(key);
      var bucket := Masked(hash);
      LookAtMain(t, key);
      LookupEnds(t, key);
      var next := index[bucket].next;
      if Empty(index[bucket]) { return numFilled; }
      assert t.Entry(bucket);
      slot := Low(index[bucket].slot, numBuckets);
      if EqHash(bucket, hash) && pairs[slot].key == key {
        ToMapHas(Cells(), slot);
        return;
      }
      LookAhead(t, bucket, key);
      if next == bucket { return numFilled; }
      while true
        invariant t.Occ(next) && next in links.rank && (t.KeyAt(next) == key || Ahead(t, next, key))
        decreases tick - links.rank[next]
      {
        assert t.Entry(next);
        if EqHash(next, hash) {
          slot := Low(index[next].slot, numBuckets);
          if pairs[slot].key == key {
            ToMapHas(Cells(), slot);
            return;
          }
        }
        LookAhead(t, next, key);
        var n := index[next].next;
        if n == next { return numFilled; }
        next := n;
      }
    }

    // ----- Allocating a bucket

    ghost predicate Settled()
      reads this`index, this`pairs, this`numBuckets, this`home, this`links, this`tick, this`mask, this`log, this`last, index, pairs
    {
      Framed() && 0 <= last <= numBuckets && T().Inv()
    }

    method KickoutBucket(kmain: int, bucket: int) returns (freed: int)
      requires Settled() && |home| < numBuckets
      requires T().Occ(bucket) && T().MainAt(bucket) == kmain != bucket
      modifies this`last, this`home, this`links, index
      ensures Settled() && freed == bucket && !T().Occ(bucket) && |home| == old(|home|)
    {
      ghost var t := T();
      ghost var e := SomeEmpty(t);
      FollowLink(t, bucket);
      var next := index[bucket].next;
      var newBucket := FindEmptyBucket(next, 2, e);
      var prev := FindPrevBucket(kmain, bucket);
      Relocate(prev, bucket, newBucket);
      return bucket;
    }

    /** Rewrite the links so that the entry of `bucket` lives at `newBucket`. */
    method Relocate(prev: int, bucket: int, newBucket: int)
      requires Framed() && T().Inv() && T().Occ(bucket) && T().Occ(prev)
      requires 0 <= newBucket < numBuckets && !T().Occ(newBucket)
      requires prev != bucket && index[prev].next == bucket && T().MainAt(bucket) != bucket
      modifies this`home, this`links, index
      ensures Framed() && T().Inv() && !T().Occ(bucket) && |home| == old(|home|)
    {
      hide Graph.Good, Table.Homes, Listed;
      ghost var t := T();
      KickKeeps(t, prev, bucket, newBucket);
      var next := index[bucket].next;
      var tail := if next == bucket then newBucket else next;
      index[newBucket] := Index(tail, index[bucket].slot);
      index[prev] := Index(newBucket, index[prev].slot);
      index[bucket] := Index(INACTIVE, index[bucket].slot);
      home := home[t.Slot(bucket) := newBucket];
      links := Move(links, prev, bucket, newBucket);
      assert T() == Kick(t, prev, bucket, newBucket);
    }

    /** `_index[tail].next = find_empty_bucket(tail, csize)`. */
    method AppendBucket(tail: int, csize: int) returns (bucket: int)
      requires Settled() && |home| < numBuckets && csize >= 0
      requires T().Occ(tail) && index[tail].next == tail
      modifies this`last, index
      ensures Framed() && 0 <= last <= numBuckets
      ensures Allocated(T(), old(T().MainAt(tail)), bucket, tail)
    {
      ghost var t := T();
      ghost var e := SomeEmpty(t);
      bucket := FindEmptyBucket(tail, csize, e);
      index[tail] := Index(bucket, index[tail].slot);
      assert SetNext(T(), tail, tail) == t;
    }

    method FindUniqueBucket(hash: nat) returns (bucket: int, ghost p: int)
      requires Settled() && |home| < numBuckets
      modifies this`last, this`home, this`links, index
      ensures Framed() && 0 <= last <= numBuckets && |home| == old(|home|)
      ensures Allocated(T(), hash % numBuckets, bucket, p)
    {
      hide Graph.Good, Table.Homes, Listed;
      ghost var t := T();
      bucket, p := Masked(hash), -1;
      var next := index[bucket].next;
      if Empty(index[bucket]) { return; }
      assert t.Occ(bucket);
      var kmain := Masked(hasher(pairs[Low(index[bucket].slot, numBuckets)].key));
      if kmain != bucket {
        bucket := KickoutBucket(kmain, bucket);
        return;
      }
      FollowLink(t, bucket);
      if next != bucket {
        next := FindLastBucket(next);
      }
      bucket := AppendBucket(next, 2);
      p := next;
    }

    /** Walk the rest of a chain for `key`, counting buckets, up to its tail. */
    method FindInChain(key: K, hash: nat, start: int) returns (found: bool, bucket: int, csize: int)
      requires Framed() && T().Linked() && hash == hasher(key) && T().Occ(start)
      requires T().KeyAt(start) == key || Ahead(T(), start, key)
      ensures T().Occ(bucket) && T().MainAt(bucket) == T().MainAt(start) && csize >= 1
      ensures if found then T().KeyAt(bucket) == key else Nowhere(T(), key) && index[bucket].next == bucket
    {
      ghost var t := T();
      bucket, csize := start, 1;
      FollowLink(t, start);
      while true
        invariant t.Occ(bucket) && bucket in links.rank && (t.KeyAt(bucket) == key || Ahead(t, bucket, key))
        invariant t.MainAt(bucket) == t.MainAt(start) && csize >= 1
        decreases tick - links.rank[bucket]
      {
        assert t.Entry(bucket);
        var eslot := Low(index[bucket].slot, numBuckets);
        if EqHash(bucket, hash) && pairs[eslot].key == key { return true, bucket, csize; }
        csize := csize + 1;
        LookAhead(t, bucket, key);
        FollowLink(t, bucket);
        var next := index[bucket].next;
        if next == bucket { return false, bucket, csize; }
        bucket := next;
      }
    }

    method FindOrAllocate(key: K, hash: nat) returns (bucket: int, ghost p: int)
      requires Settled() && |home| < numBuckets && hash == hasher(key)
      modifies this`last, this`home, this`links, index
      ensures Framed() && 0 <= last <= numBuckets && |home| == old(|home|)
      ensures 0 <= bucket < numBuckets
      ensures if Empty(index[bucket])
              then Nowhere(old(T()), key) && Allocated(T(), hash % numBuckets, bucket, p)
              else T() == old(T()) && T().Occ(bucket) && T().KeyAt(bucket) == key
    {
      hide Graph.Good, Table.Homes, Listed;
      ghost var t := T();
      bucket, p := Masked(hash), -1;
      LookAtMain(t, key);
      var next := index[bucket].next;
      if Empty(index[bucket]) { return; }
      assert t.Entry(bucket);
      var slot := Low(index[bucket].slot, numBuckets);
      if EqHash(bucket, hash) && pairs[slot].key == key { return; }
      var kmain := Masked(hasher(pairs[slot].key));
      if kmain != bucket {
        LookInForeign(t, key);
        bucket := KickoutBucket(kmain, bucket);
        return;
      }
      LookAhead(t, bucket, key);
      FollowLink(t, bucket);
      if next == bucket {
        bucket := AppendBucket(next, 1);
        p := next;
        return;
      }
      var found, csize;
      found, next, csize := FindInChain(key, hash, next);
      if found { return next, -1; }
      bucket := AppendBucket(next, csize);
      p := next;
    }

    // ----- Growing

    /** rebuild: fresh arrays with every bucket empty and the pairs carried over. */
    method Rebuild(nb: int)
      requires 4 <= nb <= MAX_SIZE && nb % 2 == 0 && 0 <= numFilled <= pairs.Length && numFilled <= Capacity(nb)
      modifies this`index, this`pairs
      ensures fresh(index) && fresh(pairs) && index.Length == nb + 2 && pairs.Length == Capacity(nb)
      ensures pairs[..numFilled] == old(pairs[..numFilled])
      ensures forall b :: 0 <= b < nb ==> Empty(index[b])
      ensures !Empty(index[nb]) && !Empty(index[nb + 1])
    {
      var newPairs := new Cell<K, V>[Capacity(nb)](_ => Raw);
      var slot := 0;
      while slot < numFilled
        invariant 0 <= slot <= numFilled
        invariant newPairs[..slot] == pairs[..slot]
        modifies newPairs
      {
        newPairs[slot] := pairs[slot];
        slot := slot + 1;
      }
      pairs := newPairs;
      index := new Index[nb + 2](b => if b < nb then Index(INACTIVE, INACTIVE) else Index(0, 0));
    }

    /**
     Nothing happens when fewer buckets than pairs are asked for.  Not `ok`: the pairs do
     not fit the new pair array, and the copy would run past its end.
     */
    method Rehash(required: int) returns (ok: bool)
      requires 0 <= numFilled <= pairs.Length && Listed(pairs[..numFilled]) && required < MAX_SIZE
      modifies this
      ensures ok <==> RoomFor(required, old(numFilled))
      ensures !ok || required < old(numFilled) ==> unchanged(this)
      ensures ok && old(numFilled) <= required ==>
        && Valid() && fresh(index) && fresh(pairs) && Cells() == old(pairs[..numFilled])
        && numBuckets == BucketCount(required, numFilled) && etail == INACTIVE && numFilled == old(numFilled)
    {
      hide Table.Inv, Listed, Capacity, Required, BucketCount;
      if required < numFilled { return true; }
      var nb; ghost var k;
      nb, k := BucketsFor(required, numFilled);
      if Capacity(nb) < numFilled { return false; }
      StartEmpty(nb, k);
      FillIndex();
      return true;
    }

    /** An empty index of `nb` buckets over the pairs carried along. */
    method StartEmpty(nb: int, ghost k: nat)
      requires nb == Bits.Pow2(k) && 4 <= nb <= MAX_SIZE && nb % 2 == 0
      requires 0 <= numFilled <= pairs.Length && numFilled <= Capacity(nb)
      modifies this
      ensures fresh(index) && fresh(pairs) && Sized() && T().Inv() && home == []
      ensures numBuckets == nb && etail == INACTIVE && numFilled == old(numFilled)
      ensures numFilled <= pairs.Length && pairs[..numFilled] == old(pairs[..numFilled])
    {
      hide Table.Inv;
      last, mask, numBuckets, log := 0, nb - 1, nb, k;
      Rebuild(nb);
      etail := INACTIVE;
      home, links, tick := [], Graph(map[], map[], map[]), 0;
      EmptyTable(T());
    }

    /** Link every pair into the empty index, slot by slot. */
    method FillIndex()
      requires Settled() && home == [] && 0 <= numFilled <= numBuckets && numFilled <= pairs.Length
      requires Listed(pairs[..numFilled])
      modifies this`last, this`home, this`links, this`tick, index
      ensures Settled() && |home| == numFilled
    {
      var slot := 0;
      while slot < numFilled
        invariant Settled() && |home| == slot <= numFilled
      {
        assert forall s :: 0 <= s <= slot ==> pairs[..numFilled][s] == pairs[s];
        LinkSlot(slot);
        slot := slot + 1;
      }
    }

    method LinkSlot(slot: int)
      requires Settled() && |home| == slot < numBuckets && slot < pairs.Length && pairs[slot].Pair?
      requires forall s :: 0 <= s < slot && pairs[s].Pair? ==> pairs[s].key != pairs[slot].key
      modifies this`last, this`home, this`links, this`tick, index
      ensures Settled() && |home| == slot + 1
    {
      hide Table.Inv, Low, High, Pack, HashHigh, Listed, Capacity;
      var key := pairs[slot].key;
      ghost var val := pairs[slot].val;
      var hash := hasher(key);
      var bucket; ghost var p;
      bucket, p := FindUniqueBucket(hash);
      ghost var t := T();
      PlaceAllocated(t, bucket, p, key, val);
      index[bucket] := Index(bucket, Pack(slot, HashHigh(hash, numBuckets), numBuckets));
      links := NewLinks(t, bucket, p);
      home := home + [bucket];
      tick := tick + 1;
      assert T() == Place(t, bucket, key, val, links);
    }

    lemma EntriesCounted()
      requires Valid()
      ensures |Contents()| == numFilled
    {
      CellsListed(T());
      ToMapSize(Cells());
    }

    ghost predicate CanHold(numElems: int)
      reads this`mask
    {
      Required(numElems) < mask || Required(numElems) + 2 < MAX_SIZE
    }

    lemma PairsFit()
      requires Valid()
      ensures numFilled <= pairs.Length == Capacity(numBuckets) && Listed(pairs[..numFilled])
    {
    }

    /** reserve(num_elems, force): afterwards `numElems + 1` pairs fit. */
    method Reserve(numElems: int) returns (grown: bool)
      requires Valid() && CanHold(numElems)
      modifies this
      ensures Valid() && numFilled == old(numFilled) && Cells() == old(Cells()) && Required(numElems) < mask
      ensures if grown then fresh(index) && fresh(pairs) else index == old(index) && pairs == old(pairs)
      ensures grown <==> old(mask) <= Required(numElems)
      ensures numBuckets == if grown then BucketCount(Required(numElems) + 2, numFilled) else old(numBuckets)
    {
      hide Table.Inv, Listed, Capacity, Required, Doubled;
      var required := Required(numElems);
      if required < mask { return false; }
      HomesFit(T());
      PairsFit();
      DoubledReaches(if numFilled > 0x1_0000 then 0x1_0000 else 4, required + 2);
      CapacityMonotone(numBuckets, BucketCount(required + 2, numFilled));
      var ok := Rehash(required + 2);
      return ok;
    }

    method CheckExpandNeed()
      requires Valid() && CanHold(numFilled)
      modifies this
      ensures Valid() && numFilled == old(numFilled) && Cells() == old(Cells())
      ensures numFilled < numBuckets && numFilled < pairs.Length
      ensures (fresh(index) && fresh(pairs)) || (index == old(index) && pairs == old(pairs))
    {
      hide Table.Inv, Listed, Required, Capacity;
      var grown := Reserve(numFilled);
      RoomForOne(numFilled, numBuckets);
    }

    // ----- Inserting

    /** EMH_NEW: construct the pair after the last one and occupy `bucket`. */
    method New(key: K, val: V, bucket: int, hash: nat, ghost p: int)
      requires Sized() && |home| == numFilled && numFilled < numBuckets && numFilled < pairs.Length
      requires hash == hasher(key) && Allocated(T(), hash % numBuckets, bucket, p)
      requires forall s :: 0 <= s < numFilled && pairs[s].Pair? ==> pairs[s].key != key
      modifies this`numFilled, this`etail, this`home, this`links, this`tick, index, pairs
      ensures Valid() && numFilled == old(numFilled) + 1 && etail == bucket == home[numFilled - 1]
      ensures 0 <= bucket < numBuckets && Low(index[bucket].slot, numBuckets) == numFilled - 1
      ensures Cells() == old(pairs[..numFilled]) + [Pair(key, val)]
    {
      hide Table.Inv;
      ghost var t := T();
      PlaceAllocated(t, bucket, p, key, val);
      PackParts(numFilled, HashHigh(hash, numBuckets), numBuckets);
      pairs[numFilled] := Pair(key, val);
      etail := bucket;
      index[bucket] := Index(bucket, Pack(numFilled, HashHigh(hash, numBuckets), numBuckets));
      numFilled := numFilled + 1;
      links := NewLinks(t, bucket, p);
      home := home + [bucket];
      tick := tick + 1;
      assert T() == Place(t, bucket, key, val, links);
    }

    method InsertUnique(key: K, val: V) returns (bucket: int)
      requires Valid() && CanHold(numFilled) && key !in Contents()
      modifies this, index, pairs
      ensures Valid() && ((fresh(index) && fresh(pairs)) || (index == old(index) && pairs == old(pairs)))
      ensures Cells() == old(Cells()) + [Pair(key, val)] && numFilled == old(numFilled) + 1
      ensures Contents() == old(Contents())[key := val] && bucket == home[numFilled - 1]
    {
      hide Graph.Good, Table.Homes, Listed, ToMap, Required, Capacity;
      CheckExpandNeed();
      ghost var cells := Cells();
      KeyNotStored(cells, key);
      var hash := hasher(key);
      ghost var p;
      bucket, p := FindUniqueBucket(hash);
      New(key, val, bucket, hash, p);
      ListedAppend(cells, key, val);
    }

    /** do_insert: an existing entry wins; room has been made by the caller. */
    method DoInsert(key: K, val: V) returns (slot: int, inserted: bool)
      requires Valid() && numFilled < numBuckets && numFilled < pairs.Length
      modifies this`last, this`numFilled, this`etail, this`home, this`links, this`tick, index, pairs
      ensures Valid() && inserted == (key !in old(Contents())) && numFilled <= old(numFilled) + 1
      ensures Cells() == if inserted then old(Cells()) + [Pair(key, val)] else old(Cells())
      ensures Contents() == if inserted then old(Contents())[key := val] else old(Contents())
      ensures Holds(Cells(), slot, key) && (inserted ==> slot == old(numFilled))
    {
      hide Table.Inv, Table.KeyAt, Listed, ToMap, Allocated, Nowhere, Capacity;
      ghost var t, cells := T(), Cells();
      LookupEnds(t, key);
      CellsListed(t);
      var hash := hasher(key);
      var bucket; ghost var p;
      bucket, p := FindOrAllocate(key, hash);
      inserted := Empty(index[bucket]);
      if inserted {
        KeyNotStored(cells, key);
        New(key, val, bucket, hash, p);
        ListedAppend(cells, key, val);
      } else {
        EntryHolds(t, bucket, key);
      }
      slot := Low(index[bucket].slot, numBuckets);
    }

    method Insert(key: K, val: V) returns (slot: int, inserted: bool)
      requires Valid() && CanHold(numFilled)
      modifies this, index, pairs
      ensures Valid() && ((fresh(index) && fresh(pairs)) || (index == old(index) && pairs == old(pairs)))
      ensures inserted == (key !in old(Contents())) && Holds(Cells(), slot, key) && numFilled <= old(numFilled) + 1
      ensures Cells() == if inserted then old(Cells()) + [Pair(key, val)] else old(Cells())
      ensures Contents() == if inserted then old(Contents())[key := val] else old(Contents())
    {
      hide Table.Inv, Listed, ToMap, Required, Capacity;
      CheckExpandNeed();
      slot, inserted := DoInsert(key, val);
    }

    /** do_assign (insert_or_assign): the new value wins. */
    method Assign(key: K, val: V) returns (slot: int, inserted: bool)
      requires Valid() && CanHold(numFilled)
      modifies this, index, pairs
      ensures Valid() && ((fresh(index) && fresh(pairs)) || (index == old(index) && pairs == old(pairs)))
      ensures inserted == (key !in old(Contents())) && 0 <= slot < numFilled <= old(numFilled) + 1
      ensures inserted ==> Cells() == old(Cells()) + [Pair(key, val)]
      ensures !inserted ==> slot < old(numFilled) && Cells() == old(Cells())[slot := Pair(key, val)]
      ensures Cells()[slot] == Pair(key, val) && Contents() == old(Contents())[key := val]
    {
      hide Table.Inv, Listed, ToMap, Required, Capacity;
      CheckExpandNeed();
      ghost var cells := Cells();
      slot, inserted := DoInsert(key, val);
      if !inserted {
        ghost var t := T();
        CellsListed(t);
        SetValKeeps(t, slot, val);
        ListedUpdate(cells, slot, val);
        pairs[slot] := Pair(key, val);
        assert T() == t.(pairs := t.pairs[slot := Pair(t.pairs[slot].key, val)]);
      }
    }

    // ----- Erasing

    /** The bucket of a slot, while bucket links may be stale outside table `t`. */
    method FindSlotBucket(slot: int, ghost t: Table<K, V>, ghost dead: int) returns (bucket: int, main: int)
      requires t.Semi(dead) && 0 <= slot < |t.home| && slot != dead
      requires t.pairs == pairs[..] && t.hash == hasher && t.nb == numBuckets && Framed()
      requires forall c :: t.Occ(c) ==> index[c] == t.index[c]
      ensures bucket == t.home[slot] && t.Occ(bucket) && main == t.MainAt(bucket)
    {
      ghost var goal := t.home[slot];
      assert t.Occ(goal) && t.Slot(goal) == slot;
      HeadOf(t, goal);
      main := Masked(hasher(pairs[slot].key));
      bucket := main;
      if slot == Low(index[bucket].slot, numBuckets) {
        assert t.home[t.Slot(bucket)] == bucket;
        return;
      }
      TowardsLater(t, bucket, goal);
      bucket := index[bucket].next;
      while true
        invariant t.Occ(bucket) && bucket in t.links.rank && (bucket == goal || t.links.After(bucket, goal))
        decreases t.tick - t.links.rank[bucket]
      {
        if slot == Low(index[bucket].slot, numBuckets) {
          assert t.home[t.Slot(bucket)] == bucket;
          return;
        }
        TowardsLater(t, bucket, goal);
        bucket := index[bucket].next;
      }
    }

    /** Unlink a bucket; the returned bucket still holds its stale contents. */
    method EraseBucket(bucket: int, main: int) returns (ebucket: int)
      requires Framed() && T().Inv() && T().Occ(bucket) && T().MainAt(bucket) == main
      modifies this`home, this`links, index
      ensures Framed() && 0 <= ebucket < numBuckets && |home| == old(|home|)
      ensures Cleared(T(), ebucket).Semi(old(T().Slot(bucket)))
      ensures forall s :: 0 <= s < |home| && s != old(T().Slot(bucket)) && old(home[s]) != ebucket ==> home[s] == old(home[s])
    {
      hide Graph.Good, Listed;
      ghost var t := T();
      var next := index[bucket].next;
      if bucket == main {
        ebucket := EraseMain(main);
        return;
      }
      FollowLink(t, bucket);
      var prev := FindPrevBucket(main, bucket);
      UnlinkAtKeeps(t, prev, bucket);
      index[prev] := Index(if bucket == next then prev else next, index[prev].slot);
      links := Unlink(links, prev, bucket);
      assert Cleared(T(), bucket) == UnlinkAt(t, prev, bucket);
      return bucket;
    }

    /** The erased bucket heads its chain: the next entry, if any, is pulled into it. */
    method EraseMain(main: int) returns (ebucket: int)
      requires Framed() && T().Inv() && T().Occ(main) && T().MainAt(main) == main
      modifies this`home, this`links, index
      ensures Framed() && 0 <= ebucket < numBuckets && |home| == old(|home|)
      ensures Cleared(T(), ebucket).Semi(old(T().Slot(main)))
      ensures forall s :: 0 <= s < |home| && old(home[s]) != ebucket ==> home[s] == old(home[s])
    {
      hide Graph.Good, Listed;
      ghost var t := T();
      FollowLink(t, main);
      var next := index[main].next;
      if main != next {
        PullUpKeeps(t, main);
        var nbucket := index[next].next;
        index[main] := Index(if nbucket == next then main else nbucket, index[next].slot);
        home := home[t.Slot(next) := main];
        links := Unlink(links, main, next);
        assert Cleared(T(), next) == PullUp(t, main, next);
      } else {
        DropAtKeeps(t, main);
        links := Drop(links, main);
        assert Cleared(T(), main) == DropAt(t, main);
      }
      return next;
    }

    /** Remove the entry of a bucket; the last pair takes its slot. */
    method EraseSlot(sbucket: int, main: int)
      requires Valid() && T().Occ(sbucket) && T().MainAt(sbucket) == main
      modifies this`numFilled, this`etail, this`home, this`links, index, pairs
      ensures Valid() && etail == INACTIVE && numFilled == old(numFilled) - 1
      ensures Cells() == Removed(old(Cells()), old(T().Slot(sbucket)))
    {
      hide Table.Homes, Table.Main, Low, High, Graph.Good, Listed, Capacity;
      var slot := Low(index[sbucket].slot, numBuckets);
      var ebucket := EraseBucket(sbucket, main);
      numFilled := numFilled - 1;
      var lastBucket := INACTIVE;
      if slot != numFilled {
        lastBucket := LastSlotBucket(slot, ebucket);
      }
      Compact(slot, lastBucket, ebucket);
    }

    /** The bucket of the last slot: the remembered one, or else searched for. */
    method LastSlotBucket(slot: int, ebucket: int) returns (bucket: int)
      requires Framed() && 0 <= ebucket < numBuckets && 0 <= slot < numFilled && |home| == numFilled + 1
      requires Cleared(T(), ebucket).Semi(slot)
      requires etail == INACTIVE || etail == ebucket || etail == home[numFilled]
      ensures bucket == home[numFilled]
    {
      hide Graph.Good, Listed;
      if etail == INACTIVE || ebucket == etail {
        var m;
        bucket, m := FindSlotBucket(numFilled, Cleared(T(), ebucket), slot);
      } else {
        bucket := etail;
      }
    }

    /** Move the last pair into the dead slot and clear the stale bucket. */
    method Compact(slot: int, lastBucket: int, ebucket: int)
      requires Sized() && 0 <= ebucket < numBuckets && 0 <= slot <= numFilled && |home| == numFilled + 1
      requires Cleared(T(), ebucket).Semi(slot)
      requires slot != numFilled ==> lastBucket == home[numFilled]
      modifies this`etail, this`home, index, pairs
      ensures Valid() && etail == INACTIVE
      ensures old(|home| <= pairs.Length) && Cells() == Removed(old(pairs[..|home|]), slot)
    {
      hide Table.Semi, Table.Inv, Capacity;
      ghost var t := Cleared(T(), ebucket);
      var lastSlot := numFilled;
      FillSlotKeeps(t, slot);
      HomeOccupied(t, slot, lastSlot);
      if slot != lastSlot {
        pairs[slot] := pairs[lastSlot];
        index[lastBucket] := Index(index[lastBucket].next, Pack(slot, High(index[lastBucket].slot, numBuckets), numBuckets));
      }
      pairs[lastSlot] := Raw;
      etail := INACTIVE;
      index[ebucket] := Index(INACTIVE, 0);
      home := FillSlot(t, slot).home;
      assert T() == FillSlot(t, slot);
    }

    /** erase(key): the number of entries removed. */
    method Erase(key: K) returns (erased: int)
      requires Valid()
      modifies this`numFilled, this`etail, this`home, this`links, index, pairs
      ensures Valid() && erased == (if key in old(Contents()) then 1 else 0)
      ensures Contents() == old(Contents()) - {key} && numFilled == old(numFilled) - erased
      ensures erased == 0 ==> Cells() == old(Cells())
      ensures erased == 1 ==> exists s {:trigger Removed(old(Cells()), s)} ::
        Holds(old(Cells()), s, key) && Cells() == Removed(old(Cells()), s)
    {
      hide Table.Inv, Listed, ToMap, Capacity;
      ghost var t, cells := T(), Cells();
      CellsListed(t);
      LookupEnds(t, key);
      var hash := hasher(key);
      var sbucket := FindFilledBucket(key, hash);
      if sbucket == INACTIVE { return 0; }
      EntryHolds(t, sbucket, key);
      EraseSlot(sbucket, Masked(hash));
      ListedRemove(cells, t.Slot(sbucket));
      return 1;
    }

    /** erase(iterator): remove the entry at a position of the dense listing. */
    method EraseAt(slot: int)
      requires Valid() && 0 <= slot < numFilled
      modifies this`numFilled, this`etail, this`home, this`links, index, pairs
      ensures Valid() && Cells() == Removed(old(Cells()), slot)
      ensures Contents() == old(Contents()) - {old(Cells())[slot].key}
    {
      hide Graph.Good, Listed, ToMap, Capacity;
      ghost var cells := Cells();
      var sbucket, main := FindSlotBucket(slot, T(), -1);
      EraseSlot(sbucket, main);
      ListedRemove(cells, slot);
    }

    /** clear(), for pairs that need no destructor (`trivial`) or do. */
    method Clear(trivial: bool)
      requires Valid()
      modifies this, index, pairs
      ensures Valid() && index == old(index) && pairs == old(pairs)
      ensures numFilled == 0 && Contents() == map[] && mask == old(mask)
    {
      hide Table.Inv, Listed, Capacity;
      NoPairsNoBuckets(T());
      if !trivial {
        // the loop ends with _num_filled wrapped around to 2^32 - 1
        DestroyPairs();
        numFilled := WORD - 1;
      }
      if numFilled > 0 {
        EmptyBuckets();
      }
      ForgetPairs();
    }

    method ForgetPairs()
      requires Framed() && forall b :: 0 <= b < numBuckets ==> Empty(index[b])
      requires pairs.Length == Capacity(numBuckets) && index as object != pairs as object
      modifies this`last, this`numFilled, this`etail, this`home, this`links
      ensures Valid() && numFilled == 0 && Contents() == map[]
    {
      hide Table.Inv, Capacity;
      last, numFilled := 0, 0;
      etail := INACTIVE;
      home, links := [], Graph(map[], map[], map[]);
      EmptyTable(T());
    }

    method DestroyPairs()
      requires Valid()
      modifies pairs
      ensures forall s :: 0 <= s < numFilled ==> pairs[s] == Raw
    {
      hide Table.Inv;
      var n := numFilled;
      assert n <= pairs.Length by { CellsListed(T()); }
      while n > 0
        invariant 0 <= n <= numFilled <= pairs.Length
        invariant forall s :: n <= s < numFilled ==> pairs[s] == Raw
      {
        n := n - 1;
        pairs[n] := Raw;
      }
    }

    method EmptyBuckets()
      requires Framed()
      modifies index
      ensures Framed() && forall b :: 0 <= b < numBuckets ==> Empty(index[b])
    {
      var b := 0;
      while b < numBuckets
        invariant 0 <= b <= numBuckets && Framed()
        invariant forall c :: 0 <= c < b ==> Empty(index[c])
      {
        index[b] := Index(INACTIVE, INACTIVE);
        b := b + 1;
      }
    }

    method TryGet(key: K) returns (val: Option<V>)
      requires Valid()
      ensures val == if key in Contents() then Some(Contents()[key]) else None
    {
      hide Table.Inv, Listed, ToMap, Capacity;
      CellsListed(T());
      var slot := FindFilledSlot(key);
      return if slot == numFilled then None else Some(pairs[slot].val);
    }

    constructor (hash: K -> nat, bucket: int)
      requires 0 <= bucket < MAX_SIZE
      ensures Valid() && fresh(index) && fresh(pairs) && hasher == hash
      ensures numFilled == 0 && Contents() == map[] && numBuckets >= bucket
    {
      hasher := hash;
      index := new Index[0];
      pairs := new Cell<K, V>[0];
      mask, numBuckets, numFilled := 0, 0, 0;
      new;
      DoubledReaches(4, bucket);
      var _ := Rehash(bucket);
    }
  }

  // ----- Whole runs

  datatype Op<K, V> =
    | OpInsert(key: K, val: V)
    | OpInsertUnique(key: K, val: V)
    | OpAssign(key: K, val: V)
    | OpErase(key: K)
    | OpClear
    | OpGet(key: K)

  /** What a finite map does on an operation, and what it answers. */
  ghost function Effect<K, V>(m: map<K, V>, op: Op<K, V>): map<K, V> {
    match op
    case OpInsert(k, v) => if k in m then m else m[k := v]
    case OpInsertUnique(k, v) => m[k := v]
    case OpAssign(k, v) => m[k := v]
    case OpErase(k) => m - {k}
    case OpClear => map[]
    case OpGet(_) => m
  }

  datatype Reply<V> = Done | Inserted(added: bool) | Erased(count: int) | Found(val: Option<V>)

  ghost function Answer<K, V>(m: map<K, V>, op: Op<K, V>): Reply<V> {
    match op
    case OpInsert(k, _) => Inserted(k !in m)
    case OpAssign(k, _) => Inserted(k !in m)
    case OpErase(k) => Erased(if k in m then 1 else 0)
    case OpGet(k) => Found(if k in m then Some(m[k]) else None)
    case _ => Done
  }

  ghost function Final<K, V>(ops: seq<Op<K, V>>): map<K, V> {
    if ops == [] then map[] else Effect(Final(ops[..|ops| - 1]), ops[|ops| - 1])
  }

  ghost function Answers<K, V>(ops: seq<Op<K, V>>): seq<Reply<V>> {
    if ops == [] then []
    else var before := ops[..|ops| - 1];
         Answers(before) + [Answer(Final(before), ops[|ops| - 1])]
  }

  /** insert_unique is only asked for absent keys. */
  ghost predicate Lawful<K, V>(ops: seq<Op<K, V>>) {
    forall i :: 0 <= i < |ops| && ops[i].OpInsertUnique? ==> ops[i].key !in Final(ops[..i])
  }

  predicate MayGrow<K, V>(op: Op<K, V>) {
    op.OpInsert? || op.OpInsertUnique? || op.OpAssign?
  }

  /** Before each insertion the entries then stored leave room in an index of 32-bit words. */
  ghost predicate Roomy<K, V>(ops: seq<Op<K, V>>) {
    forall i {:trigger ops[i]} :: 0 <= i < |ops| && MayGrow(ops[i]) ==> Required(|Final(ops[..i])|) + 2 < MAX_SIZE
  }

  /** Any run of operations is answered as a finite map would answer it. */
  method Run<K(==), V>(hash: K -> nat, ops: seq<Op<K, V>>) returns (answers: seq<Reply<V>>)
    requires Lawful(ops) && Roomy(ops)
    ensures answers == Answers(ops)
  {
    hide Table.Inv, Listed, ToMap, Capacity, Required;
    var table := new HashMap<K, V>(hash, 2);
    answers := [];
    var i := 0;
    while i < |ops|
      invariant 0 <= i <= |ops| && table.Valid() && fresh(table) && fresh(table.index) && fresh(table.pairs)
      invariant table.Contents() == Final(ops[..i]) && answers == Answers(ops[..i])
    {
      assert ops[..i + 1][..i] == ops[..i];
      table.EntriesCounted();
      var answer := Step(table, ops[i]);
      answers := answers + [answer];
      i := i + 1;
    }
    assert ops[..i] == ops;
  }

  method Step<K(==), V>(table: HashMap<K, V>, op: Op<K, V>) returns (answer: Reply<V>)
    requires table.Valid() && (MayGrow(op) ==> table.CanHold(table.numFilled))
    requires op.OpInsertUnique? ==> op.key !in table.Contents()
    modifies table, table.index, table.pairs
    ensures table.Valid()
    ensures (fresh(table.index) && fresh(table.pairs)) || (table.index == old(table.index) && table.pairs == old(table.pairs))
    ensures table.Contents() == Effect(old(table.Contents()), op)
    ensures answer == Answer(old(table.Contents()), op)
  {
    hide Table.Inv, Listed, ToMap, Capacity, Required;
    answer := Done;
    match op
    case OpInsert(k, v) => var _, added := table.Insert(k, v); answer := Inserted(added);
    case OpInsertUnique(k, v) => var _ := table.InsertUnique(k, v);
    case OpAssign(k, v) => var _, added := table.Assign(k, v); answer := Inserted(added);
    case OpErase(k) => var n := table.Erase(k); answer := Erased(n);
    case OpClear => table.Clear(false);
    case OpGet(k) => var v := table.TryGet(k); answer := Found(v);
  }
}
