/**
 The index of the emhash8 hash map as a value: a dense array of key/value
 pairs and an array of buckets linked into chains.  A bucket's `slot` word
 packs the position of its pair (low bits) with the high bits of the key's
 hash.  Two ghost columns explain the links: `links` is the chain graph the
 buckets spell out, and `home[s]` is the bucket of slot `s`.
 */
module HashIndex {
  import Bits
  import Finite
  import opened ChainGraph

  const INACTIVE: int := 0xFFFF_FFFF
  const MAX_SIZE: int := 0x8000_0000
  const WORD: int := 0x1_0000_0000

  datatype Index = Index(next: int, slot: int)

  /** Storage for one pair; `Raw` is memory holding no constructed pair. */
  datatype Cell<K, V> = Raw | Pair(key: K, val: V)

  /** A bucket is empty when its `next`, read as a signed word, is negative. */
  predicate Empty(ix: Index) {
    ix.next >= MAX_SIZE
  }

  /** `w & mask` and `w & ~mask` (shifted down) for a table of `nb` buckets. */
  function Low(w: int, nb: int): int
    requires nb > 0
  {
    w % nb
  }

  function High(w: int, nb: int): int
    requires nb > 0
  {
    w / nb
  }

  /** `slot | high bits`. */
  function Pack(slot: int, high: int, nb: int): int {
    slot + high * nb
  }

  function HashHigh(hash: nat, nb: int): int
    requires nb > 0
  {
    hash % WORD / nb
  }

  lemma PackParts(slot: int, high: int, nb: int)
    requires 0 <= slot < nb
    ensures Low(Pack(slot, high, nb), nb) == slot
    ensures High(Pack(slot, high, nb), nb) == high
  {
    Bits.DivModUnique(slot + high * nb, nb, high, slot);
  }

  datatype Table<!K, V> = Table(
    hash: K -> nat, nb: int, index: seq<Index>, pairs: seq<Cell<K, V>>,
    home: seq<int>, links: Graph, tick: int)
  {
    ghost predicate Shape() {
      && 4 <= nb <= MAX_SIZE && nb % 2 == 0
      && |index| == nb + 2 && !Empty(index[nb]) && !Empty(index[nb + 1])
      && |home| <= |pairs| && links.Shape()
    }

    ghost predicate Occ(b: int)
      requires Shape()
    {
      0 <= b < nb && !Empty(index[b])
    }

    ghost function Slot(b: int): int
      requires Shape() && 0 <= b < nb
    {
      Low(index[b].slot, nb)
    }

    ghost function Main(k: K): int
      requires Shape()
    {
      hash(k) % nb
    }

    /** Bucket `b` refers to a constructed pair and carries its hash bits. */
    ghost predicate Entry(b: int)
      requires Shape() && Occ(b)
    {
      && 0 <= Slot(b) < |home| && pairs[Slot(b)].Pair?
      && High(index[b].slot, nb) == HashHigh(hash(pairs[Slot(b)].key), nb)
    }

    ghost predicate WF() {
      && Shape()
      && (forall s :: 0 <= s < |home| ==> pairs[s].Pair?)
      && (forall b {:trigger Occ(b)} :: Occ(b) ==> Entry(b))
    }

    ghost function KeyAt(b: int): K
      requires WF() && Occ(b)
    {
      pairs[Slot(b)].key
    }

    ghost function MainAt(b: int): int
      requires WF() && Occ(b)
    {
      Main(KeyAt(b))
    }

    /** The graph records the link and the main bucket of `b`. */
    ghost predicate Mirrored(b: int)
      requires WF()
    {
      if Occ(b) then b in links.next && links.next[b] == index[b].next && links.main[b] == MainAt(b)
      else b !in links.next
    }

    ghost predicate Linked() {
      WF() && (forall b {:trigger Mirrored(b)} :: Mirrored(b)) && links.Good(tick)
    }

    /** Slots and occupied buckets correspond one to one, slot `dead` excepted. */
    ghost predicate Homes(dead: int)
      requires WF()
    {
      && (forall s {:trigger home[s]} :: 0 <= s < |home| && s != dead ==> Occ(home[s]) && Slot(home[s]) == s)
      && (forall b {:trigger Slot(b)} :: Occ(b) ==> Slot(b) != dead && home[Slot(b)] == b)
    }

    /** The table invariant while slot `dead` has lost its bucket. */
    ghost predicate Semi(dead: int) {
      Linked() && Homes(dead) && Listed(pairs[..|home|])
    }

    ghost predicate Inv() {
      Semi(-1)
    }
  }

  // ----- The finite map a table stands for

  ghost predicate Listed<K, V>(cells: seq<Cell<K, V>>) {
    && (forall s :: 0 <= s < |cells| ==> cells[s].Pair?)
    && (forall s, u :: 0 <= s < u < |cells| ==> cells[s].key != cells[u].key)
  }

  ghost function ToMap<K, V>(cells: seq<Cell<K, V>>): map<K, V>
    requires Listed(cells)
  {
    if cells == [] then map[]
    else var c := cells[|cells| - 1]; ToMap(cells[..|cells| - 1])[c.key := c.val]
  }

  // ----- Steps of the table operations

  /** A table without entries. */
  lemma EmptyTable<K, V>(t: Table<K, V>)
    requires t.Shape() && t.home == [] && t.links.next == map[]
    requires forall b :: 0 <= b < t.nb ==> Empty(t.index[b])
    ensures t.Inv()
  {
    assert t.links.main.Keys == t.links.next.Keys == {};
  }

  /** EMH_NEW: construct the pair in the next slot and occupy bucket `b`. */
  ghost function Place<K, V>(t: Table<K, V>, b: int, k: K, v: V, links: Graph): Table<K, V>
    requires t.Shape() && 0 <= b < t.nb && |t.home| < |t.pairs|
  {
    t.(index := t.index[b := Index(b, Pack(|t.home|, HashHigh(t.hash(k), t.nb), t.nb))],
       pairs := t.pairs[|t.home| := Pair(k, v)],
       home := t.home + [b],
       links := links,
       tick := t.tick + 1)
  }

  ghost function SetNext<K, V>(t: Table<K, V>, p: int, b: int): Table<K, V>
    requires t.Shape() && 0 <= p < t.nb
  {
    t.(index := t.index[p := Index(b, t.index[p].slot)])
  }

  /** kickout_bucket: bucket `b`, reached from `p`, moves to the empty bucket `e`. */
  ghost function Kick<K, V>(t: Table<K, V>, p: int, b: int, e: int): Table<K, V>
    requires t.WF() && t.Occ(b) && t.Occ(p) && 0 <= e < t.nb && b in t.links.next
  {
    var n := t.index[b].next;
    t.(index := t.index[e := Index(if n == b then e else n, t.index[b].slot)]
                       [p := Index(e, t.index[p].slot)]
                       [b := Index(INACTIVE, t.index[b].slot)],
       home := t.home[t.Slot(b) := e],
       links := Move(t.links, p, b, e))
  }

  /** What placing a pair in an empty bucket does besides the links. */
  lemma PlaceEntries<K, V>(t: Table<K, V>, b: int, k: K, v: V, links: Graph)
    requires t.Inv() && |t.home| < t.nb && |t.home| < |t.pairs|
    requires 0 <= b < t.nb && !t.Occ(b) && links.Shape()
    requires forall s :: 0 <= s < |t.home| ==> t.pairs[s].key != k
    ensures var t1 := Place(t, b, k, v, links);
            && t1.WF() && t1.Homes(-1) && Listed(t1.pairs[..|t1.home|])
            && (forall c :: t1.Occ(c) <==> c == b || t.Occ(c))
            && t1.Occ(b) && t1.MainAt(b) == t.Main(k)
            && (forall c :: t.Occ(c) ==> t1.Occ(c) && t1.MainAt(c) == t.MainAt(c))
  {
    PackParts(|t.home|, HashHigh(t.hash(k), t.nb), t.nb);
    var t1 := Place(t, b, k, v, links);
    assert t1.Slot(b) == |t.home|;
    forall c | t.Occ(c) ensures t1.Occ(c) && t1.Slot(c) == t.Slot(c) && t1.Entry(c) {
      assert t.Entry(c);
    }
    assert t1.Entry(b);
    forall c | t1.Occ(c) ensures c == b || t.Occ(c) {
    }
  }

  /** A key whose main bucket is empty starts a chain there. */
  lemma PlaceHead<K, V>(t: Table<K, V>, k: K, v: V)
    requires t.Inv() && |t.home| < t.nb && |t.home| < |t.pairs|
    requires !t.Occ(t.Main(k))
    requires forall s :: 0 <= s < |t.home| ==> t.pairs[s].key != k
    ensures Place(t, t.Main(k), k, v, AddHead(t.links, t.Main(k), t.tick)).Inv()
  {
    var b := t.Main(k);
    var g := AddHead(t.links, b, t.tick);
    var t1 := Place(t, b, k, v, g);
    PlaceEntries(t, b, k, v, g);
    assert t.Mirrored(b);
    AddHeadKeeps(t.links, b, t.tick);
    forall c ensures t1.Mirrored(c) {
      assert t.Mirrored(c);
    }
  }

  /** Any other new key is linked behind the tail `p` of its chain. */
  lemma PlaceTail<K, V>(t: Table<K, V>, p: int, e: int, k: K, v: V)
    requires t.Inv() && |t.home| < t.nb && |t.home| < |t.pairs|
    requires t.Occ(p) && t.index[p].next == p && t.MainAt(p) == t.Main(k)
    requires 0 <= e < t.nb && !t.Occ(e)
    requires forall s :: 0 <= s < |t.home| ==> t.pairs[s].key != k
    ensures p in t.links.main
    ensures Place(SetNext(t, p, e), e, k, v, AddTail(t.links, p, e, t.tick)).Inv()
  {
    assert t.Mirrored(p) && t.Mirrored(e);
    var g := AddTail(t.links, p, e, t.tick);
    var t0 := Place(t, e, k, v, g);
    var t1 := Place(SetNext(t, p, e), e, k, v, g);
    PlaceEntries(t, e, k, v, g);
    AddTailKeeps(t.links, p, e, t.tick);
    RelinkKeeps(t0, t1);
    forall c ensures t1.Mirrored(c) {
      assert t.Mirrored(c);
    }
  }

  /** Changing links between occupied buckets changes nothing else. */
  lemma RelinkKeeps<K, V>(t: Table<K, V>, t1: Table<K, V>)
    requires t.WF() && t.Homes(-1)
    requires t1.(index := t.index) == t && |t1.index| == |t.index|
    requires t1.index[t.nb..] == t.index[t.nb..]
    requires forall b :: 0 <= b < t.nb ==>
      t1.index[b].slot == t.index[b].slot && (Empty(t1.index[b]) <==> Empty(t.index[b]))
    ensures t1.WF() && t1.Homes(-1)
    ensures forall b {:trigger t1.Occ(b)} :: t1.Occ(b) <==> t.Occ(b)
    ensures forall b {:trigger t1.MainAt(b)} :: t.Occ(b) ==> t1.MainAt(b) == t.MainAt(b)
  {
    assert t1.index[t.nb] == t.index[t.nb..][0] && t1.index[t.nb + 1] == t.index[t.nb..][1];
    assert t1.Shape();
    forall b | t1.Occ(b) ensures t.Occ(b) && t1.Slot(b) == t.Slot(b) && t1.Entry(b) {
      assert t.Occ(b);
      assert t.Entry(b);
    }
  }

  /** Kicking out a bucket that is away from its main bucket frees it. */
  lemma KickKeeps<K, V>(t: Table<K, V>, p: int, b: int, e: int)
    requires t.Inv() && t.Occ(b) && t.Occ(p) && 0 <= e < t.nb && !t.Occ(e)
    requires p != b && t.index[p].next == b && t.MainAt(b) != b
    ensures b in t.links.next && Kick(t, p, b, e).Inv() && !Kick(t, p, b, e).Occ(b)
  {
    assert t.Mirrored(b) && t.Mirrored(p) && t.Mirrored(e);
    var t1 := Kick(t, p, b, e);
    MoveKeeps(t.links, p, b, e, t.tick);
    assert t1.Shape();
    forall c ensures t1.Occ(c) <==> c == e || (t.Occ(c) && c != b) {
    }
    forall c | t1.Occ(c) ensures t1.Slot(c) == t.Slot(if c == e then b else c) && t1.Entry(c) {
      assert t.Entry(if c == e then b else c);
    }
    assert t1.Homes(-1);
    forall c ensures t1.Mirrored(c) {
      assert t.Mirrored(c);
    }
  }

  // ----- Erasing

  /** erase_bucket away from the main bucket: unlink `b`, reached from `p`. */
  ghost function UnlinkAt<K, V>(t: Table<K, V>, p: int, b: int): Table<K, V>
    requires t.WF() && t.Occ(b) && t.Occ(p) && b in t.links.next
  {
    var n := t.index[b].next;
    t.(index := t.index[p := Index(if n == b then p else n, t.index[p].slot)][b := Index(INACTIVE, 0)],
       links := Unlink(t.links, p, b))
  }

  /** erase_bucket at a main bucket `m`: the next bucket's entry `e` moves in. */
  ghost function PullUp<K, V>(t: Table<K, V>, m: int, e: int): Table<K, V>
    requires t.WF() && t.Occ(m) && t.Occ(e) && e in t.links.next
  {
    var n := t.index[e].next;
    t.(index := t.index[m := Index(if n == e then m else n, t.index[e].slot)][e := Index(INACTIVE, 0)],
       home := t.home[t.Slot(e) := m],
       links := Unlink(t.links, m, e))
  }

  /** erase_bucket of a whole chain. */
  ghost function DropAt<K, V>(t: Table<K, V>, b: int): Table<K, V>
    requires t.WF() && t.Occ(b)
  {
    t.(index := t.index[b := Index(INACTIVE, 0)], links := Drop(t.links, b))
  }

  lemma UnlinkAtKeeps<K, V>(t: Table<K, V>, p: int, b: int)
    requires t.Inv() && t.Occ(b) && t.Occ(p) && p != b && t.index[p].next == b
    ensures b in t.links.next && UnlinkAt(t, p, b).Semi(t.Slot(b))
  {
    assert t.Mirrored(b) && t.Mirrored(p);
    var t1 := UnlinkAt(t, p, b);
    UnlinkKeeps(t.links, p, b, t.tick);
    forall c ensures t1.Occ(c) <==> t.Occ(c) && c != b {
      assert t.Mirrored(c) && t.links.next[b] == t.index[b].next;
      if t.Occ(b) { assert t.links.Step(b) && t.Mirrored(t.index[b].next); }
    }
    forall c | t1.Occ(c) ensures t1.Slot(c) == t.Slot(c) && t1.Entry(c) {
      assert t.Entry(c);
    }
    forall c ensures t1.Mirrored(c) {
      assert t.Mirrored(c);
    }
  }

  lemma PullUpKeeps<K, V>(t: Table<K, V>, m: int)
    requires t.Inv() && t.Occ(m) && t.MainAt(m) == m && t.index[m].next != m
    ensures var e := t.index[m].next;
            t.Occ(e) && e in t.links.next && PullUp(t, m, e).Semi(t.Slot(m))
  {
    var e := t.index[m].next;
    assert t.Mirrored(m) && t.links.Step(m) && t.Mirrored(e) && t.links.Step(e) && t.Mirrored(t.index[e].next);
    UnlinkKeeps(t.links, m, e, t.tick);
    PullUpEntries(t, m, e);
    hide Graph.Good;
    var t1 := PullUp(t, m, e);
    forall c ensures t1.Mirrored(c) {
      assert t.Mirrored(c);
    }
  }

  lemma PullUpEntries<K, V>(t: Table<K, V>, m: int, e: int)
    requires t.WF() && t.Homes(-1) && t.Occ(m) && t.Occ(e) && e != m && e in t.links.next
    requires t.Occ(t.index[e].next) && Unlink(t.links, m, e).Shape()
    ensures var t1 := PullUp(t, m, e);
            && t1.WF() && t1.Homes(t.Slot(m))
            && (forall c {:trigger t1.Occ(c)} :: t1.Occ(c) <==> t.Occ(c) && c != e)
            && (forall c {:trigger t1.MainAt(c)} :: t1.Occ(c) ==> t1.MainAt(c) == t.MainAt(if c == m then e else c))
  {
    var t1 := PullUp(t, m, e);
    forall c ensures t1.Occ(c) <==> t.Occ(c) && c != e {
    }
    forall c | t1.Occ(c) ensures t1.Slot(c) == t.Slot(if c == m then e else c) && t1.Entry(c) {
      assert t.Entry(if c == m then e else c);
    }
    forall s | 0 <= s < |t.home| && s != t.Slot(m) ensures t1.Occ(t1.home[s]) && t1.Slot(t1.home[s]) == s {
      assert t.Occ(t.home[s]) && t.Slot(t.home[s]) == s;
    }
    forall c | t1.Occ(c) ensures t1.Slot(c) != t.Slot(m) && t1.home[t1.Slot(c)] == c {
      assert t.home[t.Slot(m)] == m && t.home[t.Slot(e)] == e;
    }
  }

  lemma DropAtKeeps<K, V>(t: Table<K, V>, b: int)
    requires t.Inv() && t.Occ(b) && t.MainAt(b) == b && t.index[b].next == b
    ensures DropAt(t, b).Semi(t.Slot(b))
  {
    var t1 := DropAt(t, b);
    assert t.Mirrored(b);
    DropKeeps(t.links, b, t.tick);
    forall c ensures t1.Occ(c) <==> t.Occ(c) && c != b {
    }
    forall c | t1.Occ(c) ensures t1.Slot(c) == t.Slot(c) && t1.Entry(c) {
      assert t.Entry(c);
    }
    forall c ensures t1.Mirrored(c) {
      assert t.Mirrored(c);
    }
  }

  /** erase_slot: the last pair fills the dead slot and the dense array shrinks. */
  ghost function FillSlot<K, V>(t: Table<K, V>, dead: int): Table<K, V>
    requires t.Semi(dead) && 0 <= dead < |t.home|
  {
    var last := |t.home| - 1;
    if dead == last then t.(pairs := t.pairs[last := Raw], home := t.home[..last])
    else
      var lb := t.home[last];
      t.(index := t.index[lb := Index(t.index[lb].next, Pack(dead, High(t.index[lb].slot, t.nb), t.nb))],
         pairs := t.pairs[dead := t.pairs[last]][last := Raw],
         home := t.home[..last][dead := lb])
  }

  lemma FillSlotEntries<K, V>(t: Table<K, V>, dead: int)
    requires t.Semi(dead) && 0 <= dead < |t.home|
    ensures var t1 := FillSlot(t, dead);
            && t1.WF()
            && (forall c {:trigger t1.Occ(c)} :: t1.Occ(c) <==> t.Occ(c))
            && (forall c {:trigger t1.Slot(c)} :: t.Occ(c) ==>
                  t1.Slot(c) == if t.Slot(c) == |t.home| - 1 then dead else t.Slot(c))
            && (forall c {:trigger t1.KeyAt(c)} :: t.Occ(c) ==> t1.KeyAt(c) == t.KeyAt(c))
  {
    var last := |t.home| - 1;
    var t1 := FillSlot(t, dead);
    if dead != last {
      var lb := t.home[last];
      assert t.Slot(lb) == last < t.nb;
      PackParts(dead, High(t.index[lb].slot, t.nb), t.nb);
    }
    forall c | t.Occ(c)
      ensures t1.Slot(c) == (if t.Slot(c) == last then dead else t.Slot(c)) && t1.Entry(c)
    {
      assert t.Entry(c);
    }
  }

  lemma FillSlotKeeps<K, V>(t: Table<K, V>, dead: int)
    requires t.Semi(dead) && 0 <= dead < |t.home|
    ensures FillSlot(t, dead).Inv()
  {
    var last := |t.home| - 1;
    var t1 := FillSlot(t, dead);
    FillSlotEntries(t, dead);
    FillSlotListed(t, dead);
    forall c ensures t1.Mirrored(c) {
      assert t.Mirrored(c);
    }
    forall c | t1.Occ(c) ensures t1.Slot(c) != -1 && t1.home[t1.Slot(c)] == c {
      assert t.Occ(c) && t.home[t.Slot(c)] == c;
    }
    forall s | 0 <= s < last ensures t1.Occ(t1.home[s]) && t1.Slot(t1.home[s]) == s {
      var u := if s == dead then last else s;
      assert t.Occ(t.home[u]) && t.Slot(t.home[u]) == u;
      assert t1.home[s] == t.home[u];
    }
  }

  lemma FillSlotListed<K, V>(t: Table<K, V>, dead: int)
    requires t.Semi(dead) && 0 <= dead < |t.home|
    ensures var t1 := FillSlot(t, dead); |t1.home| <= |t1.pairs| && Listed(t1.pairs[..|t1.home|])
  {
    var last := |t.home| - 1;
    var cells := FillSlot(t, dead).pairs[..last];
    var cells0 := t.pairs[..|t.home|];
    assert forall s :: 0 <= s < last ==> cells[s] == cells0[if s == dead then last else s];
  }

  // ----- Room for one more

  /** With fewer pairs than buckets, some bucket is empty. */
  lemma SomeEmpty<K, V>(t: Table<K, V>) returns (e: int)
    requires t.Inv() && |t.home| < t.nb
    ensures 0 <= e < t.nb && Empty(t.index[e])
  {
    e := 0;
    while e < t.nb && !Empty(t.index[e])
      invariant 0 <= e <= t.nb
      invariant forall b {:trigger t.Occ(b)} :: 0 <= b < e ==> t.Occ(b)
    {
      assert t.Occ(e);
      e := e + 1;
    }
    if e == t.nb { FullTable(t); }
  }

  /** Occupied buckets hold different slots. */
  lemma FullTable<K, V>(t: Table<K, V>)
    requires t.Inv() && forall b {:trigger t.Occ(b)} :: 0 <= b < t.nb ==> t.Occ(b)
    ensures t.nb <= |t.home|
  {
    var slots := seq(t.nb, b requires 0 <= b < t.nb => t.Slot(b));
    forall b | 0 <= b < t.nb ensures 0 <= slots[b] < |t.home| && t.home[slots[b]] == b {
      assert t.Occ(b);
    }
    Finite.Pigeonhole(slots, |t.home|);
  }

  /** Different slots sit in different buckets. */
  lemma HomesFit<K, V>(t: Table<K, V>)
    requires t.Inv()
    ensures |t.home| <= t.nb
  {
    forall s | 0 <= s < |t.home| ensures 0 <= t.home[s] < t.nb && t.Slot(t.home[s]) == s {
      assert t.Occ(t.home[s]);
    }
    Finite.Pigeonhole(t.home, t.nb);
  }

  /** How a bucket handed out for a new key hangs in the table. */
  ghost predicate Allocated<K, V>(t: Table<K, V>, main: int, b: int, p: int) {
    && t.Shape() && 0 <= b < t.nb && Empty(t.index[b])
    && if p < 0 then t.Inv() && b == main
       else
         && p < t.nb
         && var t0 := SetNext(t, p, p);
         && t0.Inv() && t0.Occ(p) && t0.MainAt(p) == main && t == SetNext(t0, p, b)
  }

  ghost function NewLinks<K, V>(t: Table<K, V>, b: int, p: int): Graph
    requires p >= 0 ==> p in t.links.main
  {
    if p < 0 then AddHead(t.links, b, t.tick) else AddTail(t.links, p, b, t.tick)
  }

  /** Placing a new key in an allocated bucket restores the invariant. */
  lemma PlaceAllocated<K, V>(t: Table<K, V>, b: int, p: int, k: K, v: V)
    requires t.Shape() && Allocated(t, t.Main(k), b, p)
    requires |t.home| < t.nb && |t.home| < |t.pairs|
    requires forall s :: 0 <= s < |t.home| && t.pairs[s].Pair? ==> t.pairs[s].key != k
    ensures p >= 0 ==> p in t.links.main
    ensures Place(t, b, k, v, NewLinks(t, b, p)).Inv()
  {
    if p < 0 {
      PlaceHead(t, k, v);
    } else {
      PlaceTail(SetNext(t, p, p), p, b, k, v);
    }
  }

  // ----- Contents

  /** Slot `s` of a dense array holds key `k`. */
  ghost predicate Holds<K, V>(cells: seq<Cell<K, V>>, s: int, k: K) {
    0 <= s < |cells| && cells[s].Pair? && cells[s].key == k
  }

  lemma {:induction false} ToMapHas<K, V>(cells: seq<Cell<K, V>>, s: int)
    requires Listed(cells) && 0 <= s < |cells|
    ensures cells[s].key in ToMap(cells) && ToMap(cells)[cells[s].key] == cells[s].val
  {
    var n := |cells| - 1;
    if s < n {
      assert cells[..n][s] == cells[s];
      ToMapHas(cells[..n], s);
    }
  }

  /** Each entry is listed once, so the listing is as long as the map is large. */
  lemma {:induction false} ToMapSize<K, V>(cells: seq<Cell<K, V>>)
    requires Listed(cells)
    ensures |ToMap(cells)| == |cells|
  {
    if cells != [] {
      var n := |cells| - 1;
      var init, k := cells[..n], cells[n].key;
      ToMapSize(init);
      if k in ToMap(init) {
        var _ := ToMapSlot(init, k);
      }
      assert ToMap(cells).Keys == ToMap(init).Keys + {k};
    }
  }

  lemma {:induction false} ToMapSlot<K, V>(cells: seq<Cell<K, V>>, k: K) returns (s: int)
    requires Listed(cells) && k in ToMap(cells)
    ensures Holds(cells, s, k) && ToMap(cells)[k] == cells[s].val
  {
    var n := |cells| - 1;
    if cells[n].key == k {
      s := n;
    } else {
      s := ToMapSlot(cells[..n], k);
    }
  }

  lemma ToMapLacks<K, V>(cells: seq<Cell<K, V>>, k: K)
    requires Listed(cells)
    ensures k !in ToMap(cells) <==> forall s :: !Holds(cells, s, k)
  {
    if k in ToMap(cells) {
      var s := ToMapSlot(cells, k);
    }
    forall s | Holds(cells, s, k) ensures k in ToMap(cells) {
      ToMapHas(cells, s);
    }
  }

  lemma ListedAppend<K, V>(cells: seq<Cell<K, V>>, k: K, v: V)
    requires Listed(cells) && k !in ToMap(cells)
    ensures Listed(cells + [Pair(k, v)]) && ToMap(cells + [Pair(k, v)]) == ToMap(cells)[k := v]
  {
    var more := cells + [Pair(k, v)];
    ToMapLacks(cells, k);
    forall s | 0 <= s < |cells| ensures cells[s].key != k {
      assert !Holds(cells, s, k);
    }
    assert more[..|cells|] == cells;
  }

  /** Filling slot `s` from the end and dropping the end removes one entry. */
  ghost function Removed<K, V>(cells: seq<Cell<K, V>>, s: int): seq<Cell<K, V>>
    requires 0 <= s < |cells|
  {
    if s == |cells| - 1 then cells[..s] else cells[..|cells| - 1][s := cells[|cells| - 1]]
  }

  lemma RemovedListed<K, V>(cells: seq<Cell<K, V>>, s: int)
    requires Listed(cells) && 0 <= s < |cells|
    ensures var less := Removed(cells, s);
            && Listed(less) && |less| == |cells| - 1
            && (s < |less| ==> less[s] == cells[|less|])
            && forall u :: 0 <= u < |less| && u != s ==> less[u] == cells[u]
  {
  }

  lemma OneEntryLess<K, V>(cells: seq<Cell<K, V>>, less: seq<Cell<K, V>>, s: int)
    requires Listed(cells) && Listed(less) && |less| == |cells| - 1 && 0 <= s < |cells|
    requires s < |less| ==> less[s] == cells[|less|]
    requires forall u :: 0 <= u < |less| && u != s ==> less[u] == cells[u]
    ensures ToMap(less) == ToMap(cells) - {cells[s].key}
  {
    var m, m1 := ToMap(cells) - {cells[s].key}, ToMap(less);
    forall x | x in m ensures x in m1 && m1[x] == m[x] {
      var u := ToMapSlot(cells, x);
      ToMapHas(less, if u == |less| then s else u);
    }
    forall x | x in m1 ensures x in m {
      var u := ToMapSlot(less, x);
      ToMapHas(cells, if u == s then |less| else u);
    }
  }

  lemma ListedRemove<K, V>(cells: seq<Cell<K, V>>, s: int)
    requires Listed(cells) && 0 <= s < |cells|
    ensures Listed(Removed(cells, s))
    ensures ToMap(Removed(cells, s)) == ToMap(cells) - {cells[s].key}
  {
    RemovedListed(cells, s);
    OneEntryLess(cells, Removed(cells, s), s);
  }

  lemma ListedUpdate<K, V>(cells: seq<Cell<K, V>>, s: int, v: V)
    requires Listed(cells) && 0 <= s < |cells|
    ensures Listed(cells[s := Pair(cells[s].key, v)])
    ensures ToMap(cells[s := Pair(cells[s].key, v)]) == ToMap(cells)[cells[s].key := v]
  {
    var k := cells[s].key;
    var cells1 := cells[s := Pair(k, v)];
    var m, m1 := ToMap(cells)[k := v], ToMap(cells1);
    forall x | x in m ensures x in m1 && m1[x] == m[x] {
      if x == k {
        ToMapHas(cells1, s);
      } else {
        var u := ToMapSlot(cells, x);
        ToMapHas(cells1, u);
      }
    }
    forall x | x in m1 ensures x in m {
      var u := ToMapSlot(cells1, x);
      ToMapHas(cells, u);
    }
  }
}
