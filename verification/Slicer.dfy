/**
 Key ranges of the servers, slicing of a key/value list over them, and putting the
 servers' answers together again.
 */
module Slicer {
  import opened Arith

  const MAX_KEY: int := 0xFFFF_FFFF_FFFF_FFFF

  datatype Range = Range(begin: int, end: int)

  /** `lens` is empty when all values have the same length. */
  datatype KV = KV(keys: seq<int>, vals: seq<int>, lens: seq<int>)

  datatype Slice = Slice(sent: bool, kv: KV)

  datatype Result<T> = Ok(value: T) | Err

  ghost predicate Increasing(keys: seq<int>) {
    forall i, j {:trigger keys[i], keys[j]} :: 0 <= i < j < |keys| ==> keys[i] < keys[j]
  }

  /** The keys before `p` are below `x`, those from `p` on are not. */
  ghost predicate SplitsAt(keys: seq<int>, p: int, x: int) {
    && 0 <= p <= |keys|
    && (forall j {:trigger keys[j]} :: 0 <= j < p ==> keys[j] < x)
    && (forall j {:trigger keys[j]} :: p <= j < |keys| ==> x <= keys[j])
  }

  ghost predicate FirstBelow(keys: seq<int>, p: int, x: int) {
    0 <= p <= |keys| && forall j {:trigger keys[j]} :: 0 <= j < p ==> keys[j] < x
  }

  lemma SplitMeansBelow(keys: seq<int>, p: int, y: int, x: int)
    requires SplitsAt(keys, p, y) && y <= x
    ensures FirstBelow(keys, p, x)
  {
  }

  /** std::lower_bound on the tail that starts at `from`. */
  method LowerBound(keys: seq<int>, from: int, x: int) returns (p: int)
    requires Increasing(keys) && FirstBelow(keys, from, x)
    ensures from <= p && SplitsAt(keys, p, x)
  {
    var lo, hi := from, |keys|;
    while lo < hi
      invariant from <= lo <= hi <= |keys|
      invariant forall j {:trigger keys[j]} :: 0 <= j < lo ==> keys[j] < x
      invariant forall j {:trigger keys[j]} :: hi <= j < |keys| ==> x <= keys[j]
    {
      var mid := (lo + hi) / 2;
      if keys[mid] < x {
        lo := mid + 1;
      } else {
        hi := mid;
      }
    }
    p := lo;
  }

  // ----- Server ranges

  ghost predicate Ordered(ranges: seq<Range>) {
    forall i {:trigger ranges[i]} :: 0 <= i < |ranges| ==> ranges[i].begin <= ranges[i].end
  }

  ghost predicate Contiguous(ranges: seq<Range>) {
    forall i {:trigger ranges[i]} :: 0 < i < |ranges| ==> ranges[i - 1].end == ranges[i].begin
  }

  function Share(servers: int): int
    requires servers > 0
  {
    MAX_KEY / servers
  }

  lemma ShareFits(servers: int)
    requires servers > 0
    ensures 0 <= Share(servers) == MAX_KEY / servers && MAX_KEY - servers < Times(Share(servers), servers) <= MAX_KEY
  {
  }

  /**
   The ranges start at 0, follow each other, are equally wide and leave out fewer than
   `numServers` keys at the top.
   */
  method GetServerKeyRanges(numServers: int) returns (ranges: seq<Range>)
    requires numServers > 0
    ensures |ranges| == numServers && Ordered(ranges) && Contiguous(ranges)
    ensures ranges[0].begin == 0 && MAX_KEY - numServers < ranges[numServers - 1].end <= MAX_KEY
    ensures forall i {:trigger ranges[i]} :: 0 <= i < numServers ==> ranges[i].end - ranges[i].begin == MAX_KEY / numServers
  {
    hide Share, Times;
    ranges := [];
    ShareFits(numServers);
    for i := 0 to numServers
      invariant |ranges| == i && Ordered(ranges) && Contiguous(ranges)
      invariant i > 0 ==> ranges[0].begin == 0 && ranges[i - 1].end == Times(Share(numServers), i)
      invariant forall j {:trigger ranges[j]} :: 0 <= j < i ==> ranges[j].end - ranges[j].begin == Share(numServers)
    {
      TimesStep(Share(numServers), i);
      ranges := ranges + [Range(Times(Share(numServers), i), Times(Share(numServers), i + 1))];
    }
  }

  // ----- Positions

  /** All keys lie in the union of the ranges. */
  ghost predicate Inside(keys: seq<int>, ranges: seq<Range>) {
    forall j {:trigger keys[j]} :: 0 <= j < |keys| ==>
      |ranges| > 0 && ranges[0].begin <= keys[j] < ranges[|ranges| - 1].end
  }

  ghost predicate BelowEnd(keys: seq<int>, ranges: seq<Range>) {
    forall j {:trigger keys[j]} :: 0 <= j < |keys| ==> |ranges| > 0 && keys[j] < ranges[|ranges| - 1].end
  }

  /** The key at which position `i` splits the list. */
  ghost function Bound(ranges: seq<Range>, i: int): int
    requires 0 <= i <= |ranges| && |ranges| > 0
  {
    if i == 0 then ranges[0].begin else ranges[i - 1].end
  }

  ghost predicate PositionOk(keys: seq<int>, ranges: seq<Range>, pos: seq<int>, i: int)
    requires 0 <= i < |pos| <= |ranges| + 1
  {
    if |ranges| == 0 then pos[i] == 0 else SplitsAt(keys, pos[i], Bound(ranges, i))
  }

  ghost predicate Positions(keys: seq<int>, ranges: seq<Range>, pos: seq<int>) {
    && |pos| <= |ranges| + 1
    && forall i {:trigger PositionOk(keys, ranges, pos, i)} :: 0 <= i < |pos| ==> PositionOk(keys, ranges, pos, i)
  }

  lemma PositionsGrow(keys: seq<int>, ranges: seq<Range>, pos: seq<int>, p: int)
    requires Positions(keys, ranges, pos) && 0 < |pos| <= |ranges| && SplitsAt(keys, p, Bound(ranges, |pos|))
    ensures Positions(keys, ranges, pos + [p])
  {
    hide SplitsAt;
    var pos1 := pos + [p];
    forall i | 0 <= i < |pos1| ensures PositionOk(keys, ranges, pos1, i) {
      assert i < |pos| ==> PositionOk(keys, ranges, pos, i);
    }
  }

  lemma NoneLeftIff(keys: seq<int>, ranges: seq<Range>, pos: seq<int>)
    requires Positions(keys, ranges, pos) && |pos| == |ranges| + 1
    ensures pos[|ranges|] == |keys| <==> BelowEnd(keys, ranges)
  {
    assert PositionOk(keys, ranges, pos, |ranges|);
    var p := pos[|ranges|];
    assert p < |keys| && |ranges| > 0 ==> Bound(ranges, |ranges|) <= keys[p];
    assert p < |keys| && |ranges| == 0 ==> keys[p] in keys;
  }

  /** Succeeds exactly when the ranges follow each other and no key is at or beyond the end. */
  method FindPositions(keys: seq<int>, ranges: seq<Range>) returns (r: Result<seq<int>>)
    requires Increasing(keys) && Ordered(ranges)
    ensures r.Ok? <==> Contiguous(ranges) && BelowEnd(keys, ranges)
    ensures r.Ok? ==> Positions(keys, ranges, r.value) && |r.value| == |ranges| + 1 && r.value[|ranges|] == |keys|
  {
    hide Positions, BelowEnd, SplitsAt, Increasing;
    var first := 0;
    if |ranges| > 0 {
      first := LowerBound(keys, 0, ranges[0].begin);
    }
    var pos := [first];
    FirstPosition(keys, ranges, first);
    for i := 0 to |ranges|
      invariant |pos| == i + 1 && Positions(keys, ranges, pos) && (|ranges| > 0 ==> SplitsAt(keys, pos[i], Bound(ranges, i)))
      invariant forall j {:trigger ranges[j]} :: 0 < j < i ==> ranges[j - 1].end == ranges[j].begin
    {
      if i > 0 && ranges[i - 1].end != ranges[i].begin {
        return Err;
      }
      SplitMeansBelow(keys, pos[i], Bound(ranges, i), ranges[i].end);
      var p := LowerBound(keys, pos[i], ranges[i].end);
      PositionsGrow(keys, ranges, pos, p);
      pos := pos + [p];
    }
    NoneLeftIff(keys, ranges, pos);
    if pos[|ranges|] != |keys| {
      return Err;
    }
    r := Ok(pos);
  }

  lemma FirstPosition(keys: seq<int>, ranges: seq<Range>, p: int)
    requires if |ranges| > 0 then SplitsAt(keys, p, ranges[0].begin) else p == 0
    ensures Positions(keys, ranges, [p])
  {
  }

  lemma SplitsMonotone(keys: seq<int>, p: int, x: int, q: int, y: int)
    requires SplitsAt(keys, p, x) && SplitsAt(keys, q, y) && x <= y
    ensures p <= q
  {
    assert q < |keys| ==> y <= keys[q];
  }

  ghost predicate Monotone(pos: seq<int>, n: int) {
    && |pos| >= 1 && pos[|pos| - 1] == n
    && (forall i {:trigger pos[i]} :: 0 <= i < |pos| ==> 0 <= pos[i] <= n)
    && forall i {:trigger Steps(pos, i)} :: 0 <= i < |pos| - 1 ==> Steps(pos, i)
  }

  ghost predicate Steps(pos: seq<int>, i: int)
    requires 0 <= i < |pos| - 1
  {
    pos[i] <= pos[i + 1]
  }

  lemma PositionsMonotone(keys: seq<int>, ranges: seq<Range>, pos: seq<int>)
    requires Positions(keys, ranges, pos) && |pos| == |ranges| + 1 && pos[|ranges|] == |keys|
    requires Ordered(ranges) && Contiguous(ranges)
    ensures Monotone(pos, |keys|)
  {
    forall i | 0 <= i < |pos| ensures 0 <= pos[i] <= |keys| {
      assert PositionOk(keys, ranges, pos, i);
    }
    forall i | 0 <= i < |pos| - 1 ensures Steps(pos, i) {
      assert PositionOk(keys, ranges, pos, i) && PositionOk(keys, ranges, pos, i + 1);
      assert ranges[i].begin <= ranges[i].end;
      SplitsMonotone(keys, pos[i], Bound(ranges, i), pos[i + 1], Bound(ranges, i + 1));
    }
  }

  // ----- Cutting the values

  ghost function Total(lens: seq<int>): int {
    if lens == [] then 0 else Total(lens[..|lens| - 1]) + lens[|lens| - 1]
  }

  lemma {:induction false} TotalAppend(a: seq<int>, b: seq<int>)
    ensures Total(a + b) == Total(a) + Total(b)
  {
    if b == [] {
      assert a + b == a;
    } else {
      var c := b[..|b| - 1];
      TotalAppend(a, c);
      assert (a + b)[..|a + b| - 1] == a + c;
    }
  }

  lemma {:induction false} TotalNonNegative(lens: seq<int>)
    requires forall i :: 0 <= i < |lens| ==> lens[i] >= 0
    ensures Total(lens) >= 0
  {
    if lens != [] { TotalNonNegative(lens[..|lens| - 1]); }
  }

  method SumLens(lens: seq<int>) returns (t: int)
    ensures t == Total(lens)
  {
    t := 0;
    for i := 0 to |lens|
      invariant t == Total(lens[..i])
    {
      assert lens[..i + 1][..i] == lens[..i];
      t := t + lens[i];
    }
    assert lens[..|lens|] == lens;
  }

  function PerKey(send: KV): (k: int)
    ensures k >= 0
  {
    if |send.keys| == 0 then 0 else |send.vals| / |send.keys|
  }

  /** Where the values of key `j` begin. */
  ghost function Off(send: KV, j: int): int
    requires send.lens == [] || 0 <= j <= |send.lens|
  {
    if send.lens == [] then Times(PerKey(send), j) else Total(send.lens[..j])
  }

  lemma OffMonotone(send: KV, i: int, j: int)
    requires 0 <= i <= j && (send.lens == [] || j <= |send.lens|)
    requires forall l :: 0 <= l < |send.lens| ==> send.lens[l] >= 0
    ensures 0 <= Off(send, i) <= Off(send, j)
    ensures send.lens != [] ==> Off(send, j) - Off(send, i) == Total(send.lens[i..j])
  {
    if send.lens == [] {
      TimesMonotone(PerKey(send), i, j);
    } else {
      assert send.lens[..j] == send.lens[..i] + send.lens[i..j];
      TotalAppend(send.lens[..i], send.lens[i..j]);
      TotalNonNegative(send.lens[..i]);
      TotalNonNegative(send.lens[i..j]);
    }
  }

  const NOTHING := KV([], [], [])

  /** The values start at 0 when lengths are given, whatever the first position is. */
  ghost function Base(send: KV, first: int): int
    requires send.lens == [] || 0 <= first <= |send.lens|
  {
    if send.lens == [] then 0 else Off(send, first)
  }

  /** The lengths fit the keys and the values. */
  ghost predicate Fits(send: KV, first: int)
    requires 0 <= first <= |send.keys|
  {
    || send.keys == []
    || (if send.lens == [] then Times(PerKey(send), |send.keys|) == |send.vals|
        else |send.lens| == |send.keys| && Off(send, |send.keys|) - Off(send, first) <= |send.vals|)
  }

  ghost predicate LensOk(send: KV) {
    forall l {:trigger send.lens[l]} :: 0 <= l < |send.lens| ==> send.lens[l] >= 0
  }

  /** What range `i` gets. */
  ghost predicate SliceOk(send: KV, pos: seq<int>, i: int, sl: Slice)
    requires 0 <= i < |pos| - 1
  {
    if pos[i] == pos[i + 1] then sl == Slice(false, NOTHING)
    else
      && 0 <= pos[i] < pos[i + 1] <= |send.keys| && 0 <= pos[0] <= |send.keys|
      && (send.lens == [] || |send.lens| == |send.keys|)
      && var a, b := Off(send, pos[i]) - Base(send, pos[0]), Off(send, pos[i + 1]) - Base(send, pos[0]);
         0 <= a <= b <= |send.vals|
         && sl == Slice(true, KV(send.keys[pos[i]..pos[i + 1]], send.vals[a..b],
                                 if send.lens == [] then [] else send.lens[pos[i]..pos[i + 1]]))
  }

  ghost predicate SlicesOk(send: KV, pos: seq<int>, slices: seq<Slice>) {
    && |slices| < |pos|
    && forall i {:trigger slices[i]} :: 0 <= i < |slices| ==> SliceOk(send, pos, i, slices[i])
  }

  method Cut(send: KV, pos: seq<int>) returns (r: Result<seq<Slice>>)
    requires Monotone(pos, |send.keys|) && LensOk(send)
    ensures r.Ok? <==> Fits(send, pos[0])
    ensures r.Ok? ==> |r.value| == |pos| - 1 && SlicesOk(send, pos, r.value)
  {
    if |send.keys| == 0 {
      return Ok(seq(|pos| - 1, i => Slice(false, NOTHING)));
    }
    if |send.lens| == 0 {
      r := CutFixed(send, pos);
    } else {
      r := CutByLens(send, pos);
    }
  }

  method CutFixed(send: KV, pos: seq<int>) returns (r: Result<seq<Slice>>)
    requires Monotone(pos, |send.keys|) && send.keys != [] && send.lens == []
    ensures r.Ok? <==> Fits(send, pos[0])
    ensures r.Ok? ==> |r.value| == |pos| - 1 && SlicesOk(send, pos, r.value)
  {
    hide Times, PerKey;
    var k := PerKey(send);
    if Times(k, |send.keys|) != |send.vals| {
      return Err;
    }
    var slices := [];
    for i := 0 to |pos| - 1
      invariant |slices| == i && SlicesOk(send, pos, slices)
    {
      assert Steps(pos, i);
      if pos[i + 1] == pos[i] {
        slices := slices + [Slice(false, NOTHING)];
      } else {
        TimesMonotone(k, pos[i], pos[i + 1]);
        TimesMonotone(k, pos[i + 1], |send.keys|);
        slices := slices + [Slice(true, KV(send.keys[pos[i]..pos[i + 1]],
                                           send.vals[Times(k, pos[i])..Times(k, pos[i + 1])], []))];
      }
    }
    r := Ok(slices);
  }

  method CutByLens(send: KV, pos: seq<int>) returns (r: Result<seq<Slice>>)
    requires Monotone(pos, |send.keys|) && LensOk(send) && send.keys != [] && send.lens != []
    ensures r.Ok? <==> Fits(send, pos[0])
    ensures r.Ok? ==> |r.value| == |pos| - 1 && SlicesOk(send, pos, r.value)
  {
    hide Off, Total;
    if |send.lens| != |send.keys| {
      return Err;
    }
    var slices, valBegin := [], 0;
    for i := 0 to |pos| - 1
      invariant |slices| == i && SlicesOk(send, pos, slices)
      invariant 0 <= valBegin == Off(send, pos[i]) - Off(send, pos[0]) <= |send.vals|
    {
      assert Steps(pos, i);
      OffMonotone(send, pos[i], pos[i + 1]);
      OffMonotone(send, pos[i + 1], |send.keys|);
      if pos[i + 1] == pos[i] {
        slices := slices + [Slice(false, NOTHING)];
      } else {
        var t := SumLens(send.lens[pos[i]..pos[i + 1]]);
        var valEnd := valBegin + t;
        if valEnd > |send.vals| {
          return Err;
        }
        slices := slices + [Slice(true, KV(send.keys[pos[i]..pos[i + 1]], send.vals[valBegin..valEnd],
                                           send.lens[pos[i]..pos[i + 1]]))];
        valBegin := valEnd;
      }
    }
    r := Ok(slices);
  }

  /**
   For keys inside the ranges, slicing succeeds exactly when the ranges follow each
   other and the lengths fit, and then range `i` gets exactly the keys in it with their
   values and lengths.
   */
  method DefaultSlicer(send: KV, ranges: seq<Range>) returns (r: Result<seq<Slice>>, ghost pos: seq<int>)
    requires Increasing(send.keys) && Ordered(ranges) && LensOk(send)
    ensures r.Ok? ==> Contiguous(ranges) && BelowEnd(send.keys, ranges)
    ensures r.Ok? ==> Positions(send.keys, ranges, pos) && Monotone(pos, |send.keys|) && |pos| == |ranges| + 1
    ensures r.Ok? ==> |r.value| == |ranges| && SlicesOk(send, pos, r.value)
    ensures Contiguous(ranges) && BelowEnd(send.keys, ranges) ==>
      && Monotone(pos, |send.keys|) && Positions(send.keys, ranges, pos) && |pos| == |ranges| + 1
      && (r.Ok? <==> Fits(send, pos[0]))
  {
    hide Positions, BelowEnd, Contiguous, Ordered, Fits, SlicesOk, Increasing;
    pos := [];
    var found := FindPositions(send.keys, ranges);
    if found.Err? {
      return Err, [];
    }
    pos := found.value;
    PositionsMonotone(send.keys, ranges, pos);
    r := Cut(send, found.value);
  }

  /** Range `i` gets only keys that lie in it. */
  lemma KeysInRange(keys: seq<int>, ranges: seq<Range>, pos: seq<int>, i: int, j: int)
    requires Positions(keys, ranges, pos) && |pos| == |ranges| + 1 && Contiguous(ranges)
    requires 0 <= i < |ranges| && 0 <= pos[i] <= j < pos[i + 1] <= |keys|
    ensures ranges[i].begin <= keys[j] < ranges[i].end
  {
    assert PositionOk(keys, ranges, pos, i) && PositionOk(keys, ranges, pos, i + 1);
    assert i > 0 ==> ranges[i - 1].end == ranges[i].begin;
  }

  lemma InsideStartsAtZero(keys: seq<int>, ranges: seq<Range>, pos: seq<int>)
    requires Positions(keys, ranges, pos) && |pos| == |ranges| + 1 && Inside(keys, ranges)
    ensures pos[0] == 0
  {
    assert PositionOk(keys, ranges, pos, 0);
    assert |keys| > 0 && |ranges| > 0 ==> ranges[0].begin <= keys[0];
  }

  // ----- Putting the answers together

  /** The slices that go out, in order of the ranges. */
  ghost function SentOf(slices: seq<Slice>): seq<KV> {
    if slices == [] then []
    else
      var last := slices[|slices| - 1];
      SentOf(slices[..|slices| - 1]) + if last.sent then [last.kv] else []
  }

  ghost function ConcatKeys(kvs: seq<KV>): seq<int> {
    if kvs == [] then [] else ConcatKeys(kvs[..|kvs| - 1]) + kvs[|kvs| - 1].keys
  }

  ghost function ConcatVals(kvs: seq<KV>): seq<int> {
    if kvs == [] then [] else ConcatVals(kvs[..|kvs| - 1]) + kvs[|kvs| - 1].vals
  }

  ghost function ConcatLens(kvs: seq<KV>): seq<int> {
    if kvs == [] then [] else ConcatLens(kvs[..|kvs| - 1]) + kvs[|kvs| - 1].lens
  }

  lemma ConcatAppend(kvs: seq<KV>, kv: KV)
    ensures ConcatKeys(kvs + [kv]) == ConcatKeys(kvs) + kv.keys
    ensures ConcatVals(kvs + [kv]) == ConcatVals(kvs) + kv.vals
    ensures ConcatLens(kvs + [kv]) == ConcatLens(kvs) + kv.lens
  {
  }

  /** The slices of the first ranges together are a prefix of what was sent. */
  ghost predicate PrefixSent(send: KV, kvs: seq<KV>, p: int) {
    && 0 <= p <= |send.keys| && ConcatKeys(kvs) == send.keys[..p]
    && (send.lens == [] || |send.lens| == |send.keys|)
    && 0 <= Off(send, p) <= |send.vals| && ConcatVals(kvs) == send.vals[..Off(send, p)]
    && ConcatLens(kvs) == if send.lens == [] then [] else send.lens[..p]
  }

  lemma PrefixGrows(send: KV, kvs: seq<KV>, p: int, q: int, kv: KV)
    requires PrefixSent(send, kvs, p) && p <= q <= |send.keys| && Off(send, p) <= Off(send, q) <= |send.vals|
    requires kv == KV(send.keys[p..q], send.vals[Off(send, p)..Off(send, q)], if send.lens == [] then [] else send.lens[p..q])
    ensures PrefixSent(send, kvs + [kv], q)
  {
    hide Off, ConcatKeys, ConcatVals, ConcatLens;
    ConcatAppend(kvs, kv);
    Join(send.keys, p, q);
    Join(send.vals, Off(send, p), Off(send, q));
    if send.lens != [] { Join(send.lens, p, q); }
  }

  lemma Join(xs: seq<int>, p: int, q: int)
    requires 0 <= p <= q <= |xs|
    ensures xs[..p] + xs[p..q] == xs[..q]
  {
  }

  lemma PrefixStart(send: KV)
    requires send.lens == [] || |send.lens| == |send.keys|
    ensures PrefixSent(send, [], 0)
  {
  }

  lemma OffZero(send: KV)
    ensures Off(send, 0) == 0
  {
  }

  lemma SentStep(slices: seq<Slice>, i: int)
    requires 0 <= i < |slices|
    ensures SentOf(slices[..i + 1]) == SentOf(slices[..i]) + if slices[i].sent then [slices[i].kv] else []
  {
    assert slices[..i + 1][..i] == slices[..i];
  }

  lemma PrefixStep(send: KV, pos: seq<int>, i: int, sl: Slice, kvs: seq<KV>)
    requires 0 <= i < |pos| - 1 && pos[0] == 0 && SliceOk(send, pos, i, sl) && PrefixSent(send, kvs, pos[i])
    ensures PrefixSent(send, kvs + if sl.sent then [sl.kv] else [], pos[i + 1])
  {
    hide Off, PrefixSent;
    OffZero(send);
    if sl.sent {
      PrefixGrows(send, kvs, pos[i], pos[i + 1], sl.kv);
    } else {
      assert kvs + [] == kvs;
    }
  }

  lemma {:induction false} PrefixOfSlices(send: KV, pos: seq<int>, slices: seq<Slice>, i: int)
    requires Monotone(pos, |send.keys|) && |slices| == |pos| - 1 && SlicesOk(send, pos, slices) && pos[0] == 0
    requires send.lens == [] || |send.lens| == |send.keys|
    requires 0 <= i < |pos|
    ensures PrefixSent(send, SentOf(slices[..i]), pos[i])
  {
    hide Off, PrefixSent, SliceOk, Monotone;
    if i == 0 {
      PrefixStart(send);
      assert slices[..0] == [] && SentOf([]) == [];
    } else {
      PrefixOfSlices(send, pos, slices, i - 1);
      var sl := slices[i - 1];
      SentStep(slices, i - 1);
      PrefixStep(send, pos, i - 1, sl, SentOf(slices[..i - 1]));
    }
  }

  ghost predicate NonEmpty(kvs: seq<KV>) {
    forall a {:trigger kvs[a]} :: 0 <= a < |kvs| ==> kvs[a].keys != []
  }

  ghost predicate StrictFronts(kvs: seq<KV>) {
    && NonEmpty(kvs)
    && forall a, b {:trigger kvs[a], kvs[b]} :: 0 <= a < b < |kvs| ==> kvs[a].keys[0] < kvs[b].keys[0]
  }

  ghost predicate SortedFronts(kvs: seq<KV>) {
    && NonEmpty(kvs)
    && forall a, b {:trigger kvs[a], kvs[b]} :: 0 <= a < b < |kvs| ==> kvs[a].keys[0] <= kvs[b].keys[0]
  }

  lemma {:induction false} FrontsOfSlices(send: KV, pos: seq<int>, slices: seq<Slice>, i: int)
    requires Increasing(send.keys) && Monotone(pos, |send.keys|) && |slices| == |pos| - 1 && SlicesOk(send, pos, slices)
    requires 0 <= i < |pos|
    ensures StrictFronts(SentOf(slices[..i]))
    ensures pos[i] < |send.keys| ==>
      forall a {:trigger SentOf(slices[..i])[a]} :: 0 <= a < |SentOf(slices[..i])| ==>
        SentOf(slices[..i])[a].keys != [] && SentOf(slices[..i])[a].keys[0] < send.keys[pos[i]]
  {
    hide Off, Base;
    if i == 0 {
      assert SentOf(slices[..0]) == [];
    } else {
      FrontsOfSlices(send, pos, slices, i - 1);
      assert slices[..i][..i - 1] == slices[..i - 1] && Steps(pos, i - 1);
      assert SliceOk(send, pos, i - 1, slices[i - 1]);
      if slices[i - 1].sent {
        FrontsGrow(SentOf(slices[..i - 1]), slices[i - 1].kv);
      } else {
        assert SentOf(slices[..i]) == SentOf(slices[..i - 1]);
      }
    }
  }

  lemma FrontsGrow(kvs: seq<KV>, kv: KV)
    requires StrictFronts(kvs) && kv.keys != []
    requires forall a {:trigger kvs[a]} :: 0 <= a < |kvs| ==> kvs[a].keys != [] && kvs[a].keys[0] < kv.keys[0]
    ensures StrictFronts(kvs + [kv])
  {
  }

  lemma SplitHead(kvs: seq<KV>)
    requires kvs != []
    ensures multiset(kvs) == multiset{kvs[0]} + multiset(kvs[1..])
  {
    assert kvs == [kvs[0]] + kvs[1..];
  }

  lemma HeadsEqual(a: seq<KV>, b: seq<KV>)
    requires StrictFronts(a) && SortedFronts(b) && multiset(a) == multiset(b) && a != [] && b != []
    ensures a[0] == b[0]
  {
    assert a[0] in multiset(b) && b[0] in multiset(a);
    var i :| 0 <= i < |b| && b[i] == a[0];
    var j :| 0 <= j < |a| && a[j] == b[0];
    FrontOrder(a, b, j, i);
  }

  lemma FrontOrder(a: seq<KV>, b: seq<KV>, j: int, i: int)
    requires StrictFronts(a) && SortedFronts(b) && 0 <= j < |a| && 0 <= i < |b|
    ensures b[0].keys[0] <= b[i].keys[0] && (j == 0 || a[0].keys[0] < a[j].keys[0])
  {
  }

  lemma Cancel(x: KV, a: multiset<KV>, b: multiset<KV>)
    requires multiset{x} + a == multiset{x} + b
    ensures a == b
  {
    forall y ensures a[y] == b[y] {
      assert (multiset{x} + a)[y] == (multiset{x} + b)[y];
    }
  }

  /** Sorting by first key restores the one order in which first keys increase. */
  lemma {:induction false} OnlySortedOrder(a: seq<KV>, b: seq<KV>)
    requires StrictFronts(a) && SortedFronts(b) && multiset(a) == multiset(b)
    ensures a == b
    decreases |a|
  {
    hide StrictFronts, SortedFronts;
    assert |a| == |multiset(a)| == |multiset(b)| == |b|;
    if a != [] {
      HeadsEqual(a, b);
      SplitHead(a);
      SplitHead(b);
      TailsSorted(a, b);
      Cancel(a[0], multiset(a[1..]), multiset(b[1..]));
      OnlySortedOrder(a[1..], b[1..]);
      assert a == [a[0]] + a[1..] && b == [b[0]] + b[1..];
    }
  }

  lemma TailsSorted(a: seq<KV>, b: seq<KV>)
    requires StrictFronts(a) && SortedFronts(b) && a != [] && b != []
    ensures StrictFronts(a[1..]) && SortedFronts(b[1..])
  {
  }

  /** The number of keys below `x`. */
  ghost function Lower(keys: seq<int>, x: int): (p: int)
    requires Increasing(keys)
    ensures SplitsAt(keys, p, x)
  {
    if keys == [] || keys[|keys| - 1] < x then |keys| else Lower(keys[..|keys| - 1], x)
  }

  lemma LowerIs(keys: seq<int>, p: int, x: int)
    requires Increasing(keys) && SplitsAt(keys, p, x)
    ensures Lower(keys, x) == p
  {
  }

  /** The next key, in 64-bit arithmetic. */
  function KeyAfter(key: int): int {
    (key + 1) % 0x1_0000_0000_0000_0000
  }

  ghost function RangeSize(keys: seq<int>, lower: int, upper: int): int
    requires Increasing(keys)
  {
    if upper <= lower then 0 else Lower(keys, upper) - Lower(keys, lower)
  }

  method FindRange(keys: seq<int>, lower: int, upper: int) returns (r: Range)
    requires Increasing(keys)
    ensures r.end - r.begin == RangeSize(keys, lower, upper)
    ensures if upper > lower then SplitsAt(keys, r.begin, lower) && SplitsAt(keys, r.end, upper) else r == Range(0, 0)
  {
    if upper <= lower {
      return Range(0, 0);
    }
    var lb := LowerBound(keys, 0, lower);
    var ub := LowerBound(keys, 0, upper);
    LowerIs(keys, lb, lower);
    LowerIs(keys, ub, upper);
    r := Range(lb, ub);
  }

  /** An answer covers as many keys as the request has between its first and last. */
  ghost predicate Matches(keys: seq<int>, s: KV)
    requires Increasing(keys) && s.keys != []
  {
    RangeSize(keys, s.keys[0], KeyAfter(s.keys[|s.keys| - 1])) == |s.keys|
  }

  /** The places of the keys from `lower` to `upper`. */
  ghost function Between(keys: seq<int>, lower: int, upper: int): set<int> {
    set j | 0 <= j < |keys| && lower <= keys[j] <= upper
  }

  lemma {:induction false} IntervalSize(a: int, b: int, s: set<int>)
    requires a <= b && forall j {:trigger j in s} :: j in s <==> a <= j < b
    ensures |s| == b - a
    decreases b - a
  {
    if a < b {
      IntervalSize(a, b - 1, s - {b - 1});
    } else {
      assert (forall j :: j !in s) ==> s == {};
    }
  }

  /**
   So an answer passes exactly when it has as many keys as the request has from its first
   key to its last; one that ends with the largest 64-bit number never does.
   */
  lemma MatchesIff(keys: seq<int>, s: KV)
    requires Increasing(keys) && s.keys != []
    requires 0 <= s.keys[0] <= s.keys[|s.keys| - 1] <= 0xffff_ffff_ffff_ffff
    ensures Matches(keys, s) <==>
            s.keys[|s.keys| - 1] != 0xffff_ffff_ffff_ffff
            && |Between(keys, s.keys[0], s.keys[|s.keys| - 1])| == |s.keys|
  {
    var lo, hi := s.keys[0], s.keys[|s.keys| - 1];
    if hi != 0xffff_ffff_ffff_ffff {
      assert KeyAfter(hi) == hi + 1;
      var p, q := Lower(keys, lo), Lower(keys, hi + 1);
      assert SplitsAt(keys, p, lo) && SplitsAt(keys, q, hi + 1);
      SplitsMonotone(keys, p, lo, q, hi + 1);
      forall j ensures j in Between(keys, lo, hi) <==> p <= j < q {
        if 0 <= j < |keys| { SplitsDecide(keys, p, lo, j); SplitsDecide(keys, q, hi + 1, j); }
      }
      IntervalSize(p, q, Between(keys, lo, hi));
    } else {
      assert KeyAfter(hi) == 0;
    }
  }

  lemma SplitsDecide(keys: seq<int>, p: int, x: int, j: int)
    requires SplitsAt(keys, p, x) && 0 <= j < |keys|
    ensures j < p <==> keys[j] < x
  {
  }

  ghost predicate Checked(keys: seq<int>, kvs: seq<KV>, withLens: bool)
    requires Increasing(keys) && NonEmpty(kvs)
  {
    forall a {:trigger kvs[a]} :: 0 <= a < |kvs| ==>
      Matches(keys, kvs[a]) && (withLens ==> |kvs[a].lens| == |kvs[a].keys|)
  }

  /** Returns whether all answers match, and the total numbers of keys and values. */
  method CheckAnswers(keys: seq<int>, kvs: seq<KV>, withLens: bool) returns (ok: bool, totalKey: int, totalVal: int)
    requires Increasing(keys) && NonEmpty(kvs)
    ensures ok <==> Checked(keys, kvs, withLens)
    ensures ok ==> totalKey == |ConcatKeys(kvs)| && totalVal == |ConcatVals(kvs)|
  {
    hide RangeSize, KeyAfter, Increasing, SplitsAt, ConcatKeys, ConcatVals, ConcatLens;
    ok, totalKey, totalVal := true, 0, 0;
    ConcatNothing();
    for i := 0 to |kvs|
      invariant forall a {:trigger kvs[a]} :: 0 <= a < i ==>
        Matches(keys, kvs[a]) && (withLens ==> |kvs[a].lens| == |kvs[a].keys|)
      invariant totalKey == |ConcatKeys(kvs[..i])| && totalVal == |ConcatVals(kvs[..i])|
    {
      var s := kvs[i];
      assert s.keys != [];
      var range := FindRange(keys, s.keys[0], KeyAfter(s.keys[|s.keys| - 1]));
      if range.end - range.begin != |s.keys| || (withLens && |s.lens| != |s.keys|) {
        return false, 0, 0;
      }
      assert kvs[..i + 1] == kvs[..i] + [s];
      ConcatAppend(kvs[..i], s);
      totalKey, totalVal := totalKey + |s.keys|, totalVal + |s.vals|;
    }
    assert kvs[..|kvs|] == kvs;
  }

  lemma {:induction false} ConcatSplit(a: seq<KV>, b: seq<KV>)
    ensures ConcatKeys(a + b) == ConcatKeys(a) + ConcatKeys(b)
    ensures ConcatVals(a + b) == ConcatVals(a) + ConcatVals(b)
    ensures ConcatLens(a + b) == ConcatLens(a) + ConcatLens(b)
  {
    hide ConcatKeys, ConcatVals, ConcatLens;
    if b == [] {
      assert a + b == a;
      ConcatNothing();
    } else {
      var c, last := b[..|b| - 1], b[|b| - 1];
      ConcatSplit(a, c);
      assert b == c + [last] && a + b == (a + c) + [last];
      ConcatAppend(c, last);
      ConcatAppend(a + c, last);
    }
  }

  ghost predicate SameTotals(a: seq<KV>, b: seq<KV>) {
    |ConcatKeys(a)| == |ConcatKeys(b)| && |ConcatVals(a)| == |ConcatVals(b)| && |ConcatLens(a)| == |ConcatLens(b)|
  }

  ghost function Without(kvs: seq<KV>, i: int): seq<KV>
    requires 0 <= i < |kvs|
  {
    kvs[..i] + kvs[i + 1..]
  }

  lemma TotalsWithout(kvs: seq<KV>, i: int)
    requires 0 <= i < |kvs|
    ensures |ConcatKeys(kvs)| == |ConcatKeys(Without(kvs, i))| + |kvs[i].keys|
    ensures |ConcatVals(kvs)| == |ConcatVals(Without(kvs, i))| + |kvs[i].vals|
    ensures |ConcatLens(kvs)| == |ConcatLens(Without(kvs, i))| + |kvs[i].lens|
  {
    hide ConcatKeys, ConcatVals, ConcatLens;
    assert kvs == kvs[..i] + [kvs[i]] + kvs[i + 1..];
    ConcatAppend(kvs[..i], kvs[i]);
    ConcatSplit(kvs[..i] + [kvs[i]], kvs[i + 1..]);
    ConcatSplit(kvs[..i], kvs[i + 1..]);
  }

  lemma MembersWithout(kvs: seq<KV>, i: int)
    requires 0 <= i < |kvs|
    ensures multiset(kvs) == multiset{kvs[i]} + multiset(Without(kvs, i))
  {
    assert kvs == kvs[..i] + [kvs[i]] + kvs[i + 1..];
  }

  /** The totals do not depend on the order of arrival. */
  lemma {:induction false} PermutationTotals(a: seq<KV>, b: seq<KV>)
    requires multiset(a) == multiset(b)
    ensures SameTotals(a, b)
    decreases |a|
  {
    hide ConcatKeys, ConcatVals, ConcatLens;
    assert |a| == |multiset(a)| == |multiset(b)| == |b|;
    if a == [] {
      assert b == [];
    } else {
      assert a[0] in multiset(b);
      var i :| 0 <= i < |b| && b[i] == a[0];
      MembersWithout(a, 0);
      MembersWithout(b, i);
      Cancel(a[0], multiset(Without(a, 0)), multiset(Without(b, i)));
      PermutationTotals(Without(a, 0), Without(b, i));
      TotalsWithout(a, 0);
      TotalsWithout(b, i);
    }
  }

  /** Some order in which first keys do not decrease, as std::sort leaves it. */
  method SortByFront(kvs: seq<KV>) returns (order: seq<KV>)
    requires NonEmpty(kvs)
    ensures multiset(order) == multiset(kvs) && SortedFronts(order)
  {
    order := [];
    for i := 0 to |kvs|
      invariant multiset(order) == multiset(kvs[..i]) && SortedFronts(order)
    {
      order := InsertByFront(order, kvs[i]);
      assert kvs[..i + 1] == kvs[..i] + [kvs[i]];
    }
    assert kvs[..|kvs|] == kvs;
  }

  method InsertByFront(order: seq<KV>, kv: KV) returns (r: seq<KV>)
    requires SortedFronts(order) && kv.keys != []
    ensures multiset(r) == multiset(order) + multiset{kv} && SortedFronts(r)
  {
    var p := |order|;
    while p > 0 && kv.keys[0] < order[p - 1].keys[0]
      invariant 0 <= p <= |order|
      invariant p < |order| ==> kv.keys[0] < order[p].keys[0]
    {
      p := p - 1;
    }
    r := order[..p] + [kv] + order[p..];
    InsertSorted(order, p, kv);
    InsertMultiset(order, p, kv);
  }

  lemma InsertMultiset(order: seq<KV>, p: int, kv: KV)
    requires 0 <= p <= |order|
    ensures multiset(order[..p] + [kv] + order[p..]) == multiset(order) + multiset{kv}
  {
    assert order == order[..p] + order[p..];
  }

  lemma InsertSorted(order: seq<KV>, p: int, kv: KV)
    requires SortedFronts(order) && kv.keys != [] && 0 <= p <= |order|
    requires p > 0 ==> order[p - 1].keys[0] <= kv.keys[0]
    requires p < |order| ==> kv.keys[0] < order[p].keys[0]
    ensures SortedFronts(order[..p] + [kv] + order[p..])
  {
  }

  lemma {:induction false} LensMatchKeys(keys: seq<int>, kvs: seq<KV>)
    requires Increasing(keys) && NonEmpty(kvs) && Checked(keys, kvs, true)
    ensures |ConcatLens(kvs)| == |ConcatKeys(kvs)|
  {
    hide Increasing, Matches;
    if kvs != [] {
      var init, last := kvs[..|kvs| - 1], kvs[|kvs| - 1];
      LensMatchKeys(keys, init);
      assert |last.lens| == |last.keys|;
    }
  }

  /** The copy loop: each answer goes right behind the one before. */
  method CopyOut(order: seq<KV>, vals: seq<int>, lens: seq<int>, withLens: bool) returns (v: seq<int>, l: seq<int>)
    requires |ConcatVals(order)| <= |vals| && (withLens ==> |ConcatLens(order)| <= |lens|)
    ensures v == ConcatVals(order) + vals[|ConcatVals(order)|..]
    ensures l == if withLens then ConcatLens(order) + lens[|ConcatLens(order)|..] else lens
  {
    hide ConcatKeys, ConcatVals, ConcatLens;
    v, l := vals, lens;
    var pv, pl := 0, 0;
    ConcatNothing();
    for i := 0 to |order|
      invariant pv == |ConcatVals(order[..i])| <= |vals| && v == ConcatVals(order[..i]) + vals[pv..]
      invariant withLens ==> pl == |ConcatLens(order[..i])| <= |lens| && l == ConcatLens(order[..i]) + lens[pl..]
      invariant !withLens ==> l == lens
    {
      var s := order[i];
      assert order[..i + 1] == order[..i] + [s] && order == order[..i + 1] + order[i + 1..];
      ConcatAppend(order[..i], s);
      ConcatSplit(order[..i + 1], order[i + 1..]);
      v := v[..pv] + s.vals + v[pv + |s.vals|..];
      pv := pv + |s.vals|;
      if withLens {
        l := l[..pl] + s.lens + l[pl + |s.lens|..];
        pl := pl + |s.lens|;
      }
    }
    assert order[..|order|] == order;
  }

  lemma ConcatNothing()
    ensures ConcatKeys([]) == ConcatVals([]) == ConcatLens([]) == []
  {
  }

  datatype Pulled = Pulled(vals: seq<int>, lens: seq<int>)

  /**
   The callback of Pull_: check the answers, sort them and copy values and lengths
   into the caller's buffers, which are sized here when empty.  With zero-copy pulls the
   values are there already and nothing is copied.  `order` is the sorted list.
   */
  method Collect(keys: seq<int>, kvs: seq<KV>, vals: seq<int>, lens: seq<int>, withLens: bool, zeroCopy: bool)
    returns (r: Result<Pulled>, ghost order: seq<KV>)
    requires Increasing(keys) && NonEmpty(kvs)
    ensures multiset(order) == multiset(kvs) && SortedFronts(order)
    ensures r.Ok? <==>
      && Checked(keys, kvs, withLens) && |ConcatKeys(kvs)| == |keys|
      && (vals == [] || |ConcatVals(kvs)| <= |vals|)
      && (withLens && !zeroCopy && lens != [] ==> |lens| == |keys|)
    ensures r.Ok? ==> |ConcatVals(order)| == |ConcatVals(kvs)|
    ensures r.Ok? && !zeroCopy ==> r.value.vals == ConcatVals(order) + if vals == [] then [] else vals[|ConcatVals(order)|..]
    ensures r.Ok? && withLens && !zeroCopy ==> r.value.lens == ConcatLens(order)
    ensures r.Ok? && (!withLens || zeroCopy) ==> r.value.lens == lens
    ensures r.Ok? && zeroCopy ==> if vals == [] then |r.value.vals| == |ConcatVals(order)| else r.value.vals == vals
  {
    hide Increasing, ConcatKeys, ConcatVals, ConcatLens;
    var ok, totalKey, totalVal := CheckAnswers(keys, kvs, withLens);
    var sorted := SortByFront(kvs);
    order := sorted;
    PermutationTotals(sorted, kvs);
    if !ok || totalKey != |keys| {
      return Err, order;
    }
    if vals != [] && |vals| < totalVal {
      return Err, order;
    }
    var outVals := if vals == [] then seq(totalVal, i => 0) else vals;
    if zeroCopy {
      return Ok(Pulled(outVals, lens)), order;
    }
    if withLens && lens != [] && |lens| != |keys| {
      return Err, order;
    }
    if withLens { LensMatchKeys(keys, kvs); }
    var outLens := if withLens && lens == [] then seq(|keys|, i => 0) else lens;
    outVals, outLens := CopyOut(sorted, outVals, outLens, withLens);
    assert |ConcatLens(order)| <= |outLens| || !withLens;
    r := Ok(Pulled(outVals, outLens));
  }

  // ----- Slicing and putting together again

  lemma SegmentMatches(keys: seq<int>, p: int, q: int, kv: KV)
    requires Increasing(keys) && 0 <= p < q <= |keys| && kv.keys == keys[p..q] && 0 <= keys[q - 1] < MAX_KEY
    ensures Matches(keys, kv)
  {
    LowerIs(keys, p, keys[p]);
    LowerIs(keys, q, keys[q - 1] + 1);
    assert keys[p] <= keys[q - 1];
  }

  ghost predicate KeysOk(keys: seq<int>) {
    forall j {:trigger keys[j]} :: 0 <= j < |keys| ==> 0 <= keys[j] < MAX_KEY
  }

  lemma {:induction false} SlicesChecked(send: KV, pos: seq<int>, slices: seq<Slice>, i: int)
    requires Increasing(send.keys) && KeysOk(send.keys)
    requires Monotone(pos, |send.keys|) && |slices| == |pos| - 1 && SlicesOk(send, pos, slices) && 0 <= i < |pos|
    ensures NonEmpty(SentOf(slices[..i])) && Checked(send.keys, SentOf(slices[..i]), send.lens != [])
  {
    hide Off, Base, Increasing, Matches;
    if i == 0 {
      assert SentOf(slices[..0]) == [];
    } else {
      SlicesChecked(send, pos, slices, i - 1);
      var sl := slices[i - 1];
      assert slices[..i][..i - 1] == slices[..i - 1] && Steps(pos, i - 1);
      assert SliceOk(send, pos, i - 1, sl);
      if sl.sent {
        assert 0 <= send.keys[pos[i] - 1] < MAX_KEY;
        SegmentMatches(send.keys, pos[i - 1], pos[i], sl.kv);
        CheckedGrows(send.keys, SentOf(slices[..i - 1]), sl.kv, send.lens != []);
      } else {
        assert SentOf(slices[..i]) == SentOf(slices[..i - 1]);
      }
    }
  }

  lemma CheckedGrows(keys: seq<int>, kvs: seq<KV>, kv: KV, withLens: bool)
    requires Increasing(keys) && NonEmpty(kvs) && Checked(keys, kvs, withLens)
    requires kv.keys != [] && Matches(keys, kv) && (withLens ==> |kv.lens| == |kv.keys|)
    ensures NonEmpty(kvs + [kv]) && Checked(keys, kvs + [kv], withLens)
  {
  }

  lemma SameMembers(keys: seq<int>, a: seq<KV>, b: seq<KV>, withLens: bool)
    requires Increasing(keys) && multiset(a) == multiset(b) && NonEmpty(a) && Checked(keys, a, withLens)
    ensures NonEmpty(b) && Checked(keys, b, withLens)
  {
    hide Increasing, Matches;
    forall i | 0 <= i < |b| ensures b[i].keys != [] && Matches(keys, b[i]) && (withLens ==> |b[i].lens| == |b[i].keys|) {
      assert b[i] in multiset(b) && b[i] in multiset(a);
      var j :| 0 <= j < |a| && a[j] == b[i];
    }
  }

  /** All values belong to some key. */
  ghost predicate Exact(send: KV)
    requires send.lens == [] || |send.lens| == |send.keys|
  {
    Off(send, |send.keys|) == |send.vals|
  }

  lemma {:induction false} NothingSent(send: KV, pos: seq<int>, slices: seq<Slice>, i: int)
    requires send.keys == [] && Monotone(pos, 0) && SlicesOk(send, pos, slices) && 0 <= i <= |slices|
    ensures SentOf(slices[..i]) == [] && ConcatKeys([]) == []
  {
    if i > 0 {
      NothingSent(send, pos, slices, i - 1);
      assert SliceOk(send, pos, i - 1, slices[i - 1]) && slices[..i][..i - 1] == slices[..i - 1];
    }
  }

  /** Whatever order the slices come back in, they pass the checks. */
  lemma AnswersPass(send: KV, ranges: seq<Range>, pos: seq<int>, slices: seq<Slice>, arrived: seq<KV>)
    requires Increasing(send.keys) && KeysOk(send.keys) && Inside(send.keys, ranges)
    requires Positions(send.keys, ranges, pos) && Monotone(pos, |send.keys|) && |pos| == |ranges| + 1
    requires send.lens == [] || |send.lens| == |send.keys| || send.keys == []
    requires |slices| == |ranges| && SlicesOk(send, pos, slices)
    requires multiset(arrived) == multiset(SentOf(slices))
    ensures NonEmpty(arrived) && Checked(send.keys, arrived, send.lens != []) && |ConcatKeys(arrived)| == |send.keys|
  {
    hide Increasing, Positions, SlicesOk, Checked, NonEmpty, ConcatVals, ConcatKeys, ConcatLens;
    var n := |ranges|;
    assert slices[..n] == slices && pos[n] == |send.keys|;
    InsideStartsAtZero(send.keys, ranges, pos);
    if send.keys == [] {
      NothingSent(send, pos, slices, n);
    } else {
      PrefixOfSlices(send, pos, slices, n);
    }
    SlicesChecked(send, pos, slices, n);
    SameMembers(send.keys, SentOf(slices), arrived, send.lens != []);
    PermutationTotals(arrived, SentOf(slices));
  }

  /**
   For keys inside the ranges: whatever order the slices come back in, they pass the
   checks, and sorting them by first key and concatenating gives back the lengths, and
   gives back the values exactly when every value belongs to some key.
   */
  lemma SliceThenCollect(send: KV, ranges: seq<Range>, pos: seq<int>, slices: seq<Slice>, arrived: seq<KV>, order: seq<KV>)
    requires Increasing(send.keys) && KeysOk(send.keys) && Inside(send.keys, ranges)
    requires send.lens == [] || |send.lens| == |send.keys|
    requires Positions(send.keys, ranges, pos) && Monotone(pos, |send.keys|) && |pos| == |ranges| + 1
    requires |slices| == |ranges| && SlicesOk(send, pos, slices)
    requires multiset(arrived) == multiset(SentOf(slices))
    requires multiset(order) == multiset(arrived) && SortedFronts(order)
    ensures NonEmpty(arrived) && Checked(send.keys, arrived, send.lens != []) && |ConcatKeys(arrived)| == |send.keys|
    ensures order == SentOf(slices) && ConcatLens(order) == send.lens
    ensures ConcatVals(order) == send.vals <==> Exact(send)
  {
    hide Increasing, Positions, SlicesOk, Checked, SortedFronts, StrictFronts, NonEmpty, ConcatVals, ConcatKeys, ConcatLens;
    var n := |ranges|;
    assert slices[..n] == slices && pos[n] == |send.keys|;
    InsideStartsAtZero(send.keys, ranges, pos);
    PrefixOfSlices(send, pos, slices, n);
    FrontsOfSlices(send, pos, slices, n);
    SlicesChecked(send, pos, slices, n);
    SameMembers(send.keys, SentOf(slices), arrived, send.lens != []);
    OnlySortedOrder(SentOf(slices), order);
    PermutationTotals(arrived, order);
    WholePrefixes(send);
  }

  lemma WholePrefixes(send: KV)
    requires send.lens == [] || |send.lens| == |send.keys|
    ensures send.vals[..|send.vals|] == send.vals && send.keys[..|send.keys|] == send.keys
    ensures send.lens != [] ==> send.lens[..|send.keys|] == send.lens
  {
  }

  lemma FitsLens(send: KV)
    requires Fits(send, 0)
    ensures send.lens == [] || |send.lens| == |send.keys| || send.keys == []
  {
  }

  /** The answers of the servers that were sent something, in the order `pick` makes of them. */
  method Answers(slices: seq<Slice>, pick: nat -> nat) returns (arrived: seq<KV>)
    ensures multiset(arrived) == multiset(SentOf(slices))
  {
    var rest := [];
    for i := 0 to |slices|
      invariant rest == SentOf(slices[..i])
    {
      assert slices[..i + 1][..i] == slices[..i];
      if slices[i].sent {
        rest := rest + [slices[i].kv];
      }
    }
    assert slices[..|slices|] == slices;
    arrived := [];
    while rest != []
      invariant multiset(arrived) + multiset(rest) == multiset(SentOf(slices))
      decreases |rest|
    {
      var i := pick(|rest|) % |rest|;
      assert rest == rest[..i] + [rest[i]] + rest[i + 1..];
      arrived, rest := arrived + [rest[i]], rest[..i] + rest[i + 1..];
    }
  }

  /**
   The whole way: cut what is sent, let the servers answer in any order with what they
   got, and collect the answers.  Keys inside the ranges come back, or the caller is
   told, exactly when the ranges follow each other and the lengths fit.
   */
  method SendAndCollect(send: KV, ranges: seq<Range>, pick: nat -> nat) returns (r: Result<Pulled>)
    requires Increasing(send.keys) && KeysOk(send.keys) && LensOk(send)
    requires Ordered(ranges) && Inside(send.keys, ranges)
    ensures r.Ok? <==> Contiguous(ranges) && Fits(send, 0)
    ensures r.Ok? && (send.lens == [] || |send.lens| == |send.keys|) ==>
      r.value.lens == send.lens && (r.value.vals == send.vals <==> Exact(send))
  {
    hide Increasing, KeysOk, Contiguous, Positions, SlicesOk, Fits, Exact, Checked, ConcatKeys, ConcatVals, ConcatLens, SentOf,
      SortedFronts, NonEmpty, Monotone, LensOk;
    assert BelowEnd(send.keys, ranges);
    var cut, pos := DefaultSlicer(send, ranges);
    if cut.Err? {
      if Contiguous(ranges) { InsideStartsAtZero(send.keys, ranges, pos); }
      return Err;
    }
    InsideStartsAtZero(send.keys, ranges, pos);
    assert send.lens == [] || |send.lens| == |send.keys| || send.keys == [] by { FitsLens(send); }
    var arrived := Answers(cut.value, pick);
    AnswersPass(send, ranges, pos, cut.value, arrived);
    ghost var order;
    r, order := Collect(send.keys, arrived, [], [], send.lens != [], false);
    if send.lens == [] || |send.lens| == |send.keys| {
      SliceThenCollect(send, ranges, pos, cut.value, arrived, order);
    }
  }
}
