/**
 Batch reassembly in AFTensorServer.  A worker sends a batch as a START message,
 MIDDLE messages and an END message with consecutive timestamps; messages of
 several batches, also of one sender, may interleave.  The handler keeps the
 newest open batch of each sender in `batch_data` and the displaced ones in a
 reorder buffer.
 */
module BatchServer {
  import opened Finite
  import NodeIds
  import opened Wrappers

  const START: int := 1
  const MIDDLE: int := 2
  const END: int := 3

  /** A key/value request together with the tensor built from it. */
  datatype Request = Request(cmd: int, push: bool, sender: int, timestamp: int, key: int, body: int)

  /** AFTensorMeta: what has been collected of a batch. */
  datatype Meta = Meta(sender: int, rank: int, single: bool, last: int, pushes: seq<Request>, pulls: seq<Request>)

  function Add(meta: Meta, r: Request): Meta {
    if r.push then meta.(last := r.timestamp, pushes := meta.pushes + [r])
    else meta.(last := r.timestamp, pulls := meta.pulls + [r])
  }

  /** `handled` lists the calls of the request handle, `answered` the early push responses. */
  datatype State = State(
    open: map<int, Option<Meta>>, side: seq<Meta>, handled: seq<Meta>, answered: seq<Request>)

  function OpenOf(st: State, s: int): Option<Meta> {
    if s in st.open then st.open[s] else None
  }

  /** The first displaced batch that `r` continues, or the length of the buffer. */
  function Continues(side: seq<Meta>, r: Request): (i: nat)
    ensures i <= |side|
    ensures i < |side| ==> side[i].sender == r.sender && r.timestamp == side[i].last + 1
    ensures forall j :: 0 <= j < i ==> !(side[j].sender == r.sender && r.timestamp == side[j].last + 1)
  {
    if side == [] then 0
    else if side[0].sender == r.sender && r.timestamp == side[0].last + 1 then 0
    else 1 + Continues(side[1..], r)
  }

  /** A batch message must start a batch or continue one that is open. */
  predicate Accepts(st: State, r: Request) {
    r.cmd == 0 || r.cmd == START || Continues(st.side, r) < |st.side| || OpenOf(st, r.sender).Some?
  }

  function Fresh(r: Request, single: bool): Meta {
    Meta(r.sender, NodeIds.IDtoRank(r.sender), single, 0, [], [])
  }

  /** KVHandler. */
  function Handle(st: State, r: Request): State
    requires Accepts(st, r)
  {
    if r.cmd == 0 then st.(handled := st.handled + [Add(Fresh(r, true), r)])
    else
      var answered := if r.push then st.answered + [r] else st.answered;
      if r.cmd == START then
        var side := if OpenOf(st, r.sender).Some? then st.side + [OpenOf(st, r.sender).value] else st.side;
        st.(open := st.open[r.sender := Some(Add(Fresh(r, false), r))], side := side, answered := answered)
      else
        var i := Continues(st.side, r);
        if i < |st.side| then
          var meta := Add(st.side[i], r);
          if r.cmd == END then
            st.(side := st.side[..i] + st.side[i + 1..], handled := st.handled + [meta], answered := answered)
          else st.(side := st.side[i := meta], answered := answered)
        else
          var meta := Add(OpenOf(st, r.sender).value, r);
          if r.cmd == END then
            st.(open := st.open[r.sender := None], handled := st.handled + [meta], answered := answered)
          else st.(open := st.open[r.sender := Some(meta)], answered := answered)
  }

  // ----- The handler as the source runs it

  class AFTensorMeta {
    var sender: int
    var senderRank: int
    var single: bool
    var last: int
    var pushes: seq<Request>
    var pulls: seq<Request>

    function Value(): Meta
      reads this
    {
      Meta(sender, senderRank, single, last, pushes, pulls)
    }

    constructor (sender: int, single: bool)
      ensures Value() == Meta(sender, NodeIds.IDtoRank(sender), single, 0, [], [])
    {
      this.sender, senderRank, this.single, last, pushes, pulls := sender, NodeIds.IDtoRank(sender), single, 0, [], [];
    }

    method Append(r: Request)
      modifies this
      ensures Value() == Add(old(Value()), r)
    {
      last := r.timestamp;
      if r.push {
        pushes := pushes + [r];
      } else {
        pulls := pulls + [r];
      }
    }
  }

  class AFTensorServer {
    var batchData: map<int, AFTensorMeta?>
    var reorderBuffer: seq<AFTensorMeta>
    ghost var view: State
    ghost var Repr: set<AFTensorMeta>

    /** The batch kept for sender `s`, if any. */
    ghost predicate BatchOk(s: int)
      reads this, Repr
    {
      if s in batchData && batchData[s] != null then
        && batchData[s] in Repr && batchData[s] !in reorderBuffer
        && batchData[s].sender == s && OpenOf(view, s) == Some(batchData[s].Value())
      else OpenOf(view, s) == None
    }

    ghost predicate BufferOk(i: int)
      requires 0 <= i < |reorderBuffer| == |view.side|
      reads this, Repr
    {
      reorderBuffer[i] in Repr && view.side[i] == reorderBuffer[i].Value()
    }

    ghost predicate Valid()
      reads this, Repr
    {
      && |reorderBuffer| == |view.side|
      && (forall i, j {:trigger reorderBuffer[i], reorderBuffer[j]} ::
            0 <= i < j < |reorderBuffer| ==> reorderBuffer[i] != reorderBuffer[j])
      && (forall i {:trigger BufferOk(i)} :: 0 <= i < |reorderBuffer| ==> BufferOk(i))
      && (forall s {:trigger BatchOk(s)} :: BatchOk(s))
    }

    constructor ()
      ensures Valid() && view == State(map[], [], [], [])
    {
      batchData, reorderBuffer, view, Repr := map[], [], State(map[], [], [], []), {};
    }

    method FindContinued(r: Request) returns (i: nat)
      requires Valid()
      ensures i == Continues(view.side, r)
    {
      i := 0;
      while i < |reorderBuffer|
        invariant i <= |reorderBuffer|
        invariant forall j :: 0 <= j < i ==> !(view.side[j].sender == r.sender && r.timestamp == view.side[j].last + 1)
      {
        assert BufferOk(i);
        if reorderBuffer[i].sender == r.sender {
          if r.timestamp == reorderBuffer[i].last + 1 {
            break;
          }
        }
        i := i + 1;
      }
    }

    method OpenBatch(r: Request) returns (meta: AFTensorMeta)
      requires Valid() && r.cmd == START
      modifies this
      ensures fresh(meta) && Repr == old(Repr) + {meta}
      ensures r.sender in batchData && batchData[r.sender] == meta && meta !in reorderBuffer
      ensures meta.Value() == Fresh(r, false)
      ensures view == Handle(old(view), r)
      ensures |reorderBuffer| == |view.side|
      ensures forall i, j {:trigger reorderBuffer[i], reorderBuffer[j]} ::
            0 <= i < j < |reorderBuffer| ==> reorderBuffer[i] != reorderBuffer[j]
      ensures forall i {:trigger BufferOk(i)} :: 0 <= i < |reorderBuffer| ==> BufferOk(i)
      ensures forall s {:trigger BatchOk(s)} :: s != r.sender ==> BatchOk(s)
    {
      assert BatchOk(r.sender);
      meta := new AFTensorMeta(r.sender, false);
      view := Handle(view, r);
      forall i | 0 <= i < |reorderBuffer| ensures reorderBuffer[i] in Repr && reorderBuffer[i].Value() == old(view.side[i]) {
        assert old(BufferOk(i));
      }
      if r.sender in batchData && batchData[r.sender] != null {
        reorderBuffer := reorderBuffer + [batchData[r.sender]];
      }
      batchData := batchData[r.sender := meta];
      Repr := Repr + {meta};
      forall s | s != r.sender ensures BatchOk(s) {
        assert old(BatchOk(s));
        assert OpenOf(view, s) == OpenOf(old(view), s);
      }
    }

    /** Where a displaced batch stands in the buffer, compared by reference. */
    method IndexOf(meta: AFTensorMeta, ghost i: nat) returns (k: nat)
      requires i < |reorderBuffer| && reorderBuffer[i] == meta
      ensures k <= i && reorderBuffer[k] == meta
    {
      k := 0;
      while reorderBuffer[k] != meta
        invariant k <= i
        decreases i - k
      {
        k := k + 1;
      }
    }

    /** The next message of the displaced batch at `i`. */
    method ContinueDisplaced(r: Request, i: nat) returns (handed: Option<Meta>)
      requires Valid() && r.cmd != 0 && r.cmd != START && i == Continues(view.side, r) < |view.side|
      modifies this, Repr
      ensures Valid() && Repr == old(Repr) && view == Handle(old(view), r)
      ensures view.handled == old(view.handled) + if handed.Some? then [handed.value] else []
    {
      hide Continues, NodeIds.IDtoRank, Fresh, Add;
      assert BufferOk(i);
      var meta := reorderBuffer[i];
      forall j | 0 <= j < |reorderBuffer| ensures reorderBuffer[j] in Repr && (j != i ==> reorderBuffer[j] != meta) {
        assert BufferOk(j);
      }
      forall s ensures s in batchData && batchData[s] != null ==> batchData[s] in Repr && batchData[s] != meta {
        assert BatchOk(s);
      }
      meta.Append(r);
      view, handed := Handle(view, r), None;
      if r.cmd == END {
        handed := Some(meta.Value());
        var k := IndexOf(meta, i);
        reorderBuffer := reorderBuffer[..k] + reorderBuffer[k + 1..];
      }
      forall j | 0 <= j < |reorderBuffer| ensures BufferOk(j) {
        assert old(BufferOk(if r.cmd == END && j >= i then j + 1 else j));
      }
      forall s ensures BatchOk(s) {
        assert old(BatchOk(s)) && OpenOf(view, s) == OpenOf(old(view), s);
      }
    }

    /** The next message of the batch kept for its sender. */
    method ContinueCurrent(r: Request) returns (handed: Option<Meta>)
      requires Valid() && r.cmd != 0 && r.cmd != START && Accepts(view, r) && Continues(view.side, r) == |view.side|
      modifies this, Repr
      ensures Valid() && Repr == old(Repr) && view == Handle(old(view), r)
      ensures view.handled == old(view.handled) + if handed.Some? then [handed.value] else []
    {
      assert BatchOk(r.sender);
      var meta := batchData[r.sender];
      forall j | 0 <= j < |reorderBuffer| ensures reorderBuffer[j] in Repr && reorderBuffer[j] != meta {
        assert BufferOk(j);
      }
      forall s | s in batchData && batchData[s] != null && s != r.sender ensures batchData[s] in Repr && batchData[s] != meta {
        assert BatchOk(s);
      }
      meta.Append(r);
      view, handed := Handle(view, r), None;
      if r.cmd == END {
        handed := Some(meta.Value());
        batchData := batchData[r.sender := null];
      }
      forall j | 0 <= j < |reorderBuffer| ensures BufferOk(j) {
        assert old(BufferOk(j));
      }
      forall s ensures BatchOk(s) {
        assert old(BatchOk(s));
        assert s != r.sender ==> OpenOf(view, s) == OpenOf(old(view), s);
      }
    }

    /** `handed` is what the request handle is called with; a push inside a batch is answered at once. */
    method KVHandler(r: Request) returns (handed: Option<Meta>, answered: bool)
      requires Valid() && Accepts(view, r)
      modifies this, Repr
      ensures Valid() && fresh(Repr - old(Repr)) && view == Handle(old(view), r)
      ensures view.handled == old(view.handled) + if handed.Some? then [handed.value] else []
      ensures view.answered == old(view.answered) + if answered then [r] else []
    {
      handed, answered := None, r.cmd != 0 && r.push;
      if r.cmd == 0 {
        var meta := new AFTensorMeta(r.sender, true);
        meta.Append(r);
        handed := Some(meta.Value());
        view := Handle(view, r);
        forall j | 0 <= j < |reorderBuffer| ensures BufferOk(j) {
          assert old(BufferOk(j));
        }
        forall s ensures BatchOk(s) {
          assert old(BatchOk(s)) && OpenOf(view, s) == OpenOf(old(view), s);
        }
      } else if r.cmd == START {
        var meta := OpenBatch(r);
        FillNew(r, meta);
      } else {
        var i := FindContinued(r);
        if i < |reorderBuffer| {
          handed := ContinueDisplaced(r, i);
        } else {
          handed := ContinueCurrent(r);
        }
      }
    }

    /** The START message itself goes into the batch it opened. */
    method FillNew(r: Request, meta: AFTensorMeta)
      requires meta in Repr && meta.Value() == Fresh(r, false) && OpenOf(view, r.sender) == Some(Add(Fresh(r, false), r))
      requires r.sender in batchData && batchData[r.sender] == meta && meta !in reorderBuffer
      requires |reorderBuffer| == |view.side|
      requires forall i, j {:trigger reorderBuffer[i], reorderBuffer[j]} ::
            0 <= i < j < |reorderBuffer| ==> reorderBuffer[i] != reorderBuffer[j]
      requires forall i {:trigger BufferOk(i)} :: 0 <= i < |reorderBuffer| ==> BufferOk(i)
      requires forall s {:trigger BatchOk(s)} :: s != r.sender ==> BatchOk(s)
      modifies meta
      ensures Valid()
    {
      forall s | s in batchData && batchData[s] != null && s != r.sender ensures batchData[s] in Repr && batchData[s] != meta {
        assert BatchOk(s) && OpenOf(view, s).Some?;
      }
      meta.Append(r);
      forall j | 0 <= j < |reorderBuffer| ensures BufferOk(j) {
        assert old(BufferOk(j));
      }
      forall s ensures BatchOk(s) {
        assert s != r.sender ==> old(BatchOk(s));
      }
    }
  }

  // ----- Batches and interleavings

  datatype Item = Item(push: bool, key: int, body: int)

  datatype Batch = Batch(sender: int, start: int, items: seq<Item>)

  /** Message `i` of a batch, flagged as ZBatchPushPull_ flags it. */
  ghost function Msg(b: Batch, i: int): Request
    requires 0 <= i < |b.items|
  {
    Request(if i == 0 then START else if i == |b.items| - 1 then END else MIDDLE,
            b.items[i].push, b.sender, b.start + i, b.items[i].key, b.items[i].body)
  }

  /** What the server knows of a batch after its first `n` messages. */
  ghost function Partial(b: Batch, n: int): Meta
    requires 0 <= n <= |b.items|
  {
    if n == 0 then Meta(b.sender, NodeIds.IDtoRank(b.sender), false, 0, [], []) else Add(Partial(b, n - 1), Msg(b, n - 1))
  }

  /**
   Batches have at least two messages, and for batches of one sender the timestamps
   after the first are disjoint, so a last one may be the first of the next batch.
   */
  ghost predicate Lawful(bs: seq<Batch>) {
    && (forall b :: 0 <= b < |bs| ==> |bs[b].items| >= 2)
    && (forall b, c :: 0 <= b < c < |bs| && bs[b].sender == bs[c].sender ==>
          bs[b].start + |bs[b].items| <= bs[c].start + 1 || bs[c].start + |bs[c].items| <= bs[b].start + 1)
  }

  /** An arrival: the next message of batch `b`, or a single request. */
  datatype Arrival = Part(b: int) | Lone(r: Request)

  /** A call of the request handle: a whole batch or a single request. */
  datatype Call = Whole(b: int) | Alone(r: Request)

  /** Which batches are where, and how many messages of each have arrived. */
  datatype Track = Track(counts: seq<int>, open: map<int, int>, side: seq<int>, calls: seq<Call>)

  ghost function Index(xs: seq<int>, x: int): (i: nat)
    ensures i <= |xs| && (i < |xs| ==> xs[i] == x) && x !in xs[..i]
  {
    if xs == [] || xs[0] == x then 0 else 1 + Index(xs[1..], x)
  }

  ghost predicate Due(bs: seq<Batch>, tr: Track, a: Arrival) {
    match a
    case Part(b) => 0 <= b < |bs| == |tr.counts| && 0 <= tr.counts[b] < |bs[b].items|
    case Lone(r) => r.cmd == 0
  }

  ghost function Advance(bs: seq<Batch>, tr: Track, a: Arrival): Track
    requires Due(bs, tr, a)
  {
    match a
    case Lone(r) => tr.(calls := tr.calls + [Alone(r)])
    case Part(b) =>
      var s, n := bs[b].sender, tr.counts[b] + 1;
      var tr1 := tr.(counts := tr.counts[b := n]);
      if n == 1 then tr1.(open := tr.open[s := b], side := if s in tr.open then tr.side + [tr.open[s]] else tr.side)
      else if n < |bs[b].items| then tr1
      else
        var i := Index(tr.side, b);
        var tr2 := tr1.(calls := tr.calls + [Whole(b)]);
        if i < |tr.side| then tr2.(side := tr.side[..i] + tr.side[i + 1..]) else tr2.(open := tr.open - {s})
  }

  // ----- The invariant

  /** Batch `b` is among those kept. */
  ghost predicate Kept(bs: seq<Batch>, tr: Track, b: int)
    requires 0 <= b < |bs|
  {
    b in tr.side || (bs[b].sender in tr.open && tr.open[bs[b].sender] == b)
  }

  ghost predicate CountOk(bs: seq<Batch>, tr: Track, b: int)
    requires 0 <= b < |bs| == |tr.counts|
  {
    && 0 <= tr.counts[b] <= |bs[b].items|
    && (Kept(bs, tr, b) <==> 0 < tr.counts[b] < |bs[b].items|)
    && (Whole(b) in tr.calls <==> tr.counts[b] == |bs[b].items|)
  }

  ghost predicate OpenOk(bs: seq<Batch>, tr: Track, s: int) {
    s in tr.open ==> 0 <= tr.open[s] < |bs| && bs[tr.open[s]].sender == s && tr.open[s] !in tr.side
  }

  ghost predicate Tracks(bs: seq<Batch>, tr: Track) {
    && Lawful(bs) && |tr.counts| == |bs| && Distinct(tr.side)
    && (forall j {:trigger tr.side[j]} :: 0 <= j < |tr.side| ==> 0 <= tr.side[j] < |bs|)
    && (forall s {:trigger OpenOk(bs, tr, s)} :: OpenOk(bs, tr, s))
    && (forall b {:trigger CountOk(bs, tr, b)} :: 0 <= b < |bs| ==> CountOk(bs, tr, b))
    && (forall i, j {:trigger tr.calls[i], tr.calls[j]} ::
          0 <= i < j < |tr.calls| && tr.calls[i].Whole? ==> tr.calls[i] != tr.calls[j])
    && (forall i {:trigger tr.calls[i]} :: 0 <= i < |tr.calls| && tr.calls[i].Whole? ==> 0 <= tr.calls[i].b < |bs|)
  }

  /** What the server should hold for batch `b`. */
  ghost function Now(bs: seq<Batch>, tr: Track, b: int): Meta
    requires Tracks(bs, tr) && 0 <= b < |bs|
  {
    assert CountOk(bs, tr, b);
    Partial(bs[b], tr.counts[b])
  }

  ghost function CallMeta(bs: seq<Batch>, c: Call): Meta {
    match c
    case Alone(r) => Add(Fresh(r, true), r)
    case Whole(b) => if 0 <= b < |bs| then Partial(bs[b], |bs[b].items|) else Meta(0, 0, false, 0, [], [])
  }

  ghost predicate Mirrors(bs: seq<Batch>, tr: Track, st: State)
    requires Tracks(bs, tr)
  {
    && |st.side| == |tr.side| && |st.handled| == |tr.calls|
    && (forall j {:trigger tr.side[j]} :: 0 <= j < |tr.side| ==> st.side[j] == Now(bs, tr, tr.side[j]))
    && (forall s {:trigger OpenOf(st, s)} ::
          OpenOf(st, s) == if OpenOk(bs, tr, s) && s in tr.open then Some(Now(bs, tr, tr.open[s])) else None)
    && (forall i {:trigger tr.calls[i]} :: 0 <= i < |tr.calls| ==> st.handled[i] == CallMeta(bs, tr.calls[i]))
  }

  lemma {:induction false} PartialFacts(b: Batch, n: int)
    requires 0 <= n <= |b.items|
    ensures Partial(b, n).sender == b.sender && (n > 0 ==> Partial(b, n).last == b.start + n - 1)
  {
    if n > 0 { PartialFacts(b, n - 1); }
  }

  /** Among the displaced batches, only its own is continued by a message. */
  lemma OnlyItsOwn(bs: seq<Batch>, tr: Track, st: State, b: int, j: int)
    requires Tracks(bs, tr) && Mirrors(bs, tr, st) && 0 <= b < |bs| && 0 <= j < |tr.side|
    requires 0 < tr.counts[b] < |bs[b].items|
    ensures var r := Msg(bs[b], tr.counts[b]);
            (st.side[j].sender == r.sender && r.timestamp == st.side[j].last + 1) <==> tr.side[j] == b
  {
    var c := tr.side[j];
    assert CountOk(bs, tr, c) && Kept(bs, tr, c);
    PartialFacts(bs[c], tr.counts[c]);
  }

  lemma FindsItsOwn(bs: seq<Batch>, tr: Track, st: State, b: int)
    requires Tracks(bs, tr) && Mirrors(bs, tr, st) && 0 <= b < |bs|
    requires 0 < tr.counts[b] < |bs[b].items|
    ensures Continues(st.side, Msg(bs[b], tr.counts[b])) == Index(tr.side, b)
  {
    var i, k := Continues(st.side, Msg(bs[b], tr.counts[b])), Index(tr.side, b);
    if i < |st.side| { OnlyItsOwn(bs, tr, st, b, i); }
    if k < |tr.side| { OnlyItsOwn(bs, tr, st, b, k); }
  }

  // ----- One arrival

  lemma LoneKeeps(bs: seq<Batch>, tr: Track, st: State, r: Request)
    requires Tracks(bs, tr) && Mirrors(bs, tr, st) && r.cmd == 0
    ensures var tr1 := Advance(bs, tr, Lone(r)); Tracks(bs, tr1) && Mirrors(bs, tr1, Handle(st, r))
  {
    hide Lawful, Partial, Distinct;
    var tr1, st1 := Advance(bs, tr, Lone(r)), Handle(st, r);
    forall b | 0 <= b < |bs| ensures CountOk(bs, tr1, b) {
      assert CountOk(bs, tr, b);
    }
    forall s ensures OpenOk(bs, tr1, s) {
      assert OpenOk(bs, tr, s);
    }
    forall s ensures OpenOf(st1, s) == if OpenOk(bs, tr1, s) && s in tr1.open then Some(Now(bs, tr1, tr1.open[s])) else None {
      assert OpenOk(bs, tr, s) && OpenOk(bs, tr1, s) && OpenOf(st1, s) == OpenOf(st, s);
    }
    forall i | 0 <= i < |tr1.calls| ensures st1.handled[i] == CallMeta(bs, tr1.calls[i]) {
      if i < |tr.calls| { assert tr1.calls[i] == tr.calls[i]; }
    }
  }

  lemma StartTracks(bs: seq<Batch>, tr: Track, b: int)
    requires Tracks(bs, tr) && 0 <= b < |bs| && tr.counts[b] == 0
    ensures Tracks(bs, Advance(bs, tr, Part(b)))
  {
    assert CountOk(bs, tr, b) && OpenOk(bs, tr, bs[b].sender);
    var tr1, s := Advance(bs, tr, Part(b)), bs[b].sender;
    forall c | 0 <= c < |bs| ensures CountOk(bs, tr1, c) {
      assert CountOk(bs, tr, c);
    }
    forall u ensures OpenOk(bs, tr1, u) {
      assert OpenOk(bs, tr, u);
    }
  }

  lemma StartKeeps(bs: seq<Batch>, tr: Track, st: State, b: int)
    requires Tracks(bs, tr) && Mirrors(bs, tr, st) && 0 <= b < |bs| && tr.counts[b] == 0
    ensures var tr1, r := Advance(bs, tr, Part(b)), Msg(bs[b], 0);
            Tracks(bs, tr1) && Mirrors(bs, tr1, Handle(st, r))
  {
    StartTracks(bs, tr, b);
    var tr1, st1, s := Advance(bs, tr, Part(b)), Handle(st, Msg(bs[b], 0)), bs[b].sender;
    assert OpenOk(bs, tr, s) && CountOk(bs, tr, b) && OpenOf(st, s) == OpenOf(st, s);
    assert Partial(bs[b], 1) == Add(Partial(bs[b], 0), Msg(bs[b], 0));
    forall u ensures OpenOf(st1, u) == if OpenOk(bs, tr1, u) && u in tr1.open then Some(Now(bs, tr1, tr1.open[u])) else None {
      assert OpenOk(bs, tr, u) && OpenOk(bs, tr1, u);
      assert u != s ==> OpenOf(st1, u) == OpenOf(st, u);
    }
    forall j | 0 <= j < |tr1.side| ensures st1.side[j] == Now(bs, tr1, tr1.side[j]) {
      if j < |tr.side| { assert tr1.side[j] == tr.side[j]; }
    }
  }

  lemma MiddleKeeps(bs: seq<Batch>, tr: Track, st: State, b: int)
    requires Tracks(bs, tr) && Mirrors(bs, tr, st) && 0 <= b < |bs| && 0 < tr.counts[b] < |bs[b].items| - 1
    ensures var tr1, r := Advance(bs, tr, Part(b)), Msg(bs[b], tr.counts[b]);
            Tracks(bs, tr1) && Accepts(st, r) && Mirrors(bs, tr1, Handle(st, r))
  {
    MiddleTracks(bs, tr, b);
    if Index(tr.side, b) < |tr.side| {
      MiddleDisplaced(bs, tr, st, b);
    } else {
      MiddleCurrent(bs, tr, st, b);
    }
  }

  lemma MiddleDisplaced(bs: seq<Batch>, tr: Track, st: State, b: int)
    requires Tracks(bs, tr) && Mirrors(bs, tr, st) && 0 <= b < |bs| && 0 < tr.counts[b] < |bs[b].items| - 1
    requires Index(tr.side, b) < |tr.side| && Tracks(bs, Advance(bs, tr, Part(b)))
    ensures var r := Msg(bs[b], tr.counts[b]);
            Accepts(st, r) && Mirrors(bs, Advance(bs, tr, Part(b)), Handle(st, r))
  {
    hide Lawful;
    var n, r, k := tr.counts[b], Msg(bs[b], tr.counts[b]), Index(tr.side, b);
    var tr1 := Advance(bs, tr, Part(b));
    FindsItsOwn(bs, tr, st, b);
    assert st.side[k] == Now(bs, tr, tr.side[k]);
    var st1 := Handle(st, r);
    assert Partial(bs[b], n + 1) == Add(Partial(bs[b], n), r);
    SameOpen(bs, tr, tr1, st, b);
    forall u ensures OpenOf(st1, u) == if OpenOk(bs, tr1, u) && u in tr1.open then Some(Now(bs, tr1, tr1.open[u])) else None {
      assert OpenOf(st1, u) == OpenOf(st, u);
    }
    forall j | 0 <= j < |tr1.side| ensures st1.side[j] == Now(bs, tr1, tr1.side[j]) {
      assert st.side[j] == Now(bs, tr, tr.side[j]);
    }
  }

  lemma MiddleCurrent(bs: seq<Batch>, tr: Track, st: State, b: int)
    requires Tracks(bs, tr) && Mirrors(bs, tr, st) && 0 <= b < |bs| && 0 < tr.counts[b] < |bs[b].items| - 1
    requires Index(tr.side, b) == |tr.side| && Tracks(bs, Advance(bs, tr, Part(b)))
    ensures var r := Msg(bs[b], tr.counts[b]);
            Accepts(st, r) && Mirrors(bs, Advance(bs, tr, Part(b)), Handle(st, r))
  {
    hide Lawful, Distinct;
    var n, r, s := tr.counts[b], Msg(bs[b], tr.counts[b]), bs[b].sender;
    var tr1 := Advance(bs, tr, Part(b));
    assert CountOk(bs, tr, b) && OpenOk(bs, tr, s) && Kept(bs, tr, b);
    FindsItsOwn(bs, tr, st, b);
    SideWithout(tr.side, b);
    assert OpenOf(st, s) == Some(Now(bs, tr, b));
    var st1 := Handle(st, r);
    assert Partial(bs[b], n + 1) == Add(Partial(bs[b], n), r);
    forall u ensures OpenOf(st1, u) == if OpenOk(bs, tr1, u) && u in tr1.open then Some(Now(bs, tr1, tr1.open[u])) else None {
      assert OpenOk(bs, tr, u) && OpenOk(bs, tr1, u);
      assert OpenOf(st1, u) == if u == s then Some(Now(bs, tr1, b)) else OpenOf(st, u);
    }
    forall j | 0 <= j < |tr1.side| ensures st1.side[j] == Now(bs, tr1, tr1.side[j]) {
      assert tr.side[j] in tr.side && st.side[j] == Now(bs, tr, tr.side[j]);
    }
  }

  lemma MiddleTracks(bs: seq<Batch>, tr: Track, b: int)
    requires Tracks(bs, tr) && 0 <= b < |bs| && 0 < tr.counts[b] < |bs[b].items| - 1
    ensures Tracks(bs, Advance(bs, tr, Part(b)))
  {
    var tr1 := Advance(bs, tr, Part(b));
    forall c | 0 <= c < |bs| ensures CountOk(bs, tr1, c) {
      assert CountOk(bs, tr, c);
    }
    forall u ensures OpenOk(bs, tr1, u) {
      assert OpenOk(bs, tr, u);
    }
  }

  lemma EndTracks(bs: seq<Batch>, tr: Track, b: int)
    requires Tracks(bs, tr) && 0 <= b < |bs| && tr.counts[b] == |bs[b].items| - 1
    ensures Tracks(bs, Advance(bs, tr, Part(b)))
  {
    hide Distinct;
    var tr1, s, k := Advance(bs, tr, Part(b)), bs[b].sender, Index(tr.side, b);
    assert CountOk(bs, tr, b) && OpenOk(bs, tr, s) && Kept(bs, tr, b);
    SideWithout(tr.side, b);
    forall c | 0 <= c < |bs| ensures CountOk(bs, tr1, c) {
      assert CountOk(bs, tr, c);
      assert Whole(c) in tr1.calls <==> c == b || Whole(c) in tr.calls;
    }
    forall u ensures OpenOk(bs, tr1, u) {
      assert OpenOk(bs, tr, u);
    }
    forall i, j | 0 <= i < j < |tr1.calls| && tr1.calls[i].Whole? ensures tr1.calls[i] != tr1.calls[j] {
      if j == |tr.calls| { assert tr1.calls[i] in tr.calls; }
    }
  }

  /** Dropping the one occurrence of `b`. */
  lemma SideWithout(side: seq<int>, b: int)
    requires Distinct(side)
    ensures var k := Index(side, b);
            && (k == |side| ==> b !in side)
            && (k < |side| ==>
                  var rest := side[..k] + side[k + 1..];
                  && Distinct(rest) && (forall x :: x in rest <==> x in side && x != b)
                  && forall j {:trigger rest[j]} :: 0 <= j < |rest| ==> rest[j] == side[if j < k then j else j + 1] != b)
  {
  }

  lemma EndKeeps(bs: seq<Batch>, tr: Track, st: State, b: int)
    requires Tracks(bs, tr) && Mirrors(bs, tr, st) && 0 <= b < |bs| && 0 < tr.counts[b] == |bs[b].items| - 1
    ensures var tr1, r := Advance(bs, tr, Part(b)), Msg(bs[b], tr.counts[b]);
            Tracks(bs, tr1) && Accepts(st, r) && Mirrors(bs, tr1, Handle(st, r))
  {
    EndTracks(bs, tr, b);
    if Index(tr.side, b) < |tr.side| {
      EndDisplaced(bs, tr, st, b);
    } else {
      EndCurrent(bs, tr, st, b);
    }
  }

  lemma EndDisplaced(bs: seq<Batch>, tr: Track, st: State, b: int)
    requires Tracks(bs, tr) && Mirrors(bs, tr, st) && 0 <= b < |bs| && 0 < tr.counts[b] == |bs[b].items| - 1
    requires Index(tr.side, b) < |tr.side| && Tracks(bs, Advance(bs, tr, Part(b)))
    ensures var r := Msg(bs[b], tr.counts[b]);
            Accepts(st, r) && Mirrors(bs, Advance(bs, tr, Part(b)), Handle(st, r))
  {
    hide Lawful, Distinct;
    var n, r, k := tr.counts[b], Msg(bs[b], tr.counts[b]), Index(tr.side, b);
    var tr1 := Advance(bs, tr, Part(b));
    FindsItsOwn(bs, tr, st, b);
    assert st.side[k] == Now(bs, tr, tr.side[k]);
    var st1 := Handle(st, r);
    assert Partial(bs[b], n + 1) == Add(Partial(bs[b], n), r);
    SameOpen(bs, tr, tr1, st, b);
    forall u ensures OpenOf(st1, u) == if OpenOk(bs, tr1, u) && u in tr1.open then Some(Now(bs, tr1, tr1.open[u])) else None {
      assert OpenOf(st1, u) == OpenOf(st, u);
    }
    SideRest(bs, tr, tr1, st, b);
    HandledGrows(bs, tr, st, Whole(b), Add(st.side[k], r));
  }

  lemma SameOpen(bs: seq<Batch>, tr: Track, tr1: Track, st: State, b: int)
    requires Tracks(bs, tr) && Tracks(bs, tr1) && Mirrors(bs, tr, st) && 0 <= b < |bs| && b in tr.side
    requires tr1.open == tr.open && forall c :: 0 <= c < |bs| && c != b ==> tr1.counts[c] == tr.counts[c]
    ensures forall u {:trigger OpenOf(st, u)} ::
      OpenOf(st, u) == if OpenOk(bs, tr1, u) && u in tr1.open then Some(Now(bs, tr1, tr1.open[u])) else None
  {
  }

  lemma SideRest(bs: seq<Batch>, tr: Track, tr1: Track, st: State, b: int)
    requires Tracks(bs, tr) && Tracks(bs, tr1) && Mirrors(bs, tr, st) && 0 <= b < |bs| && Index(tr.side, b) < |tr.side|
    requires var k := Index(tr.side, b); tr1.side == tr.side[..k] + tr.side[k + 1..]
    requires forall c :: 0 <= c < |bs| && c != b ==> tr1.counts[c] == tr.counts[c]
    ensures var k := Index(tr.side, b);
            var rest := st.side[..k] + st.side[k + 1..];
            |rest| == |tr1.side| && forall j {:trigger tr1.side[j]} :: 0 <= j < |tr1.side| ==> rest[j] == Now(bs, tr1, tr1.side[j])
  {
  }

  lemma EndCurrent(bs: seq<Batch>, tr: Track, st: State, b: int)
    requires Tracks(bs, tr) && Mirrors(bs, tr, st) && 0 <= b < |bs| && 0 < tr.counts[b] == |bs[b].items| - 1
    requires Index(tr.side, b) == |tr.side| && Tracks(bs, Advance(bs, tr, Part(b)))
    ensures var r := Msg(bs[b], tr.counts[b]);
            Accepts(st, r) && Mirrors(bs, Advance(bs, tr, Part(b)), Handle(st, r))
  {
    hide Lawful, Distinct;
    var n, r, s := tr.counts[b], Msg(bs[b], tr.counts[b]), bs[b].sender;
    var tr1 := Advance(bs, tr, Part(b));
    assert CountOk(bs, tr, b) && OpenOk(bs, tr, s) && Kept(bs, tr, b);
    FindsItsOwn(bs, tr, st, b);
    SideWithout(tr.side, b);
    assert OpenOf(st, s) == Some(Now(bs, tr, b));
    var st1 := Handle(st, r);
    assert Partial(bs[b], n + 1) == Add(Partial(bs[b], n), r);
    forall u ensures OpenOf(st1, u) == if OpenOk(bs, tr1, u) && u in tr1.open then Some(Now(bs, tr1, tr1.open[u])) else None {
      assert OpenOk(bs, tr, u) && OpenOk(bs, tr1, u) && OpenOf(st1, u) == if u == s then None else OpenOf(st, u);
    }
    forall j | 0 <= j < |tr1.side| ensures st1.side[j] == Now(bs, tr1, tr1.side[j]) {
      assert tr.side[j] in tr.side && st.side[j] == Now(bs, tr, tr.side[j]);
    }
    HandledGrows(bs, tr, st, Whole(b), Add(OpenOf(st, s).value, r));
  }

  lemma HandledGrows(bs: seq<Batch>, tr: Track, st: State, c: Call, m: Meta)
    requires Tracks(bs, tr) && Mirrors(bs, tr, st) && m == CallMeta(bs, c)
    ensures var calls, handled := tr.calls + [c], st.handled + [m];
            forall i {:trigger calls[i]} :: 0 <= i < |calls| ==> handled[i] == CallMeta(bs, calls[i])
  {
  }

  lemma ArrivalKeeps(bs: seq<Batch>, tr: Track, st: State, a: Arrival)
    requires Tracks(bs, tr) && Mirrors(bs, tr, st) && Due(bs, tr, a)
    ensures var tr1, r := Advance(bs, tr, a), Message(bs, tr, a);
            Tracks(bs, tr1) && Accepts(st, r) && Mirrors(bs, tr1, Handle(st, r))
  {
    hide Tracks, Mirrors, Handle, Advance;
    match a
    case Lone(r) => LoneKeeps(bs, tr, st, r);
    case Part(b) =>
      if tr.counts[b] == 0 {
        StartKeeps(bs, tr, st, b);
      } else if tr.counts[b] < |bs[b].items| - 1 {
        MiddleKeeps(bs, tr, st, b);
      } else {
        EndKeeps(bs, tr, st, b);
      }
  }

  ghost function Message(bs: seq<Batch>, tr: Track, a: Arrival): Request
    requires Due(bs, tr, a)
  {
    match a
    case Lone(r) => r
    case Part(b) => Msg(bs[b], tr.counts[b])
  }

  // ----- Whole runs

  ghost const Empty := State(map[], [], [], [])

  ghost function Begin(bs: seq<Batch>): Track {
    Track(seq(|bs|, b => 0), map[], [], [])
  }

  /** The server's states under an interleaving that keeps the order inside each batch. */
  ghost predicate Behaviour(bs: seq<Batch>, arrivals: seq<Arrival>, tracks: seq<Track>, states: seq<State>) {
    && Lawful(bs) && |tracks| == |states| == |arrivals| + 1
    && tracks[0] == Begin(bs) && states[0] == Empty
    && forall i {:trigger arrivals[i]} :: 0 <= i < |arrivals| ==>
         && Due(bs, tracks[i], arrivals[i]) && tracks[i + 1] == Advance(bs, tracks[i], arrivals[i])
         && var r := Message(bs, tracks[i], arrivals[i]);
            Accepts(states[i], r) ==> states[i + 1] == Handle(states[i], r)
  }

  lemma BeginOk(bs: seq<Batch>)
    requires Lawful(bs)
    ensures Tracks(bs, Begin(bs)) && Mirrors(bs, Begin(bs), Empty)
  {
  }

  /** In every run the server holds what it should, and each message finds its batch. */
  lemma {:induction false} Reachable(bs: seq<Batch>, arrivals: seq<Arrival>, tracks: seq<Track>, states: seq<State>, i: int)
    requires Behaviour(bs, arrivals, tracks, states) && 0 <= i < |states|
    ensures Tracks(bs, tracks[i]) && Mirrors(bs, tracks[i], states[i])
    ensures i < |arrivals| ==> Due(bs, tracks[i], arrivals[i]) && Accepts(states[i], Message(bs, tracks[i], arrivals[i]))
    decreases i
  {
    hide Tracks, Mirrors, Handle, Advance, Accepts;
    if i == 0 {
      BeginOk(bs);
    } else {
      Reachable(bs, arrivals, tracks, states, i - 1);
      assert Due(bs, tracks[i - 1], arrivals[i - 1]);
      ArrivalKeeps(bs, tracks[i - 1], states[i - 1], arrivals[i - 1]);
    }
    if i < |arrivals| {
      assert Due(bs, tracks[i], arrivals[i]);
      ArrivalKeeps(bs, tracks[i], states[i], arrivals[i]);
    }
  }

  /** How many messages of batch `b` are among the arrivals. */
  ghost function Seen(arrivals: seq<Arrival>, b: int): nat {
    if arrivals == [] then 0
    else Seen(arrivals[..|arrivals| - 1], b) + if arrivals[|arrivals| - 1] == Part(b) then 1 else 0
  }

  /** The message that comes after these arrivals of its batch, if there is one. */
  ghost function Following(bs: seq<Batch>, arrivals: seq<Arrival>, a: Arrival): Option<Request> {
    if a.Part? && 0 <= a.b < |bs| && Seen(arrivals, a.b) < |bs[a.b].items| then Some(Msg(bs[a.b], Seen(arrivals, a.b)))
    else None
  }

  /** The pushes among the batch messages that have arrived, in order. */
  ghost function BatchPushes(bs: seq<Batch>, arrivals: seq<Arrival>): seq<Request> {
    if arrivals == [] then []
    else
      var before, r := arrivals[..|arrivals| - 1], Following(bs, arrivals[..|arrivals| - 1], arrivals[|arrivals| - 1]);
      BatchPushes(bs, before) + if r.Some? && r.value.push then [r.value] else []
  }

  /** The single requests and, at their last message, the batches that have arrived, in order. */
  ghost function Completed(bs: seq<Batch>, arrivals: seq<Arrival>): seq<Call> {
    if arrivals == [] then []
    else
      var before, a := arrivals[..|arrivals| - 1], arrivals[|arrivals| - 1];
      Completed(bs, before) +
      match a
      case Lone(r) => [Alone(r)]
      case Part(b) => if 0 <= b < |bs| && Seen(before, b) + 1 == |bs[b].items| then [Whole(b)] else []
  }

  /** What one message adds to the answers, whatever batch it finds. */
  lemma AnswersOne(st: State, r: Request)
    requires Accepts(st, r)
    ensures Handle(st, r).answered == st.answered + if r.cmd != 0 && r.push then [r] else []
  {
    hide Continues;
  }

  /**
   In every run the answers sent early are exactly the pushes among the batch messages
   that have arrived, in the order of arrival: no pull, no single request, none twice.
   The calls of the request handle are in the order in which single requests and last
   messages of batches have arrived.
   */
  lemma {:induction false} AnsweredEarly(bs: seq<Batch>, arrivals: seq<Arrival>, tracks: seq<Track>, states: seq<State>, i: int)
    requires Behaviour(bs, arrivals, tracks, states) && 0 <= i < |states|
    ensures states[i].answered == BatchPushes(bs, arrivals[..i]) && Distinct(states[i].answered)
    ensures forall r :: r in states[i].answered ==> r.push && r.cmd != 0
    ensures tracks[i].calls == Completed(bs, arrivals[..i]) && |tracks[i].counts| == |bs|
    ensures forall b {:trigger tracks[i].counts[b]} :: 0 <= b < |bs| ==> tracks[i].counts[b] == Seen(arrivals[..i], b)
    decreases i
  {
    hide Tracks, Mirrors, Handle, Accepts, Advance, Due, Message, BatchPushes, Completed, Seen, Lawful;
    if i == 0 {
      NoArrivals(bs, arrivals);
    } else {
      AnsweredEarly(bs, arrivals, tracks, states, i - 1);
      Reachable(bs, arrivals, tracks, states, i - 1);
      var before, a, tr := arrivals[..i - 1], arrivals[i - 1], tracks[i - 1];
      assert arrivals[..i] == before + [a];
      assert Due(bs, tr, a);
      AnswersOne(states[i - 1], Message(bs, tr, a));
      OneArrival(bs, before, tr, a);
    }
    AnsweredOnce(bs, arrivals[..i]);
    assert forall r :: r in states[i].answered ==> SomePush(bs, arrivals[..i], r);
  }

  lemma NoArrivals(bs: seq<Batch>, arrivals: seq<Arrival>)
    ensures BatchPushes(bs, arrivals[..0]) == [] && Completed(bs, arrivals[..0]) == []
    ensures forall b :: Seen(arrivals[..0], b) == 0
  {
  }

  lemma OneArrival(bs: seq<Batch>, before: seq<Arrival>, tr: Track, a: Arrival)
    requires Lawful(bs) && Due(bs, tr, a) && |tr.counts| == |bs| && tr.calls == Completed(bs, before)
    requires forall b {:trigger tr.counts[b]} :: 0 <= b < |bs| ==> tr.counts[b] == Seen(before, b)
    ensures var r := Message(bs, tr, a);
            BatchPushes(bs, before + [a]) == BatchPushes(bs, before) + if r.cmd != 0 && r.push then [r] else []
    ensures var tr1 := Advance(bs, tr, a);
            && tr1.calls == Completed(bs, before + [a]) && |tr1.counts| == |bs|
            && forall b {:trigger tr1.counts[b]} :: 0 <= b < |bs| ==> tr1.counts[b] == Seen(before + [a], b)
  {
    hide Index;
    assert (before + [a])[..|before|] == before;
  }

  /** Different messages of lawful batches are different. */
  lemma MessagesDiffer(bs: seq<Batch>, b: int, i: int, c: int, j: int)
    requires Lawful(bs) && 0 <= b < |bs| && 0 <= c < |bs| && 0 <= i < |bs[b].items| && 0 <= j < |bs[c].items|
    requires Msg(bs[b], i) == Msg(bs[c], j)
    ensures b == c && i == j
  {
  }

  ghost predicate SomePush(bs: seq<Batch>, arrivals: seq<Arrival>, r: Request) {
    exists b, k {:trigger Msg(bs[b], k)} :: 0 <= b < |bs| && 0 <= k < |bs[b].items| && k < Seen(arrivals, b) && r == Msg(bs[b], k)
  }

  /** Every answer is one of a push that is part of a batch, and no push is answered twice. */
  lemma {:induction false} AnsweredOnce(bs: seq<Batch>, arrivals: seq<Arrival>)
    requires Lawful(bs)
    ensures Distinct(BatchPushes(bs, arrivals))
    ensures forall r {:trigger SomePush(bs, arrivals, r)} ::
      r in BatchPushes(bs, arrivals) ==> r.push && r.cmd != 0 && SomePush(bs, arrivals, r)
  {
    hide Lawful;
    if arrivals != [] {
      var before, a := arrivals[..|arrivals| - 1], arrivals[|arrivals| - 1];
      assert arrivals == before + [a];
      AnsweredOnce(bs, before);
      var earlier, r := BatchPushes(bs, before), Following(bs, before, a);
      forall q | q in earlier ensures q.push && q.cmd != 0 && SomePush(bs, arrivals, q) && (r.Some? ==> q != r.value) {
        EarlierPush(bs, before, a, q);
      }
      if r.Some? && r.value.push {
        assert r.value == Msg(bs[a.b], Seen(before, a.b)) && SomePush(bs, arrivals, r.value);
        assert BatchPushes(bs, arrivals) == earlier + [r.value];
      } else {
        assert BatchPushes(bs, arrivals) == earlier;
      }
    }
  }

  lemma EarlierPush(bs: seq<Batch>, before: seq<Arrival>, a: Arrival, q: Request)
    requires Lawful(bs) && SomePush(bs, before, q)
    ensures SomePush(bs, before + [a], q)
    ensures Following(bs, before, a) != Some(q)
  {
    hide Lawful;
    var b, k :| 0 <= b < |bs| && 0 <= k < |bs[b].items| && k < Seen(before, b) && q == Msg(bs[b], k);
    assert (before + [a])[..|before|] == before && k < Seen(before + [a], b);
    if Following(bs, before, a) == Some(q) { MessagesDiffer(bs, b, k, a.b, Seen(before, a.b)); }
  }

  /** The messages of a batch that are pushes (or pulls), in order. */
  ghost function Select(b: Batch, push: bool, n: int): seq<Request>
    requires 0 <= n <= |b.items|
  {
    if n == 0 then []
    else Select(b, push, n - 1) + if b.items[n - 1].push == push then [Msg(b, n - 1)] else []
  }

  lemma {:induction false} PartialContents(b: Batch, n: int)
    requires 0 < n <= |b.items|
    ensures Partial(b, n) == Meta(b.sender, NodeIds.IDtoRank(b.sender), false, b.start + n - 1, Select(b, true, n), Select(b, false, n))
  {
    if n > 1 {
      PartialContents(b, n - 1);
    } else {
      assert Partial(b, 0) == Meta(b.sender, NodeIds.IDtoRank(b.sender), false, 0, [], []);
    }
  }

  /**
   Every call of the request handle is a single request or a whole batch with
   exactly its own pushes and pulls in order, and no batch is passed on twice.
   */
  lemma PassedOnOnce(bs: seq<Batch>, arrivals: seq<Arrival>, tracks: seq<Track>, states: seq<State>, i: int)
    requires Behaviour(bs, arrivals, tracks, states) && 0 <= i < |states|
    ensures var calls, handled := tracks[i].calls, states[i].handled;
            && |handled| == |calls|
            && (forall j, k {:trigger calls[j], calls[k]} :: 0 <= j < k < |calls| && calls[j].Whole? ==> calls[j] != calls[k])
            && (forall j {:trigger calls[j]} :: 0 <= j < |calls| ==>
                  match calls[j]
                  case Alone(r) =>
                    handled[j] == Meta(r.sender, NodeIds.IDtoRank(r.sender), true, r.timestamp,
                                       if r.push then [r] else [], if r.push then [] else [r])
                  case Whole(b) =>
                    && 0 <= b < |bs|
                    && var batch := bs[b];
                    var n := |batch.items|;
                    handled[j] == Meta(batch.sender, NodeIds.IDtoRank(batch.sender), false, batch.start + n - 1,
                                       Select(batch, true, n), Select(batch, false, n)))
  {
    Reachable(bs, arrivals, tracks, states, i);
    var calls, handled := tracks[i].calls, states[i].handled;
    forall j | 0 <= j < |calls| && calls[j].Whole?
      ensures 0 <= calls[j].b < |bs| && handled[j] == Partial(bs[calls[j].b], |bs[calls[j].b].items|)
    {
    }
    forall b | 0 <= b < |bs|
      ensures var n := |bs[b].items|;
              Partial(bs[b], n) == Meta(bs[b].sender, NodeIds.IDtoRank(bs[b].sender), false, bs[b].start + n - 1,
                                        Select(bs[b], true, n), Select(bs[b], false, n))
    {
      PartialContents(bs[b], |bs[b].items|);
    }
  }

  /** A batch of which something has arrived, but not all, is kept: exactly what has arrived, displaced or not. */
  lemma StaysOpen(bs: seq<Batch>, arrivals: seq<Arrival>, tracks: seq<Track>, states: seq<State>, i: int, b: int)
    requires Behaviour(bs, arrivals, tracks, states) && 0 <= i < |states| && 0 <= b < |bs| == |tracks[i].counts|
    requires 0 < tracks[i].counts[b] < |bs[b].items|
    ensures var kept := Partial(bs[b], tracks[i].counts[b]);
            kept in states[i].side || OpenOf(states[i], bs[b].sender) == Some(kept)
    ensures Whole(b) !in tracks[i].calls
  {
    hide Partial, Advance;
    var tr, st := tracks[i], states[i];
    Reachable(bs, arrivals, tracks, states, i);
    assert CountOk(bs, tr, b) && OpenOk(bs, tr, bs[b].sender);
    if b in tr.side {
      var j :| 0 <= j < |tr.side| && tr.side[j] == b;
      assert st.side[j] == Now(bs, tr, b);
    } else {
      assert OpenOf(st, bs[b].sender) == Some(Now(bs, tr, b));
    }
  }

  ghost predicate AllOrNothing(bs: seq<Batch>, tr: Track, b: int)
    requires 0 <= b < |bs| == |tr.counts|
  {
    tr.counts[b] == 0 || tr.counts[b] == |bs[b].items|
  }

  ghost predicate HoldsNothing(st: State) {
    st.side == [] && forall s {:trigger OpenOf(st, s)} :: OpenOf(st, s) == None
  }

  /** Nothing is kept exactly when every batch has arrived completely or not at all. */
  lemma LeftOverIff(bs: seq<Batch>, arrivals: seq<Arrival>, tracks: seq<Track>, states: seq<State>, i: int)
    requires Behaviour(bs, arrivals, tracks, states) && 0 <= i < |states|
    ensures |tracks[i].counts| == |bs|
    ensures HoldsNothing(states[i]) <==>
            forall b {:trigger AllOrNothing(bs, tracks[i], b)} :: 0 <= b < |bs| ==> AllOrNothing(bs, tracks[i], b)
  {
    var tr, st := tracks[i], states[i];
    Reachable(bs, arrivals, tracks, states, i);
    forall b | 0 <= b < |bs| ensures Kept(bs, tr, b) <==> !AllOrNothing(bs, tr, b) {
      assert CountOk(bs, tr, b);
    }
    if HoldsNothing(st) {
      forall b | 0 <= b < |bs| ensures !Kept(bs, tr, b) {
        assert OpenOk(bs, tr, bs[b].sender) && OpenOf(st, bs[b].sender) == None;
      }
    } else if tr.side != [] {
      assert Kept(bs, tr, tr.side[0]);
    } else {
      var s :| OpenOf(st, s) != None;
      assert OpenOk(bs, tr, s);
      assert Kept(bs, tr, tr.open[s]);
    }
  }

  /** When all messages have arrived, every batch has been passed on and nothing is left over. */
  lemma NothingLeft(bs: seq<Batch>, arrivals: seq<Arrival>, tracks: seq<Track>, states: seq<State>)
    requires Behaviour(bs, arrivals, tracks, states)
    requires forall b :: 0 <= b < |bs| ==> |tracks[|arrivals|].counts| == |bs| && tracks[|arrivals|].counts[b] == |bs[b].items|
    ensures var tr, st := tracks[|arrivals|], states[|arrivals|];
            && (forall b :: 0 <= b < |bs| ==> Whole(b) in tr.calls)
            && HoldsNothing(st)
  {
    var tr := tracks[|arrivals|];
    Reachable(bs, arrivals, tracks, states, |arrivals|);
    LeftOverIff(bs, arrivals, tracks, states, |arrivals|);
    assert forall b {:trigger AllOrNothing(bs, tr, b)} :: 0 <= b < |bs| ==> AllOrNothing(bs, tr, b);
    forall b | 0 <= b < |bs| ensures Whole(b) in tr.calls {
      assert CountOk(bs, tr, b);
    }
  }
}
