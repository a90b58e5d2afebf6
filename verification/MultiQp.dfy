/**
 Sending one tensor over several queue pairs (QPs).  The first chunk and the meta
 data go over QP 0, the other chunks over slave QPs; the meta data carries the
 packet counters of the sender, and the receiver holds a message back until its own
 counters have caught up.
 */
module MultiQp {
  import opened Arith
  import opened Bits
  import opened Wrappers

  // ----- Splitting the payload

  /** A write of `bytes` at offset `at` of the remote buffer. */
  datatype Post = Post(at: int, bytes: seq<int>)

  /** The chunks lie one after the other from `at` on and add up to `data[at..]`. */
  ghost predicate Tiles(posts: seq<Post>, data: seq<int>, at: int) {
    && 0 <= at <= |data|
    && if posts == [] then at == |data|
       else posts[0].at == at && at + |posts[0].bytes| <= |data|
            && posts[0].bytes == data[at..at + |posts[0].bytes|] && Tiles(posts[1..], data, at + |posts[0].bytes|)
  }

  /** Byte `p` is written by exactly one chunk, with its own value. */
  lemma {:induction false} WrittenOnce(posts: seq<Post>, data: seq<int>, at: int, p: int) returns (i: int)
    requires Tiles(posts, data, at) && at <= p < |data|
    ensures 0 <= i < |posts| && posts[i].at <= p < posts[i].at + |posts[i].bytes| && posts[i].bytes[p - posts[i].at] == data[p]
    ensures forall j {:trigger posts[j]} :: 0 <= j < |posts| && posts[j].at <= p < posts[j].at + |posts[j].bytes| ==> j == i
    decreases |posts|
  {
    var next := at + |posts[0].bytes|;
    if p < next {
      i := 0;
      forall j | 0 < j < |posts| ensures posts[j].at > p {
        TilesFrom(posts[1..], data, next, j - 1);
      }
    } else {
      var k := WrittenOnce(posts[1..], data, next, p);
      i := k + 1;
      forall j | 0 <= j < |posts| && posts[j].at <= p < posts[j].at + |posts[j].bytes| ensures j == i {
        assert j > 0 ==> posts[j] == posts[1..][j - 1];
      }
    }
  }

  lemma {:induction false} TilesFrom(posts: seq<Post>, data: seq<int>, at: int, j: int)
    requires Tiles(posts, data, at) && 0 <= j < |posts|
    ensures posts[j].at >= at
    decreases |posts|
  {
    if j > 0 { TilesFrom(posts[1..], data, at + |posts[0].bytes|, j - 1); }
  }

  lemma SliceOfPrefix(data: seq<int>, end: int, a: int, b: int)
    requires 0 <= a <= b <= end <= |data|
    ensures data[..end][a..b] == data[a..b]
  {
  }

  /** Appending the next chunk in line. */
  lemma {:induction false} TilesAppend(posts: seq<Post>, data: seq<int>, at: int, mid: int, post: Post)
    requires 0 <= mid <= |data| && Tiles(posts, data[..mid], at)
    requires post.at == mid && mid + |post.bytes| <= |data| && post.bytes == data[mid..mid + |post.bytes|]
    ensures Tiles(posts + [post], data[..mid + |post.bytes|], at)
    decreases |posts|
  {
    var end := mid + |post.bytes|;
    if posts == [] {
      assert ([post])[1..] == [] && [] + [post] == [post];
      SliceOfPrefix(data, end, mid, end);
    } else {
      var k := |posts[0].bytes|;
      TilesAppend(posts[1..], data, at + k, mid, post);
      assert (posts + [post])[1..] == posts[1..] + [post];
      SliceOfPrefix(data, mid, at, at + k);
      SliceOfPrefix(data, end, at, at + k);
    }
  }

  lemma TilesStart(data: seq<int>)
    ensures Tiles([], data[..0], 0)
  {
  }

  class Endpoint {
    var qpPktCount: seq<int>

    constructor (qpNum: nat)
      ensures |qpPktCount| == qpNum && forall i :: 0 <= i < qpNum ==> qpPktCount[i] == 0
    {
      qpPktCount := seq(qpNum, i => 0);
    }

    /**
     The multi-QP branch of SendPushRequest and SendPullResponse: chunk `i` goes over
     QP `i`, the first one takes the remainder, and the chunks tile the payload.
     */
    method SendSplit(data: seq<int>) returns (posts: seq<Post>, counters: seq<int>)
      requires |qpPktCount| >= 1 && |data| < 0x1_0000_0000
      modifies this
      ensures |posts| == |counters| == |qpPktCount| == |old(qpPktCount)|
      ensures forall i {:trigger counters[i]} :: 0 <= i < |counters| ==> counters[i] == qpPktCount[i] == old(qpPktCount)[i] + 1
      ensures Tiles(posts, data, 0)
      ensures forall i {:trigger posts[i]} :: 0 <= i < |posts| ==>
        |posts[i].bytes| == |data| / |posts| + if i == 0 then |data| % |posts| else 0
    {
      hide ChunkSize, Remainder, Times, Tiles;
      counters := BumpCounters();
      var qpNum := |qpPktCount|;
      var chunk, rest := ChunkSize(|data|, qpNum), Remainder(|data|, qpNum);
      SizesAddUp(|data|, qpNum);
      TimesStep(chunk, qpNum - 1);
      posts := [Post(0, data[..chunk + rest])];
      var at := chunk + rest;
      TilesStart(data);
      TilesAppend([], data, 0, 0, posts[0]);
      assert [] + [posts[0]] == posts;
      for i := 1 to qpNum
        invariant |posts| == i && at + Times(chunk, qpNum - i) == |data| && 0 <= at <= |data| && Tiles(posts, data[..at], 0)
        invariant forall j {:trigger posts[j]} :: 0 <= j < i ==> |posts[j].bytes| == chunk + if j == 0 then rest else 0
        modifies {}
      {
        TimesStep(chunk, qpNum - i - 1);
        var post := Post(at, data[at..at + chunk]);
        TilesAppend(posts, data, 0, at, post);
        posts := posts + [post];
        at := at + chunk;
      }
      assert Times(chunk, 0) == 0 by { TimesStep(chunk, 0); }
      assert data[..at] == data;
    }

    method BumpCounters() returns (counters: seq<int>)
      modifies this
      ensures |counters| == |qpPktCount| == |old(qpPktCount)|
      ensures forall i {:trigger counters[i]} :: 0 <= i < |counters| ==> counters[i] == qpPktCount[i] == old(qpPktCount)[i] + 1
    {
      counters := [];
      for i := 0 to |qpPktCount|
        invariant |qpPktCount| == |old(qpPktCount)| && |counters| == i
        invariant forall j {:trigger counters[j]} :: 0 <= j < i ==> counters[j] == qpPktCount[j] == old(qpPktCount)[j] + 1
        invariant forall j {:trigger qpPktCount[j]} :: i <= j < |qpPktCount| ==> qpPktCount[j] == old(qpPktCount)[j]
      {
        qpPktCount := qpPktCount[i := qpPktCount[i] + 1];
        counters := counters + [qpPktCount[i]];
      }
    }

    /** One round of the wait in RecvMsg: have all slave counters been reached? */
    method Matched(counters: seq<int>, slaveQpNum: int) returns (matched: bool)
      requires 0 <= slaveQpNum < |counters| <= |qpPktCount|
      ensures matched <==> forall i {:trigger counters[i]} :: 1 <= i <= slaveQpNum ==> counters[i] <= qpPktCount[i]
    {
      matched := true;
      for i := 1 to slaveQpNum + 1
        invariant matched <==> forall j {:trigger counters[j]} :: 1 <= j < i ==> counters[j] <= qpPktCount[j]
      {
        matched := matched && counters[i] <= qpPktCount[i];
      }
    }
  }

  function ChunkSize(n: int, q: int): int
    requires q >= 1
  {
    n / q
  }

  function Remainder(n: int, q: int): int
    requires q >= 1
  {
    n % q
  }

  lemma SizesAddUp(n: int, q: int)
    requires n >= 0 && q >= 1
    ensures 0 <= ChunkSize(n, q) == n / q && 0 <= Remainder(n, q) == n % q && n == Remainder(n, q) + Times(ChunkSize(n, q), q)
  {
  }

  // ----- Delivery over two QPs

  // The immediate value of a completion is the index of the message's address, with
  // bit 15 set for a slave chunk.

  const SLAVE: nat := 0x8000
  const ADDRESS_POOL_SIZE := 10240

  function SlaveImmediate(idx: nat): nat {
    Or(idx, SLAVE)
  }

  /** The receiver's test: a completion of QP 0, to be passed on, or one of a slave QP, to be counted. */
  predicate FromMaster(imm: nat) {
    And(imm, SLAVE) == 0
  }

  /** Slave chunks are always told, the others exactly when bit 15 of the index is clear. */
  lemma ImmediateTold(idx: nat)
    ensures !FromMaster(SlaveImmediate(idx))
    ensures FromMaster(idx) <==> !Bit(idx, 15)
    ensures idx < SLAVE ==> FromMaster(idx)
    ensures !FromMaster(SLAVE)
  {
    hide And, Or, Bit;
    assert Pow2(15) == SLAVE by { Pow2Sum(7, 8); }
    AndPow2(idx, 15);
    AndPow2(SLAVE, 15);
    AndPow2(SlaveImmediate(idx), 15);
    BitPow2(15, 15);
    BitOr(idx, SLAVE, 15);
    if idx < SLAVE { BitOfSmall(idx, 15); }
  }

  /** A message with this index, sent over QP 0 alone or split over both. */
  datatype Msg = Plain(idx: nat, data: seq<int>) | Split(idx: nat, data: seq<int>)

  /** How many bytes of a message go over QP 0. */
  ghost function HeadLen(msg: Msg): int {
    match msg
    case Plain(_, data) => |data|
    case Split(_, data) => ChunkSize(|data|, 2) + Remainder(|data|, 2)
  }

  /**
   The sender has posted `msgs`; `half` says that the slave chunk of the last one is
   still to be posted.  Each QP delivers in order, so the progress of QP 0 is the number
   of messages whose bytes, then whose meta data have landed, and whose completion has
   been polled; that of QP 1 the number of slave chunks landed and polled.  `pktCount`
   counts the completions taken for slave chunks, `queue` holds the messages of the
   others for the receiving thread, which has taken `delivered` of them.  `splits` lists
   the split messages, `mem` the receive buffer of each message.
   */
  datatype State = State(
    msgs: seq<Msg>, counters: seq<int>, sendCount: int, half: bool, splits: seq<int>,
    landedData: int, landedMeta: int, polledMeta: int, landedSlave: int, polledSlave: int, pktCount: int,
    mem: seq<seq<Option<int>>>, queue: seq<int>, delivered: int)

  datatype Event = SendHead(msg: Msg) | SendTail | LandData | LandMeta | LandSlave | PollMeta | PollSlave | Deliver

  /** Indices come from an address pool of `pool` entries. */
  ghost predicate Enabled(pool: int, st: State, ev: Event) {
    match ev
    case SendHead(msg) => !st.half && msg.idx < pool
    case SendTail => st.half
    case LandData => 0 <= st.landedData == st.landedMeta < |st.msgs| == |st.mem|
    case LandMeta => st.landedMeta < st.landedData
    case LandSlave => st.landedSlave < Posted(st)
    case PollMeta => 0 <= st.polledMeta < st.landedMeta && st.polledMeta < |st.msgs|
    case PollSlave =>
      && 0 <= st.polledSlave < st.landedSlave && st.polledSlave < |st.splits|
      && 0 <= st.splits[st.polledSlave] < |st.msgs|
    case Deliver =>
      && 0 <= st.delivered < |st.queue| && 0 <= st.queue[st.delivered] < |st.msgs| == |st.counters|
      && var m := st.queue[st.delivered];
         st.msgs[m].Split? ==> st.counters[m] <= st.pktCount
  }

  /** Slave chunks posted so far. */
  ghost function Posted(st: State): int {
    st.sendCount - if st.half then 1 else 0
  }

  /** Bytes `from..to` of the buffer are written. */
  ghost function Fill(region: seq<Option<int>>, data: seq<int>, from: int, to: int): seq<Option<int>>
    requires |region| == |data|
  {
    seq(|data|, p requires 0 <= p < |data| => if from <= p < to then Some(data[p]) else region[p])
  }

  ghost function FillMem(st: State, m: int, from: int, to: int): seq<seq<Option<int>>> {
    if 0 <= m < |st.msgs| == |st.mem| && |st.mem[m]| == |st.msgs[m].data| then
      st.mem[m := Fill(st.mem[m], st.msgs[m].data, from, to)]
    else st.mem
  }

  /** A completion of message `m` with this immediate value. */
  ghost function Sort(st: State, m: int, imm: nat): State {
    if FromMaster(imm) then st.(queue := st.queue + [m]) else st.(pktCount := st.pktCount + 1)
  }

  ghost function Step(pool: int, st: State, ev: Event): State
    requires Enabled(pool, st, ev)
  {
    match ev
    case SendHead(msg) =>
      var st1 := st.(msgs := st.msgs + [msg], mem := st.mem + [seq(|msg.data|, p => None)]);
      if msg.Split? then
        st1.(sendCount := st.sendCount + 1, half := true, splits := st.splits + [|st.msgs|],
             counters := st.counters + [st.sendCount + 1])
      else st1.(counters := st.counters + [0])
    case SendTail => st.(half := false)
    case LandData =>
      st.(landedData := st.landedData + 1, mem := FillMem(st, st.landedData, 0, HeadLen(st.msgs[st.landedData])))
    case LandMeta => st.(landedMeta := st.landedMeta + 1)
    case LandSlave =>
      var m := if 0 <= st.landedSlave < |st.splits| then st.splits[st.landedSlave] else -1;
      st.(landedSlave := st.landedSlave + 1,
          mem := if 0 <= m < |st.msgs| then FillMem(st, m, HeadLen(st.msgs[m]), |st.msgs[m].data|) else st.mem)
    case PollMeta => Sort(st.(polledMeta := st.polledMeta + 1), st.polledMeta, st.msgs[st.polledMeta].idx)
    case PollSlave =>
      var m := st.splits[st.polledSlave];
      Sort(st.(polledSlave := st.polledSlave + 1), m, SlaveImmediate(st.msgs[m].idx))
    case Deliver => st.(delivered := st.delivered + 1)
  }

  // ----- The invariant

  ghost predicate SlaveLanded(st: State, m: int)
    requires 0 <= m < |st.msgs| == |st.counters|
  {
    st.msgs[m].Split? && st.counters[m] <= st.landedSlave
  }

  /** What the buffer of message `m` holds. */
  ghost predicate RegionOk(st: State, m: int)
    requires 0 <= m < |st.msgs| == |st.counters| == |st.mem|
  {
    var data, head := st.msgs[m].data, HeadLen(st.msgs[m]);
    && |st.mem[m]| == |data| && 0 <= head <= |data| && (st.msgs[m].Plain? ==> head == |data|)
    && forall p {:trigger st.mem[m][p]} :: 0 <= p < |data| ==>
         st.mem[m][p] == if (if p < head then m < st.landedData else SlaveLanded(st, m)) then Some(data[p]) else None
  }

  /** The counter of a split message is its place among the split messages. */
  ghost predicate CounterOk(st: State, m: int)
    requires 0 <= m < |st.msgs| == |st.counters|
  {
    st.msgs[m].Split? ==> 1 <= st.counters[m] <= |st.splits| && st.splits[st.counters[m] - 1] == m
  }

  ghost predicate SplitOk(st: State, k: int)
    requires 0 <= k < |st.splits| && |st.msgs| == |st.counters|
  {
    var m := st.splits[k]; 0 <= m < |st.msgs| && st.msgs[m].Split? && st.counters[m] == k + 1
  }

  ghost predicate Progress(st: State) {
    && |st.msgs| == |st.counters| == |st.mem| && |st.splits| == st.sendCount
    && 0 <= st.delivered <= |st.queue| == st.polledMeta <= st.landedMeta <= st.landedData <= |st.msgs|
    && 0 <= st.pktCount == st.polledSlave <= st.landedSlave <= Posted(st)
  }

  /** Messages are queued in the order sent. */
  ghost predicate QueueOk(st: State) {
    && (forall j {:trigger st.queue[j]} :: 0 <= j < |st.queue| ==> st.queue[j] == j)
    && (forall m {:trigger st.msgs[m]} :: 0 <= m < |st.msgs| ==> st.msgs[m].idx < SLAVE)
  }

  ghost predicate Inv(st: State) {
    && Progress(st) && QueueOk(st)
    && (forall m {:trigger CounterOk(st, m)} :: 0 <= m < |st.msgs| ==> CounterOk(st, m))
    && (forall k {:trigger SplitOk(st, k)} :: 0 <= k < |st.splits| ==> SplitOk(st, k))
    && (forall m {:trigger RegionOk(st, m)} :: 0 <= m < |st.msgs| ==> RegionOk(st, m))
  }

  lemma HeadFits(msg: Msg)
    ensures 0 <= HeadLen(msg) <= |msg.data|
  {
  }

  lemma SendKeeps(pool: int, st: State, msg: Msg)
    requires Inv(st) && !st.half && msg.idx < pool <= SLAVE
    ensures Inv(Step(pool, st, SendHead(msg)))
  {
    hide HeadLen;
    var st1 := Step(pool, st, SendHead(msg));
    HeadFits(msg);
    HeadOfPlain(msg);
    forall m | 0 <= m < |st1.msgs| ensures CounterOk(st1, m) {
      assert m < |st.msgs| ==> CounterOk(st, m);
    }
    forall k | 0 <= k < |st1.splits| ensures SplitOk(st1, k) {
      assert k < |st.splits| ==> SplitOk(st, k);
    }
    forall m | 0 <= m < |st1.msgs| ensures RegionOk(st1, m) {
      assert m < |st.msgs| ==> RegionOk(st, m);
    }
  }

  lemma HeadOfPlain(msg: Msg)
    ensures msg.Plain? ==> HeadLen(msg) == |msg.data|
  {
  }

  lemma LandKeeps(pool: int, st: State, ev: Event)
    requires Inv(st) && Enabled(pool, st, ev) && (ev.LandData? || ev.LandSlave?)
    ensures Inv(Step(pool, st, ev))
  {
    hide HeadLen;
    var st1 := Step(pool, st, ev);
    assert ev.LandSlave? ==> SplitOk(st, st.landedSlave);
    forall m | 0 <= m < |st1.msgs| ensures CounterOk(st1, m) {
      assert CounterOk(st, m);
    }
    forall k | 0 <= k < |st1.splits| ensures SplitOk(st1, k) {
      assert SplitOk(st, k);
    }
    forall m | 0 <= m < |st1.msgs| ensures RegionOk(st1, m) {
      assert RegionOk(st, m) && CounterOk(st, m);
    }
  }

  /** A completion of message `m` is sorted as it should be. */
  lemma PollKeeps(pool: int, st: State, ev: Event, m: int)
    requires Inv(st) && Enabled(pool, st, ev) && (ev.PollMeta? || ev.PollSlave?)
    requires m == if ev.PollMeta? then st.polledMeta else st.splits[st.polledSlave]
    ensures Inv(Step(pool, st, ev))
  {
    hide HeadLen, FromMaster, SlaveImmediate;
    ImmediateTold(st.msgs[m].idx);
    var st1 := Step(pool, st, ev);
    forall n | 0 <= n < |st1.msgs| ensures CounterOk(st1, n) {
      assert CounterOk(st, n);
    }
    forall k | 0 <= k < |st1.splits| ensures SplitOk(st1, k) {
      assert SplitOk(st, k);
    }
    forall n | 0 <= n < |st1.msgs| ensures RegionOk(st1, n) {
      assert RegionOk(st, n);
    }
  }

  lemma StepKeeps(pool: int, st: State, ev: Event)
    requires Inv(st) && Enabled(pool, st, ev) && pool <= SLAVE
    ensures Inv(Step(pool, st, ev))
  {
    hide HeadLen, FromMaster, SlaveImmediate;
    match ev
    case SendHead(msg) => SendKeeps(pool, st, msg);
    case LandData => LandKeeps(pool, st, ev);
    case LandSlave => LandKeeps(pool, st, ev);
    case PollMeta => PollKeeps(pool, st, ev, st.polledMeta);
    case PollSlave => PollKeeps(pool, st, ev, st.splits[st.polledSlave]);
    case _ =>
      var st1 := Step(pool, st, ev);
      forall m | 0 <= m < |st1.msgs| ensures CounterOk(st1, m) {
        assert CounterOk(st, m);
      }
      forall k | 0 <= k < |st1.splits| ensures SplitOk(st1, k) {
        assert SplitOk(st, k);
      }
      forall m | 0 <= m < |st1.msgs| ensures RegionOk(st1, m) {
        assert RegionOk(st, m);
      }
  }

  // ----- Whole runs

  ghost const Init := State([], [], 0, false, [], 0, 0, 0, 0, 0, 0, [], [], 0)

  ghost predicate Behaviour(pool: int, events: seq<Event>, states: seq<State>) {
    && |states| == |events| + 1 && states[0] == Init
    && forall k {:trigger events[k]} :: 0 <= k < |events| ==>
         Enabled(pool, states[k], events[k]) && states[k + 1] == Step(pool, states[k], events[k])
  }

  lemma {:induction false} Reachable(pool: int, events: seq<Event>, states: seq<State>, k: int)
    requires Behaviour(pool, events, states) && 0 <= k < |states| && pool <= SLAVE
    ensures Inv(states[k])
    decreases k
  {
    hide Step, Enabled;
    if k > 0 {
      Reachable(pool, events, states, k - 1);
      var ev := events[k - 1];
      StepKeeps(pool, states[k - 1], ev);
    }
  }

  /** All bytes of the message to be passed on next are in its buffer. */
  ghost predicate Complete(st: State) {
    && 0 <= st.delivered < |st.queue| && 0 <= st.queue[st.delivered] < |st.msgs| == |st.mem|
    && var m := st.queue[st.delivered];
       st.mem[m] == seq(|st.msgs[m].data|, p requires 0 <= p < |st.msgs[m].data| => Some(st.msgs[m].data[p]))
  }

  /**
   For any interleaving of the two QPs, a message is passed on only when all its bytes
   are in its buffer, and the messages are passed on in the order sent.
   */
  lemma DeliveredComplete(pool: int, events: seq<Event>, states: seq<State>, k: int)
    requires Behaviour(pool, events, states) && 0 <= k < |events| && events[k] == Deliver && pool <= SLAVE
    ensures Complete(states[k]) && states[k].queue[states[k].delivered] == states[k].delivered
  {
    hide HeadLen, Step;
    Reachable(pool, events, states, k);
    var st := states[k];
    assert Enabled(pool, st, events[k]);
    assert RegionOk(st, st.delivered) && CounterOk(st, st.delivered);
  }

  /** Once everything has landed and been polled, the next message can be passed on. */
  lemma NotHeldBack(pool: int, events: seq<Event>, states: seq<State>, k: int)
    requires Behaviour(pool, events, states) && 0 <= k < |states| && pool <= SLAVE
    requires var st := states[k];
             !st.half && st.polledMeta == |st.msgs| && st.polledSlave == st.sendCount && st.delivered < |st.msgs|
    ensures Enabled(pool, states[k], Deliver)
  {
    hide HeadLen, Step;
    Reachable(pool, events, states, k);
    assert CounterOk(states[k], states[k].delivered);
  }

  lemma Extend(pool: int, events: seq<Event>, states: seq<State>, ev: Event)
    returns (events1: seq<Event>, states1: seq<State>)
    requires Behaviour(pool, events, states) && Enabled(pool, states[|events|], ev)
    ensures events1 == events + [ev] && states1 == states + [Step(pool, states[|events|], ev)]
    ensures Behaviour(pool, events1, states1)
  {
    hide Step, Enabled;
    events1, states1 := events + [ev], states + [Step(pool, states[|events|], ev)];
    forall k | 0 <= k < |events1|
      ensures Enabled(pool, states1[k], events1[k]) && states1[k + 1] == Step(pool, states1[k], events1[k])
    {
      assert k < |events| ==> events1[k] == events[k];
    }
  }

  /** A message is posted, lands over QP 0 and is polled there. */
  lemma SendAndPoll(pool: int, events: seq<Event>, states: seq<State>, msg: Msg)
    returns (events1: seq<Event>, states1: seq<State>)
    requires Behaviour(pool, events, states) && msg.idx < pool
    requires var st := states[|events|];
             !st.half && 0 <= st.landedData == st.landedMeta == st.polledMeta == |st.msgs| == |st.mem|
    ensures Behaviour(pool, events1, states1)
    ensures var st := states[|events|];
            var sent := Step(pool, st, SendHead(msg));
            states1[|events1|]
            == Sort(sent.(landedData := st.landedData + 1, landedMeta := st.landedMeta + 1, polledMeta := st.polledMeta + 1,
                          mem := FillMem(sent, |st.msgs|, 0, HeadLen(msg))),
                    |st.msgs|, msg.idx)
  {
    hide FillMem, HeadLen, Sort;
    events1, states1 := Extend(pool, events, states, SendHead(msg));
    events1, states1 := Extend(pool, events1, states1, LandData);
    events1, states1 := Extend(pool, events1, states1, LandMeta);
    events1, states1 := Extend(pool, events1, states1, PollMeta);
  }

  // ----- Progress

  /** How many steps are left until all messages posted are passed on. */
  ghost function Work(st: State): int {
    (if st.half then 1 else 0) + 4 * |st.msgs| - st.landedData - st.landedMeta - st.polledMeta - st.delivered
    + 2 * st.sendCount - st.landedSlave - st.polledSlave
  }

  /** Every step but posting a new message leaves one less, and changes nothing of what was posted. */
  lemma StepsCount(pool: int, st: State, ev: Event)
    requires Inv(st) && Enabled(pool, st, ev) && !ev.SendHead? && pool <= SLAVE
    ensures Work(Step(pool, st, ev)) == Work(st) - 1 && Step(pool, st, ev).msgs == st.msgs
  {
    hide HeadLen, FromMaster, SlaveImmediate, FillMem, RegionOk;
  }

  /** While something is left, a step can be taken. */
  lemma NextStep(pool: int, st: State) returns (ev: Event)
    requires Inv(st) && Work(st) > 0 && pool <= SLAVE
    ensures Enabled(pool, st, ev) && !ev.SendHead?
  {
    hide HeadLen, RegionOk;
    if st.half {
      ev := SendTail;
    } else if st.landedMeta < st.landedData {
      ev := LandMeta;
    } else if st.landedData < |st.msgs| {
      ev := LandData;
    } else if st.polledMeta < st.landedMeta {
      ev := PollMeta;
    } else if st.landedSlave < Posted(st) {
      ev := LandSlave;
    } else if st.polledSlave < st.landedSlave {
      assert SplitOk(st, st.polledSlave);
      ev := PollSlave;
    } else {
      assert CounterOk(st, st.delivered);
      ev := Deliver;
    }
  }

  /** So from every state of every run all messages posted can be passed on, in a number of steps known beforehand. */
  lemma {:induction false} EverythingGetsThrough(pool: int, events: seq<Event>, states: seq<State>)
    returns (events1: seq<Event>, states1: seq<State>)
    requires Behaviour(pool, events, states) && pool <= SLAVE
    ensures Work(states[|events|]) >= 0
    ensures Behaviour(pool, events1, states1) && events <= events1 && |events1| == |events| + Work(states[|events|])
    ensures var last := states1[|events1|]; last.msgs == states[|events|].msgs && last.delivered == |last.msgs|
    decreases if Work(states[|events|]) < 0 then 0 else Work(states[|events|])
  {
    hide Step, Enabled, CounterOk, SplitOk, RegionOk, QueueOk;
    events1, states1 := events, states;
    var st := states[|events|];
    Reachable(pool, events, states, |events|);
    if Work(st) > 0 {
      var ev := NextStep(pool, st);
      StepsCount(pool, st, ev);
      events1, states1 := Extend(pool, events, states, ev);
      events1, states1 := EverythingGetsThrough(pool, events1, states1);
    }
  }

  /**
   With a larger pool: the completion of a message with index 0x8000 is taken for a
   slave chunk, so the message is never queued, and the next split message is passed
   on before its slave chunk has even been posted.
   */
  lemma LargePoolFails(pool: int) returns (events: seq<Event>, states: seq<State>, k: int)
    requires pool > SLAVE
    ensures Behaviour(pool, events, states) && 0 <= k < |events| && events[k] == Deliver && !Complete(states[k])
  {
    hide FromMaster;
    ImmediateTold(0);
    var first, second := Plain(SLAVE, []), Split(0, [5, 6]);
    events, states := SendAndPoll(pool, [], [Init], first);
    events, states := SendAndPoll(pool, events, states, second);
    k := |events|;
    var st := states[k];
    assert st.queue == [1] && st.msgs[1] == second && st.mem[1][1] == None;
    events, states := Extend(pool, events, states, Deliver);
  }

  /** So messages are passed on complete in every run exactly when no index of the pool has bit 15 set. */
  lemma CompleteIff(pool: int)
    ensures pool <= SLAVE <==>
      forall events, states, k {:trigger Behaviour(pool, events, states), events[k]} ::
        Behaviour(pool, events, states) && 0 <= k < |events| && events[k] == Deliver ==> Complete(states[k])
    ensures ADDRESS_POOL_SIZE <= SLAVE
  {
    hide Complete, Step, Enabled;
    if pool <= SLAVE {
      forall events, states, k | Behaviour(pool, events, states) && 0 <= k < |events| && events[k] == Deliver
        ensures Complete(states[k])
      {
        DeliveredComplete(pool, events, states, k);
      }
    } else {
      var events, states, k := LargePoolFails(pool);
      assert events[k] == Deliver;
    }
  }
}
