/**
 The server's queues in fserver: RequestHandler puts each request into the queue of
 its worker and sets the worker's bit in `q_signal_`; get_batch waits until every
 bit is set and takes one request from each queue.  The wait loop reads the mask
 without holding the lock, so handlers and the consumer interleave step by step.
 */
module BatchQueue {
  import opened Bits

  datatype Entry = Entry(id: int, body: int)

  /** The mask with one bit per worker; `int` shifts limit it to 30 workers. */
  function Mask(n: nat): nat {
    Pow2(n) - 1
  }

  ghost predicate BitOk(q: seq<seq<Entry>>, signal: nat, i: nat) {
    Bit(signal, i) <==> i < |q| && q[i] != []
  }

  /** Bit `i` is set exactly when queue `i` holds something. */
  ghost predicate SignalOk(q: seq<seq<Entry>>, signal: nat) {
    forall i: nat {:trigger BitOk(q, signal, i)} :: BitOk(q, signal, i)
  }

  /** As SignalOk, except that the bit of `r` may still be missing. */
  ghost predicate SignalBut(q: seq<seq<Entry>>, signal: nat, r: nat) {
    && (forall i: nat {:trigger BitOk(q, signal, i)} :: i != r ==> BitOk(q, signal, i))
    && r < |q| && q[r] != []
  }

  lemma OthersKeepBits(q: seq<seq<Entry>>, signal: nat, r: nat, e: Entry)
    requires SignalOk(q, signal) && r < |q|
    ensures SignalBut(q[r := q[r] + [e]], signal, r)
  {
    var q1 := q[r := q[r] + [e]];
    forall i: nat | i != r ensures BitOk(q1, signal, i) {
      assert BitOk(q, signal, i);
    }
  }

  lemma SetBit(q: seq<seq<Entry>>, signal: nat, r: nat)
    requires SignalBut(q, signal, r)
    ensures SignalOk(q, Or(signal, Pow2(r)))
  {
    forall i: nat ensures BitOk(q, Or(signal, Pow2(r)), i) {
      BitOr(signal, Pow2(r), i);
      BitPow2(r, i);
      assert i != r ==> BitOk(q, signal, i);
    }
  }

  /** Seeing the full mask means that no queue is empty, also while a handler is at work. */
  lemma FullMask(q: seq<seq<Entry>>, r: nat)
    requires SignalBut(q, Mask(|q|), r) || SignalOk(q, Mask(|q|))
    ensures forall i {:trigger q[i]} :: 0 <= i < |q| ==> q[i] != []
  {
    forall i | 0 <= i < |q| ensures q[i] != [] {
      BitMask(|q|, i);
      assert BitOk(q, Mask(|q|), i) || i == r;
    }
  }

  ghost predicate MaskBit(q: seq<seq<Entry>>, mask: nat, k: int, i: nat) {
    Bit(mask, i) <==> i < |q| && (i >= k || q[i] != [])
  }

  /** The mask under construction: bits below `k` are final, the others still set. */
  ghost predicate MaskUpTo(q: seq<seq<Entry>>, mask: nat, k: int) {
    forall i: nat {:trigger MaskBit(q, mask, k, i)} :: MaskBit(q, mask, k, i)
  }

  lemma MaskStarts(q: seq<seq<Entry>>)
    ensures MaskUpTo(q, Mask(|q|), 0)
  {
    forall i: nat ensures MaskBit(q, Mask(|q|), 0, i) {
      BitMask(|q|, i);
    }
  }

  function Clear(mask: nat, empty: bool, i: nat): nat {
    if empty then ClearBit(mask, i) else mask
  }

  lemma MaskGrows(q: seq<seq<Entry>>, mask: nat, k: nat)
    requires k < |q| && q[k] != [] && MaskUpTo(q, mask, k)
    ensures MaskUpTo(q[k := q[k][1..]], Clear(mask, q[k][1..] == [], k), k + 1)
  {
    hide ClearBit, Bit;
    var q1, mask1, k1 := q[k := q[k][1..]], Clear(mask, q[k][1..] == [], k), k + 1;
    forall i: nat ensures MaskBit(q1, mask1, k1, i) {
      assert MaskBit(q, mask, k, i);
      BitClear(mask, k, i);
    }
  }

  lemma MaskDone(q: seq<seq<Entry>>, mask: nat)
    requires MaskUpTo(q, mask, |q|)
    ensures SignalOk(q, mask)
  {
    forall i: nat ensures BitOk(q, mask, i) {
      assert MaskBit(q, mask, |q|, i);
    }
  }

  // ----- The two operations, each under the lock

  class ServerQueues {
    const numWorker: nat
    var q: seq<seq<Entry>>
    var signal: nat
    var counter: int
    var metas: map<int, int>

    ghost predicate Valid()
      reads this
    {
      |q| == numWorker && SignalOk(q, signal)
    }

    constructor (numWorker: nat)
      requires numWorker <= 30
      ensures Valid() && this.numWorker == numWorker && counter == 0 && metas == map[]
      ensures forall i :: 0 <= i < numWorker ==> q[i] == []
    {
      this.numWorker := numWorker;
      q, signal, counter, metas := seq(numWorker, i => []), 0, 0, map[];
      new;
      forall i: nat ensures BitOk(q, signal, i) {
        BitOfZero(i);
      }
    }

    method RequestHandler(rank: nat, body: int)
      requires Valid() && rank < numWorker
      modifies this
      ensures Valid() && counter == old(counter) + 1 && metas == old(metas)[old(counter) := body]
      ensures q == old(q)[rank := old(q)[rank] + [Entry(old(counter), body)]]
    {
      metas := metas[counter := body];
      OthersKeepBits(q, signal, rank, Entry(counter, body));
      q := q[rank := q[rank] + [Entry(counter, body)]];
      SetBit(q, signal, rank);
      signal := Or(signal, Pow2(rank));
      counter := counter + 1;
    }

    /** What get_batch does once it has seen the full mask. */
    method TakeBatch() returns (res: seq<Entry>)
      requires Valid() && forall i :: 0 <= i < numWorker ==> q[i] != []
      modifies this
      ensures Valid() && counter == old(counter) && metas == old(metas) && |res| == numWorker
      ensures forall i :: 0 <= i < numWorker ==> old(q)[i] == [res[i]] + q[i]
    {
      hide SignalOk, MaskUpTo, Mask;
      res := [];
      var mask := Mask(numWorker);
      MaskStarts(q);
      for i := 0 to numWorker
        invariant |q| == numWorker && MaskUpTo(q, mask, i) && |res| == i
        invariant forall j :: 0 <= j < i ==> old(q)[j] == [res[j]] + q[j]
        invariant forall j :: i <= j < numWorker ==> old(q)[j] == q[j]
        modifies this`q
      {
        MaskGrows(q, mask, i);
        res := res + [q[i][0]];
        q := q[i := q[i][1..]];
        mask := Clear(mask, q[i] == [], i);
      }
      MaskDone(q, mask);
      signal := mask;
    }
  }

  // ----- Handlers and the consumer interleaved

  /** Who holds the lock, and how far it has come. */
  datatype Holder = Free | Putting(rank: int, body: int, step: int) | Taking(i: int, mask: nat, res: seq<Entry>)

  /**
   `ready`: the consumer has seen the full mask and wants the lock.  The last three
   fields are history: what was put for each worker, where each id went, what was returned.
   */
  datatype State = State(
    q: seq<seq<Entry>>, signal: nat, counter: int, metas: map<int, int>, holder: Holder, ready: bool,
    accepted: seq<seq<Entry>>, log: seq<(int, int)>, batches: seq<seq<Entry>>)

  /** Load: one read of the mask in the wait loop; Put and Take: one step under the lock. */
  datatype Event = Enter(rank: int, body: int) | Put | Load | Lock | Take

  ghost predicate Enabled(st: State, ev: Event) {
    match ev
    case Enter(rank, body) => st.holder.Free? && 0 <= rank < |st.q| == |st.accepted|
    case Put => st.holder.Putting? && 0 <= st.holder.rank < |st.q| == |st.accepted|
    case Load => !st.ready && !st.holder.Taking?
    case Lock => st.ready && st.holder.Free?
    case Take => st.holder.Taking? && 0 <= st.holder.i <= |st.q| && (st.holder.i < |st.q| ==> st.q[st.holder.i] != [])
  }

  ghost function PutStep(st: State): State
    requires Enabled(st, Put)
  {
    var Putting(r, body, step) := st.holder;
    var e := Entry(st.counter, body);
    if step == 0 then st.(metas := st.metas[st.counter := body], holder := Putting(r, body, 1))
    else if step == 1 then
      st.(q := st.q[r := st.q[r] + [e]], holder := Putting(r, body, 2),
          accepted := st.accepted[r := st.accepted[r] + [e]], log := st.log + [(r, |st.accepted[r]|)])
    else if step == 2 then st.(signal := Or(st.signal, Pow2(r)), holder := Putting(r, body, 3))
    else st.(counter := st.counter + 1, holder := Free)
  }

  ghost function TakeStep(st: State): State
    requires Enabled(st, Take)
  {
    var Taking(i, mask, res) := st.holder;
    if i < |st.q| then
      st.(q := st.q[i := st.q[i][1..]],
          holder := Taking(i + 1, Clear(mask, st.q[i][1..] == [], i), res + [st.q[i][0]]))
    else st.(signal := mask, holder := Free, batches := st.batches + [res])
  }

  ghost function Step(st: State, ev: Event): State
    requires Enabled(st, ev)
  {
    match ev
    case Enter(rank, body) => st.(holder := Putting(rank, body, 0))
    case Put => PutStep(st)
    case Load => if st.signal == Mask(|st.q|) then st.(ready := true) else st
    case Lock => st.(holder := Taking(0, Mask(|st.q|), []), ready := false)
    case Take => TakeStep(st)
  }

  ghost predicate Full(q: seq<seq<Entry>>, from: int) {
    forall i {:trigger q[i]} :: 0 <= from <= i < |q| ==> q[i] != []
  }

  ghost predicate SignalInv(st: State) {
    && (st.ready ==> !st.holder.Taking? && Full(st.q, 0))
    && match st.holder
       case Free => SignalOk(st.q, st.signal)
       case Putting(r, _, step) =>
         && 0 <= r < |st.q| && 0 <= step <= 3
         && if step == 2 then SignalBut(st.q, st.signal, r) else SignalOk(st.q, st.signal)
       case Taking(i, mask, res) => 0 <= i <= |st.q| && |res| == i && MaskUpTo(st.q, mask, i) && Full(st.q, i)
  }

  /** How many requests of worker `i` have been taken. */
  ghost function TakenOf(st: State, i: int): int {
    |st.batches| + if st.holder.Taking? && i < st.holder.i then 1 else 0
  }

  ghost predicate QueueOk(st: State, i: int)
    requires 0 <= i < |st.q| == |st.accepted|
  {
    && TakenOf(st, i) <= |st.accepted[i]| && st.q[i] == st.accepted[i][TakenOf(st, i)..]
    && (st.holder.Taking? && i < st.holder.i <= |st.holder.res| ==> st.holder.res[i] == st.accepted[i][|st.batches|])
    && forall b {:trigger st.batches[b]} :: 0 <= b < |st.batches| ==>
         |st.batches[b]| == |st.q| && st.batches[b][i] == st.accepted[i][b]
  }

  ghost predicate FlowInv(st: State) {
    && |st.q| == |st.accepted|
    && (st.holder.Taking? ==> 0 <= st.holder.i == |st.holder.res| <= |st.q|)
    && (forall b {:trigger st.batches[b]} :: 0 <= b < |st.batches| ==> |st.batches[b]| == |st.q|)
    && forall i {:trigger QueueOk(st, i)} :: 0 <= i < |st.q| ==> QueueOk(st, i)
  }

  ghost predicate IdOk(st: State, d: int)
    requires 0 <= d < |st.log|
  {
    var (i, j) := st.log[d];
    0 <= i < |st.accepted| && 0 <= j < |st.accepted[i]| && st.accepted[i][j].id == d
  }

  ghost predicate EntryOk(st: State, i: int, j: int)
    requires 0 <= i < |st.accepted| && 0 <= j < |st.accepted[i]|
  {
    var Entry(id, body) := st.accepted[i][j];
    0 <= id < |st.log| && st.log[id] == (i, j) && id in st.metas && st.metas[id] == body
  }

  /** Ids and accepted requests are in one-to-one correspondence. */
  ghost predicate IdsInv(st: State) {
    && 0 <= st.counter && |st.log| == st.counter + (if st.holder.Putting? && st.holder.step >= 2 then 1 else 0)
    && (st.holder.Putting? && st.holder.step == 1 ==> st.counter in st.metas && st.metas[st.counter] == st.holder.body)
    && (forall d {:trigger IdOk(st, d)} :: 0 <= d < |st.log| ==> IdOk(st, d))
    && (forall i, j {:trigger EntryOk(st, i, j)} :: 0 <= i < |st.accepted| && 0 <= j < |st.accepted[i]| ==> EntryOk(st, i, j))
  }

  // ----- Each step keeps the invariants

  lemma PutKeepsSignal(st: State)
    requires SignalInv(st) && Enabled(st, Put)
    ensures SignalInv(PutStep(st))
  {
    hide SignalOk, SignalBut;
    var Putting(r, body, step) := st.holder;
    if step == 1 {
      OthersKeepBits(st.q, st.signal, r, Entry(st.counter, body));
    } else if step == 2 {
      SetBit(st.q, st.signal, r);
    }
  }

  lemma TakeKeepsSignal(st: State)
    requires SignalInv(st) && Enabled(st, Take)
    ensures SignalInv(TakeStep(st))
  {
    hide SignalOk, MaskUpTo;
    var Taking(i, mask, res) := st.holder;
    if i < |st.q| {
      MaskGrows(st.q, mask, i);
    } else {
      MaskDone(st.q, mask);
    }
  }

  lemma StepKeepsSignal(st: State, ev: Event)
    requires SignalInv(st) && Enabled(st, ev)
    ensures SignalInv(Step(st, ev))
  {
    hide SignalOk, SignalBut, MaskUpTo, PutStep, TakeStep;
    match ev
    case Enter(_, _) =>
    case Put => PutKeepsSignal(st);
    case Load =>
      if st.signal == Mask(|st.q|) {
        FullMask(st.q, if st.holder.Putting? then st.holder.rank else 0);
      }
    case Lock => MaskStarts(st.q);
    case Take => TakeKeepsSignal(st);
  }

  lemma StepKeepsFlow(st: State, ev: Event)
    requires FlowInv(st) && Enabled(st, ev)
    ensures FlowInv(Step(st, ev))
  {
    var st1 := Step(st, ev);
    forall i | 0 <= i < |st1.q| ensures QueueOk(st1, i) {
      assert QueueOk(st, i);
    }
  }

  lemma StepKeepsIds(st: State, ev: Event)
    requires IdsInv(st) && Enabled(st, ev) && (st.holder.Putting? ==> 0 <= st.holder.step <= 3)
    ensures IdsInv(Step(st, ev))
  {
    var st1 := Step(st, ev);
    forall d | 0 <= d < |st1.log| ensures IdOk(st1, d) {
      assert d < |st.log| ==> IdOk(st, d);
    }
    forall i, j | 0 <= i < |st1.accepted| && 0 <= j < |st1.accepted[i]| ensures EntryOk(st1, i, j) {
      assert j < |st.accepted[i]| ==> EntryOk(st, i, j);
    }
  }

  // ----- Whole runs

  ghost function Init(n: nat): State {
    State(seq(n, i => []), 0, 0, map[], Free, false, seq(n, i => []), [], [])
  }

  ghost predicate Behaviour(n: nat, events: seq<Event>, states: seq<State>) {
    && |states| == |events| + 1 && states[0] == Init(n)
    && forall k {:trigger events[k]} :: 0 <= k < |events| ==>
         Enabled(states[k], events[k]) && states[k + 1] == Step(states[k], events[k])
  }

  lemma InitOk(n: nat)
    ensures SignalInv(Init(n)) && FlowInv(Init(n)) && IdsInv(Init(n))
  {
    var st := Init(n);
    forall i: nat ensures BitOk(st.q, st.signal, i) {
      BitOfZero(i);
    }
    forall i | 0 <= i < n ensures QueueOk(st, i) {}
  }

  lemma {:induction false} Reachable(n: nat, events: seq<Event>, states: seq<State>, k: int)
    requires Behaviour(n, events, states) && 0 <= k < |states|
    ensures SignalInv(states[k]) && FlowInv(states[k]) && IdsInv(states[k]) && |states[k].q| == n
    decreases k
  {
    if k == 0 {
      InitOk(n);
    } else {
      var st, ev := states[k - 1], events[k - 1];
      Reachable(n, events, states, k - 1);
      StepKeeps(st, ev);
    }
  }

  lemma StepKeeps(st: State, ev: Event)
    requires SignalInv(st) && FlowInv(st) && IdsInv(st) && Enabled(st, ev)
    ensures var st1 := Step(st, ev); SignalInv(st1) && FlowInv(st1) && IdsInv(st1) && |st1.q| == |st.q|
  {
    hide FlowInv, IdsInv, SignalOk, SignalBut, MaskUpTo;
    StepKeepsSignal(st, ev);
    StepKeepsFlow(st, ev);
    StepKeepsIds(st, ev);
  }

  /** Whenever the lock is free, bit `i` tells whether queue `i` holds something. */
  lemma SignalTellsQueues(n: nat, events: seq<Event>, states: seq<State>, k: int, i: nat)
    requires Behaviour(n, events, states) && 0 <= k < |states| && states[k].holder.Free?
    ensures Bit(states[k].signal, i) <==> i < n && |states[k].q| == n && states[k].q[i] != []
  {
    Reachable(n, events, states, k);
    assert BitOk(states[k].q, states[k].signal, i);
  }

  /**
   The consumer never takes from an empty queue, and waits no longer than there is need
   to: with the lock free, a look at the mask makes it ready exactly when no queue is
   empty, and then it can have the lock.
   */
  lemma NeverStuck(n: nat, events: seq<Event>, states: seq<State>, k: int)
    requires Behaviour(n, events, states) && 0 <= k < |states|
    ensures states[k].holder.Taking? ==> Enabled(states[k], Take)
    ensures states[k].holder.Free? && !states[k].ready ==> Enabled(states[k], Load)
    ensures states[k].holder.Free? && !states[k].ready ==>
      var st1 := Step(states[k], Load);
      (st1.ready <==> Full(states[k].q, 0)) && (st1.ready <==> Enabled(st1, Lock))
  {
    var st := states[k];
    Reachable(n, events, states, k);
    if st.holder.Free? && st.signal == Mask(n) {
      forall i | 0 <= i < |st.q| ensures st.q[i] != [] {
        assert BitOk(st.q, st.signal, i);
        BitMask(n, i);
      }
    }
    if st.holder.Free? && Full(st.q, 0) {
      forall i: nat ensures Bit(st.signal, i) <==> Bit(Mask(n), i) {
        assert BitOk(st.q, st.signal, i);
        BitMask(n, i);
      }
      BitsDetermine(st.signal, Mask(n));
    }
  }

  /** Steps until the holder of the lock lets it go. */
  ghost function StepsLeft(st: State): int {
    match st.holder
    case Free => 0
    case Putting(_, _, step) => 4 - step
    case Taking(i, _, _) => |st.q| - i + 1
  }

  /**
   A holder of the lock takes a known number of steps and lets it go, having put the one
   request it came with, or taken one batch.
   */
  lemma HolderFinishes(n: nat, events: seq<Event>, states: seq<State>, k: int)
    requires Behaviour(n, events, states) && 0 <= k < |states| && !states[k].holder.Free?
    ensures var st, ev := states[k], if states[k].holder.Putting? then Put else Take;
            && Enabled(st, ev) && StepsLeft(st) > 0
            && var st1 := Step(st, ev);
               && StepsLeft(st1) == StepsLeft(st) - 1 && (StepsLeft(st1) == 0 <==> st1.holder.Free?)
               && |st1.batches| == |st.batches| + (if ev == Take && st1.holder.Free? then 1 else 0)
               && |st1.log| == |st.log| + (if ev == Put && st.holder.step == 1 then 1 else 0)
  {
    Reachable(n, events, states, k);
  }

  /**
   The `b`-th call returns one request per worker in rank order, namely the `b`-th
   of that worker; what has not been returned is still queued in order.
   */
  lemma BatchesInOrder(n: nat, events: seq<Event>, states: seq<State>, k: int, i: int)
    requires Behaviour(n, events, states) && 0 <= k < |states| && 0 <= i < n
    ensures var st := states[k];
            && |st.q| == |st.accepted| == n
            && (forall b {:trigger st.batches[b]} :: 0 <= b < |st.batches| ==>
                  |st.batches[b]| == n && b < |st.accepted[i]| && st.batches[b][i] == st.accepted[i][b])
            && (!st.holder.Taking? ==> |st.batches| <= |st.accepted[i]| && st.q[i] == st.accepted[i][|st.batches|..])
  {
    Reachable(n, events, states, k);
    assert QueueOk(states[k], i);
  }

  /** No two requests have the same id. */
  lemma IdsAreUnique(n: nat, events: seq<Event>, states: seq<State>, k: int, i: int, j: int, i': int, j': int)
    requires Behaviour(n, events, states) && 0 <= k < |states|
    requires var acc := states[k].accepted;
             0 <= i < |acc| && 0 <= j < |acc[i]| && 0 <= i' < |acc| && 0 <= j' < |acc[i']| && acc[i][j].id == acc[i'][j'].id
    ensures i == i' && j == j'
  {
    Reachable(n, events, states, k);
    assert EntryOk(states[k], i, j) && EntryOk(states[k], i', j');
  }

  /** Every id handed out belongs to a request that was put, and its meta data is on record. */
  lemma IdsAreUsed(n: nat, events: seq<Event>, states: seq<State>, k: int, d: int) returns (i: int, j: int)
    requires Behaviour(n, events, states) && 0 <= k < |states| && 0 <= d < states[k].counter
    ensures var st := states[k];
            0 <= i < |st.accepted| && 0 <= j < |st.accepted[i]| && st.accepted[i][j].id == d
            && d in st.metas && st.metas[d] == st.accepted[i][j].body
  {
    var st := states[k];
    Reachable(n, events, states, k);
    assert IdOk(st, d);
    i, j := st.log[d].0, st.log[d].1;
    assert EntryOk(st, i, j);
  }
}
