/**
 The lock-free ring of ThreadsafeQueue with one producer and one consumer.
 Every load and store of the shared `head`, `tail` and `buffer` is one step of
 its thread; the threads interleave at every step.
 */
module SpscRing {
  import Arith
  import opened Modular

  const MAX_SPINS: int := 5000

  /** Where the producer stands inside PushAtomic. */
  datatype Producer<T> =
    | PIdle
    | Loaded(val: T, at: int)
    | MayWrite(val: T, at: int)
    | Written(val: T, at: int)

  /** Where the consumer stands inside WaitAndPopAtomic. */
  datatype Consumer<T> =
    | CIdle
    | Spinning(at: int, count: int)
    | Reloading
    | MayRead(at: int)
    | HasRead(val: T, at: int)

  /** A scheduler's choice; `Offer` is a call of PushAtomic. */
  datatype Turn<T> = Offer(val: T) | ProducerTurn | ConsumerTurn

  /** The shared memory, the two threads, and what has been offered, published and taken so far. */
  datatype Ring<T> = Ring(
    capacity: int, buffer: seq<T>, head: int, tail: int,
    producer: Producer<T>, consumer: Consumer<T>,
    offered: seq<T>, pushed: seq<T>, popped: seq<T>)
  {
    ghost predicate Indices() {
      && capacity >= 2 && |buffer| == capacity
      && tail == Wrap(|pushed|, capacity) && head == Wrap(|popped|, capacity)
      && 0 <= head < capacity && 0 <= tail < capacity
      && |popped| <= |pushed| < |popped| + capacity
    }

    /** Slots between head and tail hold the values not yet popped. */
    ghost predicate Stored()
      requires Indices()
    {
      forall i {:trigger Wrap(i, capacity)} :: |popped| <= i < |pushed| ==>
        0 <= Wrap(i, capacity) < capacity && buffer[Wrap(i, capacity)] == pushed[i]
    }

    ghost predicate ProducerOk()
      requires Indices()
    {
      match producer
      case PIdle => offered == pushed
      case Loaded(v, t) => offered == pushed + [v] && t == tail
      case MayWrite(v, t) => offered == pushed + [v] && t == tail && |pushed| + 1 < |popped| + capacity
      case Written(v, t) => offered == pushed + [v] && t == tail && |pushed| + 1 < |popped| + capacity && buffer[t] == v
    }

    ghost predicate ConsumerOk()
      requires Indices()
    {
      match consumer
      case Spinning(h, _) => h == head
      case MayRead(h) => h == head && |popped| < |pushed|
      case HasRead(v, h) => h == head && |popped| < |pushed| && v == pushed[|popped|]
      case _ => true
    }

    ghost predicate Inv() {
      Indices() && Stored() && ProducerOk() && ConsumerOk() && popped <= pushed
    }
  }

  ghost function Start<T>(capacity: int, buffer: seq<T>): Ring<T> {
    Ring(capacity, buffer, 0, 0, PIdle, CIdle, [], [], [])
  }

  /** One load or store of PushAtomic. */
  ghost function ProducerStep<T>(r: Ring<T>): Ring<T>
    requires r.Indices() && r.ProducerOk()
  {
    match r.producer
    case PIdle => r
    case Loaded(v, t) => if (t + 1) % r.capacity == r.head then r else r.(producer := MayWrite(v, t))
    case MayWrite(v, t) => r.(buffer := r.buffer[t := v], producer := Written(v, t))
    case Written(v, t) => r.(tail := (t + 1) % r.capacity, producer := PIdle, pushed := r.pushed + [v])
  }

  /** One load or store of WaitAndPopAtomic. */
  ghost function ConsumerStep<T>(r: Ring<T>): Ring<T>
    requires r.Indices() && r.ConsumerOk()
  {
    match r.consumer
    case CIdle => r.(consumer := Spinning(r.head, 0))
    case Spinning(h, count) =>
      if h != r.tail then r.(consumer := MayRead(h))
      else if count + 1 > MAX_SPINS then r.(consumer := Reloading)
      else r.(consumer := Spinning(h, count + 1))
    case Reloading => r.(consumer := Spinning(r.head, 0))
    case MayRead(h) => r.(consumer := HasRead(r.buffer[h], h))
    case HasRead(v, h) => r.(head := (h + 1) % r.capacity, consumer := CIdle, popped := r.popped + [v])
  }

  ghost function Step<T>(r: Ring<T>, turn: Turn<T>): Ring<T>
    requires r.Inv()
  {
    match turn
    case Offer(v) => if r.producer.PIdle? then r.(producer := Loaded(v, r.tail), offered := r.offered + [v]) else r
    case ProducerTurn => ProducerStep(r)
    case ConsumerTurn => ConsumerStep(r)
  }

  /** When the slot after tail is not head, one more value fits. */
  lemma RoomLeft<T>(r: Ring<T>)
    requires r.Indices() && (r.tail + 1) % r.capacity != r.head
    ensures |r.pushed| + 1 < |r.popped| + r.capacity
  {
    hide Wrap;
    WrapNext(|r.pushed|, r.capacity);
    WrapAround(|r.popped|, r.capacity);
  }

  /** The slot the producer is about to write holds no value still to be popped. */
  lemma WritesFreeSlot<T>(r: Ring<T>)
    requires r.Inv() && r.producer.MayWrite?
    ensures forall i {:trigger Wrap(i, r.capacity)} :: |r.popped| <= i < |r.pushed| ==> Wrap(i, r.capacity) != r.producer.at
  {
    hide Wrap;
    forall i | |r.popped| <= i < |r.pushed| ensures Wrap(i, r.capacity) != r.tail {
      if Wrap(i, r.capacity) == r.tail { WrapSame(i, |r.pushed|, r.capacity); }
    }
  }

  lemma WriteKeeps<T>(r: Ring<T>)
    requires r.Inv() && r.producer.MayWrite?
    ensures ProducerStep(r).Inv()
  {
    hide Wrap;
    WritesFreeSlot(r);
  }

  lemma PublishKeeps<T>(r: Ring<T>)
    requires r.Inv() && r.producer.Written?
    ensures ProducerStep(r).Inv()
  {
    hide Wrap;
    WrapNext(|r.pushed|, r.capacity);
    WrapRange(|r.pushed| + 1, r.capacity);
    var r1 := ProducerStep(r);
    forall i | |r.popped| <= i < |r1.pushed|
      ensures 0 <= Wrap(i, r.capacity) < r.capacity && r1.buffer[Wrap(i, r.capacity)] == r1.pushed[i]
    {
      if i < |r.pushed| { assert r1.pushed[i] == r.pushed[i]; }
    }
  }

  lemma ProducerKeeps<T>(r: Ring<T>)
    requires r.Inv()
    ensures ProducerStep(r).Inv()
  {
    hide Wrap;
    match r.producer
    case PIdle =>
    case Loaded(v, t) =>
      if (t + 1) % r.capacity != r.head { RoomLeft(r); }
    case MayWrite(_, _) => WriteKeeps(r);
    case Written(_, _) => PublishKeeps(r);
  }

  lemma TakeKeeps<T>(r: Ring<T>)
    requires r.Inv() && r.consumer.HasRead?
    ensures ConsumerStep(r).Inv()
  {
    hide Wrap;
    WrapNext(|r.popped|, r.capacity);
    WrapRange(|r.popped| + 1, r.capacity);
  }

  lemma SpinKeeps<T>(r: Ring<T>)
    requires r.Inv() && r.consumer.Spinning?
    ensures ConsumerStep(r).Inv()
  {
  }

  lemma ConsumerKeeps<T>(r: Ring<T>)
    requires r.Inv()
    ensures ConsumerStep(r).Inv()
  {
    hide Wrap;
    match r.consumer
    case CIdle =>
    case Spinning(_, _) => SpinKeeps(r);
    case Reloading =>
    case MayRead(h) => assert r.buffer[h] == r.pushed[|r.popped|];
    case HasRead(_, _) => TakeKeeps(r);
  }

  /** No step of either thread breaks the ring. */
  lemma StepKeeps<T>(r: Ring<T>, turn: Turn<T>)
    requires r.Inv()
    ensures Step(r, turn).Inv()
  {
    hide Wrap, Ring.Inv, ProducerStep, ConsumerStep;
    match turn
    case Offer(v) => OfferKeeps(r, v);
    case ProducerTurn => ProducerKeeps(r);
    case ConsumerTurn => ConsumerKeeps(r);
  }

  lemma OfferKeeps<T>(r: Ring<T>, v: T)
    requires r.Inv()
    ensures Step(r, Offer(v)).Inv()
  {
  }

  // ----- Whole runs

  /** Every state met under a schedule. */
  ghost function Run<T>(capacity: int, buffer: seq<T>, schedule: seq<Turn<T>>): (r: Ring<T>)
    requires capacity >= 2 && |buffer| == capacity
    ensures r.Inv() && r.capacity == capacity
  {
    if schedule == [] then
      WrapSmall(0, capacity);
      Start(capacity, buffer)
    else
      var r := Run(capacity, buffer, schedule[..|schedule| - 1]);
      StepKeeps(r, schedule[|schedule| - 1]);
      Step(r, schedule[|schedule| - 1])
  }

  /**
   Under any schedule, the values popped are a prefix of the values pushed, which
   are all the values offered but for a push in progress, and at most
   `capacity - 1` values are held.
   */
  lemma Fifo<T>(capacity: int, buffer: seq<T>, schedule: seq<Turn<T>>)
    requires capacity >= 2 && |buffer| == capacity
    ensures var r := Run(capacity, buffer, schedule);
            && r.popped <= r.pushed <= r.offered && |r.offered| <= |r.pushed| + 1
            && |r.pushed| - |r.popped| <= capacity - 1
  {
  }

  /** The producer never writes the slot the consumer is about to read. */
  lemma NoWriteUnderRead<T>(capacity: int, buffer: seq<T>, schedule: seq<Turn<T>>)
    requires capacity >= 2 && |buffer| == capacity
    ensures var r := Run(capacity, buffer, schedule);
            r.producer.MayWrite? && r.consumer.MayRead? ==> r.producer.at != r.consumer.at
  {
    var r := Run(capacity, buffer, schedule);
    if r.producer.MayWrite? && r.consumer.MayRead? {
      WritesFreeSlot(r);
    }
  }

  ghost function ProducerSteps<T>(r: Ring<T>, n: nat): Ring<T>
    requires r.Inv()
    decreases n
  {
    if n == 0 then r else ProducerKeeps(r); ProducerSteps(ProducerStep(r), n - 1)
  }

  ghost function ConsumerSteps<T>(r: Ring<T>, n: nat): Ring<T>
    requires r.Inv()
    decreases n
  {
    if n == 0 then r else ConsumerKeeps(r); ConsumerSteps(ConsumerStep(r), n - 1)
  }

  /** With room, a push begun completes within three steps of the producer, from wherever it is. */
  lemma PushCompletes<T>(r: Ring<T>)
    requires r.Inv() && !r.producer.PIdle? && |r.pushed| + 1 < |r.popped| + r.capacity
    ensures var last := ProducerSteps(r, PushStepsLeft(r.producer));
            last.pushed == r.pushed + [r.producer.val] && last.producer.PIdle?
    decreases PushStepsLeft(r.producer)
  {
    hide Wrap;
    WrapNext(|r.pushed|, r.capacity);
    if (r.tail + 1) % r.capacity == r.head {
      WrapSame(|r.pushed| + 1, |r.popped|, r.capacity);
    }
    ProducerKeeps(r);
    var r1 := ProducerStep(r);
    if r.producer.Written? {
      assert ProducerSteps(r, 1) == ProducerSteps(r1, 0) == r1;
    } else {
      PushCompletes(r1);
    }
  }

  /** A push that begins with room completes, with the value offered. */
  lemma OfferCompletes<T>(r: Ring<T>, v: T)
    requires r.Inv() && r.producer.PIdle? && |r.pushed| + 1 < |r.popped| + r.capacity
    ensures Step(r, Offer(v)).Inv() && ProducerSteps(Step(r, Offer(v)), 3).pushed == r.pushed + [v]
  {
    hide Wrap;
    StepKeeps(r, Offer(v));
    PushCompletes(Step(r, Offer(v)));
  }

  ghost function PushStepsLeft<T>(p: Producer<T>): nat {
    match p
    case PIdle => 0
    case Loaded(_, _) => 3
    case MayWrite(_, _) => 2
    case Written(_, _) => 1
  }

  /** With a value waiting, a pop completes within four steps of the consumer, from wherever it is. */
  lemma PopCompletes<T>(r: Ring<T>)
    requires r.Inv() && |r.popped| < |r.pushed|
    ensures ConsumerSteps(r, PopStepsLeft(r.consumer)).popped == r.popped + [r.pushed[|r.popped|]]
    ensures ConsumerSteps(r, PopStepsLeft(r.consumer)).consumer.CIdle?
    decreases PopStepsLeft(r.consumer)
  {
    hide Wrap;
    if r.head == r.tail {
      WrapSame(|r.popped|, |r.pushed|, r.capacity);
    }
    ConsumerKeeps(r);
    var r1 := ConsumerStep(r);
    if r.consumer.HasRead? {
      assert ConsumerSteps(r, 1) == ConsumerSteps(r1, 0) == r1;
    } else {
      PopCompletes(r1);
    }
  }

  ghost function PopStepsLeft<T>(c: Consumer<T>): nat {
    match c
    case CIdle => 4
    case Reloading => 4
    case Spinning(_, _) => 3
    case MayRead(_) => 2
    case HasRead(_, _) => 1
  }

  // ----- SizeAtomic

  /** What SizeAtomic computes from the values it loaded. */
  function SizeFrom(tail: int, head: int, capacity: int): int {
    if tail >= head then tail - head else capacity - (head - tail)
  }

  ghost function Items<T>(r: Ring<T>): int {
    |r.pushed| - |r.popped|
  }

  /** Both loads in one state give the number of items. */
  lemma SizeAtOnce<T>(r: Ring<T>)
    requires r.Inv()
    ensures SizeFrom(r.tail, r.head, r.capacity) == Items(r)
  {
    hide Wrap;
    WrapRange(|r.popped|, r.capacity);
    WrapDistance(|r.popped|, Items(r), r.capacity);
  }

  /**
   With tail loaded in state `r` and head in state `s`, the size is the number of
   items at the load of head exactly when tail has come back to where it was, and
   the number of items at the load of tail exactly when head has.
   */
  lemma SizeExactIff<T>(r: Ring<T>, s: Ring<T>)
    requires r.Inv() && s.Inv() && r.capacity == s.capacity
    ensures SizeFrom(r.tail, s.head, r.capacity) == Items(s) <==> r.tail == s.tail
    ensures SizeFrom(r.tail, s.head, r.capacity) == Items(r) <==> r.head == s.head
  {
    SizeAtOnce(r);
    SizeAtOnce(s);
  }

  lemma RunStep<T>(capacity: int, buffer: seq<T>, before: seq<Turn<T>>, turn: Turn<T>)
    requires capacity >= 2 && |buffer| == capacity
    ensures Run(capacity, buffer, before + [turn]) == Step(Run(capacity, buffer, before), turn)
  {
    hide Ring.Inv, Step, Start;
    assert (before + [turn])[..|before|] == before;
  }

  /** Only the producer pushes and only the consumer pops. */
  lemma StepMoves<T>(r: Ring<T>, turn: Turn<T>)
    requires r.Inv()
    ensures if turn.ConsumerTurn? then Step(r, turn).pushed == r.pushed else Step(r, turn).popped == r.popped
  {
    hide Wrap;
  }

  lemma {:induction false} RunAppend<T>(capacity: int, buffer: seq<T>, before: seq<Turn<T>>, more: seq<Turn<T>>)
    requires capacity >= 2 && |buffer| == capacity
    ensures var r, s := Run(capacity, buffer, before), Run(capacity, buffer, before + more);
            && ((forall i {:trigger more[i]} :: 0 <= i < |more| ==> more[i].ConsumerTurn?) ==> s.pushed == r.pushed)
            && ((forall i {:trigger more[i]} :: 0 <= i < |more| ==> !more[i].ConsumerTurn?) ==> s.popped == r.popped)
    decreases |more|
  {
    hide Ring.Inv, Step, Run;
    if more == [] {
      assert before + more == before;
    } else {
      var init, turn := more[..|more| - 1], more[|more| - 1];
      RunAppend(capacity, buffer, before, init);
      assert before + more == (before + init) + [turn];
      RunStep(capacity, buffer, before + init, turn);
      StepMoves(Run(capacity, buffer, before + init), turn);
    }
  }

  /** Called by the producer, which pushes nothing meanwhile, the size is exact at the load of head. */
  lemma SizeForProducer<T>(capacity: int, buffer: seq<T>, before: seq<Turn<T>>, more: seq<Turn<T>>)
    requires capacity >= 2 && |buffer| == capacity
    requires forall i {:trigger more[i]} :: 0 <= i < |more| ==> more[i].ConsumerTurn?
    ensures var r, s := Run(capacity, buffer, before), Run(capacity, buffer, before + more);
            SizeFrom(r.tail, s.head, capacity) == Items(s)
  {
    RunAppend(capacity, buffer, before, more);
    SizeExactIff(Run(capacity, buffer, before), Run(capacity, buffer, before + more));
  }

  /** Called by the consumer, which pops nothing meanwhile, the size is exact at the load of tail. */
  lemma SizeForConsumer<T>(capacity: int, buffer: seq<T>, before: seq<Turn<T>>, more: seq<Turn<T>>)
    requires capacity >= 2 && |buffer| == capacity
    requires forall i {:trigger more[i]} :: 0 <= i < |more| ==> !more[i].ConsumerTurn?
    ensures var r, s := Run(capacity, buffer, before), Run(capacity, buffer, before + more);
            SizeFrom(r.tail, s.head, capacity) == Items(r)
  {
    RunAppend(capacity, buffer, before, more);
    SizeExactIff(Run(capacity, buffer, before), Run(capacity, buffer, before + more));
  }

  // A third thread: one value is pushed, tail is loaded, another is pushed and the first
  // popped, head is loaded.
  const ONE_PUSH: seq<Turn<int>> := [Offer(1), ProducerTurn, ProducerTurn, ProducerTurn]

  const PUSH_AND_POP: seq<Turn<int>> :=
    [Offer(2), ProducerTurn, ProducerTurn, ProducerTurn, ConsumerTurn, ConsumerTurn, ConsumerTurn, ConsumerTurn]

  const EIGHT: seq<int> := [0, 0, 0, 0, 0, 0, 0, 0]

  ghost function Meanwhile(k: nat): Ring<int>
    requires k <= |PUSH_AND_POP|
  {
    Run(8, EIGHT, ONE_PUSH + PUSH_AND_POP[..k])
  }

  lemma MeanwhileStep(k: nat)
    requires k < |PUSH_AND_POP|
    ensures Meanwhile(k + 1) == Step(Meanwhile(k), PUSH_AND_POP[k])
  {
    hide Ring.Inv, Step, Run;
    assert ONE_PUSH + PUSH_AND_POP[..k + 1] == (ONE_PUSH + PUSH_AND_POP[..k]) + [PUSH_AND_POP[k]];
    RunStep(8, EIGHT, ONE_PUSH + PUSH_AND_POP[..k], PUSH_AND_POP[k]);
  }

  lemma FirstPush()
    ensures Meanwhile(0) == Ring(8, EIGHT[0 := 1], 0, 1, PIdle, CIdle, [1], [1], [])
  {
    hide Ring.Inv, Ring.Indices, Ring.ProducerOk, Wrap;
    assert Run(8, EIGHT, []) == Start(8, EIGHT);
    assert [] + [Offer(1)] == [Offer(1)];
    RunStep(8, EIGHT, [], Offer(1));
    assert [Offer(1)] + [ProducerTurn] == [Offer(1), ProducerTurn];
    RunStep(8, EIGHT, [Offer(1)], ProducerTurn);
    assert [Offer(1), ProducerTurn] + [ProducerTurn] == [Offer(1), ProducerTurn, ProducerTurn];
    RunStep(8, EIGHT, [Offer(1), ProducerTurn], ProducerTurn);
    assert [Offer(1), ProducerTurn, ProducerTurn] + [ProducerTurn] == ONE_PUSH + PUSH_AND_POP[..0];
    RunStep(8, EIGHT, [Offer(1), ProducerTurn, ProducerTurn], ProducerTurn);
  }

  lemma SecondPush()
    ensures Items(Meanwhile(1)) == Items(Meanwhile(2)) == Items(Meanwhile(3)) == 1
    ensures Meanwhile(4) == Ring(8, EIGHT[0 := 1][1 := 2], 0, 2, PIdle, CIdle, [1] + [2], [1] + [2], [])
  {
    hide Ring.Inv, Ring.Indices, Ring.ProducerOk, Wrap, Meanwhile;
    FirstPush();
    MeanwhileStep(0);
    MeanwhileStep(1);
    MeanwhileStep(2);
    MeanwhileStep(3);
  }

  lemma FirstPop()
    ensures Items(Meanwhile(5)) == Items(Meanwhile(6)) == Items(Meanwhile(7)) == 2
    ensures Items(Meanwhile(8)) == 1 && Meanwhile(8).head == 1
  {
    hide Ring.Inv, Ring.Indices, Ring.ConsumerOk, Wrap, Meanwhile;
    SecondPush();
    MeanwhileStep(4);
    MeanwhileStep(5);
    MeanwhileStep(6);
    MeanwhileStep(7);
  }

  /** The size reported there is 0, though the ring holds an item in every state in between. */
  lemma SizeOfNoState()
    ensures SizeFrom(Meanwhile(0).tail, Meanwhile(|PUSH_AND_POP|).head, 8) == 0
    ensures forall k: nat {:trigger Meanwhile(k)} :: k <= |PUSH_AND_POP| ==> Items(Meanwhile(k)) >= 1
  {
    hide Meanwhile;
    FirstPush();
    SecondPush();
    FirstPop();
    forall k: nat | k <= |PUSH_AND_POP| ensures Items(Meanwhile(k)) >= 1 {
      assert k == 0 || k == 1 || k == 2 || k == 3 || k == 4 || k == 5 || k == 6 || k == 7 || k == 8;
    }
  }

  lemma {:induction false} WrapDistance(n: int, d: int, m: int)
    requires m > 0 && 0 <= d < m
    ensures Wrap(n + d, m) == if Wrap(n, m) + d < m then Wrap(n, m) + d else Wrap(n, m) + d - m
    decreases d
  {
    hide Wrap;
    WrapRange(n, m);
    if d > 0 {
      WrapDistance(n, d - 1, m);
      WrapNext(n + d - 1, m);
      var w := Wrap(n + d - 1, m);
      assert (w + 1) % m == if w + 1 < m then w + 1 else 0 by {
        Arith.Wraps(w + 1, m);
      }
    }
  }
}
