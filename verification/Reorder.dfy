/**
 The sequence-id reordering of the UCX van.  A sender numbers its push/pull
 requests modulo `m`; the reorder thread releases them in sending order and
 keeps early arrivals in a side buffer per sender.
 */
module Reorder {
  import Finite
  import opened Modular

  /** A received buffer; `sequenced` says it is a push/pull request. */
  datatype Buffer = Buffer(sender: int, sequenced: bool, sid: int, body: int)

  datatype State = State(next: map<int, int>, held: map<int, map<int, Buffer>>, ordered: seq<Buffer>)

  function NextOf(st: State, s: int): int {
    if s in st.next then st.next[s] else 0
  }

  function HeldOf(st: State, s: int): map<int, Buffer> {
    if s in st.held then st.held[s] else map[]
  }

  function Succ(sid: int, m: int): int
    requires m > 0
  {
    (sid + 1) % m
  }

  /** The drain loop from position `next`: where it stops, what stays, what is released. */
  function Drain(m: int, next: int, held: map<int, Buffer>): (int, map<int, Buffer>, seq<Buffer>)
    requires m > 0
    decreases |held|
  {
    var n := Succ(next, m);
    if n in held then
      ShrinkMap(held, n);
      var (stop, rest, out) := Drain(m, n, held - {n});
      (stop, rest, [held[n]] + out)
    else (n, held, [])
  }

  lemma ShrinkMap(held: map<int, Buffer>, n: int)
    requires n in held
    ensures |held - {n}| < |held|
  {
  }

  /** One round of the reorder loop. */
  function Receive(m: int, force: bool, st: State, b: Buffer): State
    requires m > 0
  {
    if !b.sequenced || !force then st.(ordered := st.ordered + [b])
    else if b.sid == NextOf(st, b.sender) then
      var (stop, rest, out) := Drain(m, b.sid, HeldOf(st, b.sender));
      State(st.next[b.sender := stop], st.held[b.sender := rest], st.ordered + [b] + out)
    else
      State(st.next[b.sender := NextOf(st, b.sender)],
            st.held[b.sender := HeldOf(st, b.sender)[b.sid := b]], st.ordered)
  }

  class UcxVan {
    const maxSid: int
    const forceOrder: bool
    var nextSend: map<int, int>
    var nextRecv: map<int, int>
    var recvBuffers: map<int, map<int, Buffer>>
    var ordered: seq<Buffer>
    ghost var sent: map<int, int>

    constructor (maxSid: int, forceOrder: bool)
      requires maxSid > 0
      ensures this.maxSid == maxSid && this.forceOrder == forceOrder && Valid()
      ensures St() == State(map[], map[], []) && sent == map[]
    {
      this.maxSid, this.forceOrder := maxSid, forceOrder;
      nextSend, nextRecv, recvBuffers, ordered := map[], map[], map[], [];
      sent := map[];
    }

    /** `nextSend` is the number of requests sent, up to the modulus. */
    ghost predicate Valid()
      reads this
    {
      && maxSid > 0 && nextSend.Keys == sent.Keys
      && forall id :: id in sent ==> 0 < sent[id] && nextSend[id] == Wrap(sent[id] - 1, maxSid) + 1
    }

    ghost function St(): State
      reads this
    {
      State(nextRecv, recvBuffers, ordered)
    }

    ghost function Sent(id: int): int
      reads this
    {
      if id in sent then sent[id] else 0
    }

    /** Number a request: the k-th one to a peer gets `k` modulo `maxSid`. */
    method AssignSid(id: int) returns (sid: int)
      requires Valid()
      modifies this`nextSend, this`sent
      ensures Valid() && sid == Wrap(old(Sent(id)), maxSid)
      ensures sent == old(sent)[id := old(Sent(id)) + 1]
    {
      hide Wrap;
      ghost var k := Sent(id);
      var next := if id in nextSend then nextSend[id] else 0;
      NumberingStep(k, next, maxSid);
      sid := next % maxSid;
      nextSend := nextSend[id := sid + 1];
      sent := sent[id := k + 1];
    }

    /** Release the buffered successors of `start`, in order, as far as they reach. */
    method DrainHeld(start: int, held: map<int, Buffer>) returns (next: int, buffs: map<int, Buffer>)
      requires maxSid > 0
      modifies this`ordered
      ensures var d := Drain(maxSid, start, held); next == d.0 && buffs == d.1 && ordered == old(ordered) + d.2
    {
      next, buffs := start, held;
      ghost var goal := Drain(maxSid, next, buffs);
      while true
        invariant var d := Drain(maxSid, next, buffs);
                  d.0 == goal.0 && d.1 == goal.1 && ordered + d.2 == old(ordered) + goal.2
        decreases |buffs|
      {
        ghost var d := Drain(maxSid, next, buffs);
        next := (next + 1) % maxSid;
        if next !in buffs {
          assert ordered + d.2 == ordered;
          return;
        }
        ShrinkMap(buffs, next);
        ordered := ordered + [buffs[next]];
        buffs := buffs - {next};
        assert d.2 == [d.2[0]] + Drain(maxSid, next, buffs).2;
      }
    }

    /** Not `ok`: a negative sid or sender where order is forced, which is fatal. */
    method ReorderMsg(buf: Buffer) returns (ok: bool)
      requires Valid()
      modifies this`nextRecv, this`recvBuffers, this`ordered
      ensures Valid() && (ok <==> !buf.sequenced || !forceOrder || (buf.sid >= 0 && buf.sender >= 0))
      ensures St() == if ok then Receive(maxSid, forceOrder, old(St()), buf) else old(St())
    {
      ok := true;
      if !buf.sequenced || !forceOrder {
        ordered := ordered + [buf];
        return;
      }
      if buf.sid < 0 || buf.sender < 0 {
        return false;
      }
      var next := if buf.sender in nextRecv then nextRecv[buf.sender] else 0;
      var buffs := if buf.sender in recvBuffers then recvBuffers[buf.sender] else map[];
      if buf.sid == next {
        ordered := ordered + [buf];
        next, buffs := DrainHeld(next, buffs);
        nextRecv := nextRecv[buf.sender := next];
        recvBuffers := recvBuffers[buf.sender := buffs];
      } else {
        nextRecv := nextRecv[buf.sender := next];
        recvBuffers := recvBuffers[buf.sender := buffs[buf.sid := buf]];
      }
    }
  }

  lemma NumberingStep(k: int, next: int, m: int)
    requires m > 0 && k >= 0 && next == if k == 0 then 0 else Wrap(k - 1, m) + 1
    ensures next % m == Wrap(k, m)
  {
    if k > 0 {
      WrapNext(k - 1, m);
    }
  }

  // ----- Runs of one sender's lane

  /** The messages numbered `lo` to `hi - 1`, in sending order. */
  ghost function Messages(msg: int -> Buffer, lo: int, hi: int): seq<Buffer>
    decreases hi - lo
  {
    if lo >= hi then [] else [msg(lo)] + Messages(msg, lo + 1, hi)
  }

  /** `held` is the side buffer for the received numbers beyond `at`. */
  ghost predicate Holds(m: int, msg: int -> Buffer, got: set<int>, at: int, held: map<int, Buffer>)
    requires m > 0
  {
    && (forall n {:trigger Wrap(n, m)} :: at < n < at + m ==> (n in got <==> Wrap(n, m) in held))
    && (forall n {:trigger n in got} :: at < n < at + m && n in got ==> Wrap(n, m) in held && held[Wrap(n, m)] == msg(n))
    && (forall k {:trigger k in held} :: k in held ==> 0 <= k < m && k != Wrap(at, m))
  }

  /** `n` is the least number not received. */
  ghost predicate Frontier(got: set<int>, n: int) {
    n >= 0 && n !in got && AllBelow(got, n)
  }

  ghost predicate AllBelow(got: set<int>, n: int) {
    forall i :: 0 <= i < n ==> i in got
  }

  ghost predicate Within(got: set<int>, bound: int) {
    forall n :: n in got ==> 0 <= n < bound
  }

  lemma OneFurther(got: set<int>, n: int, bound: int)
    requires AllBelow(got, n) && Within(got, bound)
    ensures n in got ==> AllBelow(got, n + 1)
    ensures Within(got, bound + 1)
  {
  }

  lemma {:induction false} DrainReleases(m: int, msg: int -> Buffer, got: set<int>, at: int, held: map<int, Buffer>)
      returns (stop: int)
    requires m > 0 && at >= 0 && AllBelow(got, at + 1) && Within(got, at + m)
    requires Holds(m, msg, got, at, held)
    ensures Frontier(got, stop) && at < stop
    ensures var d := Drain(m, Wrap(at, m), held);
            && d.0 == Wrap(stop, m) && d.2 == Messages(msg, at + 1, stop) && Holds(m, msg, got, stop, d.1)
    decreases |held|
  {
    hide Wrap, Drain, Succ, Holds, AllBelow, Within;
    NextSid(at, m);
    OneFurther(got, at + 1, at + m);
    DrainUnfolds(m, Wrap(at, m), held);
    var k := Wrap(at + 1, m);
    HoldsNext(m, msg, got, at, held);
    HoldsFirst(m, msg, got, at, held);
    if k in held {
      ShrinkMap(held, k);
      stop := DrainReleases(m, msg, got, at + 1, held - {k});
    } else {
      stop := at + 1;
    }
  }

  lemma DrainUnfolds(m: int, next: int, held: map<int, Buffer>)
    requires m > 0
    ensures var n := Succ(next, m);
            Drain(m, next, held) ==
              if n in held then var d := Drain(m, n, held - {n}); (d.0, d.1, [held[n]] + d.2) else (n, held, [])
  {
  }

  lemma NextSid(n: int, m: int)
    requires n >= 0 && m > 0
    ensures Succ(Wrap(n, m), m) == Wrap(n + 1, m)
    ensures m == 1 ==> Wrap(n + 1, m) == Wrap(n, m)
  {
    WrapNext(n, m);
    if m == 1 { WrapAround(n, 1); }
  }

  lemma HoldsFirst(m: int, msg: int -> Buffer, got: set<int>, at: int, held: map<int, Buffer>)
    requires m > 0 && at >= 0 && Within(got, at + m) && Holds(m, msg, got, at, held)
    ensures var k := Wrap(at + 1, m);
            (at + 1 in got <==> k in held) && (k in held ==> held[k] == msg(at + 1))
  {
  }

  lemma HoldsNext(m: int, msg: int -> Buffer, got: set<int>, at: int, held: map<int, Buffer>)
    requires m > 0 && Within(got, at + m) && Holds(m, msg, got, at, held)
    ensures var k := Wrap(at + 1, m); Holds(m, msg, got, at + 1, if k in held then held - {k} else held)
  {
    hide Wrap;
    var k := Wrap(at + 1, m);
    var held1 := if k in held then held - {k} else held;
    forall n | at + 1 < n < at + 1 + m ensures n in got <==> Wrap(n, m) in held1 {
      if n == at + m {
        assert Wrap(n, m) == Wrap(at, m) by { WrapAround(at, m); }
      } else if Wrap(n, m) == k {
        WrapSame(n, at + 1, m);
      }
    }
  }

  // ----- Whole runs, any number of senders

  /** An arrival: request number `n` of a sender, or a message outside the numbering. */
  datatype Arrival = Request(sender: int, n: int) | Other(buf: Buffer)

  ghost predicate Numbering(m: int, msg: (int, int) -> Buffer)
    requires m > 0
  {
    forall s, n :: n >= 0 ==> msg(s, n) == Buffer(s, true, Wrap(n, m), msg(s, n).body)
  }

  /** One sender's messages by number. */
  ghost function Lane(msg: (int, int) -> Buffer, s: int): int -> Buffer {
    n => msg(s, n)
  }

  ghost function Run(m: int, msg: (int, int) -> Buffer, arrivals: seq<Arrival>): State
    requires m > 0
  {
    if arrivals == [] then State(map[], map[], [])
    else var a := arrivals[|arrivals| - 1];
         Receive(m, true, Run(m, msg, arrivals[..|arrivals| - 1]), if a.Request? then msg(a.sender, a.n) else a.buf)
  }

  ghost function Got(arrivals: seq<Arrival>, s: int): set<int> {
    set a | a in arrivals && a.Request? && a.sender == s :: a.n
  }

  /** Each request arrives once, fewer than `m` ahead of its sender's frontier. */
  ghost predicate Windowed(m: int, arrivals: seq<Arrival>) {
    forall i :: 0 <= i < |arrivals| ==>
      match arrivals[i]
      case Other(b) => !b.sequenced
      case Request(s, n) => n >= 0 && n !in Got(arrivals[..i], s)
                            && forall f :: Frontier(Got(arrivals[..i], s), f) ==> n < f + m
  }

  /** What a sender has had released, in order. */
  ghost function Released(out: seq<Buffer>, s: int): seq<Buffer> {
    if out == [] then []
    else Released(out[..|out| - 1], s) + (var b := out[|out| - 1]; if b.sequenced && b.sender == s then [b] else [])
  }

  ghost predicate LaneAt(m: int, msg: (int, int) -> Buffer, st: State, got: set<int>, s: int, f: int)
    requires m > 0
  {
    && Frontier(got, f) && Within(got, f + m)
    && NextOf(st, s) == Wrap(f, m)
    && Holds(m, Lane(msg, s), got, f, HeldOf(st, s))
    && Released(st.ordered, s) == Messages(Lane(msg, s), 0, f)
  }

  lemma {:induction false} ReleasedAppend(xs: seq<Buffer>, ys: seq<Buffer>, s: int)
    ensures Released(xs + ys, s) == Released(xs, s) + Released(ys, s)
  {
    if ys == [] {
      assert xs + ys == xs;
    } else {
      var y := ys[..|ys| - 1];
      assert (xs + ys)[..|xs + ys| - 1] == xs + y;
      ReleasedAppend(xs, y, s);
    }
  }

  lemma {:induction false} MessagesSplit(msg: int -> Buffer, lo: int, mid: int, hi: int)
    requires lo <= mid <= hi
    ensures Messages(msg, lo, hi) == Messages(msg, lo, mid) + Messages(msg, mid, hi)
    decreases mid - lo
  {
    if lo < mid {
      MessagesSplit(msg, lo + 1, mid, hi);
    }
  }

  lemma {:induction false} ReleasedMessages(m: int, msg: (int, int) -> Buffer, s: int, t: int, lo: int, hi: int)
    requires m > 0 && Numbering(m, msg) && 0 <= lo
    ensures Released(Messages(Lane(msg, s), lo, hi), t) == if s == t then Messages(Lane(msg, s), lo, hi) else []
    decreases hi - lo
  {
    hide Wrap;
    if lo < hi {
      var f := Lane(msg, s);
      ReleasedMessages(m, msg, s, t, lo + 1, hi);
      ReleasedAppend([f(lo)], Messages(f, lo + 1, hi), t);
      assert msg(s, lo).sender == s && msg(s, lo).sequenced;
      assert [f(lo)][..0] == [];
    }
  }

  lemma GotSteps(arrivals: seq<Arrival>, s: int)
    requires arrivals != []
    ensures var before, a := arrivals[..|arrivals| - 1], arrivals[|arrivals| - 1];
            Got(arrivals, s) == if a.Request? && a.sender == s then Got(before, s) + {a.n} else Got(before, s)
  {
  }

  lemma WindowedPrefix(m: int, arrivals: seq<Arrival>)
    requires Windowed(m, arrivals) && arrivals != []
    ensures Windowed(m, arrivals[..|arrivals| - 1])
  {
    var before := arrivals[..|arrivals| - 1];
    forall i | 0 <= i < |before| ensures before[..i] == arrivals[..i] && before[i] == arrivals[i] {
    }
  }

  /** The expected request arrives: it and its buffered successors are released. */
  lemma LaneAdvances(m: int, msg: (int, int) -> Buffer, st: State, got: set<int>, s: int, f: int) returns (stop: int)
    requires m > 0 && Numbering(m, msg) && LaneAt(m, msg, st, got, s, f)
    ensures LaneAt(m, msg, Receive(m, true, st, msg(s, f)), got + {f}, s, stop) && f < stop
    ensures var st1 := Receive(m, true, st, msg(s, f));
            && st1.ordered == st.ordered + Messages(Lane(msg, s), f, stop)
            && forall t :: t != s ==> NextOf(st1, t) == NextOf(st, t) && HeldOf(st1, t) == HeldOf(st, t)
  {
    hide Wrap, Drain, Released, Messages;
    var lane := Lane(msg, s);
    var got1, b := got + {f}, msg(s, f);
    assert b == Buffer(s, true, Wrap(f, m), b.body);
    assert AllBelow(got1, f + 1) && Within(got1, f + m);
    assert Holds(m, lane, got1, f, HeldOf(st, s));
    stop := DrainReleases(m, lane, got1, f, HeldOf(st, s));
    assert Within(got1, stop + m);
    ReceiveExpected(m, st, b);
    FirstMessage(lane, f, stop);
    ReleasedAppend(st.ordered, Messages(lane, f, stop), s);
    ReleasedMessages(m, msg, s, s, f, stop);
    MessagesSplit(lane, 0, f, stop);
  }

  lemma FirstMessage(lane: int -> Buffer, lo: int, hi: int)
    requires lo < hi
    ensures Messages(lane, lo, hi) == [lane(lo)] + Messages(lane, lo + 1, hi)
  {
  }

  lemma ReceiveExpected(m: int, st: State, b: Buffer)
    requires m > 0 && b.sequenced && b.sid == NextOf(st, b.sender)
    ensures var d, st1 := Drain(m, b.sid, HeldOf(st, b.sender)), Receive(m, true, st, b);
            && NextOf(st1, b.sender) == d.0 && HeldOf(st1, b.sender) == d.1
            && st1.ordered == st.ordered + ([b] + d.2)
            && forall t :: t != b.sender ==> NextOf(st1, t) == NextOf(st, t) && HeldOf(st1, t) == HeldOf(st, t)
  {
  }

  /** An early request waits in the side buffer. */
  lemma LaneHolds(m: int, msg: (int, int) -> Buffer, st: State, got: set<int>, s: int, f: int, n: int)
    requires m > 0 && Numbering(m, msg) && LaneAt(m, msg, st, got, s, f)
    requires n !in got && f < n < f + m
    ensures var st1 := Receive(m, true, st, msg(s, n));
            && LaneAt(m, msg, st1, got + {n}, s, f) && st1.ordered == st.ordered
            && forall t :: t != s ==> NextOf(st1, t) == NextOf(st, t) && HeldOf(st1, t) == HeldOf(st, t)
  {
    hide Wrap, Drain, Released, Messages;
    var lane := Lane(msg, s);
    var got1, b := got + {n}, msg(s, n);
    assert b == Buffer(s, true, Wrap(n, m), b.body);
    if Wrap(n, m) == Wrap(f, m) { WrapSame(n, f, m); }
    var st1 := Receive(m, true, st, b);
    var held, held1 := HeldOf(st, s), HeldOf(st1, s);
    assert held1 == held[Wrap(n, m) := b];
    WrapRange(n, m);
    forall k | f < k < f + m ensures k in got1 <==> Wrap(k, m) in held1 {
      if Wrap(k, m) == Wrap(n, m) { WrapSame(k, n, m); }
    }
    forall k | f < k < f + m && k in got1 ensures Wrap(k, m) in held1 && held1[Wrap(k, m)] == lane(k) {
      if Wrap(k, m) == Wrap(n, m) { WrapSame(k, n, m); }
    }
    assert Holds(m, lane, got1, f, held1);
  }

  /**
   After any windowed arrivals, what sender `s` has had released is the longest
   contiguous run of its received requests, in sending order, and its side
   buffer holds exactly the others.
   */
  lemma {:induction false} InOrder(m: int, msg: (int, int) -> Buffer, arrivals: seq<Arrival>, s: int) returns (f: int)
    requires m > 0 && Numbering(m, msg) && Windowed(m, arrivals)
    ensures LaneAt(m, msg, Run(m, msg, arrivals), Got(arrivals, s), s, f)
    decreases |arrivals|
  {
    hide Wrap, Drain, Released, Messages, Holds;
    if arrivals == [] {
      f := 0;
      EmptyLane(m, msg, s);
      return;
    }
    var k := |arrivals| - 1;
    var before, a := arrivals[..k], arrivals[k];
    WindowedPrefix(m, arrivals);
    GotSteps(arrivals, s);
    var st := Run(m, msg, before);
    f := InOrder(m, msg, before, s);
    match a
    case Other(b) =>
      PassesThrough(st.ordered, b, s);
    case Request(t, n) =>
      var g := InOrder(m, msg, before, t);
      BeyondFrontier(Got(before, t), g, n);
      if n == g {
        var stop := LaneAdvances(m, msg, st, Got(before, t), t, g);
        if t == s {
          f := stop;
        } else {
          ReleasedAppend(st.ordered, Messages(Lane(msg, t), g, stop), s);
          ReleasedMessages(m, msg, t, s, g, stop);
        }
      } else {
        LaneHolds(m, msg, st, Got(before, t), t, g, n);
        if t == s { f := g; }
      }
  }

  lemma BeyondFrontier(got: set<int>, f: int, n: int)
    requires Frontier(got, f) && n >= 0 && n !in got
    ensures f <= n
  {
  }

  lemma EmptyLane(m: int, msg: (int, int) -> Buffer, s: int)
    requires m > 0
    ensures LaneAt(m, msg, State(map[], map[], []), Got([], s), s, 0)
  {
  }

  lemma PassesThrough(out: seq<Buffer>, b: Buffer, s: int)
    requires !b.sequenced
    ensures Released(out + [b], s) == Released(out, s)
  {
  }

  /** Once the first `k` requests of a sender have all arrived, none is lost, repeated or left waiting. */
  lemma AllDelivered(m: int, msg: (int, int) -> Buffer, arrivals: seq<Arrival>, s: int, k: int)
    requires m > 0 && Numbering(m, msg) && Windowed(m, arrivals) && k >= 0
    requires Got(arrivals, s) == Finite.Below(k)
    ensures var st := Run(m, msg, arrivals);
            Released(st.ordered, s) == Messages(Lane(msg, s), 0, k) && HeldOf(st, s) == map[]
  {
    hide Wrap, Drain, Released, Messages, Run;
    var f := InOrder(m, msg, arrivals, s);
    assert k !in Got(arrivals, s) && f == k;
    var held := HeldOf(Run(m, msg, arrivals), s);
    forall q ensures q !in held {
      if 0 <= q < m && q != Wrap(f, m) {
        var n := WrapFind(f, q, m);
        assert n !in Got(arrivals, s);
      }
    }
  }

  // ----- Messages outside the numbering, and the van without forced order

  /** The van after these buffers. */
  ghost function RunOf(m: int, force: bool, bufs: seq<Buffer>): State
    requires m > 0
  {
    if bufs == [] then State(map[], map[], [])
    else Receive(m, force, RunOf(m, force, bufs[..|bufs| - 1]), bufs[|bufs| - 1])
  }

  ghost function BufferOf(msg: (int, int) -> Buffer, a: Arrival): Buffer {
    if a.Request? then msg(a.sender, a.n) else a.buf
  }

  ghost function BuffersOf(msg: (int, int) -> Buffer, arrivals: seq<Arrival>): seq<Buffer> {
    seq(|arrivals|, i requires 0 <= i < |arrivals| => BufferOf(msg, arrivals[i]))
  }

  lemma {:induction false} RunIs(m: int, msg: (int, int) -> Buffer, arrivals: seq<Arrival>)
    requires m > 0
    ensures Run(m, msg, arrivals) == RunOf(m, true, BuffersOf(msg, arrivals))
  {
    hide Receive;
    if arrivals != [] {
      var before := arrivals[..|arrivals| - 1];
      RunIs(m, msg, before);
      assert BuffersOf(msg, arrivals)[..|before|] == BuffersOf(msg, before);
    }
  }

  /** The buffers outside the numbering, in order. */
  ghost function Unnumbered(out: seq<Buffer>): seq<Buffer> {
    if out == [] then []
    else Unnumbered(out[..|out| - 1]) + if out[|out| - 1].sequenced then [] else [out[|out| - 1]]
  }

  lemma {:induction false} UnnumberedAppend(xs: seq<Buffer>, ys: seq<Buffer>)
    ensures Unnumbered(xs + ys) == Unnumbered(xs) + Unnumbered(ys)
  {
    if ys == [] {
      assert xs + ys == xs;
    } else {
      var y := ys[..|ys| - 1];
      assert (xs + ys)[..|xs + ys| - 1] == xs + y;
      UnnumberedAppend(xs, y);
    }
  }

  ghost predicate Numbered(held: map<int, Buffer>) {
    forall k {:trigger held[k]} :: k in held ==> held[k].sequenced
  }

  lemma {:induction false} DrainNumbered(m: int, next: int, held: map<int, Buffer>)
    requires m > 0 && Numbered(held)
    ensures var d := Drain(m, next, held); Numbered(d.1) && Unnumbered(d.2) == []
    decreases |held|
  {
    hide Succ, Drain;
    var n := Succ(next, m);
    DrainUnfolds(m, next, held);
    if n in held {
      ShrinkMap(held, n);
      DrainNumbered(m, n, held - {n});
      UnnumberedAppend([held[n]], Drain(m, n, held - {n}).2);
      assert [held[n]][..0] == [];
    }
  }

  lemma ReceivePasses(m: int, force: bool, st: State, b: Buffer)
    requires m > 0 && Numbered(HeldOf(st, b.sender))
    ensures var st1 := Receive(m, force, st, b);
            && Unnumbered(st1.ordered) == Unnumbered(st.ordered) + (if b.sequenced then [] else [b])
            && Numbered(HeldOf(st1, b.sender)) && (forall t :: t != b.sender ==> HeldOf(st1, t) == HeldOf(st, t))
            && (!force ==> st1.ordered == st.ordered + [b])
  {
    hide Drain, Succ, Unnumbered;
    assert Unnumbered([b]) == if b.sequenced then [] else [b] by { OneBuffer(b); }
    UnnumberedAppend(st.ordered, [b]);
    if b.sequenced && force && b.sid == NextOf(st, b.sender) {
      ReceiveExpected(m, st, b);
      var out := Drain(m, b.sid, HeldOf(st, b.sender)).2;
      DrainNumbered(m, b.sid, HeldOf(st, b.sender));
      assert st.ordered + ([b] + out) == (st.ordered + [b]) + out;
      UnnumberedAppend(st.ordered + [b], out);
    }
  }

  lemma OneBuffer(b: Buffer)
    ensures Unnumbered([b]) == if b.sequenced then [] else [b]
  {
    assert [b][..0] == [];
  }

  /**
   Whatever comes in, the messages outside the numbering are passed on at once: each
   once, and in the order of arrival.  Without forced order that is everything.
   */
  lemma {:induction false} OthersPassThrough(m: int, force: bool, bufs: seq<Buffer>, s: int)
    requires m > 0
    ensures var st := RunOf(m, force, bufs);
            && Unnumbered(st.ordered) == Unnumbered(bufs) && Numbered(HeldOf(st, s))
            && (!force ==> st.ordered == bufs)
  {
    hide Receive, Numbered;
    if bufs == [] {
      assert Numbered(map[]) by { NoneHeld(); }
    } else {
      var before, b := bufs[..|bufs| - 1], bufs[|bufs| - 1];
      OthersPassThrough(m, force, before, s);
      OthersPassThrough(m, force, before, b.sender);
      ReceivePasses(m, force, RunOf(m, force, before), b);
    }
  }

  lemma NoneHeld()
    ensures Numbered(map[])
  {
  }

  /** Beyond the window the numbering is ambiguous: a request `m` ahead is taken for the expected one. */
  lemma WindowIsTight(m: int, msg: (int, int) -> Buffer, st: State, got: set<int>, s: int, f: int)
    requires m > 0 && Numbering(m, msg) && LaneAt(m, msg, st, got, s, f)
    ensures st.ordered + [msg(s, f + m)] <= Receive(m, true, st, msg(s, f + m)).ordered
  {
    hide Wrap, Drain;
    WrapAround(f, m);
    var b := msg(s, f + m);
    assert b == Buffer(s, true, Wrap(f + m, m), b.body);
    ReceiveExpected(m, st, b);
  }
}
