/**
 The scheduler's barriers.  A node asks the scheduler for a barrier on a node
 group and waits; the scheduler counts requests and, when the last participant
 has asked, releases everyone.  An instance barrier counts requests and answers
 all nodes of the group; a group barrier lists its requesters, one per instance
 group, and answers those.
 */
module Barrier {
  import opened Finite

  const SCHEDULER: int := 1
  const SERVER_GROUP: int := 2
  const WORKER_GROUP: int := 4

  /** Requests a group barrier waits for among `instances` nodes. */
  function Expected(group: int, instances: int, groupSize: int): int
    requires groupSize > 0
  {
    if group == SCHEDULER then 1
    else if group % 2 == 1 then (instances - 1) / groupSize + 1
    else instances / groupSize
  }

  /** The counters of the scheduler. */
  datatype Counters = Counters(count: map<int, int>, listed: map<int, seq<int>>)

  datatype Bar = Bar(instance: bool, group: int)

  datatype Config = Config(groups: map<int, seq<int>>, groupSize: int, speakers: map<int, set<int>>) {
    /** The nodes that take part in a barrier. */
    ghost function Participants(b: Bar): set<int> {
      if b.instance then (if b.group in groups then Elements(groups[b.group]) else {})
      else if b.group in speakers then speakers[b.group] else {}
    }

    ghost predicate Valid() {
      && groupSize > 0
      && (forall g :: g in groups ==> Distinct(groups[g]))
      && (forall g :: g in speakers ==> g in groups && |speakers[g]| == Expected(g, |groups[g]|, groupSize))
    }
  }

  function CountOf(c: Counters, g: int): int {
    if g in c.count then c.count[g] else 0
  }

  function ListOf(c: Counters, g: int): seq<int> {
    if g in c.listed then c.listed[g] else []
  }

  /** A request arrives: the new counters, and whom to release. */
  function OnRequest(cfg: Config, c: Counters, b: Bar, sender: int): (Counters, seq<int>)
    requires cfg.groupSize > 0 && b.group in cfg.groups
  {
    var nodes := cfg.groups[b.group];
    if b.instance then
      var n := CountOf(c, b.group) + 1;
      if n == |nodes| then (c.(count := c.count[b.group := 0]), nodes)
      else (c.(count := c.count[b.group := n]), [])
    else
      var l := ListOf(c, b.group) + [sender];
      if |l| == Expected(b.group, |nodes|, cfg.groupSize) then (c.(listed := c.listed[b.group := []]), l)
      else (c.(listed := c.listed[b.group := l]), [])
  }

  /** The receivers that own their address; the others share the van of the node they are mapped to. */
  function Unshared(xs: seq<int>, shared: map<int, int>): seq<int> {
    if xs == [] then []
    else
      var last := xs[|xs| - 1];
      Unshared(xs[..|xs| - 1], shared) + if last in shared then [] else [last]
  }

  /** Exactly those are answered that do not share, each as often as listed and in order. */
  lemma {:induction false} OthersAnswered(xs: seq<int>, shared: map<int, int>) returns (at: seq<int>)
    ensures Picks(xs, at, Unshared(xs, shared))
    ensures forall i {:trigger xs[i]} :: 0 <= i < |xs| ==> (i in at <==> xs[i] !in shared)
  {
    at := [];
    if xs != [] {
      var init, last := xs[..|xs| - 1], xs[|xs| - 1];
      at := OthersAnswered(init, shared);
      assert forall i {:trigger xs[i]} :: 0 <= i < |init| ==> xs[i] == init[i];
      if last !in shared {
        at := at + [|init|];
      }
    }
  }

  /** Everyone is answered exactly when nobody shares. */
  lemma {:induction false} AllAnsweredIff(xs: seq<int>, shared: map<int, int>)
    ensures |Unshared(xs, shared)| <= |xs|
    ensures Unshared(xs, shared) == xs <==> forall i {:trigger xs[i]} :: 0 <= i < |xs| ==> xs[i] !in shared
  {
    if xs != [] {
      var init, last := xs[..|xs| - 1], xs[|xs| - 1];
      AllAnsweredIff(init, shared);
      assert xs == init + [last];
      if Unshared(xs, shared) == xs && last !in shared {
        assert Unshared(init, shared) == xs[..|xs| - 1];
      }
    }
  }

  class Scheduler {
    const cfg: Config
    const sharedNodeMapping: map<int, int>
    var barrierCount: map<int, int>
    var groupRequests: map<int, seq<int>>

    constructor (cfg: Config, shared: map<int, int>)
      ensures this.cfg == cfg && sharedNodeMapping == shared && C() == Counters(map[], map[])
    {
      this.cfg, sharedNodeMapping := cfg, shared;
      barrierCount, groupRequests := map[], map[];
    }

    ghost function C(): Counters
      reads this
    {
      Counters(barrierCount, groupRequests)
    }

    method ProcessInstanceBarrierCommand(group: int, sender: int) returns (released: seq<int>)
      requires cfg.groupSize > 0 && group in cfg.groups
      modifies this`barrierCount
      ensures var (c, all) := OnRequest(cfg, old(C()), Bar(true, group), sender);
              C() == c && released == Unshared(all, sharedNodeMapping)
    {
      var n := (if group in barrierCount then barrierCount[group] else 0) + 1;
      barrierCount := barrierCount[group := n];
      released := [];
      if n == |cfg.groups[group]| {
        barrierCount := barrierCount[group := 0];
        assert barrierCount == old(barrierCount)[group := 0];
        released := SendAll(cfg.groups[group]);
      }
    }

    method ProcessBarrierCommand(group: int, sender: int) returns (released: seq<int>)
      requires cfg.groupSize > 0 && group in cfg.groups
      modifies this`groupRequests
      ensures var (c, all) := OnRequest(cfg, old(C()), Bar(false, group), sender);
              C() == c && released == Unshared(all, sharedNodeMapping)
    {
      var requests := (if group in groupRequests then groupRequests[group] else []) + [sender];
      groupRequests := groupRequests[group := requests];
      released := [];
      if |requests| == Expected(group, |cfg.groups[group]|, cfg.groupSize) {
        released := SendAll(requests);
        groupRequests := groupRequests[group := []];
        assert groupRequests == old(groupRequests)[group := []];
      }
    }

    /** Answer the receivers one by one, those without an address of their own left out. */
    method SendAll(receivers: seq<int>) returns (released: seq<int>)
      ensures released == Unshared(receivers, sharedNodeMapping)
    {
      released := [];
      for i := 0 to |receivers|
        invariant released == Unshared(receivers[..i], sharedNodeMapping)
      {
        assert receivers[..i + 1][..i] == receivers[..i];
        if receivers[i] !in sharedNodeMapping {
          released := released + [receivers[i]];
        }
      }
      assert receivers[..|receivers|] == receivers;
    }
  }

  // ----- The protocol

  /** A node inside DoBarrier, and whether its release has been seen. */
  datatype Status = Idle | Waiting(bar: Bar, done: bool)

  /** How far a node's current barrier has come. */
  datatype Phase = Resting | Asking(bar: Bar) | Counted(bar: Bar) | Releasing(bar: Bar) | Passed(bar: Bar)

  datatype State = State(
    counters: Counters, requests: multiset<(int, Bar)>, releases: multiset<int>, status: map<int, Status>,
    // history: barriers asked for and returned from, rounds completed, phases
    asked: map<(int, Bar), int>, left: map<(int, Bar), int>, rounds: map<Bar, int>, phase: map<int, Phase>)
  {
    ghost function Asked(n: int, b: Bar): int { if (n, b) in asked then asked[(n, b)] else 0 }
    ghost function Left(n: int, b: Bar): int { if (n, b) in left then left[(n, b)] else 0 }
    ghost function Rounds(b: Bar): int { if b in rounds then rounds[b] else 0 }
    ghost function StatusOf(n: int): Status { if n in status then status[n] else Idle }
    ghost function PhaseOf(n: int): Phase { if n in phase then phase[n] else Resting }
  }

  ghost const Start := State(Counters(map[], map[]), multiset{}, multiset{}, map[], map[], map[], map[], map[])

  datatype Step = Ask(node: int, bar: Bar) | Deliver(node: int, bar: Bar) | Release(node: int) | Return(node: int)

  ghost predicate Enabled(cfg: Config, st: State, step: Step) {
    match step
    case Ask(n, b) => st.StatusOf(n).Idle? && n in cfg.Participants(b) && b.group in cfg.groups && |cfg.Participants(b)| > 1
    case Deliver(n, b) => (n, b) in st.requests && b.group in cfg.groups
    case Release(n) => n in st.releases
    case Return(n) => st.StatusOf(n).Waiting? && st.StatusOf(n).done
  }

  ghost function Do(cfg: Config, st: State, step: Step): State
    requires cfg.groupSize > 0 && Enabled(cfg, st, step)
  {
    match step
    case Ask(n, b) =>
      st.(requests := st.requests + multiset{(n, b)}, status := st.status[n := Waiting(b, false)],
          asked := st.asked[(n, b) := st.Asked(n, b) + 1], phase := st.phase[n := Asking(b)])
    case Deliver(n, b) =>
      var (c, released) := OnRequest(cfg, st.counters, b, n);
      var st1 := st.(counters := c, requests := st.requests - multiset{(n, b)},
                     releases := st.releases + multiset(released));
      if released == [] then st1.(phase := st.phase[n := Counted(b)])
      else st1.(rounds := st.rounds[b := st.Rounds(b) + 1],
                phase := st.phase + map m | m in cfg.Participants(b) :: Releasing(b))
    case Release(n) =>
      var s := st.StatusOf(n);
      st.(releases := st.releases - multiset{n},
          status := if s.Waiting? then st.status[n := Waiting(s.bar, true)] else st.status,
          phase := if s.Waiting? then st.phase[n := Passed(s.bar)] else st.phase)
    case Return(n) =>
      var b := st.StatusOf(n).bar;
      st.(status := st.status[n := Idle], left := st.left[(n, b) := st.Left(n, b) + 1], phase := st.phase[n := Resting])
  }

  // ----- The invariant

  ghost predicate NodeOk(cfg: Config, st: State, n: int) {
    var ph, s := st.PhaseOf(n), st.StatusOf(n);
    && st.releases[n] == (if ph.Releasing? then 1 else 0)
    && if ph.Resting? then s == Idle
       else s == Waiting(ph.bar, ph.Passed?) && n in cfg.Participants(ph.bar) && ph.bar.group in cfg.groups && |cfg.Participants(ph.bar)| > 1
  }

  ghost predicate RequestOk(st: State, n: int, b: Bar) {
    st.requests[(n, b)] == if st.PhaseOf(n) == Asking(b) then 1 else 0
  }

  /** A participant has asked for as many barriers as there were rounds, or one more. */
  ghost predicate TallyOk(st: State, n: int, b: Bar) {
    var ph := st.PhaseOf(n);
    && st.Asked(n, b) == st.Rounds(b) + (if ph == Asking(b) || ph == Counted(b) then 1 else 0)
    && st.Left(n, b) == st.Rounds(b) - (if ph == Releasing(b) || ph == Passed(b) then 1 else 0)
  }

  /** The participants whose request has reached the scheduler in this round. */
  ghost function Arrived(cfg: Config, st: State, b: Bar): set<int> {
    set n | n in cfg.Participants(b) && st.PhaseOf(n) == Counted(b)
  }

  ghost predicate BarOk(cfg: Config, st: State, b: Bar) {
    var a := Arrived(cfg, st, b);
    && (if b.instance then CountOf(st.counters, b.group) == |a|
        else Distinct(ListOf(st.counters, b.group)) && Elements(ListOf(st.counters, b.group)) == a)
    && (|cfg.Participants(b)| > 1 ==> |a| < |cfg.Participants(b)|)
  }

  ghost predicate Inv(cfg: Config, st: State) {
    && cfg.Valid()
    && (forall n {:trigger NodeOk(cfg, st, n)} :: NodeOk(cfg, st, n))
    && (forall n, b {:trigger RequestOk(st, n, b)} :: RequestOk(st, n, b))
    && (forall n, b {:trigger TallyOk(st, n, b)} :: n in cfg.Participants(b) ==> TallyOk(st, n, b))
    && (forall b {:trigger BarOk(cfg, st, b)} :: BarOk(cfg, st, b))
  }

  lemma StartOk(cfg: Config)
    requires cfg.Valid()
    ensures Inv(cfg, Start)
  {
  }

  /** Arrivals of a barrier change only when phases do. */
  lemma SameArrivals(cfg: Config, st: State, st1: State, b: Bar)
    requires BarOk(cfg, st, b) && st1.counters == st.counters
    requires forall n :: n in cfg.Participants(b) ==> (st1.PhaseOf(n) == Counted(b) <==> st.PhaseOf(n) == Counted(b))
    ensures BarOk(cfg, st1, b)
  {
    assert Arrived(cfg, st1, b) == Arrived(cfg, st, b);
  }

  lemma AskKeeps(cfg: Config, st: State, n: int, b: Bar)
    requires Inv(cfg, st) && Enabled(cfg, st, Ask(n, b))
    ensures Inv(cfg, Do(cfg, st, Ask(n, b)))
  {
    hide Config.Participants, Elements, Distinct, CountOf, ListOf;
    var st1 := Do(cfg, st, Ask(n, b));
    assert NodeOk(cfg, st, n);
    forall m ensures NodeOk(cfg, st1, m) {
      assert NodeOk(cfg, st, m);
    }
    forall m, c ensures RequestOk(st1, m, c) {
      assert RequestOk(st, m, c);
    }
    forall m, c | m in cfg.Participants(c) ensures TallyOk(st1, m, c) {
      assert TallyOk(st, m, c);
    }
    forall c ensures BarOk(cfg, st1, c) {
      assert BarOk(cfg, st, c);
      SameArrivals(cfg, st, st1, c);
    }
  }

  lemma ReleaseKeeps(cfg: Config, st: State, n: int)
    requires Inv(cfg, st) && Enabled(cfg, st, Release(n))
    ensures Inv(cfg, Do(cfg, st, Release(n)))
  {
    hide Config.Participants, Elements, Distinct, CountOf, ListOf;
    var st1 := Do(cfg, st, Release(n));
    assert NodeOk(cfg, st, n);
    forall m ensures NodeOk(cfg, st1, m) {
      assert NodeOk(cfg, st, m);
    }
    forall m, c ensures RequestOk(st1, m, c) {
      assert RequestOk(st, m, c);
    }
    forall m, c | m in cfg.Participants(c) ensures TallyOk(st1, m, c) {
      assert TallyOk(st, m, c);
    }
    forall c ensures BarOk(cfg, st1, c) {
      assert BarOk(cfg, st, c);
      SameArrivals(cfg, st, st1, c);
    }
  }

  lemma ReturnKeeps(cfg: Config, st: State, n: int)
    requires Inv(cfg, st) && Enabled(cfg, st, Return(n))
    ensures Inv(cfg, Do(cfg, st, Return(n)))
  {
    hide Config.Participants, Elements, Distinct, CountOf, ListOf;
    var st1 := Do(cfg, st, Return(n));
    assert NodeOk(cfg, st, n);
    forall m ensures NodeOk(cfg, st1, m) {
      assert NodeOk(cfg, st, m);
    }
    forall m, c ensures RequestOk(st1, m, c) {
      assert RequestOk(st, m, c);
    }
    forall m, c | m in cfg.Participants(c) ensures TallyOk(st1, m, c) {
      assert TallyOk(st, m, c);
    }
    forall c ensures BarOk(cfg, st1, c) {
      assert BarOk(cfg, st, c);
      SameArrivals(cfg, st, st1, c);
    }
  }

  ghost predicate SameElsewhere(c: Counters, c1: Counters, b: Bar) {
    forall x: Bar {:trigger CountOf(c1, x.group)} {:trigger ListOf(c1, x.group)} :: x != b ==>
      if x.instance then CountOf(c1, x.group) == CountOf(c, x.group) else ListOf(c1, x.group) == ListOf(c, x.group)
  }

  /** The request that completes a round is the last participant's, and everyone is released. */
  lemma Outcome(cfg: Config, st: State, n: int, b: Bar)
    requires Inv(cfg, st) && Enabled(cfg, st, Deliver(n, b))
    ensures n in cfg.Participants(b) && st.PhaseOf(n) == Asking(b) && n !in Arrived(cfg, st, b)
    ensures var (c, released) := OnRequest(cfg, st.counters, b, n);
            var now := Arrived(cfg, st, b) + {n};
            && SameElsewhere(st.counters, c, b)
            && if now == cfg.Participants(b)
               then && released != [] && Distinct(released) && Elements(released) == cfg.Participants(b)
                    && (if b.instance then CountOf(c, b.group) == 0 else ListOf(c, b.group) == [])
               else && released == [] && |now| < |cfg.Participants(b)|
                    && (if b.instance then CountOf(c, b.group) == |now|
                        else Distinct(ListOf(c, b.group)) && Elements(ListOf(c, b.group)) == now)
  {
    hide Distinct, Elements, Expected;
    assert RequestOk(st, n, b) && NodeOk(cfg, st, n) && BarOk(cfg, st, b);
    if b.instance {
      OutcomeInstance(cfg, st, n, b);
    } else {
      OutcomeGroup(cfg, st, n, b);
    }
  }

  lemma OutcomeInstance(cfg: Config, st: State, n: int, b: Bar)
    requires cfg.Valid() && BarOk(cfg, st, b) && b.instance && b.group in cfg.groups
    requires n in cfg.Participants(b) && n !in Arrived(cfg, st, b)
    ensures var (c, released) := OnRequest(cfg, st.counters, b, n);
            var now := Arrived(cfg, st, b) + {n};
            if now == cfg.Participants(b)
            then released != [] && Distinct(released) && Elements(released) == cfg.Participants(b) && CountOf(c, b.group) == 0
            else released == [] && |now| < |cfg.Participants(b)| && CountOf(c, b.group) == |now|
  {
    hide Distinct, Expected;
    var now := Arrived(cfg, st, b) + {n};
    SubsetSize(now, cfg.Participants(b));
    DistinctSize(cfg.groups[b.group]);
  }

  lemma OutcomeGroup(cfg: Config, st: State, n: int, b: Bar)
    requires cfg.Valid() && BarOk(cfg, st, b) && !b.instance && b.group in cfg.groups
    requires n in cfg.Participants(b) && n !in Arrived(cfg, st, b)
    ensures var (c, released) := OnRequest(cfg, st.counters, b, n);
            var now := Arrived(cfg, st, b) + {n};
            if now == cfg.Participants(b)
            then released != [] && Distinct(released) && Elements(released) == cfg.Participants(b) && ListOf(c, b.group) == []
            else && released == [] && |now| < |cfg.Participants(b)|
                 && Distinct(ListOf(c, b.group)) && Elements(ListOf(c, b.group)) == now
  {
    hide Expected;
    var now := Arrived(cfg, st, b) + {n};
    var l := ListOf(st.counters, b.group);
    SubsetSize(now, cfg.Participants(b));
    assert Elements(l + [n]) == now;
    assert Distinct(l + [n]) by { assert n !in Elements(l); }
    DistinctSize(l + [n]);
  }

  lemma DeliverPhases(cfg: Config, st: State, n: int, b: Bar)
    requires cfg.groupSize > 0 && Enabled(cfg, st, Deliver(n, b))
    ensures var st1 := Do(cfg, st, Deliver(n, b));
            var (c, released) := OnRequest(cfg, st.counters, b, n);
            && st1.counters == c && st1.requests == st.requests - multiset{(n, b)}
            && st1.releases == st.releases + multiset(released)
            && st1.status == st.status && st1.asked == st.asked && st1.left == st.left
            && st1.rounds == (if released != [] then st.rounds[b := st.Rounds(b) + 1] else st.rounds)
            && forall m {:trigger st1.PhaseOf(m)} ::
                 st1.PhaseOf(m) == if released != [] && m in cfg.Participants(b) then Releasing(b)
                                   else if released == [] && m == n then Counted(b) else st.PhaseOf(m)
  {
    hide OnRequest, Config.Participants, CountOf, ListOf;
  }

  /** What delivering a request changes, in terms of phases. */
  lemma DeliverEffect(cfg: Config, st: State, n: int, b: Bar)
    requires Inv(cfg, st) && Enabled(cfg, st, Deliver(n, b))
    ensures var st1 := Do(cfg, st, Deliver(n, b));
            var (c, released) := OnRequest(cfg, st.counters, b, n);
            var complete := Arrived(cfg, st, b) + {n} == cfg.Participants(b);
            && st1.counters == c && st1.requests == st.requests - multiset{(n, b)}
            && st1.releases == st.releases + multiset(released)
            && st1.status == st.status && st1.asked == st.asked && st1.left == st.left
            && st1.rounds == (if complete then st.rounds[b := st.Rounds(b) + 1] else st.rounds)
            && forall m {:trigger st1.PhaseOf(m)} ::
                 st1.PhaseOf(m) == if complete && m in cfg.Participants(b) then Releasing(b)
                                   else if !complete && m == n then Counted(b) else st.PhaseOf(m)
  {
    hide Do, OnRequest, NodeOk, RequestOk, TallyOk, BarOk, Arrived, Config.Participants, Elements, Distinct, CountOf, ListOf, SameElsewhere;
    Outcome(cfg, st, n, b);
    DeliverPhases(cfg, st, n, b);
  }

  lemma CountNodes(cfg: Config, st: State, n: int, b: Bar)
    requires Inv(cfg, st) && Enabled(cfg, st, Deliver(n, b))
    requires Arrived(cfg, st, b) + {n} != cfg.Participants(b)
    ensures var st1 := Do(cfg, st, Deliver(n, b));
            && (forall m :: NodeOk(cfg, st1, m)) && (forall m, c :: RequestOk(st1, m, c))
            && (forall m, c :: m in cfg.Participants(c) ==> TallyOk(st1, m, c))
  {
    hide OnRequest, Do, Arrived, Config.Participants, Elements, CountOf, ListOf;
    Outcome(cfg, st, n, b);
    DeliverEffect(cfg, st, n, b);
    var st1 := Do(cfg, st, Deliver(n, b));
    assert NodeOk(cfg, st, n);
    forall m ensures NodeOk(cfg, st1, m) {
      assert NodeOk(cfg, st, m);
    }
    forall m, c ensures RequestOk(st1, m, c) {
      assert RequestOk(st, m, c);
    }
    forall m, c | m in cfg.Participants(c) ensures TallyOk(st1, m, c) {
      assert TallyOk(st, m, c);
    }
  }

  lemma CountKeeps(cfg: Config, st: State, n: int, b: Bar)
    requires Inv(cfg, st) && Enabled(cfg, st, Deliver(n, b))
    requires Arrived(cfg, st, b) + {n} != cfg.Participants(b)
    ensures Inv(cfg, Do(cfg, st, Deliver(n, b)))
  {
    hide OnRequest, Do, NodeOk, RequestOk, TallyOk, Enabled, Config.Participants;
    Outcome(cfg, st, n, b);
    DeliverEffect(cfg, st, n, b);
    CountNodes(cfg, st, n, b);
    var st1 := Do(cfg, st, Deliver(n, b));
    forall c ensures BarOk(cfg, st1, c) {
      assert BarOk(cfg, st, c);
      assert Arrived(cfg, st1, c) == if c == b then Arrived(cfg, st, b) + {n} else Arrived(cfg, st, c);
    }
  }

  lemma CompleteNodes(cfg: Config, st: State, n: int, b: Bar)
    requires Inv(cfg, st) && Enabled(cfg, st, Deliver(n, b))
    requires Arrived(cfg, st, b) + {n} == cfg.Participants(b)
    ensures var st1 := Do(cfg, st, Deliver(n, b));
            && (forall m :: NodeOk(cfg, st1, m)) && (forall m, c :: RequestOk(st1, m, c))
            && (forall m, c :: m in cfg.Participants(c) ==> TallyOk(st1, m, c))
  {
    hide OnRequest, Do, Arrived, Config.Participants, Elements, CountOf, ListOf;
    Outcome(cfg, st, n, b);
    DeliverEffect(cfg, st, n, b);
    PhasesAtLast(cfg, st, n, b);
    var st1 := Do(cfg, st, Deliver(n, b));
    var released := OnRequest(cfg, st.counters, b, n).1;
    forall m ensures NodeOk(cfg, st1, m) {
      assert NodeOk(cfg, st, m);
      OccursOnce(released, m);
    }
    forall m, c ensures RequestOk(st1, m, c) {
      assert RequestOk(st, m, c);
    }
    forall m, c | m in cfg.Participants(c) ensures TallyOk(st1, m, c) {
      assert TallyOk(st, m, c);
    }
  }

  lemma PhasesAtLast(cfg: Config, st: State, n: int, b: Bar)
    requires Arrived(cfg, st, b) + {n} == cfg.Participants(b) && st.PhaseOf(n) == Asking(b)
    ensures forall m {:trigger st.PhaseOf(m)} :: m in cfg.Participants(b) ==>
      st.PhaseOf(m) == if m == n then Asking(b) else Counted(b)
  {
    forall m | m in cfg.Participants(b) && m != n ensures st.PhaseOf(m) == Counted(b) {
      assert m in Arrived(cfg, st, b);
    }
  }

  lemma CompleteKeeps(cfg: Config, st: State, n: int, b: Bar)
    requires Inv(cfg, st) && Enabled(cfg, st, Deliver(n, b))
    requires Arrived(cfg, st, b) + {n} == cfg.Participants(b)
    ensures Inv(cfg, Do(cfg, st, Deliver(n, b)))
  {
    hide OnRequest, Do, NodeOk, RequestOk, TallyOk, Enabled, Config.Participants;
    Outcome(cfg, st, n, b);
    DeliverEffect(cfg, st, n, b);
    PhasesAtLast(cfg, st, n, b);
    CompleteNodes(cfg, st, n, b);
    var st1 := Do(cfg, st, Deliver(n, b));
    forall c ensures BarOk(cfg, st1, c) {
      assert BarOk(cfg, st, c);
      assert Arrived(cfg, st1, c) == if c == b then {} else Arrived(cfg, st, c);
    }
  }

  lemma {:induction false} OccursOnce(xs: seq<int>, x: int)
    requires Distinct(xs)
    ensures multiset(xs)[x] == if x in Elements(xs) then 1 else 0
  {
    if |xs| > 0 {
      var ys, y := xs[..|xs| - 1], xs[|xs| - 1];
      OccursOnce(ys, x);
      assert xs == ys + [y];
      assert multiset(xs) == multiset(ys) + multiset{y};
    }
  }

  lemma StepKeeps(cfg: Config, st: State, step: Step)
    requires Inv(cfg, st) && Enabled(cfg, st, step)
    ensures Inv(cfg, Do(cfg, st, step))
  {
    hide Inv, Do, Enabled;
    match step
    case Ask(n, b) => AskKeeps(cfg, st, n, b);
    case Deliver(n, b) =>
      if Arrived(cfg, st, b) + {n} == cfg.Participants(b) {
        CompleteKeeps(cfg, st, n, b);
      } else {
        CountKeeps(cfg, st, n, b);
      }
    case Release(n) => ReleaseKeeps(cfg, st, n);
    case Return(n) => ReturnKeeps(cfg, st, n);
  }

  // ----- Whole runs

  /** The states of a run, one per step taken. */
  ghost predicate Behaviour(cfg: Config, run: seq<State>, steps: seq<Step>) {
    && cfg.Valid() && |run| == |steps| + 1 && run[0] == Start
    && forall i :: 0 <= i < |steps| ==> Enabled(cfg, run[i], steps[i]) && run[i + 1] == Do(cfg, run[i], steps[i])
  }

  lemma {:induction false} Reachable(cfg: Config, run: seq<State>, steps: seq<Step>, i: int)
    requires Behaviour(cfg, run, steps) && 0 <= i < |run|
    ensures Inv(cfg, run[i])
    decreases i
  {
    hide Inv, Do, Enabled;
    if i == 0 {
      StartOk(cfg);
    } else {
      Reachable(cfg, run, steps, i - 1);
      assert Enabled(cfg, run[i - 1], steps[i - 1]);
      StepKeeps(cfg, run[i - 1], steps[i - 1]);
    }
  }

  /**
   No node returns from its k-th barrier before every participant has asked for
   its k-th: at every moment, returns of one are at most requests of any other.
   */
  lemma NobodyPassesEarly(cfg: Config, run: seq<State>, steps: seq<Step>, i: int, b: Bar, n: int, m: int)
    requires Behaviour(cfg, run, steps) && 0 <= i < |run|
    requires n in cfg.Participants(b) && m in cfg.Participants(b)
    ensures run[i].Left(n, b) <= run[i].Asked(m, b)
  {
    hide Do, Enabled;
    Reachable(cfg, run, steps, i);
    assert TallyOk(run[i], n, b) && TallyOk(run[i], m, b);
  }

  /** Once all have asked, the barrier cannot hang: a request is on its way, or nobody is kept waiting for another. */
  lemma NotStuck(cfg: Config, run: seq<State>, steps: seq<Step>, i: int, b: Bar, k: int)
    requires Behaviour(cfg, run, steps) && 0 <= i < |run|
    requires |cfg.Participants(b)| > 1 && forall m :: m in cfg.Participants(b) ==> run[i].Asked(m, b) >= k
    ensures run[i].Rounds(b) >= k || exists m :: m in cfg.Participants(b) && (m, b) in run[i].requests
  {
    hide Do, Enabled;
    Reachable(cfg, run, steps, i);
    var st, all := run[i], cfg.Participants(b);
    assert BarOk(cfg, st, b);
    if st.Rounds(b) < k {
      var missing := all - Arrived(cfg, st, b);
      assert all == Arrived(cfg, st, b) + missing;
      var m :| m in missing;
      assert TallyOk(st, m, b) && RequestOk(st, m, b);
    }
  }

  /**
   So nobody waits forever: once all have asked k times, every participant has returned
   k times, or a step of one of them is still to be taken.
   */
  lemma EveryoneReturns(cfg: Config, run: seq<State>, steps: seq<Step>, i: int, b: Bar, k: int)
    requires Behaviour(cfg, run, steps) && 0 <= i < |run|
    requires |cfg.Participants(b)| > 1 && forall m :: m in cfg.Participants(b) ==> run[i].Asked(m, b) >= k
    requires forall m {:trigger MayStep(cfg, run[i], m, b)} :: m in cfg.Participants(b) ==> !MayStep(cfg, run[i], m, b)
    ensures forall m :: m in cfg.Participants(b) ==> run[i].Left(m, b) >= k
  {
    hide Do, Config.Participants, BarOk;
    var st := run[i];
    NotStuck(cfg, run, steps, i, b, k);
    Reachable(cfg, run, steps, i);
    forall m | m in cfg.Participants(b) ensures (m, b) !in st.requests && st.Left(m, b) == st.Rounds(b) {
      assert !MayStep(cfg, st, m, b);
      assert NodeOk(cfg, st, m) && RequestOk(st, m, b) && TallyOk(st, m, b);
    }
  }

  /** How far a node is from the end of its barrier. */
  ghost function Rank(st: State, n: int): int {
    match st.PhaseOf(n)
    case Resting => 0
    case Passed(_) => 1
    case Releasing(_) => 2
    case Counted(_) => 3
    case Asking(_) => 4
  }

  /**
   Every step but a new request brings the node it is about closer to the end of its
   barrier and none further away, so only finitely many can be taken.
   */
  lemma StepsDescend(cfg: Config, run: seq<State>, steps: seq<Step>, i: int, m: int)
    requires Behaviour(cfg, run, steps) && 0 <= i < |steps| && !steps[i].Ask?
    ensures Rank(run[i + 1], m) <= Rank(run[i], m)
    ensures Rank(run[i + 1], steps[i].node) < Rank(run[i], steps[i].node)
  {
    hide Config.Participants, OnRequest, BarOk, TallyOk;
    var st, step := run[i], steps[i];
    Reachable(cfg, run, steps, i);
    assert Enabled(cfg, st, step) && NodeOk(cfg, st, step.node);
    if step.Deliver? {
      Outcome(cfg, st, step.node, step.bar);
      DeliverEffect(cfg, st, step.node, step.bar);
      ReleasedWere(cfg, st, step.node, step.bar, m);
    }
  }

  /** Whoever is released has asked. */
  lemma ReleasedWere(cfg: Config, st: State, n: int, b: Bar, m: int)
    requires n in cfg.Participants(b) && st.PhaseOf(n) == Asking(b)
    ensures Arrived(cfg, st, b) + {n} == cfg.Participants(b) && m in cfg.Participants(b) ==> Rank(st, m) >= 3
  {
    if Arrived(cfg, st, b) + {n} == cfg.Participants(b) && m in cfg.Participants(b) {
      assert m in Arrived(cfg, st, b) + {n};
    }
  }

  /** Requests and returns are counted as they happen, for the node and barrier they are about and no other. */
  lemma StepsTell(cfg: Config, run: seq<State>, steps: seq<Step>, i: int, m: int, b: Bar)
    requires Behaviour(cfg, run, steps) && 0 <= i < |steps|
    ensures run[i + 1].Asked(m, b) == run[i].Asked(m, b) + if steps[i] == Ask(m, b) then 1 else 0
    ensures run[i + 1].Left(m, b) == run[i].Left(m, b)
            + if steps[i] == Return(m) && run[i].StatusOf(m) == Waiting(b, true) then 1 else 0
  {
    hide OnRequest, Config.Participants;
    assert Enabled(cfg, run[i], steps[i]);
  }

  /** A request of the node is on its way, or its release, or it is about to return. */
  ghost predicate MayStep(cfg: Config, st: State, n: int, b: Bar) {
    Enabled(cfg, st, Deliver(n, b)) || Enabled(cfg, st, Release(n)) || Enabled(cfg, st, Return(n))
  }
}
