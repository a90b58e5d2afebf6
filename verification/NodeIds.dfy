/**
 Node ids: the conversions between ranks and ids, the groups of ids every node
 starts with, the ids the scheduler hands out, and the way of a request to a server
 instance and of its answer back.
 */
module NodeIds {
  import opened Finite
  import Barrier
  import Bits
  import opened Arith

  const SCHEDULER: int := Barrier.SCHEDULER
  const SERVER_GROUP: int := Barrier.SERVER_GROUP
  const WORKER_GROUP: int := Barrier.WORKER_GROUP

  /** The id of a node, and of the sender of a message, that is not set. */
  const EMPTY_ID: int := 32767

  function WorkerRankToID(rank: int): int {
    rank * 2 + 9
  }

  function ServerRankToID(rank: int): int {
    rank * 2 + 8
  }

  /** Ids below 10 give rank 0. */
  function IDtoRank(id: int): int {
    if id < 10 then 0 else (id - 8) / 2
  }

  function InstanceRank(rank: int, instance: int, groupSize: int): int {
    rank * groupSize + instance
  }

  function GroupWorkerRankToInstanceID(rank: int, instance: int, groupSize: int): int {
    WorkerRankToID(InstanceRank(rank, instance, groupSize))
  }

  function GroupServerRankToInstanceID(rank: int, instance: int, groupSize: int): int {
    ServerRankToID(InstanceRank(rank, instance, groupSize))
  }

  function InstanceIDtoGroupRank(id: int, groupSize: int): int
    requires groupSize > 0
  {
    IDtoRank(id) / groupSize
  }

  lemma InstanceRankSplits(rank: int, instance: int, groupSize: int)
    requires rank >= 0 && 0 <= instance < groupSize
    ensures InstanceRank(rank, instance, groupSize) >= 0
    ensures InstanceRank(rank, instance, groupSize) / groupSize == rank
    ensures InstanceRank(rank, instance, groupSize) % groupSize == instance
  {
    Bits.DivModUnique(rank * groupSize + instance, groupSize, rank, instance);
    assert rank * groupSize >= 0;
  }

  /** An instance id determines its group rank, and instances are told apart. */
  lemma GroupRankTrip(rank: int, instance: int, groupSize: int)
    requires rank >= 0 && 0 <= instance < groupSize
    ensures InstanceIDtoGroupRank(GroupWorkerRankToInstanceID(rank, instance, groupSize), groupSize) == rank
    ensures InstanceIDtoGroupRank(GroupServerRankToInstanceID(rank, instance, groupSize), groupSize) == rank
    ensures IDtoRank(GroupWorkerRankToInstanceID(rank, instance, groupSize)) % groupSize == instance
    ensures IDtoRank(GroupServerRankToInstanceID(rank, instance, groupSize)) % groupSize == instance
    ensures GroupWorkerRankToInstanceID(rank, instance, groupSize) % 2 == 1
    ensures GroupServerRankToInstanceID(rank, instance, groupSize) % 2 == 0
  {
    hide InstanceRank;
    InstanceRankSplits(rank, instance, groupSize);
  }

  // ----- Request and answer

  /** The node a worker instance sends to when it addresses server group `dst`. */
  function RequestRecver(dst: int, workerInstance: int, groupSize: int): int {
    GroupServerRankToInstanceID(dst, workerInstance, groupSize)
  }

  /** The sender as the request handler of the server sees it. */
  function SeenSender(sender: int, groupSize: int): int
    requires groupSize > 0
  {
    WorkerRankToID(InstanceIDtoGroupRank(sender, groupSize))
  }

  /** The node a server instance answers to. */
  function ResponseRecver(seen: int, serverInstance: int, groupSize: int): int {
    GroupWorkerRankToInstanceID(IDtoRank(seen), serverInstance, groupSize)
  }

  /** An answer goes back to the asking instance exactly when the server instance has the same offset in its group. */
  lemma RoutesBackIff(worker: int, instance: int, serverInstance: int, groupSize: int)
    requires worker >= 0 && 0 <= instance < groupSize && 0 <= serverInstance < groupSize
    ensures var sender := GroupWorkerRankToInstanceID(worker, instance, groupSize);
            && SeenSender(sender, groupSize) == WorkerRankToID(worker) && IDtoRank(SeenSender(sender, groupSize)) == worker
            && (ResponseRecver(SeenSender(sender, groupSize), serverInstance, groupSize) == sender <==> serverInstance == instance)
  {
    GroupRankTrip(worker, instance, groupSize);
    InstanceRankSplits(worker, instance, groupSize);
    InstanceRankSplits(worker, serverInstance, groupSize);
  }

  /** A request reaches a server instance, which has the offset of the asking instance in its group. */
  lemma RequestKeepsOffset(dst: int, instance: int, groupSize: int)
    requires dst >= 0 && 0 <= instance < groupSize
    ensures IDtoRank(RequestRecver(dst, instance, groupSize)) % groupSize == instance
    ensures InstanceIDtoGroupRank(RequestRecver(dst, instance, groupSize), groupSize) == dst
    ensures RequestRecver(dst, instance, groupSize) == ServerRankToID(IDtoRank(RequestRecver(dst, instance, groupSize)))
  {
    InstanceRankSplits(dst, instance, groupSize);
  }

  // ----- Groups

  ghost function WorkerIds(n: nat): (ids: seq<int>)
    ensures |ids| == n && forall i {:trigger ids[i]} :: 0 <= i < n ==> ids[i] == WorkerRankToID(i)
  {
    seq(n, i => WorkerRankToID(i))
  }

  ghost function ServerIds(n: nat): (ids: seq<int>)
    ensures |ids| == n && forall i {:trigger ids[i]} :: 0 <= i < n ==> ids[i] == ServerRankToID(i)
  {
    seq(n, i => ServerRankToID(i))
  }

  /** What every group holds after `w` workers, `s` servers and possibly the scheduler have been entered. */
  ghost function GroupIds(g: int, w: nat, s: nat, scheduler: bool): seq<int> {
    if 1 <= g <= 7 then
      (if g / 4 == 1 then WorkerIds(w) else []) + (if g / 2 % 2 == 1 then ServerIds(s) else [])
      + (if scheduler && g % 2 == 1 then [SCHEDULER] else [])
    else if g >= 8 && (if g % 2 == 0 then (g - 8) / 2 < s else (g - 8) / 2 < w) then [g]
    else []
  }

  function GroupOf(ids: map<int, seq<int>>, g: int): seq<int> {
    if g in ids then ids[g] else []
  }

  /** Group `g` has got `id` appended if it is among `done`. */
  ghost predicate Appended(ids: map<int, seq<int>>, r: map<int, seq<int>>, done: seq<int>, id: int, g: int) {
    GroupOf(r, g) == GroupOf(ids, g) + if g in done then [id] else []
  }

  method Enter(ids: map<int, seq<int>>, groups: seq<int>, id: int) returns (r: map<int, seq<int>>)
    requires Distinct(groups)
    ensures forall g {:trigger GroupOf(r, g)} :: GroupOf(r, g) == GroupOf(ids, g) + if g in groups then [id] else []
  {
    r := ids;
    ghost var done: seq<int> := [];
    for k := 0 to |groups|
      invariant done == groups[..k]
      invariant forall g {:trigger Appended(ids, r, done, id, g)} :: Appended(ids, r, done, id, g)
    {
      var h := groups[k];
      ghost var before, was := r, done;
      r := r[h := GroupOf(r, h) + [id]];
      done := done + [h];
      forall g ensures Appended(ids, r, done, id, g) {
        AppendStep(ids, before, was, h, id, g);
      }
    }
    assert done == groups;
    forall g ensures GroupOf(r, g) == GroupOf(ids, g) + if g in groups then [id] else [] {
      assert Appended(ids, r, groups, id, g);
    }
  }

  lemma AppendStep(ids: map<int, seq<int>>, r: map<int, seq<int>>, done: seq<int>, h: int, id: int, g: int)
    requires Appended(ids, r, done, id, g) && h !in done
    ensures Appended(ids, r[h := GroupOf(r, h) + [id]], done + [h], id, g)
  {
  }

  /** The groups a worker is entered into. */
  function WorkerGroups(id: int): seq<int> {
    [id, WORKER_GROUP, WORKER_GROUP + SERVER_GROUP, WORKER_GROUP + SCHEDULER, WORKER_GROUP + SERVER_GROUP + SCHEDULER]
  }

  function ServerGroups(id: int): seq<int> {
    [id, SERVER_GROUP, WORKER_GROUP + SERVER_GROUP, SERVER_GROUP + SCHEDULER, WORKER_GROUP + SERVER_GROUP + SCHEDULER]
  }

  const SCHEDULER_GROUPS: seq<int> :=
    [SCHEDULER, SCHEDULER + SERVER_GROUP + WORKER_GROUP, SCHEDULER + WORKER_GROUP, SCHEDULER + SERVER_GROUP]

  lemma GroupsDistinct(id: int)
    requires id >= 8
    ensures Distinct(WorkerGroups(id)) && Distinct(ServerGroups(id)) && Distinct(SCHEDULER_GROUPS)
  {
  }

  /** Every group consists of the workers, the servers and the scheduler it names, in this order. */
  method BuildNodeIds(workers: nat, servers: nat) returns (ids: map<int, seq<int>>)
    ensures forall g {:trigger GroupOf(ids, g)} :: GroupOf(ids, g) == GroupIds(g, workers, servers, true)
  {
    hide WorkerGroups, ServerGroups, Distinct;
    ids := map[];
    for i := 0 to workers
      invariant forall g {:trigger GroupOf(ids, g)} :: GroupOf(ids, g) == GroupIds(g, i, 0, false)
    {
      var id := WorkerRankToID(i);
      GroupsDistinct(id);
      ids := Enter(ids, WorkerGroups(id), id);
      forall g ensures GroupOf(ids, g) == GroupIds(g, i + 1, 0, false) {
        WorkerEntered(g, i);
      }
    }
    for i := 0 to servers
      invariant forall g {:trigger GroupOf(ids, g)} :: GroupOf(ids, g) == GroupIds(g, workers, i, false)
    {
      var id := ServerRankToID(i);
      GroupsDistinct(id);
      ids := Enter(ids, ServerGroups(id), id);
      forall g ensures GroupOf(ids, g) == GroupIds(g, workers, i + 1, false) {
        ServerEntered(g, workers, i);
      }
    }
    GroupsDistinct(8);
    ids := Enter(ids, SCHEDULER_GROUPS, SCHEDULER);
    forall g ensures GroupOf(ids, g) == GroupIds(g, workers, servers, true) {
      SchedulerEntered(g, workers, servers);
    }
  }

  lemma WorkerEntered(g: int, i: nat)
    ensures GroupIds(g, i + 1, 0, false) == GroupIds(g, i, 0, false) + if g in WorkerGroups(WorkerRankToID(i)) then [WorkerRankToID(i)] else []
  {
  }

  lemma ServerEntered(g: int, w: nat, i: nat)
    ensures GroupIds(g, w, i + 1, false) == GroupIds(g, w, i, false) + if g in ServerGroups(ServerRankToID(i)) then [ServerRankToID(i)] else []
  {
  }

  lemma SchedulerEntered(g: int, w: nat, s: nat)
    ensures GroupIds(g, w, s, true) == GroupIds(g, w, s, false) + if g in SCHEDULER_GROUPS then [SCHEDULER] else []
  {
  }

  lemma InstancesDivide(k: nat, groupSize: nat)
    requires groupSize > 0
    ensures Times(groupSize, k) / groupSize == k
  {
    Bits.DivModUnique(k * groupSize, groupSize, k, 0);
  }

  lemma InstancesAdd(a: nat, b: nat, groupSize: nat)
    ensures Times(groupSize, a) + Times(groupSize, b) == Times(groupSize, a + b)
  {
  }

  /** A group barrier waits for one request per instance group, and one of the scheduler if it is in the group. */
  lemma BarrierExpectsGroups(g: int, workers: nat, servers: nat, groupSize: nat)
    requires 1 <= g <= 7 && groupSize > 0
    ensures var ids := GroupIds(g, Times(groupSize, workers), Times(groupSize, servers), true);
            Barrier.Expected(g, |ids|, groupSize) ==
            (if g / 4 == 1 then workers else 0) + (if g / 2 % 2 == 1 then servers else 0) + g % 2
  {
    hide Times;
    InstancesAdd(workers, servers, groupSize);
    InstancesDivide(workers + servers, groupSize);
    InstancesDivide(workers, groupSize);
    InstancesDivide(servers, groupSize);
  }

  // ----- The scheduler hands out ids

  datatype Role = Server | Worker | OtherRole

  /** `addr` is hostname:port, `auxId` the preferred rank or -1. */
  datatype Node = Node(role: Role, addr: string, auxId: int, id: int)

  ghost function CountRole(nodes: seq<Node>, role: Role): nat {
    if nodes == [] then 0
    else CountRole(nodes[..|nodes| - 1], role) + if nodes[|nodes| - 1].role == role then 1 else 0
  }

  function RankToID(role: Role, rank: int): int {
    if role == Server then ServerRankToID(rank) else WorkerRankToID(rank)
  }

  ghost predicate Preferred(nodes: seq<Node>) {
    exists i :: 0 <= i < |nodes| && nodes[i].auxId != -1
  }

  /** Worker ranks are counted for every node that is no server. */
  ghost function RankOf(nodes: seq<Node>, preferred: bool, i: int): int
    requires 0 <= i < |nodes|
  {
    if preferred then nodes[i].auxId
    else CountRole(nodes[..i], if nodes[i].role == Server then Server else Worker)
  }

  /** The id meant for node `i`. */
  ghost function IdFor(nodes: seq<Node>, preferred: bool, i: int): int
    requires 0 <= i < |nodes|
  {
    RankToID(nodes[i].role, RankOf(nodes, preferred, i))
  }

  ghost predicate RoleRanks(nodes: seq<Node>, role: Role, n: int) {
    && (forall i, j {:trigger nodes[i], nodes[j]} ::
          0 <= i < j < |nodes| && nodes[i].role == role == nodes[j].role ==> nodes[i].auxId != nodes[j].auxId)
    && (forall i {:trigger nodes[i]} :: 0 <= i < |nodes| && nodes[i].role == role ==> 0 <= nodes[i].auxId < n)
    && (forall r {:trigger HasRank(nodes, role, r)} :: 0 <= r < n ==> HasRank(nodes, role, r))
  }

  ghost predicate HasRank(nodes: seq<Node>, role: Role, r: int) {
    exists i {:trigger nodes[i]} :: 0 <= i < |nodes| && nodes[i].role == role && nodes[i].auxId == r
  }

  /** The preferred ranks of each role are exactly 0, 1, 2, ... */
  ghost predicate RanksOk(nodes: seq<Node>, servers: int, workers: int) {
    && (forall i {:trigger nodes[i]} :: 0 <= i < |nodes| ==> nodes[i].role != OtherRole)
    && RoleRanks(nodes, Server, servers) && RoleRanks(nodes, Worker, workers)
  }

  method DetectPreferred(nodes: seq<Node>) returns (preferred: bool)
    ensures preferred <==> Preferred(nodes)
  {
    preferred := false;
    for i := 0 to |nodes|
      invariant preferred <==> exists k :: 0 <= k < i && nodes[k].auxId != -1
    {
      if nodes[i].auxId != -1 {
        preferred := true;
      }
    }
  }

  /** The ranks of one role are collected in a set; a repeated rank is fatal. */
  ghost predicate Collected(nodes: seq<Node>, role: Role, k: int, ranks: set<int>)
    requires 0 <= k <= |nodes|
  {
    && (forall r {:trigger r in ranks} :: r in ranks <==> HasRank(nodes[..k], role, r))
    && (forall i, j {:trigger nodes[i], nodes[j]} ::
          0 <= i < j < k && nodes[i].role == role == nodes[j].role ==> nodes[i].auxId != nodes[j].auxId)
  }

  lemma CollectedGrows(nodes: seq<Node>, role: Role, k: int, ranks: set<int>)
    requires 0 <= k < |nodes| && Collected(nodes, role, k, ranks)
    ensures nodes[k].role != role ==> Collected(nodes, role, k + 1, ranks)
    ensures nodes[k].role == role ==> (nodes[k].auxId in ranks <==> HasRank(nodes[..k], role, nodes[k].auxId))
    ensures nodes[k].role == role && nodes[k].auxId !in ranks ==> Collected(nodes, role, k + 1, ranks + {nodes[k].auxId})
  {
  }

  lemma RepeatedRank(nodes: seq<Node>, role: Role, k: int, n: int)
    requires 0 <= k < |nodes| && nodes[k].role == role && HasRank(nodes[..k], role, nodes[k].auxId)
    ensures !RoleRanks(nodes, role, n)
  {
  }

  /** With all ranks collected, the two tests on the set decide whether it is 0, 1, 2, ... */
  lemma CollectedAll(nodes: seq<Node>, role: Role, ranks: set<int>, n: int)
    requires Collected(nodes, role, |nodes|, ranks) && n >= 0
    ensures RoleRanks(nodes, role, n) <==> (forall r {:trigger r in ranks} :: 0 <= r < n ==> r in ranks) && |ranks| == n
  {
    assert nodes[..|nodes|] == nodes;
    if RoleRanks(nodes, role, n) {
      forall r ensures r in ranks <==> r in Finite.Below(n) {
        if r in ranks {
          var i :| 0 <= i < |nodes| && nodes[i].role == role && nodes[i].auxId == r;
        }
        assert 0 <= r < n ==> HasRank(nodes, role, r);
      }
      assert ranks == Finite.Below(n);
    }
    if (forall r {:trigger r in ranks} :: 0 <= r < n ==> r in ranks) && |ranks| == n {
      SubsetSize(Finite.Below(n), ranks);
      forall i | 0 <= i < |nodes| && nodes[i].role == role ensures 0 <= nodes[i].auxId < n {
        assert HasRank(nodes, role, nodes[i].auxId);
        assert nodes[i].auxId in ranks;
      }
      forall r | 0 <= r < n ensures HasRank(nodes, role, r) {
        assert r in ranks;
      }
    }
  }

  method Continuous(ranks: set<int>, n: int) returns (ok: bool)
    requires n >= 0
    ensures ok <==> (forall r {:trigger r in ranks} :: 0 <= r < n ==> r in ranks) && |ranks| == n
  {
    for i := 0 to n
      invariant forall r {:trigger r in ranks} :: 0 <= r < i ==> r in ranks
    {
      if i !in ranks {
        return false;
      }
    }
    ok := |ranks| == n;
  }

  /** The checks on preferred ranks pass exactly when the ranks of each role are 0, 1, 2, ... */
  method CheckRanks(nodes: seq<Node>, servers: int, workers: int) returns (ok: bool)
    requires servers >= 0 && workers >= 0
    ensures ok <==> RanksOk(nodes, servers, workers)
  {
    hide RoleRanks;
    var serverRanks: set<int>, workerRanks: set<int> := {}, {};
    for k := 0 to |nodes|
      invariant Collected(nodes, Server, k, serverRanks) && Collected(nodes, Worker, k, workerRanks)
      invariant forall i {:trigger nodes[i]} :: 0 <= i < k ==> nodes[i].role != OtherRole
    {
      CollectedGrows(nodes, Server, k, serverRanks);
      CollectedGrows(nodes, Worker, k, workerRanks);
      if nodes[k].role == Server {
        if nodes[k].auxId in serverRanks {
          RepeatedRank(nodes, Server, k, servers);
          return false;
        }
        serverRanks := serverRanks + {nodes[k].auxId};
      } else if nodes[k].role == Worker {
        if nodes[k].auxId in workerRanks {
          RepeatedRank(nodes, Worker, k, workers);
          return false;
        }
        workerRanks := workerRanks + {nodes[k].auxId};
      } else {
        return false;
      }
    }
    CollectedAll(nodes, Server, serverRanks, servers);
    CollectedAll(nodes, Worker, workerRanks, workers);
    var a := Continuous(serverRanks, servers);
    var b := Continuous(workerRanks, workers);
    ok := a && b;
  }

  /** The first node with the address of node `i`, from `k` on. */
  ghost function FirstFrom(nodes: seq<Node>, i: int, k: int): int
    requires 0 <= k <= i < |nodes|
    decreases i - k
  {
    if nodes[k].addr == nodes[i].addr then k else FirstFrom(nodes, i, k + 1)
  }

  ghost function First(nodes: seq<Node>, i: int): int
    requires 0 <= i < |nodes|
  {
    FirstFrom(nodes, i, 0)
  }

  lemma {:induction false} FirstFromIs(nodes: seq<Node>, i: int, k: int, j: int)
    requires 0 <= k <= j <= i < |nodes|
    ensures k <= FirstFrom(nodes, i, k) <= i && nodes[FirstFrom(nodes, i, k)].addr == nodes[i].addr
    ensures nodes[j].addr == nodes[i].addr ==> FirstFrom(nodes, i, k) <= j && FirstFrom(nodes, j, k) == FirstFrom(nodes, i, k)
    decreases i - k
  {
    if k < i && nodes[k].addr != nodes[i].addr {
      FirstFromIs(nodes, i, k + 1, if k < j then j else k + 1);
    }
  }

  datatype Result = Assigned(nodes: seq<Node>) | Fatal

  /** A node that is first at its address must come without an id. */
  ghost predicate Unassigned(nodes: seq<Node>, i: int)
    requires 0 <= i < |nodes|
  {
    First(nodes, i) == i ==> nodes[i].id == EMPTY_ID
  }

  ghost predicate AssignedAt(nodes: seq<Node>, preferred: bool, out: seq<Node>, i: int)
    requires 0 <= i < |out| <= |nodes|
  {
    0 <= First(nodes, i) < |nodes| && out[i] == nodes[i].(id := IdFor(nodes, preferred, First(nodes, i)))
  }

  ghost predicate ConnectedAt(connected: map<string, int>, nodes: seq<Node>, preferred: bool, j: int)
    requires 0 <= j < |nodes|
  {
    && nodes[j].addr in connected && 0 <= First(nodes, j) < |nodes|
    && connected[nodes[j].addr] == IdFor(nodes, preferred, First(nodes, j))
  }

  /** The connected addresses are those of the first `k` nodes, with the id of the first node that has them. */
  ghost predicate Connected(connected: map<string, int>, nodes: seq<Node>, preferred: bool, k: int)
    requires 0 <= k <= |nodes|
  {
    && (forall a {:trigger a in connected} :: a in connected ==> HasAddr(nodes[..k], a))
    && (forall j {:trigger ConnectedAt(connected, nodes, preferred, j)} :: 0 <= j < k ==> ConnectedAt(connected, nodes, preferred, j))
  }

  ghost predicate HasAddr(nodes: seq<Node>, a: string) {
    exists j {:trigger nodes[j]} :: 0 <= j < |nodes| && nodes[j].addr == a
  }

  /** An address is connected exactly when an earlier node has it. */
  lemma SeenBefore(connected: map<string, int>, nodes: seq<Node>, preferred: bool, k: int)
    requires 0 <= k < |nodes| && Connected(connected, nodes, preferred, k)
    ensures nodes[k].addr in connected <==> First(nodes, k) < k
    ensures nodes[k].addr in connected ==>
      0 <= First(nodes, k) && connected[nodes[k].addr] == IdFor(nodes, preferred, First(nodes, k))
    ensures nodes[k].addr !in connected ==> First(nodes, k) == k
  {
    hide IdFor, First;
    FirstIs(nodes, k, k);
    var f, a := First(nodes, k), nodes[k].addr;
    if f < k {
      assert ConnectedAt(connected, nodes, preferred, f);
      FirstIs(nodes, k, f);
    }
    if a in connected {
      assert HasAddr(nodes[..k], a);
      var j :| 0 <= j < k && nodes[..k][j].addr == a;
      FirstIs(nodes, k, j);
    }
  }

  lemma FirstIs(nodes: seq<Node>, i: int, j: int)
    requires 0 <= j <= i < |nodes|
    ensures 0 <= First(nodes, i) <= i && nodes[First(nodes, i)].addr == nodes[i].addr
    ensures nodes[j].addr == nodes[i].addr ==> First(nodes, i) <= j && First(nodes, j) == First(nodes, i)
  {
    FirstFromIs(nodes, i, 0, j);
  }

  lemma ConnectNext(connected: map<string, int>, nodes: seq<Node>, preferred: bool, k: int)
    requires 0 <= k < |nodes| && Connected(connected, nodes, preferred, k)
    ensures nodes[k].addr in connected ==> Connected(connected, nodes, preferred, k + 1)
    ensures nodes[k].addr !in connected ==> Connected(connected[nodes[k].addr := IdFor(nodes, preferred, k)], nodes, preferred, k + 1)
  {
    hide IdFor, First;
    SeenBefore(connected, nodes, preferred, k);
    FirstIs(nodes, k, k);
    var now := if nodes[k].addr in connected then connected else connected[nodes[k].addr := IdFor(nodes, preferred, k)];
    var a, b := nodes[..k], nodes[..k + 1];
    forall x | x in now ensures HasAddr(b, x) {
      if x in connected {
        assert HasAddr(a, x);
        var j :| 0 <= j < |a| && a[j].addr == x;
        assert b[j] == a[j];
      } else {
        assert b[k] == nodes[k];
      }
    }
    forall j | 0 <= j < k + 1 ensures ConnectedAt(now, nodes, preferred, j) {
      assert j < k ==> ConnectedAt(connected, nodes, preferred, j);
    }
  }

  /** Node `i` is not the first at its address, and `id` is the id of its own rank. */
  ghost predicate Shares(nodes: seq<Node>, preferred: bool, i: int, id: int)
    requires 0 <= i < |nodes|
  {
    First(nodes, i) < i && IdFor(nodes, preferred, i) == id
  }

  /** The entry of node `i`, unless a later one of the first `k` nodes has replaced it. */
  ghost predicate SharedAt(shared: map<int, int>, nodes: seq<Node>, preferred: bool, k: int, i: int)
    requires 0 <= i < k <= |nodes|
  {
    var id := IdFor(nodes, preferred, i);
    Shares(nodes, preferred, i, id) ==>
      && id in shared
      && ((forall j {:trigger Shares(nodes, preferred, j, id)} :: i < j < k ==> !Shares(nodes, preferred, j, id)) ==>
            0 <= First(nodes, i) && shared[id] == IdFor(nodes, preferred, First(nodes, i)))
  }

  /** The mapping holds exactly the nodes among the first `k` that share an address with an earlier one. */
  ghost predicate SharedUpTo(shared: map<int, int>, nodes: seq<Node>, preferred: bool, k: int)
    requires 0 <= k <= |nodes|
  {
    && (forall id {:trigger id in shared} :: id in shared ==>
          exists i {:trigger Shares(nodes, preferred, i, id)} :: 0 <= i < k && Shares(nodes, preferred, i, id))
    && (forall i {:trigger SharedAt(shared, nodes, preferred, k, i)} :: 0 <= i < k ==> SharedAt(shared, nodes, preferred, k, i))
  }

  lemma ShareNext(shared: map<int, int>, nodes: seq<Node>, preferred: bool, k: int)
    requires 0 <= k < |nodes| && SharedUpTo(shared, nodes, preferred, k) && 0 <= First(nodes, k) <= k
    ensures First(nodes, k) == k ==> SharedUpTo(shared, nodes, preferred, k + 1)
    ensures First(nodes, k) < k ==>
      SharedUpTo(shared[IdFor(nodes, preferred, k) := IdFor(nodes, preferred, First(nodes, k))], nodes, preferred, k + 1)
  {
    hide IdFor, First;
    var id, next := IdFor(nodes, preferred, k), k + 1;
    var now := if First(nodes, k) < k then shared[id := IdFor(nodes, preferred, First(nodes, k))] else shared;
    forall x | x in now ensures exists i {:trigger Shares(nodes, preferred, i, x)} :: 0 <= i < next && Shares(nodes, preferred, i, x) {
      if x !in shared { assert Shares(nodes, preferred, k, x); }
    }
    forall i | 0 <= i < next ensures SharedAt(now, nodes, preferred, next, i) {
      if i < k {
        assert SharedAt(shared, nodes, preferred, k, i);
        assert Shares(nodes, preferred, k, IdFor(nodes, preferred, i)) <==>
               First(nodes, k) < k && id == IdFor(nodes, preferred, i);
      }
    }
  }

  class SchedulerVan {
    var numServers: int
    var numWorkers: int
    var connectedNodes: map<string, int>
    var sharedNodeMapping: map<int, int>

    constructor ()
      ensures numServers == numWorkers == 0 && connectedNodes == map[] && sharedNodeMapping == map[]
    {
      numServers, numWorkers, connectedNodes, sharedNodeMapping := 0, 0, map[], map[];
    }

    /**
     Hands out the ids.  Fatal exactly when preferred ranks are given but are not 0, 1, 2, ...
     of each role, or when a node that is new comes with an id; a node on an address already
     connected shares the id of the first one there, and the id of its own rank is mapped
     to that one.
     */
    method AssignIds(nodes: seq<Node>, servers: int, workers: int) returns (r: Result)
      requires servers >= 0 && workers >= 0
      requires numServers == numWorkers == 0 && connectedNodes == map[] && sharedNodeMapping == map[]
      modifies this
      ensures r.Assigned? <==>
        && (Preferred(nodes) ==> RanksOk(nodes, servers, workers))
        && forall i {:trigger Unassigned(nodes, i)} :: 0 <= i < |nodes| ==> Unassigned(nodes, i)
      ensures r.Assigned? ==> |r.nodes| == |nodes|
      ensures r.Assigned? ==>
        forall i {:trigger AssignedAt(nodes, Preferred(nodes), r.nodes, i)} ::
          0 <= i < |nodes| ==> AssignedAt(nodes, Preferred(nodes), r.nodes, i)
      ensures r.Assigned? ==> SharedUpTo(sharedNodeMapping, nodes, Preferred(nodes), |nodes|)
      ensures r.Assigned? && DistinctAddrs(nodes) ==> sharedNodeMapping == map[]
    {
      hide RanksOk, Preferred, First, DistinctAddrs, ConnectedAt, SharedAt, Shares;
      var preferred := DetectPreferred(nodes);
      if preferred {
        var ok := CheckRanks(nodes, servers, workers);
        if !ok {
          return Fatal;
        }
      }
      var out := [];
      assert nodes[..0] == [];
      for k := 0 to |nodes|
        invariant |out| == k && Connected(connectedNodes, nodes, preferred, k)
        invariant numServers == CountRole(nodes[..k], Server) && numWorkers == CountRole(nodes[..k], Worker)
        invariant forall i {:trigger AssignedAt(nodes, preferred, out, i)} :: 0 <= i < k ==> AssignedAt(nodes, preferred, out, i)
        invariant forall i {:trigger Unassigned(nodes, i)} :: 0 <= i < k ==> Unassigned(nodes, i)
        invariant SharedUpTo(sharedNodeMapping, nodes, preferred, k)
        invariant DistinctAddrs(nodes) ==> sharedNodeMapping == map[]
      {
        var node := nodes[k];
        ghost var before := out;
        var id := RankToID(node.role, if preferred then node.auxId else if node.role == Server then numServers else numWorkers);
        assert id == IdFor(nodes, preferred, k);
        SeenBefore(connectedNodes, nodes, preferred, k);
        ConnectNext(connectedNodes, nodes, preferred, k);
        FirstIs(nodes, k, k);
        ShareNext(sharedNodeMapping, nodes, preferred, k);
        if node.addr !in connectedNodes {
          if node.id != EMPTY_ID {
            assert !Unassigned(nodes, k);
            return Fatal;
          }
          connectedNodes := connectedNodes[node.addr := id];
          out := out + [node.(id := id)];
        } else {
          NoRepeats(nodes, k);
          sharedNodeMapping := sharedNodeMapping[id := connectedNodes[node.addr]];
          out := out + [node.(id := connectedNodes[node.addr])];
        }
        OneMoreRole(nodes, k);
        if node.role == Server { numServers := numServers + 1; }
        if node.role == Worker { numWorkers := numWorkers + 1; }
        forall i | 0 <= i < |out| ensures AssignedAt(nodes, preferred, out, i) {
          assert i < k ==> AssignedAt(nodes, preferred, before, i);
        }
      }
      r := Assigned(out);
    }
  }

  ghost predicate DistinctAddrs(nodes: seq<Node>) {
    forall i, j {:trigger nodes[i], nodes[j]} :: 0 <= i < j < |nodes| ==> nodes[i].addr != nodes[j].addr
  }

  lemma NoRepeats(nodes: seq<Node>, k: int)
    requires 0 <= k < |nodes|
    ensures DistinctAddrs(nodes) ==> First(nodes, k) == k
  {
    FirstIs(nodes, k, k);
  }

  lemma OneMoreRole(nodes: seq<Node>, k: int)
    requires 0 <= k < |nodes|
    ensures CountRole(nodes[..k + 1], Server) == CountRole(nodes[..k], Server) + if nodes[k].role == Server then 1 else 0
    ensures CountRole(nodes[..k + 1], Worker) == CountRole(nodes[..k], Worker) + if nodes[k].role == Worker then 1 else 0
  {
    assert nodes[..k + 1][..k] == nodes[..k];
  }

  // ----- The ids are exactly those of the worker and server group

  lemma {:induction false} CountGrows(nodes: seq<Node>, role: Role, i: int, j: int)
    requires 0 <= i <= j <= |nodes|
    ensures CountRole(nodes[..i], role) <= CountRole(nodes[..j], role)
    ensures i < j && nodes[i].role == role ==> CountRole(nodes[..i], role) < CountRole(nodes[..j], role)
    decreases j
  {
    if i < j {
      CountGrows(nodes, role, i, j - 1);
      assert nodes[..j][..j - 1] == nodes[..j - 1];
    }
  }

  lemma {:induction false} CountsOfBoth(nodes: seq<Node>)
    ensures CountRole(nodes, Server) + CountRole(nodes, Worker) <= |nodes|
    ensures CountRole(nodes, Server) + CountRole(nodes, Worker) == |nodes| ==>
      forall i {:trigger nodes[i]} :: 0 <= i < |nodes| ==> nodes[i].role != OtherRole
  {
    if nodes != [] {
      CountsOfBoth(nodes[..|nodes| - 1]);
    }
  }

  /** The configured numbers of servers and workers, with their ranks if any are given. */
  ghost predicate Complete(nodes: seq<Node>, servers: int, workers: int) {
    && |nodes| == servers + workers
    && if Preferred(nodes) then RanksOk(nodes, servers, workers)
       else CountRole(nodes, Server) == servers && CountRole(nodes, Worker) == workers
  }

  ghost predicate GoodRank(nodes: seq<Node>, preferred: bool, servers: int, workers: int, i: int)
    requires 0 <= i < |nodes|
  {
    && nodes[i].role != OtherRole
    && 0 <= RankOf(nodes, preferred, i) < if nodes[i].role == Server then servers else workers
  }

  lemma RanksInRange(nodes: seq<Node>, servers: int, workers: int, i: int)
    requires Complete(nodes, servers, workers) && 0 <= i < |nodes|
    ensures GoodRank(nodes, Preferred(nodes), servers, workers, i)
  {
    if !Preferred(nodes) {
      CountsOfBoth(nodes);
      CountGrows(nodes, nodes[i].role, i, |nodes|);
      assert nodes[..|nodes|] == nodes;
    }
  }

  lemma RanksDiffer(nodes: seq<Node>, servers: int, workers: int, i: int, j: int)
    requires Complete(nodes, servers, workers) && 0 <= i < j < |nodes| && nodes[i].role == nodes[j].role
    ensures RankOf(nodes, Preferred(nodes), i) != RankOf(nodes, Preferred(nodes), j)
  {
    RanksInRange(nodes, servers, workers, i);
    if !Preferred(nodes) {
      CountGrows(nodes, nodes[i].role, i, j);
    }
  }

  ghost function Ids(nodes: seq<Node>): (ids: seq<int>)
    ensures |ids| == |nodes| && forall i {:trigger ids[i]} :: 0 <= i < |ids| ==> ids[i] == nodes[i].id
  {
    seq(|nodes|, i requires 0 <= i < |nodes| => nodes[i].id)
  }

  /**
   For the configured numbers of servers and workers on distinct addresses, the ids
   handed out are pairwise distinct and exactly those of the worker and server group.
   */
  lemma IdsAreTheGroup(nodes: seq<Node>, servers: nat, workers: nat, out: seq<Node>)
    requires Complete(nodes, servers, workers) && DistinctAddrs(nodes) && |out| == |nodes|
    requires forall i {:trigger AssignedAt(nodes, Preferred(nodes), out, i)} ::
      0 <= i < |nodes| ==> AssignedAt(nodes, Preferred(nodes), out, i)
    ensures Distinct(Ids(out))
    ensures Elements(Ids(out)) == Elements(GroupIds(WORKER_GROUP + SERVER_GROUP, workers, servers, true))
  {
    hide RanksOk, CountRole, Preferred, First, DistinctAddrs, RankOf;
    var ids, group := Ids(out), GroupIds(WORKER_GROUP + SERVER_GROUP, workers, servers, true);
    forall i | 0 <= i < |ids|
      ensures ids[i] == RankToID(nodes[i].role, RankOf(nodes, Preferred(nodes), i))
      ensures GoodRank(nodes, Preferred(nodes), servers, workers, i)
    {
      assert AssignedAt(nodes, Preferred(nodes), out, i);
      NoRepeats(nodes, i);
      RanksInRange(nodes, servers, workers, i);
    }
    forall i, j | 0 <= i < j < |ids| ensures ids[i] != ids[j] {
      assert ids[i] == RankToID(nodes[i].role, RankOf(nodes, Preferred(nodes), i));
      assert ids[j] == RankToID(nodes[j].role, RankOf(nodes, Preferred(nodes), j));
      if nodes[i].role == nodes[j].role { RanksDiffer(nodes, servers, workers, i, j); }
    }
    forall x | x in Elements(ids) ensures x in Elements(group) {
      var i :| 0 <= i < |ids| && ids[i] == x;
      var rank := RankOf(nodes, Preferred(nodes), i);
      InGroup(nodes[i].role, rank, servers, workers);
    }
    GroupDistinct(servers, workers);
    DistinctSize(ids);
    DistinctSize(group);
    SubsetSize(Elements(ids), Elements(group));
  }

  lemma InGroup(role: Role, rank: int, servers: nat, workers: nat)
    requires role != OtherRole && 0 <= rank < if role == Server then servers else workers
    ensures RankToID(role, rank) in GroupIds(WORKER_GROUP + SERVER_GROUP, workers, servers, true)
  {
    var group := GroupIds(WORKER_GROUP + SERVER_GROUP, workers, servers, true);
    assert group == WorkerIds(workers) + ServerIds(servers) + [];
    assert group[if role == Server then workers + rank else rank] == RankToID(role, rank);
  }

  lemma GroupDistinct(servers: nat, workers: nat)
    ensures var group := GroupIds(WORKER_GROUP + SERVER_GROUP, workers, servers, true);
            |group| == servers + workers && Distinct(group)
  {
  }
}
