/**
 The sending side of batches in AFTensorWorker: ZBatchPushPull hands out the
 timestamps and queues the job, ZBatchPushPull_ turns a job into flagged
 messages for every server.  Timestamps are handed out by one thread at a time.
 */
module BatchWorker {
  import opened Arith
  import opened BatchServer
  import opened Finite
  import NodeIds
  import opened Wrappers

  datatype KeyTensor = KeyTensor(key: int, body: int)

  datatype Job = Job(push: seq<KeyTensor>, pull: seq<KeyTensor>, pushTs: seq<int>, pullTs: seq<int>)

  ghost function Range(start: int, n: nat): seq<int> {
    seq(n, i => start + i)
  }

  ghost function Stamps(job: Job): seq<int> {
    job.pushTs + job.pullTs
  }

  // ----- Handing out timestamps

  /** A run of consecutive timestamps below `next`. */
  ghost predicate RunBelow(ts: seq<int>, next: int) {
    forall a {:trigger ts[a]} :: 0 <= a < |ts| ==> 0 <= ts[a] == ts[0] + a < next
  }

  ghost predicate Earlier(ts: seq<int>, us: seq<int>) {
    forall a, b {:trigger ts[a], us[b]} :: 0 <= a < |ts| && 0 <= b < |us| ==> ts[a] < us[b]
  }

  /** All jobs ever queued use runs of consecutive timestamps, later jobs later ones. */
  ghost predicate InOrder(log: seq<Job>, next: int) {
    && (forall i {:trigger log[i]} :: 0 <= i < |log| ==> RunBelow(Stamps(log[i]), next))
    && (forall i, j {:trigger log[i], log[j]} :: 0 <= i < j < |log| ==> Earlier(Stamps(log[i]), Stamps(log[j])))
  }

  lemma InOrderGrows(log: seq<Job>, next: int, job: Job)
    requires InOrder(log, next) && 0 <= next && Stamps(job) == Range(next, |Stamps(job)|)
    ensures InOrder(log + [job], next + |Stamps(job)|)
  {
    hide RunBelow, Earlier, Range, Stamps;
    var log1, n := log + [job], |Stamps(job)|;
    forall i | 0 <= i < |log| ensures RunBelow(Stamps(log[i]), next + n) && Earlier(Stamps(log[i]), Stamps(job)) {
      RunGrows(Stamps(log[i]), next, Stamps(job));
    }
    assert RunBelow(Stamps(job), next + n) by {
      OwnRun(next, Stamps(job));
    }
  }

  lemma RunGrows(ts: seq<int>, next: int, us: seq<int>)
    requires RunBelow(ts, next) && 0 <= next && us == Range(next, |us|)
    ensures RunBelow(ts, next + |us|) && Earlier(ts, us)
  {
  }

  lemma OwnRun(next: int, us: seq<int>)
    requires 0 <= next && us == Range(next, |us|)
    ensures RunBelow(us, next + |us|)
  {
  }

  /** A timestamp for every push and for every pull of one server. */
  ghost predicate SizedJob(job: Job, servers: int)
    requires servers > 0
  {
    |job.pushTs| == |job.push| && |job.pullTs| == Per(|job.pull|, servers)
  }

  /**
   The table of recorded timestamps.  It is filled with emplace_unique, which does not
   look for the key, so a key can have several records.
   */
  type Table = map<int, seq<seq<int>>>

  function Recorded(table: Table, key: int, rest: seq<int>): Table {
    table[key := (if key in table then table[key] else []) + [rest]]
  }

  /** The table without record `which` of `key`. */
  function Erased(table: Table, key: int, which: int): Table
    requires key in table && 0 <= which < |table[key]|
  {
    if |table[key]| == 1 then table - {key} else table[key := table[key][..which] + table[key][which + 1..]]
  }

  /** No key beside itself. */
  ghost predicate Intact(table: Table) {
    forall t {:trigger table[t]} :: t in table ==> |table[t]| == 1
  }

  class AFTensorWorker {
    const servers: int
    var next: int                             // size of the customer's tracker
    var batchTimestamps: Table
    var queue: seq<Job>
    ghost var log: seq<Job>                   // every job ever queued

    ghost predicate Valid()
      reads this
    {
      && servers > 0 && 0 <= next && InOrder(log, next)
      && (forall i {:trigger log[i]} :: 0 <= i < |log| ==> SizedJob(log[i], servers))
      && (forall t {:trigger t in batchTimestamps} :: t in batchTimestamps ==>
           (t == 0 || t < next) && batchTimestamps[t] != [])
    }

    constructor (servers: int)
      requires servers > 0
      ensures Valid() && this.servers == servers && next == 0 && batchTimestamps == map[] && queue == [] && log == []
    {
      this.servers, next, batchTimestamps, queue, log := servers, 0, map[], [], [];
    }

    method AllocTimestamp() returns (ts: int)
      modifies this`next
      ensures ts == old(next) && next == ts + 1
    {
      ts := next;
      next := next + 1;
    }

    /**
     The run of timestamps of a batch is consecutive, and the handle together with
     the recorded rest lists it completely.  The table is given a key it already has,
     which emplace_unique must not be, exactly when 0 is recorded and either this job
     draws no timestamp or it draws the very first one.
     */
    method ZBatchPushPull(push: seq<KeyTensor>, pull: seq<KeyTensor>) returns (start: int)
      requires Valid()
      modifies this
      ensures Valid() && next == old(next) + |push| + Per(|pull|, servers)
      ensures start == if |push| + Per(|pull|, servers) == 0 then 0 else old(next)
      ensures var job := Job(push, pull, Range(old(next), |push|), Range(old(next) + |push|, Per(|pull|, servers)));
              queue == old(queue) + [job] && log == old(log) + [job] &&
              var rest := Stamps(job)[if Stamps(job) == [] then 0 else 1..];
              && (Stamps(job) != [] ==> start == Stamps(job)[0])
              && batchTimestamps - {start} == old(batchTimestamps) - {start} && start in batchTimestamps
              && batchTimestamps[start] == (if start in old(batchTimestamps) then old(batchTimestamps)[start] else []) + [rest]
      ensures Intact(batchTimestamps) <==> Intact(old(batchTimestamps)) && start !in old(batchTimestamps)
      ensures start in old(batchTimestamps) <==>
              0 in old(batchTimestamps) && (|push| + Per(|pull|, servers) == 0 || old(next) == 0)
    {
      hide InOrder, Per;
      var timestamps, pushTs, pullTs;
      start, timestamps, pushTs, pullTs := DrawTimestamps(|push|, Per(|pull|, servers));
      var job := Job(push, pull, pushTs, pullTs);
      assert Stamps(job) == Range(old(next), |Stamps(job)|);
      InOrderGrows(log, old(next), job);
      queue, log := queue + [job], log + [job];
      batchTimestamps := Recorded(batchTimestamps, start, timestamps);
      RecordedIntact(old(batchTimestamps), start, timestamps);
    }

    /** The two loops that draw the timestamps of `n` pushes and of `p` pulls. */
    method DrawTimestamps(n: int, p: int) returns (start: int, timestamps: seq<int>, pushTs: seq<int>, pullTs: seq<int>)
      requires 0 <= n && 0 <= p
      modifies this`next
      ensures next == old(next) + n + p && start == if n + p == 0 then 0 else old(next)
      ensures pushTs == Range(old(next), n) && pullTs == Range(old(next) + n, p)
      ensures timestamps == (pushTs + pullTs)[if n + p == 0 then 0 else 1..]
    {
      var first, i := true, 0;
      start, timestamps, pushTs, pullTs := 0, [], [], [];
      while i < n
        invariant 0 <= i <= n && next == old(next) + i && first == (i == 0)
        invariant pushTs == Range(old(next), i)
        invariant start == if i == 0 then 0 else old(next)
        invariant timestamps == pushTs[if i == 0 then 0 else 1..]
      {
        var ts := AllocTimestamp();
        if i == 0 {
          first, start := false, ts;
        } else {
          timestamps := timestamps + [ts];
        }
        pushTs := pushTs + [ts];
        i := i + 1;
      }
      i := 0;
      while i < p
        invariant 0 <= i <= p && next == old(next) + n + i && first == (n == 0)
        invariant pullTs == Range(old(next) + n, i)
        invariant start == if n + i == 0 then 0 else old(next)
        invariant timestamps == (pushTs + pullTs)[if n + i == 0 then 0 else 1..]
      {
        var ts := AllocTimestamp();
        if first && i == 0 {
          start := ts;
        } else {
          timestamps := timestamps + [ts];
        }
        pullTs := pullTs + [ts];
        i := i + 1;
      }
    }

    /** The record the table finds under a key: any one of them, when there are several. */
    ghost predicate Finds(ts: int, which: int)
      reads this
    {
      ts in batchTimestamps ==> 0 <= which < |batchTimestamps[ts]|
    }

    /** The handles of a batch: the first timestamp and the recorded rest. */
    method GetAllHandlers(ts: int, which: int) returns (handlers: seq<int>)
      requires Finds(ts, which)
      ensures handlers == [ts] + if ts in batchTimestamps then batchTimestamps[ts][which] else []
    {
      handlers := [ts];
      if ts in batchTimestamps {
        var v := batchTimestamps[ts][which];
        for i := 0 to |v|
          invariant handlers == [ts] + v[..i]
        {
          handlers := handlers + [v[i]];
        }
        assert v[..|v|] == v;
      }
    }

    /** Waits for the handle and the recorded rest, and forgets that record. */
    method Wait(ts: int, which: int) returns (waited: seq<int>)
      requires Valid() && Finds(ts, which)
      modifies this`batchTimestamps
      ensures Valid()
      ensures batchTimestamps - {ts} == old(batchTimestamps) - {ts}
      ensures ts in old(batchTimestamps) ==>
        var was := old(batchTimestamps)[ts];
        var left := was[..which] + was[which + 1..];
        if left == [] then ts !in batchTimestamps else ts in batchTimestamps && batchTimestamps[ts] == left
      ensures ts !in old(batchTimestamps) ==> batchTimestamps == old(batchTimestamps)
      ensures waited == [ts] + if ts in old(batchTimestamps) then old(batchTimestamps)[ts][which] else []
      ensures Intact(old(batchTimestamps)) ==> Intact(batchTimestamps) && ts !in batchTimestamps
    {
      waited := [ts];
      if ts in batchTimestamps {
        var v := batchTimestamps[ts][which];
        for i := 0 to |v|
          invariant waited == [ts] + v[..i] && batchTimestamps == old(batchTimestamps)
        {
          waited := waited + [v[i]];
        }
        assert v[..|v|] == v;
        batchTimestamps := Erased(batchTimestamps, ts, which);
      }
    }
  }

  lemma RecordedIntact(table: Table, key: int, rest: seq<int>)
    requires key in table ==> table[key] != []
    ensures Intact(Recorded(table, key, rest)) <==> Intact(table) && key !in table
  {
    var table1 := Recorded(table, key, rest);
    assert forall t :: t in table && t != key ==> t in table1 && table1[t] == table[t];
    assert key in table1 && (key in table ==> |table1[key]| > 1);
  }

  /**
   On a new worker a job without pushes and with fewer pulls than servers breaks the
   table after any first job; waiting for the handle 0 takes one record away, and the
   next such job breaks the table again.
   */
  method EmptyJobsClash(push: seq<KeyTensor>, pull: seq<KeyTensor>, servers: int, which: int)
    returns (broken: Table, mended: Table, again: Table)
    requires 2 <= |pull| < servers && 0 <= which < 2
    ensures 0 in broken && |broken[0]| == 2
    ensures 0 in mended && |mended[0]| == 1
    ensures 0 in again && |again[0]| == 2
  {
    var worker := new AFTensorWorker(servers);
    var _ := worker.ZBatchPushPull(push, pull);
    var _ := worker.ZBatchPushPull([], pull);
    broken := worker.batchTimestamps;
    var _ := worker.Wait(0, which);
    mended := worker.batchTimestamps;
    var _ := worker.ZBatchPushPull([], pull);
    again := worker.batchTimestamps;
  }

  /** What an application may do with a worker between a job and the wait for it. */
  datatype Op = Post(push: seq<KeyTensor>, pull: seq<KeyTensor>) | WaitFor(ts: int)

  ghost predicate DrawsNone(op: Op, servers: int)
    requires servers > 0
  {
    op.Post? && |op.push| + Per(|op.pull|, servers) == 0
  }

  /**
   After a job and anything else but a wait for it, waiting for its handle waits for
   exactly the timestamps of that job, and leaves the records of all other handles.
   Only the job with the handle 0 must not be followed by one that is recorded under 0.
   */
  method PostThenWait(worker: AFTensorWorker, push: seq<KeyTensor>, pull: seq<KeyTensor>, ops: seq<Op>)
    returns (waited: seq<int>, ghost before: Table)
    requires worker.Valid() && |push| + Per(|pull|, worker.servers) > 0
    requires worker.next == 0 ==>
      0 !in worker.batchTimestamps
      && forall i {:trigger ops[i]} :: 0 <= i < |ops| ==> !DrawsNone(ops[i], worker.servers)
    modifies worker
    ensures worker.Valid() && waited == Range(old(worker.next), |push| + Per(|pull|, worker.servers))
    ensures old(worker.next) in before && worker.batchTimestamps == before - {old(worker.next)}
  {
    hide Per, Range, InOrder;
    var start := worker.ZBatchPushPull(push, pull);
    ghost var rest := worker.batchTimestamps[start][0];
    RangeSplits(worker.next - |push| - Per(|pull|, worker.servers), |push|, Per(|pull|, worker.servers));
    for i := 0 to |ops|
      invariant worker.Valid() && worker.next > start
      invariant start in worker.batchTimestamps && worker.batchTimestamps[start] == [rest]
    {
      var op := ops[i];
      if op.Post? {
        var other := worker.ZBatchPushPull(op.push, op.pull);
        assert start in worker.batchTimestamps - {other};
      } else if op.ts != start {
        var _ := worker.Wait(op.ts, 0);
        assert start in worker.batchTimestamps - {op.ts};
      }
    }
    before := worker.batchTimestamps;
    waited := worker.Wait(start, 0);
    assert [rest][..0] + [rest][1..] == [];
    assert worker.batchTimestamps == worker.batchTimestamps - {start};
  }

  lemma RangeSplits(start: int, n: nat, p: nat)
    ensures Range(start, n) + Range(start + n, p) == Range(start, n + p)
    ensures n + p > 0 ==> Range(start, n + p) == [start] + Range(start, n + p)[1..]
  {
  }

  // ----- Sending

  /** How many of `m` pulls each server gets. */
  function Per(m: int, servers: int): (p: int)
    requires servers > 0 && m >= 0
    ensures 0 <= p <= m && (servers == 1 ==> p == m) && (m < servers ==> p == 0)
  {
    QuotientFits(m, servers);
    m / servers
  }

  lemma QuotientFits(m: int, servers: int)
    requires servers > 0 && m >= 0
    ensures 0 <= m / servers <= m && (m < servers ==> m / servers == 0)
  {
    hide Times;
    var q := m / servers;
    Quotient(m, servers);
    TimesStep(servers, 0);
    TimesStep(servers, -1);
    if q < 0 {
      TimesMonotone(servers, q, -1);
    } else if q > 0 {
      TimesMonotone(servers, 1, q);
      TimesStep(q, 0);
      TimesMonotone(q, 1, servers);
    }
  }

  lemma OffsetFits(s: int, servers: int, m: int)
    requires 0 <= s < servers && m >= 0
    ensures var p := Per(m, servers); 0 <= Times(p, s) && Times(p, s + 1) == Times(p, s) + p <= m
  {
    hide Times;
    var p := Per(m, servers);
    TimesStep(p, s);
    TimesMonotone(p, s + 1, servers);
    Quotient(m, servers);
  }

  /** The pulls of server `s`: its consecutive share of the list. */
  ghost function Share(pull: seq<KeyTensor>, servers: int, s: int): (r: seq<KeyTensor>)
    requires 0 <= s < servers
    ensures |r| == Per(|pull|, servers)
  {
    OffsetFits(s, servers, |pull|);
    var p := Per(|pull|, servers);
    pull[Times(p, s)..Times(p, s) + p]
  }

  /** Item `i` of a job as server `s` gets it: the pushes come first, then its share of the pulls. */
  ghost function ItemAt(push: seq<KeyTensor>, pull: seq<KeyTensor>, servers: int, s: int, i: int): Item
    requires 0 <= s < servers && 0 <= i < |push| + Per(|pull|, servers)
  {
    if i < |push| then Item(true, push[i].key, push[i].body)
    else var t := Share(pull, servers, s)[i - |push|]; Item(false, t.key, t.body)
  }

  ghost function Items(push: seq<KeyTensor>, pull: seq<KeyTensor>, servers: int, s: int): seq<Item>
    requires 0 <= s < servers
  {
    seq(|push| + Per(|pull|, servers), i requires 0 <= i < |push| + Per(|pull|, servers) => ItemAt(push, pull, servers, s, i))
  }

  /** The messages of a batch, as the server's reassembly expects them. */
  ghost function Messages(b: Batch): seq<Request> {
    seq(|b.items|, i requires 0 <= i < |b.items| => Msg(b, i))
  }

  /** The shapes for which a job is flagged as a batch. */
  ghost predicate Shape(n: int, m: int, p: int) {
    (n >= 1 && p >= 1) || (m == 0 && n >= 2) || (n == 0 && p >= 2)
  }

  /** The flag of message `i` for `n` pushes and `p` pulls per server out of `m`. */
  ghost function Flag(n: int, m: int, p: int, i: int): int {
    if i < n then
      if i == 0 then START else if m == 0 && i == n - 1 then END else MIDDLE
    else if n == 0 && i == 0 then START
    else if i == n + p - 1 then END
    else MIDDLE
  }

  /** Exactly these shapes give a START, then MIDDLEs, then an END. */
  lemma FlagsFormBatchIff(n: int, m: int, p: int)
    requires 0 <= n && 0 <= p <= m && n + m >= 2
    ensures Shape(n, m, p) <==>
            && n + p >= 2
            && forall i {:trigger Flag(n, m, p, i)} :: 0 <= i < n + p ==>
                 Flag(n, m, p, i) == if i == 0 then START else if i == n + p - 1 then END else MIDDLE
  {
    if n + p >= 2 && !Shape(n, m, p) {
      assert Flag(n, m, p, n + p - 1) != END;
    }
  }

  ghost function MessageAt(job: Job, me: int, servers: int, s: int, i: int): Request
    requires 0 <= s < servers && 0 <= i < |job.push| + Per(|job.pull|, servers) == |Stamps(job)|
  {
    var it := ItemAt(job.push, job.pull, servers, s, i);
    Request(Flag(|job.push|, |job.pull|, Per(|job.pull|, servers), i), it.push, me, Stamps(job)[i], it.key, it.body)
  }

  /** Append one push to the channel of every server. */
  method ZPush(sent: seq<seq<Request>>, me: int, ts: int, tensor: KeyTensor, cmd: int) returns (out: seq<seq<Request>>)
    ensures |out| == |sent|
    ensures forall s :: 0 <= s < |sent| ==> out[s] == sent[s] + [Request(cmd, true, me, ts, tensor.key, tensor.body)]
  {
    out := sent;
    for i := 0 to |sent|
      invariant |out| == |sent|
      invariant forall s :: 0 <= s < |sent| ==>
        out[s] == sent[s] + if s < i then [Request(cmd, true, me, ts, tensor.key, tensor.body)] else []
    {
      out := out[i := out[i] + [Request(cmd, true, me, ts, tensor.key, tensor.body)]];
    }
  }

  /** Append to every server's channel the pull at `index` of that server's share. */
  method ZPull(sent: seq<seq<Request>>, me: int, ts: int, pull: seq<KeyTensor>, index: int, cmd: int)
    returns (out: seq<seq<Request>>)
    requires |sent| > 0 && 0 <= index < Per(|pull|, |sent|)
    ensures |out| == |sent|
    ensures forall s :: 0 <= s < |sent| ==>
      var t := Share(pull, |sent|, s)[index]; out[s] == sent[s] + [Request(cmd, false, me, ts, t.key, t.body)]
  {
    hide Per, Times;
    out := sent;
    var size := Per(|pull|, |sent|);
    for i := 0 to |sent|
      invariant |out| == |sent|
      invariant forall s :: i <= s < |sent| ==> out[s] == sent[s]
      invariant forall s :: 0 <= s < i ==>
        var t := Share(pull, |sent|, s)[index]; out[s] == sent[s] + [Request(cmd, false, me, ts, t.key, t.body)]
    {
      OffsetFits(i, |sent|, |pull|);
      var t := pull[Times(size, i) + index];
      assert Share(pull, |sent|, i)[index] == t;
      out := out[i := out[i] + [Request(cmd, false, me, ts, t.key, t.body)]];
    }
  }

  ghost predicate SentSoFar(sent: seq<seq<Request>>, job: Job, me: int, k: int)
    requires |sent| > 0 && 0 <= k <= |job.push| + Per(|job.pull|, |sent|) == |Stamps(job)|
  {
    forall s {:trigger sent[s]} :: 0 <= s < |sent| ==>
      |sent[s]| == k && forall i {:trigger sent[s][i]} :: 0 <= i < k ==> sent[s][i] == MessageAt(job, me, |sent|, s, i)
  }

  /** The channel of server `s` carries the job as one batch. */
  ghost predicate SentAsBatch(channel: seq<Request>, job: Job, me: int, start: int, servers: int, s: int)
    requires 0 <= s < servers
  {
    var b := Batch(me, start, Items(job.push, job.pull, servers, s));
    |b.items| >= 2 && channel == Messages(b)
  }

  /**
   The batch that a job of several tensors begins at server `s`.  A job of another
   shape begins one whose last message is never sent.
   */
  ghost function BatchOf(job: Job, me: int, start: int, servers: int, s: int): Batch
    requires 0 <= s < servers
  {
    Batch(me, start, Items(job.push, job.pull, servers, s)
                     + if Shape(|job.push|, |job.pull|, Per(|job.pull|, servers)) then [] else [Item(false, 0, 0)])
  }

  /** The channel carries the first messages of that batch, one per timestamp. */
  ghost predicate Begins(channel: seq<Request>, job: Job, me: int, start: int, servers: int, s: int)
    requires 0 <= s < servers
  {
    var b := BatchOf(job, me, start, servers, s);
    && |channel| == |job.push| + Per(|job.pull|, servers) <= |b.items|
    && forall i {:trigger channel[i]} :: 0 <= i < |channel| ==> channel[i] == Msg(b, i)
  }

  /**
   Fails on a job without tensors and on a single pull over several servers, for which
   there is no timestamp.  A job of one tensor goes out as a single request.  Any other
   job goes out as START, MIDDLE and END messages of one batch on every server's channel
   exactly when it has one of the shapes above, and otherwise as a batch without its END.
   */
  method ZBatchPushPull_(job: Job, me: int, servers: int, ghost start: int) returns (r: Option<seq<seq<Request>>>)
    requires servers > 0 && SizedJob(job, servers) && Stamps(job) == Range(start, |Stamps(job)|)
    ensures r.None? <==> |job.push| + |job.pull| == 0 || (job.push == [] && |job.pull| == 1 && servers > 1)
    ensures r.Some? ==> |r.value| == servers
    ensures r.Some? && |job.push| + |job.pull| == 1 ==>
      forall s {:trigger r.value[s]} :: 0 <= s < servers ==>
        var it := ItemAt(job.push, job.pull, servers, s, 0); r.value[s] == [Request(0, it.push, me, start, it.key, it.body)]
    ensures |job.push| + |job.pull| > 1 ==>
      forall s {:trigger r.value[s]} :: 0 <= s < servers ==>
        && Begins(r.value[s], job, me, start, servers, s)
        && (Shape(|job.push|, |job.pull|, Per(|job.pull|, servers)) <==> SentAsBatch(r.value[s], job, me, start, servers, s))
  {
    hide Per, Times, Share, SentAsBatch, Shape, Begins;
    if |job.push| + |job.pull| < 1 {
      return None;
    }
    var sent: seq<seq<Request>> := seq(servers, i => []);
    if |job.push| + |job.pull| == 1 {
      if |job.push| == 1 {
        sent := ZPush(sent, me, job.pushTs[0], job.push[0], 0);
      } else if |job.pullTs| == 0 {
        return None;
      } else {
        sent := ZPull(sent, me, job.pullTs[0], job.pull, 0, 0);
      }
      assert Stamps(job)[0] == start;
      return Some(sent);
    }
    var first, i, n := true, 0, |job.push|;
    while i < n
      invariant 0 <= i <= n && |sent| == servers && first == (i == 0)
      invariant SentSoFar(sent, job, me, i)
    {
      var cmd := if i == 0 then START else if job.pull == [] && i == n - 1 then END else MIDDLE;
      first := false;
      sent := ZPush(sent, me, job.pushTs[i], job.push[i], cmd);
      i := i + 1;
    }
    var p := Per(|job.pull|, servers);
    i := 0;
    while i < p
      invariant 0 <= i <= p && |sent| == servers && first == (n == 0)
      invariant SentSoFar(sent, job, me, n + i)
    {
      var cmd := if first && i == 0 then START else if i == p - 1 then END else MIDDLE;
      sent := ZPull(sent, me, job.pullTs[i], job.pull, i, cmd);
      i := i + 1;
    }
    SentIsBatchIff(sent, job, me, start);
    SentBegins(sent, job, me, start);
    r := Some(sent);
  }

  lemma SentIsBatchIff(sent: seq<seq<Request>>, job: Job, me: int, start: int)
    requires |sent| > 0 && |job.push| + |job.pull| > 1 && |job.push| + Per(|job.pull|, |sent|) == |Stamps(job)|
    requires Stamps(job) == Range(start, |Stamps(job)|)
    requires SentSoFar(sent, job, me, |Stamps(job)|)
    ensures forall s {:trigger sent[s]} :: 0 <= s < |sent| ==>
        (Shape(|job.push|, |job.pull|, Per(|job.pull|, |sent|)) <==> SentAsBatch(sent[s], job, me, start, |sent|, s))
  {
    hide Per, Share, Shape, Flag;
    var n, m, p := |job.push|, |job.pull|, Per(|job.pull|, |sent|);
    FlagsFormBatchIff(n, m, p);
    forall s | 0 <= s < |sent|
      ensures Shape(n, m, p) <==> SentAsBatch(sent[s], job, me, start, |sent|, s)
    {
      var b := Batch(me, start, Items(job.push, job.pull, |sent|, s));
      forall i | 0 <= i < n + p
        ensures sent[s][i] == Msg(b, i) <==>
                Flag(n, m, p, i) == if i == 0 then START else if i == n + p - 1 then END else MIDDLE
      {
        assert sent[s][i] == MessageAt(job, me, |sent|, s, i);
      }
      if sent[s] == Messages(b) {
        forall i | 0 <= i < n + p ensures sent[s][i] == Msg(b, i) {
          assert Messages(b)[i] == Msg(b, i);
        }
      }
    }
  }

  /** A job of another shape never carries an END. */
  lemma UnshapedNeverEnds(n: int, m: int, p: int, i: int)
    requires 0 <= n && 0 <= p <= m && n + m >= 2 && !Shape(n, m, p) && 0 <= i < n + p
    ensures Flag(n, m, p, i) == if i == 0 then START else MIDDLE
  {
  }

  lemma SentBegins(sent: seq<seq<Request>>, job: Job, me: int, start: int)
    requires |sent| > 0 && |job.push| + |job.pull| > 1 && |job.push| + Per(|job.pull|, |sent|) == |Stamps(job)|
    requires Stamps(job) == Range(start, |Stamps(job)|)
    requires SentSoFar(sent, job, me, |Stamps(job)|)
    ensures forall s {:trigger sent[s]} :: 0 <= s < |sent| ==> Begins(sent[s], job, me, start, |sent|, s)
  {
    hide Per, Share, Shape, Flag;
    var n, m, p := |job.push|, |job.pull|, Per(|job.pull|, |sent|);
    FlagsFormBatchIff(n, m, p);
    forall s | 0 <= s < |sent| ensures Begins(sent[s], job, me, start, |sent|, s) {
      var b := BatchOf(job, me, start, |sent|, s);
      forall i | 0 <= i < n + p ensures sent[s][i] == Msg(b, i) {
        assert sent[s][i] == MessageAt(job, me, |sent|, s, i);
        if !Shape(n, m, p) { UnshapedNeverEnds(n, m, p, i); }
      }
    }
  }

  /** Every pull goes to exactly one server, in order, exactly when the servers divide the pulls. */
  ghost function AllShares(pull: seq<KeyTensor>, servers: int, k: int): seq<KeyTensor>
    requires 0 <= k <= servers
  {
    if k == 0 then [] else AllShares(pull, servers, k - 1) + Share(pull, servers, k - 1)
  }

  lemma {:induction false} SharesAre(pull: seq<KeyTensor>, servers: int, k: int)
    requires 0 <= k <= servers && servers > 0
    ensures var e := Times(Per(|pull|, servers), k); 0 <= e <= |pull| && AllShares(pull, servers, k) == pull[..e]
  {
    hide Per;
    if k > 0 {
      SharesAre(pull, servers, k - 1);
      OffsetFits(k - 1, servers, |pull|);
    }
  }

  lemma AllPulledIff(pull: seq<KeyTensor>, servers: int)
    requires servers > 0
    ensures AllShares(pull, servers, servers) == pull <==> |pull| % servers == 0
  {
    hide Times, AllShares;
    SharesAre(pull, servers, servers);
    Quotient(|pull|, servers);
  }

  // ----- From the workers to the request handle of one server

  /** Job `job` of worker `worker`. */
  datatype Source = Source(worker: int, job: int)

  ghost predicate SourceOk(logs: seq<seq<Job>>, servers: int, src: Source)
    requires servers > 0
  {
    && 0 <= src.worker < |logs| && 0 <= src.job < |logs[src.worker]|
    && var job := logs[src.worker][src.job];
       |job.push| + |job.pull| > 1 && Stamps(job) != [] && SizedJob(job, servers)
  }

  /** The jobs of several tensors that workers with these logs and ids have sent; a job that reaches no server is left out. */
  ghost predicate Sent(logs: seq<seq<Job>>, nexts: seq<int>, me: seq<int>, servers: int, srcs: seq<Source>) {
    && servers > 0 && |logs| == |nexts| == |me| && Distinct(me) && Distinct(srcs)
    && (forall w {:trigger logs[w]} :: 0 <= w < |logs| ==> InOrder(logs[w], nexts[w]))
    && (forall b {:trigger srcs[b]} :: 0 <= b < |srcs| ==> SourceOk(logs, servers, srcs[b]))
  }

  ghost function JobOf(logs: seq<seq<Job>>, servers: int, src: Source): Job
    requires servers > 0 && SourceOk(logs, servers, src)
  {
    logs[src.worker][src.job]
  }

  ghost function BatchAt(logs: seq<seq<Job>>, me: seq<int>, servers: int, s: int, src: Source): Batch
    requires 0 <= s < servers && SourceOk(logs, servers, src) && |me| == |logs|
  {
    var job := JobOf(logs, servers, src);
    BatchOf(job, me[src.worker], Stamps(job)[0], servers, s)
  }

  ghost function BatchesOf(logs: seq<seq<Job>>, nexts: seq<int>, me: seq<int>, servers: int, s: int, srcs: seq<Source>): (bs: seq<Batch>)
    requires 0 <= s < servers && Sent(logs, nexts, me, servers, srcs)
    ensures |bs| == |srcs|
    ensures forall b {:trigger bs[b]} :: 0 <= b < |bs| ==>
      SourceOk(logs, servers, srcs[b]) && bs[b] == BatchAt(logs, me, servers, s, srcs[b])
  {
    seq(|srcs|, b requires 0 <= b < |srcs| => BatchAt(logs, me, servers, s, srcs[b]))
  }

  ghost predicate Shaped(job: Job, servers: int)
    requires servers > 0
  {
    Shape(|job.push|, |job.pull|, Per(|job.pull|, servers))
  }

  lemma BatchSize(logs: seq<seq<Job>>, me: seq<int>, servers: int, s: int, src: Source)
    requires 0 <= s < servers && SourceOk(logs, servers, src) && |me| == |logs|
    ensures var job, b := JobOf(logs, servers, src), BatchAt(logs, me, servers, s, src);
            && b.sender == me[src.worker] && b.start == Stamps(job)[0]
            && |b.items| >= 2 && |b.items| == |Stamps(job)| + if Shaped(job, servers) then 0 else 1
  {
    hide Per;
  }

  /** Runs of two jobs of one worker share at most the place after the end. */
  lemma RunsApart(log: seq<Job>, next: int, i: int, j: int)
    requires InOrder(log, next) && 0 <= i < j < |log| && Stamps(log[i]) != [] && Stamps(log[j]) != []
    ensures Stamps(log[i])[0] + |Stamps(log[i])| <= Stamps(log[j])[0]
  {
    var last := |Stamps(log[i])| - 1;
    assert RunBelow(Stamps(log[i]), next) && Earlier(Stamps(log[i]), Stamps(log[j]));
    assert Stamps(log[i])[last] == Stamps(log[i])[0] + last < Stamps(log[j])[0];
  }

  /** What several workers send, single requests aside, is what the reassembly needs. */
  lemma SentIsLawful(logs: seq<seq<Job>>, nexts: seq<int>, me: seq<int>, servers: int, s: int, srcs: seq<Source>)
    requires 0 <= s < servers && Sent(logs, nexts, me, servers, srcs)
    ensures Lawful(BatchesOf(logs, nexts, me, servers, s, srcs))
  {
    hide SourceOk, InOrder, BatchAt, JobOf, Shaped, Stamps;
    var bs := BatchesOf(logs, nexts, me, servers, s, srcs);
    forall b | 0 <= b < |bs| ensures |bs[b].items| >= 2 {
      BatchSize(logs, me, servers, s, srcs[b]);
    }
    forall b, c | 0 <= b < c < |bs| && bs[b].sender == bs[c].sender
      ensures bs[b].start + |bs[b].items| <= bs[c].start + 1 || bs[c].start + |bs[c].items| <= bs[b].start + 1
    {
      BatchSize(logs, me, servers, s, srcs[b]);
      BatchSize(logs, me, servers, s, srcs[c]);
      SourcesApart(logs, nexts, me, servers, srcs, b, c);
    }
  }

  lemma SourcesApart(logs: seq<seq<Job>>, nexts: seq<int>, me: seq<int>, servers: int, srcs: seq<Source>, b: int, c: int)
    requires Sent(logs, nexts, me, servers, srcs) && 0 <= b < c < |srcs|
    requires SourceOk(logs, servers, srcs[b]) && SourceOk(logs, servers, srcs[c])
    requires me[srcs[b].worker] == me[srcs[c].worker]
    ensures var x, y := Stamps(JobOf(logs, servers, srcs[b])), Stamps(JobOf(logs, servers, srcs[c]));
            x != [] && y != [] && (x[0] + |x| <= y[0] || y[0] + |y| <= x[0])
  {
    hide InOrder, Stamps;
    var w, i, j := srcs[b].worker, srcs[b].job, srcs[c].job;
    assert w == srcs[c].worker && i != j;
    assert InOrder(logs[w], nexts[w]);
    if i < j { RunsApart(logs[w], nexts[w], i, j); } else { RunsApart(logs[w], nexts[w], j, i); }
  }

  /** The tensors of a list of requests. */
  ghost function Tensors(rs: seq<Request>): seq<KeyTensor> {
    seq(|rs|, i requires 0 <= i < |rs| => KeyTensor(rs[i].key, rs[i].body))
  }

  lemma TensorsGrow(rs: seq<Request>, r: Request)
    ensures Tensors([]) == [] && Tensors(rs + [r]) == Tensors(rs) + [KeyTensor(r.key, r.body)]
  {
  }

  lemma {:induction false} SelectedTensors(job: Job, me: int, start: int, servers: int, s: int, k: int)
    requires 0 <= s < servers && 0 <= k <= |job.push| + Per(|job.pull|, servers)
    ensures var b, n := BatchOf(job, me, start, servers, s), |job.push|;
            && k <= |b.items|
            && Tensors(Select(b, true, k)) == job.push[..if k < n then k else n]
            && Tensors(Select(b, false, k)) == Share(job.pull, servers, s)[..if k < n then 0 else k - n]
  {
    hide Per, Share, Shape, Tensors;
    var b, n, share := BatchOf(job, me, start, servers, s), |job.push|, Share(job.pull, servers, s);
    if k > 0 {
      SelectedTensors(job, me, start, servers, s, k - 1);
      assert b.items[k - 1] == ItemAt(job.push, job.pull, servers, s, k - 1);
      TensorsGrow(Select(b, k - 1 < n, k - 1), Msg(b, k - 1));
      assert Select(b, k - 1 < n, k) == Select(b, k - 1 < n, k - 1) + [Msg(b, k - 1)];
      assert Select(b, k - 1 >= n, k) == Select(b, k - 1 >= n, k - 1);
      if k <= n {
        assert job.push[..k] == job.push[..k - 1] + [job.push[k - 1]];
      } else {
        assert share[..k - n] == share[..k - 1 - n] + [share[k - 1 - n]];
      }
    } else {
      TensorsGrow([], Request(0, false, 0, 0, 0, 0));
    }
  }

  /** Only messages that were sent have arrived. */
  ghost predicate ArrivedOf(logs: seq<seq<Job>>, servers: int, srcs: seq<Source>, counts: seq<int>, b: int)
    requires servers > 0 && 0 <= b < |srcs| == |counts| && SourceOk(logs, servers, srcs[b])
  {
    counts[b] <= |Stamps(JobOf(logs, servers, srcs[b]))|
  }

  /** A batch passed on is that of a job of the listed shapes. */
  lemma WholeIsShaped(logs: seq<seq<Job>>, nexts: seq<int>, me: seq<int>, servers: int, s: int, srcs: seq<Source>,
                      arrivals: seq<Arrival>, tracks: seq<Track>, states: seq<State>, i: int, b: int)
    requires 0 <= s < servers && Sent(logs, nexts, me, servers, srcs) && 0 <= b < |srcs| && SourceOk(logs, servers, srcs[b])
    requires Behaviour(BatchesOf(logs, nexts, me, servers, s, srcs), arrivals, tracks, states) && 0 <= i < |states|
    requires |tracks[i].counts| == |srcs| && ArrivedOf(logs, servers, srcs, tracks[i].counts, b)
    ensures Whole(b) in tracks[i].calls <==>
            tracks[i].counts[b] == |Stamps(JobOf(logs, servers, srcs[b]))| && Shaped(JobOf(logs, servers, srcs[b]), servers)
  {
    hide Lawful, Shaped, Stamps, Mirrors, Handle, Advance, InOrder;
    var bs := BatchesOf(logs, nexts, me, servers, s, srcs);
    Reachable(bs, arrivals, tracks, states, i);
    assert CountOk(bs, tracks[i], b);
    assert bs[b] == BatchAt(logs, me, servers, s, srcs[b]);
    BatchSize(logs, me, servers, s, srcs[b]);
  }

  lemma WholeTensors(job: Job, me: int, start: int, servers: int, s: int)
    requires 0 <= s < servers && Shaped(job, servers)
    ensures var b := BatchOf(job, me, start, servers, s);
            && Tensors(Select(b, true, |b.items|)) == job.push
            && Tensors(Select(b, false, |b.items|)) == Share(job.pull, servers, s)
  {
    hide Per, Share, Shape, Select;
    var n, p := |job.push|, Per(|job.pull|, servers);
    SelectedTensors(job, me, start, servers, s, n + p);
    assert job.push[..n] == job.push && Share(job.pull, servers, s)[..p] == Share(job.pull, servers, s);
  }

  /**
   However the messages of the workers interleave, every call of the request handle at
   server `s` is a single request or has exactly the pushes of one job of the listed
   shapes, in order, and this server's share of its pulls, and no job comes twice.
   */
  lemma HandleGetsJobs(logs: seq<seq<Job>>, nexts: seq<int>, me: seq<int>, servers: int, s: int, srcs: seq<Source>,
                       arrivals: seq<Arrival>, tracks: seq<Track>, states: seq<State>, i: int, j: int)
    requires 0 <= s < servers && Sent(logs, nexts, me, servers, srcs)
    requires Behaviour(BatchesOf(logs, nexts, me, servers, s, srcs), arrivals, tracks, states)
    requires 0 <= i < |states| && 0 <= j < |states[i].handled|
    requires |tracks[i].counts| == |srcs|
    requires forall b {:trigger srcs[b]} :: 0 <= b < |srcs| ==>
      SourceOk(logs, servers, srcs[b]) && ArrivedOf(logs, servers, srcs, tracks[i].counts, b)
    ensures |tracks[i].calls| == |states[i].handled|
    ensures match tracks[i].calls[j]
            case Alone(r) =>
              states[i].handled[j] == Meta(r.sender, NodeIds.IDtoRank(r.sender), true, r.timestamp,
                                           if r.push then [r] else [], if r.push then [] else [r])
            case Whole(b) =>
              && 0 <= b < |srcs| && SourceOk(logs, servers, srcs[b])
              && var job := JobOf(logs, servers, srcs[b]);
              && Shaped(job, servers)
              && states[i].handled[j].sender == me[srcs[b].worker]
              && Tensors(states[i].handled[j].pushes) == job.push
              && Tensors(states[i].handled[j].pulls) == Share(job.pull, servers, s)
    ensures forall k :: 0 <= k < |tracks[i].calls| && k != j && tracks[i].calls[j].Whole? ==> tracks[i].calls[k] != tracks[i].calls[j]
  {
    hide Lawful, Share, Per, Select, Shaped, Handle, Advance, InOrder, Stamps;
    var bs := BatchesOf(logs, nexts, me, servers, s, srcs);
    PassedOnOnce(bs, arrivals, tracks, states, i);
    if tracks[i].calls[j].Whole? {
      var b := tracks[i].calls[j].b;
      WholeIsShaped(logs, nexts, me, servers, s, srcs, arrivals, tracks, states, i, b);
      var job := JobOf(logs, servers, srcs[b]);
      WholeTensors(job, me[srcs[b].worker], Stamps(job)[0], servers, s);
    }
  }

  /**
   When everything sent has arrived, exactly the jobs of the listed shapes have been
   passed on, and the server holds nothing exactly when all jobs have such a shape: the
   START of any other job stays in `batch_data_` or `reorder_buffer_`.
   */
  lemma LeftOverIffUnshaped(logs: seq<seq<Job>>, nexts: seq<int>, me: seq<int>, servers: int, s: int, srcs: seq<Source>,
                            arrivals: seq<Arrival>, tracks: seq<Track>, states: seq<State>, i: int)
    requires 0 <= s < servers && Sent(logs, nexts, me, servers, srcs)
    requires Behaviour(BatchesOf(logs, nexts, me, servers, s, srcs), arrivals, tracks, states)
    requires 0 <= i < |states| && |tracks[i].counts| == |srcs|
    requires forall b {:trigger srcs[b]} :: 0 <= b < |srcs| ==>
      SourceOk(logs, servers, srcs[b]) && tracks[i].counts[b] == |Stamps(JobOf(logs, servers, srcs[b]))|
    ensures forall b {:trigger srcs[b]} :: 0 <= b < |srcs| ==>
      SourceOk(logs, servers, srcs[b]) && (Whole(b) in tracks[i].calls <==> Shaped(JobOf(logs, servers, srcs[b]), servers))
    ensures HoldsNothing(states[i]) <==>
      forall b {:trigger srcs[b]} :: 0 <= b < |srcs| ==>
        SourceOk(logs, servers, srcs[b]) && Shaped(JobOf(logs, servers, srcs[b]), servers)
  {
    hide Lawful, Shaped, Stamps, HoldsNothing, Handle, Advance, InOrder;
    var bs := BatchesOf(logs, nexts, me, servers, s, srcs);
    LeftOverIff(bs, arrivals, tracks, states, i);
    forall b | 0 <= b < |srcs|
      ensures AllOrNothing(bs, tracks[i], b) <==> Shaped(JobOf(logs, servers, srcs[b]), servers)
      ensures Whole(b) in tracks[i].calls <==> Shaped(JobOf(logs, servers, srcs[b]), servers)
    {
      WholeIsShaped(logs, nexts, me, servers, s, srcs, arrivals, tracks, states, i, b);
      assert bs[b] == BatchAt(logs, me, servers, s, srcs[b]);
      BatchSize(logs, me, servers, s, srcs[b]);
    }
  }
}
