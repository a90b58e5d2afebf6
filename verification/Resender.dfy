/**
 Acknowledgement and retransmission.  A sender keeps every message it sent until
 the receiver's ACK names its key; a receiver records the keys it has accepted,
 acknowledges every copy and hands on only the first.
 */
module Resender {
  import opened Bits
  import opened Finite
  import NodeIds

  const K_EMPTY: int := NodeIds.EMPTY_ID

  datatype Kind = Plain | Ack | Terminate

  datatype Message = Message(
    kind: Kind, app: nat, sender: nat, recver: nat, timestamp: nat, request: bool, sig: nat, body: int)

  /** A buffered message, when it was sent and how often it was resent. */
  datatype Entry = Entry(msg: Message, send: int, retries: int)

  // ----- Message keys

  function SenderOf(m: Message, me: nat): nat {
    if m.sender == K_EMPTY then me else m.sender
  }

  function Flag(b: bool): nat {
    if b then 1 else 0
  }

  /**
   GetKey: 16 bits of application id, 8 bits of each node id, then the timestamp
   and the request flag.  A message that names no sender is this node's own.
   */
  function GetKey(m: Message, me: nat): nat {
    Or(Or(Or(Or(Shl(m.app % 0x1_0000, 48), Shl(SenderOf(m, me) % 0x100, 40)), Shl(m.recver % 0x100, 32)),
          Shl(m.timestamp, 1)), Flag(m.request))
  }

  /** The fields of a key, side by side. */
  function KeyFields(app: nat, sender: nat, recver: nat, timestamp: nat, request: bool): nat {
    Shl(Shl(Shl(Shl(app, 8) + sender, 8) + recver, 31) + timestamp, 1) + Flag(request)
  }

  lemma KeyIsFields(m: Message, me: nat)
    requires m.timestamp < 0x4000_0000
    ensures GetKey(m, me)
            == KeyFields(m.app % 0x1_0000, SenderOf(m, me) % 0x100, m.recver % 0x100, m.timestamp, m.request)
  {
    hide Pow2, Shl, Or;
    SmallPowers();
    var a, s, r, t := m.app % 0x1_0000, SenderOf(m, me) % 0x100, m.recver % 0x100, m.timestamp;
    OrFields(a, s, 8, 40);
    var x := Shl(a, 8) + s;
    OrFields(x, r, 8, 32);
    var y := Shl(x, 8) + r;
    OrFields(y, t, 31, 1);
    OrDisjoint(Shl(y, 31) + t, Flag(m.request), 1);
  }

  /** What two messages with the same key have in common, exactly. */
  ghost predicate SameFields(m: Message, n: Message, me: nat, you: nat) {
    && m.app % 0x1_0000 == n.app % 0x1_0000
    && SenderOf(m, me) % 0x100 == SenderOf(n, you) % 0x100
    && m.recver % 0x100 == n.recver % 0x100
    && m.timestamp == n.timestamp && m.request == n.request
  }

  lemma SameKeyIff(m: Message, n: Message, me: nat, you: nat)
    requires m.timestamp < 0x4000_0000 && n.timestamp < 0x4000_0000
    ensures GetKey(m, me) == GetKey(n, you) <==> SameFields(m, n, me, you)
  {
    hide Pow2, Shl, GetKey;
    KeyIsFields(m, me);
    KeyIsFields(n, you);
    SmallPowers();
    if GetKey(m, me) == GetKey(n, you) {
      var a, s, r := m.app % 0x1_0000, SenderOf(m, me) % 0x100, m.recver % 0x100;
      var b, u, v := n.app % 0x1_0000, SenderOf(n, you) % 0x100, n.recver % 0x100;
      var x, y := Shl(a, 8) + s, Shl(b, 8) + u;
      var x', y' := Shl(x, 8) + r, Shl(y, 8) + v;
      FieldsUnique(Shl(x', 31) + m.timestamp, Flag(m.request), Shl(y', 31) + n.timestamp, Flag(n.request), 1);
      FieldsUnique(x', m.timestamp, y', n.timestamp, 31);
      FieldsUnique(x, r, y, v, 8);
      FieldsUnique(a, s, b, u, 8);
    }
  }

  // ----- One node

  /** The check on the timestamp: a node that buffers or accepts such a message dies of it. */
  predicate Fatal(m: Message) {
    m.timestamp == K_EMPTY
  }

  datatype Node = Node(buff: map<int, Entry>, acked: set<int>)

  /** AddOutgoing: buffer a message unless it is an ACK or buffered already. */
  function AddOut(ns: Node, me: nat, m: Message, now: int): Node {
    if m.kind.Ack? then ns
    else var key := GetKey(m, me);
         if key in ns.buff then ns else ns.(buff := ns.buff[key := Entry(m, now, 0)])
  }

  function AckFor(m: Message, me: nat): Message {
    Message(Ack, K_EMPTY, m.recver, m.sender, K_EMPTY, false, GetKey(m, me), 0)
  }

  /** AddIncomming: the new node, whether the message stops here, and the ACK to send. */
  function AddIn(ns: Node, me: nat, m: Message): (Node, bool, seq<Message>) {
    match m.kind
    case Terminate => (ns, false, [])
    case Ack => (ns.(buff := ns.buff - {m.sig}), true, [])
    case Plain =>
      var key := GetKey(m, me);
      (ns.(acked := ns.acked + {key}), key in ns.acked, [AckFor(m, me)])
  }

  /**
   With node ids of 256 and more the keys collide, and the second of two messages
   sent with one timestamp to receivers 256 apart is never buffered.
   */
  lemma WideIdsAreNotBuffered(ns: Node, me: nat, m: Message, now: int)
    requires !m.kind.Ack? && m.timestamp < 0x4000_0000
    ensures var far := m.(recver := m.recver + 0x100);
            AddOut(AddOut(ns, me, m, now), me, far, now) == AddOut(ns, me, m, now)
  {
    hide GetKey;
    var far := m.(recver := m.recver + 0x100);
    assert (m.recver + 0x100) % 0x100 == m.recver % 0x100;
    SameKeyIff(m, far, me, me);
  }

  /** The node after the plain messages `ms` have come in. */
  ghost function After(me: nat, ms: seq<Message>): Node {
    if ms == [] then Node(map[], {}) else AddIn(After(me, ms[..|ms| - 1]), me, ms[|ms| - 1]).0
  }

  /** Plain messages that kill nobody. */
  ghost predicate Numbered(ms: seq<Message>) {
    forall i {:trigger ms[i]} :: 0 <= i < |ms| ==> ms[i].kind.Plain? && ms[i].timestamp < 0x4000_0000 && !Fatal(ms[i])
  }

  lemma {:induction false} RecordedKeys(me: nat, ms: seq<Message>, key: nat)
    requires Numbered(ms)
    ensures key in After(me, ms).acked <==> exists i {:trigger ms[i]} :: 0 <= i < |ms| && GetKey(ms[i], me) == key
  {
    hide GetKey;
    if ms != [] {
      var init := ms[..|ms| - 1];
      RecordedKeys(me, init, key);
      assert forall i {:trigger ms[i]} :: 0 <= i < |init| ==> init[i] == ms[i];
      if key in After(me, init).acked {
        var i :| 0 <= i < |init| && GetKey(init[i], me) == key;
        assert ms[i] == init[i];
      }
    }
  }

  /** A plain message the node survives is stopped as a copy exactly when one with the same fields has come in before. */
  lemma StoppedIff(me: nat, ms: seq<Message>, m: Message)
    requires Numbered(ms) && Numbered([m])
    ensures AddIn(After(me, ms), me, m).1 <==> exists i {:trigger ms[i]} :: 0 <= i < |ms| && SameFields(ms[i], m, me, me)
    ensures AddIn(After(me, ms), me, m).2 == [AckFor(m, me)]
  {
    hide GetKey, SameFields;
    assert [m][0] == m;
    RecordedKeys(me, ms, GetKey(m, me));
    forall i | 0 <= i < |ms| ensures GetKey(ms[i], me) == GetKey(m, me) <==> SameFields(ms[i], m, me, me) {
      SameKeyIff(ms[i], m, me, me);
    }
  }

  /** So a message from a node 256 further on is acknowledged, and dropped for good, after one that agrees otherwise. */
  lemma WideSendersAreLost(me: nat, ms: seq<Message>, m: Message, i: int)
    requires Numbered(ms) && 0 <= i < |ms| && ms[i].sender != K_EMPTY && m.sender != K_EMPTY
    requires m == ms[i].(sender := ms[i].sender + 0x100, body := m.body)
    ensures AddIn(After(me, ms), me, m).1 && AddIn(After(me, ms), me, m).2 == [AckFor(m, me)]
  {
    hide GetKey;
    assert (ms[i].sender + 0x100) % 0x100 == ms[i].sender % 0x100;
    assert SameFields(ms[i], m, me, me);
    StoppedIff(me, ms, m);
  }

  predicate Due(e: Entry, timeout: int, now: int) {
    e.send + timeout * (1 + e.retries) < now
  }

  class Resender {
    const me: nat
    const timeout: int
    const maxRetry: int
    var sendBuff: map<int, Entry>
    var acked: set<int>

    constructor (me: nat, timeout: int, maxRetry: int)
      ensures this.me == me && this.timeout == timeout && this.maxRetry == maxRetry && N() == Node(map[], {})
    {
      this.me, this.timeout, this.maxRetry := me, timeout, maxRetry;
      sendBuff, acked := map[], {};
    }

    ghost function N(): Node
      reads this
    {
      Node(sendBuff, acked)
    }

    /** Not `alive`: the node dies, with nothing changed. */
    method AddOutgoing(m: Message, now: int) returns (alive: bool)
      modifies this`sendBuff
      ensures alive <==> m.kind.Ack? || !Fatal(m)
      ensures N() == if alive then AddOut(old(N()), me, m, now) else old(N())
      ensures sendBuff == if !alive || m.kind.Ack? || GetKey(m, me) in old(sendBuff) then old(sendBuff)
                          else old(sendBuff)[GetKey(m, me) := Entry(m, now, 0)]
    {
      if m.kind.Ack? { return true; }
      if Fatal(m) { return false; }
      var key := GetKey(m, me);
      if key in sendBuff { return true; }
      sendBuff := sendBuff[key := Entry(m, now, 0)];
      return true;
    }

    /** Returns the ACKs sent: none, or one.  Not `alive`: the node dies, with nothing changed and nothing sent. */
    method AddIncoming(m: Message) returns (alive: bool, stop: bool, acks: seq<Message>)
      modifies this`sendBuff, this`acked
      ensures alive <==> !m.kind.Plain? || !Fatal(m)
      ensures (N(), stop, acks) == if alive then AddIn(old(N()), me, m) else (old(N()), false, [])
      ensures sendBuff == if m.kind.Ack? then old(sendBuff) - {m.sig} else old(sendBuff)
      ensures acked == if m.kind.Plain? && alive then old(acked) + {GetKey(m, me)} else old(acked)
      ensures stop <==> m.kind.Ack? || (m.kind.Plain? && alive && GetKey(m, me) in old(acked))
      ensures acks == if m.kind.Plain? && alive then [AckFor(m, me)] else []
    {
      if m.kind.Terminate? {
        return true, false, [];
      } else if m.kind.Ack? {
        if m.sig in sendBuff {
          sendBuff := sendBuff - {m.sig};
        }
        assert sendBuff == old(sendBuff) - {m.sig};
        return true, true, [];
      } else if Fatal(m) {
        return false, false, [];
      } else {
        var key := GetKey(m, me);
        stop := key in acked;
        if !stop {
          acked := acked + {key};
        }
        assert acked == old(acked) + {key};
        alive, acks := true, [AckFor(m, me)];
      }
    }

    /**
     One pass of the monitor: every overdue message is resent once and its retry count
     grows.  The node dies, with nothing resent, at the first overdue message whose count
     reaches the limit; `met` is the number of entries looked at.
     */
    method Monitor(now: int, order: seq<int>) returns (resend: seq<Message>, ok: bool, ghost met: int)
      requires Distinct(order) && Elements(order) == sendBuff.Keys
      modifies this`sendBuff
      ensures sendBuff.Keys == old(sendBuff).Keys && 0 <= met <= |order| && (ok ==> met == |order|)
      ensures forall j {:trigger order[j]} :: 0 <= j < |order| ==>
        order[j] in sendBuff
        && sendBuff[order[j]] == if j < met then Retry(old(sendBuff)[order[j]], timeout, now) else old(sendBuff)[order[j]]
      ensures resend == if ok then DueMessages(old(sendBuff), order, timeout, now) else []
      ensures ok <==> forall j {:trigger order[j]} :: 0 <= j < |order| ==> !(Due(old(sendBuff)[order[j]], timeout, now) && old(sendBuff)[order[j]].retries + 1 >= maxRetry)
      ensures !ok ==> met > 0 && Due(old(sendBuff)[order[met - 1]], timeout, now) && old(sendBuff)[order[met - 1]].retries + 1 >= maxRetry
      ensures forall j {:trigger order[j]} :: 0 <= j < met - 1 ==> !(Due(old(sendBuff)[order[j]], timeout, now) && old(sendBuff)[order[j]].retries + 1 >= maxRetry)
    {
      hide Due;
      resend, ok, met := [], true, 0;
      ghost var start := sendBuff;
      forall j | 0 <= j < |order| ensures order[j] in start {
        assert order[j] in Elements(order);
      }
      for i := 0 to |order|
        invariant sendBuff.Keys == start.Keys
        invariant forall j {:trigger Met(start, sendBuff, order, i, j, now)} ::
          0 <= j < |order| ==> Met(start, sendBuff, order, i, j, now)
        invariant resend == DueMessages(start, order[..i], timeout, now)
        invariant forall j {:trigger order[j]} :: 0 <= j < i ==> !Exhausted(start[order[j]], now)
      {
        var k := order[i];
        var e := sendBuff[k];
        ghost var before, done := sendBuff, i + 1;
        assert order[..i + 1][..i] == order[..i] && Met(start, sendBuff, order, i, i, now);
        if Due(e, timeout, now) {
          resend := resend + [e.msg];
          sendBuff := sendBuff[k := e.(retries := e.retries + 1)];
        }
        forall j | 0 <= j < |order| ensures Met(start, sendBuff, order, done, j, now) {
          assert Met(start, before, order, i, j, now);
        }
        if Due(e, timeout, now) && e.retries + 1 >= maxRetry {
          met := done;
          AllMet(start, order, met, now);
          return [], false, met;
        }
      }
      met := |order|;
      AllMet(start, order, met, now);
      assert order[..|order|] == order;
    }

    /** Entry `j` after the first `i` have been looked at. */
    ghost predicate Met(start: map<int, Entry>, buff: map<int, Entry>, order: seq<int>, i: int, j: int, now: int)
      requires 0 <= j < |order|
    {
      && order[j] in start && order[j] in buff
      && buff[order[j]] == if j < i then Retry(start[order[j]], timeout, now) else start[order[j]]
    }

    lemma AllMet(start: map<int, Entry>, order: seq<int>, i: int, now: int)
      requires forall j {:trigger Met(start, sendBuff, order, i, j, now)} ::
        0 <= j < |order| ==> Met(start, sendBuff, order, i, j, now)
      ensures forall j {:trigger order[j]} :: 0 <= j < |order| ==>
        order[j] in start && order[j] in sendBuff
        && sendBuff[order[j]] == if j < i then Retry(start[order[j]], timeout, now) else start[order[j]]
    {
      forall j | 0 <= j < |order|
        ensures order[j] in start && order[j] in sendBuff
        ensures sendBuff[order[j]] == if j < i then Retry(start[order[j]], timeout, now) else start[order[j]]
      {
        assert Met(start, sendBuff, order, i, j, now);
      }
    }

    /** Overdue once too often. */
    ghost predicate Exhausted(e: Entry, now: int) {
      Due(e, timeout, now) && e.retries + 1 >= maxRetry
    }
  }

  /** The overdue messages, each once, in the order met. */
  ghost function DueMessages(buff: map<int, Entry>, order: seq<int>, timeout: int, now: int): seq<Message>
    requires forall j :: 0 <= j < |order| ==> order[j] in buff
  {
    if order == [] then []
    else
      var e := buff[order[|order| - 1]];
      DueMessages(buff, order[..|order| - 1], timeout, now) + if Due(e, timeout, now) then [e.msg] else []
  }

  ghost function Messages(buff: map<int, Entry>, order: seq<int>): seq<Message>
    requires forall j :: 0 <= j < |order| ==> order[j] in buff
  {
    seq(|order|, j requires 0 <= j < |order| => buff[order[j]].msg)
  }

  /** These are the messages of exactly the entries past their deadline, each once and in the order met. */
  lemma {:induction false} DueOnce(buff: map<int, Entry>, order: seq<int>, timeout: int, now: int) returns (at: seq<int>)
    requires forall j :: 0 <= j < |order| ==> order[j] in buff
    ensures Picks(Messages(buff, order), at, DueMessages(buff, order, timeout, now))
    ensures forall j {:trigger order[j]} :: 0 <= j < |order| ==>
      (j in at <==> buff[order[j]].send + timeout * (1 + buff[order[j]].retries) < now)
  {
    at := [];
    if order != [] {
      var init := order[..|order| - 1];
      at := DueOnce(buff, init, timeout, now);
      assert forall j {:trigger order[j]} :: 0 <= j < |init| ==> init[j] == order[j];
      if Due(buff[order[|init|]], timeout, now) {
        at := at + [|init|];
      }
    }
  }

  ghost function Retry(e: Entry, timeout: int, now: int): Entry {
    if Due(e, timeout, now) then e.(retries := e.retries + 1) else e
  }

  /** An overdue entry is counted once more and otherwise kept as it is, so its next deadline is one timeout later. */
  lemma RetryCounts(e: Entry, timeout: int, now: int, later: int)
    ensures var e1 := Retry(e, timeout, now);
            && e1.msg == e.msg && e1.send == e.send
            && (Due(e, timeout, now) <==> e.send + timeout * (1 + e.retries) < now)
            && e1.retries == (if Due(e, timeout, now) then e.retries + 1 else e.retries)
            && (e1 != e ==> (Due(e1, timeout, later) <==> Due(e, timeout, later - timeout)))
  {
    assert timeout * (1 + (e.retries + 1)) == timeout * (1 + e.retries) + timeout;
  }

  // ----- The protocol over a network that drops, duplicates and reorders

  /** A message as the sender holds it, and its key as the receiver computes it. */
  ghost function Local(m: Message): Message {
    m.(sender := K_EMPTY)
  }

  ghost function Key(m: Message): int {
    GetKey(m, m.recver)
  }

  /** Messages the key can tell apart. */
  ghost predicate Sendable(m: Message) {
    && m.kind.Plain? && m.app < 0x1_0000 && m.sender < 0x100 && m.recver < 0x100
    && m.timestamp < 0x4000_0000
  }

  ghost predicate SameTuple(m: Message, n: Message) {
    m.app == n.app && m.sender == n.sender && m.recver == n.recver && m.timestamp == n.timestamp && m.request == n.request
  }

  lemma KeyTellsApart(m: Message, n: Message)
    requires Sendable(m) && Sendable(n)
    ensures Key(m) == GetKey(Local(m), m.sender)
    ensures Key(m) == Key(n) <==> SameTuple(m, n)
  {
    hide GetKey;
    SameKeyIff(m, Local(m), m.recver, m.sender);
    SameKeyIff(m, n, m.recver, n.recver);
  }

  /**
   `packets` are in flight; `pending` are messages whose Send has handed them to
   the transport but not yet buffered them; `sent`, `returned` and `accepted`
   record what was sent, whose Send has returned, and what was handed on; the
   `dead` nodes have failed a check, on a timestamp or on a number of retries.
   */
  datatype Net = Net(
    nodes: map<int, Node>, packets: multiset<Message>, pending: multiset<Message>,
    sent: set<Message>, returned: set<Message>, accepted: seq<Message>, dead: set<int>)
  {
    ghost function At(n: int): Node { if n in nodes then nodes[n] else Node(map[], {}) }
  }

  ghost const Quiet := Net(map[], multiset{}, multiset{}, {}, {}, [], {})

  datatype Event =
    | Send(m: Message)       // first transmission, or the monitor sending again
    | Buffer(m: Message)     // AddOutgoing at the end of that Send
    | Drop(m: Message)
    | Duplicate(m: Message)
    | Receive(m: Message)
    | GiveUp(n: int)         // the monitor has resent a buffered message too often

  ghost predicate Possible(net: Net, ev: Event) {
    match ev
    case Send(m) => m.sender !in net.dead && Sendable(m) && forall n :: n in net.sent && SameTuple(m, n) ==> m == n
    case Buffer(m) => m in net.pending && m.sender !in net.dead
    case Drop(m) => m in net.packets
    case Duplicate(m) => m in net.packets
    case Receive(m) => m in net.packets && m.recver !in net.dead
    case GiveUp(n) => n !in net.dead && net.At(n).buff != map[]
  }

  ghost function Next(net: Net, ev: Event): Net {
    match ev
    case Send(m) =>
      net.(packets := net.packets + multiset{m}, pending := net.pending + multiset{m}, sent := net.sent + {m})
    case Buffer(m) =>
      if Fatal(m) then net.(dead := net.dead + {m.sender})
      else net.(nodes := net.nodes[m.sender := AddOut(net.At(m.sender), m.sender, Local(m), 0)],
                pending := net.pending - multiset{m}, returned := net.returned + {m})
    case Drop(m) => net.(packets := net.packets - multiset{m})
    case Duplicate(m) => net.(packets := net.packets + multiset{m})
    case Receive(m) =>
      if m.kind.Plain? && Fatal(m) then net.(packets := net.packets - multiset{m}, dead := net.dead + {m.recver})
      else
        var (node, stop, acks) := AddIn(net.At(m.recver), m.recver, m);
        net.(nodes := net.nodes[m.recver := node],
             packets := net.packets - multiset{m} + multiset(acks),
             accepted := if stop then net.accepted else net.accepted + [m])
    case GiveUp(n) => net.(dead := net.dead + {n})
  }

  // ----- The invariant

  ghost predicate Known(net: Net, m: Message) {
    m in net.sent && Sendable(m)
  }

  /** A packet is a message that was sent, or the ACK of one already accepted. */
  ghost predicate PacketOk(net: Net, p: Message) {
    if p.kind.Ack? then exists i :: 0 <= i < |net.accepted| && p == AckFor(net.accepted[i], net.accepted[i].recver)
    else Known(net, p)
  }

  ghost predicate RecordOk(net: Net, i: int)
    requires 0 <= i < |net.accepted|
  {
    var m := net.accepted[i];
    Known(net, m) && !Fatal(m) && Key(m) in net.At(m.recver).acked
  }

  /** A recorded key is that of an accepted message. */
  ghost predicate AckedOk(net: Net, r: int, k: int) {
    k in net.At(r).acked ==>
      exists i :: 0 <= i < |net.accepted| && net.accepted[i].recver == r && Key(net.accepted[i]) == k
  }

  /** A message whose Send returned is accepted or still buffered. */
  ghost predicate ReturnedOk(net: Net, m: Message) {
    !Fatal(m) && (m in net.accepted || Key(m) in net.At(m.sender).buff)
  }

  /** A dead node had a message left to resend, or has sent, or been sent, the one that killed it. */
  ghost predicate DeadOk(net: Net, n: int) {
    n in net.dead && net.At(n).buff == map[] ==> exists m {:trigger m in net.sent} :: m in net.sent && Fatal(m) && (m.sender == n || m.recver == n)
  }

  /** A buffered message was sent by this node and sits under its own key. */
  ghost predicate BuffOk(net: Net, s: int, k: int) {
    k in net.At(s).buff ==>
      var m := net.At(s).buff[k].msg;
      s >= 0 && m.sender == K_EMPTY && Known(net, m.(sender := s)) && Key(m.(sender := s)) == k
  }

  ghost predicate Inv(net: Net) {
    && (forall m {:trigger m in net.sent} :: m in net.sent ==> Sendable(m))
    && (forall m, n {:trigger SameTuple(m, n)} :: m in net.sent && n in net.sent && SameTuple(m, n) ==> m == n)
    && (forall p {:trigger PacketOk(net, p)} :: p in net.packets ==> PacketOk(net, p))
    && (forall m {:trigger Known(net, m)} :: m in net.pending ==> Known(net, m))
    && (forall i {:trigger RecordOk(net, i)} :: 0 <= i < |net.accepted| ==> RecordOk(net, i))
    && (forall r, k {:trigger AckedOk(net, r, k)} :: AckedOk(net, r, k))
    && (forall s, k {:trigger BuffOk(net, s, k)} :: BuffOk(net, s, k))
    && (forall m {:trigger ReturnedOk(net, m)} :: m in net.returned ==> ReturnedOk(net, m))
    && (forall n {:trigger DeadOk(net, n)} :: DeadOk(net, n))
    && net.returned <= net.sent && Distinct(net.accepted)
  }

  lemma SendKeeps(net: Net, m: Message)
    requires Inv(net) && Possible(net, Send(m))
    ensures Inv(Next(net, Send(m)))
  {
    hide GetKey, Distinct;
    var net1 := Next(net, Send(m));
    forall p | p in net1.packets ensures PacketOk(net1, p) {
      if p in net.packets { assert PacketOk(net, p); }
    }
    forall n | n in net1.pending ensures Known(net1, n) {
      if n in net.pending { assert Known(net, n); }
    }
    forall i | 0 <= i < |net1.accepted| ensures RecordOk(net1, i) {
      assert RecordOk(net, i);
    }
    forall r, k ensures AckedOk(net1, r, k) {
      assert AckedOk(net, r, k);
    }
    forall t, k ensures BuffOk(net1, t, k) {
      assert BuffOk(net, t, k);
    }
    forall n | n in net1.returned ensures ReturnedOk(net1, n) {
      assert ReturnedOk(net, n);
    }
    forall a, b | a in net1.sent && b in net1.sent && SameTuple(a, b) ensures a == b {
      assert SameTuple(b, a);
    }
    forall n ensures DeadOk(net1, n) {
      assert DeadOk(net, n);
    }
  }

  lemma BufferRecords(net: Net, m: Message)
    requires Inv(net) && Known(net, m) && !Fatal(m)
    ensures var net1 := Next(net, Buffer(m));
            && (forall s, k {:trigger BuffOk(net1, s, k)} :: BuffOk(net1, s, k))
            && (forall n {:trigger ReturnedOk(net1, n)} :: n in net1.returned ==> ReturnedOk(net1, n))
  {
    hide GetKey, Distinct, SameTuple;
    KeyTellsApart(m, m);
    var net1 := Next(net, Buffer(m));
    forall t, k ensures BuffOk(net1, t, k) {
      assert BuffOk(net, t, k);
    }
    forall n | n in net1.returned ensures ReturnedOk(net1, n) {
      if n != m { assert ReturnedOk(net, n); }
    }
  }

  lemma BufferKeeps(net: Net, m: Message)
    requires Inv(net) && Possible(net, Buffer(m)) && !Fatal(m)
    ensures Inv(Next(net, Buffer(m)))
  {
    hide GetKey, Distinct, Sendable, SameTuple;
    assert Known(net, m);
    var net1 := Next(net, Buffer(m));
    forall r ensures net1.At(r).acked == net.At(r).acked {
    }
    forall p | p in net1.packets ensures PacketOk(net1, p) {
      assert PacketOk(net, p);
    }
    forall n | n in net1.pending ensures Known(net1, n) {
      assert Known(net, n);
    }
    forall i | 0 <= i < |net1.accepted| ensures RecordOk(net1, i) {
      assert RecordOk(net, i);
    }
    forall r, k ensures AckedOk(net1, r, k) {
      assert AckedOk(net, r, k);
    }
    BufferRecords(net, m);
    forall n ensures DeadOk(net1, n) {
      assert DeadOk(net, n);
    }
  }

  /** Losing or repeating a packet. */
  lemma LossKeeps(net: Net, m: Message, more: bool)
    requires Inv(net) && m in net.packets
    ensures Inv(Next(net, if more then Duplicate(m) else Drop(m)))
  {
    hide GetKey, Distinct;
    var net1 := Next(net, if more then Duplicate(m) else Drop(m));
    forall p | p in net1.packets ensures PacketOk(net1, p) {
      assert PacketOk(net, p);
    }
    forall n | n in net1.pending ensures Known(net1, n) {
      assert Known(net, n);
    }
    forall i | 0 <= i < |net1.accepted| ensures RecordOk(net1, i) {
      assert RecordOk(net, i);
    }
    forall r, k ensures AckedOk(net1, r, k) {
      assert AckedOk(net, r, k);
    }
    forall t, k ensures BuffOk(net1, t, k) {
      assert BuffOk(net, t, k);
    }
    forall n | n in net1.returned ensures ReturnedOk(net1, n) {
      assert ReturnedOk(net, n);
    }
    forall n ensures DeadOk(net1, n) {
      assert DeadOk(net, n);
    }
  }

  /** An ACK removes only a message that has been accepted. */
  lemma AckKeeps(net: Net, p: Message)
    requires Inv(net) && Possible(net, Receive(p)) && p.kind.Ack?
    ensures Inv(Next(net, Receive(p)))
  {
    hide GetKey, Distinct, Sendable, SameTuple;
    var net1 := Next(net, Receive(p));
    assert PacketOk(net, p);
    var j :| 0 <= j < |net.accepted| && p == AckFor(net.accepted[j], net.accepted[j].recver);
    assert RecordOk(net, j);
    forall r ensures net1.At(r).acked == net.At(r).acked {
    }
    forall q | q in net1.packets ensures PacketOk(net1, q) {
      assert PacketOk(net, q);
    }
    forall n | n in net1.pending ensures Known(net1, n) {
      assert Known(net, n);
    }
    forall i | 0 <= i < |net1.accepted| ensures RecordOk(net1, i) {
      assert RecordOk(net, i);
    }
    forall r, k ensures AckedOk(net1, r, k) {
      assert AckedOk(net, r, k);
    }
    forall t, k ensures BuffOk(net1, t, k) {
      assert BuffOk(net, t, k);
    }
    forall n | n in net1.returned ensures ReturnedOk(net1, n) {
      assert ReturnedOk(net, n);
      if n !in net.accepted && Key(n) == p.sig {
        KeyTellsApart(n, net.accepted[j]);
      }
    }
    forall n ensures DeadOk(net1, n) {
      assert DeadOk(net, n);
    }
  }

  /** A key already recorded means this very message was accepted before. */
  lemma RecordedIffAccepted(net: Net, m: Message)
    requires Inv(net) && m in net.sent
    ensures Key(m) in net.At(m.recver).acked <==> m in net.accepted
  {
    hide GetKey, Distinct;
    if Key(m) in net.At(m.recver).acked {
      assert AckedOk(net, m.recver, Key(m));
      var i :| 0 <= i < |net.accepted| && net.accepted[i].recver == m.recver && Key(net.accepted[i]) == Key(m);
      assert RecordOk(net, i);
      KeyTellsApart(m, net.accepted[i]);
    }
    if m in net.accepted {
      var i :| 0 <= i < |net.accepted| && net.accepted[i] == m;
      assert RecordOk(net, i);
    }
  }

  lemma DataKeeps(net: Net, m: Message)
    requires Inv(net) && Possible(net, Receive(m)) && !m.kind.Ack? && !Fatal(m)
    ensures Inv(Next(net, Receive(m)))
  {
    hide GetKey;
    var net1 := Next(net, Receive(m));
    assert PacketOk(net, m);
    RecordedIffAccepted(net, m);
    var stop := Key(m) in net.At(m.recver).acked;
    assert net1.accepted == if stop then net.accepted else net.accepted + [m];
    assert forall r :: net1.At(r).buff == net.At(r).buff;
    assert m in net1.accepted;
    ReceivePackets(net, m);
    ReceiveRecords(net, m);
    forall n | n in net1.pending ensures Known(net1, n) {
      assert Known(net, n);
    }
    forall t, k ensures BuffOk(net1, t, k) {
      assert BuffOk(net, t, k);
    }
    forall n | n in net1.returned ensures ReturnedOk(net1, n) {
      assert ReturnedOk(net, n);
    }
    forall n ensures DeadOk(net1, n) {
      assert DeadOk(net, n);
    }
  }

  lemma ReceiveRecords(net: Net, m: Message)
    requires Inv(net) && Known(net, m) && !Fatal(m)
    ensures var net1 := Next(net, Receive(m));
            && (forall i {:trigger RecordOk(net1, i)} :: 0 <= i < |net1.accepted| ==> RecordOk(net1, i))
            && (forall r, k {:trigger AckedOk(net1, r, k)} :: AckedOk(net1, r, k))
  {
    hide GetKey, Distinct;
    var net1 := Next(net, Receive(m));
    assert forall r :: net1.At(r).acked == if r == m.recver then net.At(r).acked + {Key(m)} else net.At(r).acked;
    forall i | 0 <= i < |net1.accepted| ensures RecordOk(net1, i) {
      if i < |net.accepted| { assert RecordOk(net, i); }
    }
    forall r, k ensures AckedOk(net1, r, k) {
      assert AckedOk(net, r, k);
      if k in net.At(r).acked {
        var i :| 0 <= i < |net.accepted| && net.accepted[i].recver == r && Key(net.accepted[i]) == k;
        assert net1.accepted[i] == net.accepted[i];
      } else if k in net1.At(r).acked {
        assert net1.accepted[|net.accepted|] == m;
      }
    }
  }

  lemma ReceivePackets(net: Net, m: Message)
    requires Inv(net) && m in net.packets && m.kind.Plain? && !Fatal(m) && m in Next(net, Receive(m)).accepted
    ensures forall p {:trigger PacketOk(Next(net, Receive(m)), p)} ::
      p in Next(net, Receive(m)).packets ==> PacketOk(Next(net, Receive(m)), p)
  {
    hide GetKey, Distinct;
    var net1 := Next(net, Receive(m));
    forall p | p in net1.packets ensures PacketOk(net1, p) {
      if p in net.packets {
        assert PacketOk(net, p);
        if p.kind.Ack? {
          var i :| 0 <= i < |net.accepted| && p == AckFor(net.accepted[i], net.accepted[i].recver);
          assert net1.accepted[i] == net.accepted[i];
        }
      } else {
        assert p == AckFor(m, m.recver);
        var i :| 0 <= i < |net1.accepted| && net1.accepted[i] == m;
      }
    }
  }

  /** The death of a node, whose last packet may be gone with it. */
  lemma DeathKeeps(net: Net, net1: Net, n: int)
    requires Inv(net) && net1.packets <= net.packets
    requires net1 == net.(packets := net1.packets, dead := net.dead + {n}) && DeadOk(net1, n)
    ensures Inv(net1)
  {
    hide GetKey, Distinct;
    forall p | p in net1.packets ensures PacketOk(net1, p) {
      assert p in net.packets && PacketOk(net, p);
    }
    forall m | m in net1.pending ensures Known(net1, m) {
      assert Known(net, m);
    }
    forall i | 0 <= i < |net1.accepted| ensures RecordOk(net1, i) {
      assert RecordOk(net, i);
    }
    forall r, k ensures AckedOk(net1, r, k) {
      assert AckedOk(net, r, k);
    }
    forall t, k ensures BuffOk(net1, t, k) {
      assert BuffOk(net, t, k);
    }
    forall m | m in net1.returned ensures ReturnedOk(net1, m) {
      assert ReturnedOk(net, m);
    }
    forall d ensures DeadOk(net1, d) {
      assert DeadOk(net, d);
    }
  }

  lemma BufferOrDie(net: Net, m: Message)
    requires Inv(net) && Possible(net, Buffer(m))
    ensures Inv(Next(net, Buffer(m)))
  {
    hide GetKey, Distinct;
    assert Known(net, m);
    if Fatal(m) { DeathKeeps(net, Next(net, Buffer(m)), m.sender); } else { BufferKeeps(net, m); }
  }

  lemma ReceiveOrDie(net: Net, m: Message)
    requires Inv(net) && Possible(net, Receive(m))
    ensures Inv(Next(net, Receive(m)))
  {
    hide GetKey, Distinct;
    assert PacketOk(net, m);
    if m.kind.Ack? {
      AckKeeps(net, m);
    } else if Fatal(m) {
      DeathKeeps(net, Next(net, Receive(m)), m.recver);
    } else {
      DataKeeps(net, m);
    }
  }

  lemma GiveUpKeeps(net: Net, n: int)
    requires Inv(net) && Possible(net, GiveUp(n))
    ensures Inv(Next(net, GiveUp(n)))
  {
    hide Inv;
    DeathKeeps(net, Next(net, GiveUp(n)), n);
  }

  lemma StepKeeps(net: Net, ev: Event)
    requires Inv(net) && Possible(net, ev)
    ensures Inv(Next(net, ev))
  {
    hide Inv, Next;
    match ev
    case Send(m) => SendKeeps(net, m);
    case Buffer(m) => BufferOrDie(net, m);
    case Drop(m) => LossKeeps(net, m, false);
    case Duplicate(m) => LossKeeps(net, m, true);
    case Receive(m) => ReceiveOrDie(net, m);
    case GiveUp(n) => GiveUpKeeps(net, n);
  }

  // ----- Whole runs

  ghost predicate Behaviour(run: seq<Net>, events: seq<Event>) {
    && |run| == |events| + 1 && run[0] == Quiet
    && forall i :: 0 <= i < |events| ==> Possible(run[i], events[i]) && run[i + 1] == Next(run[i], events[i])
  }

  lemma {:induction false} Reachable(run: seq<Net>, events: seq<Event>, i: int)
    requires Behaviour(run, events) && 0 <= i < |run|
    ensures Inv(run[i])
    decreases i
  {
    hide Next, Possible;
    if i > 0 {
      Reachable(run, events, i - 1);
      assert Possible(run[i - 1], events[i - 1]);
      StepKeeps(run[i - 1], events[i - 1]);
    }
  }

  /** No message is handed on twice, and only messages that were sent are handed on. */
  lemma HandedOnOnce(run: seq<Net>, events: seq<Event>, i: int)
    requires Behaviour(run, events) && 0 <= i < |run|
    ensures Distinct(run[i].accepted) && Elements(run[i].accepted) <= run[i].sent
  {
    hide Next, Possible, GetKey, Distinct;
    Reachable(run, events, i);
    var net := run[i];
    forall m | m in net.accepted ensures m in net.sent {
      var j :| 0 <= j < |net.accepted| && net.accepted[j] == m;
      assert RecordOk(net, j);
    }
  }

  /** Every ACK in flight names a message its sender has already accepted. */
  lemma AcksAreTruthful(run: seq<Net>, events: seq<Event>, i: int, p: Message)
    requires Behaviour(run, events) && 0 <= i < |run| && p in run[i].packets && p.kind.Ack?
    ensures exists m :: m in run[i].accepted && m.recver == p.sender && m.sender == p.recver && Key(m) == p.sig
  {
    hide Next, Possible, GetKey;
    Reachable(run, events, i);
    var net := run[i];
    assert PacketOk(net, p);
    var j :| 0 <= j < |net.accepted| && p == AckFor(net.accepted[j], net.accepted[j].recver);
    assert net.accepted[j] in net.accepted;
  }

  /** A message whose Send returned but which is not yet accepted is still buffered, under its own key. */
  lemma UnacceptedIsBuffered(run: seq<Net>, events: seq<Event>, i: int, m: Message)
    requires Behaviour(run, events) && 0 <= i < |run| && m in run[i].returned && m !in run[i].accepted
    ensures var key, buff := GetKey(Local(m), m.sender), run[i].At(m.sender).buff;
            key in buff && buff[key].msg == Local(m)
  {
    hide Next, Possible, GetKey;
    Reachable(run, events, i);
    assert ReturnedOk(run[i], m) && BuffOk(run[i], m.sender, Key(m));
    var w := run[i].At(m.sender).buff[Key(m)].msg.(sender := m.sender);
    KeyTellsApart(m, w);
  }

  /**
   And sending it again gets it through, exactly when the timestamp is not the one the
   check forbids: while both ends live, the retransmission and its arrival are
   possible, and the arrival is handed on or kills the receiver.
   */
  lemma RetransmissionDelivers(run: seq<Net>, events: seq<Event>, i: int, m: Message)
    requires Behaviour(run, events) && 0 <= i < |run| && m in run[i].sent && m !in run[i].accepted
    ensures Possible(run[i], Send(m)) <==> m.sender !in run[i].dead
    ensures var again := Next(run[i], Send(m));
            && (Possible(again, Receive(m)) <==> m.recver !in run[i].dead)
            && (Next(again, Receive(m)).accepted == run[i].accepted + [m] <==> m.timestamp != K_EMPTY)
            && (m.timestamp == K_EMPTY ==> m.recver in Next(again, Receive(m)).dead)
  {
    hide GetKey;
    Reachable(run, events, i);
    RecordedIffAccepted(run[i], m);
  }

  /** A send puts the message on its way and leaves it to be buffered. */
  lemma SendTransmits(run: seq<Net>, events: seq<Event>, i: int, m: Message)
    requires Behaviour(run, events) && 0 <= i < |events| && events[i] == Send(m)
    ensures m in run[i + 1].sent && run[i + 1].packets == run[i].packets + multiset{m}
    ensures Possible(run[i + 1], Buffer(m)) && (m.recver !in run[i + 1].dead ==> Possible(run[i + 1], Receive(m)))
    ensures run[i + 1].nodes == run[i].nodes && run[i + 1].accepted == run[i].accepted
  {
    assert Possible(run[i], events[i]);
  }

  /** A message that comes in and does not kill is acknowledged to its sender, the first time and every other. */
  lemma ArrivalIsAcknowledged(run: seq<Net>, events: seq<Event>, i: int, m: Message)
    requires Behaviour(run, events) && 0 <= i < |events| && events[i] == Receive(m) && m.kind.Plain? && m.timestamp != K_EMPTY
    ensures m in run[i + 1].accepted
    ensures run[i + 1].packets == run[i].packets - multiset{m} + multiset{AckFor(m, m.recver)}
    ensures var p := AckFor(m, m.recver); p.kind.Ack? && p.sender == m.recver && p.recver == m.sender && p.sig == Key(m)
    ensures run[i + 1].At(m.recver).acked == run[i].At(m.recver).acked + {Key(m)}
    ensures forall n :: run[i + 1].At(n).buff == run[i].At(n).buff
  {
    hide GetKey;
    Reachable(run, events, i);
    assert PacketOk(run[i], m);
    RecordedIffAccepted(run[i], m);
  }

  /**
   An ACK that comes in takes the entry of the accepted message it names, and nothing
   else, out of the buffer of that message's sender.
   */
  lemma AckClears(run: seq<Net>, events: seq<Event>, i: int, p: Message) returns (m: Message)
    requires Behaviour(run, events) && 0 <= i < |events| && events[i] == Receive(p) && p.kind.Ack?
    ensures m in run[i].accepted && m.sender == p.recver && m.recver == p.sender && Key(m) == p.sig
    ensures Key(m) !in run[i + 1].At(m.sender).buff
    ensures forall k {:trigger k in run[i].At(m.sender).buff} :: k in run[i].At(m.sender).buff && k != Key(m) ==>
      k in run[i + 1].At(m.sender).buff && run[i + 1].At(m.sender).buff[k] == run[i].At(m.sender).buff[k]
    ensures run[i + 1].At(m.sender).buff.Keys <= run[i].At(m.sender).buff.Keys
    ensures forall n {:trigger run[i + 1].At(n)} :: n != m.sender ==> run[i + 1].At(n) == run[i].At(n)
    ensures run[i + 1].At(m.sender).acked == run[i].At(m.sender).acked && run[i + 1].accepted == run[i].accepted
  {
    hide GetKey, Inv;
    m := AckNames(run, events, i, p);
  }

  lemma AckNames(run: seq<Net>, events: seq<Event>, i: int, p: Message) returns (m: Message)
    requires Behaviour(run, events) && 0 <= i < |run| && p in run[i].packets && p.kind.Ack?
    ensures m in run[i].accepted && m.sender == p.recver && m.recver == p.sender && Key(m) == p.sig
  {
    hide Next, Possible, GetKey;
    AcksAreTruthful(run, events, i, p);
    m :| m in run[i].accepted && m.recver == p.sender && m.sender == p.recver && Key(m) == p.sig;
  }

  /** So no later pass of the monitor over a buffer without the key of a message sends that message again. */
  lemma NotResent(run: seq<Net>, events: seq<Event>, i: int, m: Message, order: seq<int>, timeout: int, now: int)
    requires Behaviour(run, events) && 0 <= i < |run| && m in run[i].sent && Key(m) !in run[i].At(m.sender).buff
    requires Distinct(order) && Elements(order) == run[i].At(m.sender).buff.Keys
    ensures forall j :: 0 <= j < |order| ==> order[j] in run[i].At(m.sender).buff
    ensures Local(m) !in DueMessages(run[i].At(m.sender).buff, order, timeout, now)
  {
    hide Next, Possible, GetKey, Distinct, DueMessages;
    Reachable(run, events, i);
    var buff := run[i].At(m.sender).buff;
    forall j | 0 <= j < |order| ensures order[j] in buff && buff[order[j]].msg != Local(m) {
      assert order[j] in Elements(order);
      assert BuffOk(run[i], m.sender, order[j]);
      assert Local(m).(sender := m.sender) == m;
    }
    var at := DueOnce(buff, order, timeout, now);
    var due := DueMessages(buff, order, timeout, now);
    forall k | 0 <= k < |due| ensures due[k] != Local(m) {
      assert due[k] == Messages(buff, order)[at[k]];
    }
  }

  /** A message buffered keeps the entry it may have; otherwise it gets a new one, and no other entry changes. */
  lemma BufferAdds(run: seq<Net>, events: seq<Event>, i: int, m: Message)
    requires Behaviour(run, events) && 0 <= i < |events| && events[i] == Buffer(m) && m.timestamp != K_EMPTY
    ensures var buff, buff1 := run[i].At(m.sender).buff, run[i + 1].At(m.sender).buff;
            buff1 == if Key(m) in buff then buff else buff[Key(m) := Entry(Local(m), 0, 0)]
    ensures forall n {:trigger run[i + 1].At(n)} :: n != m.sender ==> run[i + 1].At(n) == run[i].At(n)
  {
    hide GetKey;
    Reachable(run, events, i);
    assert Known(run[i], m);
    KeyTellsApart(m, m);
  }

  /**
   A message with that timestamp goes out like any other, but its Send never returns
   and nobody ever hands it on; whoever buffers or receives it dies.
   */
  lemma FatalIsNeverAccepted(run: seq<Net>, events: seq<Event>, i: int, m: Message)
    requires Behaviour(run, events) && 0 <= i < |run| && Sendable(m) && m.timestamp == K_EMPTY
    ensures m !in run[i].returned && m !in run[i].accepted
    ensures Possible(run[i], Buffer(m)) ==> m.sender in Next(run[i], Buffer(m)).dead
    ensures Possible(run[i], Receive(m)) ==> m.recver in Next(run[i], Receive(m)).dead
  {
    hide GetKey;
    Reachable(run, events, i);
    assert m in run[i].returned ==> ReturnedOk(run[i], m);
    forall j | 0 <= j < |run[i].accepted| ensures run[i].accepted[j].timestamp != K_EMPTY {
      assert RecordOk(run[i], j);
    }
  }

  /** No node dies but of such a message, or with one it still had to resend. */
  lemma DeathHasACause(run: seq<Net>, events: seq<Event>, i: int, n: int)
    requires Behaviour(run, events) && 0 <= i < |run| && n in run[i].dead
    ensures run[i].At(n).buff != map[] || exists m {:trigger m in run[i].sent} ::
      m in run[i].sent && m.timestamp == K_EMPTY && (m.sender == n || m.recver == n)
  {
    hide Next, Possible, GetKey;
    Reachable(run, events, i);
    assert DeadOk(run[i], n);
  }
}
