/**
 PackMeta and UnpackMeta: the meta data of a message as a RawMeta struct followed by
 the body, the data types and one RawNode struct per node.  Field widths and padding
 are those of the x86-64 ABI; traces are zero.
 */
module MetaCodec {
  import opened Arith
  import opened Wire

  const EMPTY: int := 0
  const BARRIER: int := 3
  const ACK: int := 4
  const INSTANCE_BARRIER: int := 9

  datatype Node = Node(
    role: int, id: int, hostname: seq<int>, numPorts: int, ports: seq<int>, port: int, devTypes: seq<int>,
    devIds: seq<int>, isRecovery: bool, customerId: int, endpointName: seq<int>, endpointNameLen: int, auxId: int)

  datatype Meta = Meta(
    head: int, appId: int, timestamp: int, customerId: int, request: bool, push: bool, simpleApp: bool,
    body: seq<int>, dataType: seq<int>, srcDevType: int, srcDevId: int, dstDevType: int, dstDevId: int,
    cmd: int, barrierGroup: int, msgSig: int, nodes: seq<Node>,
    dataSize: int, key: int, addr: int, valLen: int, option: int, sid: int, isTensor: int, dtype: int, shape: seq<int>)

  datatype RawMeta = RawMeta(
    head: int, bodySize: int, cmd: int, nodeSize: int, barrierGroup: int, msgSig: int, request: bool,
    appId: int, timestamp: int, dataTypeSize: int, srcDevType: int, srcDevId: int, dstDevType: int, dstDevId: int,
    customerId: int, push: bool, simpleApp: bool, dataSize: int, key: int, addr: int, valLen: int, option: int,
    sid: int, isTensor: int, dtype: int, dim: int, shape: seq<int>)

  /** The gaps are padding, which keeps whatever the buffer held. */
  datatype RawNode = RawNode(
    role: int, id: int, hostname: seq<int>, numPorts: int, ports: seq<int>, port: int, devTypes: seq<int>,
    devIds: seq<int>, isRecovery: bool, gap: seq<int>, customerId: int, endpointName: seq<int>, endpointNameLen: int,
    auxId: int, gapAtEnd: seq<int>)

  // ----- The structs as bytes

  const META: seq<nat> := [4, 4, 4, 4, 4, 4, 8, 1, 3, 4, 4, 4, 4, 4, 4, 4, 4, 1, 1, 2, 4, 4, 8, 8, 4, 4, 4, 4, 4, 4, 64, 80, 16, 4, 4]

  const NODE: seq<nat> := [4, 4, 64, 4, 128, 4, 128, 128, 1, 3, 4, 64, 8, 4, 4]

  function Zeros(n: nat): (z: seq<int>)
    ensures |z| == n
  {
    seq(n, i => 0)
  }

  function MetaFields(raw: RawMeta): seq<seq<int>> {
    [Signed(raw.head, 4), Signed(raw.bodySize, 4), Signed(raw.cmd, 4), Signed(raw.nodeSize, 4),
     Signed(raw.barrierGroup, 4), Zeros(4), Bytes(raw.msgSig, 8), Bool(raw.request), Zeros(3),
     Signed(raw.appId, 4), Signed(raw.timestamp, 4), Signed(raw.dataTypeSize, 4), Signed(raw.srcDevType, 4),
     Signed(raw.srcDevId, 4), Signed(raw.dstDevType, 4), Signed(raw.dstDevId, 4), Signed(raw.customerId, 4),
     Bool(raw.push), Bool(raw.simpleApp), Zeros(2), Signed(raw.dataSize, 4), Zeros(4), Bytes(raw.key, 8),
     Bytes(raw.addr, 8), Signed(raw.valLen, 4), Signed(raw.option, 4), Signed(raw.sid, 4), Signed(raw.isTensor, 4),
     Signed(raw.dtype, 4), Signed(raw.dim, 4), Flat(SignedAll(raw.shape, 8)), Zeros(80), Zeros(16), Zeros(4), Zeros(4)]
  }

  function IntField(buf: seq<int>, widths: seq<nat>, i: nat): int
    requires i < |widths| && SizeOf(widths) <= |buf|
  {
    FromSigned(Field(buf, widths, i))
  }

  function ArrayField(buf: seq<int>, widths: seq<nat>, i: nat, n: nat, w: nat): (xs: seq<int>)
    requires i < |widths| && SizeOf(widths) <= |buf| && widths[i] == Times(w, n)
    ensures |xs| == n
  {
    FromSignedAll(Field(buf, widths, i), n, w)
  }

  function ReadMeta(buf: seq<int>): (raw: RawMeta)
    requires SizeOf(META) <= |buf|
    ensures |raw.shape| == 8
  {
    RawMeta(
      IntField(buf, META, 0), IntField(buf, META, 1), IntField(buf, META, 2), IntField(buf, META, 3),
      IntField(buf, META, 4), Number(Field(buf, META, 6)), FromBool(Field(buf, META, 7)),
      IntField(buf, META, 9), IntField(buf, META, 10), IntField(buf, META, 11), IntField(buf, META, 12),
      IntField(buf, META, 13), IntField(buf, META, 14), IntField(buf, META, 15), IntField(buf, META, 16),
      FromBool(Field(buf, META, 17)), FromBool(Field(buf, META, 18)), IntField(buf, META, 20),
      Number(Field(buf, META, 22)), Number(Field(buf, META, 23)), IntField(buf, META, 24), IntField(buf, META, 25),
      IntField(buf, META, 26), IntField(buf, META, 27), IntField(buf, META, 28), IntField(buf, META, 29),
      ArrayField(buf, META, 30, 8, 8))
  }

  function NodeFields(raw: RawNode): seq<seq<int>> {
    [Signed(raw.role, 4), Signed(raw.id, 4), raw.hostname, Signed(raw.numPorts, 4), Flat(SignedAll(raw.ports, 4)),
     Signed(raw.port, 4), Flat(SignedAll(raw.devTypes, 4)), Flat(SignedAll(raw.devIds, 4)), Bool(raw.isRecovery),
     raw.gap, Signed(raw.customerId, 4), raw.endpointName, Bytes(raw.endpointNameLen, 8), Signed(raw.auxId, 4),
     raw.gapAtEnd]
  }

  function ReadNode(buf: seq<int>): RawNode
    requires SizeOf(NODE) <= |buf|
  {
    RawNode(
      IntField(buf, NODE, 0), IntField(buf, NODE, 1), Field(buf, NODE, 2), IntField(buf, NODE, 3),
      ArrayField(buf, NODE, 4, 32, 4), IntField(buf, NODE, 5), ArrayField(buf, NODE, 6, 32, 4),
      ArrayField(buf, NODE, 7, 32, 4), FromBool(Field(buf, NODE, 8)), Field(buf, NODE, 9), IntField(buf, NODE, 10),
      Field(buf, NODE, 11), Number(Field(buf, NODE, 12)), IntField(buf, NODE, 13), Field(buf, NODE, 14))
  }

  predicate Word(v: int) {
    Fits(v, 4)
  }

  predicate Long(v: int) {
    0 <= v < Max(8)
  }

  ghost predicate RawMetaOk(raw: RawMeta) {
    && Word(raw.head) && Word(raw.bodySize) && Word(raw.cmd) && Word(raw.nodeSize) && Word(raw.barrierGroup)
    && Long(raw.msgSig) && Word(raw.appId) && Word(raw.timestamp) && Word(raw.dataTypeSize) && Word(raw.srcDevType)
    && Word(raw.srcDevId) && Word(raw.dstDevType) && Word(raw.dstDevId) && Word(raw.customerId) && Word(raw.dataSize)
    && Long(raw.key) && Long(raw.addr) && Word(raw.valLen) && Word(raw.option) && Word(raw.sid) && Word(raw.isTensor)
    && Word(raw.dtype) && Word(raw.dim) && |raw.shape| == 8 && AllFit(raw.shape, 8)
  }

  ghost predicate RawNodeOk(raw: RawNode) {
    && Word(raw.role) && Word(raw.id) && |raw.hostname| == 64 && Word(raw.numPorts)
    && |raw.ports| == 32 && AllFit(raw.ports, 4) && Word(raw.port) && |raw.devTypes| == 32 && AllFit(raw.devTypes, 4)
    && |raw.devIds| == 32 && AllFit(raw.devIds, 4) && |raw.gap| == 3 && Word(raw.customerId)
    && |raw.endpointName| == 64 && Long(raw.endpointNameLen) && Word(raw.auxId) && |raw.gapAtEnd| == 4
  }

  lemma WordTrip()
    ensures forall v {:trigger Signed(v, 4)} :: Word(v) ==> FromSigned(Signed(v, 4)) == v
  {
    forall v | Word(v) ensures FromSigned(Signed(v, 4)) == v {
      SignedTrip(v, 4);
    }
  }

  lemma LongTrip()
    ensures forall v {:trigger Bytes(v, 8)} :: Long(v) ==> Number(Bytes(v, 8)) == v
  {
    forall v | Long(v) ensures Number(Bytes(v, 8)) == v {
      NumberBytes(v, 8);
    }
  }

  lemma ArraySizes()
    ensures Times(8, 8) == 64 && Times(4, 32) == 128
  {
  }

  lemma FlagTrip()
    ensures forall b {:trigger Bool(b)} :: FromBool(Bool(b)) == b
  {
    forall b ensures FromBool(Bool(b)) == b {
      BoolTrip(b);
    }
  }

  lemma FirstWidths(raw: RawMeta, i: int)
    requires 0 <= i < 9
    ensures |MetaFields(raw)[i]| == META[i]
  {
  }

  lemma MiddleWidths(raw: RawMeta, i: int)
    requires 9 <= i < 18
    ensures |MetaFields(raw)[i]| == META[i]
  {
  }

  lemma LateWidths(raw: RawMeta, i: int)
    requires 18 <= i < 27
    ensures |MetaFields(raw)[i]| == META[i]
  {
  }

  lemma LastWidths(raw: RawMeta, i: int)
    requires 27 <= i < 35 && |Flat(SignedAll(raw.shape, 8))| == 64
    ensures |MetaFields(raw)[i]| == META[i]
  {
    hide Flat, SignedAll;
  }

  lemma MetaWidths(raw: RawMeta)
    requires |raw.shape| == 8
    ensures HasWidths(MetaFields(raw), META)
  {
    hide Signed, Bytes, Bool, Zeros, Flat, SignedAll, Times;
    ArraySizes();
    UniformSize(SignedAll(raw.shape, 8), 8);
    forall i | 0 <= i < |MetaFields(raw)| ensures |MetaFields(raw)[i]| == META[i] {
      if i < 9 { FirstWidths(raw, i); } else if i < 18 { MiddleWidths(raw, i); }
      else if i < 27 { LateWidths(raw, i); } else { LastWidths(raw, i); }
    }
  }

  lemma FirstFieldsTrip(raw: RawMeta, rest: seq<int>)
    requires RawMetaOk(raw)
    ensures |Flat(MetaFields(raw))| == SizeOf(META)
    ensures var q := ReadMeta(Flat(MetaFields(raw)) + rest);
            && q.head == raw.head && q.bodySize == raw.bodySize && q.cmd == raw.cmd && q.nodeSize == raw.nodeSize
            && q.barrierGroup == raw.barrierGroup && q.msgSig == raw.msgSig && q.request == raw.request
            && q.appId == raw.appId && q.timestamp == raw.timestamp && q.dataTypeSize == raw.dataTypeSize
            && q.srcDevType == raw.srcDevType && q.srcDevId == raw.srcDevId && q.dstDevType == raw.dstDevType
  {
    hide Signed, FromSigned, Bytes, Number, Bool, FromBool, Zeros, Flat, SignedAll, FromSignedAll, Times, Offset, SizeOf, Field, Word, Long, AllFit;
    MetaWidths(raw);
    FieldsOf(MetaFields(raw), META, rest);
    WordTrip();
    LongTrip();
    FlagTrip();
  }

  lemma LastFieldsTrip(raw: RawMeta, rest: seq<int>)
    requires RawMetaOk(raw)
    ensures |Flat(MetaFields(raw))| == SizeOf(META)
    ensures var q := ReadMeta(Flat(MetaFields(raw)) + rest);
            && q.dstDevId == raw.dstDevId && q.customerId == raw.customerId && q.push == raw.push && q.simpleApp == raw.simpleApp
            && q.dataSize == raw.dataSize && q.key == raw.key && q.addr == raw.addr && q.valLen == raw.valLen
            && q.option == raw.option && q.sid == raw.sid && q.isTensor == raw.isTensor && q.dtype == raw.dtype
            && q.dim == raw.dim && q.shape == raw.shape
  {
    hide Signed, FromSigned, Bytes, Number, Bool, FromBool, Zeros, Flat, SignedAll, FromSignedAll, Times, Offset, SizeOf, Field, Word, Long, AllFit;
    MetaWidths(raw);
    FieldsOf(MetaFields(raw), META, rest);
    WordTrip();
    LongTrip();
    FlagTrip();
    ArraySizes();
    ArrayTrip(raw.shape, 8, []);
    assert Flat(SignedAll(raw.shape, 8)) + [] == Flat(SignedAll(raw.shape, 8));
  }

  /** Reading a RawMeta gives back every field that was stored. */
  lemma RawMetaTrip(raw: RawMeta, rest: seq<int>)
    requires RawMetaOk(raw)
    ensures |Flat(MetaFields(raw))| == SizeOf(META) && ReadMeta(Flat(MetaFields(raw)) + rest) == raw
  {
    hide MetaFields, ReadMeta, Flat, SizeOf, RawMetaOk;
    FirstFieldsTrip(raw, rest);
    LastFieldsTrip(raw, rest);
  }

  lemma NodeWidths(raw: RawNode)
    requires RawNodeOk(raw)
    ensures HasWidths(NodeFields(raw), NODE)
  {
    hide Signed, Bytes, Bool, Flat, SignedAll, Times, Word, Long, AllFit;
    ArraySizes();
    UniformSize(SignedAll(raw.ports, 4), 4);
    UniformSize(SignedAll(raw.devTypes, 4), 4);
    UniformSize(SignedAll(raw.devIds, 4), 4);
    forall i | 0 <= i < |NodeFields(raw)| ensures |NodeFields(raw)[i]| == NODE[i] {
      if i < 8 {
        assert i == 0 || i == 1 || i == 2 || i == 3 || i == 4 || i == 5 || i == 6 || i == 7;
      } else {
        assert i == 8 || i == 9 || i == 10 || i == 11 || i == 12 || i == 13 || i == 14;
      }
    }
  }

  /** Reading a RawNode gives back every field that was stored. */
  lemma RawNodeTrip(raw: RawNode, rest: seq<int>)
    requires RawNodeOk(raw)
    ensures |Flat(NodeFields(raw))| == SizeOf(NODE) && ReadNode(Flat(NodeFields(raw)) + rest) == raw
  {
    hide Signed, FromSigned, Bytes, Number, Bool, FromBool, Zeros, Flat, SignedAll, FromSignedAll, Times, Offset, SizeOf, Field, Word, Long, AllFit;
    NodeWidths(raw);
    FieldsOf(NodeFields(raw), NODE, rest);
    WordTrip();
    LongTrip();
    FlagTrip();
    ArraySizes();
    IntArrayTrip(raw.ports);
    IntArrayTrip(raw.devTypes);
    IntArrayTrip(raw.devIds);
  }

  lemma IntArrayTrip(xs: seq<int>)
    requires |xs| == 32 && AllFit(xs, 4)
    ensures |Flat(SignedAll(xs, 4))| == Times(4, 32) && FromSignedAll(Flat(SignedAll(xs, 4)), 32, 4) == xs
  {
    ArrayTrip(xs, 4, []);
    assert Flat(SignedAll(xs, 4)) + [] == Flat(SignedAll(xs, 4));
  }

  // ----- Reading

  /** The string up to the first NUL. */
  function CString(b: seq<int>): seq<int> {
    if b == [] || b[0] == 0 then [] else [b[0]] + CString(b[1..])
  }

  function ToNode(raw: RawNode): Node {
    Node(raw.role, raw.id, CString(raw.hostname), raw.numPorts, raw.ports, raw.port, raw.devTypes, raw.devIds,
         raw.isRecovery, raw.customerId, raw.endpointName, raw.endpointNameLen, raw.auxId)
  }

  /** The buffer is as long as its own size fields say. */
  predicate Sized(buf: seq<int>) {
    && SizeOf(META) <= |buf|
    && var raw := ReadMeta(buf);
       && 0 <= raw.bodySize && 0 <= raw.dataTypeSize && 0 <= raw.nodeSize && 0 <= raw.dim <= 8
       && SizeOf(META) + raw.bodySize + Times(4, raw.dataTypeSize) + Times(SizeOf(NODE), raw.nodeSize) <= |buf|
  }

  function TypesAt(buf: seq<int>): (b: seq<int>)
    requires Sized(buf)
    ensures Times(4, ReadMeta(buf).dataTypeSize) <= |b|
  {
    TimesMonotone(SizeOf(NODE), 0, ReadMeta(buf).nodeSize);
    TimesMonotone(4, 0, ReadMeta(buf).dataTypeSize);
    buf[SizeOf(META) + ReadMeta(buf).bodySize..]
  }

  function NodesAt(buf: seq<int>): (b: seq<int>)
    requires Sized(buf)
    ensures Times(SizeOf(NODE), ReadMeta(buf).nodeSize) <= |b|
  {
    TimesMonotone(4, 0, ReadMeta(buf).dataTypeSize);
    TypesAt(buf)[Times(4, ReadMeta(buf).dataTypeSize)..]
  }

  /** Node `i` of an array of `n` RawNode structs. */
  function NodeAt(nodeBuf: seq<int>, n: int, i: int): Node
    requires 0 <= i < n && Times(SizeOf(NODE), n) <= |nodeBuf|
  {
    TimesMonotone(SizeOf(NODE), i + 1, n);
    ToNode(ReadNode(Element(nodeBuf, i, SizeOf(NODE))))
  }

  function BodyAt(buf: seq<int>): seq<int>
    requires Sized(buf)
  {
    TimesMonotone(SizeOf(NODE), 0, ReadMeta(buf).nodeSize);
    TimesMonotone(4, 0, ReadMeta(buf).dataTypeSize);
    buf[SizeOf(META)..SizeOf(META) + ReadMeta(buf).bodySize]
  }

  /** The conversion of an int to int8_t. */
  function Narrow(v: int): int {
    var u := v % 256; if u >= 128 then u - 256 else u
  }

  function FromRaw(raw: RawMeta, body: seq<int>, dataType: seq<int>, nodes: seq<Node>, shape: seq<int>): Meta {
    Meta(raw.head, raw.appId, raw.timestamp, raw.customerId, raw.request, raw.push, raw.simpleApp, body, dataType,
         raw.srcDevType, raw.srcDevId, raw.dstDevType, raw.dstDevId, raw.cmd, raw.barrierGroup, raw.msgSig, nodes,
         raw.dataSize, raw.key, raw.addr, raw.valLen, raw.option, raw.sid, Narrow(raw.isTensor), Narrow(raw.dtype), shape)
  }

  ghost function NodesIn(nodeBuf: seq<int>, n: int): seq<Node>
    requires 0 <= n && Times(SizeOf(NODE), n) <= |nodeBuf|
  {
    seq(n, i requires 0 <= i < n => NodeAt(nodeBuf, n, i))
  }

  /** What a buffer means. */
  ghost function Decode(buf: seq<int>): Meta
    requires Sized(buf)
  {
    var raw := ReadMeta(buf);
    FromRaw(raw, BodyAt(buf), FromSignedAll(TypesAt(buf), raw.dataTypeSize, 4),
            NodesIn(NodesAt(buf), raw.nodeSize), raw.shape[..raw.dim])
  }

  method UnpackMeta(buf: seq<int>) returns (meta: Meta)
    requires Sized(buf)
    ensures meta == Decode(buf)
  {
    hide Sized, ReadMeta, Times, SizeOf, NodeAt, TypesAt, NodesAt, BodyAt, FromSigned;
    var raw := ReadMetaOf(buf);
    var dataType := ReadTypes(buf);
    var nodes, nodeBuf := [], NodesAt(buf);
    for i := 0 to raw.nodeSize
      invariant |nodes| == i && forall j {:trigger nodes[j]} :: 0 <= j < i ==> nodes[j] == NodeAt(nodeBuf, raw.nodeSize, j)
    {
      nodes := nodes + [NodeAt(nodeBuf, raw.nodeSize, i)];
    }
    assert nodes == NodesIn(nodeBuf, raw.nodeSize);
    var shape := [];
    for i := 0 to raw.dim
      invariant shape == raw.shape[..i]
    {
      shape := shape + [raw.shape[i]];
    }
    meta := FromRaw(raw, BodyAt(buf), dataType, nodes, shape);
  }

  method ReadMetaOf(buf: seq<int>) returns (raw: RawMeta)
    requires Sized(buf)
    ensures SizeOf(META) <= |buf| && raw == ReadMeta(buf)
    ensures 0 <= raw.bodySize && 0 <= raw.dataTypeSize && 0 <= raw.nodeSize && 0 <= raw.dim <= 8 == |raw.shape|
  {
    raw := ReadMeta(buf);
  }

  method ReadTypes(buf: seq<int>) returns (dataType: seq<int>)
    requires Sized(buf)
    ensures SizeOf(META) <= |buf| && dataType == FromSignedAll(TypesAt(buf), ReadMeta(buf).dataTypeSize, 4)
  {
    hide ReadMeta, Times, SizeOf, TypesAt, FromSigned;
    var n := ReadMeta(buf).dataTypeSize;
    dataType := [];
    ghost var all := FromSignedAll(TypesAt(buf), n, 4);
    for i := 0 to n
      invariant dataType == all[..i]
    {
      TimesMonotone(4, i + 1, n);
      dataType := dataType + [FromSigned(Element(TypesAt(buf), i, 4))];
    }
  }

  // ----- Writing

  /** What the types of the fields and the fixed arrays of the structs allow. */
  ghost predicate NodeOk(n: Node) {
    && Word(n.role) && Word(n.id) && |n.hostname| < 64 && Word(n.numPorts) && |n.ports| == 32 && AllFit(n.ports, 4)
    && Word(n.port) && |n.devTypes| == 32 && AllFit(n.devTypes, 4) && |n.devIds| == 32 && AllFit(n.devIds, 4)
    && Word(n.customerId) && |n.endpointName| == 64 && Long(n.endpointNameLen) && Word(n.auxId)
  }

  ghost predicate MetaOk(m: Meta) {
    && Word(m.head) && Word(m.appId) && Word(m.timestamp) && Word(m.customerId) && Word(|m.body|)
    && Word(|m.dataType|) && AllFit(m.dataType, 4) && Word(m.srcDevType) && Word(m.srcDevId) && Word(m.dstDevType)
    && Word(m.dstDevId) && Word(m.cmd) && Word(m.barrierGroup) && Long(m.msgSig) && Word(|m.nodes|)
    && (forall i {:trigger m.nodes[i]} :: 0 <= i < |m.nodes| ==> NodeOk(m.nodes[i]))
    && Word(m.dataSize) && Long(m.key) && Long(m.addr) && Word(m.valLen) && Word(m.option) && Word(m.sid)
    && -128 <= m.isTensor < 128 && -128 <= m.dtype < 128 && |m.shape| <= 8 && AllFit(m.shape, 8)
  }

  function GetPackMetaLen(m: Meta): int {
    SizeOf(META) + |m.body| + Times(4, |m.dataType|) + Times(SizeOf(NODE), |m.nodes|)
  }

  ghost predicate CarriesGroup(cmd: int) {
    cmd == BARRIER || cmd == INSTANCE_BARRIER
  }

  ghost function NormalNode(n: Node): Node {
    n.(hostname := CString(n.hostname))
  }

  ghost function NormalNodes(ns: seq<Node>): seq<Node> {
    seq(|ns|, i requires 0 <= i < |ns| => NormalNode(ns[i]))
  }

  /** What is left of a message after the wire. */
  ghost function Normal(m: Meta): Meta {
    m.(barrierGroup := if CarriesGroup(m.cmd) then m.barrierGroup else 0,
       msgSig := if m.cmd == ACK then m.msgSig else 0,
       nodes := if m.cmd == EMPTY then [] else NormalNodes(m.nodes))
  }

  lemma {:induction false} CStringPads(h: seq<int>, k: nat)
    ensures CString(h + Zeros(k)) == CString(h)
  {
    if h == [] {
      assert h + Zeros(k) == Zeros(k);
    } else {
      assert (h + Zeros(k))[1..] == h[1..] + Zeros(k);
      CStringPads(h[1..], k);
    }
  }

  lemma {:induction false} CStringWhole(h: seq<int>)
    ensures CString(h) == h <==> 0 !in h
  {
    if h != [] {
      CStringWhole(h[1..]);
      assert h == [h[0]] + h[1..];
      assert h[0] != 0 ==> CString(h)[1..] == CString(h[1..]);
    }
  }

  function PackNode(n: Node, gap: seq<int>, gapAtEnd: seq<int>): RawNode
    requires |n.hostname| <= 64
  {
    RawNode(n.role, n.id, n.hostname + Zeros(64 - |n.hostname|), n.numPorts, n.ports, n.port, n.devTypes, n.devIds,
            n.isRecovery, gap, n.customerId, n.endpointName, n.endpointNameLen, n.auxId, gapAtEnd)
  }

  lemma PackedNode(n: Node, gap: seq<int>, gapAtEnd: seq<int>)
    requires NodeOk(n) && |gap| == 3 && |gapAtEnd| == 4
    ensures var b := Flat(NodeFields(PackNode(n, gap, gapAtEnd)));
            |b| == SizeOf(NODE) && ToNode(ReadNode(b)) == NormalNode(n)
  {
    hide Flat, NodeFields, ReadNode, SizeOf, CString, AllFit, Word, Long;
    var raw := PackNode(n, gap, gapAtEnd);
    RawNodeTrip(raw, []);
    assert Flat(NodeFields(raw)) + [] == Flat(NodeFields(raw));
    CStringPads(n.hostname, 64 - |n.hostname|);
  }

  ghost predicate NodeSegOk(segs: seq<seq<int>>, nodes: seq<Node>, i: int)
    requires 0 <= i < |segs| <= |nodes|
  {
    |segs[i]| == SizeOf(NODE) && ToNode(ReadNode(segs[i])) == NormalNode(nodes[i])
  }

  method PackNodes(nodes: seq<Node>, prior: seq<int>) returns (b: seq<int>)
    requires forall i {:trigger nodes[i]} :: 0 <= i < |nodes| ==> NodeOk(nodes[i])
    requires |prior| == Times(SizeOf(NODE), |nodes|)
    ensures |b| == |prior| && NodesIn(b, |nodes|) == NormalNodes(nodes)
  {
    hide SizeOf, Times, AllFit, Word, Long, NodeFields, ReadNode, Flat, ToNode, NormalNode;
    var segs := [];
    for i := 0 to |nodes|
      invariant |segs| == i && forall j {:trigger NodeSegOk(segs, nodes, j)} :: 0 <= j < i ==> NodeSegOk(segs, nodes, j)
    {
      var n := nodes[i];
      TimesMonotone(SizeOf(NODE), i + 1, |nodes|);
      var here := Element(prior, i, SizeOf(NODE));
      var raw := PackNode(n, Field(here, NODE, 9), Field(here, NODE, 14));
      PackedNode(n, raw.gap, raw.gapAtEnd);
      ghost var before := segs;
      segs := segs + [Flat(NodeFields(raw))];
      forall j | 0 <= j < |segs| ensures NodeSegOk(segs, nodes, j) {
        assert j < i ==> NodeSegOk(before, nodes, j);
      }
    }
    b := Flat(segs);
    NodesOfSegs(segs, nodes);
  }

  lemma NodesOfSegs(segs: seq<seq<int>>, nodes: seq<Node>)
    requires |segs| == |nodes| && forall j {:trigger NodeSegOk(segs, nodes, j)} :: 0 <= j < |segs| ==> NodeSegOk(segs, nodes, j)
    ensures |Flat(segs)| == Times(SizeOf(NODE), |nodes|) && NodesIn(Flat(segs), |nodes|) == NormalNodes(nodes)
  {
    hide SizeOf, Times, ReadNode, Flat, ToNode, NormalNode;
    forall j | 0 <= j < |segs| ensures |segs[j]| == SizeOf(NODE) {
      assert NodeSegOk(segs, nodes, j);
    }
    UniformSize(segs, SizeOf(NODE));
    var b := Flat(segs);
    forall j | 0 <= j < |nodes| ensures NodeAt(b, |nodes|, j) == NormalNode(nodes[j]) {
      assert NodeSegOk(segs, nodes, j);
      ElementOf(segs, SizeOf(NODE), j, []);
      assert b + [] == b;
    }
  }

  method PackTypes(dataType: seq<int>) returns (b: seq<int>)
    ensures b == Flat(SignedAll(dataType, 4))
  {
    b := [];
    for i := 0 to |dataType|
      invariant b == Flat(SignedAll(dataType[..i], 4))
    {
      assert SignedAll(dataType[..i + 1], 4) == SignedAll(dataType[..i], 4) + [Signed(dataType[i], 4)];
      FlatSplit(SignedAll(dataType[..i], 4), [Signed(dataType[i], 4)]);
      assert [Signed(dataType[i], 4)][..0] == [] && Flat([Signed(dataType[i], 4)]) == Signed(dataType[i], 4);
      b := b + Signed(dataType[i], 4);
    }
    assert dataType[..|dataType|] == dataType;
  }

  /** A buffer made of the four parts means what the parts mean. */
  lemma DecodeParts(raw: RawMeta, body: seq<int>, dataType: seq<int>, nodeBuf: seq<int>)
    requires RawMetaOk(raw) && raw.bodySize == |body| && raw.dataTypeSize == |dataType| && AllFit(dataType, 4)
    requires 0 <= raw.nodeSize && Times(SizeOf(NODE), raw.nodeSize) <= |nodeBuf| && 0 <= raw.dim <= 8
    ensures var buf := Flat(MetaFields(raw)) + (body + (Flat(SignedAll(dataType, 4)) + nodeBuf));
            && Sized(buf)
            && Decode(buf) == FromRaw(raw, body, dataType, NodesIn(nodeBuf, raw.nodeSize), raw.shape[..raw.dim])
  {
    hide SizeOf, Times, MetaFields, ReadMeta, Flat, SignedAll, FromSignedAll, AllFit, Word, Long;
    var types := Flat(SignedAll(dataType, 4));
    var tail := types + nodeBuf;
    var buf := Flat(MetaFields(raw)) + (body + tail);
    RawMetaTrip(raw, body + tail);
    ArrayTrip(dataType, 4, nodeBuf);
    assert Sized(buf);
    PartsOf(Flat(MetaFields(raw)), body, types, nodeBuf);
  }

  lemma PartsOf(a: seq<int>, b: seq<int>, c: seq<int>, d: seq<int>)
    ensures var s := a + (b + (c + d));
            s[|a|..|a| + |b|] == b && s[|a| + |b|..] == c + d && s[|a| + |b|..][|c|..] == d
  {
  }

  const ZERO_META := RawMeta(0, 0, 0, 0, 0, 0, false, 0, 0, 0, 0, 0, 0, 0, 0, false, false, 0, 0, 0, 0, 0, 0, 0, 0, 0,
                             [0, 0, 0, 0, 0, 0, 0, 0])

  /** What PackMeta must have stored in the struct. */
  ghost predicate Stored(raw: RawMeta, m: Meta) {
    && RawMetaOk(raw) && raw.bodySize == |m.body| && raw.dataTypeSize == |m.dataType|
    && raw.nodeSize == (if m.cmd == EMPTY then 0 else |m.nodes|)
    && raw.dim == |m.shape| <= 8 && raw.shape[..raw.dim] == m.shape
    && FromRaw(raw, m.body, m.dataType, Normal(m).nodes, m.shape) == Normal(m)
  }

  method PackControl(raw: RawMeta, meta: Meta) returns (r: RawMeta)
    requires raw.barrierGroup == raw.msgSig == raw.nodeSize == raw.cmd == 0
    ensures r == raw.(cmd := meta.cmd, nodeSize := if meta.cmd == EMPTY then 0 else |meta.nodes|,
                      barrierGroup := if CarriesGroup(meta.cmd) then meta.barrierGroup else 0,
                      msgSig := if meta.cmd == ACK then meta.msgSig else 0)
  {
    r := raw;
    if meta.cmd != EMPTY {
      r := r.(cmd := meta.cmd);
      if meta.cmd == BARRIER || meta.cmd == INSTANCE_BARRIER {
        r := r.(barrierGroup := meta.barrierGroup);
      } else if meta.cmd == ACK {
        r := r.(msgSig := meta.msgSig);
      }
      r := r.(nodeSize := |meta.nodes|);
    } else {
      r := r.(cmd := EMPTY);
    }
  }

  method PackShape(shape: seq<int>) returns (r: seq<int>)
    requires |shape| <= 8 && AllFit(shape, 8)
    ensures |r| == 8 && r[..|shape|] == shape && AllFit(r, 8)
  {
    hide Fits;
    ZeroFits();
    r := Zeros(8);
    for i := 0 to |shape|
      invariant |r| == 8 && r[..i] == shape[..i] && AllFit(r, 8)
    {
      r := r[i := shape[i]];
      assert r[..i + 1] == shape[..i] + [shape[i]];
    }
  }

  lemma ZeroFits()
    ensures Fits(0, 8) && Word(0) && Long(0)
  {
  }

  method PackStruct(meta: Meta) returns (raw: RawMeta)
    requires MetaOk(meta)
    ensures Stored(raw, meta)
  {
    hide AllFit, Word, Long, NodeOk;
    ZeroFits();
    SmallFits(|meta.shape|);
    SmallFits(meta.isTensor);
    SmallFits(meta.dtype);
    raw := ZERO_META;
    raw := raw.(head := meta.head, appId := meta.appId, timestamp := meta.timestamp);
    if |meta.body| > 0 {
      raw := raw.(bodySize := |meta.body|);
    }
    raw := raw.(push := meta.push, request := meta.request, simpleApp := meta.simpleApp, customerId := meta.customerId);
    raw := raw.(dataTypeSize := |meta.dataType|, srcDevType := meta.srcDevType, srcDevId := meta.srcDevId,
                dstDevType := meta.dstDevType, dstDevId := meta.dstDevId);
    raw := PackControl(raw, meta);
    raw := raw.(dataSize := meta.dataSize, key := meta.key, addr := meta.addr, valLen := meta.valLen,
                option := meta.option, sid := meta.sid);
    var shape := PackShape(meta.shape);
    raw := raw.(isTensor := meta.isTensor, dtype := meta.dtype, dim := |meta.shape|, shape := shape);
  }

  lemma SmallFits(n: int)
    requires -128 <= n < 128
    ensures Word(n) && Narrow(n) == n
  {
  }

  /**
   The buffer has the announced length whatever it held before, and reading it gives the
   message back up to the parts that are not sent: the barrier group and the message
   signature of other commands, nodes of data messages, and a hostname behind a NUL.
   */
  method PackMeta(meta: Meta, prior: seq<int>) returns (buf: seq<int>)
    requires MetaOk(meta) && |prior| == GetPackMetaLen(meta)
    ensures |buf| == GetPackMetaLen(meta) && Sized(buf) && Decode(buf) == Normal(meta)
  {
    hide SizeOf, Times, RawMetaOk, MetaFields, Flat, SignedAll, AllFit, NodeOk, Sized, Decode, NormalNodes;
    var raw := PackStruct(meta);
    var types := PackTypes(meta.dataType);
    TimesMonotone(SizeOf(NODE), 0, |meta.nodes|);
    TimesMonotone(4, 0, |meta.dataType|);
    var nodeBuf := prior[|prior| - Times(SizeOf(NODE), |meta.nodes|)..];
    if meta.cmd != EMPTY {
      nodeBuf := PackNodes(meta.nodes, nodeBuf);
    }
    buf := Flat(MetaFields(raw)) + (meta.body + (types + nodeBuf));
    assert |buf| == GetPackMetaLen(meta) by {
      RawMetaTrip(raw, []);
      UniformSize(SignedAll(meta.dataType, 4), 4);
    }
    TimesStep(SizeOf(NODE), 0);
    assert NodesIn(nodeBuf, raw.nodeSize) == Normal(meta).nodes;
    DecodeParts(raw, meta.body, meta.dataType, nodeBuf);
  }

  /** Packing and unpacking is the identity exactly on messages that use only what is sent. */
  lemma RoundTripIff(m: Meta)
    ensures Normal(m) == m <==>
            && (CarriesGroup(m.cmd) || m.barrierGroup == 0) && (m.cmd == ACK || m.msgSig == 0)
            && (m.cmd == EMPTY ==> m.nodes == [])
            && forall i {:trigger m.nodes[i]} :: 0 <= i < |m.nodes| ==> 0 !in m.nodes[i].hostname
  {
    forall i | 0 <= i < |m.nodes| ensures NormalNode(m.nodes[i]) == m.nodes[i] <==> 0 !in m.nodes[i].hostname {
      CStringWhole(m.nodes[i].hostname);
    }
    assert NormalNodes(m.nodes) == m.nodes <==>
      forall i {:trigger m.nodes[i]} :: 0 <= i < |m.nodes| ==> NormalNode(m.nodes[i]) == m.nodes[i] by {
      if NormalNodes(m.nodes) == m.nodes {
        forall i | 0 <= i < |m.nodes| ensures NormalNode(m.nodes[i]) == m.nodes[i] {
          assert NormalNodes(m.nodes)[i] == m.nodes[i];
        }
      }
    }
  }

  /** PackMeta followed by UnpackMeta. */
  method PackUnpack(meta: Meta, prior: seq<int>) returns (r: Meta)
    requires MetaOk(meta) && |prior| == GetPackMetaLen(meta)
    ensures r == Normal(meta)
  {
    hide Sized, Decode, Normal, MetaOk, GetPackMetaLen;
    var buf := PackMeta(meta, prior);
    r := UnpackMeta(buf);
  }
}
