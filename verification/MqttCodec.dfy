/**
 The MQTT frame reader and writer (gate/base/mqtt/mqtt.go), on a finite byte stream.

 Header fields hold only the bits MQTT gives them, so that shifting and or-ing them into one byte is
 addition. Strings are byte sequences; a nil payload is an empty one.
 */
module MqttCodec {
  import opened Wrappers

  type Byte = x: int | 0 <= x < 256
  type Nibble = x: int | 0 <= x < 16
  type TwoBits = x: int | 0 <= x < 4
  type Bit = x: int | 0 <= x < 2
  type Bytes = seq<Byte>

  const CONNECT: Nibble := 1
  const CONNACK: Nibble := 2
  const PUBLISH: Nibble := 3
  const PUBACK: Nibble := 4
  const PUBREC: Nibble := 5
  const PUBREL: Nibble := 6
  const PUBCOMP: Nibble := 7
  const SUBSCRIBE: Nibble := 8
  const SUBACK: Nibble := 9
  const UNSUBSCRIBE: Nibble := 10
  const UNSUBACK: Nibble := 11
  const PINGREQ: Nibble := 12
  const PINGRESP: Nibble := 13
  const DISCONNECT: Nibble := 14

  datatype Topic = Topic(name: Bytes, qos: Byte)

  datatype ConnectFlags = ConnectFlags(
    userName: bool, password: bool, willRetain: bool, willQos: TwoBits, will: bool, clean: bool, reserved: bool)

  datatype Variable =
    | NoVariable
    | Connect(protocol: Bytes, version: Byte, keepAlive: nat, flags: ConnectFlags,
              id: Bytes, willTopic: Bytes, willMsg: Bytes, uname: Bytes, upassword: Bytes)
    | Connack(reserved: Byte, returnCode: Byte)
    | Publish(topic: Bytes, pmid: int, msg: Bytes)
    | NilTopic(nmid: int, nmsg: Bytes)  // a Publish whose topic_name is nil; its length cannot be taken
    | Puback(amid: int)
    | Subscribe(smid: int, topics: seq<Topic>)
    | Suback(bmid: int, qos: Byte)
    | Unsubscribe(umid: int, names: seq<Bytes>)
    | Unsuback(vmid: int)

  datatype Pack = Pack(msgType: Nibble, dup: Bit, qos: TwoBits, retain: Bit, length: nat, variable: Variable)

  datatype Error = EndOfStream | TooLong | BadLength | IdentifierRejected

  /** The outcome of a read and the position after it. */
  datatype Parse<+T> = Got(value: T, pos: nat) | Failed(error: Error, pos: nat) {
    predicate IsFailure() {
      Failed?
    }

    function PropagateFailure<U>(): Parse<U>
      requires Failed?
    {
      Failed(error, pos)
    }

    function Extract(): (T, nat)
      requires Got?
    {
      (value, pos)
    }
  }

  // ----- the reader's meaning

  function ParseByte(d: Bytes, pos: nat): Parse<Byte> {
    if pos < |d| then Got(d[pos], pos + 1) else Failed(EndOfStream, pos)
  }

  function Slice(d: Bytes, pos: nat, n: nat): (r: Bytes)
    requires pos + n <= |d|
    ensures |r| == n
  {
    seq(n, i requires 0 <= i < n => d[pos + i])
  }

  function ParseFull(d: Bytes, pos: nat, n: nat): Parse<Bytes>
    requires pos <= |d|
  {
    if pos + n <= |d| then Got(Slice(d, pos, n), pos + n) else Failed(EndOfStream, |d|)
  }

  function ParseInt(d: Bytes, pos: nat): (r: Parse<nat>)
    requires pos <= |d|
    ensures r.pos <= |d|
  {
    if pos + 2 <= |d| then
      var hi: int, lo: int := d[pos], d[pos + 1];
      Got(hi * 256 + lo, pos + 2)
    else Failed(EndOfStream, |d|)
  }

  function ParseString(d: Bytes, pos: nat): (r: Parse<Bytes>)
    requires pos <= |d|
    ensures r.pos <= |d|
  {
    var (n, p) :- ParseInt(d, pos);
    if n > 0 then ParseFull(d, p, n) else Got([], p)
  }

  /** The length loop, about to use byte b as the count-th of the frame. */
  function ParseLength(d: Bytes, pos: nat, b: Byte, count: nat, multiplier: nat, sum: nat): (r: Parse<nat>)
    requires pos <= |d| && count <= 4
    ensures r.pos <= |d|
    decreases 4 - count
  {
    var total := sum + (b % 128) * multiplier;
    if b / 128 != 0 && count < 4 then
      var (next, p) :- ParseByte(d, pos);
      ParseLength(d, p, next, count + 1, multiplier * 128, total)
    else Got(total, pos)
  }

  function ParseFlags(b: Byte): ConnectFlags {
    var b6 := b % 128;
    var b5 := b6 % 64;
    var b4 := b5 % 32;
    var b2 := b4 % 8;
    var b1 := b2 % 4;
    ConnectFlags(b / 128 != 0, b6 / 64 != 0, b5 / 32 != 0, b4 / 8, b2 / 4 != 0, b1 / 2 != 0, b1 % 2 != 0)
  }

  /** The CONNECT fields before the client identifier. */
  datatype Prologue = Prologue(protocol: Bytes, version: Byte, flags: ConnectFlags, keepAlive: nat)

  function ParsePrologue(d: Bytes, pos: nat, length: nat): (r: Parse<Prologue>)
    requires pos <= |d|
    ensures r.pos <= |d|
  {
    var (protocol, p1) :- ParseString(d, pos);
    if |protocol| > length - 4 then Failed(BadLength, p1) else
    var (version, p2) :- ParseByte(d, p1);
    var (flags, p3) :- ParseByte(d, p2);
    var (keepAlive, p4) :- ParseInt(d, p3);
    Got(Prologue(protocol, version, ParseFlags(flags), keepAlive), p4)
  }

  /** The CONNECT fields behind the client identifier. */
  datatype Epilogue = Epilogue(willTopic: Bytes, willMsg: Bytes, uname: Bytes, upassword: Bytes)

  function ParseEpilogue(d: Bytes, pos: nat, flags: ConnectFlags, left: int): (r: Parse<Epilogue>)
    requires pos <= |d|
    ensures r.pos <= |d|
  {
    var (w, p1) :- ParseWill(d, pos, flags.will, left);
    var (u, p2) :- ParseCredential(d, p1, flags.userName, w.2);
    var (pw, p3) :- ParseCredential(d, p2, flags.password, u.1);
    Got(Epilogue(w.0, w.1, u.0, pw.0), p3)
  }

  function ParseClient(d: Bytes, pos: nat, h: Prologue, length: nat): (r: Parse<Variable>)
    requires pos <= |d|
    ensures r.pos <= |d|
  {
    var (id, p1) :- ParseString(d, pos);
    if |id| > 64 || |id| < 1 then Failed(IdentifierRejected, p1) else
    var (t, p2) :- ParseEpilogue(d, p1, h.flags, length - 2 - |h.protocol| - 4 - |id|);
    Got(Connect(h.protocol, h.version, h.keepAlive, h.flags, id, t.willTopic, t.willMsg, t.uname, t.upassword), p2)
  }

  function ParseConnect(d: Bytes, pos: nat, length: nat): (r: Parse<Variable>)
    requires pos <= |d|
    ensures r.pos <= |d|
  {
    var (h, p) :- ParsePrologue(d, pos, length);
    ParseClient(d, p, h, length)
  }

  /** Will topic and message, and what the reader then thinks is left of the payload. */
  function ParseWill(d: Bytes, pos: nat, present: bool, left: int): (r: Parse<(Bytes, Bytes, int)>)
    requires pos <= |d|
    ensures r.pos <= |d|
  {
    if !present then Got(([], [], left), pos) else
    var (topic, p1) :- ParseString(d, pos);
    if left - |topic| < 0 then Failed(BadLength, p1) else
    var (msg, p2) :- ParseString(d, p1);
    Got((topic, msg, left - |topic| - |msg|), p2)
  }

  function ParseCredential(d: Bytes, pos: nat, present: bool, left: int): (r: Parse<(Bytes, int)>)
    requires pos <= |d|
    ensures r.pos <= |d|
  {
    if !present || left <= 0 then Got(([], left), pos) else
    var (text, p) :- ParseString(d, pos);
    if left - |text| < 0 then Failed(BadLength, p) else Got((text, left - |text|), p)
  }

  function ParsePublish(d: Bytes, pos: nat, qos: TwoBits, length: nat): (r: Parse<Variable>)
    requires pos <= |d|
    ensures r.pos <= |d|
  {
    var (topic, p1) :- ParseString(d, pos);
    var vlen := length - |topic| - 2;
    if |topic| < 1 || (qos > 0 && vlen < 2) then Failed(BadLength, p1)
    else if qos > 0 then
      var (mid, p2) :- ParseInt(d, p1);
      ParsePayload(d, p2, topic, mid, vlen - 2)
    else ParsePayload(d, p1, topic, 0, vlen)
  }

  function ParsePayload(d: Bytes, pos: nat, topic: Bytes, mid: nat, vlen: int): (r: Parse<Variable>)
    requires pos <= |d|
    ensures r.pos <= |d|
  {
    if vlen <= 0 then Got(Publish(topic, mid, []), pos) else
    var (msg, p) :- ParseFull(d, pos, vlen);
    Got(Publish(topic, mid, msg), p)
  }

  /** The SUBSCRIBE topic loop: a read that fails ends the loop without an error. */
  function ParseTopics(d: Bytes, pos: nat, vlen: int): (r: (seq<Topic>, nat))
    requires pos <= |d|
    ensures r.1 <= |d|
    decreases if vlen < 0 then 0 else vlen
  {
    if vlen <= 3 then ([], pos) else
    match ParseInt(d, pos)
    case Failed(_, p) => ([], p)
    case Got(n, p) =>
      if p + n >= |d| then ([], |d|) else
      var rest := ParseTopics(d, p + n + 1, vlen - 3 - n);
      ([Topic(Slice(d, p, n), d[p + n])] + rest.0, rest.1)
  }

  /** io.ReadFull with its error ignored: a short read leaves zero bytes. */
  function Padded(d: Bytes, pos: nat, n: nat): (Bytes, nat)
    requires pos <= |d|
  {
    if pos + n <= |d| then (Slice(d, pos, n), pos + n) else (Slice(d, pos, |d| - pos) + seq(n - (|d| - pos), _ => 0), |d|)
  }

  /** The UNSUBSCRIBE topic loop: only the read of a length can end it early. */
  function ParseNames(d: Bytes, pos: nat, vlen: int): (r: (seq<Bytes>, nat))
    requires pos <= |d|
    ensures r.1 <= |d|
    decreases if vlen < 0 then 0 else vlen
  {
    if vlen <= 3 then ([], pos) else
    match ParseInt(d, pos)
    case Failed(_, p) => ([], p)
    case Got(n, p) =>
      var name := Padded(d, p, n);
      var rest := ParseNames(d, name.1, vlen - 2 - n);
      ([name.0] + rest.0, rest.1)
  }

  function ParseBody(d: Bytes, pos: nat, msgType: Nibble, qos: TwoBits, length: nat): (r: Parse<Variable>)
    requires pos <= |d|
    ensures r.pos <= |d|
  {
    if msgType == CONNECT then ParseConnect(d, pos, length)
    else if msgType == PUBLISH then ParsePublish(d, pos, qos, length)
    else if PUBACK <= msgType <= PUBCOMP then
      if length != 2 then Failed(BadLength, pos) else
      var (mid, p) :- ParseInt(d, pos);
      Got(Puback(mid), p)
    else if msgType == SUBSCRIBE then
      var (mid, p) :- ParseInt(d, pos);
      var t := ParseTopics(d, p, length);
      Got(Subscribe(mid, t.0), t.1)
    else if msgType == SUBACK then
      if length != 3 then Failed(BadLength, pos) else
      var (mid, p1) :- ParseInt(d, pos);
      var (qos, p2) :- ParseByte(d, p1);
      Got(Suback(mid, qos), p2)
    else if msgType == UNSUBSCRIBE then
      var (mid, p) :- ParseInt(d, pos);
      var t := ParseNames(d, p, length);
      Got(Unsubscribe(mid, t.0), t.1)
    else if msgType == UNSUBACK then
      if length != 2 then Failed(BadLength, pos) else
      var (mid, p) :- ParseInt(d, pos);
      Got(Unsuback(mid), p)
    else if msgType == PINGREQ || msgType == DISCONNECT then Got(NoVariable, pos)
    else
      var (_, p) :- ParseFull(d, pos, length);
      Got(NoVariable, p)
  }

  datatype Header = Header(msgType: Nibble, dup: Bit, qos: TwoBits, retain: Bit, length: nat)

  function ParseHeader(d: Bytes, pos: nat, max: int): (r: Parse<Header>)
    requires pos <= |d|
    ensures r.pos <= |d|
  {
    var (fixed, p1) :- ParseByte(d, pos);
    var (b, p2) :- ParseByte(d, p1);
    var (length, p3) :- ParseLength(d, p2, b, 2, 1, 0);
    if length > max then Failed(TooLong, p3) else
    Got(Header(fixed / 16, (fixed % 16) / 8, (fixed % 8) / 2, fixed % 2, length), p3)
  }

  function ParsePack(d: Bytes, pos: nat, max: int): (r: Parse<Pack>)
    requires pos <= |d|
    ensures r.pos <= |d|
  {
    var (h, p1) :- ParseHeader(d, pos, max);
    var (variable, p2) :- ParseBody(d, p1, h.msgType, h.qos, h.length);
    Got(Pack(h.msgType, h.dup, h.qos, h.retain, h.length, variable), p2)
  }

  // ----- the writer's meaning

  /** How many lengths k encoded bytes can express. */
  function Pow128(k: nat): nat {
    if k == 0 then 1 else 128 * Pow128(k - 1)
  }

  function EncodeLength(n: nat): (r: Bytes)
    ensures |r| >= 1
  {
    if n < 128 then [n] else [128 + n % 128] + EncodeLength(n / 128)
  }

  /** binary.BigEndian.PutUint16 of uint16(i): the value modulo 65536. */
  function EncodeInt(i: int): (r: Bytes)
    ensures |r| == 2
  {
    [i % 65536 / 256, i % 256]
  }

  function EncodeString(s: Bytes): Bytes {
    EncodeInt(|s|) + s
  }

  function HeaderByte(p: Pack): Byte {
    p.msgType * 16 + p.dup * 8 + p.qos * 2
  }

  function PublishLength(qos: TwoBits, v: Variable): nat
    requires v.Publish?
  {
    (if qos > 0 then 4 else 2) + |v.topic| + |v.msg|
  }

  /** What a PUBLISH carries behind its topic: a message id unless at QoS 0, then the payload. */
  function PublishTail(qos: TwoBits, v: Variable): Bytes
    requires v.Publish?
  {
    if qos > 0 then EncodeInt(v.pmid) + v.msg else v.msg
  }

  function TopicBytes(t: Topic): Bytes {
    EncodeString(t.name) + [t.qos]
  }

  function EncodeTopics(topics: seq<Topic>): Bytes {
    if topics == [] then [] else TopicBytes(topics[0]) + EncodeTopics(topics[1..])
  }

  function EncodeNames(names: seq<Bytes>): Bytes {
    if names == [] then [] else EncodeString(names[0]) + EncodeNames(names[1..])
  }

  /** What follows the first byte; None when the writer panics: a variable part of another type, a nil
      topic, or a length that needs more than four bytes. */
  function EncodeBody(p: Pack): Option<Bytes> {
    var v := p.variable;
    if p.msgType == CONNACK then
      if v.Connack? then Some([2, v.reserved, v.returnCode]) else None
    else if p.msgType == PUBLISH then
      if v.Publish? && PublishLength(p.qos, v) < 268435456 then
        Some(EncodeLength(PublishLength(p.qos, v)) + (EncodeString(v.topic) + PublishTail(p.qos, v)))
      else None
    else if PUBACK <= p.msgType <= PUBCOMP then
      if v.Puback? then Some([2] + EncodeInt(v.amid)) else None
    else if p.msgType == SUBSCRIBE then
      if v.Subscribe? && |EncodeTopics(v.topics)| < 268435456 then
        Some([EncodeLength(|EncodeTopics(v.topics)|)[0]] + EncodeInt(v.smid) + EncodeTopics(v.topics))
      else None
    else if p.msgType == SUBACK then
      if v.Suback? then Some([3] + EncodeInt(v.bmid) + [v.qos]) else None
    else if p.msgType == UNSUBSCRIBE then
      if v.Unsubscribe? && |EncodeNames(v.names)| < 268435456 then
        Some([EncodeLength(|EncodeNames(v.names)|)[0]] + EncodeInt(v.umid) + EncodeNames(v.names))
      else None
    else if p.msgType == UNSUBACK then
      if v.Unsuback? then Some([2] + EncodeInt(v.vmid)) else None
    else if p.msgType == PINGRESP then Some([0])
    else Some([])
  }

  function EncodePack(p: Pack): Bytes {
    [HeaderByte(p)] + if EncodeBody(p).Some? then EncodeBody(p).value else []
  }

  /** The packs DelayWritePack panics on: a variable part of another type, or of a nil topic, or a length
      of 2^28 or more. */
  predicate Unwritable(p: Pack) {
    var v := p.variable;
    if p.msgType == CONNACK then !v.Connack?
    else if p.msgType == PUBLISH then !v.Publish? || PublishLength(p.qos, v) >= 268435456
    else if PUBACK <= p.msgType <= PUBCOMP then !v.Puback?
    else if p.msgType == SUBSCRIBE then !v.Subscribe? || |EncodeTopics(v.topics)| >= 268435456
    else if p.msgType == SUBACK then !v.Suback?
    else if p.msgType == UNSUBSCRIBE then !v.Unsubscribe? || |EncodeNames(v.names)| >= 268435456
    else p.msgType == UNSUBACK && !v.Unsuback?
  }
}
