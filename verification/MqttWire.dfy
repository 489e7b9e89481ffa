/** What the writer sends and what the reader skips, in the standard's own terms (OASIS MQTT 3.1.1,
    sections 2.2, 3.2 to 3.7, 3.9 and 3.11 to 3.14). */
module MqttWire {
  import opened Wrappers
  import opened Arithmetic
  import opened MqttCodec
  import opened MqttProofs
  import opened MqttFrames

  // ----- Remaining Length (section 2.2.3)

  /** The number that base-128 digits spell, least significant first; the top bit is no part of a digit. */
  function Base128(bs: Bytes): nat {
    if bs == [] then 0 else bs[0] % 128 + 128 * Base128(bs[1..])
  }

  /** The top bit is set on every byte but the last, and only there. */
  predicate Continued(bs: Bytes) {
    forall i :: 0 <= i < |bs| ==> (bs[i] >= 128 <==> i < |bs| - 1)
  }

  /** A Remaining Length field for n, without leading zero digits. */
  predicate Spells(bs: Bytes, n: nat) {
    |bs| >= 1 && Continued(bs) && Base128(bs) == n && (|bs| > 1 ==> bs[|bs| - 1] != 0)
  }

  /** What is written for a length spells that length. */
  lemma {:induction false} LengthSpells(n: nat)
    ensures Spells(EncodeLength(n), n)
  {
    var bs := EncodeLength(n);
    if n < 128 {
      assert bs[1..] == [];
    } else {
      var rest := EncodeLength(n / 128);
      LengthSpells(n / 128);
      assert bs[1..] == rest;
      assert bs[0] % 128 == n % 128;
      SpellsMore(128 + n % 128, rest, n / 128);
      if |rest| == 1 {
        assert rest[1..] == [];
      }
    }
  }

  lemma {:induction false} SpellsMore(b: Byte, rest: Bytes, n: nat)
    requires b >= 128 && Spells(rest, n)
    ensures Continued([b] + rest)
  {
    var bs := [b] + rest;
    forall i | 0 <= i < |bs|
      ensures bs[i] >= 128 <==> i < |bs| - 1
    {
      if i > 0 {
        assert bs[i] == rest[i - 1];
      }
    }
  }

  /** Below 128^k a length takes at most k bytes. */
  lemma {:induction false} LengthIsShort(n: nat, k: nat)
    requires k >= 1 && n < Pow128(k)
    ensures |EncodeLength(n)| <= k
    decreases k
  {
    assert Pow128(1) == 128 * Pow128(0) == 128;
    if n >= 128 {
      assert Pow128(k) == 128 * Pow128(k - 1);
      LengthIsShort(n / 128, k - 1);
    }
  }

  /** A field without leading zero digits is determined by its number: there is one way to write a length. */
  lemma {:induction false} OneSpelling(xs: Bytes, n: nat)
    requires Spells(xs, n)
    ensures xs == EncodeLength(n)
    decreases |xs|
  {
    var rest := xs[1..];
    assert n == xs[0] % 128 + 128 * Base128(rest);
    if rest == [] {
      assert xs[0] < 128;
    } else {
      assert xs[0] >= 128;
      assert Continued(rest) by {
        forall i | 0 <= i < |rest|
          ensures rest[i] >= 128 <==> i < |rest| - 1
        {
          assert rest[i] == xs[i + 1];
        }
      }
      assert rest[|rest| - 1] == xs[|xs| - 1];
      OneSpelling(rest, Base128(rest));
      NotZero(rest);
      assert n % 128 == xs[0] % 128 && n / 128 == Base128(rest);
      assert xs == [xs[0]] + rest;
    }
  }

  lemma {:induction false} NotZero(bs: Bytes)
    requires bs != [] && Continued(bs) && bs[|bs| - 1] != 0
    ensures Base128(bs) > 0
  {
    var rest := bs[1..];
    if rest == [] {
      assert bs[0] % 128 == bs[0];
    } else {
      assert Continued(rest) by {
        forall i | 0 <= i < |rest|
          ensures rest[i] >= 128 <==> i < |rest| - 1
        {
          assert rest[i] == bs[i + 1];
        }
      }
      assert rest[|rest| - 1] == bs[|bs| - 1];
      NotZero(rest);
    }
  }

  // ----- the written frame

  /** The two bytes at `at` are the low sixteen bits of i, the high byte first. */
  predicate BigEndian(bs: Bytes, at: nat, i: int) {
    at + 2 <= |bs| && var hi: int, lo: int := bs[at], bs[at + 1]; hi * 256 + lo == i % 65536
  }

  /** Type, duplicate flag and QoS in their bits; the retain bit is never set. */
  predicate FirstByteOf(b: Byte, p: Pack) {
    b / 16 == p.msgType && b / 8 % 2 == p.dup && b / 2 % 4 == p.qos && b % 2 == 0
  }

  /** The body of a PUBLISH: topic with its length, message id unless at QoS 0, payload. */
  predicate PublishBody(body: Bytes, qos: TwoBits, v: Variable)
    requires v.Publish?
  {
    var at := 2 + |v.topic|;
    && BigEndian(body, 0, |v.topic|) && at <= |body| && body[2..at] == v.topic
    && if qos == 0 then body[at..] == v.msg else BigEndian(body, at, v.pmid) && body[at + 2..] == v.msg
  }

  /** The types for which the writer sends the first byte and nothing more. */
  predicate Bodiless(t: Nibble) {
    t == 0 || t == CONNECT || t == PINGREQ || t == DISCONNECT || t == 15
  }

  /** The body of each kind of pack the server sends. */
  predicate BodyOf(body: Bytes, p: Pack)
    requires !Unwritable(p) && p.msgType != SUBSCRIBE && p.msgType != UNSUBSCRIBE && !Bodiless(p.msgType)
  {
    var v := p.variable;
    if p.msgType == CONNACK then body == [v.reserved, v.returnCode]
    else if p.msgType == PUBLISH then PublishBody(body, p.qos, v)
    else if p.msgType == SUBACK then |body| == 3 && BigEndian(body, 0, v.bmid) && body[2] == v.qos
    else if p.msgType == UNSUBACK then |body| == 2 && BigEndian(body, 0, v.vmid)
    else if p.msgType == PINGRESP then body == []
    else |body| == 2 && BigEndian(body, 0, v.amid)
  }

  /** One first byte, a Remaining Length of at most four bytes that spells the body's length, the body. */
  ghost predicate IsFrame(d: Bytes, p: Pack, length: Bytes, body: Bytes) {
    && |d| == 1 + |length| + |body| && FirstByteOf(d[0], p)
    && d[1..1 + |length|] == length && d[1 + |length|..] == body
    && Spells(length, |body|) && |length| <= 4
  }

  lemma {:induction false} IntBigEndian(i: int)
    ensures BigEndian(EncodeInt(i), 0, i)
  {
    LowBytes(i);
  }

  lemma {:induction false} BigEndianIn(bs: Bytes, at: nat, before: Bytes, i: int, after: Bytes)
    requires bs == before + EncodeInt(i) + after && |before| == at
    ensures BigEndian(bs, at, i)
  {
    IntBigEndian(i);
    assert bs[at] == EncodeInt(i)[0] && bs[at + 1] == EncodeInt(i)[1];
  }

  lemma {:induction false} FirstByteBits(p: Pack)
    ensures FirstByteOf(HeaderByte(p), p)
  {
  }

  lemma {:induction false} ComposeFrame(p: Pack, body: Bytes)
    requires |body| < 268435456
    ensures IsFrame([HeaderByte(p)] + (EncodeLength(|body|) + body), p, EncodeLength(|body|), body)
  {
    FirstByteBits(p);
    LengthSpells(|body|);
    assert Pow128(4) == 128 * Pow128(3) == 128 * (128 * Pow128(2)) == 128 * (128 * (128 * Pow128(1)));
    LengthIsShort(|body|, 4);
    var length := EncodeLength(|body|);
    var d := [HeaderByte(p)] + (length + body);
    assert d[1..1 + |length|] == length && d[1 + |length|..] == body;
  }

  lemma {:induction false} PublishIsBody(qos: TwoBits, v: Variable)
    requires v.Publish?
    ensures PublishBody(EncodeString(v.topic) + PublishTail(qos, v), qos, v)
    ensures |EncodeString(v.topic) + PublishTail(qos, v)| == PublishLength(qos, v)
  {
    var body, at := EncodeString(v.topic) + PublishTail(qos, v), 2 + |v.topic|;
    assert body == [] + EncodeInt(|v.topic|) + (v.topic + PublishTail(qos, v));
    BigEndianIn(body, 0, [], |v.topic|, v.topic + PublishTail(qos, v));
    assert body[2..at] == v.topic;
    if qos > 0 {
      assert body == EncodeString(v.topic) + EncodeInt(v.pmid) + v.msg;
      BigEndianIn(body, at, EncodeString(v.topic), v.pmid, v.msg);
    }
  }

  /** The body the writer puts behind the length. */
  lemma {:induction false} WrittenBody(p: Pack) returns (body: Bytes)
    requires !Unwritable(p) && p.msgType != SUBSCRIBE && p.msgType != UNSUBSCRIBE && !Bodiless(p.msgType)
    ensures BodyOf(body, p) && |body| < 268435456
    ensures EncodePack(p) == [HeaderByte(p)] + (EncodeLength(|body|) + body)
  {
    var v := p.variable;
    if p.msgType == CONNACK {
      body := [v.reserved, v.returnCode];
    } else if p.msgType == PUBLISH {
      body := EncodeString(v.topic) + PublishTail(p.qos, v);
      PublishIsBody(p.qos, v);
    } else if p.msgType == PINGRESP {
      body := [];
    } else if p.msgType == SUBACK {
      body := EncodeInt(v.bmid) + [v.qos];
      IntBigEndian(v.bmid);
    } else if p.msgType == UNSUBACK {
      body := EncodeInt(v.vmid);
      IntBigEndian(v.vmid);
    } else {
      body := EncodeInt(v.amid);
      IntBigEndian(v.amid);
    }
  }

  /** Every pack the writer accepts, apart from the two list types, is sent as a frame with the body of
      its type if and only if the writer knows a body for its type; for the other types one byte is sent,
      which is no frame. */
  lemma {:induction false} FrameLaw(p: Pack)
    requires !Unwritable(p) && p.msgType != SUBSCRIBE && p.msgType != UNSUBSCRIBE
    ensures !Bodiless(p.msgType) ==> exists length, body :: IsFrame(EncodePack(p), p, length, body) && BodyOf(body, p)
    ensures Bodiless(p.msgType) ==> |EncodePack(p)| == 1 && FirstByteOf(EncodePack(p)[0], p)
    ensures Bodiless(p.msgType) ==> !exists length, body :: IsFrame(EncodePack(p), p, length, body)
  {
    if Bodiless(p.msgType) {
      FirstByteBits(p);
    } else {
      var body := WrittenBody(p);
      ComposeFrame(p, body);
    }
  }

  /** The four bytes of every CONNACK and the two of every PINGRESP. */
  lemma {:induction false} ConnackBytes(p: Pack)
    requires p.msgType == CONNACK && p.dup == 0 && p.qos == 0 && p.variable.Connack?
    ensures EncodePack(p) == [0x20, 2, p.variable.reserved, p.variable.returnCode]
  {
  }

  lemma {:induction false} PingrespBytes(p: Pack)
    requires p.msgType == PINGRESP && p.dup == 0 && p.qos == 0
    ensures EncodePack(p) == [0xD0, 0]
  {
  }

  // ----- frames whose body the reader does not look into

  /** The types whose body is skipped, whatever it is. */
  predicate Skipped(t: Nibble) {
    t == 0 || t == CONNACK || t == PINGRESP || t == 15
  }

  /** A frame of a skipped type is taken whole, and its body is dropped. */
  lemma {:induction false} SkippedFrame(d: Bytes, pos: nat, p: Pack, body: Bytes, max: int)
    requires Skipped(p.msgType) && At(d, pos, FrameBytes(p, body)) && Fits(body, max)
    ensures ParsePack(d, pos, max)
            == Got(Pack(p.msgType, p.dup, p.qos, 0, |body|, NoVariable), pos + |FrameBytes(p, body)|)
  {
    var at := FrameAt(d, pos, p, body, max);
    FullAt(d, at, body);
    PackOf(d, pos, max, at, HeaderOf(p, |body|), Got(NoVariable, at + |body|));
  }

  /** A PINGREQ or DISCONNECT frame is recognised, and exactly the frame is taken if and only if it has
      no body: the reader leaves a body in the stream, to be read as the next frame. */
  lemma {:induction false} SignalFrame(d: Bytes, pos: nat, p: Pack, body: Bytes, max: int)
    requires (p.msgType == PINGREQ || p.msgType == DISCONNECT) && At(d, pos, FrameBytes(p, body)) && Fits(body, max)
    ensures var r := ParsePack(d, pos, max);
            && r == Got(Pack(p.msgType, p.dup, p.qos, 0, |body|, NoVariable), pos + |FrameBytes(p, body)| - |body|)
            && (r.pos == pos + |FrameBytes(p, body)| <==> body == [])
  {
    var at := FrameAt(d, pos, p, body, max);
    PackOf(d, pos, max, at, HeaderOf(p, |body|), Got(NoVariable, at));
  }

  // ----- what the reader refuses

  predicate IsAck(t: Nibble) {
    PUBACK <= t <= PUBCOMP || t == SUBACK || t == UNSUBACK
  }

  /** The message id an acknowledgement was read with. */
  function IdOf(v: Variable): int
    requires v.Puback? || v.Suback? || v.Unsuback?
  {
    match v
    case Puback(mid) => mid
    case Suback(mid, _) => mid
    case Unsuback(mid) => mid
  }

  /** An acknowledgement of its type, with the id and, for a SUBACK, the QoS that its body says. */
  predicate AckOf(v: Variable, t: Nibble, body: Bytes)
    requires IsAck(t)
  {
    && (if t == SUBACK then v.Suback? else if t == UNSUBACK then v.Unsuback? else v.Puback?)
    && 0 <= IdOf(v) < 65536 && BigEndian(body, 0, IdOf(v)) && (t == SUBACK ==> |body| == 3 && v.qos == body[2])
  }

  lemma {:induction false} AckBody(d: Bytes, at: nat, t: Nibble, qos: TwoBits, body: Bytes)
    requires IsAck(t) && At(d, at, body)
    ensures var r := ParseBody(d, at, t, qos, |body|);
            if |body| == (if t == SUBACK then 3 else 2) then r.Got? && r.pos == at + |body| && AckOf(r.value, t, body)
            else r == Failed(BadLength, at)
  {
    if |body| >= 2 {
      assert d[at + 0] == body[0] && d[at + 1] == body[1];
    }
    if |body| >= 3 {
      assert d[at + 2] == body[2];
    }
  }

  /** Any frame of an acknowledgement type is taken, whole and with what its body says, if and only if the
      body has the one length that the type allows. */
  lemma {:induction false} AckFrame(d: Bytes, pos: nat, p: Pack, body: Bytes, max: int)
    requires IsAck(p.msgType) && At(d, pos, FrameBytes(p, body)) && Fits(body, max)
    ensures var r := ParsePack(d, pos, max);
            if |body| == (if p.msgType == SUBACK then 3 else 2)
            then && r.Got? && r.pos == pos + |FrameBytes(p, body)| && AckOf(r.value.variable, p.msgType, body)
                 && r.value.msgType == p.msgType && r.value.length == |body|
            else r.Failed? && r.error == BadLength
  {
    var at := FrameAt(d, pos, p, body, max);
    AckBody(d, at, p.msgType, p.qos, body);
    PackOf(d, pos, max, at, HeaderOf(p, |body|), ParseBody(d, at, p.msgType, p.qos, |body|));
  }

  /** The texts behind the identifier fit what the reader thinks is left of the frame. */
  predicate EpilogueFits(f: ConnectFlags, t: Epilogue, left: int) {
    && (if f.will then |t.willTopic| <= left else t.willTopic == [] && t.willMsg == [])
    && (t.uname != [] ==> f.userName && |t.willTopic| + |t.willMsg| + |t.uname| <= left)
    && (t.upassword != [] ==> f.password && |t.willTopic| + |t.willMsg| + |t.uname| + |t.upassword| <= left)
  }

  lemma {:induction false} EpilogueAccepted(d: Bytes, pos: nat, f: ConnectFlags, left: int)
    requires pos <= |d| && ParseEpilogue(d, pos, f, left).Got?
    ensures EpilogueFits(f, ParseEpilogue(d, pos, f, left).value, left)
  {
    var w := ParseWill(d, pos, f.will, left);
    assert w.Got? && (f.will ==> |w.value.0| <= left) && w.value.2 == left - |w.value.0| - |w.value.1|;
    var u := ParseCredential(d, w.pos, f.userName, w.value.2);
    assert u.Got?;
  }

  /** When the will has used up what the reader thinks is left, user name and password are not read,
      whatever the flags say. */
  lemma {:induction false} NothingLeft(d: Bytes, pos: nat, f: ConnectFlags, left: int)
    requires pos <= |d| && ParseWill(d, pos, f.will, left).Got?
    ensures var w := ParseWill(d, pos, f.will, left);
            w.value.2 <= 0 ==> ParseEpilogue(d, pos, f, left) == Got(Epilogue(w.value.0, w.value.1, [], []), w.pos)
  {
  }

  /** Whatever bytes come: a CONNECT body that is accepted declares a length that covers its protocol
      name, has an identifier of 1 to 64 bytes, and its texts fit the declared length. */
  lemma {:induction false} ConnectAccepted(d: Bytes, pos: nat, length: nat)
    requires pos <= |d| && ParseConnect(d, pos, length).Got?
    ensures var v := ParseConnect(d, pos, length).value;
            && v.Connect? && |v.protocol| + 4 <= length && 1 <= |v.id| <= 64
            && EpilogueFits(v.flags, EpilogueOf(v), length - 6 - |v.protocol| - |v.id|)
  {
    var h := ParsePrologue(d, pos, length);
    assert h.Got? && |h.value.protocol| + 4 <= length;
    var id := ParseString(d, h.pos);
    assert id.Got?;
    EpilogueAccepted(d, id.pos, h.value.flags, length - 6 - |h.value.protocol| - |id.value|);
  }

  /** Whatever bytes come: a PUBLISH body that is accepted names a topic, has room for its message id, and
      carries exactly the bytes of the declared length that topic and id leave, if any. */
  lemma {:induction false} PublishAccepted(d: Bytes, pos: nat, qos: TwoBits, length: nat)
    requires pos <= |d| && ParsePublish(d, pos, qos, length).Got?
    ensures var v := ParsePublish(d, pos, qos, length).value;
            && v.Publish? && v.topic != []
            && var rest := length - 2 - |v.topic| - (if qos > 0 then 2 else 0);
               (qos > 0 ==> rest >= 0) && |v.msg| == (if rest > 0 then rest else 0) && (qos == 0 ==> v.pmid == 0)
  {
    var topic := ParseString(d, pos);
    assert topic.Got?;
    if qos > 0 {
      assert ParseInt(d, topic.pos).Got?;
    }
  }
}
