/** ReadPack step by step: each method moves the cursor of a bufio.Reader as its specification says. */
module MqttReader {
  import opened Wrappers
  import opened MqttCodec

  class Reader {
    const data: Bytes
    var pos: nat

    ghost predicate Valid()
      reads this
    {
      pos <= |data|
    }

    constructor (data: Bytes)
      ensures Valid() && this.data == data && pos == 0
    {
      this.data := data;
      pos := 0;
    }

    method ReadByte() returns (r: Parse<Byte>)
      requires Valid()
      modifies this
      ensures Valid() && r == ParseByte(data, old(pos)) && pos == r.pos
    {
      if pos < |data| {
        r := Got(data[pos], pos + 1);
        pos := pos + 1;
      } else {
        r := Failed(EndOfStream, pos);
      }
    }

    method ReadFull(n: nat) returns (r: Parse<Bytes>)
      requires Valid()
      modifies this
      ensures Valid() && r == ParseFull(data, old(pos), n) && pos == r.pos
    {
      if pos + n <= |data| {
        var bytes := data[pos..pos + n];
        assert bytes == Slice(data, pos, n);
        r := Got(bytes, pos + n);
        pos := pos + n;
      } else {
        r := Failed(EndOfStream, |data|);
        pos := |data|;
      }
    }

    method ReadInt() returns (r: Parse<nat>)
      requires Valid()
      modifies this
      ensures Valid() && r == ParseInt(data, old(pos)) && pos == r.pos
    {
      var b := ReadFull(2);
      match b {
        case Failed(e, p) => r := Failed(e, p);
        case Got(bytes, p) =>
          var hi: int, lo: int := bytes[0], bytes[1];
          r := Got(hi * 256 + lo, p);
      }
    }

    method ReadString() returns (r: Parse<Bytes>)
      requires Valid()
      modifies this
      ensures Valid() && r == ParseString(data, old(pos)) && pos == r.pos
    {
      var n := ReadInt();
      if n.Failed? {
        r := Failed(n.error, n.pos);
      } else if n.value > 0 {
        r := ReadFull(n.value);
      } else {
        r := Got([], pos);
      }
    }

    /** The length loop, entered with its first byte. */
    method ReadLength(first: Byte) returns (r: Parse<nat>)
      requires Valid()
      modifies this
      ensures Valid() && r == ParseLength(data, old(pos), first, 2, 1, 0) && pos == r.pos
    {
      var b: Byte := first;
      var count: nat, multiplier: nat, sum: nat := 1, 1, 0;
      while true
        invariant Valid() && 1 <= count <= 3
        invariant ParseLength(data, pos, b, count + 1, multiplier, sum) == ParseLength(data, old(pos), first, 2, 1, 0)
        decreases 3 - count
      {
        count := count + 1;
        ghost var before := sum;
        sum := sum + (b % 128) * multiplier;
        if b / 128 != 0 && count < 4 {
          ghost var at: nat, was: Byte := pos, b;
          var next := ReadByte();
          if next.Failed? {
            return Failed(next.error, next.pos);
          }
          assert ParseLength(data, at, was, count, multiplier, before)
              == ParseLength(data, pos, next.value, count + 1, multiplier * 128, sum);
          b := next.value;
          multiplier := multiplier * 128;
        } else {
          return Got(sum, pos);
        }
      }
    }

    method ReadPrologue(length: nat) returns (r: Parse<Prologue>)
      requires Valid()
      modifies this
      ensures Valid() && r == ParsePrologue(data, old(pos), length) && pos == r.pos
    {
      var protocol := ReadString();
      if protocol.Failed? {
        return Failed(protocol.error, protocol.pos);
      }
      if |protocol.value| > length - 4 {
        return Failed(BadLength, pos);
      }
      var version := ReadByte();
      if version.Failed? {
        return Failed(version.error, version.pos);
      }
      var flags := ReadByte();
      if flags.Failed? {
        return Failed(flags.error, flags.pos);
      }
      var keepAlive := ReadInt();
      if keepAlive.Failed? {
        return Failed(keepAlive.error, keepAlive.pos);
      }
      r := Got(Prologue(protocol.value, version.value, ParseFlags(flags.value), keepAlive.value), pos);
    }

    method ReadWill(present: bool, left: int) returns (r: Parse<(Bytes, Bytes, int)>)
      requires Valid()
      modifies this
      ensures Valid() && r == ParseWill(data, old(pos), present, left) && pos == r.pos
    {
      if !present {
        return Got(([], [], left), pos);
      }
      var topic := ReadString();
      if topic.Failed? {
        return Failed(topic.error, topic.pos);
      }
      if left - |topic.value| < 0 {
        return Failed(BadLength, pos);
      }
      var msg := ReadString();
      if msg.Failed? {
        return Failed(msg.error, msg.pos);
      }
      r := Got((topic.value, msg.value, left - |topic.value| - |msg.value|), pos);
    }

    method ReadCredential(present: bool, left: int) returns (r: Parse<(Bytes, int)>)
      requires Valid()
      modifies this
      ensures Valid() && r == ParseCredential(data, old(pos), present, left) && pos == r.pos
    {
      if !present || left <= 0 {
        return Got(([], left), pos);
      }
      var text := ReadString();
      if text.Failed? {
        return Failed(text.error, text.pos);
      }
      if left - |text.value| < 0 {
        return Failed(BadLength, pos);
      }
      r := Got((text.value, left - |text.value|), pos);
    }

    method ReadEpilogue(flags: ConnectFlags, left: int) returns (r: Parse<Epilogue>)
      requires Valid()
      modifies this
      ensures Valid() && r == ParseEpilogue(data, old(pos), flags, left) && pos == r.pos
    {
      var w := ReadWill(flags.will, left);
      if w.Failed? {
        return Failed(w.error, w.pos);
      }
      var u := ReadCredential(flags.userName, w.value.2);
      if u.Failed? {
        return Failed(u.error, u.pos);
      }
      var pw := ReadCredential(flags.password, u.value.1);
      if pw.Failed? {
        return Failed(pw.error, pw.pos);
      }
      r := Got(Epilogue(w.value.0, w.value.1, u.value.0, pw.value.0), pos);
    }

    method ReadClient(h: Prologue, length: nat) returns (r: Parse<Variable>)
      requires Valid()
      modifies this
      ensures Valid() && r == ParseClient(data, old(pos), h, length) && pos == r.pos
    {
      var id := ReadString();
      if id.Failed? {
        return Failed(id.error, id.pos);
      }
      if |id.value| > 64 || |id.value| < 1 {
        return Failed(IdentifierRejected, pos);
      }
      var t := ReadEpilogue(h.flags, length - 2 - |h.protocol| - 4 - |id.value|);
      if t.Failed? {
        return Failed(t.error, t.pos);
      }
      r := Got(Connect(h.protocol, h.version, h.keepAlive, h.flags, id.value,
                       t.value.willTopic, t.value.willMsg, t.value.uname, t.value.upassword), pos);
    }

    method ReadConnect(length: nat) returns (r: Parse<Variable>)
      requires Valid()
      modifies this
      ensures Valid() && r == ParseConnect(data, old(pos), length) && pos == r.pos
    {
      var h := ReadPrologue(length);
      if h.Failed? {
        return Failed(h.error, h.pos);
      }
      r := ReadClient(h.value, length);
    }

    method ReadPayload(topic: Bytes, mid: nat, vlen: int) returns (r: Parse<Variable>)
      requires Valid()
      modifies this
      ensures Valid() && r == ParsePayload(data, old(pos), topic, mid, vlen) && pos == r.pos
    {
      if vlen <= 0 {
        return Got(Publish(topic, mid, []), pos);
      }
      var msg := ReadFull(vlen);
      if msg.Failed? {
        return Failed(msg.error, msg.pos);
      }
      r := Got(Publish(topic, mid, msg.value), pos);
    }

    method ReadPublish(qos: TwoBits, length: nat) returns (r: Parse<Variable>)
      requires Valid()
      modifies this
      ensures Valid() && r == ParsePublish(data, old(pos), qos, length) && pos == r.pos
    {
      var topic := ReadString();
      if topic.Failed? {
        return Failed(topic.error, topic.pos);
      }
      var vlen := length - |topic.value| - 2;
      if |topic.value| < 1 {
        return Failed(BadLength, pos);
      }
      if qos > 0 {
        if vlen < 2 {
          return Failed(BadLength, pos);
        }
        var mid := ReadInt();
        if mid.Failed? {
          return Failed(mid.error, mid.pos);
        }
        r := ReadPayload(topic.value, mid.value, vlen - 2);
      } else {
        r := ReadPayload(topic.value, 0, vlen);
      }
    }

    /** One pass of the topic loop; None ends it. */
    method ReadTopic() returns (r: Option<Topic>)
      requires Valid()
      modifies this
      ensures Valid()
      ensures var n := ParseInt(data, old(pos));
              if n.Got? && n.pos + n.value < |data|
              then r == Some(Topic(Slice(data, n.pos, n.value), data[n.pos + n.value])) && pos == n.pos + n.value + 1
              else r == None && pos == |data|
    {
      var n := ReadInt();
      if n.Failed? {
        return None;
      }
      var name := ReadFull(n.value);
      var qos := ReadByte();
      if qos.Failed? {
        return None;
      }
      assert name.Got?;
      r := Some(Topic(name.value, qos.value));
    }

    method ReadTopics(length: nat) returns (topics: seq<Topic>)
      requires Valid()
      modifies this
      ensures Valid() && (topics, pos) == ParseTopics(data, old(pos), length)
    {
      topics := [];
      var vlen: int := length;
      ghost var rest := ParseTopics(data, pos, vlen);
      assert topics + rest.0 == rest.0;
      while vlen > 3
        invariant Valid() && rest == ParseTopics(data, pos, vlen)
        invariant (topics + rest.0, rest.1) == ParseTopics(data, old(pos), length)
        decreases vlen
      {
        var t := ReadTopic();
        if t.None? {
          assert topics + rest.0 == topics;
          return;
        }
        vlen := vlen - 2 - |t.value.name| - 1;
        ghost var next := ParseTopics(data, pos, vlen);
        assert rest == ([t.value] + next.0, next.1);
        assert topics + rest.0 == (topics + [t.value]) + next.0;
        topics, rest := topics + [t.value], next;
      }
      assert topics + rest.0 == topics;
    }

    /** One pass of the name loop; None ends it. */
    method ReadName() returns (r: Option<Bytes>)
      requires Valid()
      modifies this
      ensures Valid()
      ensures var n := ParseInt(data, old(pos));
              if n.Got? then r == Some(Padded(data, n.pos, n.value).0) && pos == Padded(data, n.pos, n.value).1
              else r == None && pos == n.pos
    {
      var n := ReadInt();
      if n.Failed? {
        return None;
      }
      var tail := data[pos..];
      assert tail == Slice(data, pos, |data| - pos);
      var name := ReadFull(n.value);
      r := Some(if name.Got? then name.value else tail + seq(n.value - |tail|, _ => 0));
    }

    method ReadNames(length: nat) returns (names: seq<Bytes>)
      requires Valid()
      modifies this
      ensures Valid() && (names, pos) == ParseNames(data, old(pos), length)
    {
      names := [];
      var vlen: int := length;
      ghost var rest := ParseNames(data, pos, vlen);
      assert names + rest.0 == rest.0;
      while vlen > 3
        invariant Valid() && rest == ParseNames(data, pos, vlen)
        invariant (names + rest.0, rest.1) == ParseNames(data, old(pos), length)
        decreases vlen
      {
        var name := ReadName();
        if name.None? {
          assert names + rest.0 == names;
          return;
        }
        vlen := vlen - 2 - |name.value|;
        ghost var next := ParseNames(data, pos, vlen);
        assert rest == ([name.value] + next.0, next.1);
        assert names + rest.0 == (names + [name.value]) + next.0;
        names, rest := names + [name.value], next;
      }
      assert names + rest.0 == names;
    }

    method ReadAck(msgType: Nibble, qos: TwoBits, length: nat) returns (r: Parse<Variable>)
      requires Valid() && (PUBACK <= msgType <= PUBCOMP || msgType == SUBACK || msgType == UNSUBACK)
      modifies this
      ensures Valid() && r == ParseBody(data, old(pos), msgType, qos, length) && pos == r.pos
    {
      if length != (if msgType == SUBACK then 3 else 2) {
        return Failed(BadLength, pos);
      }
      var mid := ReadInt();
      if mid.Failed? {
        return Failed(mid.error, mid.pos);
      }
      if msgType == SUBACK {
        var granted := ReadByte();
        if granted.Failed? {
          return Failed(granted.error, granted.pos);
        }
        r := Got(Suback(mid.value, granted.value), pos);
      } else {
        r := Got(if msgType == UNSUBACK then Unsuback(mid.value) else Puback(mid.value), pos);
      }
    }

    method ReadList(msgType: Nibble, qos: TwoBits, length: nat) returns (r: Parse<Variable>)
      requires Valid() && (msgType == SUBSCRIBE || msgType == UNSUBSCRIBE)
      modifies this
      ensures Valid() && r == ParseBody(data, old(pos), msgType, qos, length) && pos == r.pos
    {
      var mid := ReadInt();
      if mid.Failed? {
        return Failed(mid.error, mid.pos);
      }
      if msgType == SUBSCRIBE {
        var topics := ReadTopics(length);
        r := Got(Subscribe(mid.value, topics), pos);
      } else {
        var names := ReadNames(length);
        r := Got(Unsubscribe(mid.value, names), pos);
      }
    }

    /** The variable header and payload, by message type. */
    method ReadBody(msgType: Nibble, qos: TwoBits, length: nat) returns (r: Parse<Variable>)
      requires Valid()
      modifies this
      ensures Valid() && r == ParseBody(data, old(pos), msgType, qos, length) && pos == r.pos
    {
      if msgType == CONNECT {
        r := ReadConnect(length);
      } else if msgType == PUBLISH {
        r := ReadPublish(qos, length);
      } else if PUBACK <= msgType <= PUBCOMP || msgType == SUBACK || msgType == UNSUBACK {
        r := ReadAck(msgType, qos, length);
      } else if msgType == SUBSCRIBE || msgType == UNSUBSCRIBE {
        r := ReadList(msgType, qos, length);
      } else if msgType == PINGREQ || msgType == DISCONNECT {
        r := Got(NoVariable, pos);
      } else {
        var skipped := ReadFull(length);
        r := if skipped.Failed? then Failed(skipped.error, skipped.pos) else Got(NoVariable, skipped.pos);
      }
    }

    method ReadHeader(max: int) returns (r: Parse<Header>)
      requires Valid()
      modifies this
      ensures Valid() && r == ParseHeader(data, old(pos), max) && pos == r.pos
    {
      var fixed := ReadByte();
      if fixed.Failed? {
        return Failed(fixed.error, fixed.pos);
      }
      var first := ReadByte();
      if first.Failed? {
        return Failed(first.error, first.pos);
      }
      var length := ReadLength(first.value);
      if length.Failed? {
        return Failed(length.error, length.pos);
      }
      if length.value > max {
        return Failed(TooLong, pos);
      }
      var f := fixed.value;
      r := Got(Header(f / 16, (f % 16) / 8, (f % 8) / 2, f % 2, length.value), pos);
    }

    method ReadPack(max: int) returns (r: Parse<Pack>)
      requires Valid()
      modifies this
      ensures Valid() && r == ParsePack(data, old(pos), max) && pos == r.pos
    {
      var h := ReadHeader(max);
      if h.Failed? {
        return Failed(h.error, h.pos);
      }
      var v := ReadBody(h.value.msgType, h.value.qos, h.value.length);
      if v.Failed? {
        return Failed(v.error, v.pos);
      }
      r := Got(Pack(h.value.msgType, h.value.dup, h.value.qos, h.value.retain, h.value.length, v.value), pos);
    }
  }
}
