/** DelayWritePack step by step: each method appends to a bufio.Writer what its specification says. */
module MqttWriter {
  import opened Wrappers
  import opened MqttCodec

  /** The source fills a four-byte array and slices it; a fifth digit is an index out of range, here None. */
  method RemainingLength(length: nat) returns (r: Option<Bytes>)
    ensures r == if length < 268435456 then Some(EncodeLength(length)) else None
  {
    var b: array<Byte> := new Byte[4](_ => 0);
    var n: nat, count: nat := length, 0;
    assert Pow128(4) == 128 * Pow128(3) == 128 * (128 * Pow128(2)) == 128 * (128 * (128 * Pow128(1))) == 268435456;
    while true
      invariant count <= 4 && (count > 0 ==> n > 0)
      invariant n < Pow128(4 - count) <==> length < Pow128(4)
      invariant b[..count] + EncodeLength(n) == EncodeLength(length)
      decreases 4 - count
    {
      if count == 4 {
        return None;
      }
      assert Pow128(4 - count) == 128 * Pow128(4 - count - 1);
      var digit := n % 128;
      var rest := n / 128;
      ghost var done := b[..count];
      if rest > 0 {
        b[count] := digit + 128;
        assert b[..count + 1] + EncodeLength(rest) == done + EncodeLength(n);
      } else {
        b[count] := digit;
        assert b[..count + 1] == done + EncodeLength(n);
        return Some(b[..count + 1]);
      }
      n := rest;
      count := count + 1;
    }
  }

  /** What came of a call: all written, an error of the connection, or a panic. */
  datatype Outcome = Written | Broken | Panicked

  /** Bytes were written to a connection that takes `room` more of them before it fails. */
  predicate Wrote(before: Bytes, room: nat, bytes: Bytes, after: Bytes, left: nat, ok: bool) {
    && ok == (|bytes| <= room)
    && after == before + (if ok then bytes else bytes[..room]) && left == if ok then room - |bytes| else 0
  }

  /** One write, then another: both together. */
  lemma {:induction false} Then(x: Bytes, room: nat, a: Bytes, y: Bytes, left: nat, b: Bytes, z: Bytes, rest: nat, ok: bool)
    requires Wrote(x, room, a, y, left, true) && Wrote(y, left, b, z, rest, ok)
    ensures Wrote(x, room, a + b, z, rest, ok)
  {
    if ok {
      assert x + (a + b) == (x + a) + b;
    } else {
      assert (a + b)[..room] == a + b[..left];
      assert x + (a + b[..left]) == (x + a) + b[..left];
    }
  }

  /** A write that failed is as far as any longer one gets. */
  lemma {:induction false} Stops(x: Bytes, room: nat, a: Bytes, y: Bytes, left: nat, b: Bytes)
    requires Wrote(x, room, a, y, left, false)
    ensures Wrote(x, room, a + b, y, left, false)
  {
    assert (a + b)[..room] == a[..room];
  }

  /** The bufio.Writer and the connection behind it, which takes `room` more bytes; the error of a write
      that goes further stays with the writer. */
  class Writer {
    var out: Bytes
    var room: nat

    constructor (room: nat)
      ensures out == [] && this.room == room
    {
      out, this.room := [], room;
    }

    twostate predicate Adds(bytes: Bytes, ok: bool)
      reads this
    {
      Wrote(old(out), old(room), bytes, out, room, ok)
    }

    method WriteFull(bytes: Bytes) returns (ok: bool)
      modifies this
      ensures Adds(bytes, ok)
    {
      ok := |bytes| <= room;
      if ok {
        out, room := out + bytes, room - |bytes|;
      } else {
        out, room := out + bytes[..room], 0;
      }
    }

    method WriteByte(b: Byte) returns (ok: bool)
      modifies this
      ensures Adds([b], ok)
    {
      ok := WriteFull([b]);
    }

    method WriteInt(i: int) returns (ok: bool)
      modifies this
      ensures Adds(EncodeInt(i), ok)
    {
      ok := WriteFull(EncodeInt(i));
    }

    /** Two pieces, the second only when the first went through. */
    method WriteBoth(a: Bytes, b: Bytes) returns (ok: bool)
      modifies this
      ensures Adds(a + b, ok)
    {
      ok := WriteFull(a);
      if !ok {
        Stops(old(out), old(room), a, out, room, b);
        return;
      }
      ghost var y, left := out, room;
      ok := WriteFull(b);
      Then(old(out), old(room), a, y, left, b, out, room, ok);
    }

    method WriteString(s: Bytes) returns (ok: bool)
      modifies this
      ensures Adds(EncodeString(s), ok)
    {
      ok := WriteInt(|s|);
      if !ok {
        Stops(old(out), old(room), EncodeInt(|s|), out, room, s);
        return;
      }
      ghost var y, left := out, room;
      ok := WriteFull(s);
      Then(old(out), old(room), EncodeInt(|s|), y, left, s, out, room, ok);
    }

    method WriteTail(qos: TwoBits, v: Variable) returns (ok: bool)
      requires v.Publish?
      modifies this
      ensures Adds(PublishTail(qos, v), ok)
    {
      if qos > 0 {
        ok := WriteBoth(EncodeInt(v.pmid), v.msg);
      } else {
        ok := WriteFull(v.msg);
      }
    }

    method WriteTopicAndTail(qos: TwoBits, v: Variable) returns (ok: bool)
      requires v.Publish?
      modifies this
      ensures Adds(EncodeString(v.topic) + PublishTail(qos, v), ok)
    {
      ok := WriteString(v.topic);
      if !ok {
        Stops(old(out), old(room), EncodeString(v.topic), out, room, PublishTail(qos, v));
        return;
      }
      ghost var y, left := out, room;
      ok := WriteTail(qos, v);
      Then(old(out), old(room), EncodeString(v.topic), y, left, PublishTail(qos, v), out, room, ok);
    }

    method WritePublish(qos: TwoBits, v: Variable) returns (r: Outcome)
      requires v.Publish?
      modifies this
      ensures r.Panicked? <==> PublishLength(qos, v) >= 268435456
      ensures if r.Panicked? then out == old(out) && room == old(room)
              else Adds(EncodeLength(PublishLength(qos, v)) + (EncodeString(v.topic) + PublishTail(qos, v)), r.Written?)
    {
      var length := RemainingLength((if qos > 0 then 4 else 2) + |v.topic| + |v.msg|);
      if length.None? {
        return Panicked;
      }
      ghost var body := EncodeString(v.topic) + PublishTail(qos, v);
      var ok := WriteFull(length.value);
      if !ok {
        Stops(old(out), old(room), length.value, out, room, body);
        return Broken;
      }
      ghost var y, left := out, room;
      ok := WriteTopicAndTail(qos, v);
      Then(old(out), old(room), length.value, y, left, body, out, room, ok);
      r := if ok then Written else Broken;
    }

    method WriteTopic(t: Topic) returns (ok: bool)
      modifies this
      ensures Adds(TopicBytes(t), ok)
    {
      ok := WriteString(t.name);
      if !ok {
        Stops(old(out), old(room), EncodeString(t.name), out, room, [t.qos]);
        return;
      }
      ghost var y, left := out, room;
      ok := WriteByte(t.qos);
      Then(old(out), old(room), EncodeString(t.name), y, left, [t.qos], out, room, ok);
    }

    method WriteAllTopics(topics: seq<Topic>) returns (ok: bool)
      modifies this
      ensures Adds(EncodeTopics(topics), ok)
    {
      ghost var done: Bytes := [];
      for i := 0 to |topics|
        invariant done + EncodeTopics(topics[i..]) == EncodeTopics(topics)
        invariant Adds(done, true)
      {
        assert topics[i..][1..] == topics[i + 1..];
        ghost var y, left, rest := out, room, EncodeTopics(topics[i + 1..]);
        ghost var t := TopicBytes(topics[i]);
        assert done + (t + rest) == (done + t) + rest;
        ok := WriteTopic(topics[i]);
        Then(old(out), old(room), done, y, left, t, out, room, ok);
        if !ok {
          Stops(old(out), old(room), done + t, out, room, rest);
          return;
        }
        done := done + t;
      }
      assert topics[|topics|..] == [] && done + [] == done;
      ok := true;
    }

    method WriteAllNames(names: seq<Bytes>) returns (ok: bool)
      modifies this
      ensures Adds(EncodeNames(names), ok)
    {
      ghost var done: Bytes := [];
      for i := 0 to |names|
        invariant done + EncodeNames(names[i..]) == EncodeNames(names)
        invariant Adds(done, true)
      {
        assert names[i..][1..] == names[i + 1..];
        ghost var y, left, rest := out, room, EncodeNames(names[i + 1..]);
        ghost var t := EncodeString(names[i]);
        assert done + (t + rest) == (done + t) + rest;
        ok := WriteString(names[i]);
        Then(old(out), old(room), done, y, left, t, out, room, ok);
        if !ok {
          Stops(old(out), old(room), done + t, out, room, rest);
          return;
        }
        done := done + t;
      }
      assert names[|names|..] == [] && done + [] == done;
      ok := true;
    }

    method WriteTopics(v: Variable) returns (r: Outcome)
      requires v.Subscribe?
      modifies this
      ensures r.Panicked? <==> |EncodeTopics(v.topics)| >= 268435456
      ensures if r.Panicked? then out == old(out) && room == old(room)
              else Adds([EncodeLength(|EncodeTopics(v.topics)|)[0]] + EncodeInt(v.smid) + EncodeTopics(v.topics), r.Written?)
    {
      var tnum := 0;
      for i := 0 to |v.topics|
        invariant tnum + |EncodeTopics(v.topics[i..])| == |EncodeTopics(v.topics)|
        invariant out == old(out) && room == old(room)
      {
        assert v.topics[i..][1..] == v.topics[i + 1..];
        tnum := tnum + 2 + |v.topics[i].name| + 1;
      }
      var length := RemainingLength(tnum);
      if length.None? {
        return Panicked;
      }
      ghost var head, list := [length.value[0]] + EncodeInt(v.smid), EncodeTopics(v.topics);
      var ok := WriteBoth([length.value[0]], EncodeInt(v.smid));
      if !ok {
        Stops(old(out), old(room), head, out, room, list);
        return Broken;
      }
      ghost var y, left := out, room;
      ok := WriteAllTopics(v.topics);
      Then(old(out), old(room), head, y, left, list, out, room, ok);
      r := if ok then Written else Broken;
    }

    method WriteNames(v: Variable) returns (r: Outcome)
      requires v.Unsubscribe?
      modifies this
      ensures r.Panicked? <==> |EncodeNames(v.names)| >= 268435456
      ensures if r.Panicked? then out == old(out) && room == old(room)
              else Adds([EncodeLength(|EncodeNames(v.names)|)[0]] + EncodeInt(v.umid) + EncodeNames(v.names), r.Written?)
    {
      var tnum := 0;
      for i := 0 to |v.names|
        invariant tnum + |EncodeNames(v.names[i..])| == |EncodeNames(v.names)|
        invariant out == old(out) && room == old(room)
      {
        assert v.names[i..][1..] == v.names[i + 1..];
        tnum := tnum + 2 + |v.names[i]|;
      }
      var length := RemainingLength(tnum);
      if length.None? {
        return Panicked;
      }
      ghost var head, list := [length.value[0]] + EncodeInt(v.umid), EncodeNames(v.names);
      var ok := WriteBoth([length.value[0]], EncodeInt(v.umid));
      if !ok {
        Stops(old(out), old(room), head, out, room, list);
        return Broken;
      }
      ghost var y, left := out, room;
      ok := WriteAllNames(v.names);
      Then(old(out), old(room), head, y, left, list, out, room, ok);
      r := if ok then Written else Broken;
    }

    method WriteSuback(v: Variable) returns (ok: bool)
      requires v.Suback?
      modifies this
      ensures Adds([3] + EncodeInt(v.bmid) + [v.qos], ok)
    {
      ghost var head := [3] + EncodeInt(v.bmid);
      ok := WriteBoth([3], EncodeInt(v.bmid));
      if !ok {
        Stops(old(out), old(room), head, out, room, [v.qos]);
        return;
      }
      ghost var y, left := out, room;
      ok := WriteByte(v.qos);
      Then(old(out), old(room), head, y, left, [v.qos], out, room, ok);
    }

    /** A pack whose variable part is of the wrong type panics before anything more is written. */
    method WriteAck(p: Pack) returns (r: Outcome)
      requires p.msgType == CONNACK || PUBACK <= p.msgType <= PUBCOMP || p.msgType == SUBACK || p.msgType == UNSUBACK
      modifies this
      ensures r.Panicked? <==> EncodeBody(p).None?
      ensures if r.Panicked? then out == old(out) && room == old(room) else Adds(EncodeBody(p).value, r.Written?)
    {
      var v, ok := p.variable, false;
      if p.msgType == CONNACK && v.Connack? {
        ok := WriteBoth([2], [v.reserved, v.returnCode]);
      } else if PUBACK <= p.msgType <= PUBCOMP && v.Puback? {
        ok := WriteBoth([2], EncodeInt(v.amid));
      } else if p.msgType == SUBACK && v.Suback? {
        ok := WriteSuback(v);
      } else if p.msgType == UNSUBACK && v.Unsuback? {
        ok := WriteBoth([2], EncodeInt(v.vmid));
      } else {
        return Panicked;
      }
      r := if ok then Written else Broken;
    }

    /** Everything behind the first byte. */
    method WriteBody(p: Pack) returns (r: Outcome)
      modifies this
      ensures r.Panicked? <==> EncodeBody(p).None?
      ensures if r.Panicked? then out == old(out) && room == old(room) else Adds(EncodeBody(p).value, r.Written?)
    {
      var v := p.variable;
      if p.msgType == PUBLISH && v.Publish? {
        r := WritePublish(p.qos, v);
      } else if p.msgType == SUBSCRIBE && v.Subscribe? {
        r := WriteTopics(v);
      } else if p.msgType == UNSUBSCRIBE && v.Unsubscribe? {
        r := WriteNames(v);
      } else if p.msgType == PUBLISH || p.msgType == SUBSCRIBE || p.msgType == UNSUBSCRIBE {
        r := Panicked;
      } else if p.msgType == CONNACK || PUBACK <= p.msgType <= PUBCOMP || p.msgType == SUBACK || p.msgType == UNSUBACK {
        r := WriteAck(p);
      } else {
        var ok := WriteFull(if p.msgType == PINGRESP then [0] else []);
        r := if ok then Written else Broken;
      }
    }

    /** All of the encoding goes out, or as much of it as the connection takes; a panic comes after the
        header byte and leaves it written. */
    method DelayWritePack(p: Pack) returns (r: Outcome)
      modifies this
      ensures Adds(EncodePack(p), !r.Broken?)
      ensures r.Panicked? <==> old(room) >= 1 && EncodeBody(p).None?
    {
      ghost var body := if EncodeBody(p).Some? then EncodeBody(p).value else [];
      var ok := WriteByte(HeaderByte(p));
      if !ok {
        Stops(old(out), old(room), [HeaderByte(p)], out, room, body);
        return Broken;
      }
      ghost var y, left := out, room;
      r := WriteBody(p);
      assert y + [] == y;
      Then(old(out), old(room), [HeaderByte(p)], y, left, body, out, room, !r.Broken?);
    }
  }
}
