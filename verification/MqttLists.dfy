/**
 SUBSCRIBE and UNSUBSCRIBE as this package writes them: the length leaves out the two id bytes, and only
 its first byte is written. Below 128 the package's own reader, which does not subtract the id either,
 makes up for it, but a short last topic is lost; from 128 on the reader takes id bytes for the length.
 */
module MqttLists {
  import opened Wrappers
  import opened Arithmetic
  import opened MqttCodec
  import opened MqttProofs
  import opened MqttFrames

  /** The pack was read back as it was, and exactly its bytes were taken. */
  predicate ReadBack(r: Parse<Pack>, p: Pack, pos: nat) {
    r.Got? && Same(r.value, p) && r.pos == pos + |EncodePack(p)|
  }

  /** A first length byte with its top bit set makes the reader take another one. */
  lemma {:induction false} LongFirstByte(d: Bytes, pos: nat, p: Pack, b: Byte, max: int)
    requires pos + 2 <= |d| && d[pos] == HeaderByte(p) && d[pos + 1] == b && b >= 128
    ensures var h := ParseHeader(d, pos, max);
            h.Got? ==>
              && pos + 2 < |d| && h.value.msgType == p.msgType && h.value.qos == p.qos
              && var low: int, high: int := b % 128, d[pos + 2];
                 if high < 128 then h.pos == pos + 3 && h.value.length == low + high * 128 else h.pos == pos + 4
  {
    HeaderBits(p);
    if pos + 2 < |d| {
      var c, low: int := d[pos + 2], b % 128;
      assert ParseLength(d, pos + 2, b, 2, 1, 0) == ParseLength(d, pos + 3, c, 3, 128, low);
      if c >= 128 && pos + 3 < |d| {
        var high: int := c % 128;
        assert ParseLength(d, pos + 3, c, 3, 128, low) == ParseLength(d, pos + 4, d[pos + 3], 4, 128 * 128, low + high * 128);
      }
    }
  }

  lemma {:induction false} FrameParts(d: Bytes, pos: nat, header: Byte, first: Byte, id: Bytes, list: Bytes)
    requires |id| == 2 && At(d, pos, [header] + ([first] + (id + list)))
    ensures pos + 4 + |list| <= |d| && d[pos] == header && d[pos + 1] == first
    ensures d[pos + 2] == id[0] && d[pos + 3] == id[1] && At(d, pos + 4, list)
  {
    AtByte(d, pos, header, [first] + (id + list));
    AtByte(d, pos + 1, first, id + list);
    AtSplit(d, pos + 2, id, list);
    assert d[pos + 2 + 0] == id[0] && d[pos + 2 + 1] == id[1];
  }

  /** A list frame of 128 bytes or more, taken apart: the first length byte, the id, the list. */
  lemma {:induction false} LongParts(d: Bytes, pos: nat, p: Pack, mid: int, list: Bytes)
    requires |list| >= 128 && At(d, pos, [HeaderByte(p)] + ([EncodeLength(|list|)[0]] + (EncodeInt(mid) + list)))
    ensures LongAt(d, pos, p, mid, list)
  {
    FrameParts(d, pos, HeaderByte(p), EncodeLength(|list|)[0], EncodeInt(mid), list);
  }

  predicate LongAt(d: Bytes, pos: nat, p: Pack, mid: int, list: Bytes) {
    && pos + 4 + |list| <= |d| && d[pos] == HeaderByte(p) && d[pos + 1] == 128 + |list| % 128
    && d[pos + 2] == mid % 65536 / 256 && d[pos + 3] == mid % 256 && At(d, pos + 4, list)
  }

  // ----- SUBSCRIBE

  /** The last topic is long enough for the loop to read it when its count is exact. */
  predicate TopicsReadable(topics: seq<Topic>) {
    topics == [] || topics[|topics| - 1].name != []
  }

  function TopicsRead(topics: seq<Topic>): seq<Topic> {
    if TopicsReadable(topics) then topics else topics[..|topics| - 1]
  }

  lemma {:induction false} TopicsLength(topics: seq<Topic>)
    ensures |EncodeTopics(topics)| >= 3 * |topics|
  {
    if topics != [] {
      TopicsLength(topics[1..]);
    }
  }

  lemma {:induction false} TopicsReadStep(topics: seq<Topic>)
    requires |topics| > 1
    ensures TopicsRead(topics) == [topics[0]] + TopicsRead(topics[1..])
    ensures TopicsReadable(topics) == TopicsReadable(topics[1..])
  {
  }

  /** With an exact count the loop reads all topics but an empty last one. */
  lemma {:induction false} ExactTopicsAt(d: Bytes, pos: nat, topics: seq<Topic>)
    requires TopicsFit(topics) && At(d, pos, EncodeTopics(topics))
    ensures ParseTopics(d, pos, |EncodeTopics(topics)|).0 == TopicsRead(topics)
    ensures TopicsReadable(topics) ==> ParseTopics(d, pos, |EncodeTopics(topics)|).1 == pos + |EncodeTopics(topics)|
    decreases |topics|
  {
    if topics != [] {
      var t, rest := topics[0], topics[1..];
      TopicsSplit(d, pos, topics);
      TopicsLength(rest);
      if rest != [] || t.name != [] {
        TopicAt(d, pos, |EncodeTopics(topics)|, t);
        ExactTopicsAt(d, pos + |t.name| + 3, rest);
      }
      if rest != [] {
        TopicsReadStep(topics);
      } else {
        assert topics == [t];
      }
    }
  }

  lemma {:induction false} SubscribeParts(p: Pack)
    requires p.msgType == SUBSCRIBE && p.variable.Subscribe? && |EncodeTopics(p.variable.topics)| < 128
    ensures EncodePack(p) == ([HeaderByte(p)] + EncodeLength(|EncodeTopics(p.variable.topics)|)) + SubscribeBytes(p.variable)
    ensures |EncodeLength(|EncodeTopics(p.variable.topics)|)| == 1
  {
  }

  /** A short list holds no long topic. */
  lemma {:induction false} ShortTopicsFit(topics: seq<Topic>)
    requires |EncodeTopics(topics)| < 65536
    ensures TopicsFit(topics)
  {
    if topics != [] {
      ShortTopicsFit(topics[1..]);
      assert topics == [topics[0]] + topics[1..];
    }
  }

  lemma {:induction false} ExactSubscribeAt(d: Bytes, at: nat, qos: TwoBits, v: Variable)
    requires v.Subscribe? && TopicsFit(v.topics) && At(d, at, SubscribeBytes(v))
    ensures var r := ParseBody(d, at, SUBSCRIBE, qos, |EncodeTopics(v.topics)|);
            && r.Got? && r.value == Subscribe(v.smid % 65536, TopicsRead(v.topics))
            && (TopicsReadable(v.topics) ==> r.pos == at + |SubscribeBytes(v)|)
  {
    var n := |EncodeTopics(v.topics)|;
    AtSplit(d, at, EncodeInt(v.smid), EncodeTopics(v.topics));
    IntAt(d, at, v.smid);
    ExactTopicsAt(d, at + 2, v.topics);
    var r := ParseTopics(d, at + 2, n);
    SubscribeOf(d, at, qos, n, Subscribe(v.smid % 65536, r.0), r.1);
  }

  lemma {:induction false} ShortSubscribe(d: Bytes, pos: nat, p: Pack, max: int)
    requires p.msgType == SUBSCRIBE && p.variable.Subscribe? && At(d, pos, EncodePack(p))
    requires |EncodeTopics(p.variable.topics)| < 128 && |EncodeTopics(p.variable.topics)| <= max
    ensures var r := ParsePack(d, pos, max);
            && r.Got? && r.value.retain == 0 && r.value.variable == Subscribe(p.variable.smid % 65536, TopicsRead(p.variable.topics))
            && r.value.msgType == p.msgType && r.value.dup == p.dup && r.value.qos == p.qos
            && (TopicsReadable(p.variable.topics) ==> r.pos == pos + |EncodePack(p)|)
  {
    var v, n := p.variable, |EncodeTopics(p.variable.topics)|;
    SubscribeParts(p);
    ShortTopicsFit(v.topics);
    AtSplit(d, pos, [HeaderByte(p)] + EncodeLength(n), SubscribeBytes(v));
    HeaderAt(d, pos, p, n, max);
    ExactSubscribeAt(d, pos + 2, p.qos, v);
    PackOf(d, pos, max, pos + 2, HeaderOf(p, n), ParseBody(d, pos + 2, SUBSCRIBE, p.qos, n));
  }

  /** The topic loop takes at least the bytes of the topics it returns. */
  lemma {:induction false} TopicsTakeBytes(d: Bytes, pos: nat, vlen: int)
    requires pos <= |d|
    ensures ParseTopics(d, pos, vlen).1 >= pos + |EncodeTopics(ParseTopics(d, pos, vlen).0)|
    decreases if vlen < 0 then 0 else vlen
  {
    var n := ParseInt(d, pos);
    if vlen > 3 && n.Got? && n.pos + n.value < |d| {
      var t := Topic(Slice(d, n.pos, n.value), d[n.pos + n.value]);
      var rest := ParseTopics(d, n.pos + n.value + 1, vlen - 3 - n.value);
      TopicsTakeBytes(d, n.pos + n.value + 1, vlen - 3 - n.value);
      assert ([t] + rest.0)[1..] == rest.0;
    }
  }

  lemma {:induction false} Regroup(x: Bytes, y: Bytes, z: Bytes)
    ensures (x + y) + z == x + (y + z)
  {
  }

  lemma {:induction false} SubscribeLayout(p: Pack)
    requires p.msgType == SUBSCRIBE && p.variable.Subscribe? && EncodeBody(p).Some?
    ensures var list := EncodeTopics(p.variable.topics);
            EncodePack(p) == [HeaderByte(p)] + ([EncodeLength(|list|)[0]] + (EncodeInt(p.variable.smid) + list))
  {
    var list := EncodeTopics(p.variable.topics);
    Regroup([EncodeLength(|list|)[0]], EncodeInt(p.variable.smid), list);
  }

  lemma {:induction false} LongSubscribeAt(d: Bytes, pos: nat, p: Pack, max: int)
    requires p.msgType == SUBSCRIBE && p.variable.Subscribe? && LongAt(d, pos, p, p.variable.smid, EncodeTopics(p.variable.topics))
    ensures var r := ParsePack(d, pos, max);
            r.Got? && Same(r.value, p) ==> r.pos > pos + 4 + |EncodeTopics(p.variable.topics)|
  {
    LongFirstByte(d, pos, p, d[pos + 1], max);
    var r, h := ParsePack(d, pos, max), ParseHeader(d, pos, max);
    if r.Got? {
      PackShape(d, pos, max);
      SubscribeTakes(d, h.pos, h.value.qos, h.value.length);
    }
  }

  lemma {:induction false} LongSubscribe(d: Bytes, pos: nat, p: Pack, max: int)
    requires p.msgType == SUBSCRIBE && p.variable.Subscribe? && EncodeBody(p).Some?
    requires |EncodeTopics(p.variable.topics)| >= 128 && At(d, pos, EncodePack(p))
    ensures !ReadBack(ParsePack(d, pos, max), p, pos)
  {
    SubscribeLayout(p);
    LongParts(d, pos, p, p.variable.smid, EncodeTopics(p.variable.topics));
    LongSubscribeAt(d, pos, p, max);
  }

  lemma {:induction false} SubscribeTakes(d: Bytes, at: nat, qos: TwoBits, length: nat)
    requires at <= |d| && ParseBody(d, at, SUBSCRIBE, qos, length).Got?
    ensures var r := ParseBody(d, at, SUBSCRIBE, qos, length);
            r.value.Subscribe? && r.pos >= at + 2 + |EncodeTopics(r.value.topics)|
  {
    TopicsTakeBytes(d, at + 2, length);
  }

  lemma {:induction false} TooLongFails(d: Bytes, pos: nat, p: Pack, n: nat, max: int)
    requires At(d, pos, [HeaderByte(p)] + EncodeLength(n)) && n < 2097152 && n > max
    ensures ParsePack(d, pos, max).Failed?
  {
    AtByte(d, pos, HeaderByte(p), EncodeLength(n));
    FirstByte(d, pos + 1, EncodeLength(n));
    LengthRoundTrip(d, pos + 1, n);
  }

  lemma {:induction false} SameSubscribe(r: Pack, p: Pack)
    requires p.variable.Subscribe? && r.msgType == p.msgType && r.dup == p.dup && r.qos == p.qos && r.retain == 0
    requires r.variable == Subscribe(p.variable.smid % 65536, TopicsRead(p.variable.topics))
    ensures Same(r, p) <==> p.retain == 0 && 0 <= p.variable.smid < 65536 && TopicsReadable(p.variable.topics)
  {
    assert !TopicsReadable(p.variable.topics) ==> |TopicsRead(p.variable.topics)| < |p.variable.topics|;
  }

  /** What decides whether a SUBSCRIBE can be read back. */
  predicate SubscribeFits(p: Pack, max: int)
    requires p.variable.Subscribe?
  {
    && p.retain == 0 && 0 <= p.variable.smid < 65536 && TopicsReadable(p.variable.topics)
    && |EncodeTopics(p.variable.topics)| < 128 && |EncodeTopics(p.variable.topics)| <= max
  }

  lemma {:induction false} ShortSubscribeExact(d: Bytes, pos: nat, p: Pack, max: int)
    requires p.msgType == SUBSCRIBE && p.variable.Subscribe? && At(d, pos, EncodePack(p))
    requires |EncodeTopics(p.variable.topics)| < 128 && |EncodeTopics(p.variable.topics)| <= max
    ensures ReadBack(ParsePack(d, pos, max), p, pos) <==> SubscribeFits(p, max)
  {
    ShortSubscribe(d, pos, p, max);
    SameSubscribe(ParsePack(d, pos, max).value, p);
  }

  lemma {:induction false} SubscribeTooLong(d: Bytes, pos: nat, p: Pack, max: int)
    requires p.msgType == SUBSCRIBE && p.variable.Subscribe? && At(d, pos, EncodePack(p))
    requires max < |EncodeTopics(p.variable.topics)| < 128
    ensures ParsePack(d, pos, max).Failed?
  {
    var n := |EncodeTopics(p.variable.topics)|;
    SubscribeParts(p);
    AtSplit(d, pos, [HeaderByte(p)] + EncodeLength(n), SubscribeBytes(p.variable));
    TooLongFails(d, pos, p, n, max);
  }

  /** A written SUBSCRIBE is read back as it was, and taken exactly, if and only if its length is below
      128 and within the maximum, its last topic is not empty, its id has 16 bits and retain is not set. */
  lemma {:induction false} SubscribeWritten(d: Bytes, pos: nat, p: Pack, max: int)
    requires p.msgType == SUBSCRIBE && p.variable.Subscribe? && EncodeBody(p).Some? && At(d, pos, EncodePack(p))
    ensures ReadBack(ParsePack(d, pos, max), p, pos) <==> SubscribeFits(p, max)
  {
    if |EncodeTopics(p.variable.topics)| >= 128 {
      LongSubscribe(d, pos, p, max);
    } else if |EncodeTopics(p.variable.topics)| <= max {
      ShortSubscribeExact(d, pos, p, max);
    } else {
      SubscribeTooLong(d, pos, p, max);
    }
  }

  // ----- UNSUBSCRIBE

  /** Without a QoS byte to each name, the last one needs two bytes. */
  predicate NamesReadable(names: seq<Bytes>) {
    names == [] || |names[|names| - 1]| >= 2
  }

  lemma {:induction false} ExactNamesStep(names: seq<Bytes>, r: (seq<Bytes>, nat), end: nat)
    requires names != [] && (|names| == 1 ==> |names[0]| >= 2)
    requires ReadNames(names[1..], r, end)
    ensures ReadNames(names, ([names[0]] + r.0, r.1), end)
  {
    var rest := names[1..];
    assert names == [names[0]] + rest;
    assert rest != [] ==> rest[|rest| - 1] == names[|names| - 1];
  }

  /** What the loop makes of an exact count: all names, or fewer. */
  predicate ReadNames(names: seq<Bytes>, r: (seq<Bytes>, nat), end: nat) {
    if NamesReadable(names) then r == (names, end) else |r.0| < |names|
  }

  lemma {:induction false} FirstNameAt(d: Bytes, pos: nat, names: seq<Bytes>, n: nat, p1: nat, n1: nat)
    requires NamesFit(names) && names != [] && At(d, pos, EncodeNames(names)) && n > 3
    requires n == |EncodeNames(names)| && p1 == pos + 2 + |names[0]| && n1 == |EncodeNames(names[1..])|
    ensures At(d, p1, EncodeNames(names[1..])) && p1 + n1 == pos + n && (|names| == 1 ==> |names[0]| >= 2)
    ensures var r := ParseNames(d, p1, n1); ParseNames(d, pos, n) == ([names[0]] + r.0, r.1)
  {
    NamesSplit(d, pos, names);
    NameAt(d, pos, n, names[0]);
  }

  lemma {:induction false} FewBytes(names: seq<Bytes>)
    requires names != [] && |EncodeNames(names)| <= 3
    ensures !NamesReadable(names)
  {
    var rest := names[1..];
    assert rest != [] ==> |EncodeNames(rest)| >= 2;
  }

  /** With an exact count the loop reads all names when the last one is long enough, and too few
      otherwise. */
  lemma {:induction false} ExactNamesAt(d: Bytes, pos: nat, names: seq<Bytes>, n: nat)
    requires NamesFit(names) && At(d, pos, EncodeNames(names)) && n == |EncodeNames(names)|
    ensures ReadNames(names, ParseNames(d, pos, n), pos + n)
    decreases |names|
  {
    if names == [] {
    } else if n <= 3 {
      FewBytes(names);
    } else {
      var p1: nat, n1: nat := pos + 2 + |names[0]|, |EncodeNames(names[1..])|;
      FirstNameAt(d, pos, names, n, p1, n1);
      ExactNamesAt(d, p1, names[1..], n1);
      ExactNamesStep(names, ParseNames(d, p1, n1), pos + n);
    }
  }

  lemma {:induction false} UnsubscribeParts(p: Pack)
    requires p.msgType == UNSUBSCRIBE && p.variable.Unsubscribe? && |EncodeNames(p.variable.names)| < 128
    ensures EncodePack(p) == ([HeaderByte(p)] + EncodeLength(|EncodeNames(p.variable.names)|)) + UnsubscribeBytes(p.variable)
    ensures |EncodeLength(|EncodeNames(p.variable.names)|)| == 1
  {
  }

  lemma {:induction false} ShortNamesFit(names: seq<Bytes>)
    requires |EncodeNames(names)| < 65536
    ensures NamesFit(names)
  {
    if names != [] {
      ShortNamesFit(names[1..]);
      assert names == [names[0]] + names[1..];
    }
  }

  lemma {:induction false} ExactUnsubscribeAt(d: Bytes, at: nat, qos: TwoBits, v: Variable)
    requires v.Unsubscribe? && NamesFit(v.names) && At(d, at, UnsubscribeBytes(v))
    ensures var r := ParseBody(d, at, UNSUBSCRIBE, qos, |EncodeNames(v.names)|);
            && r.Got? && r.value.Unsubscribe? && r.value.umid == v.umid % 65536
            && if NamesReadable(v.names) then r.value.names == v.names && r.pos == at + |UnsubscribeBytes(v)|
               else r.value.names != v.names
  {
    var n := |EncodeNames(v.names)|;
    AtSplit(d, at, EncodeInt(v.umid), EncodeNames(v.names));
    IntAt(d, at, v.umid);
    ExactNamesAt(d, at + 2, v.names, n);
    var r := ParseNames(d, at + 2, n);
    UnsubscribeOf(d, at, qos, n, Unsubscribe(v.umid % 65536, r.0), r.1);
  }

  lemma {:induction false} ShortUnsubscribe(d: Bytes, pos: nat, p: Pack, max: int)
    requires p.msgType == UNSUBSCRIBE && p.variable.Unsubscribe? && At(d, pos, EncodePack(p))
    requires |EncodeNames(p.variable.names)| < 128 && |EncodeNames(p.variable.names)| <= max
    ensures var r := ParsePack(d, pos, max);
            && r.Got? && r.value.retain == 0 && r.value.msgType == p.msgType && r.value.dup == p.dup && r.value.qos == p.qos
            && r.value.variable.Unsubscribe? && r.value.variable.umid == p.variable.umid % 65536
            && (r.value.variable.names == p.variable.names <==> NamesReadable(p.variable.names))
            && (NamesReadable(p.variable.names) ==> r.pos == pos + |EncodePack(p)|)
  {
    var v, n := p.variable, |EncodeNames(p.variable.names)|;
    UnsubscribeParts(p);
    ShortNamesFit(v.names);
    AtSplit(d, pos, [HeaderByte(p)] + EncodeLength(n), UnsubscribeBytes(v));
    HeaderAt(d, pos, p, n, max);
    ExactUnsubscribeAt(d, pos + 2, p.qos, v);
    PackOf(d, pos, max, pos + 2, HeaderOf(p, n), ParseBody(d, pos + 2, UNSUBSCRIBE, p.qos, n));
  }

  /** The stream with zero bytes behind its end, as ignored short reads see it. */
  function Padding(d: Bytes, i: nat): Byte {
    if i < |d| then d[i] else 0
  }

  lemma {:induction false} IntBytes(hi: Byte, lo: Byte)
    ensures EncodeInt(hi * 256 + lo) == [hi, lo]
  {
    var n: nat := hi * 256 + lo;
    QuotientIs(n, 65536, 0, n);
    QuotientIs(n, 256, hi, lo);
  }

  lemma {:induction false} PaddedAt(d: Bytes, pos: nat, n: nat, j: nat)
    requires pos <= |d| && j < n
    ensures |Padded(d, pos, n).0| == n && Padded(d, pos, n).0[j] == Padding(d, pos + j)
  {
  }

  /** The bytes of one name read, and where the reader goes on. */
  lemma {:induction false} NameBytes(d: Bytes, pos: nat, i: nat)
    requires pos <= |d| && ParseInt(d, pos).Got?
    requires i < 2 + ParseInt(d, pos).value
    ensures var n := ParseInt(d, pos).value;
            var name := Padded(d, pos + 2, n).0;
            |EncodeString(name)| == 2 + n && EncodeString(name)[i] == Padding(d, pos + i)
  {
    var n := ParseInt(d, pos).value;
    var name := Padded(d, pos + 2, n).0;
    IntBytes(d[pos], d[pos + 1]);
    if i >= 2 {
      PaddedAt(d, pos + 2, n, i - 2);
    }
  }

  /** Written again, the names that were read are the padded stream they were read from. */
  lemma {:induction false} NamesReencode(d: Bytes, pos: nat, vlen: int, i: nat)
    requires pos <= |d| && i < |EncodeNames(ParseNames(d, pos, vlen).0)|
    ensures EncodeNames(ParseNames(d, pos, vlen).0)[i] == Padding(d, pos + i)
    decreases if vlen < 0 then 0 else vlen
  {
    var m := ParseInt(d, pos);
    if vlen > 3 && m.Got? {
      var n, name := m.value, Padded(d, pos + 2, m.value);
      var rest := ParseNames(d, name.1, vlen - 2 - n);
      assert ([name.0] + rest.0)[1..] == rest.0;
      if i < 2 + n {
        NameBytes(d, pos, i);
      } else {
        NamesReencode(d, name.1, vlen - 2 - n, i - 2 - n);
      }
    }
  }

  /** Names are read from real bytes up to the end of the stream. */
  lemma {:induction false} NamesTakeBytes(d: Bytes, pos: nat, vlen: int)
    requires pos <= |d|
    ensures var r := ParseNames(d, pos, vlen);
            r.1 >= pos + |EncodeNames(r.0)| || r.1 == |d|
    decreases if vlen < 0 then 0 else vlen
  {
    var m := ParseInt(d, pos);
    if vlen > 3 && m.Got? {
      var n, name := m.value, Padded(d, pos + 2, m.value);
      var rest := ParseNames(d, name.1, vlen - 2 - n);
      assert ([name.0] + rest.0)[1..] == rest.0;
      NamesTakeBytes(d, name.1, vlen - 2 - n);
    }
  }

  /** The loop counter allows for all names but the last. */
  lemma {:induction false} NamesCounted(d: Bytes, pos: nat, vlen: int)
    requires pos <= |d| && ParseNames(d, pos, vlen).0 != []
    ensures var names := ParseNames(d, pos, vlen).0;
            |EncodeNames(names)| + 2 <= vlen + |names[|names| - 1]|
    decreases if vlen < 0 then 0 else vlen
  {
    var m := ParseInt(d, pos);
    var n, name := m.value, Padded(d, pos + 2, m.value);
    var rest := ParseNames(d, name.1, vlen - 2 - n);
    assert ([name.0] + rest.0)[1..] == rest.0;
    if rest.0 != [] {
      NamesCounted(d, name.1, vlen - 2 - n);
    }
  }

  /** A string of bytes that equals itself further on, and ends in zeros, is zero throughout. */
  lemma {:induction false} ShiftedIsZero(xs: Bytes, s: nat, i: nat)
    requires s >= 1 && i < |xs| && forall k :: 0 <= k < |xs| ==> xs[k] == if k + s < |xs| then xs[k + s] else 0
    ensures xs[i] == 0
    decreases |xs| - i
  {
    assert xs[i] == if i + s < |xs| then xs[i + s] else 0;
    if i + s < |xs| {
      ShiftedIsZero(xs, s, i + s);
    }
  }

  lemma {:induction false} ZeroNames(names: seq<Bytes>, k: nat)
    requires NamesFit(names) && k < |names| && forall i :: 0 <= i < |EncodeNames(names)| ==> EncodeNames(names)[i] == 0
    ensures names[k] == []
    decreases |names|
  {
    var name, rest := names[0], EncodeNames(names[1..]);
    var all := EncodeNames(names);
    assert all == EncodeString(name) + rest;
    assert all[0] == EncodeInt(|name|)[0] && all[1] == EncodeInt(|name|)[1];
    assert |name| == 0;
    if k > 0 {
      assert forall i :: 0 <= i < |rest| ==> rest[i] == all[2 + i];
      ZeroNames(names[1..], k - 1);
    }
  }

  lemma {:induction false} UnsubscribeBodyIs(d: Bytes, at: nat, qos: TwoBits, length: nat)
    requires at <= |d| && ParseBody(d, at, UNSUBSCRIBE, qos, length).Got?
    ensures at + 2 <= |d| && ParseInt(d, at).Got?
    ensures var t := ParseNames(d, at + 2, length);
            ParseBody(d, at, UNSUBSCRIBE, qos, length) == Got(Unsubscribe(ParseInt(d, at).value, t.0), t.1)
  {
  }

  /** Names read from further on than where they stand, up to the end of the stream, are all empty. */
  lemma {:induction false} MisplacedIsZero(d: Bytes, start: nat, names: seq<Bytes>, s: nat, vlen: int)
    requires 1 <= s && start + s <= |d| && NamesFit(names) && At(d, start, EncodeNames(names))
    requires start + |EncodeNames(names)| == |d| && ParseNames(d, start + s, vlen).0 == names
    ensures forall i :: 0 <= i < |EncodeNames(names)| ==> EncodeNames(names)[i] == 0
  {
    var xs := EncodeNames(names);
    forall k | 0 <= k < |xs|
      ensures xs[k] == if k + s < |xs| then xs[k + s] else 0
    {
      NamesReencode(d, start + s, vlen, k);
      if k + s < |xs| {
        assert d[start + (k + s)] == xs[k + s];
      }
    }
    forall i | 0 <= i < |xs|
      ensures xs[i] == 0
    {
      ShiftedIsZero(xs, s, i);
    }
  }

  /** Such names need a loop counter that exceeds their length. */
  lemma {:induction false} MisplacedCounts(d: Bytes, start: nat, names: seq<Bytes>, s: nat, vlen: int)
    requires 1 <= s && start + s <= |d| && NamesFit(names) && names != [] && At(d, start, EncodeNames(names))
    requires start + |EncodeNames(names)| == |d| && ParseNames(d, start + s, vlen).0 == names
    ensures d[start] == 0 && start + 1 < |d| && d[start + 1] == 0 && |EncodeNames(names)| + 2 <= vlen
  {
    MisplacedIsZero(d, start, names, s, vlen);
    ZeroNames(names, |names| - 1);
    NamesCounted(d, start + s, vlen);
    var xs := EncodeNames(names);
    assert d[start + 0] == xs[0] && d[start + 1] == xs[1];
  }

  /** Reading id and names one or two bytes late does not give them back and end where they end. */
  lemma {:induction false} ReadLate(d: Bytes, start: nat, names: seq<Bytes>, mid: nat, at: nat, length: nat)
    requires start >= 4 && mid < 65536 && NamesFit(names) && |EncodeNames(names)| >= 128 && At(d, start, EncodeNames(names))
    requires d[start - 2] == mid / 256 && d[start - 1] == mid % 256
    requires at == (if d[start - 2] < 128 then start - 1 else start)
    requires d[start - 2] < 128 ==> length == |EncodeNames(names)| % 128 + mid / 256 * 128
    ensures !(ParseInt(d, at) == Got(mid, at + 2) && at + 2 <= |d|
              && ParseNames(d, at + 2, length) == (names, start + |EncodeNames(names)|))
  {
    if ParseInt(d, at) == Got(mid, at + 2) && at + 2 <= |d| && ParseNames(d, at + 2, length) == (names, start + |EncodeNames(names)|) {
      NamesTakeBytes(d, at + 2, length);
      assert |d| == start + |EncodeNames(names)|;
      MisplacedCounts(d, start, names, at + 2 - start, length);
      LateId(mid, d[start - 2], d[start - 1]);
    }
  }

  /** An id whose low byte, followed by zero, is the id itself, is zero. */
  lemma {:induction false} LateId(mid: nat, hi: Byte, lo: Byte)
    requires mid < 65536 && hi == mid / 256 && lo == mid % 256
    ensures var low: int := lo; mid == low * 256 ==> hi == 0
  {
    var h: int, l: int := hi, lo;
    assert mid == h * 256 + l;
  }

  lemma {:induction false} UnsubscribeLayout(p: Pack)
    requires p.msgType == UNSUBSCRIBE && p.variable.Unsubscribe? && EncodeBody(p).Some?
    ensures var list := EncodeNames(p.variable.names);
            EncodePack(p) == [HeaderByte(p)] + ([EncodeLength(|list|)[0]] + (EncodeInt(p.variable.umid) + list))
  {
    var list := EncodeNames(p.variable.names);
    Regroup([EncodeLength(|list|)[0]], EncodeInt(p.variable.umid), list);
  }

  lemma {:induction false} LateBody(d: Bytes, start: nat, v: Variable, at: nat, qos: TwoBits, length: nat)
    requires v.Unsubscribe? && start >= 4 && 0 <= v.umid < 65536 && NamesFit(v.names) && |EncodeNames(v.names)| >= 128
    requires At(d, start, EncodeNames(v.names)) && d[start - 2] == v.umid / 256 && d[start - 1] == v.umid % 256
    requires at == (if d[start - 2] < 128 then start - 1 else start)
    requires d[start - 2] < 128 ==> length == |EncodeNames(v.names)| % 128 + v.umid / 256 * 128
    ensures ParseBody(d, at, UNSUBSCRIBE, qos, length) != Got(v, start + |EncodeNames(v.names)|)
  {
    ReadLate(d, start, v.names, v.umid, at, length);
    if ParseBody(d, at, UNSUBSCRIBE, qos, length).Got? {
      UnsubscribeBodyIs(d, at, qos, length);
    }
  }

  /** What the reader makes of the header of a long list frame. */
  lemma {:induction false} LongHeader(d: Bytes, pos: nat, p: Pack, mid: nat, list: Bytes, max: int)
    requires mid < 65536 && LongAt(d, pos, p, mid, list)
    ensures d[pos + 2] == mid / 256 && d[pos + 3] == mid % 256
    ensures var h := ParseHeader(d, pos, max);
            h.Got? ==>
              && h.value.msgType == p.msgType && h.value.qos == p.qos
              && h.pos == (if d[pos + 2] < 128 then pos + 3 else pos + 4)
              && (d[pos + 2] < 128 ==> h.value.length == |list| % 128 + mid / 256 * 128)
  {
    LongFirstByte(d, pos, p, d[pos + 1], max);
  }

  lemma {:induction false} LongUnsubscribeAt(d: Bytes, pos: nat, p: Pack, max: int)
    requires Unsubscribing(p) && |EncodeNames(p.variable.names)| >= 128
    requires LongAt(d, pos, p, p.variable.umid, EncodeNames(p.variable.names))
    ensures var r := ParsePack(d, pos, max);
            r.Got? && Same(r.value, p) ==> r.pos != pos + 4 + |EncodeNames(p.variable.names)|
  {
    var h := ParseHeader(d, pos, max);
    if ParsePack(d, pos, max).Got? {
      LongHeader(d, pos, p, p.variable.umid, EncodeNames(p.variable.names), max);
      PackShape(d, pos, max);
      LateBody(d, pos + 4, p.variable, h.pos, h.value.qos, h.value.length);
    }
  }

  lemma {:induction false} NamesReadFit(d: Bytes, pos: nat, vlen: int)
    requires pos <= |d|
    ensures NamesFit(ParseNames(d, pos, vlen).0)
    decreases if vlen < 0 then 0 else vlen
  {
    var m := ParseInt(d, pos);
    if vlen > 3 && m.Got? {
      var name := Padded(d, pos + 2, m.value);
      NamesReadFit(d, name.1, vlen - 2 - m.value);
    }
  }

  /** What a reader returns for an UNSUBSCRIBE header byte has an id of 16 bits, names of 16-bit length
      and no retain. */
  lemma {:induction false} ReadIsUnsubscribing(d: Bytes, pos: nat, p: Pack, max: int)
    requires p.msgType == UNSUBSCRIBE && pos < |d| && d[pos] == HeaderByte(p)
    requires ParsePack(d, pos, max).Got? && Same(ParsePack(d, pos, max).value, p)
    ensures Unsubscribing(p)
  {
    PackShape(d, pos, max);
    HeaderBits(p);
    var h := ParseHeader(d, pos, max);
    UnsubscribeBodyIs(d, h.pos, h.value.qos, h.value.length);
    NamesReadFit(d, h.pos + 2, h.value.length);
  }

  lemma {:induction false} LongUnsubscribe(d: Bytes, pos: nat, p: Pack, max: int)
    requires p.msgType == UNSUBSCRIBE && p.variable.Unsubscribe? && EncodeBody(p).Some?
    requires |EncodeNames(p.variable.names)| >= 128 && At(d, pos, EncodePack(p))
    ensures !ReadBack(ParsePack(d, pos, max), p, pos)
  {
    UnsubscribeLayout(p);
    LongParts(d, pos, p, p.variable.umid, EncodeNames(p.variable.names));
    if ParsePack(d, pos, max).Got? && Same(ParsePack(d, pos, max).value, p) {
      ReadIsUnsubscribing(d, pos, p, max);
      LongUnsubscribeAt(d, pos, p, max);
    }
  }

  /** What decides whether an UNSUBSCRIBE can be read back. */
  predicate UnsubscribeFits(p: Pack, max: int)
    requires p.variable.Unsubscribe?
  {
    && p.retain == 0 && 0 <= p.variable.umid < 65536 && NamesReadable(p.variable.names)
    && |EncodeNames(p.variable.names)| < 128 && |EncodeNames(p.variable.names)| <= max
  }

  lemma {:induction false} SameUnsubscribe(r: Pack, p: Pack)
    requires p.variable.Unsubscribe? && r.msgType == p.msgType && r.dup == p.dup && r.qos == p.qos && r.retain == 0
    requires r.variable.Unsubscribe? && r.variable.umid == p.variable.umid % 65536
    requires r.variable.names == p.variable.names <==> NamesReadable(p.variable.names)
    ensures Same(r, p) <==> p.retain == 0 && 0 <= p.variable.umid < 65536 && NamesReadable(p.variable.names)
  {
  }

  lemma {:induction false} ShortUnsubscribeExact(d: Bytes, pos: nat, p: Pack, max: int)
    requires p.msgType == UNSUBSCRIBE && p.variable.Unsubscribe? && At(d, pos, EncodePack(p))
    requires |EncodeNames(p.variable.names)| < 128 && |EncodeNames(p.variable.names)| <= max
    ensures ReadBack(ParsePack(d, pos, max), p, pos) <==> UnsubscribeFits(p, max)
  {
    ShortUnsubscribe(d, pos, p, max);
    SameUnsubscribe(ParsePack(d, pos, max).value, p);
  }

  lemma {:induction false} UnsubscribeTooLong(d: Bytes, pos: nat, p: Pack, max: int)
    requires p.msgType == UNSUBSCRIBE && p.variable.Unsubscribe? && At(d, pos, EncodePack(p))
    requires max < |EncodeNames(p.variable.names)| < 128
    ensures ParsePack(d, pos, max).Failed?
  {
    var n := |EncodeNames(p.variable.names)|;
    UnsubscribeParts(p);
    AtSplit(d, pos, [HeaderByte(p)] + EncodeLength(n), UnsubscribeBytes(p.variable));
    TooLongFails(d, pos, p, n, max);
  }

  /** A written UNSUBSCRIBE is read back as it was, and taken exactly, if and only if its length is below
      128 and within the maximum, its last name has at least two bytes, its id has 16 bits and retain is
      not set. */
  lemma {:induction false} UnsubscribeWritten(d: Bytes, pos: nat, p: Pack, max: int)
    requires p.msgType == UNSUBSCRIBE && p.variable.Unsubscribe? && EncodeBody(p).Some? && At(d, pos, EncodePack(p))
    ensures ReadBack(ParsePack(d, pos, max), p, pos) <==> UnsubscribeFits(p, max)
  {
    if |EncodeNames(p.variable.names)| >= 128 {
      LongUnsubscribe(d, pos, p, max);
    } else if |EncodeNames(p.variable.names)| <= max {
      ShortUnsubscribeExact(d, pos, p, max);
    } else {
      UnsubscribeTooLong(d, pos, p, max);
    }
  }
}
