/** Frames a conforming client sends are read whole (OASIS MQTT 3.1.1, sections 3.1, 3.8 and 3.10). */
module MqttFrames {
  import opened Wrappers
  import opened MqttCodec
  import opened MqttProofs

  /** The bytes of a frame: the header of p, the length of the body in full, the body. */
  function FrameBytes(p: Pack, body: Bytes): Bytes {
    ([HeaderByte(p)] + EncodeLength(|body|)) + body
  }

  predicate Fits(body: Bytes, max: int) {
    |body| < 2097152 && |body| <= max
  }

  /** Reading a frame comes down to reading its body. */
  lemma {:induction false} FrameAt(d: Bytes, pos: nat, p: Pack, body: Bytes, max: int) returns (at: nat)
    requires At(d, pos, FrameBytes(p, body)) && Fits(body, max)
    ensures At(d, at, body) && at + |body| == pos + |FrameBytes(p, body)|
    ensures ParseHeader(d, pos, max) == Got(HeaderOf(p, |body|), at)
  {
    AtSplit(d, pos, [HeaderByte(p)] + EncodeLength(|body|), body);
    HeaderAt(d, pos, p, |body|, max);
    at := pos + 1 + |EncodeLength(|body|)|;
  }

  // ----- SUBSCRIBE

  predicate TopicsFit(topics: seq<Topic>) {
    forall i :: 0 <= i < |topics| ==> |topics[i].name| < 65536
  }

  lemma {:induction false} TopicStep(d: Bytes, pos: nat, vlen: int, t: Topic)
    requires pos + 2 + |t.name| < |d| && ParseInt(d, pos) == Got(|t.name|, pos + 2) && vlen > 3
    requires Slice(d, pos + 2, |t.name|) == t.name && d[pos + 2 + |t.name|] == t.qos
    ensures var rest := ParseTopics(d, pos + |t.name| + 3, vlen - |t.name| - 3);
            ParseTopics(d, pos, vlen) == ([t] + rest.0, rest.1)
  {
  }

  lemma {:induction false} TopicAt(d: Bytes, pos: nat, vlen: int, t: Topic)
    requires At(d, pos, TopicBytes(t)) && |t.name| < 65536 && vlen > 3
    ensures pos + |t.name| + 3 <= |d|
    ensures var rest := ParseTopics(d, pos + |t.name| + 3, vlen - |t.name| - 3);
            ParseTopics(d, pos, vlen) == ([t] + rest.0, rest.1)
  {
    AtSplit(d, pos, EncodeString(t.name), [t.qos]);
    AtSplit(d, pos, EncodeInt(|t.name|), t.name);
    IntAt(d, pos, |t.name|);
    FullAt(d, pos + 2, t.name);
    FirstByte(d, pos + 2 + |t.name|, [t.qos]);
    TopicStep(d, pos, vlen, t);
  }

  lemma {:induction false} TopicsSplit(d: Bytes, pos: nat, topics: seq<Topic>)
    requires At(d, pos, EncodeTopics(topics)) && topics != []
    ensures At(d, pos, TopicBytes(topics[0])) && At(d, pos + |topics[0].name| + 3, EncodeTopics(topics[1..]))
    ensures |EncodeTopics(topics)| == |topics[0].name| + 3 + |EncodeTopics(topics[1..])|
  {
    AtSplit(d, pos, TopicBytes(topics[0]), EncodeTopics(topics[1..]));
  }

  /** The loop counter is two too high throughout, which never makes it read on or stop early. */
  lemma {:induction false} TopicsAt(d: Bytes, pos: nat, topics: seq<Topic>)
    requires TopicsFit(topics) && At(d, pos, EncodeTopics(topics))
    ensures ParseTopics(d, pos, |EncodeTopics(topics)| + 2) == (topics, pos + |EncodeTopics(topics)|)
    decreases |topics|
  {
    if topics != [] {
      var t, rest := topics[0], topics[1..];
      TopicsSplit(d, pos, topics);
      TopicAt(d, pos, |EncodeTopics(topics)| + 2, t);
      TopicsAt(d, pos + |t.name| + 3, rest);
      assert topics == [t] + rest;
    }
  }

  function SubscribeBytes(v: Variable): Bytes
    requires v.Subscribe?
  {
    EncodeInt(v.smid) + EncodeTopics(v.topics)
  }

  predicate Subscribing(p: Pack) {
    && p.msgType == SUBSCRIBE && p.retain == 0 && p.variable.Subscribe?
    && 0 <= p.variable.smid < 65536 && TopicsFit(p.variable.topics)
  }

  /** A SUBSCRIBE frame is read back with all its topics, and exactly the frame is taken. */
  lemma {:induction false} SubscribeFrame(d: Bytes, pos: nat, p: Pack, max: int)
    requires Subscribing(p) && Fits(SubscribeBytes(p.variable), max)
    requires At(d, pos, FrameBytes(p, SubscribeBytes(p.variable)))
    ensures ParsePack(d, pos, max) == Got(p.(length := |SubscribeBytes(p.variable)|),
                                          pos + |FrameBytes(p, SubscribeBytes(p.variable))|)
  {
    var v, body := p.variable, SubscribeBytes(p.variable);
    var at := FrameAt(d, pos, p, body, max);
    SubscribeBodyAt(d, at, p.qos, v);
    PackOf(d, pos, max, at, HeaderOf(p, |body|), Got(v, at + |body|));
  }

  /** Message id, then topics. */
  lemma {:induction false} SubscribeOf(d: Bytes, at: nat, qos: TwoBits, length: nat, v: Variable, end: nat)
    requires v.Subscribe? && v.smid >= 0 && at + 2 <= |d| && ParseInt(d, at) == Got(v.smid, at + 2)
    requires ParseTopics(d, at + 2, length) == (v.topics, end)
    ensures ParseBody(d, at, SUBSCRIBE, qos, length) == Got(v, end)
  {
  }

  lemma {:induction false} SubscribeBodyAt(d: Bytes, at: nat, qos: TwoBits, v: Variable)
    requires v.Subscribe? && 0 <= v.smid < 65536 && TopicsFit(v.topics) && At(d, at, SubscribeBytes(v))
    ensures ParseBody(d, at, SUBSCRIBE, qos, |SubscribeBytes(v)|) == Got(v, at + |SubscribeBytes(v)|)
  {
    AtSplit(d, at, EncodeInt(v.smid), EncodeTopics(v.topics));
    IntAt(d, at, v.smid);
    TopicsAt(d, at + 2, v.topics);
    SubscribeOf(d, at, qos, |SubscribeBytes(v)|, v, at + |SubscribeBytes(v)|);
  }

  // ----- UNSUBSCRIBE

  predicate NamesFit(names: seq<Bytes>) {
    forall i :: 0 <= i < |names| ==> |names[i]| < 65536
  }

  lemma {:induction false} NameAt(d: Bytes, pos: nat, vlen: int, name: Bytes)
    requires At(d, pos, EncodeString(name)) && |name| < 65536 && vlen > 3
    ensures var rest := ParseNames(d, pos + |name| + 2, vlen - |name| - 2);
            ParseNames(d, pos, vlen) == ([name] + rest.0, rest.1)
  {
    AtSplit(d, pos, EncodeInt(|name|), name);
    IntAt(d, pos, |name|);
    FullAt(d, pos + 2, name);
  }

  lemma {:induction false} NamesSplit(d: Bytes, pos: nat, names: seq<Bytes>)
    requires At(d, pos, EncodeNames(names)) && names != []
    ensures At(d, pos, EncodeString(names[0])) && At(d, pos + |names[0]| + 2, EncodeNames(names[1..]))
    ensures |EncodeNames(names)| == |names[0]| + 2 + |EncodeNames(names[1..])|
    ensures |names| > 1 ==> |EncodeNames(names[1..])| >= 2
  {
    AtSplit(d, pos, EncodeString(names[0]), EncodeNames(names[1..]));
  }

  lemma {:induction false} NamesAt(d: Bytes, pos: nat, names: seq<Bytes>)
    requires NamesFit(names) && At(d, pos, EncodeNames(names))
    ensures ParseNames(d, pos, |EncodeNames(names)| + 2) == (names, pos + |EncodeNames(names)|)
    decreases |names|
  {
    if names != [] {
      var name, rest := names[0], names[1..];
      NamesSplit(d, pos, names);
      NameAt(d, pos, |EncodeNames(names)| + 2, name);
      NamesAt(d, pos + |name| + 2, rest);
      assert names == [name] + rest;
    }
  }

  function UnsubscribeBytes(v: Variable): Bytes
    requires v.Unsubscribe?
  {
    EncodeInt(v.umid) + EncodeNames(v.names)
  }

  predicate Unsubscribing(p: Pack) {
    && p.msgType == UNSUBSCRIBE && p.retain == 0 && p.variable.Unsubscribe?
    && 0 <= p.variable.umid < 65536 && NamesFit(p.variable.names)
  }

  /** Message id, then names. */
  lemma {:induction false} UnsubscribeOf(d: Bytes, at: nat, qos: TwoBits, length: nat, v: Variable, end: nat)
    requires v.Unsubscribe? && v.umid >= 0 && at + 2 <= |d| && ParseInt(d, at) == Got(v.umid, at + 2)
    requires ParseNames(d, at + 2, length) == (v.names, end)
    ensures ParseBody(d, at, UNSUBSCRIBE, qos, length) == Got(v, end)
  {
  }

  lemma {:induction false} UnsubscribeBodyAt(d: Bytes, at: nat, qos: TwoBits, v: Variable)
    requires v.Unsubscribe? && 0 <= v.umid < 65536 && NamesFit(v.names) && At(d, at, UnsubscribeBytes(v))
    ensures ParseBody(d, at, UNSUBSCRIBE, qos, |UnsubscribeBytes(v)|) == Got(v, at + |UnsubscribeBytes(v)|)
  {
    AtSplit(d, at, EncodeInt(v.umid), EncodeNames(v.names));
    IntAt(d, at, v.umid);
    NamesAt(d, at + 2, v.names);
    UnsubscribeOf(d, at, qos, |UnsubscribeBytes(v)|, v, at + |UnsubscribeBytes(v)|);
  }

  /** An UNSUBSCRIBE frame is read back with all its names, and exactly the frame is taken. */
  lemma {:induction false} UnsubscribeFrame(d: Bytes, pos: nat, p: Pack, max: int)
    requires Unsubscribing(p) && Fits(UnsubscribeBytes(p.variable), max)
    requires At(d, pos, FrameBytes(p, UnsubscribeBytes(p.variable)))
    ensures ParsePack(d, pos, max) == Got(p.(length := |UnsubscribeBytes(p.variable)|),
                                          pos + |FrameBytes(p, UnsubscribeBytes(p.variable))|)
  {
    var v, body := p.variable, UnsubscribeBytes(p.variable);
    var at := FrameAt(d, pos, p, body, max);
    UnsubscribeBodyAt(d, at, p.qos, v);
    PackOf(d, pos, max, at, HeaderOf(p, |body|), Got(v, at + |body|));
  }

  // ----- CONNECT

  function One(b: bool): Bit {
    if b then 1 else 0
  }

  function FlagsByte(f: ConnectFlags): Byte {
    One(f.userName) * 128 + One(f.password) * 64 + One(f.willRetain) * 32 + f.willQos * 8
    + One(f.will) * 4 + One(f.clean) * 2 + One(f.reserved)
  }

  lemma {:induction false} HighFlags(u: Bit, p: Bit, low: nat)
    requires low < 64
    ensures var b := u * 128 + (p * 64 + low);
            b / 128 == u && b % 128 / 64 == p && b % 128 % 64 == low
  {
  }

  lemma {:induction false} MiddleFlags(r: Bit, q: TwoBits, low: nat)
    requires low < 8
    ensures var b := r * 32 + (q * 8 + low);
            b / 32 == r && b % 32 / 8 == q && b % 32 % 8 == low
  {
  }

  lemma {:induction false} LowFlags(w: Bit, c: Bit, z: Bit)
    ensures var b := w * 4 + (c * 2 + z);
            b / 4 == w && b % 4 / 2 == c && b % 4 % 2 == z
  {
  }

  lemma {:induction false} FlagBits(u: Bit, p: Bit, r: Bit, q: TwoBits, w: Bit, c: Bit, z: Bit, b: Byte)
    requires b == u * 128 + p * 64 + r * 32 + q * 8 + w * 4 + c * 2 + z
    ensures ParseFlags(b) == ConnectFlags(u != 0, p != 0, r != 0, q, w != 0, c != 0, z != 0)
  {
    var b2 := w * 4 + (c * 2 + z);
    var b5 := r * 32 + (q * 8 + b2);
    HighFlags(u, p, b5);
    MiddleFlags(r, q, b2);
    LowFlags(w, c, z);
  }

  lemma {:induction false} FlagsRoundTrip(f: ConnectFlags)
    ensures ParseFlags(FlagsByte(f)) == f
  {
    FlagBits(One(f.userName), One(f.password), One(f.willRetain), f.willQos,
             One(f.will), One(f.clean), One(f.reserved), FlagsByte(f));
  }

  /** A CONNECT payload field stands at pos, when its flag makes it present. */
  predicate FieldAt(d: Bytes, pos: nat, flag: bool, text: Bytes) {
    pos <= |d| && |text| < 65536 && if flag then At(d, pos, EncodeString(text)) else text == []
  }

  function Width(flag: bool, text: Bytes): nat {
    if flag then 2 + |text| else 0
  }

  /** The fields behind the client identifier, one after the other. */
  predicate EpilogueAt(d: Bytes, pos: nat, f: ConnectFlags, t: Epilogue) {
    var p1 := pos + Width(f.will, t.willTopic);
    var p2 := p1 + Width(f.will, t.willMsg);
    var p3 := p2 + Width(f.userName, t.uname);
    && FieldAt(d, pos, f.will, t.willTopic) && FieldAt(d, p1, f.will, t.willMsg)
    && FieldAt(d, p2, f.userName, t.uname) && FieldAt(d, p3, f.password, t.upassword)
  }

  function EpilogueWidth(f: ConnectFlags, t: Epilogue): nat {
    Width(f.will, t.willTopic) + Width(f.will, t.willMsg) + Width(f.userName, t.uname) + Width(f.password, t.upassword)
  }

  function PrologueBytes(h: Prologue): Bytes {
    EncodeString(h.protocol) + ([h.version] + ([FlagsByte(h.flags)] + EncodeInt(h.keepAlive)))
  }

  function PrologueOf(v: Variable): Prologue
    requires v.Connect?
  {
    Prologue(v.protocol, v.version, v.flags, v.keepAlive)
  }

  function EpilogueOf(v: Variable): Epilogue
    requires v.Connect?
  {
    Epilogue(v.willTopic, v.willMsg, v.uname, v.upassword)
  }

  function ConnectLength(v: Variable): nat
    requires v.Connect?
  {
    |v.protocol| + 6 + 2 + |v.id| + EpilogueWidth(v.flags, EpilogueOf(v))
  }

  /** A conforming CONNECT body stands at pos. */
  predicate ConnectAt(d: Bytes, pos: nat, v: Variable) {
    && v.Connect? && v.keepAlive < 65536 && |v.protocol| < 65536
    && At(d, pos, PrologueBytes(PrologueOf(v)))
    && FieldAt(d, pos + |v.protocol| + 6, true, v.id)
    && EpilogueAt(d, pos + |v.protocol| + 8 + |v.id|, v.flags, EpilogueOf(v))
  }

  /** A field reads back, when its flag makes it present. */
  predicate Reads(d: Bytes, pos: nat, flag: bool, text: Bytes) {
    pos <= |d| && if flag then ParseString(d, pos) == Got(text, pos + 2 + |text|) else text == []
  }

  lemma {:induction false} FieldReads(d: Bytes, pos: nat, flag: bool, text: Bytes)
    requires FieldAt(d, pos, flag, text)
    ensures Reads(d, pos, flag, text)
  {
    if flag {
      StringAt(d, pos, text);
    }
  }

  lemma {:induction false} WillRead(d: Bytes, pos: nat, flag: bool, topic: Bytes, msg: Bytes, left: int)
    requires FieldAt(d, pos, flag, topic) && FieldAt(d, pos + Width(flag, topic), flag, msg) && left >= |topic|
    ensures ParseWill(d, pos, flag, left)
            == Got((topic, msg, left - |topic| - |msg|), pos + Width(flag, topic) + Width(flag, msg))
  {
    FieldReads(d, pos, flag, topic);
    FieldReads(d, pos + Width(flag, topic), flag, msg);
  }

  lemma {:induction false} CredentialRead(d: Bytes, pos: nat, flag: bool, text: Bytes, left: int)
    requires FieldAt(d, pos, flag, text) && left >= Width(flag, text)
    ensures ParseCredential(d, pos, flag, left) == Got((text, left - |text|), pos + Width(flag, text))
  {
    FieldReads(d, pos, flag, text);
  }

  /** The reads of the CONNECT fields behind the identifier, put together. */
  lemma {:induction false} EpilogueJoin(d: Bytes, pos: nat, f: ConnectFlags, left: int, t: Epilogue, p1: nat, p2: nat, p3: nat, left2: int, left3: int, left4: int)
    requires pos <= |d| && p1 <= |d| && p2 <= |d|
    requires ParseWill(d, pos, f.will, left) == Got((t.willTopic, t.willMsg, left2), p1)
    requires ParseCredential(d, p1, f.userName, left2) == Got((t.uname, left3), p2)
    requires ParseCredential(d, p2, f.password, left3) == Got((t.upassword, left4), p3)
    ensures ParseEpilogue(d, pos, f, left) == Got(t, p3)
  {
  }

  /** The reader's count of what is left is too high by two for every string, never too low. */
  lemma {:induction false} EpilogueRead(d: Bytes, pos: nat, f: ConnectFlags, t: Epilogue, left: int)
    requires EpilogueAt(d, pos, f, t) && left >= EpilogueWidth(f, t)
    ensures ParseEpilogue(d, pos, f, left) == Got(t, pos + EpilogueWidth(f, t))
  {
    var p2 := pos + Width(f.will, t.willTopic) + Width(f.will, t.willMsg);
    var left2 := left - |t.willTopic| - |t.willMsg|;
    WillRead(d, pos, f.will, t.willTopic, t.willMsg, left);
    CredentialRead(d, p2, f.userName, t.uname, left2);
    var p3, left3 := p2 + Width(f.userName, t.uname), left2 - |t.uname|;
    CredentialRead(d, p3, f.password, t.upassword, left3);
    EpilogueJoin(d, pos, f, left, t, p2, p3, p3 + Width(f.password, t.upassword), left2, left3, left3 - |t.upassword|);
  }

  /** The reads of the CONNECT fields before the identifier, put together. */
  lemma {:induction false} PrologueJoin(d: Bytes, pos: nat, h: Prologue, p1: nat, length: nat)
    requires pos <= |d| && p1 + 4 <= |d| && |h.protocol| + 4 <= length
    requires ParseString(d, pos) == Got(h.protocol, p1) && d[p1] == h.version && ParseFlags(d[p1 + 1]) == h.flags
    requires ParseInt(d, p1 + 2) == Got(h.keepAlive, p1 + 4)
    ensures ParsePrologue(d, pos, length) == Got(h, p1 + 4)
  {
  }

  lemma {:induction false} PrologueRead(d: Bytes, pos: nat, h: Prologue, f: Byte, length: nat)
    requires ParseFlags(f) == h.flags && |h.protocol| + 4 <= length && |h.protocol| < 65536 && h.keepAlive < 65536
    requires At(d, pos, EncodeString(h.protocol) + ([h.version] + ([f] + EncodeInt(h.keepAlive))))
    ensures ParsePrologue(d, pos, length) == Got(h, pos + |h.protocol| + 6)
  {
    var p1 := pos + 2 + |h.protocol|;
    AtSplit(d, pos, EncodeString(h.protocol), [h.version] + ([f] + EncodeInt(h.keepAlive)));
    StringAt(d, pos, h.protocol);
    AtByte(d, p1, h.version, [f] + EncodeInt(h.keepAlive));
    AtByte(d, p1 + 1, f, EncodeInt(h.keepAlive));
    IntAt(d, p1 + 2, h.keepAlive);
    PrologueJoin(d, pos, h, p1, length);
  }

  lemma {:induction false} PrologueAt(d: Bytes, pos: nat, h: Prologue, length: nat)
    requires |h.protocol| + 4 <= length && |h.protocol| < 65536 && h.keepAlive < 65536
    requires At(d, pos, PrologueBytes(h))
    ensures ParsePrologue(d, pos, length) == Got(h, pos + |h.protocol| + 6)
  {
    FlagsRoundTrip(h.flags);
    PrologueRead(d, pos, h, FlagsByte(h.flags), length);
  }

  /** The client identifier and the fields behind it, put together. */
  lemma {:induction false} ClientOf(d: Bytes, pos: nat, length: nat, v: Variable, p1: nat, p2: nat)
    requires v.Connect? && pos <= |d| && p1 <= |d| && ParseString(d, pos) == Got(v.id, p1)
    requires ParseEpilogue(d, p1, v.flags, length - 2 - |v.protocol| - 4 - |v.id|) == Got(EpilogueOf(v), p2)
    ensures ParseClient(d, pos, PrologueOf(v), length)
            == if 1 <= |v.id| <= 64 then Got(v, p2) else Failed(IdentifierRejected, p1)
  {
  }

  lemma {:induction false} ClientRead(d: Bytes, pos: nat, v: Variable, n: nat, p2: nat, end: nat)
    requires v.Connect? && p2 == pos + 2 + |v.id| && pos <= p2 <= |d|
    requires FieldAt(d, pos, true, v.id)
    requires ParseEpilogue(d, p2, v.flags, n - |v.protocol| - |v.id| - 6) == Got(EpilogueOf(v), end)
    ensures ParseClient(d, pos, PrologueOf(v), n)
            == if 1 <= |v.id| <= 64 then Got(v, end) else Failed(IdentifierRejected, p2)
  {
    StringAt(d, pos, v.id);
    ClientOf(d, pos, n, v, p2, end);
  }

  lemma {:induction false} ConnectOf(d: Bytes, pos: nat, v: Variable, n: nat, p1: nat)
    requires v.Connect? && |v.protocol| + 4 <= n && |v.protocol| < 65536 && v.keepAlive < 65536
    requires At(d, pos, PrologueBytes(PrologueOf(v))) && p1 == pos + |v.protocol| + 6
    ensures pos <= |d| && p1 <= |d| && ParseConnect(d, pos, n) == ParseClient(d, p1, PrologueOf(v), n)
  {
    PrologueAt(d, pos, PrologueOf(v), n);
  }

  lemma {:induction false} ConnectRead(d: Bytes, pos: nat, v: Variable, n: nat, p2: nat)
    requires ConnectAt(d, pos, v) && n == ConnectLength(v) && p2 == pos + |v.protocol| + 8 + |v.id|
    ensures ParseConnect(d, pos, n) == if 1 <= |v.id| <= 64 then Got(v, pos + n) else Failed(IdentifierRejected, p2)
  {
    var p1 := pos + |v.protocol| + 6;
    EpilogueRead(d, p2, v.flags, EpilogueOf(v), n - |v.protocol| - |v.id| - 6);
    ClientRead(d, p1, v, n, p2, pos + n);
    ConnectOf(d, pos, v, n, p1);
  }

  lemma {:induction false} ConnectFrameAt(d: Bytes, pos: nat, at: nat, p: Pack, max: int)
    requires p.msgType == CONNECT && p.retain == 0 && pos <= |d| && at <= |d| && ConnectAt(d, at, p.variable)
    requires ParseHeader(d, pos, max) == Got(HeaderOf(p, ConnectLength(p.variable)), at)
    ensures var n := ConnectLength(p.variable);
            var r := ParsePack(d, pos, max);
            if 1 <= |p.variable.id| <= 64 then r == Got(p.(length := n), at + n)
            else r.Failed? && r.error == IdentifierRejected
  {
    var v, n := p.variable, ConnectLength(p.variable);
    ConnectRead(d, at, v, n, at + |v.protocol| + 8 + |v.id|);
    PackOf(d, pos, max, at, HeaderOf(p, n), ParseConnect(d, at, n));
  }

  /** A conforming CONNECT frame is read back whole if and only if its client identifier has 1 to 64
      bytes; any other identifier is rejected. */
  lemma {:induction false} ConnectFrame(d: Bytes, pos: nat, p: Pack, max: int)
    requires p.msgType == CONNECT && p.retain == 0 && p.variable.Connect?
    requires ConnectLength(p.variable) < 2097152 && ConnectLength(p.variable) <= max
    requires At(d, pos, [HeaderByte(p)] + EncodeLength(ConnectLength(p.variable)))
    requires ConnectAt(d, pos + 1 + |EncodeLength(ConnectLength(p.variable))|, p.variable)
    ensures var n := ConnectLength(p.variable);
            var r := ParsePack(d, pos, max);
            if 1 <= |p.variable.id| <= 64 then r == Got(p.(length := n), pos + 1 + |EncodeLength(n)| + n)
            else r.Failed? && r.error == IdentifierRejected
  {
    var n := ConnectLength(p.variable);
    HeaderAt(d, pos, p, n, max);
    ConnectFrameAt(d, pos, pos + 1 + |EncodeLength(n)|, p, max);
  }
}
