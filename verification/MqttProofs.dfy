/** What is written can be read back (OASIS MQTT 3.1.1, sections 2.2.3, 3.1, 3.3 to 3.8 and 3.10). */
module MqttProofs {
  import opened Wrappers
  import opened Arithmetic
  import opened MqttCodec

  /** The bytes xs stand in stream d at pos. */
  predicate At(d: Bytes, pos: nat, xs: Bytes) {
    pos + |xs| <= |d| && forall i :: 0 <= i < |xs| ==> d[pos + i] == xs[i]
  }

  lemma {:induction false} AtSplit(d: Bytes, pos: nat, xs: Bytes, ys: Bytes)
    requires At(d, pos, xs + ys)
    ensures At(d, pos, xs) && At(d, pos + |xs|, ys)
  {
    forall i | 0 <= i < |xs|
      ensures d[pos + i] == xs[i]
    {
      assert (xs + ys)[i] == xs[i];
    }
    forall i | 0 <= i < |ys|
      ensures d[pos + |xs| + i] == ys[i]
    {
      assert (xs + ys)[|xs| + i] == ys[i];
    }
  }

  lemma {:induction false} FirstByte(d: Bytes, pos: nat, xs: Bytes)
    requires At(d, pos, xs) && xs != []
    ensures pos < |d| && d[pos] == xs[0]
  {
    assert d[pos + 0] == xs[0];
  }

  lemma {:induction false} AtByte(d: Bytes, pos: nat, b: Byte, xs: Bytes)
    requires At(d, pos, [b] + xs)
    ensures pos < |d| && d[pos] == b && At(d, pos + 1, xs)
  {
    AtSplit(d, pos, [b], xs);
    FirstByte(d, pos, [b]);
  }

  lemma {:induction false} FullAt(d: Bytes, pos: nat, xs: Bytes)
    requires At(d, pos, xs)
    ensures ParseFull(d, pos, |xs|) == Got(xs, pos + |xs|)
  {
    assert Slice(d, pos, |xs|) == xs;
  }

  lemma {:induction false} IntAt(d: Bytes, pos: nat, i: int)
    requires At(d, pos, EncodeInt(i))
    ensures ParseInt(d, pos) == Got(i % 65536, pos + 2)
  {
    var xs := EncodeInt(i);
    assert d[pos + 0] == xs[0] && d[pos + 1] == xs[1];
    LowBytes(i);
  }

  lemma {:induction false} StringAt(d: Bytes, pos: nat, s: Bytes)
    requires At(d, pos, EncodeString(s)) && |s| < 65536
    ensures ParseString(d, pos) == Got(s, pos + 2 + |s|)
  {
    AtSplit(d, pos, EncodeInt(|s|), s);
    IntAt(d, pos, |s|);
    FullAt(d, pos + 2, s);
  }

  // ----- Remaining Length (section 2.2.3)

  lemma {:induction false} DigitSplit(n: nat, m: nat)
    ensures (n % 128) * m + (n / 128) * (m * 128) == n * m
  {
    var q, r := n / 128, n % 128;
    assert n == 128 * q + r;
    assert q * (m * 128) == (128 * q) * m;
    assert (128 * q) * m + r * m == (128 * q + r) * m;
  }

  /** How many encoded bytes the reader may still take: it stops at its third length byte. */
  lemma {:induction false} LengthAt(d: Bytes, pos: nat, n: nat, count: nat, multiplier: nat, sum: nat)
    requires 2 <= count <= 4 && n < Pow128(5 - count) && At(d, pos, EncodeLength(n))
    ensures ParseLength(d, pos + 1, EncodeLength(n)[0], count, multiplier, sum)
            == Got(sum + n * multiplier, pos + |EncodeLength(n)|)
    decreases 4 - count
  {
    assert Pow128(1) == 128;
    var b := EncodeLength(n)[0];
    if n >= 128 {
      var rest := EncodeLength(n / 128);
      AtByte(d, pos, 128 + n % 128, rest);
      FirstByte(d, pos + 1, rest);
      assert b % 128 == n % 128 && b / 128 == 1;
      assert count < 4 && n / 128 < Pow128(4 - count) by {
        assert Pow128(5 - count) == 128 * Pow128(4 - count);
      }
      LengthAt(d, pos + 1, n / 128, count + 1, multiplier * 128, sum + (n % 128) * multiplier);
      DigitSplit(n, multiplier);
    }
  }

  /** For every length below 2^21 the length loop returns it and takes exactly its encoding. */
  lemma {:induction false} LengthRoundTrip(d: Bytes, pos: nat, n: nat)
    requires n < 2097152 && At(d, pos, EncodeLength(n))
    ensures ParseLength(d, pos + 1, EncodeLength(n)[0], 2, 1, 0) == Got(n, pos + |EncodeLength(n)|)
  {
    assert Pow128(3) == 128 * Pow128(2) == 128 * (128 * Pow128(1));
    LengthAt(d, pos, n, 2, 1, 0);
  }

  lemma {:induction false} LowDigits(n: nat)
    ensures n % 128 + (n / 128 % 128) * 128 + (n / 128 / 128 % 128) * 16384 == n % 2097152
  {
    var n1, n2 := n / 128, n / 128 / 128;
    var q := n2 / 128;
    var d0: nat, d1: nat, d2: nat := n % 128, n1 % 128, n2 % 128;
    assert n == 128 * n1 + d0 && n1 == 128 * n2 + d1 && n2 == 128 * q + d2;
    QuotientIs(n, 2097152, q, d0 + d1 * 128 + d2 * 16384);
  }

  /** From 2^21 on the reader stops one byte early and keeps only the low 21 bits. */
  lemma {:induction false} LongLengthIsCut(d: Bytes, pos: nat, n: nat)
    requires 2097152 <= n && At(d, pos, EncodeLength(n))
    ensures ParseLength(d, pos + 1, EncodeLength(n)[0], 2, 1, 0) == Got(n % 2097152, pos + 3)
    ensures |EncodeLength(n)| >= 4
  {
    var n1, n2 := n / 128, n / 128 / 128;
    AtByte(d, pos, 128 + n % 128, EncodeLength(n1));
    AtByte(d, pos + 1, 128 + n1 % 128, EncodeLength(n2));
    AtByte(d, pos + 2, 128 + n2 % 128, EncodeLength(n2 / 128));
    LowDigits(n);
    ThreeDigits(d, pos, n % 128, n1 % 128, n2 % 128);
  }

  lemma {:induction false} ThreeDigits(d: Bytes, pos: nat, x: nat, y: nat, z: nat)
    requires x < 128 && y < 128 && z < 128 && pos + 2 < |d|
    requires d[pos + 1] == 128 + y && d[pos + 2] == 128 + z
    ensures ParseLength(d, pos + 1, 128 + x, 2, 1, 0) == Got(x + y * 128 + z * 16384, pos + 3)
  {
    assert ParseLength(d, pos + 3, 128 + z, 4, 16384, x + y * 128) == Got(x + y * 128 + z * 16384, pos + 3);
    assert ParseLength(d, pos + 2, 128 + y, 3, 128, x) == ParseLength(d, pos + 3, 128 + z, 4, 128 * 128, x + y * 128);
  }

  // ----- packs the server sends

  predicate Same(p: Pack, q: Pack) {
    p.(length := 0) == q.(length := 0)
  }

  lemma {:induction false} HeaderBits(p: Pack)
    ensures var fixed := HeaderByte(p);
            fixed / 16 == p.msgType && (fixed % 16) / 8 == p.dup && (fixed % 8) / 2 == p.qos && fixed % 2 == 0
  {
  }

  /** The header of p in front of a frame of the given length. */
  function HeaderOf(p: Pack, length: nat): Header {
    Header(p.msgType, p.dup, p.qos, 0, length)
  }

  /** The reader takes the header of p and its length, when that is below 2^21. */
  lemma {:induction false} HeaderAt(d: Bytes, pos: nat, p: Pack, n: nat, max: int)
    requires At(d, pos, [HeaderByte(p)] + EncodeLength(n)) && n < 2097152 && n <= max
    ensures ParseHeader(d, pos, max) == Got(HeaderOf(p, n), pos + 1 + |EncodeLength(n)|)
  {
    AtByte(d, pos, HeaderByte(p), EncodeLength(n));
    FirstByte(d, pos + 1, EncodeLength(n));
    HeaderBits(p);
    LengthRoundTrip(d, pos + 1, n);
  }

  /** A header that is read at all has its length cut to 21 bits, within the maximum. */
  lemma {:induction false} HeaderCut(d: Bytes, pos: nat, p: Pack, n: nat, max: int)
    requires At(d, pos, [HeaderByte(p)] + EncodeLength(n)) && ParseHeader(d, pos, max).Got?
    ensures ParseHeader(d, pos, max).value == HeaderOf(p, n % 2097152) && n % 2097152 <= max
  {
    AtByte(d, pos, HeaderByte(p), EncodeLength(n));
    FirstByte(d, pos + 1, EncodeLength(n));
    HeaderBits(p);
    if n < 2097152 {
      LengthRoundTrip(d, pos + 1, n);
    } else {
      LongLengthIsCut(d, pos + 1, n);
    }
  }

  predicate PublishInRange(p: Pack, max: int) {
    && p.msgType == PUBLISH && p.variable.Publish? && p.retain == 0
    && 1 <= |p.variable.topic| < 65536
    && (if p.qos > 0 then 0 <= p.variable.pmid < 65536 else p.variable.pmid == 0)
    && PublishLength(p.qos, p.variable) < 2097152 && PublishLength(p.qos, p.variable) <= max
  }

  /** The three reads of a PUBLISH body, put together. */
  lemma {:induction false} PublishOf(d: Bytes, pos: nat, qos: TwoBits, v: Variable, p1: nat, p2: nat)
    requires v.Publish? && |v.topic| >= 1 && v.pmid >= 0 && pos <= |d| && p1 <= |d| && p2 <= |d|
    requires ParseString(d, pos) == Got(v.topic, p1)
    requires if qos > 0 then ParseInt(d, p1) == Got(v.pmid, p2) else v.pmid == 0 && p1 == p2
    requires ParseFull(d, p2, |v.msg|) == Got(v.msg, p2 + |v.msg|)
    ensures ParsePublish(d, pos, qos, PublishLength(qos, v)) == Got(v, p2 + |v.msg|)
  {
  }

  lemma {:induction false} PlainTailAt(d: Bytes, pos: nat, v: Variable, p1: nat)
    requires v.Publish? && |v.topic| >= 1 && v.pmid == 0 && pos <= |d|
    requires At(d, p1, v.msg) && ParseString(d, pos) == Got(v.topic, p1)
    ensures ParsePublish(d, pos, 0, PublishLength(0, v)) == Got(v, p1 + |v.msg|)
  {
    FullAt(d, p1, v.msg);
    PublishOf(d, pos, 0, v, p1, p1);
  }

  lemma {:induction false} IdTailAt(d: Bytes, pos: nat, qos: TwoBits, v: Variable, p1: nat)
    requires v.Publish? && |v.topic| >= 1 && 0 <= v.pmid < 65536 && pos <= |d| && qos > 0
    requires At(d, p1, EncodeInt(v.pmid) + v.msg) && ParseString(d, pos) == Got(v.topic, p1)
    ensures ParsePublish(d, pos, qos, PublishLength(qos, v)) == Got(v, p1 + 2 + |v.msg|)
  {
    AtSplit(d, p1, EncodeInt(v.pmid), v.msg);
    IntAt(d, p1, v.pmid);
    FullAt(d, p1 + 2, v.msg);
    PublishOf(d, pos, qos, v, p1, p1 + 2);
  }

  lemma {:induction false} PublishBodyAt(d: Bytes, pos: nat, p: Pack, max: int)
    requires PublishInRange(p, max)
    requires At(d, pos, EncodeString(p.variable.topic) + PublishTail(p.qos, p.variable))
    ensures ParsePublish(d, pos, p.qos, PublishLength(p.qos, p.variable))
            == Got(p.variable, pos + PublishLength(p.qos, p.variable))
  {
    var v := p.variable;
    AtSplit(d, pos, EncodeString(v.topic), PublishTail(p.qos, v));
    StringAt(d, pos, v.topic);
    if p.qos > 0 {
      IdTailAt(d, pos, p.qos, v, pos + 2 + |v.topic|);
    } else {
      PlainTailAt(d, pos, v, pos + 2 + |v.topic|);
    }
  }

  lemma {:induction false} PublishParts(p: Pack)
    requires p.msgType == PUBLISH && EncodeBody(p).Some?
    ensures EncodePack(p) == ([HeaderByte(p)] + EncodeLength(PublishLength(p.qos, p.variable)))
                             + (EncodeString(p.variable.topic) + PublishTail(p.qos, p.variable))
  {
  }

  /** Header, then body: the whole pack. */
  lemma {:induction false} PackOf(d: Bytes, pos: nat, max: int, at: nat, h: Header, body: Parse<Variable>)
    requires pos <= |d| && at <= |d| && ParseHeader(d, pos, max) == Got(h, at)
    requires ParseBody(d, at, h.msgType, h.qos, h.length) == body
    ensures ParsePack(d, pos, max) == match body
                                      case Failed(e, q) => Failed(e, q)
                                      case Got(v, q) => Got(Pack(h.msgType, h.dup, h.qos, h.retain, h.length, v), q)
  {
  }

  lemma {:induction false} PublishAt(d: Bytes, pos: nat, at: nat, p: Pack, max: int)
    requires PublishInRange(p, max) && pos <= |d|
    requires At(d, at, EncodeString(p.variable.topic) + PublishTail(p.qos, p.variable))
    requires ParseHeader(d, pos, max) == Got(HeaderOf(p, PublishLength(p.qos, p.variable)), at)
    ensures ParsePack(d, pos, max) == Got(p.(length := PublishLength(p.qos, p.variable)), at + PublishLength(p.qos, p.variable))
  {
    var n := PublishLength(p.qos, p.variable);
    PublishBodyAt(d, at, p, max);
    PackOf(d, pos, max, at, HeaderOf(p, n), Got(p.variable, at + n));
  }

  lemma {:induction false} PublishRoundTrip(d: Bytes, pos: nat, p: Pack, max: int)
    requires PublishInRange(p, max) && At(d, pos, EncodePack(p))
    ensures ParsePack(d, pos, max) == Got(p.(length := PublishLength(p.qos, p.variable)), pos + |EncodePack(p)|)
  {
    var v, n := p.variable, PublishLength(p.qos, p.variable);
    var head, body := [HeaderByte(p)] + EncodeLength(n), EncodeString(v.topic) + PublishTail(p.qos, v);
    PublishParts(p);
    AtSplit(d, pos, head, body);
    HeaderAt(d, pos, p, n, max);
    PublishAt(d, pos, pos + |head|, p, max);
  }

  /** What a successful PUBLISH read says about its parts. */
  lemma {:induction false} PublishShape(d: Bytes, pos: nat, qos: TwoBits, length: nat)
    requires pos <= |d| && ParsePublish(d, pos, qos, length).Got?
    ensures var v := ParsePublish(d, pos, qos, length).value;
            && v.Publish? && 1 <= |v.topic| < 65536 && 0 <= v.pmid < 65536 && (qos == 0 ==> v.pmid == 0)
            && var left := length - |v.topic| - (if qos > 0 then 4 else 2);
               |v.msg| == if left <= 0 then 0 else left
  {
  }

  /** A PUBLISH read back as it was behind a header whose length was cut to 21 bits was in range. */
  lemma {:induction false} CutMeansInRange(d: Bytes, at: nat, p: Pack, max: int)
    requires p.msgType == PUBLISH && p.variable.Publish? && p.retain == 0 && at <= |d|
    requires PublishLength(p.qos, p.variable) % 2097152 <= max
    requires ParsePublish(d, at, p.qos, PublishLength(p.qos, p.variable) % 2097152).Got?
    requires ParsePublish(d, at, p.qos, PublishLength(p.qos, p.variable) % 2097152).value == p.variable
    ensures PublishInRange(p, max)
  {
    PublishShape(d, at, p.qos, PublishLength(p.qos, p.variable) % 2097152);
  }

  /** A pack that was read has a header and a body. */
  lemma {:induction false} PackShape(d: Bytes, pos: nat, max: int)
    requires pos <= |d| && ParsePack(d, pos, max).Got?
    ensures var h := ParseHeader(d, pos, max);
            var r := ParsePack(d, pos, max);
            h.Got? && var body := ParseBody(d, h.pos, h.value.msgType, h.value.qos, h.value.length);
                      body.Got? && r.value.variable == body.value && r.pos == body.pos && r.value.retain == h.value.retain
  {
  }

  lemma {:induction false} SameMeansInRange(d: Bytes, pos: nat, p: Pack, max: int)
    requires p.msgType == PUBLISH && EncodeBody(p).Some? && At(d, pos, EncodePack(p))
    requires ParsePack(d, pos, max).Got? && Same(ParsePack(d, pos, max).value, p)
    ensures PublishInRange(p, max)
  {
    var n := PublishLength(p.qos, p.variable);
    PublishParts(p);
    AtSplit(d, pos, [HeaderByte(p)] + EncodeLength(n), EncodeString(p.variable.topic) + PublishTail(p.qos, p.variable));
    PackShape(d, pos, max);
    HeaderCut(d, pos, p, n, max);
    CutMeansInRange(d, ParseHeader(d, pos, max).pos, p, max);
  }

  /** The exact condition for a PUBLISH: what was written is read back as it was if and only if it is
      in range, wherever in a stream it stands. */
  lemma {:induction false} PublishRoundTripExact(d: Bytes, pos: nat, p: Pack, max: int)
    requires p.msgType == PUBLISH && EncodeBody(p).Some? && At(d, pos, EncodePack(p))
    ensures (ParsePack(d, pos, max).Got? && Same(ParsePack(d, pos, max).value, p)) <==> PublishInRange(p, max)
  {
    if PublishInRange(p, max) {
      PublishRoundTrip(d, pos, p, max);
    } else if ParsePack(d, pos, max).Got? && Same(ParsePack(d, pos, max).value, p) {
      SameMeansInRange(d, pos, p, max);
    }
  }

  predicate AckInRange(p: Pack, max: int) {
    p.retain == 0 &&
    if PUBACK <= p.msgType <= PUBCOMP then p.variable.Puback? && 0 <= p.variable.amid < 65536 && max >= 2
    else if p.msgType == SUBACK then p.variable.Suback? && 0 <= p.variable.bmid < 65536 && max >= 3
    else p.msgType == UNSUBACK && p.variable.Unsuback? && 0 <= p.variable.vmid < 65536 && max >= 2
  }

  function AckId(p: Pack): int {
    match p.variable
    case Puback(mid) => mid
    case Suback(mid, _) => mid
    case Unsuback(mid) => mid
    case _ => 0
  }

  function AckBytes(p: Pack): Bytes {
    if p.variable.Suback? then EncodeInt(p.variable.bmid) + [p.variable.qos] else EncodeInt(AckId(p))
  }

  lemma {:induction false} AckParts(p: Pack, max: int)
    requires AckInRange(p, max)
    ensures EncodePack(p) == ([HeaderByte(p)] + EncodeLength(LengthOf(p))) + AckBytes(p)
    ensures LengthOf(p) == |AckBytes(p)| <= max
  {
  }

  lemma {:induction false} AckBodyAt(d: Bytes, pos: nat, p: Pack, max: int)
    requires AckInRange(p, max) && At(d, pos, AckBytes(p))
    ensures ParseBody(d, pos, p.msgType, p.qos, LengthOf(p)) == Got(p.variable, pos + LengthOf(p))
  {
    if p.variable.Suback? {
      SubackBodyAt(d, pos, p.qos, p.variable);
    } else {
      IntAt(d, pos, AckId(p));
    }
  }

  lemma {:induction false} SubackBodyAt(d: Bytes, pos: nat, qos: TwoBits, v: Variable)
    requires v.Suback? && 0 <= v.bmid < 65536 && At(d, pos, EncodeInt(v.bmid) + [v.qos])
    ensures ParseBody(d, pos, SUBACK, qos, 3) == Got(v, pos + 3)
  {
    AtSplit(d, pos, EncodeInt(v.bmid), [v.qos]);
    IntAt(d, pos, v.bmid);
    FirstByte(d, pos + 2, [v.qos]);
  }

  lemma {:induction false} AckRoundTrip(d: Bytes, pos: nat, p: Pack, max: int)
    requires AckInRange(p, max) && At(d, pos, EncodePack(p))
    ensures ParsePack(d, pos, max) == Got(p.(length := LengthOf(p)), pos + |EncodePack(p)|)
  {
    var n := LengthOf(p);
    AckParts(p, max);
    AtSplit(d, pos, [HeaderByte(p)] + EncodeLength(n), AckBytes(p));
    HeaderAt(d, pos, p, n, max);
    AckBodyAt(d, pos + 1 + |EncodeLength(n)|, p, max);
    PackOf(d, pos, max, pos + 1 + |EncodeLength(n)|, HeaderOf(p, n), Got(p.variable, pos + |EncodePack(p)|));
  }

  predicate InRange(p: Pack, max: int) {
    PublishInRange(p, max) || AckInRange(p, max)
  }

  function LengthOf(p: Pack): nat {
    if p.variable.Publish? then PublishLength(p.qos, p.variable) else if p.msgType == SUBACK then 3 else 2
  }

  lemma {:induction false} PackRoundTrip(d: Bytes, pos: nat, p: Pack, max: int)
    requires InRange(p, max) && At(d, pos, EncodePack(p))
    ensures ParsePack(d, pos, max) == Got(p.(length := LengthOf(p)), pos + |EncodePack(p)|)
  {
    if PublishInRange(p, max) {
      PublishRoundTrip(d, pos, p, max);
    } else {
      AckRoundTrip(d, pos, p, max);
    }
  }

  // ----- streams

  function EncodeAll(packs: seq<Pack>): Bytes {
    if packs == [] then [] else EncodePack(packs[0]) + EncodeAll(packs[1..])
  }

  /** Repeated ReadPack until the stream is used up or a read fails. */
  function ReadAll(d: Bytes, pos: nat, max: int): (r: (seq<Pack>, nat))
    requires pos <= |d|
    decreases |d| - pos
  {
    if pos == |d| then ([], pos) else
    match ParsePack(d, pos, max)
    case Failed(_, _) => ([], pos)
    case Got(p, next) =>
      if next <= pos then ([p], pos) else
      var rest := ReadAll(d, next, max);
      ([p] + rest.0, rest.1)
  }

  lemma {:induction false} ReadOne(d: Bytes, pos: nat, p: Pack, next: nat, max: int)
    requires pos < next <= |d| && ParsePack(d, pos, max) == Got(p, next)
    ensures ReadAll(d, pos, max) == ([p] + ReadAll(d, next, max).0, ReadAll(d, next, max).1)
  {
  }

  /** The packs with their `length` fields filled in, as a reader leaves them. */
  function Sized(packs: seq<Pack>): seq<Pack> {
    if packs == [] then [] else [packs[0].(length := LengthOf(packs[0]))] + Sized(packs[1..])
  }

  /** Any list of in-range packs, written one after the other, is read back as that list, and every
      byte is used. */
  lemma {:induction false} StreamRoundTrip(d: Bytes, pos: nat, packs: seq<Pack>, max: int)
    requires forall i :: 0 <= i < |packs| ==> InRange(packs[i], max)
    requires At(d, pos, EncodeAll(packs)) && pos + |EncodeAll(packs)| == |d|
    ensures ReadAll(d, pos, max) == (Sized(packs), |d|)
    decreases |packs|
  {
    if packs != [] {
      var p, rest := packs[0], packs[1..];
      var next := pos + |EncodePack(p)|;
      AtSplit(d, pos, EncodePack(p), EncodeAll(rest));
      PackRoundTrip(d, pos, p, max);
      ReadOne(d, pos, p.(length := LengthOf(p)), next, max);
      StreamRoundTrip(d, next, rest, max);
    }
  }
}
