/** PUBLISH, the four acknowledgements and SUBSCRIBE, and a PUBLISH relayed whole between
    nodes. */
module Packets {
  import opened Codec
  import opened FixedHeader
  import opened Properties

  // ----- PUBLISH

  datatype Publish = Publish(
    header: Header, version: byte, topic: Bytes, packetID: uint16, properties: Properties, payload: Bytes)

  /** The part between the fixed header and the payload. */
  function PublishVariableHeader(pk: Publish, mods: Mods): (b: Bytes) {
    var nb := EncodeBytes(pk.topic) + (if pk.header.qos > 0 then EncodeUint16(pk.packetID) else []);
    if pk.version == 5
    then nb + EncodeProperties(pk.properties, pk.header.packetType, mods, |nb| + |pk.payload|)
    else nb
  }

  function PublishBody(pk: Publish, mods: Mods): (b: Bytes) {
    PublishVariableHeader(pk, mods) + pk.payload
  }

  /** A packet as it goes on the wire: header byte, remaining length, body. */
  function Framed(h: Header, body: Bytes): (b: Bytes) {
    [HeaderByte(h)] + Vbi(|body|) + body
  }

  function PublishEncode(pk: Publish, mods: Mods): (r: Result<Bytes>)
    ensures r.Err? <==> pk.header.qos > 0 && pk.packetID == 0
  {
    if pk.header.qos > 0 && pk.packetID == 0 then Err(NoPacketID)
    else Ok(Framed(pk.header, PublishBody(pk, mods)))
  }

  function PublishDecode(h: Header, version: byte, buf: Bytes): (r: Result<Publish>) {
    var (topic, o1) :- DecodeString(buf, 0).Else(MalformedTopic);
    var (id, o2) :- if h.qos > 0 then DecodeUint16(buf, o1).Else(MalformedPacketID) else Ok((0, o1));
    var (properties, n) :-
      if version == 5 then DecodeProperties(ZERO, h.packetType, buf[o2..]).Else(MalformedProperties) else Ok((ZERO, 0));
    Ok(Publish(h, version, topic, id, properties, buf[o2 + n..]))
  }

  /** The rest of a packet, counted into the room for problem texts. */
  function RestOf(pk: Publish): (n: nat) {
    |EncodeBytes(pk.topic)| + (if pk.header.qos > 0 then 2 else 0) + |pk.payload|
  }

  /** Properties that the wire form can carry whole. */
  predicate Carries(p: Properties, pkt: byte, mods: Mods, n: nat) {
    && WellTyped(p) && FewEnough(p) && AllFit(Items(p, pkt, mods, n))
    && |EncodeItems(Items(p, pkt, mods, n))| <= MAX_LENGTH
  }

  predicate WellFormed(pk: Publish, mods: Mods) {
    && |pk.topic| < 0x1_0000 && ValidUTF8(pk.topic)
    && (pk.version == 5 ==> Carries(pk.properties, pk.header.packetType, mods, RestOf(pk)))
  }

  /** What a receiver gets: no packet id at qos 0, and only a version 5 packet's properties,
      in normal form. */
  function Delivered(pk: Publish, mods: Mods): (q: Publish) {
    pk.(packetID := if pk.header.qos > 0 then pk.packetID else 0,
        properties := if pk.version == 5
                      then Normalise(pk.properties, pk.header.packetType, mods, RestOf(pk)) else ZERO)
  }

  lemma PublishRoundTrip(pk: Publish, mods: Mods)
    requires WellFormed(pk, mods)
    ensures PublishDecode(pk.header, pk.version, PublishBody(pk, mods)) == Ok(Delivered(pk, mods))
  {
    hide DecodeProperties, EncodeProperties, Normalise, EncodeBytes, EncodeUint16, DecodeUint16, DecodeString;
    hide ValidUTF8, WellTyped, FewEnough, AllFit, Items, EncodeItems;
    var topic := EncodeBytes(pk.topic);
    var id := if pk.header.qos > 0 then EncodeUint16(pk.packetID) else [];
    var props := if pk.version == 5
                 then EncodeProperties(pk.properties, pk.header.packetType, mods, RestOf(pk)) else [];
    var body := PublishBody(pk, mods);
    assert body == topic + id + props + pk.payload;
    Pieces(topic, id, props, pk.payload);
    ReadString([], pk.topic, id + props + pk.payload);
    if pk.header.qos > 0 { ReadUint16(topic, pk.packetID, props + pk.payload); }
    if pk.version == 5 {
      PropertiesRoundTrip(pk.properties, pk.header.packetType, mods, RestOf(pk), pk.payload);
    }
  }

  lemma Pieces(a: Bytes, b: Bytes, c: Bytes, d: Bytes)
    ensures a + b + c + d == [] + a + (b + c + d)
    ensures a + b + c + d == a + b + (c + d)
    ensures (a + b + c + d)[|a| + |b|..] == c + d
    ensures (a + b + c + d)[|a| + |b| + |c|..] == d
  {
  }

  // ----- a PUBLISH relayed between nodes

  /** Reads header byte and remaining length off the front of a relayed packet. */
  function ReadFixedHeader(b: Bytes, h: Header): (r: Result<Header>) {
    if |b| == 0 then Err(MalformedPacket)
    else
      var next :- DecodeHeader(h, b[0]);
      var (remaining, _) :- ReadLength(b[1..], 0);
      Ok(next.(remaining := remaining))
  }

  /** What the receiving node makes of a relayed payload: the body is the last
      `remaining` bytes. */
  function Unpack(b: Bytes, version: byte): (r: Result<Publish>) {
    var h :- ReadFixedHeader(b, BLANK.(packetType := PUBLISH));
    if |b| < h.remaining then Err(MalformedPacket)
    else PublishDecode(h, version, b[|b| - h.remaining..])
  }

  /** A relayed publish arrives with the topic, payload, flags and packet id it had, and
      its properties in normal form; the body is cut off exactly after the fixed header. */
  lemma RelayRoundTrip(pk: Publish, mods: Mods)
    requires WellFormed(pk, mods) && pk.header.packetType == PUBLISH && FlagsAllowed(pk.header)
    requires pk.header.qos > 0 ==> pk.packetID > 0
    requires |PublishBody(pk, mods)| <= MAX_LENGTH
    ensures var sent := PublishEncode(pk, mods);
            && sent.Ok?
            && Unpack(sent.value, pk.version)
               == Ok(Delivered(pk, mods).(header := pk.header.(remaining := |PublishBody(pk, mods)|)))
            && |sent.value| - |PublishBody(pk, mods)| == 1 + |Vbi(|PublishBody(pk, mods)|)|
  {
    hide HeaderByte, DecodeHeader, ReadLength, Vbi, PublishBody, PublishDecode, Normalise;
    var body := PublishBody(pk, mods);
    var sent := Framed(pk.header, body);
    var blank := BLANK.(packetType := PUBLISH, remaining := pk.header.remaining);
    HeaderRoundTrip(pk.header, blank);
    SameHeader(blank, pk.header.remaining, HeaderByte(pk.header));
    ReadVbi(|body|, body);
    assert sent[1..] == Vbi(|body|) + body;
    assert sent[|sent| - |body|..] == body;
    var got := pk.(header := pk.header.(remaining := |body|));
    SameBody(pk, got, mods);
    PublishRoundTrip(got, mods);
  }

  lemma SameHeader(h: Header, remaining: nat, hb: byte)
    requires h.remaining == remaining
    ensures DecodeHeader(h.(remaining := 0), hb) ==
            match DecodeHeader(h, hb) case Ok(x) => Ok(x.(remaining := 0)) case Err(e) => Err(e)
  {
  }

  lemma SameBody(pk: Publish, got: Publish, mods: Mods)
    requires got == pk.(header := pk.header.(remaining := got.header.remaining))
    ensures PublishBody(got, mods) == PublishBody(pk, mods) && RestOf(got) == RestOf(pk)
    ensures WellFormed(pk, mods) ==> WellFormed(got, mods)
    ensures Delivered(got, mods) == Delivered(pk, mods).(header := got.header)
  {
  }

  // ----- PUBACK, PUBREC, PUBREL, PUBCOMP

  datatype Ack = Ack(header: Header, version: byte, packetID: uint16, reasonCode: byte, properties: Properties)

  const UNSPECIFIED_ERROR := 0x80

  /** The reason code goes out only with an error or with properties. */
  function AckBody(pk: Ack, mods: Mods): (b: Bytes) {
    var nb := EncodeUint16(pk.packetID);
    if pk.version == 5 then
      var pb := EncodeProperties(pk.properties, pk.header.packetType, mods, 2);
      nb + (if pk.reasonCode >= UNSPECIFIED_ERROR || |pb| > 1 then [pk.reasonCode] else [])
      + (if |pb| > 1 then pb else [])
    else nb
  }

  function AckDecode(h: Header, version: byte, buf: Bytes): (r: Result<Ack>) {
    var (id, o1) :- DecodeUint16(buf, 0).Else(MalformedPacketID);
    if version == 5 && h.remaining > 2 then
      var (reason, o2) :- DecodeByte(buf, o1).Else(MalformedReasonCode);
      if h.remaining > 3 then
        var (properties, _) :- DecodeProperties(ZERO, h.packetType, buf[o2..]).Else(MalformedProperties);
        Ok(Ack(h, version, id, reason, properties))
      else Ok(Ack(h, version, id, reason, ZERO))
    else Ok(Ack(h, version, id, 0, ZERO))
  }

  /** An acknowledgement comes back with its packet id and normal properties, and with its
      reason code exactly when that is success, an error, or accompanied by properties. */
  lemma AckRoundTrip(pk: Ack, mods: Mods)
    requires pk.version == 5 ==> Carries(pk.properties, pk.header.packetType, mods, 2)
    requires pk.header.remaining == |AckBody(pk, mods)|
    ensures var r := AckDecode(pk.header, pk.version, AckBody(pk, mods));
            var q := if pk.version == 5 then Normalise(pk.properties, pk.header.packetType, mods, 2) else ZERO;
            && r.Ok? && r.value == pk.(properties := q, reasonCode := r.value.reasonCode)
            && (r.value.reasonCode == pk.reasonCode <==>
                  || pk.reasonCode == 0
                  || (pk.version == 5 && (pk.reasonCode >= UNSPECIFIED_ERROR || q != ZERO)))
  {
    hide DecodeProperties, EncodeProperties, Normalise, EncodeUint16, DecodeUint16;
    var id, body := EncodeUint16(pk.packetID), AckBody(pk, mods);
    if pk.version == 5 {
      var pb := EncodeProperties(pk.properties, pk.header.packetType, mods, 2);
      PropertiesRoundTrip(pk.properties, pk.header.packetType, mods, 2, []);
      assert pb + [] == pb;
      EmptyProperties(pk.properties, pk.header.packetType, mods, 2);
      var tail := body[2..];
      assert body == [] + id + tail;
      ReadUint16([], pk.packetID, tail);
      if |pb| > 1 {
        assert body[3..] == pb;
      } else if pk.reasonCode >= UNSPECIFIED_ERROR {
        assert body == id + [pk.reasonCode];
      }
    } else {
      assert body == [] + id + [];
      ReadUint16([], pk.packetID, []);
    }
  }

  /** Such a reason code: 16, no matching subscribers, comes back as success. */
  lemma ReasonLost(h: Header, id: uint16, mods: Mods)
    requires h.remaining == |AckBody(Ack(h, 5, id, 16, ZERO), mods)|
    ensures AckDecode(h, 5, AckBody(Ack(h, 5, id, 16, ZERO), mods)) == Ok(Ack(h, 5, id, 0, ZERO))
  {
    hide ItemsOf, Order, EncodeUint16, DecodeUint16;
    NothingToWrite(Order(), h.packetType, mods, 2);
    assert EncodeProperties(ZERO, h.packetType, mods, 2) == [0];
    ReadUint16([], id, []);
    assert AckBody(Ack(h, 5, id, 16, ZERO), mods) == [] + EncodeUint16(id) + [];
  }

  lemma {:induction false} NothingToWrite(keys: seq<byte>, pkt: byte, mods: Mods, n: nat)
    ensures ItemsOf(keys, ZERO, pkt, mods, n) == []
    decreases |keys|
  {
    if keys != [] { NothingToWrite(keys[1..], pkt, mods, n); }
  }

  /** A property section of one byte is the empty one, and the normal form is then empty. */
  lemma EmptyProperties(p: Properties, pkt: byte, mods: Mods, n: nat)
    requires Carries(p, pkt, mods, n)
    ensures |EncodeProperties(p, pkt, mods, n)| >= 1
    ensures |EncodeProperties(p, pkt, mods, n)| == 1 <==> Normalise(p, pkt, mods, n) == ZERO
  {
    hide Order, ItemsOf, Normalise, WellTyped, FewEnough, AllFit, AllSound;
    var items := Items(p, pkt, mods, n);
    ItemsSound(Order(), p, pkt, mods, n);
    FoldItems(p, pkt, mods, n);
    if items == [] {
      assert EncodeItems(items) == [];
    } else {
      FoldNotZero(items, pkt);
      assert |EncodeItems(items)| >= 1;
    }
  }

  lemma FoldNotZero(items: seq<Item>, pkt: byte)
    requires AllSound(items, pkt) && items != []
    ensures Fold(ZERO, items, pkt) != ZERO
  {
    ApplyNotZero(ZERO, items[0]);
    FoldGrows(Apply(ZERO, items[0]), items[1..], pkt);
  }

  lemma ApplyNotZero(p: Properties, item: Item)
    requires HasKind(item.value, KindOf(item.k))
    ensures Apply(p, item) != ZERO
  {
    if item.k != SUBSCRIPTION_IDENTIFIER && item.k != USER {
      assert item.k in Apply(p, item).slots;
    }
  }

  lemma {:induction false} FoldGrows(p: Properties, items: seq<Item>, pkt: byte)
    requires AllSound(items, pkt) && p != ZERO
    ensures Fold(p, items, pkt) != ZERO
    decreases |items|
  {
    hide Sound, Apply;
    if items != [] {
      SoundKind(items[0], pkt);
      ApplyNotZero(p, items[0]);
      FoldGrows(Apply(p, items[0]), items[1..], pkt);
    }
  }

  // ----- SUBSCRIBE

  datatype Sub = Sub(filter: Bytes, qos: byte, noLocal: bool, retainAsPublished: bool, retainHandling: byte,
                     identifier: int)

  function OptionByte(s: Sub): (b: byte) {
    OrByte(OrByte(OrByte(s.qos, Shl8(Bit(s.noLocal), 2)), Shl8(Bit(s.retainAsPublished), 3)), Shl8(s.retainHandling, 4))
  }

  /** Reads the options into a subscription. */
  function DecodeOptions(s: Sub, b: byte): (r: Result<Sub>) {
    if b / 64 != 0 then Err(MalformedFlags)
    else
      Ok(s.(qos := b % 4, noLocal := b / 4 % 2 > 0, retainAsPublished := b / 8 % 2 > 0, retainHandling := b / 16 % 4))
  }

  lemma OptionBits(s: Sub)
    requires s.qos < 4 && s.retainHandling < 4
    ensures OptionByte(s) == s.qos + Bit(s.noLocal) * 4 + Bit(s.retainAsPublished) * 8 + s.retainHandling * 16
  {
    hide Or;
    var q: nat, l: nat, p: nat, h: nat := s.qos, Bit(s.noLocal), Bit(s.retainAsPublished), s.retainHandling;
    assert Pow2(2) == 4 && Pow2(3) == 8 && Pow2(4) == 16;
    hide Pow2;
    OrDisjoint(q, l, 2);
    OrDisjoint(q + l * 4, p, 3);
    OrDisjoint(q + l * 4 + p * 8, h, 4);
  }

  /** The options come back when qos and retain handling fit their two bits each. */
  lemma OptionsRoundTrip(s: Sub, blank: Sub)
    requires s.qos < 4 && s.retainHandling < 4
    ensures DecodeOptions(blank.(filter := s.filter, identifier := s.identifier), OptionByte(s)) == Ok(s)
  {
    OptionBits(s);
    OptionFields(s.qos, Bit(s.noLocal), Bit(s.retainAsPublished), s.retainHandling, OptionByte(s));
  }

  /** Options with a reserved bit are refused, and so is a filter with a QoS above 2. */
  lemma OptionsRefused(s: Sub, b: byte, buf: Bytes, offset: nat, version: byte, identifier: int)
    ensures DecodeOptions(s, b) == Err(MalformedFlags) <==> b >= 64
    ensures var r := DecodeSub(buf, offset, version, identifier); r.Ok? ==> r.value.0.qos <= 2
  {
  }

  lemma OptionFields(q: nat, l: nat, p: nat, h: nat, b: nat)
    requires q < 4 && l < 2 && p < 2 && h < 4 && b == q + l * 4 + p * 8 + h * 16
    ensures b / 64 == 0 && b % 4 == q && b / 4 % 2 == l && b / 8 % 2 == p && b / 16 % 4 == h
  {
  }

  function EncodeSub(s: Sub, version: byte): (b: Bytes) {
    EncodeBytes(s.filter) + [if version == 5 then OptionByte(s) else s.qos]
  }

  function EncodeSubs(subs: seq<Sub>, version: byte): (b: Bytes) {
    if subs == [] then [] else EncodeSub(subs[0], version) + EncodeSubs(subs[1..], version)
  }

  datatype Subscribe = Subscribe(header: Header, version: byte, packetID: uint16, properties: Properties,
                                 filters: seq<Sub>)

  function SubscribeBody(pk: Subscribe, mods: Mods): (b: Bytes) {
    var nb, xb := EncodeUint16(pk.packetID), EncodeSubs(pk.filters, pk.version);
    nb + (if pk.version == 5 then EncodeProperties(pk.properties, pk.header.packetType, mods, 2 + |xb|) else []) + xb
  }

  function SubscribeEncode(pk: Subscribe, mods: Mods): (r: Result<Bytes>)
    ensures r.Err? <==> pk.packetID == 0
  {
    if pk.packetID == 0 then Err(NoPacketID) else Ok(Framed(pk.header, SubscribeBody(pk, mods)))
  }

  const NO_SUB := Sub([], 0, false, false, 0, 0)

  /** Reads one filter with its options. */
  function DecodeSub(buf: Bytes, offset: nat, version: byte, identifier: int): (r: Result<(Sub, nat)>)
    ensures r.Ok? ==> offset < r.value.1 <= |buf|
  {
    var (filter, o1) :- DecodeString(buf, offset).Else(MalformedTopic);
    var (option, o2) :- DecodeByte(buf, o1).Else(MalformedQos);
    var s := NO_SUB.(filter := filter, identifier := identifier);
    var sub :- if version == 5 then DecodeOptions(s, option) else Ok(s.(qos := option));
    if sub.qos > 2 then Err(QosOutOfRange) else Ok((sub, o2))
  }

  function DecodeSubs(buf: Bytes, offset: nat, version: byte, identifier: int, subs: seq<Sub>): (r: Result<seq<Sub>>)
    decreases |buf| - offset
  {
    if offset >= |buf| then Ok(subs)
    else
      var (s, next) :- DecodeSub(buf, offset, version, identifier);
      DecodeSubs(buf, next, version, identifier, subs + [s])
  }

  function IdentifierOf(p: Properties): (id: int) {
    if |p.subscriptionIdentifier| > 0 then p.subscriptionIdentifier[0] else 0
  }

  function SubscribeDecodeSpec(h: Header, version: byte, buf: Bytes): (r: Result<Subscribe>) {
    var (id, o1) :- DecodeUint16(buf, 0).Else(MalformedPacketID);
    var (properties, n) :-
      if version == 5 then DecodeProperties(ZERO, h.packetType, buf[o1..]).Else(MalformedProperties) else Ok((ZERO, 0));
    var subs :- DecodeSubs(buf, o1 + n, version, IdentifierOf(properties), []);
    Ok(Subscribe(h, version, id, properties, subs))
  }

  /** Reads the filters of a SUBSCRIBE one after the other; every round moves on. */
  method SubscribeDecode(h: Header, version: byte, buf: Bytes) returns (r: Result<Subscribe>)
    ensures r == SubscribeDecodeSpec(h, version, buf)
  {
    hide DecodeProperties, DecodeUint16, DecodeSub;
    var first := DecodeUint16(buf, 0);
    if first.Err? { return Err(MalformedPacketID); }
    var (id, offset) := first.value;
    var properties := ZERO;
    if version == 5 {
      var p := Decode(ZERO, h.packetType, buf[offset..]);
      if p.Err? { return Err(MalformedProperties); }
      properties, offset := p.value.0, offset + p.value.1;
    }
    ghost var start := offset;
    var subs := [];
    while offset < |buf|
      invariant DecodeSubs(buf, offset, version, IdentifierOf(properties), subs)
             == DecodeSubs(buf, start, version, IdentifierOf(properties), [])
      decreases |buf| - offset
    {
      var s := DecodeSub(buf, offset, version, IdentifierOf(properties));
      if s.Err? { return Err(s.error); }
      subs, offset := subs + [s.value.0], s.value.1;
    }
    return Ok(Subscribe(h, version, id, properties, subs));
  }

  predicate SubFits(s: Sub, version: byte) {
    |s.filter| < 0x1_0000 && ValidUTF8(s.filter) && s.qos <= 2 && (version == 5 ==> s.retainHandling < 4)
  }

  /** What a reader makes of one filter: before version 5 only its qos travels. */
  function ReadBackSub(s: Sub, version: byte, identifier: int): (r: Sub) {
    if version == 5 then s.(identifier := identifier)
    else NO_SUB.(filter := s.filter, qos := s.qos, identifier := identifier)
  }

  function ReadBackSubs(subs: seq<Sub>, version: byte, identifier: int): (r: seq<Sub>)
    ensures |r| == |subs|
    ensures forall i :: 0 <= i < |subs| ==> r[i] == ReadBackSub(subs[i], version, identifier)
  {
    if subs == [] then []
    else [ReadBackSub(subs[0], version, identifier)] + ReadBackSubs(subs[1..], version, identifier)
  }

  lemma ReadSub(pre: Bytes, s: Sub, post: Bytes, version: byte, identifier: int)
    requires SubFits(s, version)
    ensures DecodeSub(pre + EncodeSub(s, version) + post, |pre|, version, identifier)
         == Ok((ReadBackSub(s, version, identifier), |pre| + |EncodeSub(s, version)|))
  {
    hide EncodeBytes, DecodeString, ValidUTF8, OptionByte, DecodeOptions;
    var f, o: Bytes := EncodeBytes(s.filter), [if version == 5 then OptionByte(s) else s.qos];
    var buf := pre + EncodeSub(s, version) + post;
    assert buf == pre + f + (o + post);
    ReadString(pre, s.filter, o + post);
    assert buf[|pre| + |f|] == o[0];
    if version == 5 { OptionsRoundTrip(s.(identifier := identifier), NO_SUB); SameOptions(s, identifier); }
  }

  lemma SameOptions(s: Sub, identifier: int)
    ensures OptionByte(s.(identifier := identifier)) == OptionByte(s)
  {
  }

  lemma {:induction false} ReadSubs(pre: Bytes, subs: seq<Sub>, version: byte, identifier: int, done: seq<Sub>)
    requires forall i :: 0 <= i < |subs| ==> SubFits(subs[i], version)
    ensures DecodeSubs(pre + EncodeSubs(subs, version), |pre|, version, identifier, done)
         == Ok(done + ReadBackSubs(subs, version, identifier))
    decreases |subs|
  {
    hide EncodeSub, DecodeSub, ReadBackSub, SubFits;
    if subs == [] {
      assert done + [] == done;
    } else {
      var s, rest := EncodeSub(subs[0], version), EncodeSubs(subs[1..], version);
      var back := ReadBackSub(subs[0], version, identifier);
      assert pre + EncodeSubs(subs, version) == pre + s + rest == (pre + s) + rest;
      ReadSub(pre, subs[0], rest, version, identifier);
      NotEmpty(subs[0], version);
      ReadSubs(pre + s, subs[1..], version, identifier, done + [back]);
      assert done + [back] + ReadBackSubs(subs[1..], version, identifier) ==
        done + ReadBackSubs(subs, version, identifier);
    }
  }

  lemma NotEmpty(s: Sub, version: byte)
    ensures |EncodeSub(s, version)| > 0
  {
  }

  predicate SubscribeFits(pk: Subscribe, mods: Mods) {
    && (forall i :: 0 <= i < |pk.filters| ==> SubFits(pk.filters[i], pk.version))
    && (pk.version == 5 ==>
          Carries(pk.properties, pk.header.packetType, mods, 2 + |EncodeSubs(pk.filters, pk.version)|))
  }

  /** A SUBSCRIBE comes back with its packet id, its filters in order with their options,
      and every filter carrying the packet's subscription identifier. */
  lemma SubscribeRoundTrip(pk: Subscribe, mods: Mods)
    requires SubscribeFits(pk, mods)
    ensures var q := if pk.version == 5
                     then Normalise(pk.properties, pk.header.packetType, mods, 2 + |EncodeSubs(pk.filters, pk.version)|)
                     else ZERO;
            SubscribeDecodeSpec(pk.header, pk.version, SubscribeBody(pk, mods))
            == Ok(pk.(properties := q, filters := ReadBackSubs(pk.filters, pk.version, IdentifierOf(q))))
  {
    hide DecodeProperties, EncodeProperties, Normalise, EncodeUint16, DecodeUint16, EncodeSubs, DecodeSubs;
    hide IdentifierOf;
    hide SubFits, WellTyped, FewEnough, AllFit, Items, EncodeItems, ReadBackSub;
    var id, xb := EncodeUint16(pk.packetID), EncodeSubs(pk.filters, pk.version);
    var props := if pk.version == 5 then EncodeProperties(pk.properties, pk.header.packetType, mods, 2 + |xb|) else [];
    var body := SubscribeBody(pk, mods);
    var q := if pk.version == 5 then Normalise(pk.properties, pk.header.packetType, mods, 2 + |xb|) else ZERO;
    assert body == [] + id + (props + xb);
    ReadUint16([], pk.packetID, props + xb);
    assert body[2..] == props + xb;
    if pk.version == 5 { PropertiesRoundTrip(pk.properties, pk.header.packetType, mods, 2 + |xb|, xb); }
    assert body == (id + props) + xb;
    ReadSubs(id + props, pk.filters, pk.version, IdentifierOf(q), []);
    assert [] + ReadBackSubs(pk.filters, pk.version, IdentifierOf(q)) ==
      ReadBackSubs(pk.filters, pk.version, IdentifierOf(q));
  }

  /** The same for the packet as it goes on the wire: its fixed header is read back, with the
      length of exactly the bytes that follow it, and those are read back as the body. */
  lemma SubscribePacketRoundTrip(pk: Subscribe, mods: Mods)
    requires SubscribeFits(pk, mods) && pk.header.packetType == SUBSCRIBE && FlagsAllowed(pk.header)
    requires pk.packetID > 0 && |SubscribeBody(pk, mods)| <= MAX_LENGTH
    ensures var sent := SubscribeEncode(pk, mods);
            var got := pk.(header := pk.header.(remaining := |SubscribeBody(pk, mods)|));
            && sent.Ok? && |sent.value| >= got.header.remaining
            && ReadFixedHeader(sent.value, BLANK) == Ok(got.header)
            && sent.value[|sent.value| - got.header.remaining..] == SubscribeBody(pk, mods) == SubscribeBody(got, mods)
            && SubscribeFits(got, mods)
  {
    hide HeaderByte, DecodeHeader, ReadLength, Vbi, SubscribeBody, SubFits, Carries, EncodeSubs;
    var body := SubscribeBody(pk, mods);
    var sent := Framed(pk.header, body);
    var blank := BLANK.(remaining := pk.header.remaining);
    HeaderRoundTrip(pk.header, blank);
    SameHeader(blank, pk.header.remaining, HeaderByte(pk.header));
    ReadVbi(|body|, body);
    assert sent[1..] == Vbi(|body|) + body;
    assert sent[|sent| - |body|..] == body;
    SameSubscribeBody(pk, pk.(header := pk.header.(remaining := |body|)), mods);
  }

  lemma SameSubscribeBody(pk: Subscribe, got: Subscribe, mods: Mods)
    requires got == pk.(header := pk.header.(remaining := got.header.remaining))
    ensures SubscribeBody(got, mods) == SubscribeBody(pk, mods)
    ensures SubscribeFits(pk, mods) ==> SubscribeFits(got, mods)
  {
  }

  // ----- where things stand in a body

  /** A two-byte number, most significant byte first. */
  predicate NumberAt(b: Bytes, i: nat, v: nat) {
    i + 2 <= |b| && (b[i] as int) * 256 + b[i + 1] == v
  }

  /** Data with its length before it. */
  predicate DataAt(b: Bytes, i: nat, v: Bytes) {
    NumberAt(b, i, |v|) && i + 2 + |v| <= |b| && b[i + 2..i + 2 + |v|] == v
  }

  lemma DataStands(pre: Bytes, v: Bytes, post: Bytes)
    requires |v| < 0x1_0000
    ensures DataAt(pre + EncodeBytes(v) + post, |pre|, v)
  {
    LengthPrefixed(v);
    var b, e := pre + EncodeBytes(v) + post, EncodeBytes(v);
    assert b[|pre|] == e[0] && b[|pre| + 1] == e[1];
    assert b[|pre| + 2..|pre| + 2 + |v|] == e[2..];
  }

  lemma NumberStands(pre: Bytes, v: uint16, post: Bytes)
    ensures NumberAt(pre + EncodeUint16(v) + post, |pre|, v)
  {
    BigEndian(v, 0);
    var b, e := pre + EncodeUint16(v) + post, EncodeUint16(v);
    assert b[|pre|] == e[0] && b[|pre| + 1] == e[1];
  }

  lemma Cut(a: Bytes, b: Bytes, c: Bytes)
    ensures a + b + c == [] + a + (b + c) && (a + b + c)[|a| + |b|..] == c && (a + b + c)[|a|..|a| + |b|] == b
  {
  }

  /** The property section of a PUBLISH; only version 5 has one. */
  function PublishProperties(pk: Publish, mods: Mods): (b: Bytes) {
    if pk.version == 5 then EncodeProperties(pk.properties, pk.header.packetType, mods, RestOf(pk)) else []
  }

  lemma PublishParts(pk: Publish, mods: Mods)
    ensures PublishBody(pk, mods)
         == EncodeBytes(pk.topic) + (if pk.header.qos > 0 then EncodeUint16(pk.packetID) else [])
            + (PublishProperties(pk, mods) + pk.payload)
  {
    hide EncodeProperties, EncodeBytes, EncodeUint16;
  }

  /** Section 3.3: topic, packet identifier above QoS 0, properties in version 5, payload. */
  lemma PublishLayout(pk: Publish, mods: Mods)
    requires |pk.topic| < 0x1_0000
    ensures var b, at := PublishBody(pk, mods), 2 + |pk.topic|;
            var rest := at + if pk.header.qos > 0 then 2 else 0;
            && DataAt(b, 0, pk.topic) && (pk.header.qos > 0 ==> NumberAt(b, at, pk.packetID))
            && rest <= |b| && b[rest..] == PublishProperties(pk, mods) + pk.payload
  {
    PublishParts(pk, mods);
    hide EncodeUint16, EncodeBytes, DataAt, NumberAt, PublishBody, PublishProperties;
    var topic, id := EncodeBytes(pk.topic), if pk.header.qos > 0 then EncodeUint16(pk.packetID) else [];
    var tail := PublishProperties(pk, mods) + pk.payload;
    Cut(topic, id, tail);
    DataStands([], pk.topic, id + tail);
    if pk.header.qos > 0 { NumberStands(topic, pk.packetID, tail); }
  }

  /** Sections 3.4 to 3.7: packet identifier, then in version 5 reason code and properties. */
  lemma AckLayout(pk: Ack, mods: Mods)
    ensures var b := AckBody(pk, mods);
            && NumberAt(b, 0, pk.packetID)
            && (|b| > 2 ==> pk.version == 5 && b[2] == pk.reasonCode)
            && (|b| > 3 ==> b[3..] == EncodeProperties(pk.properties, pk.header.packetType, mods, 2))
  {
    hide EncodeProperties, EncodeUint16, NumberAt;
    var id, b := EncodeUint16(pk.packetID), AckBody(pk, mods);
    assert b == [] + id + b[2..];
    NumberStands([], pk.packetID, b[2..]);
  }

  /** The property section of a SUBSCRIBE; only version 5 has one. */
  function SubscribeProperties(pk: Subscribe, mods: Mods): (b: Bytes) {
    if pk.version == 5
    then EncodeProperties(pk.properties, pk.header.packetType, mods, 2 + |EncodeSubs(pk.filters, pk.version)|)
    else []
  }

  /** Section 3.8: packet identifier, properties in version 5, then the filters. */
  lemma SubscribeLayout(pk: Subscribe, mods: Mods)
    ensures var b, at := SubscribeBody(pk, mods), 2 + |SubscribeProperties(pk, mods)|;
            && NumberAt(b, 0, pk.packetID)
            && at <= |b| && b[2..at] == SubscribeProperties(pk, mods) && b[at..] == EncodeSubs(pk.filters, pk.version)
  {
    hide EncodeProperties, EncodeUint16, NumberAt, EncodeSubs;
    var id, props, xb := EncodeUint16(pk.packetID), SubscribeProperties(pk, mods), EncodeSubs(pk.filters, pk.version);
    Cut(id, props, xb);
    NumberStands([], pk.packetID, props + xb);
  }

  /** Each filter with its length before it and one byte of options behind it. */
  lemma FilterLayout(subs: seq<Sub>, version: byte)
    requires subs != [] && |subs[0].filter| < 0x1_0000
    ensures var b, end := EncodeSubs(subs, version), 2 + |subs[0].filter|;
            && DataAt(b, 0, subs[0].filter) && end < |b|
            && b[end] == (if version == 5 then OptionByte(subs[0]) else subs[0].qos)
            && b[end + 1..] == EncodeSubs(subs[1..], version)
  {
    hide OptionByte, EncodeBytes, DataAt;
    var f, o: Bytes := EncodeBytes(subs[0].filter), [if version == 5 then OptionByte(subs[0]) else subs[0].qos];
    var more := EncodeSubs(subs[1..], version);
    assert EncodeSubs(subs, version) == f + o + more;
    Cut(f, o, more);
    DataStands([], subs[0].filter, o + more);
  }
}
