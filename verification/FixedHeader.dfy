/** The first byte of a packet and its remaining length (section 2.1). */
module FixedHeader {
  import opened Codec

  const PUBLISH := 3
  const PUBACK := 4
  const PUBREC := 5
  const PUBREL := 6
  const PUBCOMP := 7
  const SUBSCRIBE := 8
  const SUBACK := 9
  const UNSUBSCRIBE := 10
  const UNSUBACK := 11

  datatype Header = Header(remaining: nat, packetType: byte, qos: byte, dup: bool, retain: bool)

  function Bit(b: bool): (r: byte) {
    if b then 1 else 0
  }

  /** The header byte, packet type in the high bits. */
  function HeaderByte(h: Header): (r: byte) {
    OrByte(OrByte(OrByte(Shl8(h.packetType, 4), Shl8(Bit(h.dup), 3)), Shl8(h.qos, 1)), Bit(h.retain))
  }

  /** Appends the header byte and the remaining length. */
  method EncodeHeader(h: Header, buf: Bytes) returns (r: Bytes)
    ensures r == buf + [HeaderByte(h)] + Vbi(h.remaining)
  {
    r := EncodeLength(buf + [HeaderByte(h)], h.remaining);
  }

  /** Reads the header byte into a header, which keeps what the byte does not give. */
  function DecodeHeader(h: Header, hb: byte): (r: Result<Header>) {
    var kind := hb / 16;
    var b0, b1, b2, b3 := hb % 2, hb / 2 % 2, hb / 4 % 2, hb / 8 % 2;
    var next :-
      if kind == PUBLISH then
        if b1 > 0 && b2 > 0 then Err(MalformedQos)
        else Ok(h.(packetType := kind, dup := b3 > 0, qos := hb / 2 % 4, retain := b0 > 0))
      else if kind == PUBREL || kind == SUBSCRIBE || kind == UNSUBSCRIBE then
        if b0 != 0 || b1 != 1 || b2 != 0 || b3 != 0 then Err(MalformedFlags)
        else Ok(h.(packetType := kind, qos := hb / 2 % 4))
      else
        if b0 != 0 || b1 != 0 || b2 != 0 || b3 != 0 then Err(MalformedFlags)
        else Ok(h.(packetType := kind));
    if next.qos == 0 && next.dup then Err(DupNoQos) else Ok(next)
  }

  /** The flags section 2.1.3 and section 3.3.1 allow for a packet type. */
  predicate FlagsAllowed(h: Header) {
    if h.packetType == PUBLISH then h.qos <= 2 && (h.dup ==> h.qos > 0)
    else if h.packetType == PUBREL || h.packetType == SUBSCRIBE || h.packetType == UNSUBSCRIBE then
      h.qos == 1 && !h.dup && !h.retain
    else h.qos == 0 && !h.dup && !h.retain
  }

  lemma HeaderBits(h: Header)
    requires h.packetType < 16 && h.qos < 4
    ensures HeaderByte(h) == h.packetType * 16 + Bit(h.dup) * 8 + h.qos * 2 + Bit(h.retain)
  {
    hide Or;
    var t: nat, d: nat, q: nat, r: nat := h.packetType, Bit(h.dup), h.qos, Bit(h.retain);
    assert Pow2(1) == 2 && Pow2(3) == 8 && Pow2(4) == 16;
    hide Pow2;
    OrDisjoint(d * 8, t, 4);
    OrDisjoint(q * 2, t * 2 + d, 3);
    assert t * 16 + d * 8 == (t * 2 + d) * 8;
    OrDisjoint(r, t * 8 + d * 4 + q, 1);
    assert t * 16 + d * 8 + q * 2 == (t * 8 + d * 4 + q) * 2;
  }

  const BLANK := Header(0, 0, 0, false, false)

  /** A header is read back from its byte exactly when its flags are allowed. */
  lemma HeaderRoundTrip(h: Header, blank: Header)
    requires h.packetType < 16 && h.qos < 4 && h.remaining == blank.remaining
    requires !blank.dup && !blank.retain && blank.qos == 0
    ensures DecodeHeader(blank, HeaderByte(h)) == Ok(h) <==> FlagsAllowed(h)
  {
    HeaderBits(h);
    var hb := HeaderByte(h);
    HeaderFields(h.packetType, Bit(h.dup), h.qos, Bit(h.retain), hb);
  }

  lemma HeaderFields(t: byte, d: byte, q: byte, r: byte, hb: nat)
    requires t < 16 && d < 2 && q < 4 && r < 2 && hb == t * 16 + d * 8 + q * 2 + r
    ensures hb < 256 && hb / 16 == t && hb / 8 % 2 == d && hb / 2 % 4 == q && hb % 2 == r
    ensures hb / 2 % 2 == q % 2 && hb / 4 % 2 == q / 2
  {
    assert hb / 2 == t * 8 + d * 4 + q;
    assert hb / 4 == t * 4 + d * 2 + q / 2;
    assert hb / 8 == t * 2 + d;
  }
}
