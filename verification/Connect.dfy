/** CONNECT (section 3.1): flags that announce which parts follow, two property sections,
    and parts that are read only when announced. */
module Connect {
  import opened Codec
  import opened FixedHeader
  import opened Properties
  import opened Packets

  datatype Will = Will(properties: Properties, topic: Bytes, payload: Bytes)

  const NO_WILL := Will(ZERO, [], [])

  datatype Flags = Flags(clean: bool, will: bool, willQos: byte, willRetain: bool, password: bool, username: bool)

  datatype Connect = Connect(
    protocolName: Bytes, version: byte, flags: Flags, reservedBit: byte, keepalive: uint16, properties: Properties,
    clientIdentifier: Bytes, will: Will, username: Bytes, password: Bytes)

  // ----- flags

  function FlagsByte(f: Flags): (b: byte) {
    OrByte(OrByte(OrByte(OrByte(OrByte(Shl8(Bit(f.clean), 1), Shl8(Bit(f.will), 2)), Shl8(f.willQos, 3)),
                         Shl8(Bit(f.willRetain), 5)), Shl8(Bit(f.password), 6)), Shl8(Bit(f.username), 7))
  }

  function FlagsOf(b: byte): (f: Flags) {
    Flags(b / 2 % 2 > 0, b / 4 % 2 > 0, b / 8 % 4, b / 32 % 2 > 0, b / 64 % 2 > 0, b / 128 % 2 > 0)
  }

  lemma LowFlagBits(f: Flags)
    requires f.willQos < 4
    ensures OrByte(OrByte(Shl8(Bit(f.clean), 1), Shl8(Bit(f.will), 2)), Shl8(f.willQos, 3))
         == Bit(f.clean) * 2 + Bit(f.will) * 4 + f.willQos * 8
  {
    hide Or;
    var c: nat, w: nat, q: nat := Bit(f.clean), Bit(f.will), f.willQos;
    assert Pow2(1) == 2 && Pow2(2) == 4 && Pow2(3) == 8;
    hide Pow2;
    OrDisjoint(c * 2, w, 2);
    OrDisjoint(c * 2 + w * 4, q, 3);
  }

  lemma FlagBits(f: Flags)
    requires f.willQos < 4
    ensures FlagsByte(f) == Bit(f.clean) * 2 + Bit(f.will) * 4 + f.willQos * 8 + Bit(f.willRetain) * 32
                            + Bit(f.password) * 64 + Bit(f.username) * 128
  {
    hide Or;
    LowFlagBits(f);
    var low := OrByte(OrByte(Shl8(Bit(f.clean), 1), Shl8(Bit(f.will), 2)), Shl8(f.willQos, 3));
    var l: nat, r: nat, p: nat, u: nat := low, Bit(f.willRetain), Bit(f.password), Bit(f.username);
    assert Pow2(5) == 32 && Pow2(6) == 64 && Pow2(7) == 128;
    hide Pow2;
    OrDisjoint(l, r, 5);
    OrDisjoint(l + r * 32, p, 6);
    OrDisjoint(l + r * 32 + p * 64, u, 7);
  }

  lemma FlagFields(c: nat, w: nat, q: nat, r: nat, p: nat, u: nat, b: nat)
    requires c < 2 && w < 2 && q < 4 && r < 2 && p < 2 && u < 2
    requires b == c * 2 + w * 4 + q * 8 + r * 32 + p * 64 + u * 128
    ensures b % 2 == 0 && b / 2 % 2 == c && b / 4 % 2 == w && b / 8 % 4 == q
    ensures b / 32 % 2 == r && b / 64 % 2 == p && b / 128 % 2 == u
  {
    assert b / 2 == c + w * 2 + q * 4 + r * 16 + p * 32 + u * 64;
    assert b / 4 == w + q * 2 + r * 8 + p * 16 + u * 32;
    assert b / 8 == q + r * 4 + p * 8 + u * 16;
    assert b / 32 == r + p * 2 + u * 4;
    assert b / 64 == p + u * 2;
    assert b / 128 == u;
  }

  lemma FlagsRoundTrip(f: Flags)
    requires f.willQos < 4
    ensures FlagsOf(FlagsByte(f)) == f && FlagsByte(f) % 2 == 0
  {
    hide FlagsByte;
    FlagBits(f);
    FlagFields(Bit(f.clean), Bit(f.will), f.willQos, Bit(f.willRetain), Bit(f.password), Bit(f.username), FlagsByte(f));
  }

  // ----- parts

  /** A property section, which only version 5 has. */
  function EncodeSection(p: Properties, pkt: byte, version: byte, mods: Mods): (b: Bytes) {
    if version == 5 then EncodeProperties(p, pkt, mods, 0) else []
  }

  function DecodeSection(buf: Bytes, offset: nat, pkt: byte, version: byte): (r: Result<(Properties, nat)>)
    requires offset <= |buf|
    ensures r.Ok? ==> offset <= r.value.1 <= |buf|
  {
    if version == 5 then
      var (p, n) :- DecodeProperties(ZERO, pkt, buf[offset..]);
      Ok((p, offset + n))
    else Ok((ZERO, offset))
  }

  function Kept(p: Properties, pkt: byte, version: byte, mods: Mods): (q: Properties) {
    if version == 5 then Normalise(p, pkt, mods, 0) else ZERO
  }

  lemma ReadSection(pre: Bytes, p: Properties, pkt: byte, version: byte, mods: Mods, post: Bytes)
    requires version == 5 ==> Carries(p, pkt, mods, 0)
    ensures var b := EncodeSection(p, pkt, version, mods);
            DecodeSection(pre + b + post, |pre|, pkt, version) == Ok((Kept(p, pkt, version, mods), |pre| + |b|))
  {
    hide DecodeProperties, EncodeProperties, Normalise, WellTyped, FewEnough, AllFit, Items, EncodeItems;
    var b := EncodeSection(p, pkt, version, mods);
    assert (pre + b + post)[|pre|..] == b + post;
    if version == 5 { PropertiesRoundTrip(p, pkt, mods, 0, post); }
  }

  function EncodeWill(w: Will, present: bool, version: byte, mods: Mods): (b: Bytes) {
    if present then
      EncodeSection(w.properties, WILL_PROPERTIES, version, mods) + EncodeBytes(w.topic) + EncodeBytes(w.payload)
    else []
  }

  function DecodeWill(buf: Bytes, offset: nat, present: bool, version: byte): (r: Result<(Will, nat)>)
    requires offset <= |buf|
    ensures r.Ok? ==> offset <= r.value.1 <= |buf|
  {
    if present then
      var (p, o1) :- DecodeSection(buf, offset, WILL_PROPERTIES, version).Else(MalformedWillProperties);
      var (topic, o2) :- DecodeString(buf, o1).Else(MalformedWillTopic);
      var (payload, o3) :- DecodeBytes(buf, o2).Else(MalformedWillPayload);
      Ok((Will(p, topic, payload), o3))
    else Ok((NO_WILL, offset))
  }

  predicate WillFits(w: Will, version: byte, mods: Mods) {
    && |w.topic| < 0x1_0000 && ValidUTF8(w.topic) && |w.payload| < 0x1_0000
    && (version == 5 ==> Carries(w.properties, WILL_PROPERTIES, mods, 0))
  }

  function KeptWill(w: Will, present: bool, version: byte, mods: Mods): (r: Will) {
    if present then w.(properties := Kept(w.properties, WILL_PROPERTIES, version, mods)) else NO_WILL
  }

  lemma ReadWill(pre: Bytes, w: Will, present: bool, version: byte, mods: Mods, post: Bytes)
    requires present ==> WillFits(w, version, mods)
    ensures var b := EncodeWill(w, present, version, mods);
            DecodeWill(pre + b + post, |pre|, present, version)
            == Ok((KeptWill(w, present, version, mods), |pre| + |b|))
  {
    hide DecodeSection, EncodeSection, Kept, EncodeBytes, DecodeBytes, DecodeString, ValidUTF8, Carries;
    if present {
      var p := EncodeSection(w.properties, WILL_PROPERTIES, version, mods);
      var t, y := EncodeBytes(w.topic), EncodeBytes(w.payload);
      var buf := pre + EncodeWill(w, present, version, mods) + post;
      assert buf == pre + p + (t + y + post) == (pre + p) + t + (y + post) == (pre + p + t) + y + post;
      ReadSection(pre, w.properties, WILL_PROPERTIES, version, mods, t + y + post);
      ReadString(pre + p, w.topic, y + post);
      ReadBytes(pre + p + t, w.payload, post);
    }
  }

  /** User name and password. */
  function EncodeCredentials(c: Connect): (b: Bytes) {
    (if c.flags.username then EncodeBytes(c.username) else [])
      + (if c.flags.password then EncodeBytes(c.password) else [])
  }

  function DecodeCredentials(buf: Bytes, offset: nat, flags: Flags): (r: Result<(Bytes, Bytes)>)
    requires offset <= |buf|
  {
    var (username, o1) :-
      if !flags.username then Ok(([], offset))
      else if offset >= |buf| then Err(FlagNoUsername)
      else DecodeBytes(buf, offset).Else(MalformedUsername);
    var (password, _) :- if flags.password then DecodeBytes(buf, o1).Else(MalformedPassword) else Ok(([], o1));
    Ok((username, password))
  }

  lemma ReadCredentials(pre: Bytes, c: Connect)
    requires |c.username| < 0x1_0000 && |c.password| < 0x1_0000
    ensures DecodeCredentials(pre + EncodeCredentials(c), |pre|, c.flags)
         == Ok((if c.flags.username then c.username else [], if c.flags.password then c.password else []))
  {
    hide DecodeBytes;
    var u := if c.flags.username then EncodeBytes(c.username) else [];
    var p := if c.flags.password then EncodeBytes(c.password) else [];
    var buf := pre + EncodeCredentials(c);
    assert buf == pre + u + p == (pre + u) + p + [];
    if c.flags.username { ReadBytes(pre, c.username, p); }
    if c.flags.password { ReadBytes(pre + u, c.password, []); }
  }

  // ----- the packet

  function EncodeStart(c: Connect): (b: Bytes) {
    EncodeBytes(c.protocolName) + [c.version] + [FlagsByte(c.flags)] + EncodeUint16(c.keepalive)
  }

  function ConnectBody(c: Connect, mods: Mods): (b: Bytes) {
    EncodeStart(c) + EncodeSection(c.properties, CONNECT, c.version, mods) + EncodeBytes(c.clientIdentifier)
    + EncodeWill(c.will, c.flags.will, c.version, mods) + EncodeCredentials(c)
  }

  datatype Start = Start(protocolName: Bytes, version: byte, flags: byte, keepalive: uint16)

  function DecodeStart(buf: Bytes): (r: Result<(Start, nat)>)
    ensures r.Ok? ==> r.value.1 <= |buf|
  {
    var (name, o1) :- DecodeBytes(buf, 0).Else(MalformedProtocolName);
    var (version, o2) :- DecodeByte(buf, o1).Else(MalformedProtocolVersion);
    var (flags, o3) :- DecodeByte(buf, o2).Else(MalformedFlags);
    var (keepalive, o4) :- DecodeUint16(buf, o3).Else(MalformedKeepalive);
    Ok((Start(name, version, flags, keepalive), o4))
  }

  /** Total on every byte string: each part is read within the buffer from where the part
      before it ended. */
  function ConnectDecode(buf: Bytes): (r: Result<Connect>) {
    var (start, o1) :- DecodeStart(buf);
    var flags := FlagsOf(start.flags);
    var (properties, o2) :- DecodeSection(buf, o1, CONNECT, start.version).Else(MalformedProperties);
    var (id, o3) :- DecodeString(buf, o2).Else(ClientIdentifierNotValid);
    var (will, o4) :- DecodeWill(buf, o3, flags.will, start.version);
    var (username, password) :- DecodeCredentials(buf, o4, flags);
    Ok(Connect(start.protocolName, start.version, flags, start.flags % 2, start.keepalive, properties, id, will,
               username, password))
  }

  predicate ConnectFits(c: Connect, mods: Mods) {
    && |c.protocolName| < 0x1_0000 && c.flags.willQos < 4
    && |c.clientIdentifier| < 0x1_0000 && ValidUTF8(c.clientIdentifier)
    && (c.version == 5 ==> Carries(c.properties, CONNECT, mods, 0))
    && (c.flags.will ==> WillFits(c.will, c.version, mods))
    && |c.username| < 0x1_0000 && |c.password| < 0x1_0000
  }

  lemma ReadStart(c: Connect, post: Bytes)
    requires |c.protocolName| < 0x1_0000
    ensures DecodeStart(EncodeStart(c) + post)
         == Ok((Start(c.protocolName, c.version, FlagsByte(c.flags), c.keepalive), |EncodeStart(c)|))
  {
    hide EncodeBytes, DecodeBytes, FlagsByte, EncodeUint16, DecodeUint16;
    var n, k := EncodeBytes(c.protocolName), EncodeUint16(c.keepalive);
    var v, f: Bytes := [c.version], [FlagsByte(c.flags)];
    var buf := EncodeStart(c) + post;
    assert buf == [] + n + (v + f + k + post) == (n + v + f) + k + post;
    ReadBytes([], c.protocolName, v + f + k + post);
    ReadUint16(n + v + f, c.keepalive, post);
  }

  /** A CONNECT comes back with everything its flags announce, the reserved bit clear, and
      both property sections in normal form. */
  lemma ConnectRoundTrip(c: Connect, mods: Mods)
    requires ConnectFits(c, mods)
    ensures ConnectDecode(ConnectBody(c, mods))
         == Ok(c.(reservedBit := 0,
                  properties := Kept(c.properties, CONNECT, c.version, mods),
                  will := KeptWill(c.will, c.flags.will, c.version, mods),
                  username := if c.flags.username then c.username else [],
                  password := if c.flags.password then c.password else []))
  {
    hide EncodeStart, DecodeStart, EncodeSection, DecodeSection, EncodeBytes, DecodeString, EncodeWill, DecodeWill;
    hide EncodeCredentials, DecodeCredentials, FlagsByte, FlagsOf, Kept, KeptWill, Carries, WillFits, ValidUTF8;
    var s, p := EncodeStart(c), EncodeSection(c.properties, CONNECT, c.version, mods);
    var i, w := EncodeBytes(c.clientIdentifier), EncodeWill(c.will, c.flags.will, c.version, mods);
    var r := EncodeCredentials(c);
    var buf := ConnectBody(c, mods);
    assert buf == s + (p + i + w + r) == s + p + (i + w + r) == (s + p) + i + (w + r);
    assert buf == (s + p + i) + w + r == (s + p + i + w) + r;
    ReadStart(c, p + i + w + r);
    FlagsRoundTrip(c.flags);
    ReadSection(s, c.properties, CONNECT, c.version, mods, i + w + r);
    ReadString(s + p, c.clientIdentifier, w + r);
    ReadWill(s + p + i, c.will, c.flags.will, c.version, mods, r);
    ReadCredentials(s + p + i + w, c);
  }

  /** Section 3.1.2: protocol name, version, flags and keep-alive come first, then properties
      in version 5 and the client identifier. */
  lemma ConnectLayout(c: Connect, mods: Mods)
    requires |c.protocolName| < 0x1_0000 && |c.clientIdentifier| < 0x1_0000 && c.flags.willQos < 4
    ensures var b, at := ConnectBody(c, mods), 2 + |c.protocolName|;
            var props := EncodeSection(c.properties, CONNECT, c.version, mods);
            && DataAt(b, 0, c.protocolName) && at + 4 + |props| <= |b|
            && b[at] == c.version
            && b[at + 1] == Bit(c.flags.clean) * 2 + Bit(c.flags.will) * 4 + c.flags.willQos * 8
                            + Bit(c.flags.willRetain) * 32 + Bit(c.flags.password) * 64 + Bit(c.flags.username) * 128
            && NumberAt(b, at + 2, c.keepalive)
            && b[at + 4..at + 4 + |props|] == props
            && DataAt(b, at + 4 + |props|, c.clientIdentifier)
  {
    hide EncodeSection, EncodeWill, EncodeCredentials, FlagsByte, EncodeUint16, EncodeBytes, DataAt, NumberAt;
    FlagBits(c.flags);
    var n, k := EncodeBytes(c.protocolName), EncodeUint16(c.keepalive);
    var v, f: Bytes := [c.version], [FlagsByte(c.flags)];
    var p, i := EncodeSection(c.properties, CONNECT, c.version, mods), EncodeBytes(c.clientIdentifier);
    var r := EncodeWill(c.will, c.flags.will, c.version, mods) + EncodeCredentials(c);
    var b := ConnectBody(c, mods);
    var start := n + v + f + k;
    assert b == start + p + i + r;
    assert b == [] + n + (v + f + k + p + i + r);
    assert b == (n + v + f) + k + (p + i + r);
    assert start[|n|] == c.version && start[|n| + 1] == f[0];
    assert b[|start|..|start| + |p|] == p;
    DataStands([], c.protocolName, v + f + k + p + i + r);
    NumberStands(n + v + f, c.keepalive, p + i + r);
    DataStands(start + p, c.clientIdentifier, r);
  }

  /** Section 3.1.3: a will is its properties, topic and payload. */
  lemma WillLayout(w: Will, version: byte, mods: Mods)
    requires |w.topic| < 0x1_0000 && |w.payload| < 0x1_0000
    ensures var b, props := EncodeWill(w, true, version, mods),
                            EncodeSection(w.properties, WILL_PROPERTIES, version, mods);
            && props <= b && DataAt(b, |props|, w.topic) && DataAt(b, |props| + 2 + |w.topic|, w.payload)
  {
    hide EncodeSection, EncodeBytes, DataAt;
    var props := EncodeSection(w.properties, WILL_PROPERTIES, version, mods);
    var t, y := EncodeBytes(w.topic), EncodeBytes(w.payload);
    assert EncodeWill(w, true, version, mods) == props + t + y == (props + t) + y + [];
    DataStands(props, w.topic, y);
    DataStands(props + t, w.payload, []);
  }

  /** User name before password, each only when announced. */
  lemma CredentialsLayout(c: Connect)
    requires |c.username| < 0x1_0000 && |c.password| < 0x1_0000
    ensures var b := EncodeCredentials(c);
            && (c.flags.username ==> DataAt(b, 0, c.username))
            && (c.flags.password ==> DataAt(b, if c.flags.username then 2 + |c.username| else 0, c.password))
            && (!c.flags.username && !c.flags.password ==> b == [])
  {
    hide EncodeBytes, DataAt;
    var u := if c.flags.username then EncodeBytes(c.username) else [];
    var p := if c.flags.password then EncodeBytes(c.password) else [];
    assert EncodeCredentials(c) == [] + u + p == u + p + [];
    DataStands([], c.username, p);
    DataStands(u, c.password, []);
  }

  /** Behind the client identifier come the will, the user name and the password. */
  lemma PayloadOrder(c: Connect, mods: Mods)
    ensures var w, r := EncodeWill(c.will, c.flags.will, c.version, mods), EncodeCredentials(c);
            var props := EncodeSection(c.properties, CONNECT, c.version, mods);
            ConnectBody(c, mods)[|EncodeStart(c)| + |props| + 2 + |c.clientIdentifier|..] == w + r
  {
    hide EncodeStart, EncodeSection, EncodeBytes, EncodeWill, EncodeCredentials;
  }

  /** Which part an error names when there are too few bytes for the first one. */
  lemma FirstErrors(buf: Bytes, h: Header, version: byte)
    requires |buf| < 2
    ensures ConnectDecode(buf) == Err(MalformedProtocolName)
    ensures PublishDecode(h, version, buf) == Err(MalformedTopic)
    ensures AckDecode(h, version, buf) == Err(MalformedPacketID)
    ensures SubscribeDecodeSpec(h, version, buf) == Err(MalformedPacketID)
  {
  }

  /** A CONNECT that announces a user name and ends before it. */
  lemma NoUsername(c: Connect, mods: Mods)
    requires ConnectFits(c, mods) && c.flags.username
    ensures var b := EncodeStart(c) + EncodeSection(c.properties, CONNECT, c.version, mods)
                     + EncodeBytes(c.clientIdentifier) + EncodeWill(c.will, c.flags.will, c.version, mods);
            ConnectDecode(b) == Err(FlagNoUsername)
  {
    hide EncodeStart, DecodeStart, EncodeSection, DecodeSection, EncodeBytes, DecodeString, EncodeWill, DecodeWill;
    hide FlagsByte, FlagsOf, Kept, KeptWill, Carries, WillFits, ValidUTF8, DecodeBytes;
    var s, p := EncodeStart(c), EncodeSection(c.properties, CONNECT, c.version, mods);
    var i, w := EncodeBytes(c.clientIdentifier), EncodeWill(c.will, c.flags.will, c.version, mods);
    var buf := s + p + i + w;
    assert buf == s + (p + i + w) == s + p + (i + w) == (s + p) + i + w;
    assert buf == (s + p + i) + w + [];
    ReadStart(c, p + i + w);
    FlagsRoundTrip(c.flags);
    ReadSection(s, c.properties, CONNECT, c.version, mods, i + w);
    ReadString(s + p, c.clientIdentifier, w);
    ReadWill(s + p + i, c.will, c.flags.will, c.version, mods, []);
  }
}
