/** The properties of section 2.2.2: which packet may carry which, how a set of them is
    written and read, and that reading undoes writing. */
module Properties {
  import opened Codec
  import opened FixedHeader

  const CONNECT := 1
  const CONNACK := 2
  const DISCONNECT := 14
  const AUTH := 15
  const WILL_PROPERTIES := 99

  const PAYLOAD_FORMAT := 1
  const MESSAGE_EXPIRY_INTERVAL := 2
  const CONTENT_TYPE := 3
  const RESPONSE_TOPIC := 8
  const CORRELATION_DATA := 9
  const SUBSCRIPTION_IDENTIFIER := 11
  const SESSION_EXPIRY_INTERVAL := 17
  const ASSIGNED_CLIENT_ID := 18
  const SERVER_KEEP_ALIVE := 19
  const AUTHENTICATION_METHOD := 21
  const AUTHENTICATION_DATA := 22
  const REQUEST_PROBLEM_INFO := 23
  const WILL_DELAY_INTERVAL := 24
  const REQUEST_RESPONSE_INFO := 25
  const RESPONSE_INFO := 26
  const SERVER_REFERENCE := 28
  const REASON_STRING := 31
  const RECEIVE_MAXIMUM := 33
  const TOPIC_ALIAS_MAXIMUM := 34
  const TOPIC_ALIAS := 35
  const MAXIMUM_QOS := 36
  const RETAIN_AVAILABLE := 37
  const USER := 38
  const MAXIMUM_PACKET_SIZE := 39
  const WILDCARD_SUB_AVAILABLE := 40
  const SUB_ID_AVAILABLE := 41
  const SHARED_SUB_AVAILABLE := 42

  const MAX_USER_PROPERTIES := 128
  const MAX_SUBSCRIPTION_IDENTIFIERS := 1024

  /** The order in which properties are written. */
  function Order(): (keys: seq<byte>) {
    [PAYLOAD_FORMAT, MESSAGE_EXPIRY_INTERVAL, CONTENT_TYPE, RESPONSE_TOPIC, CORRELATION_DATA,
    SUBSCRIPTION_IDENTIFIER, SESSION_EXPIRY_INTERVAL, ASSIGNED_CLIENT_ID, SERVER_KEEP_ALIVE,
    AUTHENTICATION_METHOD, AUTHENTICATION_DATA, REQUEST_PROBLEM_INFO, WILL_DELAY_INTERVAL,
    REQUEST_RESPONSE_INFO, RESPONSE_INFO, SERVER_REFERENCE, REASON_STRING, RECEIVE_MAXIMUM,
    TOPIC_ALIAS_MAXIMUM, TOPIC_ALIAS, MAXIMUM_QOS, RETAIN_AVAILABLE, USER, MAXIMUM_PACKET_SIZE,
    WILDCARD_SUB_AVAILABLE, SUB_ID_AVAILABLE, SHARED_SUB_AVAILABLE]
  }

  datatype Value =
    | Byte(b: byte) | Uint16(u: uint16) | Uint32(w: uint32)
    | Text(text: Bytes) | Binary(data: Bytes) | Variable(v: nat) | Pair(name: Bytes, val: Bytes)

  datatype Kind = BYTE | UINT16 | UINT32 | TEXT | BINARY | VARIABLE | PAIR

  /** One field of the properties record: its value and, for the properties whose zero
      is meaningful, the flag saying that it is set. */
  datatype Slot = Slot(value: Value, flag: bool)

  /** The record of properties. The fields that hold one value are keyed on the property
      identifier; a field not in the map is zero and unflagged. */
  datatype Properties = Properties(
    slots: map<byte, Slot>,
    subscriptionIdentifier: seq<int>,
    user: seq<(Bytes, Bytes)>)

  const ZERO := Properties(map[], [], [])

  /** What the broker may say to this receiver. */
  datatype Mods = Mods(maxSize: uint32, disallowProblemInfo: bool, allowResponseInfo: bool)

  /** Which packet types may carry a property. */
  predicate CanEncode(pkt: byte, k: byte) {
    if k in {PAYLOAD_FORMAT, MESSAGE_EXPIRY_INTERVAL, CONTENT_TYPE, RESPONSE_TOPIC, CORRELATION_DATA} then
      pkt in {PUBLISH, WILL_PROPERTIES}
    else if k == SUBSCRIPTION_IDENTIFIER then pkt in {PUBLISH, SUBSCRIBE}
    else if k == SESSION_EXPIRY_INTERVAL then pkt in {CONNECT, CONNACK, DISCONNECT}
    else if k in {ASSIGNED_CLIENT_ID, SERVER_KEEP_ALIVE, RESPONSE_INFO, MAXIMUM_QOS, RETAIN_AVAILABLE,
                  WILDCARD_SUB_AVAILABLE, SUB_ID_AVAILABLE, SHARED_SUB_AVAILABLE} then pkt == CONNACK
    else if k in {AUTHENTICATION_METHOD, AUTHENTICATION_DATA} then pkt in {CONNECT, CONNACK, AUTH}
    else if k in {REQUEST_PROBLEM_INFO, REQUEST_RESPONSE_INFO} then pkt == CONNECT
    else if k == WILL_DELAY_INTERVAL then pkt == WILL_PROPERTIES
    else if k == SERVER_REFERENCE then pkt in {CONNACK, DISCONNECT}
    else if k == REASON_STRING then
      pkt in {CONNACK, PUBACK, PUBREC, PUBREL, PUBCOMP, SUBACK, UNSUBACK, DISCONNECT, AUTH}
    else if k in {RECEIVE_MAXIMUM, TOPIC_ALIAS_MAXIMUM, MAXIMUM_PACKET_SIZE} then pkt in {CONNECT, CONNACK}
    else if k == TOPIC_ALIAS then pkt == PUBLISH
    else if k == USER then
      pkt in {CONNECT, CONNACK, PUBLISH, PUBACK, PUBREC, PUBREL, PUBCOMP, SUBSCRIBE, SUBACK,
              UNSUBSCRIBE, UNSUBACK, DISCONNECT, AUTH, WILL_PROPERTIES}
    else false
  }

  /** How the value of a property is written. */
  function KindOf(k: byte): (kind: Kind) {
    if k in {MESSAGE_EXPIRY_INTERVAL, SESSION_EXPIRY_INTERVAL, WILL_DELAY_INTERVAL, MAXIMUM_PACKET_SIZE} then UINT32
    else if k in {SERVER_KEEP_ALIVE, RECEIVE_MAXIMUM, TOPIC_ALIAS_MAXIMUM, TOPIC_ALIAS} then UINT16
    else if k in {CONTENT_TYPE, RESPONSE_TOPIC, ASSIGNED_CLIENT_ID, AUTHENTICATION_METHOD, RESPONSE_INFO,
                  SERVER_REFERENCE, REASON_STRING} then TEXT
    else if k in {CORRELATION_DATA, AUTHENTICATION_DATA} then BINARY
    else if k == SUBSCRIPTION_IDENTIFIER then VARIABLE
    else if k == USER then PAIR
    else BYTE
  }

  /** The properties with a flag beside their value. */
  predicate HasFlag(k: byte) {
    k in {PAYLOAD_FORMAT, SESSION_EXPIRY_INTERVAL, SERVER_KEEP_ALIVE, REQUEST_PROBLEM_INFO, TOPIC_ALIAS,
          MAXIMUM_QOS, RETAIN_AVAILABLE, WILDCARD_SUB_AVAILABLE, SUB_ID_AVAILABLE, SHARED_SUB_AVAILABLE}
  }

  predicate HasKind(v: Value, kind: Kind) {
    match kind
    case BYTE => v.Byte?
    case UINT16 => v.Uint16?
    case UINT32 => v.Uint32?
    case TEXT => v.Text?
    case BINARY => v.Binary?
    case VARIABLE => v.Variable?
    case PAIR => v.Pair?
  }

  predicate IsZero(v: Value) {
    match v
    case Byte(b) => b == 0
    case Uint16(u) => u == 0
    case Uint32(w) => w == 0
    case Text(t) => t == []
    case Binary(d) => d == []
    case Variable(n) => n == 0
    case Pair(_, _) => false
  }

  /** Every field holds a value of its own type. */
  predicate WellTyped(p: Properties) {
    forall k :: k in p.slots ==>
      k != SUBSCRIPTION_IDENTIFIER && k != USER && k in Order() && HasKind(p.slots[k].value, KindOf(k))
  }

  // ----- writing

  datatype Item = Item(k: byte, value: Value)

  function EncodeValue(v: Value): (b: Bytes) {
    match v
    case Byte(b) => [b]
    case Uint16(u) => EncodeUint16(u)
    case Uint32(w) => EncodeUint32(w)
    case Text(t) => EncodeBytes(t)
    case Binary(d) => EncodeBytes(d)
    case Variable(n) => Vbi(n)
    case Pair(name, val) => EncodeBytes(name) + EncodeBytes(val)
  }

  function EncodeItem(item: Item): (b: Bytes) {
    [item.k] + EncodeValue(item.value)
  }

  function EncodeItems(items: seq<Item>): (b: Bytes) {
    if items == [] then [] else EncodeItem(items[0]) + EncodeItems(items[1..])
  }

  function Positive(ids: seq<int>): (r: seq<nat>)
    ensures forall i :: 0 <= i < |r| ==> r[i] > 0
  {
    if ids == [] then [] else (if ids[0] > 0 then [ids[0]] else []) + Positive(ids[1..])
  }

  function IdentifierItems(ids: seq<nat>): (items: seq<Item>) {
    if ids == [] then [] else [Item(SUBSCRIPTION_IDENTIFIER, Variable(ids[0]))] + IdentifierItems(ids[1..])
  }

  function UserItems(user: seq<(Bytes, Bytes)>): (items: seq<Item>) {
    if user == [] then [] else [Item(USER, Pair(user[0].0, user[0].1))] + UserItems(user[1..])
  }

  /** Whether a problem text of a given size may still be added; the sum is truncated to
      32 bits. */
  predicate Room(mods: Mods, n: nat, size: nat) {
    mods.maxSize == 0 || (n + size + 1) % 0x1_0000_0000 < mods.maxSize
  }

  /** Whether a property of `p` is written for a packet type, a receiver and the size `n`
      of the rest of the packet. */
  predicate Written(k: byte, p: Properties, pkt: byte, mods: Mods, n: nat) {
    && CanEncode(pkt, k)
    && (k in {RESPONSE_TOPIC, CORRELATION_DATA, RESPONSE_INFO} ==> mods.allowResponseInfo)
    && (k in {REASON_STRING, USER} ==> !mods.disallowProblemInfo)
    && (if k == SUBSCRIPTION_IDENTIFIER then true
        else if k == USER then Room(mods, n, |EncodeItems(UserItems(p.user))|)
        else k in p.slots && SlotWritten(k, p.slots[k], mods, n))
  }

  predicate SlotWritten(k: byte, s: Slot, mods: Mods, n: nat) {
    && (if HasFlag(k) then s.flag else !IsZero(s.value))
    && (k == RESPONSE_TOPIC && s.value.Text? ==> '+' as int !in s.value.text && '#' as int !in s.value.text)
    && (k == REASON_STRING ==> Room(mods, n, |EncodeValue(s.value)|))
    && (k == TOPIC_ALIAS ==> !IsZero(s.value))
    && (k == MAXIMUM_QOS && s.value.Byte? ==> s.value.b < 2)
  }

  function ItemsFor(k: byte, p: Properties, pkt: byte, mods: Mods, n: nat): (items: seq<Item>) {
    if !Written(k, p, pkt, mods, n) then []
    else if k == SUBSCRIPTION_IDENTIFIER then IdentifierItems(Positive(p.subscriptionIdentifier))
    else if k == USER then UserItems(p.user)
    else [Item(k, p.slots[k].value)]
  }

  function ItemsOf(keys: seq<byte>, p: Properties, pkt: byte, mods: Mods, n: nat): (items: seq<Item>) {
    if keys == [] then [] else ItemsFor(keys[0], p, pkt, mods, n) + ItemsOf(keys[1..], p, pkt, mods, n)
  }

  /** Everything written for `p`, in order. */
  function Items(p: Properties, pkt: byte, mods: Mods, n: nat): (items: seq<Item>) {
    ItemsOf(Order(), p, pkt, mods, n)
  }

  /** The wire form: the length of the items, then the items. */
  function EncodeProperties(p: Properties, pkt: byte, mods: Mods, n: nat): (b: Bytes) {
    var body := EncodeItems(Items(p, pkt, mods, n));
    Vbi(|body|) + body
  }

  lemma {:induction false} EncodeBoth(a: seq<Item>, b: seq<Item>)
    ensures EncodeItems(a + b) == EncodeItems(a) + EncodeItems(b)
    decreases |a|
  {
    hide EncodeItem;
    if a == [] {
      assert a + b == b;
    } else {
      EncodeBoth(a[1..], b);
      assert (a + b)[1..] == a[1..] + b;
    }
  }

  /** Writes the properties of `p` after `b`. */
  method Encode(p: Properties, pkt: byte, mods: Mods, b: Bytes, n: nat) returns (r: Bytes)
    ensures r == b + EncodeProperties(p, pkt, mods, n)
  {
    hide Written, EncodeValue, EncodeItems, ItemsFor, IdentifierItems, UserItems, Positive;
    var buf: Bytes := [];
    for i := 0 to |Order()|
      invariant buf + EncodeItems(ItemsOf(Order()[i..], p, pkt, mods, n)) == EncodeItems(Items(p, pkt, mods, n))
    {
      var k := Order()[i];
      assert Order()[i..][1..] == Order()[i + 1..];
      EncodeBoth(ItemsFor(k, p, pkt, mods, n), ItemsOf(Order()[i + 1..], p, pkt, mods, n));
      buf := EncodeKey(k, p, pkt, mods, buf, n);
    }
    assert Order()[|Order()|..] == [];
    EncodeNone();
    r := EncodeLength(b, |buf|);
    r := r + buf;
  }

  lemma EncodeNone()
    ensures EncodeItems([]) == []
  {
  }

  /** Writes one property, if it is to be written. */
  method EncodeKey(k: byte, p: Properties, pkt: byte, mods: Mods, b: Bytes, n: nat) returns (r: Bytes)
    ensures r == b + EncodeItems(ItemsFor(k, p, pkt, mods, n))
  {
    hide EncodeValue, EncodeItems, IdentifierItems, UserItems, Positive, CanEncode, SlotWritten, Room;
    EncodeNone();
    r := b;
    if Written(k, p, pkt, mods, n) {
      if k == SUBSCRIPTION_IDENTIFIER {
        r := EncodeIdentifiers(p.subscriptionIdentifier, b);
      } else if k == USER {
        r := EncodeUser(p.user, b);
      } else {
        EncodeOne(Item(k, p.slots[k].value));
        r := b + [k] + EncodeValue(p.slots[k].value);
      }
    }
  }

  lemma EncodeOne(item: Item)
    ensures EncodeItems([item]) == EncodeItem(item)
  {
  }

  function IdentifierBytes(ids: seq<int>): (b: Bytes) {
    EncodeItems(IdentifierItems(Positive(ids)))
  }

  lemma IdentifierStep(ids: seq<int>)
    requires ids != []
    ensures IdentifierBytes(ids)
         == (if ids[0] > 0 then [SUBSCRIPTION_IDENTIFIER] + Vbi(ids[0]) else []) + IdentifierBytes(ids[1..])
  {
    var rest := Positive(ids[1..]);
    if ids[0] > 0 {
      assert Positive(ids) == [ids[0]] + rest && Positive(ids)[1..] == rest;
      var item := Item(SUBSCRIPTION_IDENTIFIER, Variable(ids[0]));
      assert IdentifierItems(Positive(ids)) == [item] + IdentifierItems(rest);
      EncodeBoth([item], IdentifierItems(rest));
      EncodeOne(item);
    } else {
      assert Positive(ids) == rest;
    }
  }

  method EncodeIdentifiers(ids: seq<int>, b: Bytes) returns (r: Bytes)
    ensures r == b + EncodeItems(IdentifierItems(Positive(ids)))
  {
    hide IdentifierBytes, Vbi;
    r := b;
    for i := 0 to |ids|
      invariant r + IdentifierBytes(ids[i..]) == b + IdentifierBytes(ids)
    {
      assert ids[i..][1..] == ids[i + 1..];
      IdentifierStep(ids[i..]);
      if ids[i] > 0 {
        r := EncodeLength(r + [SUBSCRIPTION_IDENTIFIER], ids[i]);
      }
    }
    NoIdentifiers(ids);
  }

  lemma NoIdentifiers(ids: seq<int>)
    ensures IdentifierBytes(ids[|ids|..]) == []
    ensures IdentifierBytes(ids) == EncodeItems(IdentifierItems(Positive(ids)))
  {
  }

  lemma UserStep(user: seq<(Bytes, Bytes)>)
    requires user != []
    ensures EncodeItems(UserItems(user))
         == [USER] + EncodeBytes(user[0].0) + EncodeBytes(user[0].1) + EncodeItems(UserItems(user[1..]))
  {
  }

  method EncodeUser(user: seq<(Bytes, Bytes)>, b: Bytes) returns (r: Bytes)
    ensures r == b + EncodeItems(UserItems(user))
  {
    hide EncodeItems, EncodeBytes;
    r := b;
    for i := 0 to |user|
      invariant r + EncodeItems(UserItems(user[i..])) == b + EncodeItems(UserItems(user))
    {
      assert user[i..][1..] == user[i + 1..];
      UserStep(user[i..]);
      r := r + [USER] + EncodeBytes(user[i].0) + EncodeBytes(user[i].1);
    }
    EncodeNone();
    assert user[|user|..] == [];
  }

  // ----- reading

  /** Stores one property in the receiver's record. */
  function Apply(p: Properties, item: Item): (q: Properties)
    requires HasKind(item.value, KindOf(item.k))
  {
    if item.k == SUBSCRIPTION_IDENTIFIER then
      p.(subscriptionIdentifier := p.subscriptionIdentifier + [item.value.v])
    else if item.k == USER then p.(user := p.user + [(item.value.name, item.value.val)])
    else p.(slots := p.slots[item.k := Slot(item.value, HasFlag(item.k))])
  }

  function DecodeValue(kind: Kind, buf: Bytes, offset: nat): (r: Result<(Value, nat)>)
    requires offset <= |buf|
    ensures r.Ok? ==> HasKind(r.value.0, kind) && offset < r.value.1 <= |buf|
  {
    match kind
    case BYTE => var (b, next) :- DecodeByte(buf, offset); Ok((Byte(b), next))
    case UINT16 => var (u, next) :- DecodeUint16(buf, offset); Ok((Uint16(u), next))
    case UINT32 => var (w, next) :- DecodeUint32(buf, offset); Ok((Uint32(w), next))
    case TEXT => var (t, next) :- DecodeString(buf, offset); Ok((Text(t), next))
    case BINARY => var (d, next) :- DecodeBytes(buf, offset); Ok((Binary(d), next))
    case VARIABLE => var (v, taken) :- ReadLength(buf[offset..], 0); Ok((Variable(v), offset + taken))
    case PAIR =>
      var (name, middle) :- DecodeString(buf, offset);
      var (val, next) :- DecodeString(buf, middle);
      Ok((Pair(name, val), next))
  }

  /** Reads one property: its identifier, whether it may be here, its value. */
  function DecodeItem(buf: Bytes, offset: nat, pkt: byte, p: Properties): (r: Result<(Item, nat)>)
    requires offset <= |buf|
    ensures r.Ok? ==> HasKind(r.value.0.value, KindOf(r.value.0.k)) && offset < r.value.1 <= |buf|
  {
    var (k, next) :- DecodeByte(buf, offset);
    if !CanEncode(pkt, k) then Err(UnsupportedProperty)
    else if k == SUBSCRIPTION_IDENTIFIER && |p.subscriptionIdentifier| >= MAX_SUBSCRIPTION_IDENTIFIERS then
      Err(TooManySubscriptionIdentifiers)
    else if k == USER && |p.user| >= MAX_USER_PROPERTIES then Err(TooManyUserProperties)
    else
      var (v, end) :- DecodeValue(KindOf(k), buf, next);
      Ok((Item(k, v), end))
  }

  /** Reads properties from `offset` until at least `n` bytes are read. */
  function DecodeItems(buf: Bytes, offset: nat, n: nat, pkt: byte, p: Properties): (r: Result<Properties>)
    requires offset <= |buf|
    ensures r.Ok? && offset < n ==> n <= |buf|
    decreases |buf| - offset
  {
    if offset >= n then Ok(p)
    else
      var (item, next) :- DecodeItem(buf, offset, pkt, p);
      DecodeItems(buf, next, n, pkt, Apply(p, item))
  }

  /** The whole property section: the properties and the size of the section, which is
      within the buffer. */
  function DecodeProperties(p: Properties, pkt: byte, b: Bytes): (r: Result<(Properties, nat)>)
    ensures r.Ok? ==> r.value.1 <= |b|
  {
    var (n, bu) :- ReadLength(b, 0);
    if n == 0 then Ok((p, bu))
    else
      var q :- DecodeItems(b[bu..], 0, n, pkt, p);
      Ok((q, n + bu))
  }

  /** Reads a property section into `p`; every round of the loop moves on. */
  method Decode(p: Properties, pkt: byte, b: Bytes) returns (r: Result<(Properties, nat)>)
    ensures r == DecodeProperties(p, pkt, b)
  {
    var length, _ := DecodeLength(b);
    if length.Err? { return Err(length.error); }
    var (n, bu) := length.value;
    if n == 0 { return Ok((p, bu)); }
    var bt, q, offset := b[bu..], p, 0;
    while offset < n
      invariant 0 <= offset <= |bt|
      invariant DecodeItems(bt, offset, n, pkt, q) == DecodeItems(bt, 0, n, pkt, p)
      decreases |bt| - offset
    {
      var item := DecodeItem(bt, offset, pkt, q);
      if item.Err? { return Err(item.error); }
      q, offset := Apply(q, item.value.0), item.value.1;
    }
    return Ok((q, n + bu));
  }

  // ----- reading undoes writing

  /** What of `p` a packet of this type to this receiver carries. */
  function Normalise(p: Properties, pkt: byte, mods: Mods, n: nat): (q: Properties) {
    Properties(
      map k | k in p.slots && Written(k, p, pkt, mods, n) :: Slot(p.slots[k].value, HasFlag(k)),
      if Written(SUBSCRIPTION_IDENTIFIER, p, pkt, mods, n) then Positive(p.subscriptionIdentifier) else [],
      if Written(USER, p, pkt, mods, n) then p.user else [])
  }

  /** Values the wire form can carry: sixteen-bit lengths, valid text, four-byte integers. */
  predicate Fits(v: Value) {
    match v
    case Text(t) => |t| < 0x1_0000 && ValidUTF8(t)
    case Binary(d) => |d| < 0x1_0000
    case Variable(n) => n <= MAX_LENGTH
    case Pair(name, val) => |name| < 0x1_0000 && ValidUTF8(name) && |val| < 0x1_0000 && ValidUTF8(val)
    case _ => true
  }

  /** An item a packet of this type can carry. */
  predicate Sound(item: Item, pkt: byte) {
    CanEncode(pkt, item.k) && HasKind(item.value, KindOf(item.k)) && Fits(item.value)
  }

  predicate AllSound(items: seq<Item>, pkt: byte) {
    forall i :: 0 <= i < |items| ==> Sound(items[i], pkt)
  }

  function Fold(p: Properties, items: seq<Item>, pkt: byte): (q: Properties)
    requires AllSound(items, pkt)
    decreases |items|
  {
    if items == [] then p else Fold(Apply(p, items[0]), items[1..], pkt)
  }

  /** Within the limits on repeated properties all along. */
  predicate WithinLimits(p: Properties, items: seq<Item>, pkt: byte)
    requires AllSound(items, pkt)
    decreases |items|
  {
    items != [] ==>
      && (items[0].k == SUBSCRIPTION_IDENTIFIER ==> |p.subscriptionIdentifier| < MAX_SUBSCRIPTION_IDENTIFIERS)
      && (items[0].k == USER ==> |p.user| < MAX_USER_PROPERTIES)
      && WithinLimits(Apply(p, items[0]), items[1..], pkt)
  }

  lemma ReadValue(pre: Bytes, v: Value, post: Bytes, kind: Kind)
    requires HasKind(v, kind) && Fits(v)
    ensures DecodeValue(kind, pre + EncodeValue(v) + post, |pre|) == Ok((v, |pre| + |EncodeValue(v)|))
  {
    hide DecodeUint16, DecodeUint32, DecodeString, DecodeBytes, EncodeUint16, EncodeUint32, EncodeBytes;
    hide ReadLength, Vbi;
    hide ValidUTF8;
    match v
    case Byte(b) =>
    case Uint16(u) => ReadUint16(pre, u, post);
    case Uint32(w) => ReadUint32(pre, w, post);
    case Text(t) => ReadString(pre, t, post);
    case Binary(d) => ReadBytes(pre, d, post);
    case Variable(n) =>
      ReadVbi(n, post);
      assert (pre + Vbi(n) + post)[|pre|..] == Vbi(n) + post;
    case Pair(name, val) =>
      var a, b := EncodeBytes(name), EncodeBytes(val);
      ReadString(pre, name, b + post);
      ReadString(pre + a, val, post);
      assert pre + (a + b) + post == pre + a + (b + post) == (pre + a) + b + post;
  }

  lemma {:induction false} ReadItems(pre: Bytes, items: seq<Item>, post: Bytes, pkt: byte, p: Properties)
    requires AllSound(items, pkt) && WithinLimits(p, items, pkt)
    ensures var buf := pre + EncodeItems(items) + post;
            DecodeItems(buf, |pre|, |pre| + |EncodeItems(items)|, pkt, p) == Ok(Fold(p, items, pkt))
    decreases |items|
  {
    hide EncodeItem, Sound, Apply, DecodeItem;
    if items != [] {
      var item, rest := items[0], EncodeItems(items[1..]);
      var buf := pre + EncodeItems(items) + post;
      assert buf == pre + EncodeItem(item) + (rest + post);
      ReadOne(pre, item, rest + post, pkt, p);
      assert buf == (pre + EncodeItem(item)) + rest + post;
      SoundKind(item, pkt);
      ReadItems(pre + EncodeItem(item), items[1..], post, pkt, Apply(p, item));
    }
  }

  lemma SoundKind(item: Item, pkt: byte)
    requires Sound(item, pkt)
    ensures HasKind(item.value, KindOf(item.k))
  {
  }

  lemma ReadOne(pre: Bytes, item: Item, post: Bytes, pkt: byte, p: Properties)
    requires Sound(item, pkt)
    requires item.k == SUBSCRIPTION_IDENTIFIER ==> |p.subscriptionIdentifier| < MAX_SUBSCRIPTION_IDENTIFIERS
    requires item.k == USER ==> |p.user| < MAX_USER_PROPERTIES
    ensures DecodeItem(pre + EncodeItem(item) + post, |pre|, pkt, p) == Ok((item, |pre| + |EncodeItem(item)|))
  {
    hide EncodeValue, CanEncode, KindOf, DecodeValue, Fits, HasKind;
    var buf := pre + EncodeItem(item) + post;
    assert buf == (pre + [item.k]) + EncodeValue(item.value) + post;
    ReadValue(pre + [item.k], item.value, post, KindOf(item.k));
  }

  lemma {:induction false} FoldBoth(p: Properties, a: seq<Item>, b: seq<Item>, pkt: byte)
    requires AllSound(a, pkt) && AllSound(b, pkt)
    ensures AllSound(a + b, pkt) && Fold(p, a + b, pkt) == Fold(Fold(p, a, pkt), b, pkt)
    ensures WithinLimits(p, a + b, pkt) <==> WithinLimits(p, a, pkt) && WithinLimits(Fold(p, a, pkt), b, pkt)
    decreases |a|
  {
    hide CanEncode, KindOf, HasKind, Fits, Apply;
    if a == [] {
      assert a + b == b;
    } else {
      FoldBoth(Apply(p, a[0]), a[1..], b, pkt);
      assert (a + b)[1..] == a[1..] + b;
    }
  }

  // ----- what reading gives

  /** The record after reading what is written for one property. */
  function Gain(q: Properties, k: byte, p: Properties, pkt: byte, mods: Mods, n: nat): (r: Properties) {
    if !Written(k, p, pkt, mods, n) then q
    else if k == SUBSCRIPTION_IDENTIFIER then
      q.(subscriptionIdentifier := q.subscriptionIdentifier + Positive(p.subscriptionIdentifier))
    else if k == USER then q.(user := q.user + p.user)
    else q.(slots := q.slots[k := Slot(p.slots[k].value, HasFlag(k))])
  }

  lemma {:induction false} FoldIdentifiers(q: Properties, ids: seq<nat>, pkt: byte)
    requires AllSound(IdentifierItems(ids), pkt)
    ensures Fold(q, IdentifierItems(ids), pkt) == q.(subscriptionIdentifier := q.subscriptionIdentifier + ids)
    ensures WithinLimits(q, IdentifierItems(ids), pkt) <==>
            ids == [] || |q.subscriptionIdentifier| + |ids| <= MAX_SUBSCRIPTION_IDENTIFIERS
    decreases |ids|
  {
    if ids == [] {
      assert q.subscriptionIdentifier + ids == q.subscriptionIdentifier;
    } else {
      var items := IdentifierItems(ids);
      assert items[1..] == IdentifierItems(ids[1..]);
      var q1 := Apply(q, items[0]);
      FoldIdentifiers(q1, ids[1..], pkt);
      assert q1.subscriptionIdentifier + ids[1..] == q.subscriptionIdentifier + ids;
    }
  }

  lemma {:induction false} FoldUser(q: Properties, user: seq<(Bytes, Bytes)>, pkt: byte)
    requires AllSound(UserItems(user), pkt)
    ensures Fold(q, UserItems(user), pkt) == q.(user := q.user + user)
    ensures WithinLimits(q, UserItems(user), pkt) <==>
            user == [] || |q.user| + |user| <= MAX_USER_PROPERTIES
    decreases |user|
  {
    if user == [] {
      assert q.user + user == q.user;
    } else {
      var items := UserItems(user);
      assert items[1..] == UserItems(user[1..]);
      var q1 := Apply(q, items[0]);
      FoldUser(q1, user[1..], pkt);
      assert q1.user + user[1..] == q.user + user;
    }
  }

  /** The counts that a reader accepts. */
  predicate FewEnough(p: Properties) {
    |Positive(p.subscriptionIdentifier)| <= MAX_SUBSCRIPTION_IDENTIFIERS && |p.user| <= MAX_USER_PROPERTIES
  }

  lemma FoldKey(q: Properties, k: byte, p: Properties, pkt: byte, mods: Mods, n: nat)
    requires AllSound(ItemsFor(k, p, pkt, mods, n), pkt) && FewEnough(p)
    requires k == SUBSCRIPTION_IDENTIFIER ==> q.subscriptionIdentifier == []
    requires k == USER ==> q.user == []
    ensures Fold(q, ItemsFor(k, p, pkt, mods, n), pkt) == Gain(q, k, p, pkt, mods, n)
    ensures WithinLimits(q, ItemsFor(k, p, pkt, mods, n), pkt)
  {
    hide Written, HasFlag;
    var items := ItemsFor(k, p, pkt, mods, n);
    if Written(k, p, pkt, mods, n) {
      if k == SUBSCRIPTION_IDENTIFIER {
        FoldIdentifiers(q, Positive(p.subscriptionIdentifier), pkt);
      } else if k == USER {
        FoldUser(q, p.user, pkt);
      } else {
        assert items[1..] == [];
      }
    }
  }

  predicate Ascending(keys: seq<byte>) {
    forall i, j :: 0 <= i < j < |keys| ==> keys[i] < keys[j]
  }

  function GainAll(q: Properties, keys: seq<byte>, p: Properties, pkt: byte, mods: Mods, n: nat): (r: Properties)
    decreases |keys|
  {
    if keys == [] then q else GainAll(Gain(q, keys[0], p, pkt, mods, n), keys[1..], p, pkt, mods, n)
  }

  /** Reading what is written for the given properties, into a record without them. */
  lemma {:induction false} FoldKeys(q: Properties, keys: seq<byte>, p: Properties, pkt: byte, mods: Mods, n: nat)
    requires AllSound(ItemsOf(keys, p, pkt, mods, n), pkt) && FewEnough(p) && Ascending(keys)
    requires SUBSCRIPTION_IDENTIFIER in keys ==> q.subscriptionIdentifier == []
    requires USER in keys ==> q.user == []
    ensures WithinLimits(q, ItemsOf(keys, p, pkt, mods, n), pkt)
    ensures Fold(q, ItemsOf(keys, p, pkt, mods, n), pkt) == GainAll(q, keys, p, pkt, mods, n)
    decreases |keys|
  {
    if keys != [] {
      var k, rest := keys[0], keys[1..];
      var first, others := ItemsFor(k, p, pkt, mods, n), ItemsOf(rest, p, pkt, mods, n);
      SoundParts(first, others, pkt);
      FoldKey(q, k, p, pkt, mods, n);
      FoldBoth(q, first, others, pkt);
      GainOthers(q, k, p, pkt, mods, n);
      hide Gain, ItemsFor, Fold, WithinLimits, AllSound, FewEnough;
      assert k !in rest;
      FoldKeys(Gain(q, k, p, pkt, mods, n), rest, p, pkt, mods, n);
    }
  }

  lemma SoundParts(a: seq<Item>, b: seq<Item>, pkt: byte)
    requires AllSound(a + b, pkt)
    ensures AllSound(a, pkt) && AllSound(b, pkt)
  {
    hide Sound;
    assert forall i :: 0 <= i < |a| ==> a[i] == (a + b)[i];
    assert forall i :: 0 <= i < |b| ==> b[i] == (a + b)[|a| + i];
  }

  lemma GainOthers(q: Properties, k: byte, p: Properties, pkt: byte, mods: Mods, n: nat)
    ensures k != SUBSCRIPTION_IDENTIFIER ==>
              Gain(q, k, p, pkt, mods, n).subscriptionIdentifier == q.subscriptionIdentifier
    ensures k != USER ==> Gain(q, k, p, pkt, mods, n).user == q.user
  {
  }

  lemma {:induction false} GainAllSlots(q: Properties, keys: seq<byte>, p: Properties, pkt: byte, mods: Mods, n: nat)
    requires Ascending(keys)
    ensures GainAll(q, keys, p, pkt, mods, n).slots == q.slots + Carried(keys, p, pkt, mods, n)
    decreases |keys|
  {
    if keys == [] {
      assert Carried(keys, p, pkt, mods, n) == map[];
    } else {
      var k, rest, q1 := keys[0], keys[1..], Gain(q, keys[0], p, pkt, mods, n);
      GainAllSlots(q1, rest, p, pkt, mods, n);
      assert k !in rest;
      CarriedStep(k, rest, p, pkt, mods, n);
      assert keys == [k] + rest;
      hide Written, HasFlag, Carried;
      var more := Carried(rest, p, pkt, mods, n);
      if k != SUBSCRIPTION_IDENTIFIER && k != USER && Written(k, p, pkt, mods, n) && k in p.slots {
        AddFirst(q.slots, more, k, Slot(p.slots[k].value, HasFlag(k)));
      }
    }
  }

  lemma AddFirst(m: map<byte, Slot>, more: map<byte, Slot>, k: byte, s: Slot)
    requires k !in more
    ensures m[k := s] + more == m + more[k := s]
  {
  }

  function Carried(keys: seq<byte>, p: Properties, pkt: byte, mods: Mods, n: nat): (slots: map<byte, Slot>) {
    map k | k in p.slots && k in keys && k != SUBSCRIPTION_IDENTIFIER && k != USER && Written(k, p, pkt, mods, n)
      :: Slot(p.slots[k].value, HasFlag(k))
  }

  lemma CarriedStep(k: byte, rest: seq<byte>, p: Properties, pkt: byte, mods: Mods, n: nat)
    requires k !in rest
    ensures var more := Carried(rest, p, pkt, mods, n);
            && k !in more
            && (Written(k, p, pkt, mods, n) && k != SUBSCRIPTION_IDENTIFIER && k != USER ==> k in p.slots)
            && Carried([k] + rest, p, pkt, mods, n)
               == if k in p.slots && k != SUBSCRIPTION_IDENTIFIER && k != USER && Written(k, p, pkt, mods, n)
                  then more[k := Slot(p.slots[k].value, HasFlag(k))] else more
  {
  }

  lemma {:induction false} GainAllLists(q: Properties, keys: seq<byte>, p: Properties, pkt: byte, mods: Mods, n: nat)
    requires Ascending(keys)
    ensures var r := GainAll(q, keys, p, pkt, mods, n);
            && r.subscriptionIdentifier == q.subscriptionIdentifier
               + (if SUBSCRIPTION_IDENTIFIER in keys && Written(SUBSCRIPTION_IDENTIFIER, p, pkt, mods, n)
                  then Positive(p.subscriptionIdentifier) else [])
            && r.user == q.user + (if USER in keys && Written(USER, p, pkt, mods, n) then p.user else [])
    decreases |keys|
  {
    if keys != [] {
      hide Written, HasFlag, Positive;
      assert keys[0] !in keys[1..];
      GainAllLists(Gain(q, keys[0], p, pkt, mods, n), keys[1..], p, pkt, mods, n);
    }
  }

  predicate AllFit(items: seq<Item>) {
    forall i :: 0 <= i < |items| ==> Fits(items[i].value)
  }

  /** Reading back everything written gives the normal form of the set. */
  lemma FoldItems(p: Properties, pkt: byte, mods: Mods, n: nat)
    requires WellTyped(p) && FewEnough(p) && AllSound(Items(p, pkt, mods, n), pkt)
    ensures WithinLimits(ZERO, Items(p, pkt, mods, n), pkt)
    ensures Fold(ZERO, Items(p, pkt, mods, n), pkt) == Normalise(p, pkt, mods, n)
  {
    hide Order, Written, HasFlag, Positive, GainAll, Fold, WithinLimits, AllSound, FewEnough, KindOf, HasKind;
    OrderComplete();
    FoldKeys(ZERO, Order(), p, pkt, mods, n);
    GainAllSlots(ZERO, Order(), p, pkt, mods, n);
    GainAllLists(ZERO, Order(), p, pkt, mods, n);
    assert ZERO.slots + Carried(Order(), p, pkt, mods, n) == Normalise(p, pkt, mods, n).slots;
  }

  lemma OrderComplete()
    ensures Ascending(Order()) && SUBSCRIPTION_IDENTIFIER in Order() && USER in Order()
  {
  }

  /** Reading undoes writing: what comes back is the normal form, the bytes taken are
      those written, and what follows does not matter. */
  lemma PropertiesRoundTrip(p: Properties, pkt: byte, mods: Mods, n: nat, rest: Bytes)
    requires WellTyped(p) && FewEnough(p) && AllFit(Items(p, pkt, mods, n))
    requires |EncodeItems(Items(p, pkt, mods, n))| <= MAX_LENGTH
    ensures DecodeProperties(ZERO, pkt, EncodeProperties(p, pkt, mods, n) + rest)
         == Ok((Normalise(p, pkt, mods, n), |EncodeProperties(p, pkt, mods, n)|))
  {
    hide Order, ItemsOf, EncodeItems, Normalise, Vbi, ReadLength, DecodeItems, Fold, WellTyped, FewEnough, AllFit;
    hide AllSound;
    var items := Items(p, pkt, mods, n);
    ItemsSound(Order(), p, pkt, mods, n);
    FoldItems(p, pkt, mods, n);
    var body := EncodeItems(items);
    var head := Vbi(|body|);
    ReadVbi(|body|, body + rest);
    assert EncodeProperties(p, pkt, mods, n) + rest == head + (body + rest);
    assert (head + (body + rest))[|head|..] == [] + body + rest;
    ReadItems([], items, rest, pkt, ZERO);
    if |body| == 0 { NoItems(items, pkt); }
  }

  lemma NoItems(items: seq<Item>, pkt: byte)
    requires |EncodeItems(items)| == 0 && AllSound(items, pkt)
    ensures Fold(ZERO, items, pkt) == ZERO
  {
  }

  lemma {:induction false} ItemsSound(keys: seq<byte>, p: Properties, pkt: byte, mods: Mods, n: nat)
    requires WellTyped(p) && AllFit(ItemsOf(keys, p, pkt, mods, n))
    ensures AllSound(ItemsOf(keys, p, pkt, mods, n), pkt)
    decreases |keys|
  {
    hide WellTyped, Fits, ItemsFor, CanEncode, KindOf, HasKind;
    if keys != [] {
      var first, others := ItemsFor(keys[0], p, pkt, mods, n), ItemsOf(keys[1..], p, pkt, mods, n);
      assert forall i :: 0 <= i < |first| ==> first[i] == (first + others)[i];
      assert forall i :: 0 <= i < |others| ==> others[i] == (first + others)[|first| + i];
      ItemsSound(keys[1..], p, pkt, mods, n);
      KeyItems(keys[0], p, pkt, mods, n);
    }
  }

  lemma KeyItems(k: byte, p: Properties, pkt: byte, mods: Mods, n: nat)
    requires WellTyped(p)
    ensures var items := ItemsFor(k, p, pkt, mods, n);
            forall i :: 0 <= i < |items| ==> CanEncode(pkt, items[i].k) && HasKind(items[i].value, KindOf(items[i].k))
  {
    hide CanEncode;
    IdentifierKinds(Positive(p.subscriptionIdentifier));
    UserKinds(p.user);
  }

  lemma {:induction false} IdentifierKinds(ids: seq<nat>)
    ensures forall i :: 0 <= i < |IdentifierItems(ids)| ==>
              IdentifierItems(ids)[i].k == SUBSCRIPTION_IDENTIFIER && IdentifierItems(ids)[i].value.Variable?
    decreases |ids|
  {
    if ids != [] { IdentifierKinds(ids[1..]); }
  }

  lemma {:induction false} UserKinds(user: seq<(Bytes, Bytes)>)
    ensures forall i :: 0 <= i < |UserItems(user)| ==>
              UserItems(user)[i].k == USER && UserItems(user)[i].value.Pair?
    decreases |user|
  {
    if user != [] { UserKinds(user[1..]); }
  }

  /** The normal form is written as the set itself is: normalising loses nothing that a
      packet of this type would have carried, and doing it twice is doing it once. */
  lemma NormaliseWritten(p: Properties, pkt: byte, mods: Mods, n: nat)
    requires WellTyped(p)
    ensures var q := Normalise(p, pkt, mods, n);
            WellTyped(q) && EncodeProperties(q, pkt, mods, n) == EncodeProperties(p, pkt, mods, n)
    ensures var q := Normalise(p, pkt, mods, n); Normalise(q, pkt, mods, n) == q
  {
    var q := Normalise(p, pkt, mods, n);
    NormalTwice(p, pkt, mods, n);
    hide Normalise, ItemsFor, ItemsOf, EncodeItems, Order, WellTyped;
    forall k: byte ensures ItemsFor(k, q, pkt, mods, n) == ItemsFor(k, p, pkt, mods, n) {
      SameKey(k, p, pkt, mods, n);
    }
    SameItems(Order(), p, q, pkt, mods, n);
  }

  lemma NormalTwice(p: Properties, pkt: byte, mods: Mods, n: nat)
    requires WellTyped(p)
    ensures var q := Normalise(p, pkt, mods, n); WellTyped(q) && Normalise(q, pkt, mods, n) == q
  {
    hide Positive, HasFlag, SlotWritten, CanEncode, KindOf, HasKind, Written, ItemsFor;
    var q := Normalise(p, pkt, mods, n);
    forall k: byte ensures k in q.slots ==> Written(k, q, pkt, mods, n) { SameKey(k, p, pkt, mods, n); }
    assert Normalise(q, pkt, mods, n).slots == q.slots;
    PositiveTwice(p.subscriptionIdentifier);
    SameLists(p, pkt, mods, n);
  }

  lemma SameLists(p: Properties, pkt: byte, mods: Mods, n: nat)
    ensures var q := Normalise(p, pkt, mods, n);
            && (Written(SUBSCRIPTION_IDENTIFIER, p, pkt, mods, n) && q.subscriptionIdentifier != [] ==>
                  Written(SUBSCRIPTION_IDENTIFIER, q, pkt, mods, n))
            && (Written(USER, p, pkt, mods, n) && q.user != [] ==> Written(USER, q, pkt, mods, n))
            && Positive([]) == []
  {
    hide CanEncode;
  }

  lemma SameKey(k: byte, p: Properties, pkt: byte, mods: Mods, n: nat)
    requires WellTyped(p)
    ensures var q := Normalise(p, pkt, mods, n);
            && (k in q.slots ==> Written(k, q, pkt, mods, n))
            && ItemsFor(k, q, pkt, mods, n) == ItemsFor(k, p, pkt, mods, n)
  {
    hide CanEncode, HasFlag, IdentifierItems;
    PositiveTwice(p.subscriptionIdentifier);
  }

  lemma {:induction false} PositiveTwice(ids: seq<int>)
    ensures Positive(Positive(ids)) == Positive(ids)
  {
    AllPositive(Positive(ids));
  }

  lemma {:induction false} AllPositive(ids: seq<int>)
    requires forall i :: 0 <= i < |ids| ==> ids[i] > 0
    ensures Positive(ids) == ids
    decreases |ids|
  {
    if ids != [] { AllPositive(ids[1..]); }
  }

  lemma {:induction false} SameItems(keys: seq<byte>, p: Properties, q: Properties, pkt: byte, mods: Mods, n: nat)
    requires forall k: byte :: ItemsFor(k, q, pkt, mods, n) == ItemsFor(k, p, pkt, mods, n)
    ensures ItemsOf(keys, q, pkt, mods, n) == ItemsOf(keys, p, pkt, mods, n)
    decreases |keys|
  {
    hide ItemsFor;
    if keys != [] { SameItems(keys[1..], p, q, pkt, mods, n); }
  }
}
