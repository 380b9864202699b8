/** What the property codec writes for whom, told from the numbers of section 2.2.2.2 alone:
    which packets carry a property, how its value is written, and what each restriction of
    the receiver takes away. */
module PropertyLaws {
  import opened Codec
  import opened Properties

  // ----- the table of properties

  /** The packet types a property may come in, by its number; 99 stands for a will. */
  function Carriers(k: byte): (types: set<int>) {
    match k
    case 1 => {3, 99}
    case 2 => {3, 99}
    case 3 => {3, 99}
    case 8 => {3, 99}
    case 9 => {3, 99}
    case 11 => {3, 8}
    case 17 => {1, 2, 14}
    case 18 => {2}
    case 19 => {2}
    case 21 => {1, 2, 15}
    case 22 => {1, 2, 15}
    case 23 => {1}
    case 24 => {99}
    case 25 => {1}
    case 26 => {2}
    case 28 => {2, 14}
    case 31 => {2, 4, 5, 6, 7, 9, 11, 14, 15}
    case 33 => {1, 2}
    case 34 => {1, 2}
    case 35 => {3}
    case 36 => {2}
    case 37 => {2}
    case 38 => {1, 2, 3, 4, 5, 6, 7, 8, 9, 10, 11, 14, 15, 99}
    case 39 => {1, 2}
    case 40 => {2}
    case 41 => {2}
    case 42 => {2}
    case _ => {}
  }

  lemma CarriersExact(pkt: byte, k: byte)
    ensures CanEncode(pkt, k) <==> pkt in Carriers(k)
  {
  }

  /** All properties in the order they are written, which is that of their numbers. */
  lemma OrderIs()
    ensures Order() == [1, 2, 3, 8, 9, 11, 17, 18, 19, 21, 22, 23, 24, 25, 26, 28, 31, 33, 34, 35, 36, 37, 38, 39,
                        40, 41, 42]
  {
  }

  lemma KindsAre(k: byte)
    ensures k in {1, 23, 25, 36, 37, 40, 41, 42} ==> KindOf(k) == BYTE
    ensures k in {19, 33, 34, 35} ==> KindOf(k) == UINT16
    ensures k in {2, 17, 24, 39} ==> KindOf(k) == UINT32
    ensures k in {3, 8, 18, 21, 26, 28, 31} ==> KindOf(k) == TEXT
    ensures k in {9, 22} ==> KindOf(k) == BINARY
    ensures k == 11 ==> KindOf(k) == VARIABLE
    ensures k == 38 ==> KindOf(k) == PAIR
  {
  }

  /** The properties for which zero is a value and a flag says that it is set. */
  predicate Flagged(k: byte) {
    k in {1, 17, 19, 23, 35, 36, 37, 40, 41, 42}
  }

  // ----- what a receiver gets

  /** A field that says something: flagged or, without a flag, not zero; a response topic
      without wildcards, an alias above 0, a maximum QoS below 2. */
  predicate Says(k: byte, s: Slot) {
    && (if Flagged(k) then s.flag else !IsZero(s.value))
    && (k == 8 && s.value.Text? ==> 43 !in s.value.text && 35 !in s.value.text)
    && (k == 35 ==> !IsZero(s.value))
    && (k == 36 && s.value.Byte? ==> s.value.b < 2)
  }

  /** A receiver without restrictions. */
  const OPEN := Mods(0, false, true)

  /** Nothing that says something and may come in the packet is lost to it, and nothing else
      is written. */
  lemma NothingLost(p: Properties, pkt: byte, n: nat, k: byte)
    requires WellTyped(p)
    ensures var q := Normalise(p, pkt, OPEN, n);
            && (k in q.slots <==> k in p.slots && pkt in Carriers(k) && Says(k, p.slots[k]))
            && (k in q.slots ==> q.slots[k] == Slot(p.slots[k].value, Flagged(k)))
            && q.user == (if pkt in Carriers(38) then p.user else [])
            && q.subscriptionIdentifier == if pkt in Carriers(11) then Positive(p.subscriptionIdentifier) else []
  {
    hide CanEncode, Carriers, Order;
    CarriersExact(pkt, k);
    CarriersExact(pkt, 38);
    CarriersExact(pkt, 11);
  }

  /** The bytes of the user properties: their number and two lengths each. */
  function UserSize(user: seq<(Bytes, Bytes)>): (n: nat) {
    if user == [] then 0 else 5 + |user[0].0| + |user[0].1| + UserSize(user[1..])
  }

  /** A text that reports a problem is written while the packet stays below the maximum size
      of the receiver; sizes are 32-bit words. */
  predicate Below(mods: Mods, size: nat) {
    mods.maxSize == 0 || size % 0x1_0000_0000 < mods.maxSize
  }

  /** Of what a receiver without restrictions gets: problem information (the reason string
      and the user properties) is taken away exactly from one that wants none or when it
      does not fit, the three response properties exactly from one that may not have them,
      and nothing else is. */
  lemma Restricted(p: Properties, pkt: byte, mods: Mods, n: nat, k: byte)
    requires WellTyped(p)
    ensures var all, q := Normalise(p, pkt, OPEN, n), Normalise(p, pkt, mods, n);
            && (k in q.slots <==>
                  && k in all.slots
                  && (k == 31 ==> !mods.disallowProblemInfo && Below(mods, n + |p.slots[k].value.text| + 3))
                  && (k in {8, 9, 26} ==> mods.allowResponseInfo))
            && (k in q.slots ==> q.slots[k] == all.slots[k])
            && q.user == (if !mods.disallowProblemInfo && Below(mods, n + UserSize(p.user) + 1) then all.user else [])
            && q.subscriptionIdentifier == all.subscriptionIdentifier
  {
    hide CanEncode, Order, EncodeItems;
    UserBytes(p.user);
    if k == 31 && k in p.slots {
      var v := p.slots[k].value;
      assert v.Text? && |EncodeValue(v)| == 2 + |v.text|;
    }
  }

  lemma {:induction false} UserBytes(user: seq<(Bytes, Bytes)>)
    ensures |EncodeItems(UserItems(user))| == UserSize(user)
    decreases |user|
  {
    if user != [] {
      UserBytes(user[1..]);
      var items := UserItems(user);
      assert items[1..] == UserItems(user[1..]);
      assert |EncodeItem(items[0])| == 5 + |user[0].0| + |user[0].1|;
    }
  }

  /** Of the subscription identifiers exactly the positive ones are kept, in their order. */
  lemma {:induction false} PositiveParts(a: seq<int>, b: seq<int>)
    ensures Positive(a + b) == Positive(a) + Positive(b)
    decreases |a|
  {
    if a == [] {
      assert a + b == b;
    } else {
      assert (a + b)[1..] == a[1..] + b;
      PositiveParts(a[1..], b);
    }
  }

  lemma PositiveOne(x: int)
    ensures Positive([x]) == if x > 0 then [x] else []
  {
    assert [x][1..] == [];
  }

  // ----- what reading lets through

  /** A record as reading any bytes may leave it: only properties the packet may carry, each
      of its kind, and no more user properties and identifiers than the limits. */
  predicate Admissible(p: Properties, pkt: byte) {
    && WellTyped(p) && |p.user| <= 128 && |p.subscriptionIdentifier| <= 1024
    && (forall k :: k in p.slots ==> pkt in Carriers(k) && p.slots[k].flag == Flagged(k))
    && (p.user != [] ==> pkt in Carriers(38)) && (p.subscriptionIdentifier != [] ==> pkt in Carriers(11))
  }

  lemma ApplyAdmissible(p: Properties, item: Item, pkt: byte)
    requires Admissible(p, pkt) && HasKind(item.value, KindOf(item.k)) && pkt in Carriers(item.k)
    requires item.k == 11 ==> |p.subscriptionIdentifier| < 1024
    requires item.k == 38 ==> |p.user| < 128
    ensures Admissible(Apply(p, item), pkt)
  {
    OrderIs();
    hide Carriers, KindOf, HasKind;
    KnownKey(item.k, pkt);
  }

  lemma KnownKey(k: byte, pkt: byte)
    requires pkt in Carriers(k)
    ensures k in Order()
  {
    OrderIs();
  }

  /** Whatever the bytes, what is read is admissible; the first property that the packet may
      not carry, or that is one too many, is refused. */
  lemma {:induction false} ReadAdmissible(buf: Bytes, offset: nat, n: nat, pkt: byte, p: Properties)
    requires offset <= |buf| && Admissible(p, pkt)
    ensures var r := DecodeItems(buf, offset, n, pkt, p);
            && (r.Ok? ==> Admissible(r.value, pkt))
            && (offset < n && offset < |buf| && pkt !in Carriers(buf[offset]) ==> r == Err(UnsupportedProperty))
            && (offset < n && offset < |buf| && pkt in Carriers(38) && buf[offset] == 38 && |p.user| == 128 ==>
                  r == Err(TooManyUserProperties))
            && (offset < n && offset < |buf| && pkt in Carriers(11) && buf[offset] == 11 ==>
                  (|p.subscriptionIdentifier| == 1024 ==> r == Err(TooManySubscriptionIdentifiers)))
    decreases |buf| - offset
  {
    hide CanEncode, Carriers, DecodeValue, Admissible, KindOf, HasKind;
    Limits(p, pkt);
    if offset < n && offset < |buf| {
      CarriersExact(pkt, buf[offset]);
      var item := DecodeItem(buf, offset, pkt, p);
      if item.Ok? {
        ApplyAdmissible(p, item.value.0, pkt);
        ReadAdmissible(buf, item.value.1, n, pkt, Apply(p, item.value.0));
      }
    }
  }

  lemma Limits(p: Properties, pkt: byte)
    requires Admissible(p, pkt)
    ensures |p.user| <= 128 && |p.subscriptionIdentifier| <= 1024
  {
  }

  /** So a property section that is read leaves an admissible record. */
  lemma SectionAdmissible(pkt: byte, b: Bytes)
    ensures var r := DecodeProperties(ZERO, pkt, b); r.Ok? ==> Admissible(r.value.0, pkt)
  {
    var length := ReadLength(b, 0);
    if length.Ok? && length.value.0 > 0 {
      hide ReadLength, DecodeItems;
      ReadAdmissible(b[length.value.1..], 0, length.value.0, pkt, ZERO);
    }
  }
}
