/** Bytes on the wire: big-endian integers, length-prefixed bytes and text, and the
    variable byte integer of section 1.5.5 of MQTT Version 5.0. */
module Codec {

  type byte = x: int | 0 <= x < 256
  type Bytes = seq<byte>
  type uint16 = x: int | 0 <= x < 0x1_0000
  type uint32 = x: int | 0 <= x < 0x1_0000_0000

  datatype Error =
    | OffsetUintOutOfRange | OffsetBytesOutOfRange | OffsetByteOutOfRange
    | InvalidUTF8 | EndOfInput | VariableByteInteger
    | UnsupportedProperty | TooManySubscriptionIdentifiers | TooManyUserProperties
    | MalformedQos | MalformedFlags | DupNoQos | QosOutOfRange
    | NoPacketID | MalformedPacket | MalformedPacketID | MalformedTopic | MalformedProperties | MalformedReasonCode
    | MalformedProtocolName | MalformedProtocolVersion | MalformedKeepalive | ClientIdentifierNotValid
    | MalformedWillProperties | MalformedWillTopic | MalformedWillPayload
    | FlagNoUsername | MalformedUsername | MalformedPassword

  datatype Result<+T> = Ok(value: T) | Err(error: Error) {
    predicate IsFailure() { Err? }
    function PropagateFailure<U>(): (r: Result<U>)
      requires Err?
    {
      Err(error)
    }
    function Extract(): (v: T)
      requires Ok?
    {
      value
    }
    /** The caller's own error in place of the one found. */
    function Else(e: Error): (r: Result<T>) {
      if Ok? then this else Err(e)
    }
  }

  // ----- bits

  function Pow2(k: nat): (p: nat)
    ensures p > 0
  {
    if k == 0 then 1 else 2 * Pow2(k - 1)
  }

  /** Bitwise or. */
  function Or(a: nat, b: nat): (r: nat)
    decreases a + b
  {
    if a == 0 && b == 0 then 0
    else (if a % 2 == 1 || b % 2 == 1 then 1 else 0) + 2 * Or(a / 2, b / 2)
  }

  /** A left shift within a byte. */
  function Shl8(a: byte, k: nat): (r: byte) {
    (a * Pow2(k)) % 256
  }

  lemma {:induction false} OrZero(b: nat)
    ensures Or(0, b) == b && Or(b, 0) == b
  {
    if b > 0 { OrZero(b / 2); }
  }

  /** Or of bits that do not overlap is addition. */
  lemma {:induction false} OrDisjoint(a: nat, b: nat, k: nat)
    requires a < Pow2(k)
    ensures b * Pow2(k) >= 0 && Or(a, b * Pow2(k)) == a + b * Pow2(k)
    ensures Or(b * Pow2(k), a) == a + b * Pow2(k)
    decreases k
  {
    if k == 0 {
      OrZero(b);
    } else {
      var h := b * Pow2(k - 1);
      assert b * Pow2(k) == 2 * h;
      OrDisjoint(a / 2, b, k - 1);
      assert h >= 0;
    }
  }

  lemma {:induction false} OrBound(a: nat, b: nat, k: nat)
    requires a < Pow2(k) && b < Pow2(k)
    ensures Or(a, b) < Pow2(k)
    decreases k
  {
    if k > 0 { OrBound(a / 2, b / 2, k - 1); }
  }

  function OrByte(a: byte, b: byte): (r: byte) {
    OrBound(a, b, 8);
    assert Pow2(4) == 16 && Pow2(8) == 256;
    Or(a, b)
  }

  // ----- integers, bytes and text

  function EncodeUint16(v: uint16): (b: Bytes)
    ensures |b| == 2
  {
    [v / 256, v % 256]
  }

  function EncodeUint32(v: uint32): (b: Bytes)
    ensures |b| == 4
  {
    EncodeUint16(v / 0x1_0000) + EncodeUint16(v % 0x1_0000)
  }

  /** The length prefix is the length truncated to sixteen bits. */
  function EncodeBytes(v: Bytes): (b: Bytes)
    ensures |b| == |v| + 2
  {
    EncodeUint16(|v| % 0x1_0000) + v
  }

  /** The most significant byte comes first. */
  lemma BigEndian(v: uint16, w: uint32)
    ensures var b := EncodeUint16(v); (b[0] as int) * 0x100 + b[1] == v
    ensures var b := EncodeUint32(w);
            (b[0] as int) * 0x100_0000 + (b[1] as int) * 0x1_0000 + (b[2] as int) * 0x100 + b[3] == w
  {
    var high: int, low: int := w / 0x1_0000, w % 0x1_0000;
    assert EncodeUint32(w) == [high / 256, high % 256, low / 256, low % 256];
  }

  /** Data comes with its length before it, most significant byte first. */
  lemma LengthPrefixed(v: Bytes)
    requires |v| < 0x1_0000
    ensures var b := EncodeBytes(v); (b[0] as int) * 0x100 + b[1] == |v| && b[2..] == v
  {
    BigEndian(|v|, 0);
  }

  function DecodeByte(buf: Bytes, offset: nat): (r: Result<(byte, nat)>)
    ensures r.Ok? ==> r.value.1 == offset + 1 <= |buf|
  {
    if |buf| <= offset then Err(OffsetByteOutOfRange) else Ok((buf[offset], offset + 1))
  }

  function DecodeUint16(buf: Bytes, offset: nat): (r: Result<(uint16, nat)>)
    ensures r.Ok? ==> r.value.1 == offset + 2 <= |buf|
  {
    if |buf| < offset + 2 then Err(OffsetUintOutOfRange)
    else
      var high: int, low: int := buf[offset], buf[offset + 1];
      Ok((high * 256 + low, offset + 2))
  }

  function DecodeUint32(buf: Bytes, offset: nat): (r: Result<(uint32, nat)>)
    ensures r.Ok? ==> r.value.1 == offset + 4 <= |buf|
  {
    if |buf| < offset + 4 then Err(OffsetUintOutOfRange)
    else
      var high: int, low: int := DecodeUint16(buf, offset).value.0, DecodeUint16(buf, offset + 2).value.0;
      Ok((high * 0x1_0000 + low, offset + 4))
  }

  function DecodeBytes(buf: Bytes, offset: nat): (r: Result<(Bytes, nat)>)
    ensures r.Ok? ==> offset + 2 <= r.value.1 <= |buf| && |r.value.0| == r.value.1 - offset - 2
  {
    var (length, next) :- DecodeUint16(buf, offset);
    if next + length > |buf| then Err(OffsetBytesOutOfRange)
    else Ok((buf[next..next + length], next + length))
  }

  function DecodeString(buf: Bytes, offset: nat): (r: Result<(Bytes, nat)>)
    ensures r.Ok? ==> offset + 2 <= r.value.1 <= |buf| && ValidUTF8(r.value.0)
  {
    var (b, n) :- DecodeBytes(buf, offset);
    if !ValidUTF8(b) then Err(InvalidUTF8) else Ok((b, n))
  }

  predicate Continuation(b: Bytes, i: nat, low: int, high: int) {
    i < |b| && low <= b[i] <= high
  }

  /** The number of bytes of the first encoded character, or 0 if it is malformed. */
  function RuneLen(b: Bytes): (n: nat)
    requires b != []
    ensures n <= |b|
  {
    var c := b[0];
    if c < 0x80 then 1
    else if 0xC2 <= c <= 0xDF then if Continuation(b, 1, 0x80, 0xBF) then 2 else 0
    else if 0xE0 <= c <= 0xEF then
      if Continuation(b, 1, if c == 0xE0 then 0xA0 else 0x80, if c == 0xED then 0x9F else 0xBF)
         && Continuation(b, 2, 0x80, 0xBF) then 3 else 0
    else if 0xF0 <= c <= 0xF4 then
      if Continuation(b, 1, if c == 0xF0 then 0x90 else 0x80, if c == 0xF4 then 0x8F else 0xBF)
         && Continuation(b, 2, 0x80, 0xBF) && Continuation(b, 3, 0x80, 0xBF) then 4 else 0
    else 0
  }

  predicate WellFormedUTF8(b: Bytes)
    decreases |b|
  {
    b == [] || (RuneLen(b) > 0 && WellFormedUTF8(b[RuneLen(b)..]))
  }

  /** Text is well-formed UTF-8 without the null character. */
  predicate ValidUTF8(b: Bytes) {
    WellFormedUTF8(b) && 0 !in b
  }

  /** The code points that text may hold: no surrogates, nothing beyond U+10FFFF. */
  predicate Scalar(c: nat) {
    c < 0xD800 || 0xE000 <= c < 0x11_0000
  }

  function EncodeRune(c: nat): (b: Bytes)
    requires Scalar(c)
  {
    if c < 0x80 then [c]
    else if c < 0x800 then [0xC0 + c / 0x40, 0x80 + c % 0x40]
    else if c < 0x1_0000 then [0xE0 + c / 0x1000, 0x80 + c / 0x40 % 0x40, 0x80 + c % 0x40]
    else [0xF0 + c / 0x4_0000, 0x80 + c / 0x1000 % 0x40, 0x80 + c / 0x40 % 0x40, 0x80 + c % 0x40]
  }

  /** A text is well formed exactly when it is empty or starts with the shortest encoding of
      a code point and goes on well formed. */
  lemma RuneExact(b: Bytes)
    ensures WellFormedUTF8(b) <==>
            b == [] || exists c :: Scalar(c) && EncodeRune(c) <= b && WellFormedUTF8(b[|EncodeRune(c)|..])
  {
    if c :| Scalar(c) && EncodeRune(c) <= b {
      RuneRead(c, b);
    }
    if b != [] && RuneLen(b) > 0 {
      var c := RuneOf(b);
      assert EncodeRune(c) <= b;
    }
  }

  lemma RuneRead(c: nat, b: Bytes)
    requires Scalar(c) && EncodeRune(c) <= b
    ensures b != [] && RuneLen(b) == |EncodeRune(c)|
  {
    var e := EncodeRune(c);
    assert forall i :: 0 <= i < |e| ==> b[i] == e[i];
  }

  lemma RuneOf(b: Bytes) returns (c: nat)
    requires b != [] && RuneLen(b) > 0
    ensures Scalar(c) && EncodeRune(c) <= b && |EncodeRune(c)| == RuneLen(b)
  {
    var n := RuneLen(b);
    if n == 1 {
      c := b[0];
    } else if n == 2 {
      c := SixBits(b[0] - 0xC0, b[1] - 0x80);
    } else if n == 3 {
      var high := SixBits(b[0] - 0xE0, b[1] - 0x80);
      c := SixBits(high, b[2] - 0x80);
      assert c / 0x40 / 0x40 == c / 0x1000;
    } else {
      c := LongRuneOf(b);
    }
    assert b[..n] == EncodeRune(c);
  }

  lemma LongRuneOf(b: Bytes) returns (c: nat)
    requires b != [] && RuneLen(b) == 4
    ensures Scalar(c) && EncodeRune(c) == b[..4]
  {
    var top := SixBits(b[0] - 0xF0, b[1] - 0x80);
    var high := SixBits(top, b[2] - 0x80);
    c := SixBits(high, b[3] - 0x80);
    assert c / 0x40 / 0x40 == c / 0x1000 && c / 0x40 / 0x40 / 0x40 == c / 0x4_0000;
  }

  lemma SixBits(high: nat, low: nat) returns (c: nat)
    requires low < 0x40
    ensures c == high * 0x40 + low && c / 0x40 == high && c % 0x40 == low
  {
    c := high * 0x40 + low;
  }

  lemma ReadUint16(pre: Bytes, v: uint16, post: Bytes)
    ensures DecodeUint16(pre + EncodeUint16(v) + post, |pre|) == Ok((v, |pre| + 2))
  {
  }

  lemma ReadUint32(pre: Bytes, v: uint32, post: Bytes)
    ensures DecodeUint32(pre + EncodeUint32(v) + post, |pre|) == Ok((v, |pre| + 4))
  {
  }

  lemma ReadBytes(pre: Bytes, v: Bytes, post: Bytes)
    requires |v| < 0x1_0000
    ensures DecodeBytes(pre + EncodeBytes(v) + post, |pre|) == Ok((v, |pre| + |EncodeBytes(v)|))
  {
    var buf := pre + EncodeBytes(v) + post;
    assert buf == pre + EncodeUint16(|v|) + (v + post);
    ReadUint16(pre, |v|, v + post);
    assert buf[|pre| + 2..|pre| + 2 + |v|] == v;
  }

  lemma ReadString(pre: Bytes, v: Bytes, post: Bytes)
    requires |v| < 0x1_0000 && ValidUTF8(v)
    ensures DecodeString(pre + EncodeBytes(v) + post, |pre|) == Ok((v, |pre| + |EncodeBytes(v)|))
  {
    ReadBytes(pre, v, post);
  }

  // ----- the variable byte integer

  const MAX_LENGTH := 268435455

  function Vbi(n: nat): (b: Bytes)
    ensures |b| >= 1
  {
    if n < 128 then [n] else [n % 128 + 128] + Vbi(n / 128)
  }

  /** Appends the variable byte integer of a length. */
  method EncodeLength(b: Bytes, length0: nat) returns (r: Bytes)
    ensures r == b + Vbi(length0)
  {
    var length := length0;
    r := b;
    while true
      invariant r + Vbi(length) == b + Vbi(length0)
      decreases length
    {
      ghost var before, r0 := length, r;
      var eb: byte := length % 128;
      length := length / 128;
      if length > 0 {
        OrDisjoint(eb, 1, 7);
        assert Pow2(7) == 128;
        eb := Or(eb, 0x80);
      }
      r := r + [eb];
      if length == 0 {
        assert Vbi(before) == [eb];
        break;
      }
      assert Vbi(before) == [eb] + Vbi(length);
      assert r0 + ([eb] + Vbi(length)) == r + Vbi(length);
    }
  }

  /** What reading a variable byte integer from the front of `b` gives, `k` bytes of it
      being read already: the value of the rest and the number of bytes it took. */
  function ReadLength(b: Bytes, k: nat): (r: Result<(nat, nat)>)
    requires k <= 4
    ensures r.Ok? ==> 1 <= r.value.1 <= |b| && r.value.1 <= 4 - k
    decreases 4 - k
  {
    if b == [] then Err(EndOfInput)
    else if k == 4 then Err(VariableByteInteger)
    else if b[0] < 128 then Ok((b[0], 1))
    else
      var (v, n) :- ReadLength(b[1..], k + 1);
      Ok((b[0] - 128 + 128 * v, n + 1))
  }

  lemma ReadStep(b: Bytes, k: nat)
    requires k < 4 && b != []
    ensures ReadLength(b, k) ==
            if b[0] < 128 then Ok((b[0], 1))
            else match ReadLength(b[1..], k + 1)
                 case Ok((v, n)) => Ok((b[0] - 128 + 128 * v, n + 1))
                 case Err(e) => Err(e)
  {
  }

  function Pow128(k: nat): (p: nat) {
    if k == 0 then 1 else 128 * Pow128(k - 1)
  }

  lemma {:induction false} ReadLengthBound(b: Bytes, k: nat)
    requires k <= 4
    ensures ReadLength(b, k).Ok? ==> ReadLength(b, k).value.0 < Pow128(ReadLength(b, k).value.1) <= Pow128(4 - k)
    decreases 4 - k
  {
    if b != [] && k < 4 {
      if b[0] < 128 {
        assert Pow128(1) == 128;
        Pow128Grows(1, 4 - k);
      } else {
        ReadLengthBound(b[1..], k + 1);
      }
    }
  }

  lemma {:induction false} Pow128Grows(i: nat, j: nat)
    requires i <= j
    ensures 0 < Pow128(i) <= Pow128(j)
    decreases j
  {
    if j > 0 {
      if i < j { Pow128Grows(i, j - 1); } else { Pow128Grows(i - 1, j - 1); }
    }
  }

  /** Reads a variable byte integer from the front of `b`. At most five bytes are read;
      the value is never found too large after a byte is added. */
  method DecodeLength(b: Bytes) returns (r: Result<(nat, nat)>, taken: nat)
    ensures r == ReadLength(b, 0)
    ensures r.Ok? ==> r.value.0 <= MAX_LENGTH && r.value.1 == taken
    ensures taken <= 5
  {
    hide Shifted, Or, Pow2, ShiftedBits;
    ShiftedNone(ReadLength(b, 0));
    var multiplier, value, bu := 0, 0, 1;
    taken := 0;
    assert b[0..] == b;
    while true
      invariant multiplier in {0, 7, 14, 21, 28} && bu == taken + 1 && multiplier == 7 * taken
      invariant taken <= |b| && 0 <= value < Pow2(multiplier)
      invariant ReadLength(b, 0) == Shifted(value, multiplier, taken, ReadLength(b[taken..], taken))
      decreases 28 - multiplier
    {
      if taken == |b| {
        return Err(EndOfInput), taken;
      }
      var eb := b[taken];
      if multiplier >= 28 {
        return Err(VariableByteInteger), taken + 1;
      }
      LengthStep(b, taken, value, multiplier);
      taken := taken + 1;
      value := Or(value, ShiftedBits(eb, multiplier));
      if value > MAX_LENGTH {
        assert false;
      }
      if eb < 128 {
        return Ok((value, bu)), taken;
      }
      multiplier := multiplier + 7;
      bu := bu + 1;
    }
  }

  function Shifted(value: nat, multiplier: nat, taken: nat, rest: Result<(nat, nat)>): (r: Result<(nat, nat)>)
    ensures rest.Err? ==> r == rest
  {
    match rest
    case Ok((v, n)) => assert v * Pow2(multiplier) >= 0; Ok((value + v * Pow2(multiplier), n + taken))
    case Err(e) => Err(e)
  }

  /** The low seven bits of a byte, shifted left. */
  function ShiftedBits(eb: byte, multiplier: nat): (r: nat) {
    var bits: nat := eb % 128;
    bits * Pow2(multiplier)
  }

  lemma ShiftedNone(rest: Result<(nat, nat)>)
    ensures Shifted(0, 0, 0, rest) == rest && Pow2(0) == 1
  {
  }

  lemma LengthStep(b: Bytes, taken: nat, value: nat, multiplier: nat)
    requires taken < |b| && taken < 4 && multiplier == 7 * taken && value < Pow2(multiplier)
    ensures var eb := b[taken];
            var next := Or(value, ShiftedBits(eb, multiplier));
            var here := Shifted(value, multiplier, taken, ReadLength(b[taken..], taken));
            && next < Pow2(multiplier + 7) && next <= MAX_LENGTH
            && here == if eb < 128 then Ok((next, taken + 1))
                       else Shifted(next, multiplier + 7, taken + 1, ReadLength(b[taken + 1..], taken + 1))
  {
    hide Or, Pow2, ReadLength, ShiftedBits;
    var eb, p := b[taken], Pow2(multiplier);
    OrOfBits(eb, value, taken);
    assert b[taken..][1..] == b[taken + 1..];
    ReadStep(b[taken..], taken);
    var rest := ReadLength(b[taken + 1..], taken + 1);
    assert ShiftedBits(eb, multiplier) == (eb % 128) * p by { BitsOf(eb, multiplier); }
    if eb < 128 {
      assert eb % 128 == eb;
    } else if rest.Ok? {
      assert eb % 128 == eb - 128;
      ShiftArithmetic(value, eb - 128, rest.value.0, p);
    }
  }

  lemma BitsOf(eb: byte, multiplier: nat)
    ensures ShiftedBits(eb, multiplier) == (eb % 128) * Pow2(multiplier)
  {
  }

  lemma OrOfBits(eb: byte, value: nat, taken: nat)
    requires taken < 4 && value < Pow2(7 * taken)
    ensures var next := Or(value, ShiftedBits(eb, 7 * taken));
            && next == value + ShiftedBits(eb, 7 * taken) < Pow2(7 * taken + 7) && next <= MAX_LENGTH
            && Pow2(7 * taken + 7) == 128 * Pow2(7 * taken)
  {
    hide Or, Pow2;
    var bits: nat := eb % 128;
    OrDisjoint(value, bits, 7 * taken);
    NextPower(taken);
    BitsBound(value, bits, Pow2(7 * taken));
  }

  lemma BitsBound(value: nat, bits: nat, p: nat)
    requires value < p && bits < 128
    ensures value + bits * p < 128 * p
  {
  }

  lemma NextPower(taken: nat)
    requires taken < 4
    ensures Pow2(7 * taken + 7) == 128 * Pow2(7 * taken) <= MAX_LENGTH + 1
  {
    Powers();
  }

  lemma ShiftArithmetic(value: nat, bits: nat, v: nat, p: nat)
    ensures value + (bits + 128 * v) * p == (value + bits * p) + v * (128 * p)
  {
  }

  lemma Powers()
    ensures Pow2(0) == 1 && Pow2(7) == 128 && Pow2(14) == 16384 && Pow2(21) == 2097152 && Pow2(28) == 268435456
  {
  }

  /** Reading back what was written, whatever follows it. */
  lemma {:induction false} ReadLengthOfVbi(n: nat, k: nat, rest: Bytes)
    requires k < 4 && n < Pow128(4 - k)
    ensures ReadLength(Vbi(n) + rest, k) == Ok((n, |Vbi(n)|))
    decreases n
  {
    if n >= 128 {
      assert Pow128(1) == 128;
      assert k < 3;
      assert n / 128 < Pow128(3 - k);
      ReadLengthOfVbi(n / 128, k + 1, rest);
      assert (Vbi(n) + rest)[1..] == Vbi(n / 128) + rest;
    }
  }

  lemma ReadVbi(n: nat, rest: Bytes)
    requires n <= MAX_LENGTH
    ensures ReadLength(Vbi(n) + rest, 0) == Ok((n, |Vbi(n)|))
  {
    assert Pow128(2) == 16384;
    assert Pow128(4) == 268435456;
    ReadLengthOfVbi(n, 0, rest);
  }

  /** The bytes read are those that would be written, exactly when they do not end in a
      needless zero byte. */
  lemma {:induction false} ReadCanonical(b: Bytes, k: nat)
    requires k <= 4 && ReadLength(b, k).Ok?
    ensures var (v, n) := ReadLength(b, k).value;
            Vbi(v) == b[..n] <==> n == 1 || b[n - 1] != 0
    decreases 4 - k
  {
    if b[0] >= 128 {
      ReadCanonical(b[1..], k + 1);
      var (v, n) := ReadLength(b[1..], k + 1).value;
      assert b[..n + 1] == [b[0]] + b[1..][..n];
      var w := b[0] - 128 + 128 * v;
      if v > 0 {
        assert w % 128 == b[0] - 128 && w / 128 == v;
        assert Vbi(w) == [b[0]] + Vbi(v);
      } else {
        ZeroRead(b[1..], k + 1);
      }
    }
  }

  lemma {:induction false} ZeroRead(b: Bytes, k: nat)
    requires k <= 4 && ReadLength(b, k).Ok? && ReadLength(b, k).value.0 == 0
    ensures b[ReadLength(b, k).value.1 - 1] == 0
    decreases 4 - k
  {
  }

  /** Two bytes that are read as zero, which is written as one. */
  lemma NotCanonical()
    ensures ReadLength([128, 0], 0) == Ok((0, 2)) && Vbi(0) == [0]
  {
    assert [128, 0][1..] == [0];
  }

  /** The number that groups of seven bits stand for, the lowest group first. */
  function Digits(b: Bytes): (n: nat) {
    if b == [] then 0
    else
      var group: nat := b[0] % 128;
      group + 128 * Digits(b[1..])
  }

  /** Section 1.5.5: groups of seven bits from the lowest on, the high bit set on all bytes
      but the last, and no needless last byte. */
  lemma {:induction false} VbiGroups(n: nat)
    ensures var b := Vbi(n);
            && b != [] && Digits(b) == n
            && (forall i :: 0 <= i < |b| - 1 ==> b[i] >= 128) && b[|b| - 1] < 128
            && (|b| > 1 ==> b[|b| - 1] != 0)
  {
    if n >= 128 {
      VbiGroups(n / 128);
      var b, rest := Vbi(n), Vbi(n / 128);
      assert b[1..] == rest;
      forall i | 0 <= i < |b| - 1 ensures b[i] >= 128 { if i > 0 { assert b[i] == rest[i - 1]; } }
      assert b[|b| - 1] == rest[|rest| - 1];
    }
  }
}
