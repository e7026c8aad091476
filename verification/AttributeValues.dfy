/** Typed attribute values, stored big-endian, and the trimmed little-endian form they travel in. */
module AttributeValues {
  import opened Bytes
  import opened PacketInts

  datatype ValueType = I8 | I16 | I32 | I64 | F4 | F8 | S | B {
    function Ordinal(): (n: nat)
      ensures n < 8
    {
      match this
      case I8 => 0 case I16 => 1 case I32 => 2 case I64 => 3
      case F4 => 4 case F8 => 5 case S => 6 case B => 7
    }

    /** Types before f4 are the integers, which travel trimmed. */
    predicate IsInteger() {
      Ordinal() < F4.Ordinal()
    }

    /** Bytes a value of a fixed-size type occupies. */
    function Width(): (w: nat) {
      match this
      case I8 => 1 case I16 => 2 case I32 => 4 case I64 => 8
      case F4 => 4 case F8 => 8 case S => 0 case B => 0
    }
  }

  function TypeOf(ordinal: nat): (t: ValueType)
    requires ordinal < 8
    ensures t.Ordinal() == ordinal
  {
    [I8, I16, I32, I64, F4, F8, S, B][ordinal]
  }

  /** The numbers of the types: those of the integers are the logarithms of their widths, those of the
      floats are larger by two; strings and buffers come last. */
  lemma TypeNumbers(t: ValueType)
    ensures t.IsInteger() <==> t.I8? || t.I16? || t.I32? || t.I64?
    ensures t.IsInteger() ==> t.Width() == Pow2(t.Ordinal())
    ensures t.F4? || t.F8? ==> t.Width() == Pow2(t.Ordinal() - 2)
    ensures (t.S? <==> t.Ordinal() == 6) && (t.B? <==> t.Ordinal() == 7)
    ensures t.Width() ==
      match t case I8 => 1 case I16 => 2 case I32 => 4 case I64 => 8 case F4 => 4 case F8 => 8 case _ => 0
  {
    assert Pow2(3) == 8;
  }

  /** `value` holds the bytes of the backing array. */
  datatype AttributeValue = AttributeValue(valueType: ValueType, value: seq<byte>) {
    ghost predicate Valid() {
      && |value| < 0x8000_0000
      && (valueType.Width() > 0 ==> |value| == valueType.Width())
    }
  }

  /** The objects `setValue` tells apart. Strings are their UTF-8 bytes, a Float its bit pattern. */
  datatype JavaValue =
    | JString(utf8: seq<byte>)
    | JBuffer(bytes: seq<byte>)
    | JByte(v: int)
    | JShort(v: int)
    | JInteger(v: int)
    | JLong(v: int)
    | JFloat(bits: nat)
    | JDouble(doubleBits: nat)
    | JOther
  {
    /** The Java object can exist: numbers in range, arrays no longer than Java allows. */
    ghost predicate Exists() {
      match this
      case JString(bs) => |bs| < 0x8000_0000
      case JBuffer(bs) => |bs| < 0x8000_0000
      case JByte(v) => InRange(v, 1)
      case JShort(v) => InRange(v, 2)
      case JInteger(v) => InRange(v, 4)
      case JLong(v) => InRange(v, 8)
      case JFloat(n) => n < Pow256(4)
      case JDouble(n) => n < Pow256(8)
      case JOther => true
    }
  }

  predicate InRange(v: int, k: nat) {
    -2 * v <= Pow256(k) && 2 * v < Pow256(k)
  }

  function BigEndian(n: nat, k: nat): (bs: seq<byte>)
    ensures |bs| == k
  {
    Reverse(LittleEndian(n, k))
  }

  /** `setValue` on a new object. A Double misses its branch, which asks for a Float a second time,
      and ends up as the Integer 0 like any other object. */
  function SetValue(val: JavaValue): AttributeValue
    requires val.Exists()
  {
    match val
    case JString(bs) => AttributeValue(S, bs)
    case JBuffer(bs) => AttributeValue(B, bs)
    case JByte(v) => AttributeValue(I8, BigEndian(Unsigned(v, 1), 1))
    case JShort(v) => AttributeValue(I16, BigEndian(Unsigned(v, 2), 2))
    case JInteger(v) => AttributeValue(I32, BigEndian(Unsigned(v, 4), 4))
    case JLong(v) => AttributeValue(I64, BigEndian(Unsigned(v, 8), 8))
    case JFloat(n) => AttributeValue(F4, BigEndian(n, 4))
    case JDouble(_) => AttributeValue(I32, BigEndian(0, 4))
    case JOther => AttributeValue(I32, BigEndian(0, 4))
  }

  function GetValue(av: AttributeValue): JavaValue {
    var n := Value(Reverse(av.value));
    match av.valueType
    case I8 => JByte(Signed(n, 1))
    case I16 => JShort(Signed(n, 2))
    case I32 => JInteger(Signed(n, 4))
    case I64 => JLong(Signed(n, 8))
    case F4 => JFloat(n)
    case F8 => JDouble(n)
    case S => JString(av.value)
    case B => JBuffer(av.value)
  }

  lemma BigEndianReadsBack(n: nat, k: nat)
    requires n < Pow256(k)
    ensures Value(Reverse(BigEndian(n, k))) == n
  {
    ReverseTwice(LittleEndian(n, k));
    ValueOfLittleEndian(n, k);
  }

  /** What is set can be got back, except a Double or an object of no supported class. */
  lemma GetAfterSet(val: JavaValue)
    requires val.Exists()
    ensures SetValue(val).Valid()
    ensures GetValue(SetValue(val)) == val <==> !val.JDouble? && !val.JOther?
  {
    Powers();
    match val {
      case JByte(v) => IntegerKept(v, 1);
      case JShort(v) => IntegerKept(v, 2);
      case JInteger(v) => IntegerKept(v, 4);
      case JLong(v) => IntegerKept(v, 8);
      case JFloat(n) => BigEndianReadsBack(n, 4);
      case _ =>
    }
  }

  lemma IntegerKept(v: int, k: nat)
    requires InRange(v, k)
    ensures Signed(Value(Reverse(BigEndian(Unsigned(v, k), k))), k) == v
  {
    SignedOfUnsigned(v, k);
    BigEndianReadsBack(Unsigned(v, k), k);
  }

  lemma {:induction false} BigEndianDigits(n: nat, k: nat, i: nat)
    requires i < k
    ensures BigEndian(n, k)[i] == n / Pow256(k - 1 - i) % 256
    decreases k
  {
    var le := LittleEndian(n, k);
    LittleEndianDigit(n, k, k - 1 - i);
    assert BigEndian(n, k)[i] == le[k - 1 - i];
  }

  lemma {:induction false} LittleEndianDigit(n: nat, k: nat, i: nat)
    requires i < k
    ensures LittleEndian(n, k)[i] == n / Pow256(i) % 256
  {
    if i > 0 {
      LittleEndianDigit(n / 256, k - 1, i - 1);
      DividedTwice(n, Pow256(i - 1));
    }
  }

  lemma DividedTwice(n: nat, p: nat)
    requires p > 0
    ensures n / 256 / p == n / (256 * p)
  {
    var q, r := n / 256 / p, n / 256 % p;
    assert n / 256 == q * p + r;
    assert n == q * (256 * p) + (256 * r + n % 256);
    QuotientIs(n, 256 * p, q, 256 * r + n % 256);
  }

  /** What `setValue` stores, digit by digit, most significant byte first; a Double, like an object of
      an unknown class, is stored as the Integer 0. */
  lemma StoredBigEndian(val: JavaValue, i: nat)
    requires val.Exists() && i < |SetValue(val).value|
    ensures var av := SetValue(val);
      match val
      case JByte(v) => av.valueType == I8 && av.value == [v % 256]
      case JShort(v) => av.valueType == I16 && av.value[i] == Unsigned(v, 2) / Pow256(1 - i) % 256
      case JInteger(v) => av.valueType == I32 && av.value[i] == Unsigned(v, 4) / Pow256(3 - i) % 256
      case JLong(v) => av.valueType == I64 && av.value[i] == Unsigned(v, 8) / Pow256(7 - i) % 256
      case JFloat(n) => av.valueType == F4 && av.value[i] == n / Pow256(3 - i) % 256
      case JString(bs) => av == AttributeValue(S, bs)
      case JBuffer(bs) => av == AttributeValue(B, bs)
      case _ => av.valueType == I32 && av.value[i] == 0
  {
    hide BigEndian;
    Powers();
    match val {
      case JByte(v) =>
        BigEndianDigits(Unsigned(v, 1), 1, 0);
        assert SetValue(val).value == [SetValue(val).value[0]];
      case JShort(v) => BigEndianDigits(Unsigned(v, 2), 2, i);
      case JInteger(v) => BigEndianDigits(Unsigned(v, 4), 4, i);
      case JLong(v) => BigEndianDigits(Unsigned(v, 8), 8, i);
      case JFloat(n) => BigEndianDigits(n, 4, i);
      case JString(_) =>
      case JBuffer(_) =>
      case _ => BigEndianDigits(0, 4, i);
    }
  }

  // ----- The wire form -----

  /** A little-endian string without zeros at its high end, but at least one byte of it. */
  function Stripped(bs: seq<byte>): (r: seq<byte>)
    ensures |r| <= |bs| && (|bs| > 0 ==> |r| > 0)
  {
    if |bs| > 1 && bs[|bs| - 1] == 0 then Stripped(bs[..|bs| - 1]) else bs
  }

  /** The bytes a value contributes to a packet. */
  function WireBytes(av: AttributeValue): (bs: seq<byte>)
    ensures |bs| <= |av.value|
  {
    if av.valueType.IsInteger() then Stripped(Reverse(av.value)) else av.value
  }

  method OptimizeData(src: seq<byte>) returns (dst: seq<byte>)
    requires src != []
    ensures dst == Stripped(Reverse(src))
  {
    var pos := 0;
    assert src[0..] == src;
    while src[pos] == 0
      invariant 0 <= pos < |src|
      invariant Stripped(Reverse(src)) == Stripped(Reverse(src[pos..]))
      decreases |src| - pos
    {
      if pos + 1 >= |src| {
        break;
      }
      StripOne(src[pos..]);
      assert src[pos..][1..] == src[pos + 1..];
      pos := pos + 1;
    }
    dst := [];
    var i := |src| - 1;
    assert src[|src|..] == [];
    while i >= pos
      invariant pos - 1 <= i < |src|
      invariant dst == Reverse(src[i + 1..])
    {
      assert src[i..] == [src[i]] + src[i + 1..];
      ReverseFront(src[i], src[i + 1..]);
      dst := dst + [src[i]];
      i := i - 1;
    }
    NothingToStrip(src[pos..]);
  }

  lemma ReverseFront(b: byte, rest: seq<byte>)
    ensures Reverse([b] + rest) == Reverse(rest) + [b]
  {
    assert ([b] + rest)[1..] == rest;
  }

  lemma StripOne(s: seq<byte>)
    requires |s| > 1 && s[0] == 0
    ensures Stripped(Reverse(s)) == Stripped(Reverse(s[1..]))
  {
    assert Reverse(s)[..|s| - 1] == Reverse(s[1..]);
  }

  lemma NothingToStrip(s: seq<byte>)
    requires |s| == 1 || (|s| > 0 && s[0] != 0)
    ensures Stripped(Reverse(s)) == Reverse(s)
  {
  }

  lemma {:induction false} StrippedKeepsValue(bs: seq<byte>)
    ensures Value(Stripped(bs)) == Value(bs)
  {
    if |bs| > 1 && bs[|bs| - 1] == 0 {
      var init := bs[..|bs| - 1];
      StrippedKeepsValue(init);
      ValueOfConcat(init, [0]);
      assert bs == init + [0];
      assert Value([0]) == 0;
    }
  }

  lemma {:induction false} StrippedIsShortest(bs: seq<byte>, other: seq<byte>)
    requires other != [] && Value(other) == Value(bs)
    ensures |Stripped(bs)| <= |other|
  {
    hide Value;
    if |bs| > 1 {
      var init, last := bs[..|bs| - 1], bs[|bs| - 1];
      assert bs == init + [last];
      OneByteSpelt(last);
      ValueOfConcat(init, [last]);
      if last == 0 {
        StrippedIsShortest(init, other);
      } else if |other| < |bs| {
        ValueBound(other);
        Pow256Monotone(|other|, |init|);
        NotBelow(Pow256(|init|), last);
      }
    }
  }

  lemma NotBelow(p: nat, n: nat)
    requires n > 0
    ensures p <= p * n
  {
  }

  // ----- Reading a value back -----

  /** The Java cast to a k-byte integer. */
  function Narrowed(n: int, k: nat): int {
    Signed(n % Pow256(k), k)
  }

  /** It keeps the low bytes: the result is congruent and in range. */
  lemma NarrowedIsCast(n: int, k: nat)
    ensures InRange(Narrowed(n, k), k) && (n - Narrowed(n, k)) % Pow256(k) == 0
  {
    var p := Pow256(k);
    SignedInRange(n % p, k);
    assert n == n / p * p + n % p;
    var m := if 2 * (n % p) < p then n / p else n / p + 1;
    assert n - Narrowed(n, k) == m * p;
    MultipleRemainder(m, p);
  }

  lemma MultipleRemainder(m: int, p: nat)
    requires p > 0
    ensures (m * p) % p == 0
  {
    var q, r := (m * p) / p, (m * p) % p;
    assert m * p == q * p + r && (m - q) * p == r;
    if m > q {
      AtLeastTimes(m - q, 1, p);
    } else if m < q {
      AtLeastTimes(q - m, 1, p);
    }
  }

  /** What the decoder makes of the wire bytes of an integer. */
  function ReadInteger(t: ValueType, bs: seq<byte>): JavaValue
    requires t.IsInteger()
  {
    match t
    case I8 => JByte(Narrowed(IntOf(bs), 1))
    case I16 => JShort(Narrowed(IntOf(bs), 2))
    case I32 => JInteger(IntOf(bs))
    case I64 => JLong(LongOf(bs))
  }

  lemma SignedInRange(u: nat, k: nat)
    requires u < Pow256(k)
    ensures InRange(Signed(u, k), k) && Unsigned(Signed(u, k), k) == u
  {
  }

  lemma ResidueOf(n: int, u: nat, m: nat)
    requires m == 0x100 || m == 0x1_0000 || m == 0x1_0000_0000
    requires u < m && (n == u || n == u - 0x1_0000_0000)
    ensures n % m == u
  {
  }

  lemma NarrowedOfIntOf(bs: seq<byte>, k: nat)
    requires |bs| <= k && (k == 1 || k == 2 || k == 4)
    ensures Narrowed(IntOf(bs), k) == Signed(Value(bs), k)
  {
    hide OrWord;
    hide Value;
    hide Pow256;
    Powers();
    OrWordIsValue(bs, 4);
    ValueBound(bs);
    Pow256Monotone(|bs|, k);
    ResidueOf(IntOf(bs), Value(bs), Pow256(k));
  }

  lemma ReadIntegerExists(t: ValueType, bs: seq<byte>)
    requires t.IsInteger()
    ensures ReadInteger(t, bs).Exists()
  {
    Powers();
    OrWordBound(bs, 4);
    OrWordBound(bs, 8);
  }

  /** On up to Width bytes the decoder reads the two's complement number they spell. */
  lemma ReadIntegerIs(t: ValueType, bs: seq<byte>)
    requires t.IsInteger() && |bs| <= t.Width()
    ensures var v := Signed(Value(bs), t.Width());
      ReadInteger(t, bs) ==
        (match t case I8 => JByte(v) case I16 => JShort(v) case I32 => JInteger(v) case _ => JLong(v))
  {
    Powers();
    match t {
      case I8 => NarrowedOfIntOf(bs, 1);
      case I16 => NarrowedOfIntOf(bs, 2);
      case I32 => OrWordIsValue(bs, 4);
      case I64 => OrWordIsValue(bs, 8);
    }
  }

  /** Integer fidelity: storing, trimming, reversing, reading and narrowing returns the stored
      bytes. */
  lemma IntegerReadsBack(av: AttributeValue)
    requires av.Valid() && av.valueType.IsInteger()
    ensures ReadInteger(av.valueType, WireBytes(av)).Exists()
    ensures SetValue(ReadInteger(av.valueType, WireBytes(av))) == av
  {
    hide Value;
    hide Signed;
    hide Unsigned;
    hide Pow256;
    hide ReadInteger;
    hide LittleEndian;
    var t, bs, k := av.valueType, WireBytes(av), av.valueType.Width();
    var le := Reverse(av.value);
    ReadIntegerExists(t, bs);
    ReadIntegerIs(t, bs);
    StrippedKeepsValue(le);
    ValueBound(le);
    SignedInRange(Value(le), k);
    LittleEndianOfValue(le);
    ReverseTwice(av.value);
    assert BigEndian(Unsigned(Signed(Value(bs), k), k), k) == av.value;
  }

  /** For every Java integer of a supported class, the number comes back, and no shorter non-empty
      byte string would have brought it. */
  lemma IntegerFidelity(val: JavaValue, other: seq<byte>)
    requires val.Exists() && (val.JByte? || val.JShort? || val.JInteger? || val.JLong?)
    ensures var av := SetValue(val);
      && av.valueType.IsInteger()
      && ReadInteger(av.valueType, WireBytes(av)) == val
      && (other != [] && ReadInteger(av.valueType, other) == val ==> |WireBytes(av)| <= |other|)
  {
    var av := SetValue(val);
    var t, k := av.valueType, av.valueType.Width();
    GetAfterSet(val);
    IntegerReadsBack(av);
    var back := ReadInteger(t, WireBytes(av));
    GetAfterSet(back);
    if other != [] && ReadInteger(t, other) == val && |other| <= k {
      var le := Reverse(av.value);
      ReadIntegerIs(t, other);
      ReadIntegerIs(t, WireBytes(av));
      StrippedKeepsValue(le);
      ValueBound(le);
      ValueBound(other);
      Pow256Monotone(|other|, k);
      SignedInRange(Value(le), k);
      SignedInRange(Value(other), k);
      StrippedIsShortest(le, other);
    }
  }
}
