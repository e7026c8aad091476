/** The variable-width little-endian integers of the packet format. */
module PacketInts {
  import opened Bytes
  import opened Bits

  /** How many bytes the format spends on an int. */
  function ByteLen(v: int32): (n: nat)
    ensures n <= 4
  {
    if v < 0 then 4
    else if v >= 0x100_0000 then 4
    else if v >= 0x1_0000 then 3
    else if v >= 0x100 then 2
    else if v >= 1 then 1
    else 0
  }

  /** All four bytes of an int. */
  function IntBytes(v: int32): (bs: seq<byte>)
    ensures |bs| == 4
  {
    Powers();
    LittleEndian(Unsigned(v, 4), 4)
  }

  /** An int as the packet carries it. */
  function Packed(v: int32): (bs: seq<byte>)
    ensures |bs| == ByteLen(v)
  {
    IntBytes(v)[..ByteLen(v)]
  }

  /** Bytes or-ed into a register of `width` bytes; past that many, the shift wraps around. */
  function OrWord(bs: seq<byte>, width: nat): nat
    requires width > 0
  {
    if bs == [] then 0
    else BitOr(OrWord(bs[..|bs| - 1], width), bs[|bs| - 1] * Pow256((|bs| - 1) % width))
  }

  function IntOf(bs: seq<byte>): int32 {
    Powers();
    OrWordBound(bs, 4);
    Signed(OrWord(bs, 4), 4)
  }

  function LongOf(bs: seq<byte>): int {
    Signed(OrWord(bs, 8), 8)
  }

  /** `len` bytes at `offset`, or None when an index is out of bounds. */
  function Region(data: seq<byte>, offset: nat, len: int): Option<seq<byte>> {
    if len <= 0 then Some([])
    else if offset + len > |data| then None
    else Some(data[offset..offset + len])
  }

  // ----- The methods -----

  /** `v & mask` with mask = 0xFF000000 >> 8i clears the 8(3 - i) low bits of v. */
  method BytesOf(v: int32) returns (n: nat)
    ensures n == ByteLen(v)
  {
    Powers();
    if v < 0 {
      return 4;
    }
    var i := 0;
    while i < 4
      invariant 0 <= i <= 4
      invariant v < Pow256(4 - i)
    {
      var b := v - v % Pow256(3 - i);
      if b != 0 {
        return 4 - i;
      }
      i := i + 1;
    }
    return 0;
  }

  method ArrayOf(v: int32) returns (result: array<byte>)
    ensures fresh(result) && result[..] == IntBytes(v)
  {
    result := new byte[4];
    result[3] := v / 0x100_0000 % 256;
    result[2] := v / 0x1_0000 % 256;
    result[1] := v / 0x100 % 256;
    result[0] := v % 256;
    IntBytesShifted(v);
  }

  method GetInt(data: array<byte>, offset: nat, len: int) returns (res: Option<int32>)
    ensures res == match Region(data[..], offset, len) case None => None case Some(bs) => Some(IntOf(bs))
  {
    var word := GetWord(data, offset, len, 4);
    Powers();
    match word {
      case None =>
        return None;
      case Some(w) =>
        OrWordBound(Region(data[..], offset, len).value, 4);
        return Some(Signed(w, 4));
    }
  }

  method GetLong(data: array<byte>, offset: nat, len: int) returns (res: Option<int>)
    ensures res == match Region(data[..], offset, len) case None => None case Some(bs) => Some(LongOf(bs))
  {
    var word := GetWord(data, offset, len, 8);
    match word {
      case None =>
        return None;
      case Some(w) =>
        return Some(Signed(w, 8));
    }
  }

  /** The loop `getInt` and `getLong` share: `res |= (0xff & data[offset + i]) << i * 8`, on the
      unsigned residue of `res`. */
  method GetWord(data: array<byte>, offset: nat, len: int, width: nat) returns (res: Option<nat>)
    requires width > 0
    ensures res == match Region(data[..], offset, len) case None => None case Some(bs) => Some(OrWord(bs, width))
  {
    var word := 0;
    var i := 0;
    while i < len
      invariant 0 <= i && (i <= len || i == 0)
      invariant i > 0 ==> offset + i <= data.Length
      invariant i == 0 ==> word == 0
      invariant i > 0 ==> word == OrWord(data[offset..offset + i], width)
    {
      if offset + i >= data.Length {
        return None;
      }
      assert data[offset..offset + i + 1][..i] == data[offset..offset + i];
      word := BitOr(word, data[offset + i] * Pow256(i % width));
      i := i + 1;
    }
    return Some(word);
  }

  // ----- What the encodings mean -----

  lemma NthByte(n: nat, a: nat, b: nat, c: nat)
    requires a == n / 256 && b == a / 256 && c == b / 256
    ensures a == n / 0x100 && b == n / 0x1_0000 && c == n / 0x100_0000
    ensures LittleEndian(n, 4) == [n % 256, a % 256, b % 256, c % 256]
  {
    assert LittleEndian(n, 4) == [n % 256] + LittleEndian(a, 3);
    assert LittleEndian(a, 3) == [a % 256] + LittleEndian(b, 2);
    assert LittleEndian(b, 2) == [b % 256] + LittleEndian(c, 1);
    assert LittleEndian(c, 1) == [c % 256] + LittleEndian(c / 256, 0);
  }

  /** Masking and shifting a negative int yields the bytes of its unsigned residue. */
  lemma IntBytesShifted(v: int32)
    ensures IntBytes(v) == [v % 256, v / 0x100 % 256, v / 0x1_0000 % 256, v / 0x100_0000 % 256]
  {
    Powers();
    var u := Unsigned(v, 4);
    NthByte(u, u / 256, u / 256 / 256, u / 256 / 256 / 256);
    ResidueByte(v, u, 0x100, 0x100_0000);
    ResidueByte(v, u, 0x1_0000, 0x1_0000);
    ResidueByte(v, u, 0x100_0000, 0x100);
    ResidueByte(v, u, 1, 0x1_0000_0000);
  }

  lemma ResidueByte(v: int, u: int, d: nat, e: nat)
    requires u == v || u == v + 0x1_0000_0000
    requires (d == 1 && e == 0x1_0000_0000) || (d == 0x100 && e == 0x100_0000)
          || (d == 0x1_0000 && e == 0x1_0000) || (d == 0x100_0000 && e == 0x100)
    ensures u / d % 256 == v / d % 256
  {
    if u != v {
      assert u / d == v / d + e;
    }
  }

  lemma {:induction false} OrWordBound(bs: seq<byte>, width: nat)
    requires width > 0
    ensures OrWord(bs, width) < Pow256(width)
  {
    if bs != [] {
      var k := (|bs| - 1) % width;
      OrWordBound(bs[..|bs| - 1], width);
      Pow256Monotone(k + 1, width);
      assert bs[|bs| - 1] * Pow256(k) < 256 * Pow256(k);
      PowersAgree(width);
      OrBound(OrWord(bs[..|bs| - 1], width), bs[|bs| - 1] * Pow256(k), 8 * width);
    }
  }

  lemma {:induction false} Pow256Monotone(a: nat, b: nat)
    requires a <= b
    ensures Pow256(a) <= Pow256(b)
    decreases b - a
  {
    if a < b {
      Pow256Monotone(a + 1, b);
    }
  }

  /** Up to the width of the register, or-ing the bytes in spells their number. */
  lemma {:induction false} OrWordIsValue(bs: seq<byte>, width: nat)
    requires |bs| <= width && width > 0
    ensures OrWord(bs, width) == Value(bs)
  {
    hide BitOr;
    hide Value;
    hide Pow256;
    hide Pow2;
    if bs == [] {
      NothingSpelt();
    } else {
      var n := |bs| - 1;
      var init, last, p := bs[..n], bs[n], Pow256(n);
      OrWordIsValue(init, width);
      ValueBound(init);
      PowersAgree(n);
      OrDisjoint(Value(init), 8 * n, last);
      SmallRemainder(n, width);
      assert bs == init + [last] && last * p == p * last;
      ValueOfConcat(init, [last]);
      OneByteSpelt(last);
    }
  }

  lemma SmallRemainder(n: nat, w: nat)
    requires n < w
    ensures n % w == n
  {
  }

  lemma NothingSpelt()
    ensures Value([]) == 0
  {
  }

  lemma OneByteSpelt(b: byte)
    ensures Value([b]) == b
  {
    assert [b][1..] == [];
  }

  lemma {:induction false} LittleEndianPrefix(n: nat, k: nat, m: nat)
    requires k <= m
    ensures LittleEndian(n, m)[..k] == LittleEndian(n, k)
  {
    if k > 0 {
      LittleEndianPrefix(n / 256, k - 1, m - 1);
      assert LittleEndian(n, m)[1..] == LittleEndian(n / 256, m - 1);
    }
  }

  lemma ByteLenFits(v: int32)
    requires v >= 0
    ensures v < Pow256(ByteLen(v))
  {
    Powers();
  }

  /** Past the width the shift starts over: bytes are or-ed into those that are there. */
  lemma LongShiftsWrap(bs: seq<byte>, b: byte, c: byte)
    requires |bs| == 4 && c == BitOr(bs[0], b)
    ensures IntOf(bs + [b]) == IntOf([c] + bs[1..])
  {
    hide BitOr;
    Powers();
    var low, rest := bs[0], bs[1..];
    assert (bs + [b])[..4] == bs && bs == [low] + rest && ([c] + rest)[0] == c;
    OrWordIsValue(bs, 4);
    OrWordIsValue([c] + rest, 4);
    ValueOfConcat([low], rest);
    ValueOfConcat([c], rest);
    OneByteSpelt(low);
    OneByteSpelt(c);
    OrIntoLow(low, Value(rest), b);
  }

  lemma OrIntoLow(low: byte, rest: nat, b: byte)
    ensures BitOr(low + 256 * rest, b) == BitOr(low, b) + 256 * rest
  {
    hide BitOr;
    PowersAgree(1);
    Powers();
    OrLow(low, rest, b, 8);
  }

  lemma {:induction false} OrLow(low: nat, rest: nat, b: nat, k: nat)
    requires low < Pow2(k) && b < Pow2(k)
    ensures BitOr(low + Pow2(k) * rest, b) == BitOr(low, b) + Pow2(k) * rest
    decreases k
  {
    hide BitOr;
    if k > 0 {
      var h := Pow2(k - 1) * rest;
      assert Pow2(k) * rest == 2 * h;
      OrLow(low / 2, rest, b / 2, k - 1);
      OrHalves(low + 2 * h, b);
      OrHalves(low, b);
      assert (low + 2 * h) / 2 == low / 2 + h;
    } else {
      OrZero(rest);
      OrZero(0);
    }
  }

  lemma OrHalves(a: nat, b: nat)
    ensures BitOr(a, b) == 2 * BitOr(a / 2, b / 2) + (if a % 2 == 1 || b % 2 == 1 then 1 else 0)
  {
  }

  /** `getInt` over the first `bytes(v)` bytes of `array(v)` is v, for every int. */
  lemma PackedReadsBack(v: int32)
    ensures IntOf(Packed(v)) == v
  {
    Powers();
    var u, n := Unsigned(v, 4), ByteLen(v);
    OrWordIsValue(Packed(v), 4);
    LittleEndianPrefix(u, n, 4);
    if v >= 0 {
      ByteLenFits(v);
    }
    ValueOfLittleEndian(u, n);
  }

  /** No shorter byte string reads back as v. */
  lemma PackedIsShortest(v: int32, bs: seq<byte>)
    requires IntOf(bs) == v
    ensures |bs| >= |Packed(v)|
  {
    Powers();
    if |bs| < 4 {
      OrWordIsValue(bs, 4);
      ValueBound(bs);
      Pow256Monotone(|bs|, 3);
      assert 0 <= v < Pow256(|bs|);
    }
  }
}
