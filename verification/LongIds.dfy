/** Packets whose id takes four bytes. The first byte has two bits for the length of the id; the third
    bit of that length falls on the lowest one of the length of the size field. */
module LongIds {
  import opened Bytes
  import opened Bits
  import opened PacketInts
  import opened CrcRegister
  import opened CrcTable
  import opened Crc16
  import opened PacketFormat
  import opened RoundTrip

  predicate IsLong(pid: int32) {
    !(0 <= pid < 0x100_0000)
  }

  /** So that two lengths of the size field share a first byte, 0 and 1, and also 2 and 3. */
  lemma FirstByteOfLongId(k: nat)
    requires k <= 4
    ensures BitOr(4, 4 * k) == 4 * (k + (if k % 2 == 0 then 1 else 0))
  {
    assert BitOr(4, 4 * k) == 2 * BitOr(2, 2 * k);
    assert BitOr(2, 2 * k) == 2 * BitOr(1, k);
  }

  lemma SameFirstByte(k: nat, n: nat)
    requires k <= 4 && n <= 4 && FirstByte(4, k) == FirstByte(4, n)
    ensures k == n || (k < 2 && n < 2) || (2 <= k < 4 && 2 <= n < 4)
  {
    hide BitOr;
    FirstByteOfLongId(k);
    FirstByteOfLongId(n);
  }

  lemma LongerFields(m: int32, n: int32)
    requires 0 <= m <= n
    ensures ByteLen(m) <= ByteLen(n)
  {
  }

  lemma LongerData(m: int32, n: int32)
    requires m >= 0 && n >= 0 && m + ByteLen(m) <= n + ByteLen(n)
    ensures m <= n
  {
    hide ByteLen;
    if n <= m {
      LongerFields(n, m);
    }
  }

  lemma AtPrefix(packet: seq<byte>, other: seq<byte>)
    requires packet <= other
    ensures At(other, 0, packet) && At(other, 0, other)
  {
    assert other[0..|packet|] == packet && other[0..|other|] == other;
  }

  lemma SameInts(data: seq<byte>, pos: nat, n: int32, m: int32)
    requires ByteLen(n) == ByteLen(m) && At(data, pos, Packed(n)) && At(data, pos, Packed(m))
    ensures n == m
  {
    PackedReadsBack(n);
    PackedReadsBack(m);
  }

  /** A packet with a four-byte id is a proper prefix of another one only if their size fields take 0
      and 1 bytes, or 2 and 3. */
  lemma PrefixesOfLongIds(pid: int32, command: Command, d: seq<byte>, pid': int32, command': Command, d': seq<byte>)
    requires |d| <= MAX_INT && |d'| <= MAX_INT && IsLong(pid) && IsLong(pid')
    requires Framed(pid, command, d) <= Framed(pid', command', d')
    ensures || Framed(pid, command, d) == Framed(pid', command', d')
            || (ByteLen(|d|) == 0 && ByteLen(|d'|) == 1)
            || (ByteLen(|d|) == 2 && ByteLen(|d'|) == 3)
  {
    hide Framed;
    hide FirstByte;
    hide Packed;
    hide At;
    var packet, other := Framed(pid, command, d), Framed(pid', command', d');
    assert ByteLen(pid) == 4 && ByteLen(pid') == 4;
    AtPrefix(packet, other);
    FramedLayout(other, pid, command, d);
    FramedLayout(other, pid', command', d');
    SameFirstByte(ByteLen(|d|), ByteLen(|d'|));
    if ByteLen(|d|) == ByteLen(|d'|) {
      AtSplit(other, PACKET_HEADER_SIZE, Packed(pid), Packed(|d|));
      AtSplit(other, PACKET_HEADER_SIZE, Packed(pid'), Packed(|d'|));
      SameInts(other, PACKET_HEADER_SIZE + 4, |d|, |d'|);
      assert |packet| == |other| && packet == other;
    } else {
      LongerData(|d|, |d'|);
      LongerFields(|d|, |d'|);
    }
  }

  /** A packet without data is a prefix of one with up to 255 bytes of it exactly if their checksum is
      that of nothing. */
  lemma EmptyIsPrefix(pid: int32, command: Command, d: seq<byte>)
    requires IsLong(pid) && 1 <= |d| <= 255
    ensures Framed(pid, command, []) < Framed(pid, command, d) <==> Checksum(d) == PRESET
  {
    hide Checksum;
    hide LittleEndian;
    hide BitOr;
    NothingChecked();
    FirstByteOfLongId(0);
    FirstByteOfLongId(1);
    var packet, other := Framed(pid, command, []), Framed(pid, command, d);
    var front, sum, sum' := [FirstByte(4, 0)], LittleEndian(PRESET, 2), LittleEndian(Checksum(d), 2);
    var rest := [command] + Packed(pid);
    assert Covered(d) == d && Covered([]) == [];
    assert packet == front + sum + rest;
    assert other == front + sum' + rest + (Packed(|d|) + d);
    assert packet[1..3] == sum && other[1..3] == sum';
    Powers();
    ValueOfLittleEndian(PRESET, 2);
    ValueOfLittleEndian(Checksum(d), 2);
    if sum == sum' {
      assert other[..|packet|] == packet;
    }
    if packet <= other {
      assert other[1..3] == other[..|packet|][1..3];
    }
  }

  // ----- An example -----

  lemma FourSteps(r: word16, bits: seq<bool>, k: nat)
    requires k + 4 <= |bits|
    ensures Register(r, bits[k..]) == Register(
      StepBit(StepBit(StepBit(StepBit(r, bits[k]), bits[k + 1]), bits[k + 2]), bits[k + 3]), bits[k + 4..])
  {
    hide StepBit;
    assert bits[k..][1..] == bits[k + 1..] && bits[k + 1..][1..] == bits[k + 2..];
    assert bits[k + 2..][1..] == bits[k + 3..] && bits[k + 3..][1..] == bits[k + 4..];
    var s1 := StepBit(r, bits[k]);
    var s2 := StepBit(s1, bits[k + 1]);
    var s3 := StepBit(s2, bits[k + 2]);
    assert Register(r, bits[k..]) == Register(s1, bits[k + 1..]);
    assert Register(s1, bits[k + 1..]) == Register(s2, bits[k + 2..]);
    assert Register(s2, bits[k + 2..]) == Register(s3, bits[k + 3..]);
  }

  lemma EightSteps(r: word16, bits: seq<bool>)
    requires |bits| == 8
    ensures Register(r, bits) == StepBit(StepBit(StepBit(StepBit(StepBit(StepBit(StepBit(StepBit(r,
      bits[0]), bits[1]), bits[2]), bits[3]), bits[4]), bits[5]), bits[6]), bits[7])
  {
    hide StepBit;
    FourSteps(r, bits, 0);
    FourSteps(StepBit(StepBit(StepBit(StepBit(r, bits[0]), bits[1]), bits[2]), bits[3]), bits, 4);
    assert bits[0..] == bits && bits[8..] == [];
  }

  lemma Byte2()
    ensures Register(0xFFFF, ByteBits(2)) == 0xC1B2
  {
    hide StepBit;
    Clock(0xFFFF, 0xEFDF, 0xFFFE);
    Clock(0xEFDF, 0xCF9F, 0xDFBE);
    Clock(0xCF9F, 0x8F1F, 0x9F3E);
    Clock(0x8F1F, 0x0E1F, 0x1E3E);
    Clock(0x0E1F, 0x1C3E, 0x0C1F);
    Clock(0x1C3E, 0x387C, 0x285D);
    Clock(0x387C, 0x70F8, 0x60D9);
    Clock(0x60D9, 0xC1B2, 0xD193);
    EightSteps(0xFFFF, ByteBits(2));
  }

  lemma Byte69()
    ensures Register(0xC1B2, ByteBits(69)) == 0x630C
  {
    hide StepBit;
    Clock(0xC1B2, 0x9345, 0x8364);
    Clock(0x9345, 0x36AB, 0x268A);
    Clock(0x268A, 0x4D14, 0x5D35);
    Clock(0x4D14, 0x9A28, 0x8A09);
    Clock(0x9A28, 0x2471, 0x3450);
    Clock(0x2471, 0x48E2, 0x58C3);
    Clock(0x58C3, 0xB186, 0xA1A7);
    Clock(0xB186, 0x732D, 0x630C);
    EightSteps(0xC1B2, ByteBits(69));
  }

  lemma Byte125()
    ensures Register(0x630C, ByteBits(125)) == 0xFFFF
  {
    hide StepBit;
    Clock(0x630C, 0xC618, 0xD639);
    Clock(0xC618, 0x9C11, 0x8C30);
    Clock(0x8C30, 0x0841, 0x1860);
    Clock(0x1860, 0x30C0, 0x20E1);
    Clock(0x20E1, 0x41C2, 0x51E3);
    Clock(0x51E3, 0xA3C6, 0xB3E7);
    Clock(0xB3E7, 0x77EF, 0x67CE);
    Clock(0x77EF, 0xEFDE, 0xFFFF);
    EightSteps(0x630C, ByteBits(125));
  }

  /** The data section of a single entity whose checksum is that of nothing. */
  lemma ChecksumOfEntity()
    ensures Checksum([2, 69, 125]) == PRESET
  {
    hide Register;
    hide ByteBits;
    Byte2();
    Byte69();
    Byte125();
    NothingChecked();
    ChecksumOfAppended([], 2);
    ChecksumOfAppended([2], 69);
    ChecksumOfAppended([2, 69], 125);
    assert [] + [2] == [2] && [2] + [69] == [2, 69] && [2, 69] + [125] == [2, 69, 125];
  }

  /** With any four-byte id and any command, the packet without entities is a proper prefix of the one
      with the entity of number 32069 and type 0: packets with such ids are not prefix-free. */
  lemma LongIdsAreNotPrefixFree(pid: int32, command: Command)
    requires IsLong(pid)
    ensures var es := [EntityL(32069, 0, [])];
      && ValidEntities([]) && ValidEntities(es) && Fits(pid, []) && Fits(pid, es)
      && Packet(pid, command, []) < Packet(pid, command, es)
  {
    hide Framed;
    hide Checksum;
    var es := [EntityL(32069, 0, [])];
    hide EntityBytes;
    EntitySection(es[0]);
    assert es[1..] == [] && DataSection([]) == [];
    assert DataSection(es) == EntityBytes(es[0]) + DataSection(es[1..]) == [2, 69, 125];
    ChecksumOfEntity();
    EmptyIsPrefix(pid, command, [2, 69, 125]);
  }

  lemma EntitySection(e: EntityL)
    requires e == EntityL(32069, 0, [])
    ensures e.Valid() && EntityBytes(e) == [2, 69, 125]
  {
    hide BitOr;
    hide LittleEndian;
    IntBytesShifted(32069);
    assert Packed(32069) == [69, 125] && Packed(0) == [];
  }
}
