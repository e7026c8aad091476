/** The packet format spelt out byte by byte, and what the decoder makes of bytes that are not in it. */
module PacketBytes {
  import opened Bytes
  import opened PacketInts
  import opened AttributeValues
  import opened AttributeMaps
  import opened CrcRegister
  import opened Crc16
  import opened PacketFormat
  import opened RecordLoop
  import opened RoundTrip

  // ----- What is written -----

  /** The byte behind number and type of an attribute is the number of its value's type. */
  lemma TypeByte(a: Attribute)
    requires a.value.Valid()
    ensures var at := 1 + ByteLen(a.num) + ByteLen(a.kind);
      at < |AttributeBytes(a)| && AttributeBytes(a)[at] == a.value.valueType.Ordinal()
  {
    hide Packed;
    hide RecordHeader;
    hide LengthField;
    hide WireBytes;
    hide ByteLen;
    var wire := WireBytes(a.value);
    var header: byte := RecordHeader(ByteLen(a.num), ByteLen(a.kind), true, LengthLen(|wire|) == 1);
    var head := [header] + (Packed(a.num) + Packed(a.kind));
    var rest := [a.value.valueType.Ordinal()] + (LengthField(|wire|) + wire);
    assert AttributeBytes(a) == head + rest;
    assert (head + rest)[|head|] == rest[0];
  }

  lemma OneByteInts(v: int32)
    requires 0 < v < 256
    ensures Packed(v) == [v]
  {
    IntBytesShifted(v);
  }

  /** The short 5 as attribute 1 of type 1. */
  lemma ShortAttribute(a: Attribute)
    requires a == Attribute(1, 1, AttributeValue(I16, [0, 5]))
    ensures a.value.Valid() && AttributeBytes(a) == [0xC9, 1, 1, 1, 1, 5]
  {
    OneByteInts(1);
    var r := Reverse(a.value.value);
    assert r == [r[0], r[1]] == [5, 0];
    assert r[..1] == [5];
    assert WireBytes(a.value) == [5];
    IntBytesShifted(1);
  }

  /** A value of two to the eighth bytes and more has the extended form of the length. */
  lemma LongAttribute(value: seq<byte>)
    requires 256 <= |value| < 0x1_0000
    ensures AttributeBytes(Attribute(0, 0, AttributeValue(B, value)))
         == [0x40, 7, 2, |value| % 256, |value| / 256] + value
  {
    var n: int32 := |value|;
    IntBytesShifted(n);
    assert Packed(0) == [];
    assert Packed(n) == [n % 256, n / 256];
    assert LengthField(n) == [2] + Packed(n);
    assert AttributeBytes(Attribute(0, 0, AttributeValue(B, value)))
        == [0x40] + ([] + ([] + ([7] + (([2] + [n % 256, n / 256]) + value))));
  }

  /** The data section of an entity of number 258 and type 0 with that short. */
  lemma ShortSection(es: seq<EntityL>)
    requires es == [EntityL(258, 0, [Attribute(1, 1, AttributeValue(I16, [0, 5]))])]
    ensures ValidEntities(es) && DataSection(es) == [0x02, 2, 1, 0xC9, 1, 1, 1, 1, 5]
  {
    hide AttributeBytes;
    hide RecordHeader;
    var e := es[0];
    ShortAttribute(e.attributes[0]);
    IntBytesShifted(258);
    assert Packed(258) == [2, 1] && Packed(0) == [];
    var header := RecordHeader(2, 0, false, false);
    assert header == 2;
    assert EntityHead(e) == [header] + (Packed(258) + Packed(0)) == [2, 2, 1];
    assert e.attributes[1..] == [] && AttributesBytes([]) == [];
    assert AttributesBytes(e.attributes) == AttributeBytes(e.attributes[0]) + AttributesBytes(e.attributes[1..]);
    assert es[1..] == [] && DataSection([]) == [];
    assert DataSection(es) == EntityBytes(e) + DataSection(es[1..]);
  }

  /** The packet around it, with id 1 and the command of number 2: lengths, checksum, low byte first,
      command, id, size, data. */
  lemma ShortPacket(es: seq<EntityL>)
    requires es == [EntityL(258, 0, [Attribute(1, 1, AttributeValue(I16, [0, 5]))])]
    ensures ValidEntities(es) && Fits(1, es)
    ensures var d: seq<byte> := [0x02, 2, 1, 0xC9, 1, 1, 1, 1, 5];
      Packet(1, 2, es) == [0x05, Checksum(d) % 256, Checksum(d) / 256, 2, 1, 9] + d
  {
    hide Checksum;
    hide DataSection;
    ShortSection(es);
    var d: seq<byte> := [0x02, 2, 1, 0xC9, 1, 1, 1, 1, 5];
    hide FirstByte;
    OneByteInts(1);
    OneByteInts(9);
    var first := FirstByte(1, 1);
    assert first == 5;
    TwoDigits(Checksum(d));
    assert Covered(d) == d;
    assert Framed(1, 2, d)
        == [first] + (LittleEndian(Checksum(d), 2) + ([2] + (Packed(1) + (Packed(9) + d))));
  }

  lemma TwoDigits(n: word16)
    ensures LittleEndian(n, 2) == [n % 256, n / 256]
  {
    assert LittleEndian(n, 2) == [n % 256] + LittleEndian(n / 256, 1);
    assert LittleEndian(n / 256, 1) == [n / 256 % 256] + LittleEndian(n / 256 / 256, 0);
  }

  // ----- What is refused -----

  /** The last of the eleven commands is still decoded. */
  lemma LastCommand(pid: int32)
    requires 0 <= pid < 0x100_0000
    ensures Decode(Packet(pid, 10, []), |Packet(pid, 10, [])|) == Done(Task(pid, 10, []))
  {
    hide Decode;
    hide Framed;
    var packet := Packet(pid, 10, []);
    DecodeOfPacket(pid, 10, [], [], |packet|);
    assert packet + [] == packet;
  }

  /** A buffer without a whole fixed header, or with an unknown command. */
  lemma NoHeader(data: seq<byte>, limit: nat)
    requires limit <= |data| && (limit < 4 || data[3] > 10)
    ensures Decode(data, limit) == Thrown(OutOfBounds)
  {
  }

  /** A packet is refused for its checksum exactly if header and preamble can be read and the checksum
      of what the size field announces, of at most 65535 bytes, can be computed and is another. */
  lemma RefusedForChecksum(data: seq<byte>, limit: nat)
    requires limit <= |data|
    ensures Decode(data, limit) == Thrown(BadChecksum) <==>
      && 4 <= limit && data[3] <= 10 && ReadPreamble(data).Some?
      && var p := ReadPreamble(data).value;
        var sum := ChecksumOfRange(data, limit, p.start, if p.ds > 65535 then 65535 else p.ds);
        sum.Some? && sum.value != Value(data[1..3])
  {
    hide ReadPreamble;
    hide ChecksumOfRange;
    hide Value;
    hide Wrap32;
    if 4 <= limit && data[3] <= 10 && ReadPreamble(data).Some? {
      var p := ReadPreamble(data).value;
      NoOtherChecksum(data, limit, p.start, Wrap32(p.start + p.ds), [], EnoughTurns(limit));
    }
  }

  lemma {:induction false} NoOtherChecksum(data: seq<byte>, limit: nat, pos: int, size: int32, entities: seq<Entity>,
                                           turns: nat)
    requires limit <= |data|
    ensures DecodeTurns(data, limit, pos, size, entities, turns) != Thrown(BadChecksum)
    decreases turns
  {
    hide PutLast;
    hide ReadRecord;
    if Wrap32(pos + EAV_HEADER_SIZE) <= size && turns > 0 {
      RecordFaults(data, limit, pos, entities != []);
      match ReadRecord(data, limit, pos, entities != []) {
        case EntityRecord(num, kind, next) =>
          NoOtherChecksum(data, limit, next, size, entities + [Entity(num, kind, [])], turns - 1);
        case AttributeRecord(key, value, next) =>
          NoOtherChecksum(data, limit, next, size, PutLast(entities, key, value), turns - 1);
        case _ =>
      }
    }
  }

  lemma RecordFaults(data: seq<byte>, limit: nat, pos: int, started: bool)
    requires limit <= |data|
    ensures ReadRecord(data, limit, pos, started) != Fault(BadChecksum)
  {
    hide SetValue;
    hide IntOf;
    hide LongOf;
    hide Value;
    hide Wrap32;
  }

  // ----- Records that end the loop -----

  /** A record whose number and type do not fit the buffer ends the loop. */
  lemma TruncatedHead(data: seq<byte>, limit: nat, pos: nat, started: bool)
    requires pos < limit <= |data| && limit < pos + 1 + data[pos] % 8 + data[pos] / 8 % 8 <= MAX_INT
    ensures ReadRecord(data, limit, pos, started) == Stop
  {
  }

  /** So does an attribute before the first entity: the packet decodes to no entities at all. */
  lemma StrayAttribute(pid: int32, command: Command, a: Attribute, more: seq<byte>)
    requires a.value.Valid() && 0 <= pid < 0x100_0000
    requires |AttributeBytes(a)| + |more| <= MAX_INT && PacketSize(pid, |AttributeBytes(a)| + |more|) < MAX_INT
    ensures var packet := Framed(pid, command, AttributeBytes(a) + more);
      Decode(packet, |packet|) == Done(Task(pid, command, []))
  {
    hide Decode;
    hide Framed;
    hide ReadRecord;
    hide AttributeBytes;
    hide Wrap32;
    hide At;
    var d := AttributeBytes(a) + more;
    var packet := Framed(pid, command, d);
    var start := PACKET_HEADER_SIZE + ByteLen(pid) + ByteLen(|d|);
    AtFront(packet, []);
    assert packet + [] == packet;
    FramedLayout(packet, pid, command, d);
    DecodeOfFramed(packet, |packet|, pid, command, d);
    AtSplit(packet, start, AttributeBytes(a), more);
    AttributeIsStray(packet, |packet|, start, a);
  }

  lemma AttributeIsStray(data: seq<byte>, limit: nat, pos: nat, a: Attribute)
    requires a.value.Valid() && limit <= |data| && limit <= MAX_INT && At(data, pos, AttributeBytes(a))
    requires pos + |AttributeBytes(a)| <= limit
    ensures ReadRecord(data, limit, pos, false) == Stop
  {
    hide ReadAttribute;
    hide ReadHead;
    hide WireBytes;
    hide LengthField;
    hide Packed;
    hide RecordHeader;
    hide At;
    var wire := WireBytes(a.value);
    var one := LengthLen(|wire|) == 1;
    var flags := RecordHeader(ByteLen(a.num), ByteLen(a.kind), true, one);
    var head := [flags] + (Packed(a.num) + Packed(a.kind));
    var rest := [a.value.valueType.Ordinal()] + (LengthField(|wire|) + wire);
    assert AttributeBytes(a) == head + rest;
    AtSplit(data, pos, head, rest);
    HeaderFields(flags, ByteLen(a.num), ByteLen(a.kind), 1, if one then 1 else 0);
    ReadHeadBack(data, limit, pos, flags, a.num, a.kind, pos + |head|);
  }

  /** An attribute that ends with its header ends the loop; one with an unknown type throws. */
  lemma UnknownType(data: seq<byte>, limit: nat, pos: nat, oneByte: bool, key: DualKey)
    requires limit <= |data| && pos + 2 <= MAX_INT
    ensures pos + 2 > limit && pos <= limit ==> ReadAttribute(data, limit, pos, oneByte, key) == Stop
    ensures pos + 2 <= limit && data[pos] > 7 ==> ReadAttribute(data, limit, pos, oneByte, key) == Fault(BadValueType)
  {
    hide ReadSized;
    hide IntOf;
  }

  /** A string or buffer of negative length throws. */
  lemma NegativeLengths(data: seq<byte>, limit: nat, pos: nat, len: int32, key: DualKey)
    requires limit <= |data| && limit <= MAX_INT && pos <= limit && len < 0
    ensures ReadSized(data, limit, pos, len, S, key) == Fault(OutOfBounds)
    ensures ReadSized(data, limit, pos, len, B, key) == Fault(NegativeLength)
  {
  }

  /** A float takes its bytes from where it stands, whatever its length says. */
  lemma FloatsIgnoreLength(data: seq<byte>, limit: nat, pos: nat, len: int32, key: DualKey)
    requires limit <= |data| && 0 <= len && pos + len <= limit && limit <= MAX_INT
    ensures pos + 4 > limit ==> ReadSized(data, limit, pos, len, F4, key) == Fault(OutOfBounds)
    ensures pos + 8 > limit ==> ReadSized(data, limit, pos, len, F8, key) == Fault(OutOfBounds)
    ensures pos + 4 <= limit ==>
      ReadSized(data, limit, pos, len, F4, key)
        == AttributeRecord(key, AttributeValue(F4, Reverse(data[pos..pos + 4])), pos + len)
    ensures pos + 8 <= limit ==>
      ReadSized(data, limit, pos, len, F8, key) == AttributeRecord(key, AttributeValue(I32, [0, 0, 0, 0]), pos + len)
  {
    if pos + 4 <= limit {
      ValueBound(data[pos..pos + 4]);
      LittleEndianOfValue(data[pos..pos + 4]);
    }
    if pos + 8 <= limit {
      ValueBound(data[pos..pos + 8]);
      ZeroStored(SetValue(JDouble(Value(data[pos..pos + 8]))));
    }
  }

  lemma ZeroStored(av: AttributeValue)
    requires av == AttributeValue(I32, BigEndian(0, 4))
    ensures av.value == [0, 0, 0, 0]
  {
    Powers();
    forall i | 0 <= i < 4
      ensures av.value[i] == 0
    {
      BigEndianDigits(0, 4, i);
    }
  }

  /** A packet that announces a negative size, and the checksum of nothing, has no entities. */
  lemma NegativeSize(data: seq<byte>, limit: nat)
    requires 4 <= limit <= |data| && data[3] <= 10 && ReadPreamble(data).Some?
    requires var p := ReadPreamble(data).value; p.ds < 0 && p.start <= limit
    requires Value(data[1..3]) == 0xFFFF
    ensures Decode(data, limit) == Done(Task(ReadPreamble(data).value.pid, data[3], []))
  {
    hide ReadPreamble;
    hide Value;
    var p := ReadPreamble(data).value;
    StartIsSmall(data);
    DecodeEnds(data, limit, p.start, Wrap32(p.start + p.ds), []);
  }

  lemma StartIsSmall(data: seq<byte>)
    requires data != [] && ReadPreamble(data).Some?
    ensures 4 <= ReadPreamble(data).value.start <= 14
  {
    hide IntOf;
  }
}
