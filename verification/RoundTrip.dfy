/** Decoding what was encoded. */
module RoundTrip {
  import opened Bytes
  import opened PacketInts
  import opened AttributeValues
  import opened AttributeMaps
  import opened CrcRegister
  import opened Crc16
  import opened PacketFormat
  import opened RecordLoop

  /** The bytes `bs` stand at `pos`. */
  ghost predicate At(data: seq<byte>, pos: nat, bs: seq<byte>) {
    pos + |bs| <= |data| && data[pos..pos + |bs|] == bs
  }

  lemma AtSplit(data: seq<byte>, pos: nat, a: seq<byte>, b: seq<byte>)
    requires At(data, pos, a + b)
    ensures At(data, pos, a) && At(data, pos + |a|, b)
  {
    assert data[pos..pos + |a|] == (a + b)[..|a|];
    assert data[pos + |a|..pos + |a| + |b|] == (a + b)[|a|..];
  }

  lemma AtByte(data: seq<byte>, pos: nat, b: byte)
    requires At(data, pos, [b])
    ensures pos < |data| && data[pos] == b
  {
    assert data[pos..pos + 1][0] == b;
  }

  lemma AtFront(bs: seq<byte>, rest: seq<byte>)
    ensures At(bs + rest, 0, bs)
  {
  }

  // ----- Values -----

  /** What a value is after a trip: a float is stored with one byte order and read with the other;
      the f8 branch of the decoder builds an Integer 0. */
  function Travelled(av: AttributeValue): AttributeValue {
    match av.valueType
    case F4 => AttributeValue(F4, Reverse(av.value))
    case F8 => AttributeValue(I32, BigEndian(0, 4))
    case _ => av
  }

  lemma ReadFloat(av: AttributeValue)
    requires av.Valid() && av.valueType.F4?
    ensures Value(av.value) < Pow256(4) && SetValue(JFloat(Value(av.value))) == Travelled(av)
  {
    ValueBound(av.value);
    LittleEndianOfValue(av.value);
  }

  /** Values change on the way exactly when they are floats whose bytes are no palindrome. */
  lemma TravelledSame(av: AttributeValue)
    requires av.Valid()
    ensures Travelled(av) == av <==>
      !av.valueType.F8? && (av.valueType.F4? ==> av.value[0] == av.value[3] && av.value[1] == av.value[2])
  {
    if av.valueType.F4? {
      var r := Reverse(av.value);
      assert r[0] == av.value[3] && r[1] == av.value[2] && r[2] == av.value[1] && r[3] == av.value[0];
      if av.value[0] == av.value[3] && av.value[1] == av.value[2] {
        assert r == av.value;
      }
    }
  }

  lemma ReadValueBack(data: seq<byte>, limit: nat, pos: nat, av: AttributeValue)
    requires av.Valid() && limit <= |data|
    requires At(data, pos, WireBytes(av)) && pos + |WireBytes(av)| <= limit
    ensures ReadValue(data, limit, pos, |WireBytes(av)|, av.valueType) == Done(Travelled(av))
  {
    var wire := WireBytes(av);
    match av.valueType {
      case F4 => ReadFloat(av);
      case F8 =>
      case S =>
      case B =>
      case _ =>
        IntegerReadsBack(av);
        assert Region(data, pos, |wire|) == Some(wire);
    }
  }

  // ----- Records -----

  lemma ReadPackedBack(data: seq<byte>, pos: nat, v: int32)
    requires At(data, pos, Packed(v))
    ensures ReadInt(data, pos, ByteLen(v)) == Some(v)
  {
    PackedReadsBack(v);
    assert Region(data, pos, ByteLen(v)) == Some(Packed(v));
  }

  lemma ReadHeadBack(data: seq<byte>, limit: nat, pos: nat, flags: byte, num: int32, kind: int32, next: nat)
    requires limit <= |data| && limit <= MAX_INT
    requires At(data, pos, [flags] + (Packed(num) + Packed(kind)))
    requires next == pos + 1 + ByteLen(num) + ByteLen(kind) && next <= limit
    requires flags % 8 == ByteLen(num) && flags / 8 % 8 == ByteLen(kind)
    ensures pos < limit && ReadHead(data, limit, pos) == Done(Some(Head(flags, num, kind, next)))
  {
    hide Wrap32;
    AtSplit(data, pos, [flags], Packed(num) + Packed(kind));
    AtByte(data, pos, flags);
    AtSplit(data, pos + 1, Packed(num), Packed(kind));
    ReadPackedBack(data, pos + 1, num);
    ReadPackedBack(data, pos + 1 + ByteLen(num), kind);
    assert Wrap32(next) == next;
  }

  lemma ReadEntityBack(data: seq<byte>, limit: nat, pos: nat, e: EntityL, started: bool)
    requires limit <= |data| && limit <= MAX_INT
    requires At(data, pos, EntityHead(e)) && pos + |EntityHead(e)| <= limit
    ensures ReadRecord(data, limit, pos, started) == EntityRecord(e.num, e.kind, pos + |EntityHead(e)|)
  {
    hide ReadHead;
    hide Packed;
    hide RecordHeader;
    hide At;
    var flags := RecordHeader(ByteLen(e.num), ByteLen(e.kind), false, false);
    HeaderFields(flags, ByteLen(e.num), ByteLen(e.kind), 0, 0);
    ReadHeadBack(data, limit, pos, flags, e.num, e.kind, pos + |EntityHead(e)|);
  }

  lemma LengthReadsBack(len: int32)
    requires len >= 0
    ensures LengthLen(len) == 1 ==> LengthField(len) == [len]
    ensures LengthLen(len) > 1 ==> LengthField(len) == [ByteLen(len)] + Packed(len)
  {
    Powers();
    IntBytesShifted(len);
  }

  lemma ReadSizedBack(data: seq<byte>, limit: nat, pos: nat, key: DualKey, av: AttributeValue)
    requires av.Valid() && limit <= |data| && limit <= MAX_INT
    requires At(data, pos, WireBytes(av)) && pos + |WireBytes(av)| <= limit
    ensures ReadSized(data, limit, pos, |WireBytes(av)|, av.valueType, key)
         == AttributeRecord(key, Travelled(av), pos + |WireBytes(av)|)
  {
    hide Wrap32;
    hide ReadValue;
    hide WireBytes;
    hide Travelled;
    ReadValueBack(data, limit, pos, av);
    assert Wrap32(pos + |WireBytes(av)|) == pos + |WireBytes(av)|;
  }

  lemma ReadAttributeBack(data: seq<byte>, limit: nat, pos: nat, key: DualKey, av: AttributeValue, rest: seq<byte>)
    requires av.Valid() && limit <= |data| && limit <= MAX_INT
    requires rest == [av.valueType.Ordinal()] + (LengthField(|WireBytes(av)|) + WireBytes(av))
    requires At(data, pos, rest) && pos + |rest| <= limit
    ensures ReadAttribute(data, limit, pos, LengthLen(|WireBytes(av)|) == 1, key)
         == AttributeRecord(key, Travelled(av), pos + |rest|)
  {
    hide Wrap32;
    hide ReadSized;
    hide ReadInt;
    hide WireBytes;
    hide LengthField;
    hide Packed;
    hide Travelled;
    hide TypeOf;
    hide At;
    var wire := WireBytes(av);
    var n, type_ := |wire|, av.valueType.Ordinal();
    var field := LengthField(n);
    LengthReadsBack(n);
    AtSplit(data, pos, [type_], field + wire);
    AtByte(data, pos, type_);
    OrdinalInverse(av.valueType);
    AtSplit(data, pos + 1, field, wire);
    ReadSizedBack(data, limit, pos + 1 + |field|, key, av);
    assert Wrap32(pos + 2) == pos + 2;
    if LengthLen(n) == 1 {
      AtByte(data, pos + 1, n);
    } else {
      AtSplit(data, pos + 1, [ByteLen(n)], Packed(n));
      AtByte(data, pos + 1, ByteLen(n));
      ReadPackedBack(data, pos + 2, n);
      assert Wrap32(pos + 2 + ByteLen(n)) == pos + 2 + ByteLen(n);
    }
  }

  lemma OrdinalInverse(t: ValueType)
    ensures TypeOf(t.Ordinal()) == t
  {
  }

  lemma HeaderFields(flags: nat, n: nat, k: nat, a: nat, o: nat)
    requires n <= 4 && k <= 4 && a < 2 && o < 2 && flags == n + 8 * k + 64 * a + 128 * o
    ensures flags % 8 == n && flags / 8 % 8 == k && flags / 64 % 2 == a && flags / 128 % 2 == o
  {
  }

  lemma ReadAttributeRecordBack(data: seq<byte>, limit: nat, pos: nat, a: Attribute)
    requires a.value.Valid() && limit <= |data| && limit <= MAX_INT
    requires At(data, pos, AttributeBytes(a)) && pos + |AttributeBytes(a)| <= limit
    ensures ReadRecord(data, limit, pos, true)
         == AttributeRecord(a.Key(), Travelled(a.value), pos + |AttributeBytes(a)|)
  {
    hide ReadAttribute;
    hide ReadHead;
    hide WireBytes;
    hide LengthField;
    hide Packed;
    hide RecordHeader;
    hide Travelled;
    hide At;
    var wire := WireBytes(a.value);
    var one := LengthLen(|wire|) == 1;
    var flags := RecordHeader(ByteLen(a.num), ByteLen(a.kind), true, one);
    var head := [flags] + (Packed(a.num) + Packed(a.kind));
    var rest := [a.value.valueType.Ordinal()] + (LengthField(|wire|) + wire);
    assert AttributeBytes(a) == head + rest;
    AtSplit(data, pos, head, rest);
    HeaderFields(flags, ByteLen(a.num), ByteLen(a.kind), 1, if one then 1 else 0);
    ReadHeadBack(data, limit, pos, flags, a.num, a.kind, pos + |head|);
    ReadAttributeBack(data, limit, pos + |head|, a.Key(), a.value, rest);
  }

  // ----- Lists of records -----

  function TravelledAttributes(attributes: seq<Attribute>): (r: seq<Attribute>)
    ensures |r| == |attributes|
    ensures forall i :: 0 <= i < |r| ==> r[i] == attributes[i].(value := Travelled(attributes[i].value))
  {
    if attributes == [] then []
    else [attributes[0].(value := Travelled(attributes[0].value))] + TravelledAttributes(attributes[1..])
  }

  function TravelledEntity(e: EntityL): EntityL {
    e.(attributes := TravelledAttributes(e.attributes))
  }

  /** What the encoded entities decode to. */
  function Arrived(es: seq<EntityL>): (r: seq<Entity>)
    ensures |r| == |es|
    ensures forall i :: 0 <= i < |es| ==> r[i] == CreateFrom(TravelledEntity(es[i]))
  {
    if es == [] then [] else [CreateFrom(TravelledEntity(es[0]))] + Arrived(es[1..])
  }

  lemma {:induction false} DecodeAttributesBack(data: seq<byte>, limit: nat, pos: nat, size: int32,
                                                done: seq<Entity>, e: Entity, attributes: seq<Attribute>)
    requires AllValid(attributes) && limit <= |data| && limit <= MAX_INT
    requires At(data, pos, AttributesBytes(attributes)) && pos + |AttributesBytes(attributes)| <= size <= limit
    ensures DecodeRecords(data, limit, pos, size, done + [e])
      == DecodeRecords(data, limit, pos + |AttributesBytes(attributes)|, size,
                       done + [e.(attributes := PutAll(e.attributes, TravelledAttributes(attributes)))])
    decreases |attributes|
  {
    hide DecodeRecords;
    hide ReadRecord;
    hide Put;
    hide AttributeBytes;
    hide Travelled;
    hide At;
    if attributes == [] {
      assert e.(attributes := e.attributes) == e;
    } else {
      var a, rest := attributes[0], attributes[1..];
      var bytes := AttributeBytes(a);
      assert a in attributes && forall x :: x in rest ==> x in attributes;
      AtSplit(data, pos, bytes, AttributesBytes(rest));
      ReadAttributeRecordBack(data, limit, pos, a);
      RecordNotEmpty(a);
      DecodeAttribute(data, limit, pos, size, done + [e], a.Key(), Travelled(a.value), pos + |bytes|);
      var e' := e.(attributes := Put(e.attributes, a.Key(), Travelled(a.value)));
      assert PutLast(done + [e], a.Key(), Travelled(a.value)) == done + [e'];
      DecodeAttributesBack(data, limit, pos + |bytes|, size, done, e', rest);
      PutAllStep(e.attributes, attributes);
    }
  }

  lemma RecordNotEmpty(a: Attribute)
    requires a.value.Valid()
    ensures AttributeBytes(a) != []
  {
  }

  lemma PutAllStep(m: seq<Entry>, attributes: seq<Attribute>)
    requires attributes != []
    ensures var a := attributes[0];
      PutAll(m, TravelledAttributes(attributes))
      == PutAll(Put(m, a.Key(), Travelled(a.value)), TravelledAttributes(attributes[1..]))
  {
    hide Put;
    hide Travelled;
    assert TravelledAttributes(attributes)[1..] == TravelledAttributes(attributes[1..]);
  }

  lemma DecodeEntityBack(data: seq<byte>, limit: nat, pos: nat, size: int32, done: seq<Entity>, e: EntityL)
    requires e.Valid() && limit <= |data| && limit <= MAX_INT
    requires At(data, pos, EntityBytes(e)) && pos + |EntityBytes(e)| <= size <= limit
    ensures DecodeRecords(data, limit, pos, size, done)
      == DecodeRecords(data, limit, pos + |EntityBytes(e)|, size, done + [CreateFrom(TravelledEntity(e))])
  {
    hide ReadRecord;
    hide DecodeRecords;
    hide PutAll;
    hide AttributesBytes;
    hide EntityHead;
    hide TravelledAttributes;
    hide At;
    var head, attributes := EntityHead(e), AttributesBytes(e.attributes);
    AtSplit(data, pos, head, attributes);
    ReadEntityBack(data, limit, pos, e, done != []);
    HeadNotEmpty(e);
    DecodeEntity(data, limit, pos, size, done, e.num, e.kind, pos + |head|);
    DecodeAttributesBack(data, limit, pos + |head|, size, done, Entity(e.num, e.kind, []), e.attributes);
  }

  lemma {:induction false} DecodeEntitiesBack(data: seq<byte>, limit: nat, pos: nat, size: int32,
                                              done: seq<Entity>, es: seq<EntityL>)
    requires ValidEntities(es) && limit <= |data| && limit <= MAX_INT
    requires At(data, pos, DataSection(es)) && pos + |DataSection(es)| == size <= limit
    ensures DecodeRecords(data, limit, pos, size, done) == DecodeRecords(data, limit, size, size, done + Arrived(es))
    decreases |es|
  {
    hide DecodeRecords;
    hide CreateFrom;
    hide TravelledEntity;
    hide EntityBytes;
    hide At;
    if es == [] {
      assert done + Arrived(es) == done;
    } else {
      var e, rest := es[0], es[1..];
      assert e in es && e.Valid() && forall x :: x in rest ==> x in es;
      AtSplit(data, pos, EntityBytes(e), DataSection(rest));
      DecodeEntityBack(data, limit, pos, size, done, e);
      var arrived := CreateFrom(TravelledEntity(e));
      DecodeEntitiesBack(data, limit, pos + |EntityBytes(e)|, size, done + [arrived], rest);
      assert done + [arrived] + Arrived(rest) == done + ([arrived] + Arrived(rest));
    }
  }

  lemma HeadNotEmpty(e: EntityL)
    ensures EntityHead(e) != []
  {
  }

  // ----- Whole packets -----

  lemma ReadPreambleBack(data: seq<byte>, pid: int32, ds: int32)
    requires 0 <= pid < 0x100_0000 && 0 <= ds
    requires data != [] && data[0] == FirstByte(ByteLen(pid), ByteLen(ds))
    requires At(data, PACKET_HEADER_SIZE, Packed(pid) + Packed(ds))
    ensures ReadPreamble(data) == Some(Preamble(pid, ds, PACKET_HEADER_SIZE + ByteLen(pid) + ByteLen(ds)))
  {
    hide FirstByte;
    hide Packed;
    hide ReadInt;
    AtSplit(data, PACKET_HEADER_SIZE, Packed(pid), Packed(ds));
    ReadPackedBack(data, PACKET_HEADER_SIZE, pid);
    ReadPackedBack(data, PACKET_HEADER_SIZE + ByteLen(pid), ds);
  }

  /** The fixed fields of a packet, wherever the data section ends. */
  lemma FramedLayout(data: seq<byte>, pid: int32, command: Command, d: seq<byte>)
    requires |d| <= MAX_INT && At(data, 0, Framed(pid, command, d))
    ensures data[0] == FirstByte(ByteLen(pid), ByteLen(|d|))
    ensures data[1..3] == LittleEndian(Checksum(Covered(d)), 2)
    ensures data[3] == command
    ensures At(data, PACKET_HEADER_SIZE, Packed(pid) + Packed(|d|))
    ensures At(data, PACKET_HEADER_SIZE + ByteLen(pid) + ByteLen(|d|), d)
  {
    hide Checksum;
    hide LittleEndian;
    hide FirstByte;
    var first, sum := [FirstByte(ByteLen(pid), ByteLen(|d|))], LittleEndian(Checksum(Covered(d)), 2);
    var ints := Packed(pid) + Packed(|d|);
    assert Framed(pid, command, d) == first + (sum + ([command] + (ints + d)));
    AtSplit(data, 0, first, sum + ([command] + (ints + d)));
    AtSplit(data, 1, sum, [command] + (ints + d));
    AtSplit(data, 3, [command], ints + d);
    AtSplit(data, 4, ints, d);
    AtByte(data, 0, first[0]);
    AtByte(data, 3, command);
  }

  lemma ChecksumPasses(data: seq<byte>, limit: nat, start: nat, d: seq<byte>)
    requires |d| <= MAX_INT && start + |d| <= limit <= |data| && limit <= MAX_INT && At(data, start, d)
    ensures ChecksumOfRange(data, limit, start, if |d| > CRC_LIMIT then CRC_LIMIT else |d|)
         == Some(Checksum(Covered(d)))
  {
    hide Checksum;
    var n := if |d| > CRC_LIMIT then CRC_LIMIT else |d|;
    assert data[start..start + n] == data[start..start + |d|][..n];
    assert Covered(d) == data[start..start + n];
    if n == 0 {
      assert Covered(d) == [];
      NothingChecked();
    }
  }

  /** Around any data section, decoding comes down to the record loop over it. */
  lemma DecodeOfFramed(data: seq<byte>, limit: nat, pid: int32, command: Command, d: seq<byte>)
    requires |d| <= MAX_INT && 0 <= pid < 0x100_0000 && At(data, 0, Framed(pid, command, d))
    requires PacketSize(pid, |d|) <= limit <= |data| && limit <= MAX_INT
    ensures var start := PACKET_HEADER_SIZE + ByteLen(pid) + ByteLen(|d|);
      Decode(data, limit) ==
        match DecodeRecords(data, limit, start, start + |d|, [])
        case Done(entities) => Done(Task(pid, command, entities))
        case Thrown(f) => Thrown(f)
        case Endless => Endless
  {
    hide DecodeRecords;
    hide Checksum;
    hide ChecksumOfRange;
    hide ReadPreamble;
    hide Value;
    hide LittleEndian;
    hide Framed;
    hide Packed;
    hide FirstByte;
    hide Wrap32;
    hide At;
    hide ByteLen;
    hide Covered;
    hide Pow256;
    var start := PACKET_HEADER_SIZE + ByteLen(pid) + ByteLen(|d|);
    FramedLayout(data, pid, command, d);
    ReadPreambleBack(data, pid, |d|);
    ChecksumPasses(data, limit, start, d);
    Powers();
    ValueOfLittleEndian(Checksum(Covered(d)), 2);
    assert Wrap32(start + |d|) == start + |d|;
  }

  /** Behind the last record the loop ends, unless its position is the largest int. */
  lemma DecodeBehindLast(data: seq<byte>, limit: nat, size: int32, entities: seq<Entity>)
    requires 0 <= size <= limit <= |data| && limit <= MAX_INT
    ensures DecodeRecords(data, limit, size, size, entities) ==
      if size < MAX_INT then Done(entities) else Thrown(OutOfBounds)
  {
    hide DecodeRecords;
    if size < MAX_INT {
      DecodeEnds(data, limit, size, size, entities);
    } else {
      DecodeOverruns(data, limit, entities);
    }
  }

  /** The whole-packet round trip: for every list of entities with valid values, every packet id of
      at most three bytes, and whatever follows the packet in the buffer, decoding the encoding
      passes the checksum and yields the id, the command and the entities in order, each as
      `createFrom` builds it from its attributes as they travel. Only a packet as long as an int can
      tell is too long. */
  lemma DecodeOfPacket(pid: int32, command: Command, es: seq<EntityL>, rest: seq<byte>, limit: nat)
    requires ValidEntities(es) && Fits(pid, es) && 0 <= pid < 0x100_0000
    requires var n := PacketSize(pid, |DataSection(es)|); n <= limit <= n + |rest| && limit <= MAX_INT
    ensures Decode(Packet(pid, command, es) + rest, limit) ==
      if PacketSize(pid, |DataSection(es)|) < MAX_INT then Done(Task(pid, command, Arrived(es)))
      else Thrown(OutOfBounds)
  {
    hide DecodeRecords;
    hide Decode;
    hide Framed;
    hide FirstByte;
    hide Packed;
    hide Checksum;
    hide LittleEndian;
    hide Arrived;
    hide DataSection;
    hide At;
    var d := DataSection(es);
    var packet := Framed(pid, command, d);
    var data := packet + rest;
    var start := PACKET_HEADER_SIZE + ByteLen(pid) + ByteLen(|d|);
    AtFront(packet, rest);
    FramedLayout(data, pid, command, d);
    DecodeOfFramed(data, limit, pid, command, d);
    DecodeEntitiesBack(data, limit, start, start + |d|, [], es);
    assert [] + Arrived(es) == Arrived(es);
    DecodeBehindLast(data, limit, start + |d|, Arrived(es));
  }
}
