/** The EAV packet: what the encoder writes and what the decoder makes of arbitrary bytes. */
module PacketFormat {
  import opened Bytes
  import opened Bits
  import opened PacketInts
  import opened AttributeValues
  import opened AttributeMaps
  import opened CrcRegister
  import opened Crc16

  const PACKET_HEADER_SIZE := 4
  const EAV_HEADER_SIZE := 1
  const CRC_LIMIT := 0xFFFF
  const MAX_INT := 0x7FFF_FFFF

  /** The ordinals of the eleven commands. */
  type Command = c: nat | c < 11

  /** An entity as the encoder gets it. */
  datatype EntityL = EntityL(num: int32, kind: int32, attributes: seq<Attribute>) {
    ghost predicate Valid() {
      AllValid(attributes)
    }
  }

  /** An entity as the decoder builds it: its attributes are the entries of a tree map. */
  datatype Entity = Entity(num: int32, kind: int32, attributes: seq<Entry>)

  /** `EntityM.createFrom` */
  function CreateFrom(el: EntityL): Entity {
    Entity(el.num, el.kind, PutAll([], el.attributes))
  }

  datatype Task = Task(packetId: int32, command: Command, entities: seq<Entity>)

  // ----- Encoding -----

  function RecordHeader(numLen: nat, kindLen: nat, isAttribute: bool, oneByte: bool): (h: byte)
    requires numLen <= 4 && kindLen <= 4
    ensures h == numLen + 8 * kindLen + (if isAttribute then 64 else 0) + (if oneByte then 128 else 0)
  {
    RecordHeaderSum(numLen, kindLen, isAttribute, oneByte);
    BitOr(BitOr(BitOr(numLen, 8 * kindLen), if isAttribute then 64 else 0), if oneByte then 128 else 0)
  }

  /** The number of bytes a value's length takes: at least one. */
  function LengthLen(len: int32): (n: nat)
    requires len >= 0
    ensures 1 <= n <= 4
    ensures n == 1 <==> len < 256
  {
    if ByteLen(len) == 0 then 1 else ByteLen(len)
  }

  function LengthField(len: int32): (bs: seq<byte>)
    requires len >= 0
  {
    if LengthLen(len) == 1 then IntBytes(len)[..1] else [LengthLen(len)] + Packed(len)
  }

  function AttributeBytes(a: Attribute): (bs: seq<byte>)
    requires |a.value.value| <= MAX_INT
  {
    var wire := WireBytes(a.value);
    [RecordHeader(ByteLen(a.num), ByteLen(a.kind), true, LengthLen(|wire|) == 1)]
    + (Packed(a.num) + (Packed(a.kind) + ([a.value.valueType.Ordinal()] + (LengthField(|wire|) + wire))))
  }

  ghost predicate AllValid(attributes: seq<Attribute>) {
    forall a :: a in attributes ==> a.value.Valid()
  }

  ghost function AttributesBytes(attributes: seq<Attribute>): seq<byte>
    requires AllValid(attributes)
  {
    if attributes == [] then [] else AttributeBytes(attributes[0]) + AttributesBytes(attributes[1..])
  }

  function EntityHead(e: EntityL): seq<byte> {
    [RecordHeader(ByteLen(e.num), ByteLen(e.kind), false, false)] + (Packed(e.num) + Packed(e.kind))
  }

  ghost function EntityBytes(e: EntityL): seq<byte>
    requires e.Valid()
  {
    EntityHead(e) + AttributesBytes(e.attributes)
  }

  ghost predicate ValidEntities(es: seq<EntityL>) {
    forall e :: e in es ==> e.Valid()
  }

  ghost function DataSection(es: seq<EntityL>): seq<byte>
    requires ValidEntities(es)
  {
    if es == [] then [] else EntityBytes(es[0]) + DataSection(es[1..])
  }

  /** `(byte) (pid_len | (ds_len << 2))` */
  function FirstByte(pidLen: nat, dsLen: nat): (b: byte)
    requires pidLen <= 4 && dsLen <= 4
    ensures pidLen < 4 ==> b == pidLen + 4 * dsLen
  {
    FirstByteBound(pidLen, dsLen);
    BitOr(pidLen, 4 * dsLen)
  }

  function Covered(d: seq<byte>): seq<byte> {
    if |d| > CRC_LIMIT then d[..CRC_LIMIT] else d
  }

  /** The size of a packet with n bytes of data. */
  function PacketSize(pid: int32, n: int32): nat
    requires n >= 0
  {
    PACKET_HEADER_SIZE + ByteLen(pid) + ByteLen(n) + n
  }

  /** A packet around a data section. */
  function Framed(pid: int32, command: Command, d: seq<byte>): (packet: seq<byte>)
    requires |d| <= MAX_INT
    ensures |packet| == PacketSize(pid, |d|)
  {
    [FirstByte(ByteLen(pid), ByteLen(|d|))]
    + (LittleEndian(Checksum(Covered(d)), 2) + ([command] + (Packed(pid) + (Packed(|d|) + d))))
  }

  ghost function Packet(pid: int32, command: Command, es: seq<EntityL>): seq<byte>
    requires ValidEntities(es) && |DataSection(es)| <= MAX_INT
  {
    Framed(pid, command, DataSection(es))
  }

  /** The packet can be built: its size is a Java int. */
  ghost predicate Fits(pid: int32, es: seq<EntityL>)
    requires ValidEntities(es)
  {
    var n := |DataSection(es)|;
    n <= MAX_INT && PacketSize(pid, n) <= MAX_INT
  }

  // ----- Decoding -----

  datatype Fault = OutOfBounds | Underflow | NegativeLength | BadChecksum | BadValueType

  /** How a call can end; or that it cannot, Endless. */
  datatype Outcome<+T> = Done(result: T) | Thrown(fault: Fault) | Endless

  datatype Head = Head(flags: byte, num: int32, kind: int32, next: nat)

  /** One turn of the record loop. */
  datatype Record =
    | EntityRecord(num: int32, kind: int32, next: int)
    | AttributeRecord(key: DualKey, value: AttributeValue, next: int)
    | Stop
    | Fault(fault: Fault)

  function ReadInt(data: seq<byte>, offset: nat, len: int): Option<int32> {
    match Region(data, offset, len)
    case None => None
    case Some(bs) => Some(IntOf(bs))
  }

  /** The header, number and type of a record; None when the loop ends before they do. */
  function ReadHead(data: seq<byte>, limit: nat, pos: nat): (r: Outcome<Option<Head>>)
    requires limit <= |data| && pos < limit
    ensures r.Done? && r.result.Some? ==> pos < r.result.value.next <= |data|
    ensures !r.Endless?
  {
    var flags := data[pos];
    var numLen, kindLen := flags % 8, flags / 8 % 8;
    if Wrap32(pos + 1 + numLen + kindLen) > limit then Done(None)
    else
      match (ReadInt(data, pos + 1, numLen), ReadInt(data, pos + 1 + numLen, kindLen))
      case (Some(num), Some(kind)) => Done(Some(Head(flags, num, kind, pos + 1 + numLen + kindLen)))
      case _ => Thrown(OutOfBounds)
  }

  /** `pos` is where the value starts, whatever `len` says. */
  function ReadValue(data: seq<byte>, limit: nat, pos: nat, len: int32, t: ValueType): (r: Outcome<AttributeValue>)
    requires limit <= |data|
    ensures !r.Endless?
  {
    match t
    case F4 =>
      if pos + 4 > limit then Thrown(OutOfBounds)
      else
        ValueBound(data[pos..pos + 4]);
        Done(SetValue(JFloat(Value(data[pos..pos + 4]))))
    case F8 =>
      if pos + 8 > limit then Thrown(OutOfBounds)
      else
        ValueBound(data[pos..pos + 8]);
        Done(SetValue(JDouble(Value(data[pos..pos + 8]))))
    case S =>
      if len < 0 || pos + len > |data| then Thrown(OutOfBounds)
      else Done(SetValue(JString(data[pos..pos + len])))
    case B =>
      if len < 0 then Thrown(NegativeLength)
      else if pos + len > limit then Thrown(Underflow)
      else Done(SetValue(JBuffer(data[pos..pos + len])))
    case _ =>
      match Region(data, pos, len)
      case None => Thrown(OutOfBounds)
      case Some(bs) =>
        ReadIntegerExists(t, bs);
        Done(SetValue(ReadInteger(t, bs)))
  }

  /** The value and where the cursor goes from there, once type and length are known. */
  function ReadSized(data: seq<byte>, limit: nat, pos: nat, len: int32, t: ValueType, key: DualKey): (r: Record)
    requires limit <= |data|
    ensures !r.EntityRecord?
  {
    var next := Wrap32(pos + len);
    if next > limit then Stop
    else
      match ReadValue(data, limit, pos, len, t)
      case Thrown(f) => Fault(f)
      case Done(v) => AttributeRecord(key, v, next)
  }

  function ReadAttribute(data: seq<byte>, limit: nat, pos: nat, oneByte: bool, key: DualKey): (r: Record)
    requires limit <= |data|
    ensures !r.EntityRecord?
  {
    if Wrap32(pos + 2) > limit then Stop
    else if pos >= limit then Fault(OutOfBounds)
    else if data[pos] > B.Ordinal() then Fault(BadValueType)
    else if pos + 1 >= limit then Fault(OutOfBounds)
    else
      var t, n := TypeOf(data[pos]), data[pos + 1];
      if oneByte then ReadSized(data, limit, pos + 2, n, t, key)
      else if Wrap32(pos + 2 + n) > limit then Stop
      else
        match ReadInt(data, pos + 2, n)
        case None => Fault(OutOfBounds)
        case Some(len) => ReadSized(data, limit, pos + 2 + n, len, t, key)
  }

  /** `started`: an entity has been read. */
  function ReadRecord(data: seq<byte>, limit: nat, pos: int, started: bool): (r: Record)
    requires limit <= |data|
    ensures r.EntityRecord? || r.AttributeRecord? ==> 0 <= pos < limit
    ensures r.EntityRecord? ==> pos < r.next
    ensures r.AttributeRecord? ==> started
  {
    if pos < 0 || pos >= limit then Fault(OutOfBounds)
    else
      match ReadHead(data, limit, pos)
      case Thrown(f) => Fault(f)
      case Done(None) => Stop
      case Done(Some(h)) =>
        if h.flags / 64 % 2 == 0 then EntityRecord(h.num, h.kind, h.next)
        else if !started then Stop
        else ReadAttribute(data, limit, h.next, h.flags / 128 % 2 == 1, DualKey(h.num, h.kind))
  }

  function PutLast(entities: seq<Entity>, key: DualKey, value: AttributeValue): (r: seq<Entity>)
    requires entities != []
    ensures r != []
  {
    var last := entities[|entities| - 1];
    entities[..|entities| - 1] + [last.(attributes := Put(last.attributes, key, value))]
  }

  /** Up to `turns` turns of the record loop: `size` is where the data section ends. Endless if the
      loop would go on after that. */
  function DecodeTurns(data: seq<byte>, limit: nat, pos: int, size: int32, entities: seq<Entity>,
                       turns: nat): Outcome<seq<Entity>>
    requires limit <= |data|
    decreases turns
  {
    if Wrap32(pos + EAV_HEADER_SIZE) > size then Done(entities)
    else if turns == 0 then Endless
    else
      match ReadRecord(data, limit, pos, entities != [])
      case EntityRecord(num, kind, next) =>
        DecodeTurns(data, limit, next, size, entities + [Entity(num, kind, [])], turns - 1)
      case AttributeRecord(key, value, next) =>
        DecodeTurns(data, limit, next, size, PutLast(entities, key, value), turns - 1)
      case Stop => Done(entities)
      case Fault(f) => Thrown(f)
  }

  /** More turns than the cursor has positions to be at. */
  function EnoughTurns(limit: nat): nat {
    limit + 2
  }

  /** The record loop. A loop that goes on for so many turns never ends. */
  function DecodeRecords(data: seq<byte>, limit: nat, pos: int, size: int32,
                         entities: seq<Entity>): Outcome<seq<Entity>>
    requires limit <= |data|
  {
    DecodeTurns(data, limit, pos, size, entities, EnoughTurns(limit))
  }

  /** Packet id, size of the data section and where it starts. */
  datatype Preamble = Preamble(pid: int32, ds: int32, start: nat)

  function ReadPreamble(data: seq<byte>): Option<Preamble>
    requires data != []
  {
    var pidLen, dsLen := data[0] % 4, data[0] / 4 % 8;
    match (ReadInt(data, PACKET_HEADER_SIZE, pidLen), ReadInt(data, PACKET_HEADER_SIZE + pidLen, dsLen))
    case (Some(pid), Some(ds)) => Some(Preamble(pid, ds, PACKET_HEADER_SIZE + pidLen + dsLen))
    case _ => None
  }

  /** `EavTask.createFromArray` on a buffer over `data`. */
  function Decode(data: seq<byte>, limit: nat): Outcome<Task>
    requires limit <= |data|
  {
    if limit < PACKET_HEADER_SIZE then Thrown(OutOfBounds)
    else if data[3] >= 11 then Thrown(OutOfBounds)
    else
      match ReadPreamble(data)
      case None => Thrown(OutOfBounds)
      case Some(p) =>
        match ChecksumOfRange(data, limit, p.start, if p.ds > CRC_LIMIT then CRC_LIMIT else p.ds)
        case None => Thrown(Underflow)
        case Some(sum) =>
          if Value(data[1..3]) != sum then Thrown(BadChecksum)
          else
            match DecodeRecords(data, limit, p.start, Wrap32(p.start + p.ds), [])
            case Done(entities) => Done(Task(p.pid, data[3], entities))
            case Thrown(f) => Thrown(f)
            case Endless => Endless
  }

  // ----- Header bits -----

  lemma SmallPowers()
    ensures Pow2(2) == 4 && Pow2(3) == 8 && Pow2(6) == 64 && Pow2(7) == 128
  {
    assert Pow2(3) == 8;
    assert Pow2(5) == 4 * Pow2(3) && Pow2(7) == 4 * Pow2(5) && Pow2(7) == 2 * Pow2(6);
  }

  lemma RecordHeaderSum(numLen: nat, kindLen: nat, isAttribute: bool, oneByte: bool)
    requires numLen <= 4 && kindLen <= 4
    ensures BitOr(BitOr(BitOr(numLen, 8 * kindLen), if isAttribute then 64 else 0), if oneByte then 128 else 0)
      == numLen + 8 * kindLen + (if isAttribute then 64 else 0) + (if oneByte then 128 else 0)
  {
    hide BitOr;
    SmallPowers();
    var a, o := if isAttribute then 1 else 0, if oneByte then 1 else 0;
    OrDisjoint(numLen, 3, kindLen);
    OrDisjoint(numLen + 8 * kindLen, 6, a);
    OrDisjoint(numLen + 8 * kindLen + 64 * a, 7, o);
  }

  lemma FirstByteBound(pidLen: nat, dsLen: nat)
    requires pidLen <= 4 && dsLen <= 4
    ensures BitOr(pidLen, 4 * dsLen) < 32
    ensures pidLen < 4 ==> BitOr(pidLen, 4 * dsLen) == pidLen + 4 * dsLen
  {
    hide BitOr;
    SmallPowers();
    assert Pow2(5) == 4 * Pow2(3);
    OrBound(pidLen, 4 * dsLen, 5);
    if pidLen < 4 {
      OrDisjoint(pidLen, 2, dsLen);
    }
  }
}
