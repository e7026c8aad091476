/** `EavTask`: filling the request buffer in two passes, and rebuilding a task from a buffer. */
module EavTasks {
  import opened Bytes
  import opened Bits
  import opened ByteBuffers
  import opened PacketInts
  import opened AttributeValues
  import opened AttributeMaps
  import opened CrcRegister
  import opened Crc16
  import opened PacketFormat

  // ----- Packet ids -----

  const LAST_ID := 65534

  /** The id handed out by call number k, counting from 0. */
  function IdAt(k: nat): (id: int32) {
    k % LAST_ID + 1
  }

  /** Ids count from 1 to 65534 and start over; so they fit two bytes, and come back only after all the
      others. */
  lemma IdsCycle(j: nat, k: nat)
    ensures k < 65534 ==> IdAt(k) == k + 1
    ensures IdAt(k + 65534) == IdAt(k)
    ensures 1 <= IdAt(k) <= 65534 && 1 <= ByteLen(IdAt(k)) <= 2
    ensures IdAt(j) == IdAt(k) <==> (j - k) % 65534 == 0
  {
  }

  /** The static counter `ID`. */
  class PacketIds {
    var id: int32
    ghost var calls: nat

    ghost predicate Valid()
      reads this
    {
      id == if calls == 0 then 1 else IdAt(calls - 1) + 1
    }

    constructor ()
      ensures Valid() && calls == 0
    {
      id := 1;
      calls := 0;
    }

    method GetIncrementId() returns (r: int32)
      requires Valid()
      modifies this
      ensures Valid() && calls == old(calls) + 1
      ensures r == IdAt(old(calls))
    {
      if id + 1 > 0xFFFF {
        id := 1;
      }
      r := id;
      id := id + 1;
      calls := calls + 1;
    }
  }

  // ----- Entities under construction -----

  class EntityM {
    const num: int32
    const kind: int32
    var attributes: seq<Entry>

    constructor (num: int32, kind: int32)
      ensures this.num == num && this.kind == kind && attributes == []
    {
      this.num := num;
      this.kind := kind;
      attributes := [];
    }

    function View(): Entity
      reads this
    {
      Entity(num, kind, attributes)
    }

    method PutAttribute(key: DualKey, value: AttributeValue)
      modifies this
      ensures attributes == Put(old(attributes), key, value)
    {
      attributes := Put(attributes, key, value);
    }

    static method CreateFrom(el: EntityL) returns (em: EntityM)
      ensures fresh(em) && em.View() == PacketFormat.CreateFrom(el)
    {
      em := new EntityM(el.num, el.kind);
      var i := 0;
      while i < |el.attributes|
        invariant 0 <= i <= |el.attributes|
        invariant fresh(em) && em.num == el.num && em.kind == el.kind
        invariant PutAll(em.attributes, el.attributes[i..]) == PutAll([], el.attributes)
      {
        var a := el.attributes[i];
        assert el.attributes[i..][1..] == el.attributes[i + 1..];
        em.PutAttribute(a.Key(), a.value);
        i := i + 1;
      }
    }
  }

  ghost function Views(ms: seq<EntityM>): (vs: seq<Entity>)
    reads ms
    ensures |vs| == |ms|
    ensures forall i :: 0 <= i < |ms| ==> vs[i] == ms[i].View()
  {
    if ms == [] then [] else [ms[0].View()] + Views(ms[1..])
  }

  // ----- Pass one: the size of the data section -----

  /** The value buffers in the order pass one queues them. */
  function Wires(attributes: seq<Attribute>): (ws: seq<seq<byte>>)
    ensures |ws| == |attributes|
    ensures forall i :: 0 <= i < |ws| ==> ws[i] == WireBytes(attributes[i].value)
  {
    if attributes == [] then [] else [WireBytes(attributes[0].value)] + Wires(attributes[1..])
  }

  function AllWires(es: seq<EntityL>): seq<seq<byte>> {
    if es == [] then [] else Wires(es[0].attributes) + AllWires(es[1..])
  }

  lemma WrapSum(x: int, y: int)
    ensures Wrap32(Wrap32(x) + y) == Wrap32(x + y)
  {
  }

  lemma AttributeSize(a: Attribute)
    requires a.value.Valid()
    ensures var len := |WireBytes(a.value)|;
      |AttributeBytes(a)| ==
        1 + ByteLen(a.num) + ByteLen(a.kind) + (if len < 256 then 2 + len else 2 + ByteLen(len) + len)
  {
  }

  lemma FirstAttribute(attributes: seq<Attribute>, i: nat)
    requires i < |attributes| && AllValid(attributes[i..])
    ensures attributes[i].value.Valid() && AllValid(attributes[i + 1..])
    ensures AttributesBytes(attributes[i..]) == AttributeBytes(attributes[i]) + AttributesBytes(attributes[i + 1..])
    ensures Wires(attributes[i..]) == [WireBytes(attributes[i].value)] + Wires(attributes[i + 1..])
  {
    hide AttributeBytes;
    hide WireBytes;
    var rest := attributes[i..];
    assert rest[0] == attributes[i] && rest[1..] == attributes[i + 1..];
    assert rest[0] in rest && forall a :: a in attributes[i + 1..] ==> a in rest;
  }

  lemma FirstEntity(es: seq<EntityL>, i: nat)
    requires i < |es| && ValidEntities(es[i..])
    ensures es[i].Valid() && ValidEntities(es[i + 1..])
    ensures DataSection(es[i..]) == EntityBytes(es[i]) + DataSection(es[i + 1..])
    ensures AllWires(es[i..]) == Wires(es[i].attributes) + AllWires(es[i + 1..])
  {
    hide EntityBytes;
    hide Wires;
    var rest := es[i..];
    assert rest[0] == es[i] && rest[1..] == es[i + 1..];
    assert rest[0] in rest && forall e :: e in es[i + 1..] ==> e in rest;
  }

  method MeasureHead(num: int32, kind: int32, ds: int32) returns (ds': int32)
    ensures ds' == Wrap32(ds + (1 + ByteLen(num) + ByteLen(kind)))
  {
    hide Wrap32;
    hide ByteLen;
    var numLen := BytesOf(num);
    var kindLen := BytesOf(kind);
    ds' := Wrap32(ds + EAV_HEADER_SIZE);
    WrapSum(ds + EAV_HEADER_SIZE, numLen);
    ds' := Wrap32(ds' + numLen);
    WrapSum(ds + EAV_HEADER_SIZE + numLen, kindLen);
    ds' := Wrap32(ds' + kindLen);
  }

  method MeasureAttribute(a: Attribute, ds: int32) returns (ds': int32, wire: seq<byte>)
    requires a.value.Valid()
    ensures ds' == Wrap32(ds + |AttributeBytes(a)|)
    ensures wire == WireBytes(a.value)
  {
    hide Wrap32;
    hide WireBytes;
    hide AttributeBytes;
    hide ByteLen;
    AttributeSize(a);
    ds' := MeasureHead(a.num, a.kind, ds);
    ghost var n := ds + (1 + ByteLen(a.num) + ByteLen(a.kind));
    wire := ValueBuffer(a.value);
    var len := |wire|;
    if len < 256 {
      WrapSum(n, 2 + len);
      ds' := Wrap32(ds' + (2 + len));
    } else {
      var lenLen := BytesOf(len);
      WrapSum(n, 2 + lenLen + len);
      ds' := Wrap32(ds' + (2 + lenLen + len));
    }
  }

  /** The body of the first loop. */
  method MeasureEntity(e: EntityL, ds: int32, list: seq<seq<byte>>) returns (ds': int32, list': seq<seq<byte>>)
    requires e.Valid()
    ensures ds' == Wrap32(ds + |EntityBytes(e)|)
    ensures list' == list + Wires(e.attributes)
  {
    hide Wrap32;
    hide AttributeBytes;
    hide AttributesBytes;
    hide Wires;
    hide AllValid;
    ghost var attributes := e.attributes;
    ghost var total := |AttributesBytes(attributes)|;
    ds' := MeasureHead(e.num, e.kind, ds);
    WrapSum(ds + |EntityHead(e)|, total);
    list' := list;
    var i := 0;
    assert attributes[0..] == attributes;
    while i < |e.attributes|
      invariant 0 <= i <= |attributes| && AllValid(attributes[i..])
      invariant Wrap32(ds' + |AttributesBytes(attributes[i..])|) == Wrap32(ds + |EntityHead(e)| + total)
      invariant list' + Wires(attributes[i..]) == list + Wires(attributes)
    {
      var a := e.attributes[i];
      FirstAttribute(attributes, i);
      WrapSum(ds' + |AttributeBytes(a)|, |AttributesBytes(attributes[i + 1..])|);
      var wire;
      ds', wire := MeasureAttribute(a, ds');
      list' := list' + [wire];
      i := i + 1;
    }
    NoAttributes(attributes[i..]);
  }

  lemma NoAttributes(attributes: seq<Attribute>)
    requires attributes == []
    ensures AllValid(attributes) && AttributesBytes(attributes) == [] && Wires(attributes) == []
  {
  }

  /** The buffer a value is queued as. */
  method ValueBuffer(value: AttributeValue) returns (wire: seq<byte>)
    requires value.Valid()
    ensures wire == WireBytes(value)
  {
    wire := value.value;
    if value.valueType.Ordinal() < F4.Ordinal() {
      wire := OptimizeData(wire);
    }
  }

  // ----- Pass two: writing -----

  method PutBytes(buf: ByteBuffer, src: seq<byte>) returns (ok: bool)
    requires buf.Valid()
    modifies buf`position, buf.data
    ensures buf.Valid()
    ensures ok == (old(buf.position) + |src| <= buf.limit)
    ensures ok ==> buf.position == old(buf.position) + |src|
    ensures ok ==> buf.data[..buf.position] == old(buf.data[..buf.position]) + src
  {
    ok := buf.Put(src);
  }

  /** `buf.put(array(v), 0, n)` */
  method PutInt(buf: ByteBuffer, v: int32, n: nat) returns (ok: bool)
    requires buf.Valid() && n <= 4
    modifies buf`position, buf.data
    ensures buf.Valid()
    ensures ok == (old(buf.position) + n <= buf.limit)
    ensures ok ==> buf.position == old(buf.position) + n
    ensures ok ==> buf.data[..buf.position] == old(buf.data[..buf.position]) + IntBytes(v)[..n]
  {
    var bytes := ArrayOf(v);
    ok := PutBytes(buf, bytes[..n]);
  }

  method PutHead(buf: ByteBuffer, header: byte, num: int32, kind: int32, numLen: nat, kindLen: nat) returns (ok: bool)
    requires buf.Valid() && numLen == ByteLen(num) && kindLen == ByteLen(kind)
    modifies buf`position, buf.data
    ensures buf.Valid()
    ensures ok == (old(buf.position) + 1 + numLen + kindLen <= buf.limit)
    ensures ok ==> buf.position == old(buf.position) + 1 + numLen + kindLen
    ensures ok ==> buf.data[..buf.position] == old(buf.data[..buf.position]) + ([header] + (Packed(num) + Packed(kind)))
  {
    hide IntBytes;
    hide ByteLen;
    ok := PutBytes(buf, [header]);
    if !ok { return; }
    ok := PutInt(buf, num, numLen);
    if !ok { return; }
    ok := PutInt(buf, kind, kindLen);
  }

  lemma LengthFieldParts(len: int32)
    requires len >= 0
    ensures LengthField(len) == (if LengthLen(len) > 1 then [LengthLen(len)] else []) + IntBytes(len)[..LengthLen(len)]
  {
    hide IntBytes;
  }

  /** Type, length and value, the value's length taking lenLen bytes. */
  method PutValue(buf: ByteBuffer, t: ValueType, wire: seq<byte>, lenLen: nat) returns (ok: bool)
    requires buf.Valid() && |wire| <= MAX_INT && lenLen == LengthLen(|wire|)
    modifies buf`position, buf.data
    ensures buf.Valid()
    ensures ok == (old(buf.position) + 1 + |LengthField(|wire|)| + |wire| <= buf.limit)
    ensures ok ==> buf.position == old(buf.position) + 1 + |LengthField(|wire|)| + |wire|
    ensures var bytes := [t.Ordinal()] + (LengthField(|wire|) + wire);
      ok ==> buf.data[..buf.position] == old(buf.data[..buf.position]) + bytes
  {
    hide IntBytes;
    hide LengthField;
    hide LengthLen;
    LengthFieldParts(|wire|);
    ok := PutBytes(buf, [t.Ordinal()]);
    if !ok { return; }
    if lenLen > 1 {
      ok := PutBytes(buf, [lenLen]);
      if !ok { return; }
    }
    ok := PutInt(buf, |wire|, lenLen);
    if !ok { return; }
    ok := PutBytes(buf, wire);
  }

  /** Writes one attribute, whose value was queued as `wire`. */
  method PutAttribute(buf: ByteBuffer, a: Attribute, wire: seq<byte>) returns (ok: bool)
    requires buf.Valid() && a.value.Valid() && wire == WireBytes(a.value)
    modifies buf`position, buf.data
    ensures buf.Valid()
    ensures ok == (old(buf.position) + |AttributeBytes(a)| <= buf.limit)
    ensures ok ==> buf.position == old(buf.position) + |AttributeBytes(a)|
    ensures ok ==> buf.data[..buf.position] == old(buf.data[..buf.position]) + AttributeBytes(a)
  {
    hide WireBytes;
    hide Packed;
    hide BitOr;
    hide LengthField;
    hide ByteLen;
    ghost var before := buf.data[..buf.position];
    var numLen := BytesOf(a.num);
    var kindLen := BytesOf(a.kind);
    RecordHeaderSum(numLen, kindLen, true, false);
    RecordHeaderSum(numLen, kindLen, true, true);
    OrZero(BitOr(BitOr(numLen, 8 * kindLen), 64));
    var header := BitOr(BitOr(numLen, 8 * kindLen), 64);
    var lenLen := BytesOf(|wire|);
    if lenLen == 0 {
      lenLen := 1;
    }
    if lenLen < 2 {
      header := BitOr(header, 128);
    }
    ok := PutHead(buf, header, a.num, a.kind, numLen, kindLen);
    if !ok { return; }
    ok := PutValue(buf, a.value.valueType, wire, lenLen);
    if !ok { return; }
    assert before + ([header] + (Packed(a.num) + Packed(a.kind)))
                  + ([a.value.valueType.Ordinal()] + (LengthField(|wire|) + wire)) == before + AttributeBytes(a);
  }

  /** Polls one queued buffer per attribute. */
  method PutAttributes(buf: ByteBuffer, attributes: seq<Attribute>, list: seq<seq<byte>>)
    returns (ok: bool, list': seq<seq<byte>>)
    requires buf.Valid() && AllValid(attributes) && Wires(attributes) <= list
    modifies buf`position, buf.data
    ensures buf.Valid()
    ensures ok == (old(buf.position) + |AttributesBytes(attributes)| <= buf.limit)
    ensures ok ==> list == Wires(attributes) + list'
    ensures ok ==> buf.position == old(buf.position) + |AttributesBytes(attributes)|
    ensures ok ==> buf.data[..buf.position] == old(buf.data[..buf.position]) + AttributesBytes(attributes)
  {
    hide AttributeBytes;
    hide AttributesBytes;
    hide Wires;
    hide AllValid;
    ghost var whole := buf.data[..buf.position] + AttributesBytes(attributes);
    ghost var rest := list[|attributes|..];
    list' := list;
    ok := true;
    var i := 0;
    assert attributes[0..] == attributes;
    while i < |attributes|
      invariant buf.Valid() && 0 <= i <= |attributes| && AllValid(attributes[i..]) && ok
      invariant list' == Wires(attributes[i..]) + rest
      invariant buf.position + |AttributesBytes(attributes[i..])| == |whole|
      invariant buf.data[..buf.position] + AttributesBytes(attributes[i..]) == whole
    {
      var a := attributes[i];
      FirstAttribute(attributes, i);
      var wire := list'[0];
      list' := list'[1..];
      ok := PutAttribute(buf, a, wire);
      if !ok { return; }
      i := i + 1;
    }
    NoAttributes(attributes[i..]);
  }

  /** The body of the second loop. */
  method PutEntity(buf: ByteBuffer, e: EntityL, list: seq<seq<byte>>) returns (ok: bool, list': seq<seq<byte>>)
    requires buf.Valid() && e.Valid() && Wires(e.attributes) <= list
    modifies buf`position, buf.data
    ensures buf.Valid()
    ensures ok == (old(buf.position) + |EntityBytes(e)| <= buf.limit)
    ensures ok ==> list == Wires(e.attributes) + list'
    ensures ok ==> buf.position == old(buf.position) + |EntityBytes(e)|
    ensures ok ==> buf.data[..buf.position] == old(buf.data[..buf.position]) + EntityBytes(e)
  {
    hide AttributesBytes;
    hide Packed;
    hide BitOr;
    hide ByteLen;
    list' := list;
    var numLen := BytesOf(e.num);
    var kindLen := BytesOf(e.kind);
    RecordHeaderSum(numLen, kindLen, false, false);
    OrZero(BitOr(numLen, 8 * kindLen));
    ok := PutHead(buf, BitOr(numLen, 8 * kindLen), e.num, e.kind, numLen, kindLen);
    if !ok { return; }
    ok, list' := PutAttributes(buf, e.attributes, list);
  }

  /** The first loop. */
  method Measure(es: seq<EntityL>) returns (ds: int32, list: seq<seq<byte>>)
    requires ValidEntities(es)
    ensures ds == Wrap32(|DataSection(es)|)
    ensures list == AllWires(es)
  {
    hide Wrap32;
    hide EntityBytes;
    hide DataSection;
    hide AllWires;
    hide ValidEntities;
    ghost var total := |DataSection(es)|;
    ds := 0;
    list := [];
    var i := 0;
    assert es[0..] == es;
    while i < |es|
      invariant 0 <= i <= |es| && ValidEntities(es[i..])
      invariant Wrap32(ds + |DataSection(es[i..])|) == Wrap32(total)
      invariant list + AllWires(es[i..]) == AllWires(es)
    {
      FirstEntity(es, i);
      WrapSum(ds + |EntityBytes(es[i])|, |DataSection(es[i + 1..])|);
      ds, list := MeasureEntity(es[i], ds, list);
      i := i + 1;
    }
    NoEntities(es[i..]);
  }

  lemma NoEntities(es: seq<EntityL>)
    requires es == []
    ensures ValidEntities(es) && DataSection(es) == [] && AllWires(es) == []
  {
  }

  /** The second loop. */
  method PutEntities(buf: ByteBuffer, es: seq<EntityL>, list: seq<seq<byte>>) returns (ok: bool)
    requires buf.Valid() && ValidEntities(es) && list == AllWires(es)
    modifies buf`position, buf.data
    ensures buf.Valid()
    ensures ok == (old(buf.position) + |DataSection(es)| <= buf.limit)
    ensures ok ==> buf.position == old(buf.position) + |DataSection(es)|
    ensures ok ==> buf.data[..buf.position] == old(buf.data[..buf.position]) + DataSection(es)
  {
    hide EntityBytes;
    hide DataSection;
    hide AllWires;
    hide ValidEntities;
    hide Wires;
    ghost var whole := buf.data[..buf.position] + DataSection(es);
    var queue := list;
    ok := true;
    var i := 0;
    assert es[0..] == es;
    while i < |es|
      invariant buf.Valid() && 0 <= i <= |es| && ValidEntities(es[i..]) && ok
      invariant queue == AllWires(es[i..])
      invariant buf.position + |DataSection(es[i..])| == |whole|
      invariant buf.data[..buf.position] + DataSection(es[i..]) == whole
    {
      FirstEntity(es, i);
      ghost var before, first := queue, Wires(es[i].attributes);
      ok, queue := PutEntity(buf, es[i], queue);
      if !ok { return; }
      assert queue == before[|first|..] == AllWires(es[i + 1..]);
      i := i + 1;
    }
    NoEntities(es[i..]);
  }

  /** First byte, command, and the cursor behind the fixed header. */
  method PutFixed(buf: ByteBuffer, first: byte, command: Command) returns (ok: bool)
    requires buf.Valid()
    modifies buf`position, buf.data
    ensures buf.Valid()
    ensures ok == (PACKET_HEADER_SIZE <= buf.limit)
    ensures ok ==> buf.position == PACKET_HEADER_SIZE && buf.data[0] == first && buf.data[3] == command
  {
    ok := buf.PutAt(0, first);
    if !ok { return; }
    ok := buf.PutAt(3, command);
    if !ok { return; }
    ok := buf.SetPosition(PACKET_HEADER_SIZE);
    assert buf.data[0] == buf.data[..][0];
  }

  /** Everything in front of the data section, the checksum still to come. */
  method PutHeader(buf: ByteBuffer, pid: int32, ds: int32, command: Command) returns (ok: bool)
    requires buf.Valid()
    modifies buf`position, buf.data
    ensures buf.Valid()
    ensures ok == (PACKET_HEADER_SIZE + ByteLen(pid) + ByteLen(ds) <= buf.limit)
    ensures ok ==> buf.position == PACKET_HEADER_SIZE + ByteLen(pid) + ByteLen(ds)
    ensures ok ==> buf.data[0] == FirstByte(ByteLen(pid), ByteLen(ds)) && buf.data[3] == command
    ensures ok ==> buf.data[PACKET_HEADER_SIZE..buf.position] == Packed(pid) + Packed(ds)
  {
    hide BitOr;
    hide ByteLen;
    hide IntBytes;
    var pidLen := BytesOf(pid);
    var dsLen := BytesOf(ds);
    FirstByteBound(pidLen, dsLen);
    var first := BitOr(pidLen, 4 * dsLen);
    ok := PutFixed(buf, first, command);
    if !ok { return; }
    ghost var fixed := buf.data[..4];
    ok := PutInt(buf, pid, pidLen);
    if !ok { return; }
    ok := PutInt(buf, ds, dsLen);
    if !ok { return; }
    ghost var all := buf.data[..buf.position];
    assert all == fixed + (Packed(pid) + Packed(ds)) && all[0] == fixed[0] && all[3] == fixed[3];
  }

  /** The checksum of up to 65535 bytes of the data section, put behind the first byte. */
  method PutChecksum(buf: ByteBuffer, start: nat, ds: int32) returns (ok: bool)
    requires buf.Valid() && 0 <= ds && 3 <= start && start + ds == buf.limit == buf.data.Length <= MAX_INT
    modifies buf`position, buf.data
    ensures buf.Valid() && ok && buf.position == 3
    ensures buf.data[..] == old(buf.data[..1])
      + LittleEndian(Checksum(Covered(old(buf.data[start..]))), 2) + old(buf.data[3..])
  {
    hide Checksum;
    hide LittleEndian;
    hide Wrap32;
    ghost var d := buf.data[start..];
    assert buf.data[..][start..start + |d|] == d;
    RangeOfCovered(buf.data[..], start, d);
    var crc;
    if ds > CRC_LIMIT {
      crc := Crc16.Crc16(buf, start, CRC_LIMIT);
    } else {
      crc := Crc16.Crc16(buf, start, ds);
    }
    match crc {
      case None =>
        ok := false;
      case Some(sum) =>
        ok := buf.SetPosition(1);
        ChecksumBytes(sum);
        ok := PutMiddle(buf, sum);
    }
  }

  method PutMiddle(buf: ByteBuffer, sum: word16) returns (ok: bool)
    requires buf.Valid() && buf.position == 1 && 3 <= buf.limit
    modifies buf`position, buf.data
    ensures buf.Valid() && ok && buf.position == 3
    ensures buf.data[..] == old(buf.data[..1]) + IntBytes(sum)[..2] + old(buf.data[3..])
  {
    hide IntBytes;
    var bytes := ArrayOf(sum);
    ghost var before := buf.data[..];
    ok := buf.Put(bytes[..2]);
    assert before[..1] == old(buf.data[..1]) && before[3..] == old(buf.data[3..]);
  }

  lemma ChecksumBytes(sum: word16)
    ensures IntBytes(sum)[..2] == LittleEndian(sum, 2)
  {
    LittleEndianPrefix(sum, 2, 4);
  }

  lemma RangeOfCovered(data: seq<byte>, start: nat, d: seq<byte>)
    requires start + |d| == |data| <= MAX_INT && data[start..] == d
    ensures ChecksumOfRange(data, |data|, start, if |d| > CRC_LIMIT then CRC_LIMIT else |d|)
         == Some(Checksum(Covered(d)))
  {
    hide Checksum;
    var n := if |d| > CRC_LIMIT then CRC_LIMIT else |d|;
    assert data[start..start + n] == d[..n] == Covered(d);
    if n == 0 {
      assert Covered(d) == [];
      NothingChecked();
    }
  }

  // ----- Reading -----

  lemma ShortOf(data: seq<byte>, low: byte, high: byte)
    requires |data| >= 3 && low == data[1] && high == data[2]
    ensures Value(data[1..3]) == low + 256 * (high as int)
  {
    var s := data[1..3];
    assert s[1..] == [high];
    OneByteSpelt(high);
  }

  /** `buf.getShort(1)`, as an unsigned number. */
  method StoredChecksum(buf: ByteBuffer) returns (sum: Option<nat>)
    requires buf.Valid()
    ensures sum == if buf.limit < 3 then None else Some(Value(buf.data[..][1..3]))
  {
    hide Value;
    var low := buf.GetAt(1);
    var high := buf.GetAt(2);
    if low == None || high == None {
      return None;
    }
    ShortOf(buf.data[..], low.value, high.value);
    return Some(low.value + 256 * (high.value as int));
  }

  /** The packet id and the size of the data section. */
  method GetPreamble(buf: ByteBuffer) returns (p: Option<Preamble>)
    requires buf.Valid() && buf.limit > 0
    ensures p == ReadPreamble(buf.data[..])
  {
    hide IntOf;
    var head := buf.data[0];
    var pidLen, dsLen := head % 4, head / 4 % 8;
    var pid := GetInt(buf.data, PACKET_HEADER_SIZE, pidLen);
    if pid == None {
      return None;
    }
    var ds := GetInt(buf.data, PACKET_HEADER_SIZE + pidLen, dsLen);
    if ds == None {
      return None;
    }
    return Some(Preamble(pid.value, ds.value, PACKET_HEADER_SIZE + pidLen + dsLen));
  }

  /** One turn of the record loop, up to the value. */
  method NextRecord(buf: ByteBuffer, pos: int, started: bool) returns (r: Record)
    requires buf.Valid()
    modifies buf`position
    ensures buf.Valid()
    ensures r == ReadRecord(buf.data[..], buf.limit, pos, started)
  {
    hide IntOf;
    hide Wrap32;
    hide Region;
    hide ReadAttribute;
    var flags := buf.GetAt(pos);
    if flags == None {
      return Fault(OutOfBounds);
    }
    var numLen, kindLen := flags.value % 8, flags.value / 8 % 8;
    if Wrap32(pos + 1 + numLen + kindLen) > buf.limit {
      return Stop;
    }
    var num := GetInt(buf.data, pos + 1, numLen);
    if num == None {
      return Fault(OutOfBounds);
    }
    var kind := GetInt(buf.data, pos + 1 + numLen, kindLen);
    if kind == None {
      return Fault(OutOfBounds);
    }
    var next := pos + 1 + numLen + kindLen;
    if flags.value / 64 % 2 == 0 {
      return EntityRecord(num.value, kind.value, next);
    }
    if !started {
      return Stop;
    }
    r := NextAttribute(buf, next, flags.value / 128 % 2 == 1, DualKey(num.value, kind.value));
  }

  method NextAttribute(buf: ByteBuffer, pos: nat, oneByte: bool, key: DualKey) returns (r: Record)
    requires buf.Valid()
    modifies buf`position
    ensures buf.Valid()
    ensures r == ReadAttribute(buf.data[..], buf.limit, pos, oneByte, key)
  {
    hide IntOf;
    hide Wrap32;
    hide Region;
    hide ReadValue;
    hide TypeOf;
    if Wrap32(pos + 2) > buf.limit {
      return Stop;
    }
    var vt := buf.GetAt(pos);
    if vt == None {
      return Fault(OutOfBounds);
    }
    if vt.value > B.Ordinal() {
      return Fault(BadValueType);
    }
    var n := buf.GetAt(pos + 1);
    if n == None {
      return Fault(OutOfBounds);
    }
    var start, len := pos + 2, n.value as int32;
    if !oneByte {
      if Wrap32(start + n.value) > buf.limit {
        return Stop;
      }
      var long := GetInt(buf.data, start, n.value);
      if long == None {
        return Fault(OutOfBounds);
      }
      start, len := start + n.value, long.value;
    }
    var next := Wrap32(start + len);
    if next > buf.limit {
      r := Stop;
    } else {
      var value := NextValue(buf, start, len, TypeOf(vt.value));
      r := match value
        case Thrown(f) => Fault(f)
        case Done(v) => AttributeRecord(key, v, next);
    }
  }

  /** The branches for integers: read, narrow and store. */
  method NextInteger(buf: ByteBuffer, pos: nat, len: int32, t: ValueType) returns (v: Outcome<AttributeValue>)
    requires t.IsInteger()
    ensures match Region(buf.data[..], pos, len)
      case None => v == Thrown(OutOfBounds)
      case Some(bs) => ReadInteger(t, bs).Exists() && v == Done(SetValue(ReadInteger(t, bs)))
  {
    hide OrWord;
    hide SetValue;
    hide Pow256;
    ghost var region := Region(buf.data[..], pos, len);
    if region.Some? {
      ReadIntegerExists(t, region.value);
    }
    if t == I64 {
      var n := GetLong(buf.data, pos, len);
      if n == None {
        return Thrown(OutOfBounds);
      }
      return Done(SetValue(JLong(n.value)));
    }
    var n := GetInt(buf.data, pos, len);
    if n == None {
      return Thrown(OutOfBounds);
    }
    if t == I8 {
      v := Done(SetValue(JByte(Narrowed(n.value, 1))));
    } else if t == I16 {
      v := Done(SetValue(JShort(Narrowed(n.value, 2))));
    } else {
      v := Done(SetValue(JInteger(n.value)));
    }
  }

  /** The switch over the value type. */
  method NextValue(buf: ByteBuffer, pos: nat, len: int32, t: ValueType) returns (v: Outcome<AttributeValue>)
    requires buf.Valid()
    modifies buf`position
    ensures buf.Valid()
    ensures v == ReadValue(buf.data[..], buf.limit, pos, len, t)
  {
    hide Value;
    hide SetValue;
    hide ReadInteger;
    hide Pow256;
    ghost var data := buf.data[..];
    match t {
      case F4 =>
        if pos + 4 > buf.limit {
          return Thrown(OutOfBounds);
        }
        var bits := buf.data[pos..pos + 4];
        assert bits == data[pos..pos + 4];
        ValueBound(bits);
        return Done(SetValue(JFloat(Value(bits))));
      case F8 =>
        if pos + 8 > buf.limit {
          return Thrown(OutOfBounds);
        }
        var bits := buf.data[pos..pos + 8];
        assert bits == data[pos..pos + 8];
        ValueBound(bits);
        return Done(SetValue(JDouble(Value(bits))));
      case S =>
        if len < 0 || pos + len > buf.data.Length {
          return Thrown(OutOfBounds);
        }
        assert buf.data[pos..pos + len] == data[pos..pos + len];
        return Done(SetValue(JString(buf.data[pos..pos + len])));
      case B =>
        if len < 0 {
          return Thrown(NegativeLength);
        }
        var ok := buf.SetPosition(pos);
        if !ok {
          return Thrown(Underflow);
        }
        var bs := buf.GetBulk(len);
        if bs == None {
          return Thrown(Underflow);
        }
        assert bs.value == data[pos..pos + len];
        return Done(SetValue(JBuffer(bs.value)));
      case _ =>
        v := NextInteger(buf, pos, len, t);
    }
  }

  // ----- The task -----

  class EavTask {
    var packetID: int32
    var command: Command
    var entities: seq<EntityM>
    var requestData: ByteBuffer

    constructor (ids: PacketIds)
      requires ids.Valid()
      modifies ids
      ensures ids.Valid() && ids.calls == old(ids.calls) + 1
      ensures packetID == IdAt(old(ids.calls)) && command == 0 && entities == []
      ensures fresh(requestData) && fresh(requestData.data) && requestData.Valid()
    {
      var id := ids.GetIncrementId();
      var empty := new ByteBuffer.Allocate(0);
      packetID := id;
      command := 0;
      entities := [];
      requestData := empty;
    }

    ghost function View(): Task
      reads this, entities
    {
      Task(packetID, command, Views(entities))
    }

    /** `createFromArray`: rebuilds the task `Decode` speaks of. */
    static method CreateFromArray(buf: ByteBuffer, ids: PacketIds) returns (r: Outcome<EavTask>)
      requires buf.Valid() && ids.Valid()
      modifies buf`position, ids
      ensures buf.Valid() && ids.Valid()
      ensures ids.calls == old(ids.calls) + (if buf.limit < 3 then 0 else 1)
      ensures r.Thrown? ==> Decode(buf.data[..], buf.limit) == Thrown(r.fault)
      ensures r.Endless? ==> Decode(buf.data[..], buf.limit) == Endless
      ensures r.Done? ==> fresh(r.result) && Decode(buf.data[..], buf.limit) == Done(r.result.View())
    {
      hide ReadPreamble;
      hide ChecksumOfRange;
      hide DecodeRecords;
      hide Value;
      hide Wrap32;
      hide Views;
      var sum := StoredChecksum(buf);
      if sum == None {
        return Thrown(OutOfBounds);
      }
      var task := new EavTask(ids);
      var ordinal := buf.GetAt(3);
      if ordinal == None || ordinal.value >= 11 {
        return Thrown(OutOfBounds);
      }
      var preamble := GetPreamble(buf);
      if preamble == None {
        return Thrown(OutOfBounds);
      }
      var p := preamble.value;
      task.command := ordinal.value;
      task.packetID := p.pid;
      var crc2 := Crc16.Crc16(buf, p.start, if p.ds > CRC_LIMIT then CRC_LIMIT else p.ds);
      if crc2 == None {
        return Thrown(Underflow);
      }
      if sum.value != crc2.value {
        return Thrown(BadChecksum);
      }
      var done := task.ReadEntities(buf, p.start, Wrap32(p.start + p.ds));
      match done {
        case Done(_) => return Done(task);
        case Thrown(f) => return Thrown(f);
        case Endless => return Endless;
      }
    }

    /** The record loop of `createFromArray`. That it stops after so many turns is not the source's: it
        would go on for ever. */
    method ReadEntities(buf: ByteBuffer, start: nat, size: int32) returns (done: Outcome<()>)
      requires buf.Valid() && entities == []
      modifies this`entities, buf`position
      ensures buf.Valid() && fresh(entities)
      ensures match DecodeRecords(buf.data[..], buf.limit, start, size, [])
        case Done(es) => done == Done(()) && Views(entities) == es
        case Thrown(f) => done == Thrown(f)
        case Endless => done == Endless
    {
      hide ReadRecord;
      hide Put;
      hide Wrap32;
      hide PutLast;
      hide Views;
      ghost var data := buf.data[..];
      var pos: int := start;
      var turns := 0;
      var e: EntityM? := null;
      ghost var views: seq<Entity> := [];
      ghost var outcome := DecodeRecords(data, buf.limit, start, size, []);
      while Wrap32(pos + EAV_HEADER_SIZE) <= size
        invariant buf.Valid() && fresh(entities) && buf.data[..] == data
        invariant |views| == |entities| && forall i :: 0 <= i < |entities| ==> views[i] == entities[i].View()
        invariant forall i, j :: 0 <= i < j < |entities| ==> entities[i] != entities[j]
        invariant if entities == [] then e == null else e == entities[|entities| - 1]
        invariant 0 <= turns <= EnoughTurns(buf.limit)
        invariant DecodeTurns(data, buf.limit, pos, size, views, EnoughTurns(buf.limit) - turns) == outcome
        decreases EnoughTurns(buf.limit) - turns
      {
        if turns == EnoughTurns(buf.limit) {
          return Endless;
        }
        turns := turns + 1;
        var record := NextRecord(buf, pos, e != null);
        match record {
          case EntityRecord(num, kind, next) =>
            e := new EntityM(num, kind);
            entities := entities + [e];
            views := views + [Entity(num, kind, [])];
            pos := next;
          case AttributeRecord(key, value, next) =>
            PutLastAt(views, key, value);
            e.PutAttribute(key, value);
            views := PutLast(views, key, value);
            pos := next;
          case Stop =>
            assert Views(entities) == views;
            return Done(());
          case Fault(f) =>
            return Thrown(f);
        }
      }
      assert Views(entities) == views;
      done := Done(());
    }

    /** Succeeds exactly when the packet fits an int, and then has written all of it: both passes
        agree on every byte. */
    method SetRequestData(es: seq<EntityL>) returns (ok: bool)
      requires ValidEntities(es)
      modifies this`requestData
      ensures ok == Fits(packetID, es)
      ensures ok ==> fresh(requestData) && fresh(requestData.data) && requestData.Valid()
      ensures ok ==> requestData.limit == requestData.data.Length && requestData.position == 3
      ensures ok ==> requestData.data[..] == Packet(packetID, command, es)
    {
      hide Wrap32;
      hide DataSection;
      hide AllWires;
      hide ValidEntities;
      hide ByteLen;
      hide FirstByte;
      hide Packed;
      hide Framed;
      hide Checksum;
      hide LittleEndian;
      ghost var d := DataSection(es);
      var pidLen := BytesOf(packetID);
      var ds, list := Measure(es);
      var dsLen := BytesOf(ds);
      var size := Wrap32(PACKET_HEADER_SIZE + pidLen + dsLen + ds);
      SizesWrapped(|d|, pidLen, ds, dsLen, size);
      if size < 0 {
        return false;
      }
      var buf := new ByteBuffer.Allocate(size);
      requestData := buf;
      ok := PutHeader(buf, packetID, ds, command);
      if !ok { return; }
      ghost var header, start := buf.data[..PACKET_HEADER_SIZE], buf.position;
      assert buf.data[..start] == header + (Packed(packetID) + Packed(ds));
      ok := PutEntities(buf, es, list);
      if !ok { return; }
      assert buf.data[..] == header + (Packed(packetID) + Packed(ds)) + d && buf.data[start..] == d;
      ok := PutChecksum(buf, PACKET_HEADER_SIZE + pidLen + dsLen, ds);
      Assembled(packetID, command, d, header);
    }
  }

  lemma PutLastAt(views: seq<Entity>, key: DualKey, value: AttributeValue)
    requires views != []
    ensures var n, r := |views| - 1, PutLast(views, key, value);
      && |r| == |views| && r[..n] == views[..n]
      && r[n] == views[n].(attributes := Put(views[n].attributes, key, value))
  {
    hide Put;
  }

  /** When the sizes fit, nothing wraps; and what is written never exceeds a buffer that fits. */
  lemma SizesWrapped(n: nat, pidLen: nat, ds: int32, dsLen: nat, size: int32)
    requires ds == Wrap32(n) && dsLen == ByteLen(ds) && pidLen <= 4
    requires size == Wrap32(PACKET_HEADER_SIZE + pidLen + dsLen + ds)
    ensures var fits := n <= MAX_INT && PACKET_HEADER_SIZE + pidLen + dsLen + n <= MAX_INT;
      if fits then ds == n && size == PACKET_HEADER_SIZE + pidLen + dsLen + n
      else size < 0 || size < PACKET_HEADER_SIZE + pidLen + dsLen + n
  {
  }

  lemma Assembled(pid: int32, command: Command, d: seq<byte>, header: seq<byte>)
    requires |d| <= MAX_INT && |header| == PACKET_HEADER_SIZE
    requires header[0] == FirstByte(ByteLen(pid), ByteLen(|d|)) && header[3] == command
    ensures var data := header + (Packed(pid) + Packed(|d|)) + d;
      data[..1] + LittleEndian(Checksum(Covered(d)), 2) + data[3..] == Framed(pid, command, d)
  {
    hide Checksum;
    hide LittleEndian;
    hide FirstByte;
    hide Packed;
    var data := header + (Packed(pid) + Packed(|d|)) + d;
    assert data[..1] == [header[0]] && data[3..] == [header[3]] + (Packed(pid) + (Packed(|d|) + d));
  }
}
