/** When the round trip is exact, and what a damaged packet decodes to. */
module PacketTheorems {
  import opened Bytes
  import opened Bits
  import opened PacketInts
  import opened AttributeValues
  import opened AttributeMaps
  import opened CrcRegister
  import opened CrcDetection
  import opened CrcOrder
  import opened Crc16
  import opened PacketFormat
  import opened RecordLoop
  import opened RoundTrip

  // ----- Packet ids -----

  lemma OrOfFours(k: nat)
    ensures BitOr(4, 4 * k) % 4 == 0
  {
    if k > 0 {
      assert BitOr(4, 4 * k) == 2 * BitOr(2, 2 * k);
      assert BitOr(2, 2 * k) == 2 * BitOr(1, k);
    }
  }

  /** The first byte has two bits for the length of the id, so the decoder sees the id that was
      encoded exactly when it takes at most three bytes, and the packet is not too long. */
  lemma PacketIdSurvives(pid: int32, command: Command, es: seq<EntityL>)
    requires ValidEntities(es) && Fits(pid, es)
    ensures var packet := Packet(pid, command, es); var decoded := Decode(packet, |packet|);
      decoded.Done? && decoded.result.packetId == pid
      <==> 0 <= pid < 0x100_0000 && PacketSize(pid, |DataSection(es)|) < MAX_INT
  {
    hide DecodeRecords;
    hide Framed;
    hide DataSection;
    hide Arrived;
    var packet := Packet(pid, command, es);
    if 0 <= pid < 0x100_0000 {
      DecodeOfPacket(pid, command, es, [], |packet|);
      assert packet + [] == packet;
    } else {
      LongIdIsLost(pid, command, DataSection(es));
    }
  }

  lemma LongIdIsLost(pid: int32, command: Command, d: seq<byte>)
    requires |d| <= MAX_INT && !(0 <= pid < 0x100_0000)
    ensures var packet := Framed(pid, command, d); var decoded := Decode(packet, |packet|);
      decoded.Done? ==> decoded.result.packetId == 0 != pid
  {
    hide DecodeRecords;
    hide ChecksumOfRange;
    hide Value;
    hide IntOf;
    var packet := Framed(pid, command, d);
    OrOfFours(ByteLen(|d|));
    assert packet[0] == FirstByte(4, ByteLen(|d|));
    NothingReadIsZero();
    assert Region(packet, PACKET_HEADER_SIZE, 0) == Some([]);
  }

  lemma NothingReadIsZero()
    ensures IntOf([]) == 0
  {
  }

  // ----- Values -----

  /** The map with every value as it is after a trip. */
  function TravelledEntries(m: seq<Entry>): (r: seq<Entry>)
    ensures |r| == |m|
    ensures forall i :: 0 <= i < |m| ==> r[i] == Entry(m[i].key, Travelled(m[i].value))
  {
    if m == [] then [] else [Entry(m[0].key, Travelled(m[0].value))] + TravelledEntries(m[1..])
  }

  lemma {:induction false} PutTravels(m: seq<Entry>, k: DualKey, v: AttributeValue)
    ensures TravelledEntries(Put(m, k, v)) == Put(TravelledEntries(m), k, Travelled(v))
  {
    hide CompareTo;
    hide Travelled;
    if m != [] {
      PutTravels(m[1..], k, v);
      assert TravelledEntries(m)[1..] == TravelledEntries(m[1..]);
    }
  }

  /** Changing the values first and building the map, or building it first, is the same. */
  lemma {:induction false} PutAllTravels(m: seq<Entry>, attributes: seq<Attribute>)
    ensures TravelledEntries(PutAll(m, attributes)) == PutAll(TravelledEntries(m), TravelledAttributes(attributes))
    decreases |attributes|
  {
    hide Put;
    hide Travelled;
    if attributes != [] {
      var a, rest := attributes[0], attributes[1..];
      PutTravels(m, a.Key(), a.value);
      PutAllTravels(Put(m, a.Key(), a.value), rest);
      PutAllStep(TravelledEntries(m), attributes);
    }
  }

  /** No value that the map of an entity ends up with changes on the way: none is a float unless its
      bytes read the same backwards. Overridden attributes do not matter. */
  ghost predicate Sturdy(el: EntityL) {
    forall i :: 0 <= i < |CreateFrom(el).attributes| ==>
      var av := CreateFrom(el).attributes[i].value;
      && !av.valueType.F8?
      && (av.valueType.F4? ==> |av.value| == 4 && av.value[0] == av.value[3] && av.value[1] == av.value[2])
  }

  lemma {:induction false} PutAllValid(m: seq<Entry>, attributes: seq<Attribute>)
    requires AllValid(attributes) && forall i :: 0 <= i < |m| ==> m[i].value.Valid()
    ensures forall i :: 0 <= i < |PutAll(m, attributes)| ==> PutAll(m, attributes)[i].value.Valid()
    decreases |attributes|
  {
    if attributes != [] {
      hide CompareTo;
      var a, rest := attributes[0], attributes[1..];
      assert a in attributes && forall x :: x in rest ==> x in attributes;
      PutValid(m, a.Key(), a.value);
      PutAllValid(Put(m, a.Key(), a.value), rest);
    }
  }

  lemma {:induction false} PutValid(m: seq<Entry>, k: DualKey, v: AttributeValue)
    requires v.Valid() && forall i :: 0 <= i < |m| ==> m[i].value.Valid()
    ensures forall i :: 0 <= i < |Put(m, k, v)| ==> Put(m, k, v)[i].value.Valid()
  {
    hide CompareTo;
    if m != [] {
      PutValid(m[1..], k, v);
    }
  }

  /** No attribute of the list changes on the way. */
  ghost predicate SturdyList(el: EntityL) {
    forall a :: a in el.attributes ==> Travelled(a.value) == a.value
  }

  lemma SturdyListArrives(el: EntityL)
    requires SturdyList(el)
    ensures CreateFrom(TravelledEntity(el)) == CreateFrom(el)
  {
    hide Travelled;
    hide PutAll;
    forall i | 0 <= i < |el.attributes|
      ensures TravelledAttributes(el.attributes)[i] == el.attributes[i]
    {
      assert el.attributes[i] in el.attributes;
    }
    assert TravelledAttributes(el.attributes) == el.attributes;
  }

  /** An entity arrives unchanged if no attribute of the list changes; and on keys that may be compared
      exactly if no value of its map does. */
  lemma SturdyArrives(el: EntityL)
    requires el.Valid()
    ensures SturdyList(el) ==> CreateFrom(TravelledEntity(el)) == CreateFrom(el)
    ensures AllComparable(KeysOf(el.attributes)) ==>
      (CreateFrom(TravelledEntity(el)) == CreateFrom(el) <==> Sturdy(el))
  {
    hide Travelled;
    hide Put;
    if SturdyList(el) {
      SturdyListArrives(el);
    }
    var m := CreateFrom(el).attributes;
    PutAllTravels([], el.attributes);
    PutAllValid([], el.attributes);
    assert CreateFrom(TravelledEntity(el)).attributes == TravelledEntries(m);
    forall i | 0 <= i < |m|
      ensures m[i].value.Valid() && (Travelled(m[i].value) == m[i].value <==>
        !m[i].value.valueType.F8? && (m[i].value.valueType.F4? ==>
          m[i].value.value[0] == m[i].value.value[3] && m[i].value.value[1] == m[i].value.value[2]))
    {
      TravelledSame(m[i].value);
    }
    if Sturdy(el) {
      assert forall i :: 0 <= i < |m| ==> TravelledEntries(m)[i] == m[i];
    }
    if CreateFrom(TravelledEntity(el)) == CreateFrom(el) {
      assert forall i :: 0 <= i < |m| ==> TravelledEntries(m)[i] == m[i];
    }
  }

  /** The keys of every entity may be compared with each other, so that its map is the one given by
      `EntityMapIsLastWins`. */
  ghost predicate KeysComparable(es: seq<EntityL>) {
    forall e :: e in es ==> AllComparable(KeysOf(e.attributes))
  }

  /** The commuting diagram: decoding the encoding gives the id, the command and `createFrom` of every
      entity. It holds, whatever order the maps impose on their keys, if no attribute changes on the
      way, the id takes at most three bytes and the packet is not of the full 2^31 - 1 bytes; and the
      last two are necessary. On keys that may be compared, all that is needed of the attributes is
      that no map holds a float that reads differently backwards. */
  lemma RoundTripExactly(pid: int32, command: Command, es: seq<EntityL>)
    requires ValidEntities(es) && Fits(pid, es)
    ensures var travels := 0 <= pid < 0x100_0000 && PacketSize(pid, |DataSection(es)|) < MAX_INT;
      && (travels && (forall e :: e in es ==> SturdyList(e)) ==> CommutesFor(pid, command, es))
      && (CommutesFor(pid, command, es) ==> travels)
      && (KeysComparable(es) ==> (CommutesFor(pid, command, es) <==> travels && forall e :: e in es ==> Sturdy(e)))
  {
    hide Framed;
    hide Decode;
    hide DataSection;
    hide Sturdy;
    hide SturdyList;
    hide CreateFrom;
    hide TravelledEntity;
    var packet := Packet(pid, command, es);
    PacketIdSurvives(pid, command, es);
    if 0 <= pid < 0x100_0000 && PacketSize(pid, |DataSection(es)|) < MAX_INT {
      DecodeOfPacket(pid, command, es, [], |packet|);
      assert packet + [] == packet;
      forall i | 0 <= i < |es|
        ensures es[i] in es && (KeysComparable(es) ==> (Arrived(es)[i] == Created(es)[i] <==> Sturdy(es[i])))
        ensures SturdyList(es[i]) ==> Arrived(es)[i] == Created(es)[i]
      {
        assert es[i] in es;
        SturdyArrives(es[i]);
      }
      assert Arrived(es) == Created(es) <==> forall i :: 0 <= i < |es| ==> Arrived(es)[i] == Created(es)[i];
    }
  }

  /** `createFrom` of every entity. */
  function Created(es: seq<EntityL>): (r: seq<Entity>)
    ensures |r| == |es|
    ensures forall i :: 0 <= i < |es| ==> r[i] == CreateFrom(es[i])
  {
    if es == [] then [] else [CreateFrom(es[0])] + Created(es[1..])
  }

  ghost predicate CommutesFor(pid: int32, command: Command, es: seq<EntityL>)
    requires ValidEntities(es) && Fits(pid, es)
  {
    var packet := Packet(pid, command, es);
    Decode(packet, |packet|) == Done(Task(pid, command, Created(es)))
  }

  /** A packet of the full 2^31 - 1 bytes, which the encoder accepts and the decoder does not. */
  lemma LongestPacket(command: Command)
    ensures var es := [EntityL(0, 0, [Attribute(0, 0, AttributeValue(B, seq(MAX_INT - 17, _ => 0)))])];
      && ValidEntities(es) && Fits(1, es)
      && var packet := Packet(1, command, es);
        |packet| == MAX_INT && Decode(packet, |packet|) == Thrown(OutOfBounds)
  {
    hide Decode;
    hide Framed;
    var a := Attribute(0, 0, AttributeValue(B, seq(MAX_INT - 17, _ => 0)));
    var e := EntityL(0, 0, [a]);
    LongestAttribute(a);
    assert e.attributes[1..] == [] && AttributesBytes([]) == [];
    assert AttributesBytes(e.attributes) == AttributeBytes(a) + AttributesBytes(e.attributes[1..]);
    assert |EntityBytes(e)| == MAX_INT - 9;
    assert [e][1..] == [] && DataSection([]) == [];
    assert DataSection([e]) == EntityBytes(e) + DataSection([e][1..]);
    var packet := Packet(1, command, [e]);
    DecodeOfPacket(1, command, [e], [], |packet|);
    assert packet + [] == packet;
  }

  lemma LongestAttribute(a: Attribute)
    requires a.num == a.kind == 0 && a.value.valueType == B && |a.value.value| == MAX_INT - 17
    ensures a.value.Valid() && |AttributeBytes(a)| == MAX_INT - 10
  {
  }

  /** The float 1.0 comes back as 0x0000803F. */
  lemma FloatsAreReversed()
    ensures var el := EntityL(0, 0, [Attribute(0, 0, AttributeValue(F4, [0x3F, 0x80, 0, 0]))]);
      el.Valid() && !Sturdy(el)
      && CreateFrom(TravelledEntity(el)).attributes == [Entry(DualKey(0, 0), AttributeValue(F4, [0, 0, 0x80, 0x3F]))]
  {
    var av := AttributeValue(F4, [0x3F, 0x80, 0, 0]);
    var el := EntityL(0, 0, [Attribute(0, 0, av)]);
    var r := Reverse(av.value);
    assert r == [r[0], r[1], r[2], r[3]] == [0, 0, 0x80, 0x3F];
    assert TravelledAttributes(el.attributes) == [Attribute(0, 0, AttributeValue(F4, r))];
    assert PutAll([], el.attributes) == [Entry(DualKey(0, 0), av)];
    assert CreateFrom(el).attributes[0].value == av;
  }

  /** `createFrom` keeps number and type. On keys that may be compared, the map is sorted, and holds for
      every number and type of the list the value of the last attribute with them. */
  lemma EntityMapIsLastWins(el: EntityL, i: nat)
    requires AllComparable(KeysOf(el.attributes)) && i < |el.attributes|
    requires forall j :: i < j < |el.attributes| ==> el.attributes[j].Key() != el.attributes[i].Key()
    ensures CreateFrom(el).num == el.num && CreateFrom(el).kind == el.kind
    ensures var m := CreateFrom(el).attributes; var k := DualKey(el.attributes[i].num, el.attributes[i].kind);
      Sorted(m) && k in Content(m) && Content(m)[k] == el.attributes[i].value
  {
    assert Content([]).Keys + KeysOf(el.attributes) == KeysOf(el.attributes);
    PutAllLastWins([], el.attributes);
    LastValueWins(map[], el.attributes, i);
  }

  // ----- Damage -----

  /** The part of a data section that the checksum covers: its first 65535 bytes. */
  function Front(d: seq<byte>): seq<byte> {
    if |d| <= 65535 then d else d[..65535]
  }

  /** The bytes of the checksum are those of the front, and nothing in front of the data section depends
      on what is behind that. */
  lemma FrontIsCovered(pid: int32, command: Command, d: seq<byte>, d': seq<byte>)
    requires |d| == |d'| <= MAX_INT && Front(d) == Front(d')
    ensures var start := PacketSize(pid, |d|) - |d|;
      && Framed(pid, command, d)[1..3] == LittleEndian(Checksum(Front(d)), 2)
      && Framed(pid, command, d')[..start] == Framed(pid, command, d)[..start]
  {
    hide Checksum;
    hide LittleEndian;
    hide FirstByte;
    hide Packed;
    var front, sum := [FirstByte(ByteLen(pid), ByteLen(|d|))], LittleEndian(Checksum(Front(d)), 2);
    var head := front + sum + ([command] + (Packed(pid) + Packed(|d|)));
    assert Covered(d) == Front(d) == Covered(d');
    assert Framed(pid, command, d) == head + d && Framed(pid, command, d') == head + d';
    assert head[1..3] == sum;
  }

  /** The data sections differ within their first 65535 bytes, by a burst of at most sixteen bits, in an odd
      number of bits, or in two bits that are not a multiple of 32767 apart. */
  ghost predicate Damaged(d: seq<byte>, d': seq<byte>) {
    && |d| == |d'|
    && var a, b := Front(d), Front(d');
      || (a != b && exists from: nat :: DifferInWindow(BitsOf(a), BitsOf(b), from))
      || Distance(BitsOf(a), BitsOf(b)) % 2 == 1
      || exists i: nat, j: nat :: TwoBitsOff(a, b, i, j)
  }

  ghost predicate TwoBitsOff(a: seq<byte>, b: seq<byte>, i: nat, j: nat)
    requires |a| == |b|
  {
    i < j < 8 * |a| && DifferAt(BitsOf(a), BitsOf(b), i, j) && (j - i) % PERIOD != 0
  }

  /** A packet whose data section was damaged that way on the wire is rejected, whatever the damaged
      bytes would mean. */
  lemma DamageIsRejected(pid: int32, command: Command, d: seq<byte>, d': seq<byte>, rest: seq<byte>, limit: nat)
    requires |d| <= MAX_INT && 0 <= pid < 0x100_0000 && Damaged(d, d')
    requires PacketSize(pid, |d|) <= limit <= PacketSize(pid, |d|) + |rest| && limit <= MAX_INT
    ensures var start := PACKET_HEADER_SIZE + ByteLen(pid) + ByteLen(|d|);
      Decode(Framed(pid, command, d)[..start] + d' + rest, limit) == Thrown(BadChecksum)
  {
    hide Checksum;
    hide ChecksumOfRange;
    hide DecodeRecords;
    hide LittleEndian;
    hide Value;
    hide ReadPreamble;
    hide Framed;
    hide ByteLen;
    hide Packed;
    hide FirstByte;
    hide Damaged;
    var start := PACKET_HEADER_SIZE + ByteLen(pid) + ByteLen(|d|);
    var packet := Framed(pid, command, d);
    var head := packet[..start];
    var data := head + d' + rest;
    assert packet + [] == packet;
    AtFront(packet, []);
    FramedLayout(packet, pid, command, d);
    assert packet == head + packet[start..] && data == head + (d' + rest);
    SameFront(head, packet[start..], d' + rest);
    ReadPreambleBack(data, pid, |d|);
    SameLength(d, d');
    assert data[start..start + |d'|] == d';
    ChecksumPasses(data, limit, start, d');
    ChecksumsDiffer(d, d');
    Powers();
    ValueOfLittleEndian(Checksum(Covered(d)), 2);
  }

  lemma SameLength(d: seq<byte>, d': seq<byte>)
    requires Damaged(d, d')
    ensures |d| == |d'|
  {
  }

  /** What stands within a common front is common. */
  lemma SameFront(head: seq<byte>, rest: seq<byte>, rest': seq<byte>)
    ensures forall i, j :: 0 <= i <= j <= |head| ==> (head + rest)[i..j] == head[i..j] == (head + rest')[i..j]
    ensures forall i :: 0 <= i < |head| ==> (head + rest)[i] == head[i] == (head + rest')[i]
  {
  }

  lemma ChecksumsDiffer(d: seq<byte>, d': seq<byte>)
    requires Damaged(d, d')
    ensures Checksum(Covered(d)) != Checksum(Covered(d'))
  {
    hide Checksum;
    hide BitsOf;
    var a, b := Front(d), Front(d');
    assert Covered(d) == a && Covered(d') == b;
    if Distance(BitsOf(a), BitsOf(b)) % 2 == 1 {
      ChecksumDetectsOddErrors(a, b);
    } else if i: nat, j: nat :| TwoBitsOff(a, b, i, j) {
      ChecksumDetectsTwoBitErrors(a, b, i, j);
    } else {
      var from: nat :| DifferInWindow(BitsOf(a), BitsOf(b), from);
      ChecksumDetectsBursts(a, b, from);
    }
  }

  // ----- Where the cursor runs backwards -----

  /** The value is read, and the cursor then moves to a place before it: a negative length makes every
      integer 0, and floats do not look at their length. */
  predicate RunsBack(limit: nat, pos: nat, len: int32, t: ValueType) {
    || (t.IsInteger() && len < 0)
    || (t.F4? && pos + 4 <= limit && (len < 0 || pos + len > MAX_INT))
    || (t.F8? && pos + 8 <= limit && (len < 0 || pos + len > MAX_INT))
  }

  /** Once type and length are known, the cursor moves backwards exactly in those cases; in all others
      it stops right behind the value, which lies in the buffer, or the loop ends. */
  lemma SizedRunsBack(data: seq<byte>, limit: nat, pos: nat, len: int32, t: ValueType, key: DualKey)
    requires limit <= |data| <= MAX_INT && pos <= limit
    ensures var r := ReadSized(data, limit, pos, len, t, key);
      && (r.AttributeRecord? && r.next < pos <==> RunsBack(limit, pos, len, t))
      && (r.AttributeRecord? && r.next >= pos ==> r.next == pos + len <= limit)
      && (limit < pos + len <= MAX_INT ==> r.Stop?)
  {
    hide SetValue;
    hide Value;
    hide IntOf;
    hide LongOf;
  }

  /** Where the value of an attribute is, how long it is said to be, and of what type. */
  datatype Extent = Extent(pos: nat, len: int32, valueType: ValueType, key: DualKey)

  /** That of the attribute at `pos`, if there is one and its header can be read. */
  function ExtentAt(data: seq<byte>, limit: nat, pos: int): (e: Option<Extent>)
    requires limit <= |data|
    ensures e.Some? ==> pos < e.value.pos
  {
    if pos < 0 || pos >= limit then None
    else
      match ReadHead(data, limit, pos)
      case Done(Some(h)) =>
        if h.flags / 64 % 2 == 0 || h.next + 2 > limit || data[h.next] > B.Ordinal() then None
        else
          var t, n, key := TypeOf(data[h.next]), data[h.next + 1], DualKey(h.num, h.kind);
          if h.flags / 128 % 2 == 1 then Some(Extent(h.next + 2, n, t, key))
          else if h.next + 2 + n > limit then None
          else
            (match ReadInt(data, h.next + 2, n)
             case Some(len) => Some(Extent(h.next + 2 + n, len, t, key))
             case None => None)
      case _ => None
  }

  lemma RecordAtExtent(data: seq<byte>, limit: nat, pos: int)
    requires limit <= |data| <= MAX_INT
    ensures match ExtentAt(data, limit, pos)
      case Some(e) =>
        && e.pos <= limit
        && ReadRecord(data, limit, pos, true) == ReadSized(data, limit, e.pos, e.len, e.valueType, e.key)
      case None => !ReadRecord(data, limit, pos, true).AttributeRecord?
  {
    hide ReadSized;
    hide IntOf;
    hide TypeOf;
  }

  function ValueStart(data: seq<byte>, limit: nat, pos: int): int
    requires limit <= |data|
  {
    match ExtentAt(data, limit, pos) case Some(e) => e.pos case None => pos
  }

  /** The record at `pos` lets the cursor run backwards. */
  predicate RecordRunsBack(data: seq<byte>, limit: nat, pos: int)
    requires limit <= |data|
  {
    match ExtentAt(data, limit, pos)
    case Some(e) => RunsBack(limit, e.pos, e.len, e.valueType)
    case None => false
  }

  /** A record from which the cursor does not run backwards takes it forwards. */
  lemma ForwardExactly(data: seq<byte>, limit: nat, pos: int)
    requires limit <= |data| <= MAX_INT
    ensures var r := ReadRecord(data, limit, pos, true);
      RecordRunsBack(data, limit, pos) <==> r.AttributeRecord? && r.next < ValueStart(data, limit, pos)
    ensures !RecordRunsBack(data, limit, pos) && Next(data, limit, pos, true).Some? ==>
      pos < Next(data, limit, pos, true).value
  {
    hide ReadRecord;
    hide ReadSized;
    hide ExtentAt;
    hide RunsBack;
    RecordAtExtent(data, limit, pos);
    match ExtentAt(data, limit, pos) {
      case Some(e) => SizedRunsBack(data, limit, e.pos, e.len, e.valueType, e.key);
      case None =>
    }
  }

  lemma {:induction false} ForwardReach(data: seq<byte>, limit: nat, pos: int, size: int32, started: bool, n: nat)
    requires limit <= |data| <= MAX_INT && GoesOn(data, limit, pos, size, started, n)
    requires forall k: nat :: k < n && GoesOn(data, limit, pos, size, started, k) ==>
      !RecordRunsBack(data, limit, Reached(data, limit, pos, size, started, k))
    ensures Reached(data, limit, pos, size, started, n) >= pos + n
  {
    hide RecordRunsBack;
    hide Next;
    if n > 0 {
      GoesOnPrefix(data, limit, pos, size, started, n - 1, n);
      var there := Reached(data, limit, pos, size, started, n - 1);
      GoesOnSplit(data, limit, pos, size, started, n - 1, 1, there, n);
      ForwardReach(data, limit, pos, size, started, n - 1);
      NextIsForward(data, limit, there, started || n > 1);
      var next := Next(data, limit, there, started || n > 1).value;
      assert GoesOn(data, limit, next, size, true, 0) && Reached(data, limit, next, size, true, 0) == next;
    }
  }

  lemma NextIsForward(data: seq<byte>, limit: nat, pos: int, started: bool)
    requires limit <= |data| <= MAX_INT && !RecordRunsBack(data, limit, pos)
    ensures Next(data, limit, pos, started).Some? ==> pos < Next(data, limit, pos, started).value
  {
    ForwardExactly(data, limit, pos);
    hide RecordRunsBack;
    hide ReadAttribute;
    hide ReadHead;
    hide IntOf;
  }

  /** From no record it visits does the cursor run backwards. */
  ghost predicate OnlyForwards(data: seq<byte>, limit: nat, pos: int, size: int32, started: bool)
    requires limit <= |data|
  {
    forall n: nat :: GoesOn(data, limit, pos, size, started, n) ==>
      !RecordRunsBack(data, limit, Reached(data, limit, pos, size, started, n))
  }

  /** On arbitrary bytes, the loop ends if the cursor does not run backwards from any record it visits:
      it then moves towards the end of the data section in every turn. */
  lemma ForwardLoopsEnd(data: seq<byte>, limit: nat, pos: int, size: int32, entities: seq<Entity>)
    requires limit <= |data| <= MAX_INT
    requires OnlyForwards(data, limit, pos, size, entities != [])
    ensures DecodeRecords(data, limit, pos, size, entities) != Endless
  {
    hide DecodeTurns;
    hide GoesOn;
    hide Reached;
    hide RecordRunsBack;
    var enough, started := EnoughTurns(limit), entities != [];
    EndlessGoesOn(data, limit, pos, size, entities, enough);
    if GoesOn(data, limit, pos, size, started, enough) {
      ReachedInside(data, limit, pos, size, started, enough, 0);
      ReachedInside(data, limit, pos, size, started, enough, enough - 1);
      ReachedAtOnce(data, limit, pos, size, started);
      ForwardReach(data, limit, pos, size, started, enough - 1);
    }
  }

  lemma ReachedAtOnce(data: seq<byte>, limit: nat, pos: int, size: int32, started: bool)
    requires limit <= |data| && GoesOn(data, limit, pos, size, started, 0)
    ensures Reached(data, limit, pos, size, started, 0) == pos
  {
  }

  /** Decoding never comes to an end exactly if preamble and checksum are in order and the record loop
      brings the cursor back to where it was. */
  lemma DecodeEndlessExactly(data: seq<byte>, limit: nat)
    requires limit <= |data|
    ensures Decode(data, limit) == Endless <==>
      && PACKET_HEADER_SIZE <= limit && data[3] < 11 && ReadPreamble(data).Some?
      && var p := ReadPreamble(data).value;
        && ChecksumOfRange(data, limit, p.start, if p.ds > CRC_LIMIT then CRC_LIMIT else p.ds)
           == Some(Value(data[1..3]))
        && Circles(data, limit, p.start, Wrap32(p.start + p.ds), false)
  {
    hide DecodeRecords;
    hide ReadPreamble;
    hide ChecksumOfRange;
    hide Value;
    hide Wrap32;
    hide Circles;
    if limit >= PACKET_HEADER_SIZE {
      match ReadPreamble(data) {
        case Some(p) => EndlessExactly(data, limit, p.start, Wrap32(p.start + p.ds), []);
        case None =>
      }
    }
  }

  // ----- A packet that is never decoded -----

  /** An entity, and an attribute of type i8 whose extended length is -7. */
  const CIRCULAR: seq<byte> := [0, 0x40, 0, 4, 0xF9, 0xFF, 0xFF, 0xFF]

  lemma MinusSeven(bs: seq<byte>)
    requires bs == [0xF9, 0xFF, 0xFF, 0xFF]
    ensures IntOf(bs) == -7
  {
    Powers();
    OrWordIsValue(bs, 4);
    var a, b, c := bs[1..], bs[2..], bs[3..];
    OneByteSpelt(0xFF);
    assert c == [0xFF] && b[1..] == c && a[1..] == b;
    assert Value(b) == 0xFFFF && Value(a) == 0xFF_FFFF && Value(bs) == 0xFFFF_FFF9;
  }

  /** After the attribute the cursor is back at its header. */
  lemma CircularRecord(data: seq<byte>, limit: nat, pos: nat)
    requires At(data, pos, CIRCULAR) && pos + |CIRCULAR| <= limit <= |data| <= MAX_INT
    ensures ReadRecord(data, limit, pos, false) == EntityRecord(0, 0, pos + 1)
    ensures ReadRecord(data, limit, pos + 1, true) == AttributeRecord(DualKey(0, 0), SetValue(JByte(0)), pos + 1)
  {
    hide IntOf;
    hide SetValue;
    hide ReadHead;
    hide ReadAttribute;
    hide At;
    assert CIRCULAR == [0] + CIRCULAR[1..] && CIRCULAR[1..] == [0x40] + CIRCULAR[2..];
    AtSplit(data, pos, [0], CIRCULAR[1..]);
    AtSplit(data, pos + 1, [0x40], CIRCULAR[2..]);
    assert [0] + (Packed(0) + Packed(0)) == [0] && [0x40] + (Packed(0) + Packed(0)) == [0x40];
    ReadHeadBack(data, limit, pos, 0, 0, 0, pos + 1);
    ReadHeadBack(data, limit, pos + 1, 0x40, 0, 0, pos + 2);
    CircularAttribute(data, limit, pos + 2);
  }

  lemma CircularAttribute(data: seq<byte>, limit: nat, pos: nat)
    requires At(data, pos, [0, 4, 0xF9, 0xFF, 0xFF, 0xFF]) && pos + 6 <= limit <= |data| <= MAX_INT
    ensures ReadAttribute(data, limit, pos, false, DualKey(0, 0))
         == AttributeRecord(DualKey(0, 0), SetValue(JByte(0)), pos - 1)
  {
    hide IntOf;
    hide SetValue;
    hide ReadInteger;
    var bytes := data[pos..pos + 6];
    assert data[pos] == bytes[0] && data[pos + 1] == bytes[1];
    assert data[pos + 2..pos + 6] == bytes[2..] == [0xF9, 0xFF, 0xFF, 0xFF];
    MinusSeven(data[pos + 2..pos + 6]);
    ReadsZero();
  }

  lemma ReadsZero()
    ensures ReadInteger(I8, []) == JByte(0)
  {
    NothingReadIsZero();
  }

  /** Such a packet passes the checksum, whatever its id and command, but the decoder never returns:
      the attribute is read again and again. */
  lemma NeverDecoded(pid: int32, command: Command)
    requires 0 <= pid < 0x100_0000
    ensures var packet := Framed(pid, command, CIRCULAR);
      var start, limit := PACKET_HEADER_SIZE + ByteLen(pid) + ByteLen(|CIRCULAR|), |packet|;
      && Next(packet, limit, start + 1, true) == Some(start + 1)
      && Decode(packet, limit) == Endless
      && NeverEnds(packet, limit, start, start + |CIRCULAR|, [])
  {
    hide ReadRecord;
    hide DecodeRecords;
    hide Decode;
    hide Framed;
    hide ByteLen;
    var d, packet := CIRCULAR, Framed(pid, command, CIRCULAR);
    var start, limit := PACKET_HEADER_SIZE + ByteLen(pid) + ByteLen(|d|), |packet|;
    AtFront(packet, []);
    assert packet + [] == packet;
    FramedLayout(packet, pid, command, d);
    DecodeOfFramed(packet, limit, pid, command, d);
    CircularRecord(packet, limit, start);
    CircularLoop(packet, limit, start, start + |d|);
  }

  lemma CircularLoop(data: seq<byte>, limit: nat, pos: nat, size: int32)
    requires limit <= |data| && pos + 1 < size
    requires ReadRecord(data, limit, pos, false).EntityRecord? && ReadRecord(data, limit, pos, false).next == pos + 1
    requires ReadRecord(data, limit, pos + 1, true).AttributeRecord?
    requires ReadRecord(data, limit, pos + 1, true).next == pos + 1
    ensures Next(data, limit, pos + 1, true) == Some(pos + 1)
    ensures DecodeRecords(data, limit, pos, size, []) == Endless
    ensures NeverEnds(data, limit, pos, size, [])
  {
    hide ReadRecord;
    hide DecodeTurns;
    var there := pos + 1;
    assert GoesOn(data, limit, there, size, true, 0);
    assert GoesOn(data, limit, there, size, true, 1);
    assert GoesOn(data, limit, pos, size, false, 2) && GoesOn(data, limit, pos, size, false, 1);
    assert Reached(data, limit, pos, size, false, 1) == Reached(data, limit, there, size, true, 0) == there;
    assert Reached(data, limit, pos, size, false, 2) == Reached(data, limit, there, size, true, 1) == there;
    assert Returns(data, limit, pos, size, false, 1, 2);
    EndlessExactly(data, limit, pos, size, []);
  }
}
