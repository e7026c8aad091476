# EAV message path: packets, checksum, reassembly, query pool

This project models the path a message takes through the system, and proves what each station
promises and what they promise together:

- **Packets** (`PacketInts`, `AttributeValues`, `AttributeMaps`, `PacketFormat`, `ByteBuffers`,
  `RecordLoop`, `EavTasks`, `RoundTrip`, `PacketTheorems`, `PacketBytes`). `EavTask` writes a list of entities in two
  passes: the first adds up the size of the data section and queues the trimmed value buffers, the
  second writes headers, variable-width integers and values. `createFromArray` parses such a packet, or
  any other bytes. `PacketFormat` says what the bytes are and what the parser makes of them,
  `RecordLoop` when the parser ends; the methods in `EavTasks` are proved against that; `RoundTrip` and
  `PacketTheorems` connect the two directions, and `PacketBytes` spells the format out in bytes.
- **Checksum** (`Bits`, `CrcRegister`, `CrcTable`, `CrcStep`, `CrcDivision`, `CrcDetection`, `CrcOrder`,
  `Crc16`).
  The table-driven loop of `EgtsCrc.crc16` is proved equal to a bit-serial register for
  x^16 + x^12 + x^5 + 1 (section 2 of ITU-T Recommendation V.41), the register to the remainder of a
  polynomial division, and the detection guarantees are derived from it.
- **Reassembly** (`Float32`, `Streams`, `ReceiveBuffer`, `Reassembly`, `MessagePath`, `LongIds`).
  `TCPServer::ConnectionProcessing` keeps a buffer whose capacity is computed in binary32 floating
  point. `ReceiveBuffer` is that buffer over an array; `Streams` is what it does to the byte stream;
  `Reassembly` shows that the frames delivered do not depend on how the stream was split;
  `MessagePath` puts encoder, stream and decoder together.
- **Query pool** (`QueryPool`, `PoolTurns`, `PoolTraces`, `DbClients`). `TAbstractDbClient` with its queue,
  connections, timeouts and the result callback that may submit again. `QueryPool` is the pool as a
  state machine with histories, `PoolTurns` what submissions and timer passes may do to it, and
  `PoolTraces` which steps a hook, a turn, a pass and an event are made of. Every change
  the methods of `DbClients.DbClient` make is a step of the machine, recorded in a ghost log that only
  grows, so what holds of every run holds of the pool between any two moments.

Java `int` arithmetic wraps where the source's does (`Bytes.Wrap32`). Bytes are kept unsigned. A call
that throws or fails returns a value that says so. Virtual hooks, the result callback and the frame
handler are arbitrary within the contracts named below.

## Results that differ from what one would expect

- The packet id survives only if it takes at most three bytes: the first byte has two bits for its
  length (`PacketTheorems.PacketIdSurvives`). The generator stays in 1..65534 (`EavTasks.IdsCycle`).
  With four-byte ids packets are not prefix-free either (`LongIds.LongIdsAreNotPrefixFree`).
- Damage to exactly two bits goes unnoticed if and only if they are a multiple of 32767 bits apart
  (`CrcOrder.ChecksumDetectsTwoBitErrors`), which the covered 65535 bytes leave room for.
- A float (`f4`) is stored big-endian and read little-endian; a `Double` is stored as the Integer 0,
  because its branch asks for `Float` a second time. The round trip holds exactly for maps without
  such values (`PacketTheorems.RoundTripExactly`, with the example `PacketTheorems.FloatsAreReversed`).
- A packet of exactly 2^31 - 1 bytes is encoded but not decoded: the record loop's test overflows
  (`RoundTrip.DecodeBehindLast`, `PacketTheorems.LongestPacket`).
- `createFromArray` does not always return. A negative length makes every integer 0 and moves the
  cursor backwards; a float ignores its length. Which records do that is `PacketTheorems.SizedRunsBack`;
  the loop runs for ever exactly when the cursor comes back to where it was
  (`RecordLoop.EndlessExactly`, `PacketTheorems.DecodeEndlessExactly`), as it does on the packet of
  `PacketTheorems.NeverDecoded`, which passes the checksum. If the cursor never runs backwards the loop
  ends (`PacketTheorems.ForwardLoopsEnd`).
- `DualKey.compareTo` has the right sign exactly when its difference fits an int; otherwise it is not
  even antisymmetric (`AttributeMaps.CompareToSign`, `AttributeMaps.CompareToOverflows`).
- The comment that `crc16` works up to 65535 bytes is too modest: it holds at every length
  (`CrcDivision.ChecksumIsRemainder`).
- The queue takes `max_queue_size + 1` queries, and a positive answer of `isFitInQueue(n)` makes the
  next n + 2 safe (`QueryPool.QueueOverfills`, `QueryPool.FittingQueriesAreAccepted`). How many are safe
  exactly depends on the idle connections as well (`QueryPool.RoomExactly`): with a full queue beside an
  idle connection the answer is no although the next query is accepted (`QueryPool.NoIsNotRejection`).
- If `CheckConnect` said no of a connection that it leaves READY with a query, another query could be
  lost with that connection (`QueryPool.RefusedWhileReady`), and only then
  (`QueryPool.GivingUpExactly`); the hooks must not do that.
- A query on a connection that is opened in a timer pass may be left overdue by that pass
  (`PoolTurns.OpenedMayBeOverdue`).
- The capacity of the receive buffer leaves 1024 bytes of room if and only if the conversion to float
  does not round the size down to a multiple of 1024 (`Float32.RoomExactly`); it always leaves 896
  (`Float32.CapacityHasRoom`), and sometimes no more (`Float32.RoomIsLess`). It is a 32-bit number only
  for sizes up to 2^32 - 1920 (`Float32.CapacityFits`).

## Model

| member | source | states |
|---|---|---|
| `CrcTable.EntryStep` | client/common/EgtsCrc.java:12-45 | Every entry of the table is one clock of the shift register on the entry of half its index, with the index's last bit |
| `CrcTable.XorWithGenerator` | client/common/EgtsCrc.java:12-45 | Adding the generator toggles bits 12, 5 and 0 and no other |
| `CrcStep.EntryIsRegister` | client/common/EgtsCrc.java:12-45 | Entry n of the table is the register after clocking the bits of n into zero |
| `CrcStep.ClockAhead` | client/common/EgtsCrc.java:53-54 | Data bits may be added to the register before they are clocked in |
| `CrcStep.EightClocks` | client/common/EgtsCrc.java:53-54 | Eight clocks on a register are its low byte moved up plus the entry for its high byte added to the data byte |
| `CrcStep.StepByteIsRegister` | client/common/EgtsCrc.java:47-56 | Whatever is in the upper half of the 32-bit accumulator, one turn of the loop is eight clocks on its low 16 bits |
| `Crc16.Crc16` | client/common/EgtsCrc.java:47-57 | The loop returns the bit-serial checksum of the range, or throws when the offset or the end lies beyond the limit |
| `CrcRegister.StepBitLinear` | client/common/EgtsCrc.java:53-54 | A clock distributes over sums of registers and data bits |
| `CrcRegister.Superposition` | client/common/EgtsCrc.java:51-55 | The register of a sum of two messages is the sum of their registers |
| `CrcDivision.RegisterDivides` | client/common/EgtsCrc.java:47-57 | Over any message the register holds a remainder of the preset dividend by the generator polynomial, and the quotient is constructed |
| `CrcDivision.RemaindersUnique` | client/common/EgtsCrc.java:47-57 | There is only one such remainder |
| `CrcDivision.ChecksumIsRemainder` | client/common/EgtsCrc.java:47-57 | At every length, a 16-bit number is the remainder if and only if it is the checksum |
| `CrcDetection.Backwards` | client/common/EgtsCrc.java:53-54 | A register that is zero after n clocks had zeros in its low 16 - n bits |
| `CrcDetection.BurstDetected` | client/common/EgtsCrc.java:51-55 | From any common start, bit strings that differ only within 16 consecutive bits lead to different registers |
| `CrcDetection.BitsInjective` | client/common/EgtsCrc.java:53 | Byte strings with the same bits are the same |
| `CrcDetection.ChecksumDetectsBursts` | client/common/EgtsCrc.java:47-57 | Byte strings of one length that differ only within 16 consecutive bits have different checksums, at any length and position |
| `CrcDetection.StepBitParity` | client/common/EgtsCrc.java:53-54 | A clock changes the parity of the register by exactly the data bit |
| `CrcDetection.RegisterParity` | client/common/EgtsCrc.java:51-55 | The register's parity is that of its start plus that of all bits consumed |
| `CrcDetection.ChecksumDetectsOddErrors` | client/common/EgtsCrc.java:47-57 | Any change of an odd number of bits changes the checksum |
| `CrcOrder.PowerSquared` | client/common/EgtsCrc.java:51-55 | The power of x with twice the exponent is the square of the power, which is a sum of known squares |
| `CrcOrder.ClockIsStep` | client/common/EgtsCrc.java:53-54 | A clock without data multiplies by x modulo the generator |
| `CrcOrder.PeriodExactly` | client/common/EgtsCrc.java:51-55 | The register is back after n clocks without data if and only if 32767 divides n |
| `CrcOrder.GeneratorReturns` | client/common/EgtsCrc.java:51-55 | What the first error bit leaves is back exactly when every register is |
| `CrcOrder.TwoBitsDetected` | client/common/EgtsCrc.java:51-55 | From any register, bit strings that differ in exactly two bits lead to the same register if and only if the bits are a multiple of 32767 apart |
| `CrcOrder.ChecksumDetectsTwoBitErrors` | client/common/EgtsCrc.java:47-57 | Damage to exactly two bits is noticed if and only if they are not a multiple of 32767 apart |
| `PacketInts.BytesOf` | client/client/EavTask.java:81-92 | The masking loop finds how many bytes an int takes, 4 for a negative one, 0 for zero |
| `PacketInts.ArrayOf` | client/client/EavTask.java:94-101 | Masking and shifting yields the little-endian two's complement bytes |
| `PacketInts.GetWord` | client/client/EavTask.java:103-117 | The or-ing loop on the bytes at an offset, shifts wrapping at the register's width; fails when an index is out of bounds |
| `PacketInts.GetInt` | client/client/EavTask.java:103-109 | The signed 32-bit reading of those bytes |
| `PacketInts.GetLong` | client/client/EavTask.java:111-117 | The signed 64-bit reading of those bytes |
| `PacketInts.OrWordIsValue` | client/client/EavTask.java:103-117 | Up to the register's width, or-ing spells the number the bytes stand for |
| `PacketInts.LongShiftsWrap` | client/client/EavTask.java:103-109 | The fifth byte of an int is or-ed into the first |
| `PacketInts.PackedReadsBack` | client/client/EavTask.java:81-109 | `getInt` over the first `bytes(v)` bytes of `array(v)` is v, for every int |
| `PacketInts.PackedIsShortest` | client/client/EavTask.java:81-109 | No shorter byte string reads back as v |
| `AttributeValues.OptimizeData` | client/client/EavTask.java:119-132 | The two loops reverse the bytes and strip zeros at the high end, down to one byte |
| `AttributeValues.StrippedKeepsValue` | client/client/EavTask.java:119-132 | Stripping does not change the number |
| `AttributeValues.StrippedIsShortest` | client/client/EavTask.java:119-132 | No shorter non-empty byte string spells the same number |
| `AttributeValues.GetAfterSet` | client/EAV/AttributeValue.java:95-173 | `getValue` after `setValue` gives the object back if and only if it is neither a Double nor of an unknown class |
| `AttributeValues.StoredBigEndian` | client/EAV/AttributeValue.java:131-173 | What `setValue` stores for every class of object: its type and each digit, most significant first; a Double is stored as the Integer 0 |
| `AttributeValues.TypeNumbers` | client/EAV/AttributeValue.java:14-16 | The number of an integer type is the logarithm of its width, that of a float larger by two; strings are 6 and buffers 7 |
| `AttributeValues.IntegerReadsBack` | client/client/EavTask.java:294-305 | Trimming, reversing, reading, narrowing and storing again gives back every stored 8, 16, 32 or 64-bit value |
| `AttributeValues.IntegerFidelity` | client/client/EavTask.java:119-132 | Every Java integer comes back as itself, and in the fewest bytes that bring it |
| `AttributeValues.NarrowedIsCast` | client/client/EavTask.java:294-299 | Narrowing gives the number in range that is congruent |
| `AttributeMaps.CompareToIsEquality` | client/EAV/DualKey.java:23-46 | `compareTo` is zero exactly for equal keys |
| `AttributeMaps.CompareToSign` | client/EAV/DualKey.java:23-29 | `compareTo` has the sign of the intended order if and only if its difference fits an int |
| `AttributeMaps.CompareToOverflows` | client/EAV/DualKey.java:23-29 | Two keys each of which compares as less than the other |
| `AttributeMaps.PutSorted` | client/EAV/AttributesMap.java:9-10 | On comparable keys, `put` keeps a map sorted and sets exactly one key |
| `AttributeMaps.PutAllLastWins` | client/EAV/EntityM.java:26-28 | On comparable keys, putting a whole list gives a sorted map without duplicates in which later attributes override earlier ones |
| `AttributeMaps.LastValueWins` | client/EAV/EntityM.java:26-28 | The value of a key is that of the last attribute with it |
| `AttributeMaps.SortedUnique` | client/EAV/AttributesMap.java:9-10 | A sorted map is determined by its content |
| `PacketTheorems.EntityMapIsLastWins` | client/EAV/EntityM.java:24-30 | Number and type are kept; the map is sorted and holds, for every number and type of the list, the last value given for them |
| `EavTasks.EntityM.CreateFrom` | client/EAV/EntityM.java:24-30 | The loop over the attributes builds the map that putting all of them in order gives |
| `PacketFormat.RecordHeader` | client/client/EavTask.java:172-188 | Or-ing the shifted fields of a record header is their sum, so none overlaps another |
| `PacketFormat.FirstByte` | client/client/EavTask.java:164 | The first byte holds both lengths side by side if the id takes fewer than four bytes |
| `PacketFormat.Framed` | client/client/EavTask.java:160-168 | A packet is as long as its header, id, size field and data section |
| `PacketBytes.TypeByte` | client/client/EavTask.java:188-192 | The byte behind number and type of an attribute is the number of its value's type |
| `PacketBytes.ShortAttribute` | client/client/EavTask.java:175-197 | The bytes of the short 5 as attribute 1 of type 1 |
| `PacketBytes.LongAttribute` | client/client/EavTask.java:181-197 | The bytes of a buffer of 256 to 65535 bytes, with the extended length |
| `PacketBytes.ShortPacket` | client/client/EavTask.java:160-209 | All bytes of the packet around that short: lengths, checksum with its low byte first, command, id, size, data |
| `RoundTrip.TravelledSame` | client/client/EavTask.java:306-311 | A value changes on the way if and only if it is a double, or a float whose bytes are no palindrome |
| `RoundTrip.ReadEntityBack` | client/client/EavTask.java:252-272 | At the bytes of an entity head the record loop reads its number and type and stops behind them |
| `RoundTrip.ReadAttributeRecordBack` | client/client/EavTask.java:252-326 | At the bytes of an attribute it reads key and value and stops behind them, for both forms of the length |
| `RoundTrip.DecodeAttributesBack` | client/client/EavTask.java:249-327 | Over the bytes of an attribute list the loop puts them, in order, into the last entity's map |
| `RoundTrip.DecodeEntitiesBack` | client/client/EavTask.java:249-327 | Over a data section the loop appends the entities in order |
| `RoundTrip.DecodeBehindLast` | client/client/EavTask.java:249 | Behind the last record the loop ends, unless its position is the largest int |
| `RoundTrip.DecodeOfPacket` | client/client/EavTask.java:218-329 | Whole-packet round trip: whatever follows the packet in the buffer, decoding the encoding passes the checksum and yields id, command and entities in order, each as `createFrom` builds it from the values as they travel; a packet of the full 2^31 - 1 bytes throws |
| `PacketTheorems.LongestPacket` | client/client/EavTask.java:249 | An entity list whose packet is of the full 2^31 - 1 bytes: it is encoded, and decoding it throws |
| `PacketTheorems.PacketIdSurvives` | client/client/EavTask.java:219-230 | The id comes back if and only if it is not negative and below 2^24, and the packet shorter than 2^31 - 1 bytes |
| `PacketTheorems.SturdyArrives` | client/client/EavTask.java:306-311 | An entity arrives as `createFrom` of the original if no attribute of its list changes on the way; on comparable keys if and only if no value of its final map does |
| `PacketTheorems.RoundTripExactly` | client/client/EavTask.java:134-329 | The commuting diagram of encoding, decoding and `createFrom`: it needs id and length in range; with them it holds, whatever the keys, if no attribute changes on the way, and on comparable keys if and only if no value of a final map does |
| `PacketTheorems.FloatsAreReversed` | client/client/EavTask.java:306-308 | The float 1.0 comes back with its bytes reversed |
| `PacketTheorems.DamageIsRejected` | client/client/EavTask.java:233-237 | A packet whose first 65535 data bytes were changed by a burst of at most 16 bits, in an odd number of bits, or in two bits that are not a multiple of 32767 apart fails the checksum test |
| `PacketTheorems.FrontIsCovered` | client/client/EavTask.java:200-209 | The checksum is that of the first 65535 bytes of the data section, and nothing in front of it depends on the others |
| `PacketBytes.RefusedForChecksum` | client/client/EavTask.java:229-237 | A packet is refused for its checksum if and only if header and preamble can be read and that of what is announced, up to 65535 bytes, is another |
| `PacketBytes.NoHeader` | client/client/EavTask.java:219-226 | Fewer than four bytes, or a command above 10, throw |
| `PacketBytes.LastCommand` | client/client/EavTask.java:20-32 | Command 10 is decoded |
| `PacketBytes.NegativeSize` | client/client/EavTask.java:229-251 | A packet that announces a negative size and the checksum of nothing has no entities |
| `PacketBytes.TruncatedHead` | client/client/EavTask.java:252-258 | A record whose number and type do not fit the buffer ends the loop |
| `PacketBytes.StrayAttribute` | client/client/EavTask.java:268-270 | A packet that begins with an attribute decodes to no entities |
| `PacketBytes.UnknownType` | client/client/EavTask.java:271-278 | An attribute that ends with its header ends the loop, one of a type above 7 throws |
| `PacketBytes.NegativeLengths` | client/client/EavTask.java:312-319 | A string or buffer of negative length throws |
| `PacketBytes.FloatsIgnoreLength` | client/client/EavTask.java:306-311 | A float takes its bytes from where it stands; the cursor still goes by the length |
| `PacketTheorems.SizedRunsBack` | client/client/EavTask.java:288-326 | Once type and length are known, the cursor moves backwards if and only if an integer has a negative length, or a float that fits the buffer has one or its end overflows; in all other cases the value lies in the buffer and the cursor stops right behind it, or the loop ends |
| `PacketTheorems.ForwardExactly` | client/client/EavTask.java:251-327 | The same for a whole record, header and length field included; every other record takes the cursor forwards |
| `PacketTheorems.ForwardLoopsEnd` | client/client/EavTask.java:249-327 | On arbitrary bytes the record loop ends if the cursor does not run backwards from any record it visits |
| `RecordLoop.CycleGoesOn` | client/client/EavTask.java:249-327 | A loop whose cursor comes back to where it was goes on for any number of turns |
| `RecordLoop.LongReturns` | client/client/EavTask.java:249-327 | A loop that goes on for more turns than there are positions has brought the cursor back to one of them |
| `RecordLoop.EndlessExactly` | client/client/EavTask.java:249-327 | No number of turns ends the loop if and only if the cursor returns to a position; otherwise a number of turns bounded by the buffer decides the outcome, and more do not change it |
| `PacketTheorems.DecodeEndlessExactly` | client/client/EavTask.java:218-329 | Decoding never comes to an end if and only if preamble and checksum are in order and the record loop returns to a position |
| `PacketTheorems.NeverDecoded` | client/client/EavTask.java:249-327 | An i8 of extended length -7: with any id and command the packet passes the checksum, the cursor is back after one turn, and no number of turns ends the loop |
| `EavTasks.IdsCycle` | client/client/EavTask.java:59-64 | The first 65534 ids are 1 to 65534, and those after repeat them: they take one or two bytes, and two are the same exactly when they are a multiple of 65534 calls apart |
| `EavTasks.PacketIds.GetIncrementId` | client/client/EavTask.java:59-64 | The counter hands out the ids of that cycle in order |
| `EavTasks.MeasureAttribute` | client/client/EavTask.java:142-158 | Pass one adds exactly the bytes pass two writes for an attribute, and yields its value buffer |
| `EavTasks.MeasureEntity` | client/client/EavTask.java:138-159 | The same for an entity with all its attributes, the buffers queued in order |
| `EavTasks.Measure` | client/client/EavTask.java:136-159 | The size of the data section, modulo 2^32, and all value buffers in order |
| `EavTasks.PutAttribute` | client/client/EavTask.java:175-197 | Pass two writes the bytes of an attribute behind what was there, or fails when they do not fit |
| `EavTasks.PutAttributes` | client/client/EavTask.java:174-198 | All attributes of an entity, polling one queued buffer for each |
| `EavTasks.PutEntity` | client/client/EavTask.java:169-199 | Head and attributes of an entity, in step with the queue |
| `EavTasks.PutEntities` | client/client/EavTask.java:169-199 | The whole data section; writes nothing beyond the limit and leaves the cursor behind it |
| `EavTasks.PutHeader` | client/client/EavTask.java:164-168 | First byte, command, id and size in their places |
| `EavTasks.PutChecksum` | client/client/EavTask.java:200-209 | Bytes 1 and 2 become the checksum of at most 65535 bytes of the data section, nothing else changes |
| `EavTasks.SizesWrapped` | client/client/EavTask.java:160-163 | If the packet fits an int no sum wraps; if not, the allocation fails or is too small for the writes |
| `EavTasks.EavTask.SetRequestData` | client/client/EavTask.java:134-210 | Succeeds if and only if the packet's size is an int, and then the buffer holds exactly the packet, both passes agreeing on every byte |
| `EavTasks.NextRecord` | client/client/EavTask.java:250-275 | One turn of the record loop is one record of the specification |
| `EavTasks.NextAttribute` | client/client/EavTask.java:276-291 | Type, length in either form and value of an attribute, with every early end and exception |
| `EavTasks.NextValue` | client/client/EavTask.java:292-324 | The switch over the value type |
| `EavTasks.EavTask.ReadEntities` | client/client/EavTask.java:248-327 | The record loop, which mutates the last entity's map, yields the entities of the recursive specification, or finds that it would never end |
| `EavTasks.EavTask.CreateFromArray` | client/client/EavTask.java:218-329 | On every buffer the parser returns or throws what the specification says, or is found never to end, as that says |
| `Float32.ToFloatIsFloat` | engine/src/tcp_server.cpp:323-326 | The conversion of a size yields a 24-bit significand times a power of two |
| `Float32.ToFloatIsNearest` | engine/src/tcp_server.cpp:323-326 | No such number is nearer to the size (section 4.3.1 of IEEE 754-2008) |
| `Float32.NothingElseRounds` | engine/src/tcp_server.cpp:323-326 | Product and sum behind the division are floats already |
| `Float32.CapacityHasRoom` | engine/src/tcp_server.cpp:322-326 | The capacity is a multiple of 1024 with at least 896 bytes of room, 1024 below 2^24 |
| `Float32.RoomExactly` | engine/src/tcp_server.cpp:322-326 | There are 1024 bytes of room if and only if the size is a multiple of 1024 or above one by more than half the distance between floats |
| `Float32.RoomIsLess` | engine/src/tcp_server.cpp:322-326 | The size 2^24 + 1 leaves 1023 bytes of room, 2^31 + 128 only 896 |
| `Float32.CapacityExactly` | engine/src/tcp_server.cpp:322-326 | The capacity in integer arithmetic: the multiple of 1024 below the size, and 1024, and another 1024 if the size is above it by more than half the distance between floats |
| `Float32.CapacityIsTight` | engine/src/tcp_server.cpp:322-326 | The capacity is less than 2176 above the size, less than 2048 below 2^24 |
| `Float32.CapacityFits` | engine/src/tcp_server.cpp:322-326 | The capacity is a 32-bit number if and only if the size is at most 2^32 - 1920 |
| `Streams.StepConserves` | engine/src/tcp_server.cpp:278-335 | What was pending and what arrived is what the handler took followed by what is pending |
| `ReceiveBuffer.Connection.constructor` | engine/src/tcp_server.cpp:397-398 | A new connection has an empty buffer of 1024 bytes and satisfies the invariant |
| `ReceiveBuffer.Connection.ConnectionProcessing` | engine/src/tcp_server.cpp:262-335 | One event refines the stream step, keeps the invariant of contents and capacity, with bounds on the capacity from below and above, and resizes exactly when the handler was asked |
| `ReceiveBuffer.Connection.AfterHandler` | engine/src/tcp_server.cpp:290-335 | Consuming, closing, and the buffer that is left |
| `ReceiveBuffer.Connection.Settle` | engine/src/tcp_server.cpp:322-335 | The capacity afterwards is the one required for what is pending or waited for |
| `ReceiveBuffer.Connection.Resize` | engine/src/tcp_server.cpp:327-334 | Moves the pending bytes to the front, in place or into a new array, within bounds |
| `Reassembly.FramesAndRest` | engine/src/tcp_server.cpp:288-290 | A byte string is its whole frames followed by the incomplete one |
| `Reassembly.FramesOfMore` | engine/src/tcp_server.cpp:288-290 | Cutting what has arrived, and then the rest with what follows, is cutting all at once |
| `Reassembly.StepReassembles` | engine/src/tcp_server.cpp:278-335 | An event of any size leaves exactly the incomplete frame pending, and its frames are those the chunk completes |
| `Reassembly.FragmentationIrrelevant` | engine/src/tcp_server.cpp:262-335 | However the bytes are split, the connection stays open and the frames delivered are the whole frames of all bytes received |
| `Reassembly.SplittingsAgree` | engine/src/tcp_server.cpp:262-335 | Two splittings of one stream deliver the same frames |
| `Reassembly.ServeChunk` | engine/src/tcp_server.cpp:262-335 | One event on the buffer itself delivers exactly the frames that its chunk completes |
| `Reassembly.Serve` | engine/src/tcp_server.cpp:243-336 | The buffer itself, fed any stream in pieces it has room for, delivers exactly the stream's frames and never runs out of room |
| `MessagePath.PacketsAreFrames` | client/client/EavTask.java:219-231 | The packet length is a frame length: known from a preamble of at most 14 bytes and independent of what follows |
| `MessagePath.FramedLength` | client/client/EavTask.java:160-168 | The preamble of an encoded packet announces its length |
| `MessagePath.PacketsArePrefixFree` | client/client/EavTask.java:160-168 | No encoded packet is a proper prefix of another, ids taking at most three bytes |
| `LongIds.PrefixesOfLongIds` | client/client/EavTask.java:160-168 | With four-byte ids, one packet is a proper prefix of another only if their size fields take 0 and 1 bytes, or 2 and 3 |
| `LongIds.EmptyIsPrefix` | client/client/EavTask.java:160-168 | The packet without data is a prefix of one with up to 255 bytes of it if and only if their checksum is that of nothing |
| `LongIds.LongIdsAreNotPrefixFree` | client/client/EavTask.java:160-168 | With any four-byte id the packet without entities is a proper prefix of the one with a certain entity |
| `MessagePath.FramesOfPackets` | client/client/EavTask.java:219-231 | Cutting a row of packets, followed by the beginning of another, gives the packets back |
| `MessagePath.SplitIsUnique` | client/client/EavTask.java:160-168 | A concatenation of packets splits in one way only |
| `MessagePath.MessagesArrive` | client/client/EavTask.java:218-329 | From end to end: whatever the network does to the boundaries, the frames are the packets sent, in order, and decode to what was sent |
| `QueryPool.StepKeepsInvariant` | engine/src/db_client.cpp:70-213 | Every step keeps conservation, numbering, queue order and bound, clean failed connections and single starts |
| `QueryPool.RunsOn` | engine/src/db_client.cpp:70-213 | Runs may be continued, which lets the log of the pool grow by a step |
| `QueryPool.RunsAreSafe` | engine/src/db_client.cpp:70-213 | The invariant holds after every run from fresh connections |
| `QueryPool.EachQueryOnce` | engine/src/db_client.cpp:164-213 | An accepted query is in exactly one of queue, one slot and delivered history; any other is nowhere |
| `QueryPool.NeverTwice` | engine/src/db_client.cpp:164-213 | No query is delivered twice, on two connections, or delivered while queued or on a connection |
| `QueryPool.EachQueryStartedOnce` | engine/src/db_client.cpp:170-204 | `DoQuery` was called exactly once for each query on a connection or delivered, and for no other |
| `QueryPool.FittingQueriesAreAccepted` | engine/src/db_client.cpp:160-162 | After a yes for n none of the next n + 2 submissions is rejected, whatever else happens; after a no one of them can be, unless connections are idle beside waiting queries |
| `QueryPool.RoomExactly` | engine/src/db_client.cpp:160-213 | The next n submissions are safe if and only if the queue has room for all of them and for what the idle connections leave waiting |
| `QueryPool.Rejection` | engine/src/db_client.cpp:91-100 | The run that shows it: idle connections take from the queue, those that find it empty are lost when they are pinged, the queue fills up, and the next submission is rejected |
| `QueryPool.WaitingStep` | engine/src/db_client.cpp:70-213 | Only a submission leaves one query more waiting than the idle connections could take, as long as none of these is taken away while queries wait |
| `QueryPool.NoIsNotRejection` | engine/src/db_client.cpp:160-192 | A reachable pool with a full queue and an idle connection: the answer is no, but the next submission is safe, or the next two |
| `DbClients.DbClient.NextIsAccepted` | engine/src/db_client.cpp:160-192 | For the client: after a positive answer for n and fewer than n + 2 submissions since, none was rejected and there is room for another one |
| `QueryPool.QueueOverfills` | engine/src/db_client.cpp:175-181 | The bound max_queue_size + 1 on the queue is reached |
| `QueryPool.RefusedWhileReady` | engine/src/db_client.cpp:107-133 | Were `CheckConnect` to say no of a connection left READY, a query could end in bad_connections and in none of its places: the clause on the hooks is necessary |
| `QueryPool.GivingUpExactly` | engine/src/db_client.cpp:112-119 | Whatever queue and callback do, a connection that is given up is failed without a query if and only if it holds none or is not ready |
| `PoolTurns.AbsorbedTransitive` | engine/src/db_client.cpp:164-192 | Any number of submissions do what one may do: feed idle connections, and grow the queue only when none is idle |
| `PoolTurns.PassOne` | engine/src/db_client.cpp:71-135 | One turn of the timer pass extends what the pass has done and keeps what it did to earlier connections |
| `PoolTurns.PassEnds` | engine/src/db_client.cpp:71-135 | After a pass over all connections none is idle beside waiting queries, unless one was opened in it |
| `PoolTurns.OpenedMayBeOverdue` | engine/src/db_client.cpp:107-111 | A run that shows why connections opened in the pass are left out: a query on one of them stays overdue after the completed pass |
| `PoolTraces.TurnsGrow` | engine/src/db_client.cpp:71-135 | The steps of a further turn follow those of the turns before |
| `PoolTraces.TurnStill` | engine/src/db_client.cpp:71-135 | Later steps do not change what the steps of a turn were |
| `DbClients.DbClient.Safe` | engine/src/db_client.cpp:70-213 | The invariant of all runs holds of the pool whenever its log is up to date |
| `DbClients.DbClient.IsFitInQueue` | engine/src/db_client.cpp:160-162 | After a yes none of the next size + 2 queries is rejected, whatever the connections do; after a no one of them can be, unless connections are idle beside waiting queries |
| `DbClients.DbClient.SubmitQuery` | engine/src/db_client.cpp:164-192 | `Query`: the first idle connection takes the query, else the queue, else it is rejected; no connection falls idle beside waiting queries |
| `DbClients.DbClient.Attached` | engine/src/db_client.cpp:170-173 | An idle connection gets the query, `DoQuery` is called for it, the time is noted |
| `DbClients.DbClient.StartQuery` | engine/src/db_client.cpp:171-172 | `DoQuery` is called once for the query in the slot, and the connection is stamped with the time after it |
| `DbClients.DbClient.NextQuery` | engine/src/db_client.cpp:194-204 | The oldest queued query moves to the connection and is started; false exactly when there is none |
| `DbClients.DbClient.OnResult` | engine/src/db_client.cpp:207 | The callback may submit any number of queries, re-entrantly |
| `DbClients.DbClient.HandOver` | engine/src/db_client.cpp:207 | The query of the connection is delivered, once, with its result |
| `DbClients.DbClient.TakeNext` | engine/src/db_client.cpp:209-213 | A ready connection without a query takes the oldest one |
| `DbClients.DbClient.Result` | engine/src/db_client.cpp:206-213 | Delivers the slot's query and refills the slot unless the callback did; no connection is left idle beside waiting queries |
| `DbClients.DbClient.Hook` | engine/include/database/db_client.h:130-171 | A virtual hook may change its connection short of the query and call `Result`, any number of times; it takes no idle connection away while queries wait; its steps lie between its call and its return |
| `DbClients.DbClient.DoConnect` | engine/src/db_client.cpp:104 | The hook is called with the timestamp that is there; nothing follows its return but the note that it left the connection ready, if it did |
| `DbClients.DbClient.CheckConnect` | engine/src/db_client.cpp:108 | The hook is called; nothing follows its return but the note of a yes |
| `DbClients.DbClient.ExpireQuery` | engine/src/db_client.cpp:77-89 | The overdue query is delivered as RESULT_EXPIRED, once, and the connection fails without a query; only submissions of the callback follow |
| `DbClients.DbClient.IdleTurn` | engine/src/db_client.cpp:91-100 | An idle connection takes the oldest query; without one it is pinged and stamped if unused for more than 3600 seconds, else left alone |
| `DbClients.DbClient.Ping` | engine/src/db_client.cpp:92-100 | The ping, after whose return the connection is stamped and nothing else happens |
| `DbClients.DbClient.ConnectTurn` | engine/src/db_client.cpp:102-106 | A waiting connection is stamped and told to connect; the record says whether that left it ready |
| `DbClients.DbClient.CheckTurn` | engine/src/db_client.cpp:107-125 | A connecting one is asked whether it is open; after a yes, or a no while its time is not up, nothing follows; otherwise it is given up |
| `DbClients.DbClient.GiveUpConnecting` | engine/src/db_client.cpp:112-124 | A connection that is not ready, or holds no query, fails, and a query it holds is delivered as RESULT_EXPIRED |
| `DbClients.DbClient.ErrorTurn` | engine/src/db_client.cpp:126-134 | A failed connection is replaced by a fresh one and kept aside once its time is up |
| `DbClients.DbClient.DropExpired` | engine/src/db_client.cpp:136-143 | The erasing loop leaves exactly the connections within their time, in order |
| `DbClients.DbClient.PurgeBad` | engine/src/db_client.cpp:136-143 | That, on bad_connections, and nothing else changes |
| `DbClients.DbClient.Turn` | engine/src/db_client.cpp:74-125 | One turn of the pass on a connection that has not failed: its steps are those its status and timestamps call for and no others; a query within its time is left alone |
| `DbClients.DbClient.OnTimer` | engine/src/db_client.cpp:70-143 | The steps of a pass are those of its turns, each as the connection found calls for, and those that close it, and no others. So every connection reached is asked what its status calls for; overdue queries are delivered as expired, those within their time left alone, and only connections idle for more than 3600 seconds pinged; and unless the record shows that a hook opened it, which only happens to one that was not connected or that a query started in the pass sent back, none is left with an overdue query, idle beside waiting queries, or connecting beyond its time. A full pass leaves only unexpired bad connections; why a pass is cut short, and whether the pool counts as connected |
| `DbClients.DbClient.ProcessEvent` | engine/src/db_client.cpp:56-65 | An event makes the pool look for a result, or for the opening, according to the connection's status, and nothing follows the return of that hook but the note of a yes, after which the pool counts as connected |
| `DbClients.DbClient.Find` | engine/src/db_client.cpp:53-55 | The loop finds the first connection with the descriptor, if any |
| `DbClients.DbClient.DataProcessing` | engine/src/db_client.cpp:52-68 | True if and only if some connection has the descriptor; only the first such is dealt with, by one hook, and nothing else happens |

## Left out

- Float values: f4 and f8 are modelled as the source treats them (see above), a float as its bit
  pattern; that Java keeps the bits of a NaN on the way is taken for granted.
- `EavTasks.EavTask.ReadEntities`: where the source's record loop would run for ever the method stops
  and says so, after more turns than the buffer has positions; `RecordLoop.EndlessExactly` shows that
  nothing else is lost. That such a loop may run out of memory first is not modelled.
- `AttributeMaps.PutSorted`: on keys whose difference overflows the real tree may place an entry
  according to its shape; the model searches the entries in order. What is stated about maps of such
  keys holds for any order: the same puts, of the same values, on both sides.
- Strings are their UTF-8 bytes; the replacement of malformed sequences, `toString` and `fromString`
  are not modelled.
- `AttributeValue` and `DualKey` as objects that may be overwritten (`setValue` again, `set`, the
  buffer that `duplicate` shares): they are values here; `hashCode`, `getInt` of a value.
- `ByteBuffer`: backing arrays with an offset, direct and read-only buffers.
- `EavTasks.EavTask.SetRequestData`: what the buffer holds after a call that throws is not stated; nor
  is running out of memory. Name, status, timing and `messageType` of a task are not modelled.
- `crc8` and `xor`: nothing harder than `crc16`.
- `ReceiveBuffer.Connection.ConnectionProcessing`: epoll, sockets, TLS, logging, DEBUG_MODE checks and
  `last_time`. `recv` returns at least one byte and at most what there is room for, or ends the
  connection. The copy within one array has the meaning of a move, because its ranges overlap. A
  closed connection is a final state. The handler consumes at most what is there, and asks for a size
  of 0 or one that is larger than what is left. If an event leaves a size above 2^32 - 1920 pending or
  waited for, the conversion of the capacity to `uint32_t` is undefined, and the model says nothing.
- `EraseExpiredConnections`, `OnEvent` other than the first buffer, and everything about ports.
- `DbClients.DbClient.Hook`: the concrete hooks are not part of this model. Their contract: a query
  leaves its slot only through `Result`; no hook leaves a failed connection with a query; a hook
  changes no other connection itself and does not call `Query`, other than through the callback of
  `Result`; `DoQuery` does not call `Result` and does not fail the connection; `NewConnection` gives a
  waiting connection without a query.
- `DbClients.DbClient.GiveUpConnecting`: is not stated for a connection that `CheckConnect` left READY
  with a query while answering no; `QueryPool.GivingUpExactly` shows that a query may be lost then, and
  only then. `CheckConnect` is assumed to say no only of a connection that is not READY.
- `DbClients.DbClient.OnResult`: the callback calls nothing but `Query`; a query it submits again
  counts as a new one.
- `DbClients.DbClient.OnTimer`: the guarantee about idle connections and overdue queries leaves out
  those that were opened in the same pass, as the source does. Times are unbounded integers and the
  clock does not run backwards.
- Connections of the pool are values in a sequence: each is owned by one pointer in the source, so no
  aliasing is lost. AUX_MODE statistics, `AfterConnect` and the message text of a result.
