/** `EgtsCrc.crc16` on a buffer. */
module Crc16 {
  import opened Bytes
  import opened ByteBuffers
  import opened CrcRegister
  import opened CrcStep

  /** The checksum of `size` bytes from `offset`, as an unsigned 16-bit number; None when the call
      throws: the offset lies beyond the limit, or the bytes run out. A size that is negative, or
      whose end overflows, covers nothing. */
  function ChecksumOfRange(data: seq<byte>, limit: nat, offset: nat, size: int32): Option<word16>
    requires limit <= |data|
  {
    var end := Wrap32(size + offset);
    if offset > limit then None
    else if end <= offset then Some(PRESET)
    else if end > limit then None
    else Some(Checksum(data[offset..end]))
  }

  method Crc16(buf: ByteBuffer, offset: nat, size: int32) returns (sum: Option<word16>)
    requires buf.Valid()
    modifies buf`position
    ensures buf.Valid()
    ensures sum == ChecksumOfRange(buf.data[..], buf.limit, offset, size)
  {
    hide StepByte;
    hide Register;
    hide ByteBits;
    NothingChecked();
    var crc: word32 := 0xFFFF_FFFF;
    var ok := buf.SetPosition(offset);
    if !ok {
      return None;
    }
    var end := Wrap32(size + offset);
    assert buf.data[offset..buf.position] == [];
    while buf.position < end
      invariant buf.Valid() && offset <= buf.position
      invariant if offset <= end then buf.position <= end else buf.position == offset
      invariant crc % 0x1_0000 == Checksum(buf.data[offset..buf.position])
    {
      ghost var before := buf.data[offset..buf.position];
      var b := buf.Get();
      match b {
        case None =>
          return None;
        case Some(b) =>
          StepByteIsRegister(crc, b);
          ChecksumOfAppended(before, b);
          assert buf.data[offset..buf.position] == before + [b];
          crc := StepByte(crc, b);
      }
    }
    assert buf.data[offset..buf.position] == buf.data[..][offset..buf.position];
    return Some(crc % 0x1_0000);
  }

  lemma NothingChecked()
    ensures Checksum([]) == PRESET
  {
  }

  lemma ChecksumOfAppended(data: seq<byte>, b: byte)
    ensures Checksum(data + [b]) == Register(Checksum(data), ByteBits(b))
  {
    hide Register;
    hide ByteBits;
    BitsOfConcat(data, [b]);
    assert [b][1..] == [] && ByteBits(b) + [] == ByteBits(b);
    RegisterOfConcat(PRESET, BitsOf(data), ByteBits(b));
  }
}
