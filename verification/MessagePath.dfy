/** Packets on a stream: from the encoder, through the receive buffer, to the decoder. */
module MessagePath {
  import opened Bytes
  import opened PacketInts
  import opened PacketFormat
  import opened RoundTrip
  import opened Streams
  import opened Reassembly

  /** The longest preamble a packet can announce: id and size with all their bits set. */
  const LONGEST_PREAMBLE := PACKET_HEADER_SIZE + 3 + 7

  /** The length of the packet a byte string begins with, a function of its preamble alone. */
  function PacketLength(s: seq<byte>): Option<nat> {
    if |s| < PACKET_HEADER_SIZE then None
    else
      var pidLen, dsLen := s[0] % 4, s[0] / 4 % 8;
      var start := PACKET_HEADER_SIZE + pidLen + dsLen;
      if |s| < start then None
      else
        var ds := IntOf(s[PACKET_HEADER_SIZE + pidLen..start]);
        Some(if ds < 0 then start else start + ds)
  }

  /** Packets can be cut out of a stream by any server that allows for their preambles. */
  lemma PacketsAreFrames(maxHeaderSize: nat)
    requires maxHeaderSize + 1 >= LONGEST_PREAMBLE
    ensures IsFraming(PacketLength, maxHeaderSize)
  {
    hide IntOf;
    forall s: seq<byte>, t | PacketLength(s).Some?
      ensures PacketLength(s + t) == PacketLength(s)
    {
      var pidLen, dsLen := s[0] % 4, s[0] / 4 % 8;
      var start := PACKET_HEADER_SIZE + pidLen + dsLen;
      assert (s + t)[PACKET_HEADER_SIZE + pidLen..start] == s[PACKET_HEADER_SIZE + pidLen..start];
    }
  }

  /** The preamble announces the length of the packet, whatever follows. */
  lemma FramedLength(pid: int32, command: Command, d: seq<byte>, rest: seq<byte>)
    requires |d| <= MAX_INT && 0 <= pid < 0x100_0000
    ensures PacketLength(Framed(pid, command, d) + rest) == Some(|Framed(pid, command, d)|)
  {
    hide Framed;
    hide IntOf;
    hide Packed;
    hide FirstByte;
    var data := Framed(pid, command, d) + rest;
    AtFront(Framed(pid, command, d), rest);
    FramedLayout(data, pid, command, d);
    hide At;
    AtSplit(data, PACKET_HEADER_SIZE, Packed(pid), Packed(|d|));
    FirstByteFields(pid, |d|);
    hide ByteLen;
    ReadPackedBack(data, PACKET_HEADER_SIZE + ByteLen(pid), |d|);
  }

  lemma FirstByteFields(pid: int32, n: int32)
    requires 0 <= pid < 0x100_0000
    ensures var b := FirstByte(ByteLen(pid), ByteLen(n)); b % 4 == ByteLen(pid) && b / 4 % 8 == ByteLen(n)
  {
    hide FirstByte;
  }

  /** What is sent: packet id, command and entities. */
  datatype Message = Message(pid: int32, command: Command, es: seq<EntityL>)

  /** The encoder accepts the message; its id takes at most three bytes, as all those the generator
      hands out do; and its packet is not of the full 2^31 - 1 bytes. */
  ghost predicate Sendable(m: Message) {
    && ValidEntities(m.es)
    && Fits(m.pid, m.es)
    && 0 <= m.pid < 0x100_0000
    && PacketSize(m.pid, |DataSection(m.es)|) < MAX_INT
  }

  ghost function Encoded(m: Message): seq<byte>
    requires Sendable(m)
  {
    Packet(m.pid, m.command, m.es)
  }

  ghost predicate AllSendable(ms: seq<Message>) {
    forall m :: m in ms ==> Sendable(m)
  }

  ghost function Encodings(ms: seq<Message>): (r: seq<seq<byte>>)
    requires AllSendable(ms)
    ensures |r| == |ms|
    ensures forall i :: 0 <= i < |ms| ==> r[i] == Encoded(ms[i])
  {
    if ms == [] then [] else [Encoded(ms[0])] + Encodings(ms[1..])
  }

  lemma EncodedLength(m: Message, rest: seq<byte>)
    requires Sendable(m)
    ensures PacketLength(Encoded(m) + rest) == Some(|Encoded(m)|) && |Encoded(m)| > 0
  {
    hide Framed;
    FramedLength(m.pid, m.command, DataSection(m.es), rest);
  }

  /** No packet is a proper prefix of another. */
  lemma PacketsArePrefixFree(m: Message, n: Message)
    requires Sendable(m) && Sendable(n) && Encoded(m) <= Encoded(n)
    ensures Encoded(m) == Encoded(n)
  {
    hide Encoded;
    hide PacketLength;
    var rest := Encoded(n)[|Encoded(m)|..];
    assert Encoded(n) == Encoded(m) + rest;
    EncodedLength(m, rest);
    EncodedLength(n, []);
    assert Encoded(n) + [] == Encoded(n);
  }

  /** Cutting a row of packets, and the beginning of another, gives the packets back. */
  lemma {:induction false} FramesOfPackets(ms: seq<Message>, rest: seq<byte>)
    requires AllSendable(ms) && !WholeFrame(PacketLength, rest)
    ensures Frames(PacketLength, Concat(Encodings(ms)) + rest) == Encodings(ms)
    ensures Rest(PacketLength, Concat(Encodings(ms)) + rest) == rest
  {
    hide Encoded;
    hide PacketLength;
    hide Frames;
    hide Rest;
    hide Sendable;
    if ms == [] {
      assert Concat(Encodings(ms)) + rest == rest;
      CutNone(PacketLength, rest);
    } else {
      var first, later := Encoded(ms[0]), ms[1..];
      assert ms[0] in ms && forall m :: m in later ==> m in ms;
      var tail := Concat(Encodings(later)) + rest;
      ConcatCons(first, Encodings(later));
      var stream := Concat(Encodings(ms)) + rest;
      assert stream == first + tail;
      EncodedLength(ms[0], tail);
      CutOne(PacketLength, stream, |first|);
      assert stream[..|first|] == first && stream[|first|..] == tail;
      FramesOfPackets(later, rest);
    }
  }

  lemma NoFrameInNothing()
    ensures !WholeFrame(PacketLength, [])
  {
  }

  /** A concatenation of packets can be split in one way only. */
  lemma SplitIsUnique(ms: seq<Message>, ns: seq<Message>)
    requires AllSendable(ms) && AllSendable(ns)
    requires Concat(Encodings(ms)) == Concat(Encodings(ns))
    ensures Encodings(ms) == Encodings(ns)
  {
    NoFrameInNothing();
    FramesOfPackets(ms, []);
    FramesOfPackets(ns, []);
  }

  /** From end to end: whatever the network does to the boundaries of a stream of packets, the frames
      the server delivers are the packets, in order, and each decodes to the id, the command and the
      entities that were sent. */
  lemma MessagesArrive(ms: seq<Message>, chunks: seq<seq<byte>>, maxHeaderSize: nat)
    requires AllSendable(ms) && maxHeaderSize + 1 >= LONGEST_PREAMBLE
    requires Concat(chunks) == Concat(Encodings(ms)) && forall c :: c in chunks ==> c != []
    ensures IsFraming(PacketLength, maxHeaderSize)
    ensures var (end, frames) := Run(PacketLength, maxHeaderSize, Open([], 0), chunks);
      && end == Open([], 0)
      && frames == Encodings(ms)
      && forall i :: 0 <= i < |ms| ==>
          Decode(frames[i], |frames[i]|) == Done(Task(ms[i].pid, ms[i].command, Arrived(ms[i].es)))
  {
    hide Run;
    hide Frames;
    hide Rest;
    hide IsFraming;
    hide PacketLength;
    hide Encoded;
    hide Decode;
    hide Arrived;
    PacketsAreFrames(maxHeaderSize);
    StartsEmpty(PacketLength, maxHeaderSize);
    FragmentationIrrelevant(PacketLength, maxHeaderSize, [], chunks);
    NoFrameInNothing();
    FramesOfPackets(ms, []);
    var stream := Concat(chunks);
    assert [] + stream == stream && stream + [] == stream;
    var frames := Run(PacketLength, maxHeaderSize, Open([], 0), chunks).1;
    assert [] + frames == frames;
    forall i | 0 <= i < |ms|
      ensures Decode(Encoded(ms[i]), |Encoded(ms[i])|) == Done(Task(ms[i].pid, ms[i].command, Arrived(ms[i].es)))
    {
      assert ms[i] in ms;
      DecodeOfEncoded(ms[i]);
    }
  }

  lemma DecodeOfEncoded(m: Message)
    requires Sendable(m)
    ensures Decode(Encoded(m), |Encoded(m)|) == Done(Task(m.pid, m.command, Arrived(m.es)))
  {
    hide Decode;
    hide Arrived;
    hide Framed;
    DecodeOfPacket(m.pid, m.command, m.es, [], |Encoded(m)|);
    assert Encoded(m) + [] == Encoded(m);
  }
}
