/** A connection's receive side as a stream: what is pending, and what an event does to it. */
module Streams {
  import opened Bytes
  import opened Float32

  /** What `OnReadData` leaves behind: how many bytes it consumed, the size it wants to wait for (0
      for none), and whether to close. */
  datatype Reply = Reply(pos: nat, required: nat, close: bool)

  /** The contract of `OnReadData` on a buffer of `size` bytes. */
  predicate Honours(reply: Reply, size: nat) {
    && reply.pos <= size
    && (reply.required == 0 || size - reply.pos < reply.required)
  }

  /** If a buffer is needed afterwards, its capacity is a 32-bit number. For a larger one, the server's
      conversion of the capacity is undefined. */
  predicate Affordable(reply: Reply, size: nat, maxHeaderSize: nat)
    requires Honours(reply, size)
  {
    || reply.close
    || (reply.required == 0 && size - reply.pos > maxHeaderSize)
    || (if reply.required > 0 then reply.required else size - reply.pos) <= LARGEST_REQUEST
  }

  datatype State = Open(pending: seq<byte>, required: nat) | Closed

  /** Whether an event that leaves `all` pending reaches the handler. */
  predicate Handled(required: nat, all: seq<byte>) {
    required == 0 || required <= |all|
  }

  /** One event: `chunk` arrives, empty when the peer is gone; `reply` is the handler's answer if it
      is asked. */
  function Step(s: State, chunk: seq<byte>, reply: Reply, maxHeaderSize: nat): State
    requires s.Open? ==> Honours(reply, |s.pending| + |chunk|)
  {
    match s
    case Closed => Closed
    case Open(pending, required) =>
      var all := pending + chunk;
      if chunk == [] then Closed
      else if !Handled(required, all) then Open(all, required)
      else if reply.close then Closed
      else if reply.required == 0 && |all| - reply.pos > maxHeaderSize then Closed
      else Open(all[reply.pos..], reply.required)
  }

  /** The bytes an event hands over to the handler for good. */
  function Taken(s: State, chunk: seq<byte>, reply: Reply, maxHeaderSize: nat): seq<byte>
    requires s.Open? ==> Honours(reply, |s.pending| + |chunk|)
  {
    match s
    case Closed => []
    case Open(pending, required) =>
      if chunk != [] && Handled(required, pending + chunk) then (pending + chunk)[..reply.pos] else []
  }

  /** Nothing is lost, repeated or reordered: what was pending and what arrived is what was taken,
      followed by what is pending. */
  lemma StepConserves(s: State, chunk: seq<byte>, reply: Reply, maxHeaderSize: nat)
    requires s.Open? && Honours(reply, |s.pending| + |chunk|)
    ensures var s' := Step(s, chunk, reply, maxHeaderSize);
      s'.Open? ==> Taken(s, chunk, reply, maxHeaderSize) + s'.pending == s.pending + chunk
    ensures var s' := Step(s, chunk, reply, maxHeaderSize);
      s'.Open? && s'.required > 0 && s.required > |s.pending| ==> s'.required > |s'.pending|
  {
  }

  lemma StepEnds(s: State, reply: Reply, maxHeaderSize: nat)
    requires s.Open? && Honours(reply, |s.pending|)
    ensures Step(s, [], reply, maxHeaderSize) == Closed
  {
  }

  lemma StepWaits(s: State, chunk: seq<byte>, reply: Reply, maxHeaderSize: nat)
    requires s.Open? && Honours(reply, |s.pending| + |chunk|) && chunk != []
    requires s.required > |s.pending| + |chunk|
    ensures Step(s, chunk, reply, maxHeaderSize) == Open(s.pending + chunk, s.required)
    ensures Taken(s, chunk, reply, maxHeaderSize) == []
  {
  }

  lemma StepHandled(s: State, chunk: seq<byte>, reply: Reply, maxHeaderSize: nat)
    requires s.Open? && Honours(reply, |s.pending| + |chunk|) && chunk != []
    requires s.required <= |s.pending| + |chunk|
    ensures var all := s.pending + chunk;
      && Taken(s, chunk, reply, maxHeaderSize) == all[..reply.pos]
      && Step(s, chunk, reply, maxHeaderSize) ==
          if reply.close || (reply.required == 0 && |all| - reply.pos > maxHeaderSize) then Closed
          else Open(all[reply.pos..], reply.required)
  {
  }
}
