/** Frames cut out of a stream, and why it does not matter how the stream arrived in pieces. */
module Reassembly {
  import opened Bytes
  import opened Float32
  import opened Streams
  import opened ReceiveBuffer

  /** The length of the frame a byte string begins with, once enough of it is there to tell. */
  type FrameLength = seq<byte> -> Option<nat>

  /** A frame length is positive, does not depend on what follows, is known once more than
      `maxHeaderSize` bytes are there, and is no larger than what may be waited for. */
  ghost predicate IsFraming(f: FrameLength, maxHeaderSize: nat) {
    && (forall s, t {:trigger f(s + t)} :: f(s).Some? ==> f(s + t) == f(s))
    && (forall s :: f(s).Some? ==> s != [] && 0 < f(s).value <= LARGEST_REQUEST)
    && (forall s :: |s| > maxHeaderSize ==> f(s).Some?)
  }

  /** A byte string begins with a whole frame. */
  predicate WholeFrame(f: FrameLength, s: seq<byte>) {
    f(s).Some? && 0 < f(s).value <= |s|
  }

  /** The whole frames a byte string begins with. */
  function Frames(f: FrameLength, s: seq<byte>): seq<seq<byte>>
    decreases |s|
  {
    if WholeFrame(f, s) then [s[..f(s).value]] + Frames(f, s[f(s).value..]) else []
  }

  /** What follows them. */
  function Rest(f: FrameLength, s: seq<byte>): (rest: seq<byte>)
    ensures |rest| <= |s| && rest == s[|s| - |rest|..]
    ensures !WholeFrame(f, rest)
    decreases |s|
  {
    if WholeFrame(f, s) then Rest(f, s[f(s).value..]) else s
  }

  function Concat(frames: seq<seq<byte>>): seq<byte> {
    if frames == [] then [] else frames[0] + Concat(frames[1..])
  }

  /** The size to wait for when `rest` is the beginning of a frame. */
  function Missing(f: FrameLength, rest: seq<byte>): nat {
    match f(rest) case Some(n) => n case None => 0
  }

  /** The handler that consumes all whole frames and asks for the length of the one behind them, if
      known. */
  function FrameReply(f: FrameLength, all: seq<byte>): Reply {
    var rest := Rest(f, all);
    Reply(|all| - |rest|, Missing(f, rest), false)
  }

  // ----- Cutting is independent of arrival -----

  lemma ConcatCons(first: seq<byte>, rest: seq<seq<byte>>)
    ensures Concat([first] + rest) == first + Concat(rest)
  {
    assert ([first] + rest)[1..] == rest;
  }

  lemma CutOne(f: FrameLength, s: seq<byte>, n: nat)
    requires WholeFrame(f, s) && f(s) == Some(n)
    ensures s == s[..n] + s[n..]
    ensures Frames(f, s) == [s[..n]] + Frames(f, s[n..]) && Rest(f, s) == Rest(f, s[n..])
  {
  }

  lemma CutNone(f: FrameLength, s: seq<byte>)
    requires !WholeFrame(f, s)
    ensures Frames(f, s) == [] && Rest(f, s) == s
  {
  }

  lemma {:induction false} FramesAndRest(f: FrameLength, s: seq<byte>)
    ensures Concat(Frames(f, s)) + Rest(f, s) == s
    decreases |s|
  {
    hide Frames;
    hide Rest;
    if WholeFrame(f, s) {
      var n := f(s).value;
      CutOne(f, s, n);
      FramesAndRest(f, s[n..]);
      ConcatCons(s[..n], Frames(f, s[n..]));
    } else {
      CutNone(f, s);
    }
  }

  lemma Extended(f: FrameLength, maxHeaderSize: nat, s: seq<byte>, t: seq<byte>)
    requires IsFraming(f, maxHeaderSize) && f(s).Some?
    ensures f(s + t) == f(s) && f(s).value > 0
    ensures WholeFrame(f, s) ==> WholeFrame(f, s + t)
    ensures WholeFrame(f, s) ==> (s + t)[..f(s).value] == s[..f(s).value]
    ensures WholeFrame(f, s) ==> (s + t)[f(s).value..] == s[f(s).value..] + t
  {
  }

  /** Cutting what has arrived and then the rest with what follows is cutting all at once. */
  lemma {:induction false} FramesOfMore(f: FrameLength, maxHeaderSize: nat, s: seq<byte>, t: seq<byte>)
    requires IsFraming(f, maxHeaderSize)
    ensures Frames(f, s + t) == Frames(f, s) + Frames(f, Rest(f, s) + t)
    ensures Rest(f, s + t) == Rest(f, Rest(f, s) + t)
    decreases |s|
  {
    hide Frames;
    hide Rest;
    hide IsFraming;
    if WholeFrame(f, s) {
      var n := f(s).value;
      Extended(f, maxHeaderSize, s, t);
      CutOne(f, s, n);
      CutOne(f, s + t, n);
      FramesOfMore(f, maxHeaderSize, s[n..], t);
    } else {
      CutNone(f, s);
    }
  }

  lemma FrameReplyHonours(f: FrameLength, maxHeaderSize: nat, all: seq<byte>)
    requires IsFraming(f, maxHeaderSize)
    ensures Honours(FrameReply(f, all), |all|)
    ensures all[FrameReply(f, all).pos..] == Rest(f, all)
    ensures FrameReply(f, all).required == 0 ==> |Rest(f, all)| <= maxHeaderSize
    ensures maxHeaderSize <= LARGEST_REQUEST ==> Affordable(FrameReply(f, all), |all|, maxHeaderSize)
  {
  }

  /** If frame lengths are known before the largest size a buffer can be made for, every reply can be
      afforded, however much the server allows for headers. */
  lemma FrameReplyAffordable(f: FrameLength, maxHeaderSize: nat, all: seq<byte>)
    requires IsFraming(f, Min(maxHeaderSize, LARGEST_REQUEST))
    ensures IsFraming(f, maxHeaderSize)
    ensures Honours(FrameReply(f, all), |all|) && Affordable(FrameReply(f, all), |all|, maxHeaderSize)
  {
    FrameReplyHonours(f, Min(maxHeaderSize, LARGEST_REQUEST), all);
  }

  /** The stream state when the bytes received so far are `received`: exactly the incomplete frame
      is pending, and its length is waited for once known. */
  function StateAfter(f: FrameLength, received: seq<byte>): State {
    Open(Rest(f, received), Missing(f, Rest(f, received)))
  }

  lemma Unfinished(f: FrameLength, maxHeaderSize: nat, pending: seq<byte>, chunk: seq<byte>)
    requires IsFraming(f, maxHeaderSize) && !WholeFrame(f, pending)
    requires !Handled(Missing(f, pending), pending + chunk)
    ensures !WholeFrame(f, pending + chunk) && Missing(f, pending + chunk) == Missing(f, pending)
  {
    Extended(f, maxHeaderSize, pending, chunk);
  }

  /** One event of any size keeps that, and the frames the handler sees at it are exactly those the
      chunk completes. */
  lemma StepReassembles(f: FrameLength, maxHeaderSize: nat, received: seq<byte>, chunk: seq<byte>)
    requires IsFraming(f, maxHeaderSize) && chunk != []
    ensures var all := Rest(f, received) + chunk;
      && Honours(FrameReply(f, all), |all|)
      && (maxHeaderSize <= LARGEST_REQUEST ==> Affordable(FrameReply(f, all), |all|, maxHeaderSize))
      && Step(StateAfter(f, received), chunk, FrameReply(f, all), maxHeaderSize) == StateAfter(f, received + chunk)
      && Frames(f, received + chunk) == Frames(f, received) + Frames(f, all)
      && (!Handled(Missing(f, Rest(f, received)), all) ==> Frames(f, all) == [])
  {
    hide Frames;
    hide Rest;
    hide IsFraming;
    hide Missing;
    hide WholeFrame;
    hide Honours;
    hide Affordable;
    var pending := Rest(f, received);
    var all := pending + chunk;
    var reply := FrameReply(f, all);
    FramesOfMore(f, maxHeaderSize, received, chunk);
    FrameReplyHonours(f, maxHeaderSize, all);
    var s := StateAfter(f, received);
    if Handled(Missing(f, pending), all) {
      StepHandled(s, chunk, reply, maxHeaderSize);
    } else {
      StepWaits(s, chunk, reply, maxHeaderSize);
      Unfinished(f, maxHeaderSize, pending, chunk);
      CutNone(f, all);
    }
  }

  /** The stream state at the end of a run of events, and the frames delivered during it. */
  ghost function Run(f: FrameLength, maxHeaderSize: nat, s: State, chunks: seq<seq<byte>>): (State, seq<seq<byte>>)
    requires IsFraming(f, maxHeaderSize)
    decreases |chunks|
  {
    if chunks == [] || s.Closed? then (s, [])
    else
      var all := s.pending + chunks[0];
      FrameReplyHonours(f, maxHeaderSize, all);
      var seen := if Handled(s.required, all) then Frames(f, all) else [];
      var (end, later) := Run(f, maxHeaderSize, Step(s, chunks[0], FrameReply(f, all), maxHeaderSize), chunks[1..]);
      (end, seen + later)
  }

  /** Fragmentation does not matter: however the bytes were split into non-empty chunks, the
      connection is open at the end and the frames delivered are exactly the whole frames of all
      bytes received. */
  lemma {:induction false} FragmentationIrrelevant(f: FrameLength, maxHeaderSize: nat, received: seq<byte>,
                                                   chunks: seq<seq<byte>>)
    requires IsFraming(f, maxHeaderSize) && forall c :: c in chunks ==> c != []
    ensures var (end, frames) := Run(f, maxHeaderSize, StateAfter(f, received), chunks);
      && end == StateAfter(f, received + Concat(chunks))
      && Frames(f, received) + frames == Frames(f, received + Concat(chunks))
    decreases |chunks|
  {
    hide Frames;
    hide Rest;
    hide IsFraming;
    hide Missing;
    hide FrameReply;
    hide Step;
    if chunks == [] {
      assert received + Concat(chunks) == received;
    } else {
      var c, rest := chunks[0], chunks[1..];
      assert c in chunks && forall d :: d in rest ==> d in chunks;
      StepReassembles(f, maxHeaderSize, received, c);
      FragmentationIrrelevant(f, maxHeaderSize, received + c, rest);
      assert received + c + Concat(rest) == received + Concat(chunks);
    }
  }

  /** Two splittings of one stream deliver the same frames. */
  lemma SplittingsAgree(f: FrameLength, maxHeaderSize: nat, chunks: seq<seq<byte>>, others: seq<seq<byte>>)
    requires IsFraming(f, maxHeaderSize) && Concat(chunks) == Concat(others)
    requires (forall c :: c in chunks ==> c != []) && (forall c :: c in others ==> c != [])
    ensures Run(f, maxHeaderSize, Open([], 0), chunks) == Run(f, maxHeaderSize, Open([], 0), others)
  {
    hide Run;
    hide Frames;
    hide StateAfter;
    hide IsFraming;
    StartsEmpty(f, maxHeaderSize);
    FragmentationIrrelevant(f, maxHeaderSize, [], chunks);
    FragmentationIrrelevant(f, maxHeaderSize, [], others);
    assert [] + Concat(chunks) == Concat(chunks) && [] + Concat(others) == Concat(others);
    var frames, frames' := Run(f, maxHeaderSize, Open([], 0), chunks).1, Run(f, maxHeaderSize, Open([], 0), others).1;
    assert [] + frames == frames && [] + frames' == frames';
  }

  lemma NothingBegun(f: FrameLength, maxHeaderSize: nat)
    requires IsFraming(f, maxHeaderSize)
    ensures f([]) == None
  {
    var nothing: seq<byte> := [];
    assert f(nothing).Some? ==> nothing != [];
  }

  lemma StartsEmpty(f: FrameLength, maxHeaderSize: nat)
    requires IsFraming(f, maxHeaderSize)
    ensures StateAfter(f, []) == Open([], 0) && Frames(f, []) == []
  {
    hide IsFraming;
    NothingBegun(f, maxHeaderSize);
    CutNone(f, []);
  }

  /** One event: the frames delivered are those that the chunk completes. */
  method ServeChunk(connection: Connection, f: FrameLength, chunk: seq<byte>) returns (frames: seq<seq<byte>>)
    requires connection.Valid() && !connection.closed && connection.View() == StateAfter(f, connection.received)
    requires IsFraming(f, Min(connection.maxHeaderSize, LARGEST_REQUEST))
    requires 0 < |chunk| <= connection.capacity - connection.size
    modifies connection, connection.data
    ensures !connection.closed && connection.Valid()
    ensures connection.data == old(connection.data) || fresh(connection.data)
    ensures connection.received == old(connection.received) + chunk
    ensures connection.View() == StateAfter(f, connection.received)
    ensures Frames(f, old(connection.received)) + frames == Frames(f, connection.received)
  {
    hide Frames;
    hide Rest;
    hide IsFraming;
    hide Missing;
    hide FrameReply;
    hide Step;
    hide Honours;
    hide Affordable;
    var all := connection.data[..connection.size] + chunk;
    FrameReplyAffordable(f, connection.maxHeaderSize, all);
    StepReassembles(f, connection.maxHeaderSize, connection.received, chunk);
    frames := if connection.requiredSize == 0 || connection.requiredSize <= |all| then Frames(f, all) else [];
    connection.ConnectionProcessing(chunk, shown => FrameReply(f, shown));
  }

  /** The server's side of a whole stream: every event receives some of the bytes that are left, at
      most as many as the buffer has room for. */
  method Serve(connection: Connection, f: FrameLength, stream: seq<byte>) returns (frames: seq<seq<byte>>)
    requires connection.Valid() && connection.View() == Open([], 0) && connection.received == []
    requires IsFraming(f, Min(connection.maxHeaderSize, LARGEST_REQUEST))
    modifies connection, connection.data
    ensures !connection.closed && connection.Valid()
    ensures connection.received == stream
    ensures frames == Frames(f, stream)
    ensures connection.View() == StateAfter(f, stream)
  {
    hide Frames;
    hide StateAfter;
    hide IsFraming;
    hide Affordable;
    hide Honours;
    hide FrameReply;
    hide Rest;
    StartsEmpty(f, Min(connection.maxHeaderSize, LARGEST_REQUEST));
    frames := [];
    var i := 0;
    while i < |stream|
      invariant 0 <= i <= |stream| && connection.Valid() && !connection.closed
      invariant connection.data == old(connection.data) || fresh(connection.data)
      invariant connection.received == stream[..i]
      invariant frames == Frames(f, connection.received)
      invariant connection.View() == StateAfter(f, connection.received)
    {
      var n: nat :| 0 < n <= connection.capacity - connection.size && i + n <= |stream|;
      var completed := ServeChunk(connection, f, stream[i..i + n]);
      frames := frames + completed;
      i := i + n;
    }
    assert stream[..i] == stream;
  }
}
