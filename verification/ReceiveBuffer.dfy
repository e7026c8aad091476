/** `TCPServer::ConnectionProcessing`: the buffer that holds the pending bytes. */
module ReceiveBuffer {
  import opened Bytes
  import opened Float32
  import opened Streams

  function Min(a: nat, b: nat): nat {
    if a < b then a else b
  }

  function Max(a: nat, b: nat): nat {
    if a < b then b else a
  }

  lemma TakePrefix(consumed: seq<byte>, pending: seq<byte>, pos: nat)
    requires pos <= |pending|
    ensures consumed + pending[..pos] + pending[pos..] == consumed + pending
  {
  }

  lemma Appended(consumed: seq<byte>, pending: seq<byte>, chunk: seq<byte>)
    ensures consumed + pending + chunk == consumed + (pending + chunk)
  {
  }

  class Connection {
    var data: array<byte>
    var size: nat
    var capacity: nat
    var pos: nat
    var requiredSize: nat
    var closed: bool
    const maxHeaderSize: nat
    ghost var received: seq<byte>
    ghost var consumed: seq<byte>

    /** What holds between events. The buffer is the stream received so far without the prefixes the
        handler consumed; there is room for more bytes, whatever the rounding of the capacity, but not
        for more than that takes. */
    ghost predicate Valid()
      reads this, data
    {
      && data.Length == capacity < TWO_32 && capacity % RECV_BUFFER_SIZE == 0
      && pos == 0
      && capacity >= Max(size, requiredSize) + 896
      && (Max(size, requiredSize) < 0x100_0000 ==> capacity >= Max(size, requiredSize) + 1024)
      && capacity < Max(size, requiredSize) + 2176
      && (Max(size, requiredSize) < 0x100_0000 ==> capacity < Max(size, requiredSize) + 2048)
      && (requiredSize > 0 ==> size < requiredSize)
      && consumed + data[..size] == received
    }

    ghost function View(): State
      reads this, data
      requires !closed ==> size <= data.Length
    {
      if closed then Closed else Open(data[..size], requiredSize)
    }

    /** The size the buffer is made for: the one waited for, or the pending bytes. */
    function Wanted(): nat
      reads this
    {
      if requiredSize > 0 then requiredSize else size
    }

    constructor (maxHeaderSize: nat)
      ensures Valid() && fresh(data) && capacity == 1024 && View() == Open([], 0)
      ensures this.maxHeaderSize == maxHeaderSize && received == consumed == []
    {
      data := new byte[RECV_BUFFER_SIZE];
      capacity := RECV_BUFFER_SIZE;
      size, pos, requiredSize, closed := 0, 0, 0, false;
      this.maxHeaderSize := maxHeaderSize;
      received, consumed := [], [];
    }

    /** One event. `recv` stores `chunk`, at most as much as there is room for, or reports the end of
        the connection, modelled as the empty chunk. `onReadData` is the handler's answer to the
        bytes it may be shown at this event; every event may come with another one. */
    method ConnectionProcessing(chunk: seq<byte>, onReadData: seq<byte> -> Reply)
      requires Valid() && !closed && |chunk| <= capacity - size
      requires Honours(onReadData(data[..size] + chunk), size + |chunk|)
      requires Affordable(onReadData(data[..size] + chunk), size + |chunk|, maxHeaderSize)
      modifies this, data
      ensures var reply := onReadData(old(data[..size]) + chunk);
        && (closed ==> Closed == Step(old(View()), chunk, reply, maxHeaderSize))
        && (!closed ==> Valid() && View() == Step(old(View()), chunk, reply, maxHeaderSize))
        && (!closed ==> consumed == old(consumed) + Taken(old(View()), chunk, reply, maxHeaderSize))
      ensures !closed && !Handled(old(requiredSize), old(data[..size]) + chunk) ==> capacity == old(capacity)
      ensures !closed && Handled(old(requiredSize), old(data[..size]) + chunk) ==>
        capacity == RequiredCapacity(Wanted())
      ensures received == old(received) + chunk
      ensures data == old(data) || fresh(data)
    {
      hide RequiredCapacity;
      hide Affordable;
      hide Step;
      hide Taken;
      ghost var before, all := View(), data[..size] + chunk;
      Append(chunk);
      if chunk == [] {
        StepEnds(before, onReadData(all), maxHeaderSize);
        closed := true;
        return;
      }
      if requiredSize > 0 && requiredSize > size {
        StepWaits(before, chunk, onReadData(all), maxHeaderSize);
        return;
      }
      requiredSize := 0;
      StepHandled(before, chunk, onReadData(all), maxHeaderSize);
      AfterHandler(onReadData(data[..size]));
    }

    /** The rest of an event in which the handler was asked. */
    method AfterHandler(reply: Reply)
      requires data.Length == capacity < TWO_32 && size <= capacity && capacity % RECV_BUFFER_SIZE == 0
      requires !closed && Honours(reply, size) && Affordable(reply, size, maxHeaderSize)
      requires consumed + data[..size] == received
      modifies this`data, this`size, this`capacity, this`pos, this`requiredSize, this`closed, this`consumed, data
      ensures closed <==> reply.close || (reply.required == 0 && old(size) - reply.pos > maxHeaderSize)
      ensures !closed ==> Valid() && data[..size] == old(data[reply.pos..size]) && requiredSize == reply.required
      ensures !closed ==> consumed == old(consumed) + old(data[..reply.pos])
      ensures !closed ==> capacity == RequiredCapacity(Wanted())
      ensures data == old(data) || fresh(data)
    {
      hide RequiredCapacity;
      ghost var all := data[..size];
      pos, requiredSize := reply.pos, reply.required;
      consumed := consumed + data[..pos];
      if reply.close {
        closed := true;
        return;
      }
      size := size - pos;
      if requiredSize == 0 && size > maxHeaderSize {
        closed := true;
        return;
      }
      TakePrefix(old(consumed), all, pos);
      assert data[..pos] == all[..pos] && data[pos..pos + size] == all[pos..];
      Settle();
    }

    /** Adjusts the capacity to what is pending or waited for. */
    method Settle()
      requires data.Length == capacity && pos + size <= capacity
      requires (if requiredSize > 0 then size < requiredSize else size <= maxHeaderSize)
      requires Wanted() <= LARGEST_REQUEST
      requires consumed + data[pos..pos + size] == received
      modifies this`data, this`capacity, this`pos, data
      ensures Valid() && capacity == RequiredCapacity(Wanted())
      ensures data[..size] == old(data[pos..pos + size])
      ensures data == old(data) || fresh(data)
    {
      hide RequiredCapacity;
      CapacityHasRoom(Wanted());
      CapacityIsTight(Wanted());
      CapacityFits(Wanted());
      var requiredCapacity := RequiredCapacity(Wanted());
      Resize(requiredCapacity);
      pos := 0;
    }

    /** What `recv` does to the buffer. */
    method Append(chunk: seq<byte>)
      requires data.Length == capacity && size + |chunk| <= capacity
      requires consumed + data[..size] == received
      modifies this`size, this`received, data
      ensures size == old(size) + |chunk| && data[..size] == old(data[..size]) + chunk
      ensures consumed + data[..size] == received == old(received) + chunk
    {
      Appended(consumed, data[..size], chunk);
      received := received + chunk;
      forall i | 0 <= i < |chunk| {
        data[size + i] := chunk[i];
      }
      size := size + |chunk|;
    }

    /** Moves the pending bytes to the front, of a new array if the capacity changes. The copy within
        one array is given the meaning of a move, its ranges may overlap. */
    method Resize(requiredCapacity: nat)
      requires data.Length == capacity && pos + size <= capacity && size <= requiredCapacity
      modifies this`data, this`capacity, data
      ensures data.Length == capacity == requiredCapacity
      ensures data[..size] == old(data[pos..pos + size])
      ensures data == old(data) || fresh(data)
    {
      if capacity != requiredCapacity {
        var buf := new byte[requiredCapacity];
        forall i | 0 <= i < size {
          buf[i] := data[pos + i];
        }
        data := buf;
        capacity := requiredCapacity;
      } else {
        forall i | 0 <= i < size {
          data[i] := data[pos + i];
        }
      }
    }
  }
}
