/** The part of `java.nio.ByteBuffer` the packet code uses. An operation that would throw returns
    `false` or `None` and leaves the buffer as it was. */
module ByteBuffers {
  import opened Bytes

  class ByteBuffer {
    const data: array<byte>
    const limit: nat
    var position: nat

    ghost predicate Valid()
      reads this
    {
      position <= limit <= data.Length
    }

    constructor Allocate(capacity: nat)
      ensures Valid() && fresh(data)
      ensures data.Length == limit == capacity && position == 0
    {
      data := new byte[capacity](_ => 0);
      limit := capacity;
      position := 0;
    }

    constructor Wrap(contents: seq<byte>, limit: nat)
      requires limit <= |contents|
      ensures Valid() && fresh(data)
      ensures data[..] == contents && this.limit == limit && position == 0
    {
      data := new byte[|contents|](i requires 0 <= i < |contents| => contents[i]);
      this.limit := limit;
      position := 0;
    }

    method SetPosition(p: int) returns (ok: bool)
      requires Valid()
      modifies this`position
      ensures Valid()
      ensures ok == (0 <= p <= limit)
      ensures position == if ok then p else old(position)
    {
      ok := 0 <= p <= limit;
      if ok {
        position := p;
      }
    }

    method Get() returns (b: Option<byte>)
      requires Valid()
      modifies this`position
      ensures Valid()
      ensures old(position) == limit ==> b == None && position == old(position)
      ensures old(position) < limit ==> b == Some(data[old(position)]) && position == old(position) + 1
    {
      if position == limit {
        b := None;
      } else {
        b := Some(data[position]);
        position := position + 1;
      }
    }

    /** Relative bulk get. */
    method GetBulk(n: nat) returns (bs: Option<seq<byte>>)
      requires Valid()
      modifies this`position
      ensures Valid()
      ensures bs == if old(position) + n > limit then None else Some(data[old(position)..old(position) + n])
    {
      if n > limit - position {
        bs := None;
      } else {
        bs := Some(data[position..position + n]);
        position := position + n;
      }
    }

    /** Absolute get. */
    method GetAt(i: int) returns (b: Option<byte>)
      requires Valid()
      ensures b == if 0 <= i < limit then Some(data[i]) else None
    {
      b := if 0 <= i < limit then Some(data[i]) else None;
    }

    /** Absolute put. */
    method PutAt(i: int, b: byte) returns (ok: bool)
      requires Valid()
      modifies data
      ensures ok == (0 <= i < limit)
      ensures data[..] == if ok then old(data[..])[i := b] else old(data[..])
    {
      ok := 0 <= i < limit;
      if ok {
        data[i] := b;
      }
    }

    /** Relative bulk put. */
    method Put(src: seq<byte>) returns (ok: bool)
      requires Valid()
      modifies this`position, data
      ensures Valid()
      ensures ok == (old(position) + |src| <= limit)
      ensures ok ==> position == old(position) + |src|
      ensures ok ==> data[..] == old(data[..])[..old(position)] + src + old(data[..])[position..]
      ensures !ok ==> position == old(position) && data[..] == old(data[..])
    {
      ok := |src| <= limit - position;
      if ok {
        var start := position;
        forall i | 0 <= i < |src| {
          data[start + i] := src[i];
        }
        position := start + |src|;
      }
    }
  }
}
