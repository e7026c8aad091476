/** The record loop of the decoder: when it ends, and what one turn of it does. */
module RecordLoop {
  import opened Bytes
  import opened AttributeValues
  import opened AttributeMaps
  import opened PacketFormat

  // ----- Where the cursor goes -----

  /** Where the cursor is after one more turn, if the turn does not end the loop. Only whether an entity
      has been read matters of what has been decoded so far. */
  function Next(data: seq<byte>, limit: nat, pos: int, started: bool): Option<int>
    requires limit <= |data|
  {
    match ReadRecord(data, limit, pos, started)
    case EntityRecord(_, _, next) => Some(next)
    case AttributeRecord(_, _, next) => Some(next)
    case _ => None
  }

  /** The loop has not ended after n turns. */
  predicate GoesOn(data: seq<byte>, limit: nat, pos: int, size: int32, started: bool, n: nat)
    requires limit <= |data|
    decreases n
  {
    && Wrap32(pos + EAV_HEADER_SIZE) <= size
    && (n > 0 ==>
          && Next(data, limit, pos, started).Some?
          && GoesOn(data, limit, Next(data, limit, pos, started).value, size, true, n - 1))
  }

  /** The cursor after n turns. */
  function Reached(data: seq<byte>, limit: nat, pos: int, size: int32, started: bool, n: nat): int
    requires limit <= |data| && GoesOn(data, limit, pos, size, started, n)
    decreases n
  {
    if n == 0 then pos else Reached(data, limit, Next(data, limit, pos, started).value, size, true, n - 1)
  }

  lemma NextInside(data: seq<byte>, limit: nat, pos: int, started: bool)
    requires limit <= |data| && Next(data, limit, pos, started).Some?
    ensures 0 <= pos < limit
  {
    hide ReadHead;
    hide ReadAttribute;
  }

  lemma {:induction false} GoesOnPrefix(data: seq<byte>, limit: nat, pos: int, size: int32, started: bool,
                                        a: nat, n: nat)
    requires limit <= |data| && GoesOn(data, limit, pos, size, started, n) && a <= n
    ensures GoesOn(data, limit, pos, size, started, a)
    decreases a
  {
    hide Next;
    hide Wrap32;
    if a > 0 {
      GoesOnPrefix(data, limit, Next(data, limit, pos, started).value, size, true, a - 1, n - 1);
    }
  }

  /** Going on for a + b turns is going on for a, and for b from there. */
  lemma {:induction false} GoesOnSplit(data: seq<byte>, limit: nat, pos: int, size: int32, started: bool,
                                       a: nat, b: nat, there: int, sum: nat)
    requires limit <= |data| && GoesOn(data, limit, pos, size, started, a) && sum == a + b
    requires there == Reached(data, limit, pos, size, started, a)
    ensures GoesOn(data, limit, pos, size, started, sum) <==> GoesOn(data, limit, there, size, started || a > 0, b)
    ensures GoesOn(data, limit, pos, size, started, sum) ==>
      Reached(data, limit, pos, size, started, sum) == Reached(data, limit, there, size, started || a > 0, b)
    decreases a
  {
    hide Next;
    hide Wrap32;
    if a > 0 {
      GoesOnSplit(data, limit, Next(data, limit, pos, started).value, size, true, a - 1, b, there, sum - 1);
    }
  }

  /** A position the cursor turns from lies in the buffer. */
  lemma ReachedInside(data: seq<byte>, limit: nat, pos: int, size: int32, started: bool, n: nat, k: nat)
    requires limit <= |data| && GoesOn(data, limit, pos, size, started, n) && k < n
    ensures GoesOn(data, limit, pos, size, started, k)
    ensures 0 <= Reached(data, limit, pos, size, started, k) < limit
  {
    hide Next;
    GoesOnPrefix(data, limit, pos, size, started, k, n);
    var there := Reached(data, limit, pos, size, started, k);
    GoesOnSplit(data, limit, pos, size, started, k, n - k, there, n);
    NextInside(data, limit, there, started || k > 0);
  }

  // ----- Endless loops are those that return -----

  lemma {:induction false} Range(n: nat) returns (numbers: set<int>)
    ensures |numbers| == n && forall x :: x in numbers <==> 0 <= x < n
  {
    if n == 0 {
      numbers := {};
    } else {
      numbers := Range(n - 1);
      numbers := numbers + {n - 1};
    }
  }

  lemma {:induction false} DistinctCount(s: seq<int>)
    requires forall i, j :: 0 <= i < j < |s| ==> s[i] != s[j]
    ensures |set x | x in s| == |s|
  {
    var all := set x | x in s;
    if s == [] {
      assert all == {};
    } else {
      var n := |s| - 1;
      DistinctCount(s[..n]);
      var before := set x | x in s[..n];
      assert all == before + {s[n]} && s[n] !in before;
    }
  }

  /** Among more numbers below n than there are, two are equal. */
  lemma Pigeonhole(s: seq<int>, n: nat) returns (i: nat, j: nat)
    requires |s| > n && forall k :: 0 <= k < |s| ==> 0 <= s[k] < n
    ensures i < j < |s| && s[i] == s[j]
  {
    if forall i, j :: 0 <= i < j < |s| ==> s[i] != s[j] {
      DistinctCount(s);
      var numbers := Range(n);
      SubsetSmaller((set x | x in s), numbers);
    }
    i, j :| 0 <= i < j < |s| && s[i] == s[j];
  }

  lemma SubsetSmaller(a: set<int>, b: set<int>)
    requires a <= b
    ensures |a| <= |b|
  {
    assert b == a + (b - a);
  }

  /** The cursor comes back to where it was. */
  ghost predicate Returns(data: seq<byte>, limit: nat, pos: int, size: int32, started: bool, i: nat, j: nat)
    requires limit <= |data|
  {
    && i < j
    && (started || i > 0)
    && GoesOn(data, limit, pos, size, started, j)
    && GoesOn(data, limit, pos, size, started, i)
    && Reached(data, limit, pos, size, started, i) == Reached(data, limit, pos, size, started, j)
  }

  ghost predicate Circles(data: seq<byte>, limit: nat, pos: int, size: int32, started: bool)
    requires limit <= |data|
  {
    exists i: nat, j: nat :: Returns(data, limit, pos, size, started, i, j)
  }

  /** A loop from which the cursor returns to the same place in d turns goes on for ever. */
  lemma {:induction false} CycleGoesOn(data: seq<byte>, limit: nat, pos: int, size: int32, d: nat, n: nat)
    requires limit <= |data| && d > 0 && GoesOn(data, limit, pos, size, true, d)
    requires Reached(data, limit, pos, size, true, d) == pos
    ensures GoesOn(data, limit, pos, size, true, n)
    decreases n
  {
    hide Next;
    if n <= d {
      GoesOnPrefix(data, limit, pos, size, true, n, d);
    } else {
      CycleGoesOn(data, limit, pos, size, d, n - d);
      GoesOnSplit(data, limit, pos, size, true, d, n - d, pos, n);
    }
  }

  lemma ReturningGoesOn(data: seq<byte>, limit: nat, pos: int, size: int32, started: bool, i: nat, j: nat, n: nat)
    requires limit <= |data| && Returns(data, limit, pos, size, started, i, j)
    ensures GoesOn(data, limit, pos, size, started, n)
  {
    hide Next;
    var there := Reached(data, limit, pos, size, started, i);
    GoesOnSplit(data, limit, pos, size, started, i, j - i, there, j);
    CycleGoesOn(data, limit, there, size, j - i, n);
    GoesOnSplit(data, limit, pos, size, started, i, n, there, i + n);
    GoesOnPrefix(data, limit, pos, size, started, n, i + n);
  }

  /** A loop that goes on for more turns than there are positions comes back to one of them. */
  lemma LongReturns(data: seq<byte>, limit: nat, pos: int, size: int32, started: bool) returns (i: nat, j: nat)
    requires limit <= |data| && GoesOn(data, limit, pos, size, started, EnoughTurns(limit))
    ensures Returns(data, limit, pos, size, started, i, j) && j < EnoughTurns(limit)
  {
    hide GoesOn;
    hide Reached;
    forall k: nat | k < EnoughTurns(limit)
      ensures GoesOn(data, limit, pos, size, started, k)
      ensures 0 <= Reached(data, limit, pos, size, started, k) < limit
    {
      ReachedInside(data, limit, pos, size, started, EnoughTurns(limit), k);
    }
    var visited := seq(limit + 1, k requires 0 <= k < limit + 1 => Reached(data, limit, pos, size, started, k + 1));
    i, j := Pigeonhole(visited, limit);
    i, j := i + 1, j + 1;
  }

  /** A loop that is left after some number of turns is left with the same outcome for any larger one. */
  lemma {:induction false} MoreTurns(data: seq<byte>, limit: nat, pos: int, size: int32, entities: seq<Entity>,
                                     n: nat, m: nat)
    requires limit <= |data| && n <= m && DecodeTurns(data, limit, pos, size, entities, n) != Endless
    ensures DecodeTurns(data, limit, pos, size, entities, m) == DecodeTurns(data, limit, pos, size, entities, n)
    decreases n
  {
    hide ReadRecord;
    hide PutLast;
    hide Wrap32;
    if Wrap32(pos + EAV_HEADER_SIZE) <= size {
      match ReadRecord(data, limit, pos, entities != []) {
        case EntityRecord(num, kind, next) =>
          MoreTurns(data, limit, next, size, entities + [Entity(num, kind, [])], n - 1, m - 1);
        case AttributeRecord(key, value, next) =>
          MoreTurns(data, limit, next, size, PutLast(entities, key, value), n - 1, m - 1);
        case _ =>
      }
    }
  }

  /** What has been decoded does not matter for whether the loop goes on. */
  lemma {:induction false} EndlessGoesOn(data: seq<byte>, limit: nat, pos: int, size: int32, entities: seq<Entity>,
                                         n: nat)
    requires limit <= |data|
    ensures DecodeTurns(data, limit, pos, size, entities, n) == Endless
       <==> GoesOn(data, limit, pos, size, entities != [], n)
    decreases n
  {
    hide ReadRecord;
    hide PutLast;
    hide Wrap32;
    if Wrap32(pos + EAV_HEADER_SIZE) <= size && n > 0 {
      match ReadRecord(data, limit, pos, entities != []) {
        case EntityRecord(num, kind, next) =>
          EndlessGoesOn(data, limit, next, size, entities + [Entity(num, kind, [])], n - 1);
        case AttributeRecord(key, value, next) =>
          EndlessGoesOn(data, limit, next, size, PutLast(entities, key, value), n - 1);
        case _ =>
      }
    }
  }

  /** No number of turns ends the loop. */
  ghost predicate NeverEnds(data: seq<byte>, limit: nat, pos: int, size: int32, entities: seq<Entity>)
    requires limit <= |data|
  {
    forall n: nat :: DecodeTurns(data, limit, pos, size, entities, n) == Endless
  }

  /** The loop is Endless exactly when no number of turns ends it, that is, when the cursor returns to
      a position where it has been. Otherwise any larger number of turns has the same outcome. */
  lemma EndlessExactly(data: seq<byte>, limit: nat, pos: int, size: int32, entities: seq<Entity>)
    requires limit <= |data|
    ensures DecodeRecords(data, limit, pos, size, entities) == Endless
       <==> NeverEnds(data, limit, pos, size, entities)
    ensures DecodeRecords(data, limit, pos, size, entities) == Endless
       <==> Circles(data, limit, pos, size, entities != [])
    ensures forall n: nat :: n >= EnoughTurns(limit) ==>
      DecodeTurns(data, limit, pos, size, entities, n) == DecodeRecords(data, limit, pos, size, entities)
  {
    hide DecodeTurns;
    hide GoesOn;
    hide Returns;
    var started := entities != [];
    EndlessGoesOn(data, limit, pos, size, entities, EnoughTurns(limit));
    if i: nat, j: nat :| Returns(data, limit, pos, size, started, i, j) {
      ReturningGoesOn(data, limit, pos, size, started, i, j, EnoughTurns(limit));
    }
    if DecodeRecords(data, limit, pos, size, entities) == Endless {
      var i, j := LongReturns(data, limit, pos, size, started);
      forall n: nat
        ensures DecodeTurns(data, limit, pos, size, entities, n) == Endless
      {
        ReturningGoesOn(data, limit, pos, size, started, i, j, n);
        EndlessGoesOn(data, limit, pos, size, entities, n);
      }
    } else {
      forall n: nat | n >= EnoughTurns(limit)
        ensures DecodeTurns(data, limit, pos, size, entities, n) == DecodeRecords(data, limit, pos, size, entities)
      {
        MoreTurns(data, limit, pos, size, entities, EnoughTurns(limit), n);
      }
    }
  }

  // ----- One turn of the record loop -----

  lemma DecodeEnds(data: seq<byte>, limit: nat, pos: int, size: int32, entities: seq<Entity>)
    requires limit <= |data| && Wrap32(pos + EAV_HEADER_SIZE) > size
    ensures DecodeRecords(data, limit, pos, size, entities) == Done(entities)
  {
    hide Wrap32;
  }

  /** A data section up to the largest int: the loop's test overflows, one more turn is begun. */
  lemma DecodeOverruns(data: seq<byte>, limit: nat, entities: seq<Entity>)
    requires limit <= |data| && limit <= MAX_INT
    ensures DecodeRecords(data, limit, MAX_INT, MAX_INT, entities) == Thrown(OutOfBounds)
  {
    hide PutLast;
  }

  lemma DecodeAttribute(data: seq<byte>, limit: nat, pos: int, size: int32, entities: seq<Entity>,
                        key: DualKey, value: AttributeValue, next: int)
    requires limit <= |data| && Wrap32(pos + EAV_HEADER_SIZE) <= size && entities != []
    requires ReadRecord(data, limit, pos, true) == AttributeRecord(key, value, next)
    ensures DecodeRecords(data, limit, pos, size, entities)
         == DecodeRecords(data, limit, next, size, PutLast(entities, key, value))
  {
    hide ReadRecord;
    hide PutLast;
    hide Wrap32;
    EndlessExactly(data, limit, next, size, PutLast(entities, key, value));
    EndlessExactly(data, limit, pos, size, entities);
    assert DecodeTurns(data, limit, pos, size, entities, EnoughTurns(limit) + 1)
        == DecodeTurns(data, limit, next, size, PutLast(entities, key, value), EnoughTurns(limit));
  }

  lemma DecodeEntity(data: seq<byte>, limit: nat, pos: int, size: int32, entities: seq<Entity>,
                     num: int32, kind: int32, next: int)
    requires limit <= |data| && Wrap32(pos + EAV_HEADER_SIZE) <= size
    requires ReadRecord(data, limit, pos, entities != []) == EntityRecord(num, kind, next)
    ensures DecodeRecords(data, limit, pos, size, entities)
         == DecodeRecords(data, limit, next, size, entities + [Entity(num, kind, [])])
  {
    hide ReadRecord;
    hide PutLast;
    hide Wrap32;
    EndlessExactly(data, limit, next, size, entities + [Entity(num, kind, [])]);
    EndlessExactly(data, limit, pos, size, entities);
    assert DecodeTurns(data, limit, pos, size, entities, EnoughTurns(limit) + 1)
        == DecodeTurns(data, limit, next, size, entities + [Entity(num, kind, [])], EnoughTurns(limit));
  }
}
