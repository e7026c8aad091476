/** What submissions, turns and timer passes may do to the query pool, as relations between two of its
    states, and how these compose. */
module PoolTurns {
  import opened Bytes
  import opened QueryPool

  // ----- What one turn may do to the other connections -----

  /** Unchanged, or it was idle and got a query no earlier than `now`. */
  predicate Touched(before: DbConnection, after: DbConnection, now: int) {
    after == before || (Idle(before) && after.query.Some? && after.status != Error && after.timestamp >= now)
  }

  /** The calls from a to b start a query on connection j. */
  ghost predicate StartedOn(a: seq<Call>, b: seq<Call>, j: nat) {
    exists k :: |a| <= k < |b| && b[k].DoQuery? && b[k].i == j
  }

  /** The calls from a to b include `call`. */
  ghost predicate Asked(a: seq<Call>, b: seq<Call>, call: Call) {
    exists k :: |a| <= k < |b| && b[k] == call
  }

  /** The calls from a to b all start queries. */
  ghost predicate Starts(a: seq<Call>, b: seq<Call>) {
    a <= b && forall k :: |a| <= k < |b| ==> b[k].DoQuery?
  }

  /** The calls from a to b call no other hook: they start queries, or note that a hook is back. */
  ghost predicate OnlyStarts(a: seq<Call>, b: seq<Call>) {
    a <= b && forall k :: |a| <= k < |b| ==> b[k].DoQuery? || b[k].Returned?
  }

  /** As `OnlyStarts`, and where `ok` the last entry is `mark`. */
  ghost predicate Concluded(a: seq<Call>, b: seq<Call>, ok: bool, mark: Call) {
    if ok then a < b && b[|b| - 1] == mark && OnlyStarts(a, b[..|b| - 1]) else OnlyStarts(a, b)
  }

  /** In the calls from a to b `CheckConnect` has answered yes. */
  ghost predicate WasOpened(a: seq<Call>, b: seq<Call>) {
    exists k :: |a| <= k < |b| && b[k].SaidOpen?
  }

  /** In the calls from a to b connection j was opened: `CheckConnect` said so, or `DoConnect` left it
      ready. */
  ghost predicate JustOpened(a: seq<Call>, b: seq<Call>, j: nat) {
    Asked(a, b, Call.SaidOpen(j)) || Asked(a, b, Call.LeftReady(j))
  }

  /** Connection j is unchanged, or was idle and has been given a query and started on it. */
  ghost predicate Fed(s: Pool, s': Pool, now: int, j: nat) {
    && j < |s.connections| == |s'.connections|
    && Touched(s.connections[j], s'.connections[j], now)
    && (s'.connections[j] != s.connections[j] ==> StartedOn(s.calls, s'.calls, j))
  }

  /** The connection does not sit idle beside waiting queries. */
  predicate AtWork(c: DbConnection, queue: seq<Query>) {
    queue != [] ==> !Idle(c)
  }

  ghost predicate AllAtWork(cs: seq<DbConnection>, queue: seq<Query>) {
    forall j :: 0 <= j < |cs| ==> AtWork(cs[j], queue)
  }

  /** What submissions do: idle connections get queries, and the queue grows only when none is idle. */
  ghost predicate Absorbed(s: Pool, s': Pool, now: int) {
    && |s.connections| == |s'.connections|
    && (forall j :: 0 <= j < |s.connections| ==> Fed(s, s', now, j))
    && Starts(s.calls, s'.calls)
    && s.queue <= s'.queue
    && (s'.queue != s.queue ==> forall j :: 0 <= j < |s'.connections| ==> !Idle(s'.connections[j]))
    && s'.delivered == s.delivered
    && s'.badConnections == s.badConnections
  }

  /** What a turn on connection i may do: any change of that connection and any calls for it;
      submissions to the others; deliveries are only added, and no other connection falls idle beside
      waiting queries. */
  ghost predicate Turned(s: Pool, s': Pool, now: int, i: nat) {
    && i < |s.connections| == |s'.connections|
    && (forall j :: 0 <= j < |s.connections| && j != i ==> Fed(s, s', now, j))
    && (forall j :: 0 <= j < |s.connections| && j != i && AtWork(s.connections[j], s.queue) ==>
          AtWork(s'.connections[j], s'.queue))
    && s.calls <= s'.calls
    && (forall k :: |s.calls| <= k < |s'.calls| ==> s'.calls[k].i == i || s'.calls[k].DoQuery?)
    && s.delivered <= s'.delivered
    && s'.badConnections == s.badConnections
  }

  lemma CallsExtend(a: seq<Call>, b: seq<Call>, c: seq<Call>, j: nat)
    requires a <= b <= c
    ensures StartedOn(a, b, j) || StartedOn(b, c, j) ==> StartedOn(a, c, j)
    ensures forall call :: Asked(a, b, call) || Asked(b, c, call) ==> Asked(a, c, call)
    ensures WasOpened(a, c) <==> WasOpened(a, b) || WasOpened(b, c)
    ensures OnlyStarts(a, b) && OnlyStarts(b, c) ==> OnlyStarts(a, c)
    ensures Starts(a, b) && Starts(b, c) ==> Starts(a, c)
  {
    if StartedOn(a, b, j) {
      var k :| |a| <= k < |b| && b[k].DoQuery? && b[k].i == j;
      assert c[k] == b[k];
    }
    forall call | Asked(a, b, call)
      ensures Asked(a, c, call)
    {
      var k :| |a| <= k < |b| && b[k] == call;
      assert c[k] == b[k];
    }
    if k :| |a| <= k < |b| && b[k].SaidOpen? {
      assert c[k] == b[k];
    }
    if k :| |a| <= k < |c| && c[k].SaidOpen? {
      assert k < |b| ==> c[k] == b[k];
    }
  }

  lemma FedTransitive(s: Pool, s1: Pool, s2: Pool, t: int, t1: int, j: nat)
    requires t <= t1 && Fed(s, s1, t, j) && Fed(s1, s2, t1, j) && s.calls <= s1.calls <= s2.calls
    ensures Fed(s, s2, t, j)
  {
    CallsExtend(s.calls, s1.calls, s2.calls, j);
    hide StartedOn;
  }

  lemma AbsorbedTransitive(s: Pool, s1: Pool, s2: Pool, t: int, t1: int)
    requires t <= t1 && Absorbed(s, s1, t) && Absorbed(s1, s2, t1)
    ensures Absorbed(s, s2, t)
  {
    CallsExtend(s.calls, s1.calls, s2.calls, 0);
    forall j: nat | j < |s.connections|
      ensures Fed(s, s2, t, j)
    {
      assert Fed(s, s1, t, j) && Fed(s1, s2, t1, j);
      FedTransitive(s, s1, s2, t, t1, j);
    }
    if s2.queue != s.queue && s1.queue == s2.queue {
      forall j: nat | j < |s2.connections|
        ensures !Idle(s2.connections[j])
      {
        assert Fed(s1, s2, t1, j) && !Idle(s1.connections[j]);
      }
    }
  }

  lemma NothingAbsorbed(s: Pool, now: int)
    ensures Absorbed(s, s, now)
  {
  }

  lemma AbsorbedTurn(s: Pool, s': Pool, now: int, i: nat)
    requires Absorbed(s, s', now) && i < |s.connections|
    ensures Turned(s, s', now, i) && Fed(s, s', now, i) && OnlyStarts(s.calls, s'.calls)
    ensures s'.delivered == s.delivered
    ensures AllAtWork(s.connections, s.queue) ==> AllAtWork(s'.connections, s'.queue)
    ensures s.queue == [] && s'.queue != [] ==> !Idle(s'.connections[i])
    ensures AtWork(s.connections[i], s.queue) ==> AtWork(s'.connections[i], s'.queue)
  {
    hide StartedOn;
    forall j: nat | j < |s.connections| && AtWork(s.connections[j], s.queue)
      ensures AtWork(s'.connections[j], s'.queue)
    {
      assert Fed(s, s', now, j);
    }
  }

  /** A query on a ready connection has run out of time. */
  predicate Overdue(c: DbConnection, now: int, timeout: nat) {
    c.status == Ready && c.query.Some? && now - c.timestamp > timeout
  }

  /** The connections given up no longer than the timeout ago. */
  function Unexpired(cs: seq<DbConnection>, now: int, timeout: nat): (left: seq<DbConnection>)
    ensures forall c :: c in left <==> c in cs && now - c.timestamp <= timeout
  {
    if cs == [] then []
    else if now - cs[0].timestamp > timeout then Unexpired(cs[1..], now, timeout)
    else [cs[0]] + Unexpired(cs[1..], now, timeout)
  }

  lemma FirstUnexpired(cs: seq<DbConnection>, k: nat, now: int, timeout: nat)
    requires k < |cs|
    ensures Unexpired(cs[k..], now, timeout)
      == (if now - cs[k].timestamp > timeout then [] else [cs[k]]) + Unexpired(cs[k + 1..], now, timeout)
  {
    assert cs[k..][1..] == cs[k + 1..];
  }

  lemma NoneUnexpired(cs: seq<DbConnection>, now: int, timeout: nat)
    requires cs == []
    ensures Unexpired(cs, now, timeout) == []
  {
  }

  lemma PurgeAllowed(cs: seq<DbConnection>, now: int, timeout: nat)
    ensures forall c :: c in Unexpired(cs, now, timeout) ==> c in cs
  {
  }

  /** When an idle connection counts as last used, after a timer pass at `now`. */
  function PingedAt(c: DbConnection, now: int): int {
    if now - c.timestamp > 3600 then now else c.timestamp
  }

  /** Connection i is the first idle one. */
  predicate FirstIdle(cs: seq<DbConnection>, i: nat) {
    i < |cs| && Idle(cs[i]) && forall j :: 0 <= j < i ==> !Idle(cs[j])
  }

  /** Connection i is the first one with the descriptor. */
  predicate FirstWith(cs: seq<DbConnection>, fd: int, i: nat) {
    i < |cs| && cs[i].fd == fd && forall j :: 0 <= j < i ==> cs[j].fd != fd
  }

  predicate SameHistories(s: Pool, s': Pool) {
    && s'.delivered == s.delivered && s'.accepted == s.accepted && s'.rejected == s.rejected
    && s'.pushed == s.pushed && s'.popped == s.popped
  }

  lemma TurnedTransitive(s: Pool, s1: Pool, s2: Pool, t: int, t1: int, i: nat)
    requires t <= t1 && Turned(s, s1, t, i) && Turned(s1, s2, t1, i)
    ensures Turned(s, s2, t, i)
  {
    forall j: nat | j < |s.connections| && j != i
      ensures Fed(s, s2, t, j)
    {
      assert Fed(s, s1, t, j) && Fed(s1, s2, t1, j);
      FedTransitive(s, s1, s2, t, t1, j);
    }
    forall k | |s.calls| <= k < |s2.calls|
      ensures s2.calls[k].i == i || s2.calls[k].DoQuery?
    {
      if k < |s1.calls| {
        assert s2.calls[k] == s1.calls[k];
      }
    }
  }

  /** A turn that changes connection i alone. */
  lemma LoneTurn(s: Pool, s': Pool, now: int, i: nat)
    requires i < |s.connections| == |s'.connections| && s'.connections == s.connections[i := s'.connections[i]]
    requires s'.queue == s.queue || (s.queue != [] && s'.queue == s.queue[1..])
    requires s.calls <= s'.calls && s.delivered <= s'.delivered
    requires s'.badConnections == s.badConnections
    requires forall k :: |s.calls| <= k < |s'.calls| ==> s'.calls[k].i == i
    ensures Turned(s, s', now, i)
  {
    hide StartedOn;
  }

  lemma OthersAtWork(s: Pool, s': Pool, now: int, i: nat, cs: seq<DbConnection>, queue: seq<Query>)
    requires Turned(s, s', now, i) && |cs| == |s.connections| && s.queue == queue
    requires forall j :: 0 <= j < |cs| && j != i ==> s.connections[j] == cs[j]
    ensures AllAtWork(cs, queue) ==> forall j :: 0 <= j < |cs| && j != i ==> AtWork(s'.connections[j], s'.queue)
  {
  }

  lemma TurnedFacts(s: Pool, s': Pool, now: int, i: nat)
    requires Turned(s, s', now, i)
    ensures i < |s.connections| == |s'.connections| && s.delivered <= s'.delivered && s.calls <= s'.calls
    ensures s'.badConnections == s.badConnections
  {
  }

  /** Without a query to deliver or to take, a turn on connection i concerns nothing else. */
  ghost predicate Unaffected(s: Pool, s': Pool, i: nat) {
    i < |s.connections| == |s'.connections| && s.connections[i].query == None && s.queue == [] ==>
      s'.connections == s.connections[i := s'.connections[i]] && s'.connections[i].query == None && s'.queue == []
  }

  lemma UnaffectedTransitive(s: Pool, s1: Pool, s2: Pool, i: nat)
    requires Unaffected(s, s1, i) && Unaffected(s1, s2, i)
    requires |s.connections| == |s1.connections| == |s2.connections|
    ensures Unaffected(s, s2, i)
  {
  }

  /** What an event on the connection found as c leads to: a look at its result or at its opening,
      or nothing. */
  ghost predicate Answered(c: DbConnection, i: nat, s: Pool, s': Pool) {
    match c.status
    case Ready => if c.query.Some? then OnlyStarts(s.calls + [Call.CheckResult(i)], s'.calls) else s' == s
    case Connect =>
      Concluded(s.calls + [Call.CheckConnect(i)], s'.calls, WasOpened(s.calls, s'.calls), Call.SaidOpen(i))
    case _ => s' == s
  }

  // ----- The timer pass -----

  /** The connection found as c was asked what its status calls for. */
  ghost predicate Served(c: DbConnection, j: nat, a: seq<Call>, b: seq<Call>, now: int) {
    && (c.status == Wait ==> Asked(a, b, Call.DoConnect(j, now)))
    && (c.status == Connect ==> Asked(a, b, Call.CheckConnect(j)))
    && (Idle(c) && now - c.timestamp > 3600 ==> Asked(a, b, Call.DoPing(j)) || StartedOn(a, b, j))
    && c.status != Error
  }

  /** How the connection found as c0 is left: without an overdue query, not idle beside waiting
      queries, and not trying to connect beyond its time. */
  predicate Settled(c0: DbConnection, c: DbConnection, queue: seq<Query>, now: int,
                    queryTimeout: nat, connectTimeout: nat) {
    && !Overdue(c, now, queryTimeout)
    && AtWork(c, queue)
    && (c0.status == Connect ==> c.status != Ready && (c.status == Error || now - c.timestamp <= connectTimeout))
  }

  /** An overdue query has been delivered as expired. */
  predicate Expired(c: DbConnection, delivered: seq<Query>, now: int, queryTimeout: nat) {
    Overdue(c, now, queryTimeout) ==> Query(c.query.value.id, ResultExpired) in delivered
  }

  /** A query on a ready connection that has not run out of time. */
  predicate InTime(c: DbConnection, now: int, queryTimeout: nat) {
    c.status == Ready && c.query.Some? && now - c.timestamp <= queryTimeout
  }

  /** Still to be connected, or idle so that a submission may have sent it back there. */
  predicate Unconnected(c: DbConnection) {
    c.status == Wait || c.status == Connect || Idle(c)
  }

  /** The connection found as c may be opened: it was not connected, or a query was started on it that
      sent it back there. */
  ghost predicate Openable(c: DbConnection, j: nat, a: seq<Call>, b: seq<Call>) {
    c.status == Wait || c.status == Connect || (Idle(c) && StartedOn(a, b, j))
  }

  /** What the pass has done to the first i connections. */
  ghost predicate Done(start: Pool, s: Pool, now: int, i: nat, queryTimeout: nat, connectTimeout: nat) {
    && i <= |start.connections| == |s.connections|
    && start.delivered <= s.delivered
    && start.calls <= s.calls
    && (forall j :: 0 <= j < i ==> Served(start.connections[j], j, start.calls, s.calls, now))
    && (forall j :: 0 <= j < i ==> Expired(start.connections[j], s.delivered, now, queryTimeout))
    && (forall j :: 0 <= j < i ==>
          || JustOpened(start.calls, s.calls, j)
          || Settled(start.connections[j], s.connections[j], s.queue, now, queryTimeout, connectTimeout))
    && (forall j: nat :: JustOpened(start.calls, s.calls, j) ==>
          j < i && Openable(start.connections[j], j, start.calls, s.calls))
    && (forall j :: 0 <= j < i && InTime(start.connections[j], now, queryTimeout) ==>
          s.connections[j] == start.connections[j])
    && (forall j: nat :: Asked(start.calls, s.calls, Call.DoPing(j)) ==>
          j < i && Idle(start.connections[j]) && now - start.connections[j].timestamp > 3600)
  }

  /** And has not got to the others. */
  ghost predicate Passed(start: Pool, s: Pool, now: int, i: nat, queryTimeout: nat, connectTimeout: nat) {
    && Done(start, s, now, i, queryTimeout, connectTimeout)
    && s.badConnections == start.badConnections
    && (forall j :: i <= j < |s.connections| ==> Fed(start, s, now, j))
  }

  lemma PassBegins(s: Pool, now: int, queryTimeout: nat, connectTimeout: nat)
    ensures Passed(s, s, now, 0, queryTimeout, connectTimeout)
  {
    hide StartedOn;
  }

  lemma PassSoFar(start: Pool, s: Pool, now: int, i: nat, queryTimeout: nat, connectTimeout: nat)
    requires Passed(start, s, now, i, queryTimeout, connectTimeout) && i < |s.connections|
    ensures Touched(start.connections[i], s.connections[i], now) && start.calls <= s.calls
  {
    assert Fed(start, s, now, i);
  }

  lemma ServedSince(start: Pool, s: Pool, s': Pool, now: int, i: nat)
    requires Fed(start, s, now, i) && start.calls <= s.calls <= s'.calls
    requires Served(s.connections[i], i, s.calls, s'.calls, now)
    ensures Served(start.connections[i], i, start.calls, s'.calls, now)
  {
    CallsExtend(start.calls, s.calls, s'.calls, i);
    hide StartedOn;
    hide Asked;
  }

  lemma StillServed(c: DbConnection, j: nat, a: seq<Call>, b: seq<Call>, b': seq<Call>, now: int)
    requires Served(c, j, a, b, now) && a <= b <= b'
    ensures Served(c, j, a, b', now)
  {
    CallsExtend(a, b, b', j);
    hide StartedOn;
    hide Asked;
  }

  lemma StillSettled(c0: DbConnection, s: Pool, s': Pool, now: int, t: int, i: nat, j: nat,
                     queryTimeout: nat, connectTimeout: nat)
    requires Turned(s, s', t, i) && now <= t && j < |s.connections| && j != i
    requires Settled(c0, s.connections[j], s.queue, now, queryTimeout, connectTimeout)
    ensures Settled(c0, s'.connections[j], s'.queue, now, queryTimeout, connectTimeout)
  {
    assert Fed(s, s', t, j);
  }

  lemma OpenedSince(a: seq<Call>, b: seq<Call>, c: seq<Call>, j: nat)
    requires a <= b <= c
    ensures JustOpened(a, b, j) || JustOpened(b, c, j) ==> JustOpened(a, c, j)
  {
    CallsExtend(a, b, c, j);
    hide Asked;
  }

  lemma OpenedInTurn(start: Pool, s: Pool, s': Pool, now: int, t: int, i: nat, j: nat,
                     queryTimeout: nat, connectTimeout: nat)
    requires Passed(start, s, now, i, queryTimeout, connectTimeout) && i < |s.connections| && Turned(s, s', t, i)
    requires JustOpened(s.calls, s'.calls, i) ==> s.connections[i].status == Wait || s.connections[i].status == Connect
    requires JustOpened(start.calls, s'.calls, j)
    ensures j < i + 1 && Openable(start.connections[j], j, start.calls, s'.calls)
  {
    hide Served;
    hide Settled;
    assert Fed(start, s, now, i);
    CallsExtend(start.calls, s.calls, s'.calls, j);
    hide StartedOn;
    if !JustOpened(start.calls, s.calls, j) {
      OpenedWhen(start.calls, s.calls, s'.calls, j);
      OnlyItsOwn(s, s', t, i, j);
    }
  }

  lemma OpenedWhen(a: seq<Call>, b: seq<Call>, c: seq<Call>, j: nat)
    requires a <= b <= c && JustOpened(a, c, j)
    ensures JustOpened(a, b, j) || JustOpened(b, c, j)
  {
    var k :| |a| <= k < |c| && (c[k] == Call.SaidOpen(j) || c[k] == Call.LeftReady(j));
    if k < |b| {
      assert b[k] == c[k];
    }
  }

  lemma OnlyItsOwn(s: Pool, s': Pool, now: int, i: nat, j: nat)
    requires Turned(s, s', now, i) && JustOpened(s.calls, s'.calls, j)
    ensures j == i
  {
    var k :| |s.calls| <= k < |s'.calls| && (s'.calls[k] == Call.SaidOpen(j) || s'.calls[k] == Call.LeftReady(j));
    assert s'.calls[k].i == j;
  }

  lemma PingedInTurn(start: Pool, s: Pool, s': Pool, now: int, t: int, i: nat, j: nat,
                     queryTimeout: nat, connectTimeout: nat)
    requires Passed(start, s, now, i, queryTimeout, connectTimeout) && i < |s.connections| && Turned(s, s', t, i)
    requires Asked(s.calls, s'.calls, Call.DoPing(i)) ==>
      Idle(s.connections[i]) && now - s.connections[i].timestamp > 3600
    requires Asked(start.calls, s'.calls, Call.DoPing(j))
    ensures j < i + 1 && Idle(start.connections[j]) && now - start.connections[j].timestamp > 3600
  {
    hide Served;
    hide Settled;
    hide JustOpened;
    assert Fed(start, s, now, i);
    var k :| |start.calls| <= k < |s'.calls| && s'.calls[k] == Call.DoPing(j);
    if k < |s.calls| {
      assert s.calls[k] == s'.calls[k];
      assert Asked(start.calls, s.calls, Call.DoPing(j));
    } else {
      assert s'.calls[k].i == j;
    }
  }

  /** One turn, on the connection whose turn it is. */
  lemma PassOne(start: Pool, s: Pool, s': Pool, now: int, t: int, i: nat, queryTimeout: nat, connectTimeout: nat)
    requires Passed(start, s, now, i, queryTimeout, connectTimeout) && now <= t && i < |s.connections|
    requires Turned(s, s', t, i)
    requires Served(s.connections[i], i, s.calls, s'.calls, now)
    requires Expired(start.connections[i], s'.delivered, now, queryTimeout)
    requires || JustOpened(s.calls, s'.calls, i)
             || Settled(start.connections[i], s'.connections[i], s'.queue, now, queryTimeout, connectTimeout)
    requires JustOpened(s.calls, s'.calls, i) ==> s.connections[i].status == Wait || s.connections[i].status == Connect
    requires InTime(s.connections[i], now, queryTimeout) ==> s'.connections[i] == s.connections[i]
    requires Asked(s.calls, s'.calls, Call.DoPing(i)) ==>
      Idle(s.connections[i]) && now - s.connections[i].timestamp > 3600
    ensures Passed(start, s', now, i + 1, queryTimeout, connectTimeout)
  {
    forall j: nat | Asked(start.calls, s'.calls, Call.DoPing(j))
      ensures j < i + 1 && Idle(start.connections[j]) && now - start.connections[j].timestamp > 3600
    {
      PingedInTurn(start, s, s', now, t, i, j, queryTimeout, connectTimeout);
    }
    forall j: nat | j < i + 1 && InTime(start.connections[j], now, queryTimeout)
      ensures s'.connections[j] == start.connections[j]
    {
      assert Fed(start, s, now, i) && (j != i ==> Fed(s, s', t, j));
    }
    forall j: nat | JustOpened(start.calls, s'.calls, j)
      ensures j < i + 1 && Openable(start.connections[j], j, start.calls, s'.calls)
    {
      OpenedInTurn(start, s, s', now, t, i, j, queryTimeout, connectTimeout);
    }
    hide Openable;
    hide Served;
    hide Settled;
    hide JustOpened;
    hide Fed;
    forall j: nat | i + 1 <= j < |s'.connections|
      ensures Fed(start, s', now, j)
    {
      assert Fed(start, s, now, j) && Fed(s, s', t, j);
      FedTransitive(start, s, s', now, t, j);
    }
    assert Fed(start, s, now, i);
    ServedSince(start, s, s', now, i);
    OpenedSince(start.calls, s.calls, s'.calls, i);
    forall j: nat | j < i
      ensures Served(start.connections[j], j, start.calls, s'.calls, now)
    {
      StillServed(start.connections[j], j, start.calls, s.calls, s'.calls, now);
    }
    forall j: nat | j < i
      ensures || JustOpened(start.calls, s'.calls, j)
              || Settled(start.connections[j], s'.connections[j], s'.queue, now, queryTimeout, connectTimeout)
    {
      if JustOpened(start.calls, s.calls, j) {
        OpenedSince(start.calls, s.calls, s'.calls, j);
      } else {
        StillSettled(start.connections[j], s, s', now, t, i, j, queryTimeout, connectTimeout);
      }
    }
    forall j: nat | j < i
      ensures Expired(start.connections[j], s'.delivered, now, queryTimeout)
    {
      assert Expired(start.connections[j], s.delivered, now, queryTimeout);
    }
  }

  /** A failed connection whose time is up is replaced and kept aside; otherwise it is left alone. */
  predicate GivenUp(s: Pool, s': Pool, now: int, i: nat, connectTimeout: nat)
    requires i < |s.connections| == |s'.connections|
  {
    var c := s.connections[i];
    if now - c.timestamp > connectTimeout then
      Fresh(s'.connections[i]) && s'.badConnections == s.badConnections + [c.(timestamp := now)]
    else
      s'.connections[i] == c && s'.badConnections == s.badConnections
  }

  /** Why the pass ended after i connections: the next one had failed, or the last one was told to
      connect while the pool is disconnected. */
  ghost predicate CutShort(s: Pool, s': Pool, now: int, i: nat, connectTimeout: nat)
    requires i <= |s.connections| == |s'.connections|
  {
    || (i < |s.connections| && s.connections[i].status == Error && GivenUp(s, s', now, i, connectTimeout))
    || (i > 0 && Unconnected(s.connections[i - 1]) && Asked(s.calls, s'.calls, Call.DoConnect(i - 1, now))
        && s'.badConnections == s.badConnections)
  }

  lemma StoppedByError(start: Pool, s: Pool, s': Pool, now: int, i: nat,
                       queryTimeout: nat, connectTimeout: nat)
    requires Passed(start, s, now, i, queryTimeout, connectTimeout) && i < |s.connections| == |s'.connections|
    requires s.connections[i].status == Error && GivenUp(s, s', now, i, connectTimeout)
    requires s'.connections == s.connections[i := s'.connections[i]]
    requires s'.queue == s.queue && s'.delivered == s.delivered && s'.calls == s.calls
    ensures Done(start, s', now, i, queryTimeout, connectTimeout)
    ensures CutShort(start, s', now, i, connectTimeout)
  {
    assert Fed(start, s, now, i);
    hide Served;
    hide Settled;
    hide Unconnected;
    hide StartedOn;
  }

  lemma StoppedByConnect(start: Pool, s: Pool, s': Pool, now: int, i: nat,
                         queryTimeout: nat, connectTimeout: nat)
    requires Passed(start, s, now, i, queryTimeout, connectTimeout) && i < |s.connections|
    requires Passed(start, s', now, i + 1, queryTimeout, connectTimeout)
    requires s.connections[i].status == Wait && s.calls <= s'.calls && Asked(s.calls, s'.calls, Call.DoConnect(i, now))
    ensures CutShort(start, s', now, i + 1, connectTimeout)
  {
    hide Served;
    hide Settled;
    assert Fed(start, s, now, i);
    CallsExtend(start.calls, s.calls, s'.calls, i);
    hide StartedOn;
    hide Asked;
  }

  lemma FirstAsked(a: seq<Call>, b: seq<Call>, call: Call)
    requires OnlyStarts(a + [call], b)
    ensures a <= b && Asked(a, b, call)
  {
    assert b[|a|] == (a + [call])[|a|] == call;
    assert a <= a + [call];
  }

  lemma TurnOfNothing(s: Pool, now: int, i: nat)
    requires i < |s.connections|
    ensures Turned(s, s, now, i)
  {
    LoneTurn(s, s, now, i);
  }

  lemma PassedIsDone(start: Pool, s: Pool, now: int, i: nat, queryTimeout: nat, connectTimeout: nat)
    requires Passed(start, s, now, i, queryTimeout, connectTimeout)
    ensures Done(start, s, now, i, queryTimeout, connectTimeout)
    ensures s.badConnections == start.badConnections && i <= |s.connections| == |start.connections|
  {
  }

  lemma DoneAfterPurge(start: Pool, s: Pool, s': Pool, now: int, i: nat,
                       queryTimeout: nat, connectTimeout: nat)
    requires Done(start, s, now, i, queryTimeout, connectTimeout)
    requires s' == s.(badConnections := s'.badConnections)
    ensures Done(start, s', now, i, queryTimeout, connectTimeout)
  {
  }

  /** After a pass over all connections, none is idle beside waiting queries but those just opened. */
  lemma PassEnds(start: Pool, s: Pool, now: int, i: nat, queryTimeout: nat, connectTimeout: nat)
    requires Done(start, s, now, i, queryTimeout, connectTimeout)
    ensures i >= |s.connections| && (forall j: nat :: !JustOpened(start.calls, s.calls, j)) ==>
      AllAtWork(s.connections, s.queue)
  {
    hide JustOpened;
  }

  // ----- What the hooks leave in the record -----

  lemma {:induction false} LastHookAsked(a: seq<Call>, b: seq<Call>, call: Call)
    requires OnlyStarts(a + [call], b) && !call.DoQuery? && !call.Returned?
    ensures LastHook(b) == Some(call)
    decreases |b|
  {
    var last := b[|b| - 1];
    if |b| == |a| + 1 {
      assert last == call;
    } else {
      assert b[..|b| - 1][..|a| + 1] == b[..|a| + 1] == a + [call];
      LastHookAsked(a, b[..|b| - 1], call);
    }
  }

  lemma NothingOpened(a: seq<Call>)
    ensures !WasOpened(a, a) && forall j: nat :: !JustOpened(a, a, j)
  {
  }

  /** No hook but the one called is called. */
  lemma NotPinged(a: seq<Call>, b: seq<Call>, call: Call, ok: bool, mark: Call, i: nat)
    requires Concluded(a + [call], b, ok, mark) && !call.DoPing? && !mark.DoPing?
    ensures !Asked(a, b, Call.DoPing(i))
  {
    var c := if ok then b[..|b| - 1] else b;
    assert c[|a|] == (a + [call])[|a|] == call;
    assert forall k :: |a| <= k < |b| && b[k] == Call.DoPing(i) ==> b[k] == call || b[k] == mark || c[k].DoPing?;
  }

  lemma NoneOpened(a: seq<Call>, b: seq<Call>)
    requires OnlyStarts(a, b)
    ensures !WasOpened(a, b) && forall j: nat :: !JustOpened(a, b, j)
  {
  }

  lemma NoneOpenedAfter(a: seq<Call>, b: seq<Call>, call: Call)
    requires OnlyStarts(a + [call], b) && !call.SaidOpen? && !call.LeftReady?
    ensures !WasOpened(a, b) && forall j: nat :: !JustOpened(a, b, j)
  {
    assert b[|a|] == (a + [call])[|a|] == call;
  }

  /** What a call that is no answer, followed by its conclusion, leaves. */
  lemma ConcludedFacts(a: seq<Call>, b: seq<Call>, call: Call, ok: bool, mark: Call)
    requires Concluded(a + [call], b, ok, mark) && !call.SaidOpen?
    ensures a <= b && Asked(a, b, call) && (ok ==> Asked(a, b, mark))
    ensures WasOpened(a, b) <==> ok && mark.SaidOpen?
  {
    var c := if ok then b[..|b| - 1] else b;
    FirstAsked(a, c, call);
    assert c <= b && b[|a|] == c[|a|];
    if ok {
      assert b[|b| - 1] == mark;
    }
  }

  // ----- Why connections opened in a pass are left out -----

  /** A query has been started on the connection and has sent it back to connecting. */
  lemma SentBack(maxQueueSize: nat) returns (steps: seq<Step>, s: Pool)
    ensures Runs(maxQueueSize, Initial([NewOne()]), steps) && s == After(maxQueueSize, Initial([NewOne()]), steps)
    ensures s.connections == [NewOne().(status := Connect, query := Some(Query(0, ResultOk)))] && s.owing == None
  {
    var s0, c, q := Initial([NewOne()]), NewOne(), Query(0, ResultOk);
    steps, s := OneStep(maxQueueSize, s0, [], s0, Change(0, c.(status := Ready)));
    steps, s := OneStep(maxQueueSize, s0, steps, s, Attach(0, q));
    steps, s := OneStep(maxQueueSize, s0, steps, s, Start(0, c.(status := Connect, query := Some(q))));
  }

  /** `CheckConnect` makes it ready, keeping query and timestamp, and says yes. */
  lemma SaidOpen(maxQueueSize: nat, start: Pool) returns (pass: seq<Step>, s: Pool)
    requires |start.connections| == 1 && start.connections[0].query.Some? && start.owing == None
    ensures Runs(maxQueueSize, start, pass) && s == After(maxQueueSize, start, pass)
    ensures s.connections == [start.connections[0].(status := Ready)]
    ensures s.calls == start.calls
      + [Call.CheckConnect(0), Call.Returned(0, start.connections[0].timestamp), Call.SaidOpen(0)]
    ensures s.delivered == start.delivered && s.queue == start.queue
  {
    var c := start.connections[0];
    pass, s := OneStep(maxQueueSize, start, [], start, Ask(Call.CheckConnect(0)));
    pass, s := OneStep(maxQueueSize, start, pass, s, Change(0, c.(status := Ready)));
    pass, s := OneStep(maxQueueSize, start, pass, s, Ask(Call.Returned(0, c.timestamp)));
    NotedReturn(start.calls, Call.CheckConnect(0), Call.Returned(0, c.timestamp), s.calls);
    pass, s := OneStep(maxQueueSize, start, pass, s, Ask(Call.SaidOpen(0)));
  }

  lemma NotedReturn(a: seq<Call>, call: Call, back: Call, b: seq<Call>)
    requires b == a + [call] + [back] && back.Returned? && !call.DoQuery? && !call.Returned?
    ensures LastHook(b) == Some(call)
  {
    LastHookAsked(a, b, call);
  }

  /** In a pass that finds it so and is told by `CheckConnect` that it is open, the connection keeps its
      query and its old timestamp: the completed pass leaves the query overdue. */
  lemma OpenedMayBeOverdue(maxQueueSize: nat, now: int, queryTimeout: nat, connectTimeout: nat)
    returns (before: seq<Step>, start: Pool, pass: seq<Step>, s: Pool)
    requires now > queryTimeout
    ensures Runs(maxQueueSize, Initial([NewOne()]), before) && start == After(maxQueueSize, Initial([NewOne()]), before)
    ensures Runs(maxQueueSize, start, pass) && s == After(maxQueueSize, start, pass)
    ensures Done(start, s, now, 1, queryTimeout, connectTimeout) && JustOpened(start.calls, s.calls, 0)
    ensures |s.connections| == 1 && Overdue(s.connections[0], now, queryTimeout)
  {
    before, start := SentBack(maxQueueSize);
    pass, s := SaidOpen(maxQueueSize, start);
    var n := |start.calls|;
    assert s.calls[n] == Call.CheckConnect(0) && s.calls[n + 2] == Call.SaidOpen(0);
    assert forall k :: n <= k < |s.calls| ==> s.calls[k].i == 0 && !s.calls[k].DoPing?;
  }
}
