/** The query pool of `TAbstractDbClient` as a state machine over its smallest steps, with the
    histories of queries accepted, rejected, queued, popped and delivered, and of the hooks called. */
module QueryPool {
  import opened Bytes

  datatype Status = Wait | Connect | Ready | Error
  datatype ResultStatus = ResultOk | ResultError | ResultExpired

  /** A submitted query; its id is its number in order of submission. */
  datatype Query = Query(id: nat, result: ResultStatus)

  datatype DbConnection = DbConnection(fd: int, timestamp: int, status: Status, query: Option<Query>)

  /** What is recorded of the virtual hooks on connection i: that one was called, `DoConnect` with the
      timestamp and `DoQuery` with the query that are there; and that one has opened the connection. */
  datatype Call =
    | DoConnect(i: nat, since: int)
    | LeftReady(i: nat)                      // `DoConnect` has returned and the connection is ready
    | CheckConnect(i: nat)
    | SaidOpen(i: nat)                       // `CheckConnect` has answered yes
    | CheckResult(i: nat)
    | DoPing(i: nat)
    | Returned(i: nat, since: int)           // one of these hooks is back; the timestamp it left
    | DoQuery(i: nat, id: nat)

  /** `owing`: the connection that got a query for which `DoQuery` has not been called yet. `lost`: how
      often an idle connection was taken away while queries waited for one. */
  datatype Pool = Pool(
    connections: seq<DbConnection>,
    badConnections: seq<DbConnection>,
    queue: seq<Query>,
    submitted: nat,
    accepted: seq<nat>,
    rejected: seq<nat>,
    pushed: seq<nat>,
    popped: seq<nat>,
    delivered: seq<Query>,
    calls: seq<Call>,
    owing: Option<nat>,
    lost: nat)

  datatype Step =
    | Attach(i: nat, q: Query)               // accepted, straight onto an idle connection
    | Push(q: Query)                         // accepted into the queue
    | Reject(q: Query)
    | Pop(i: nat)                            // from the queue onto an idle connection
    | Start(i: nat, c: DbConnection)         // `DoQuery`: changes anything but the query slot
    | Ask(call: Call)                        // the call of any other hook, or what came of it
    | Change(i: nat, c: DbConnection)        // anything but the query slot
    | Stamp(i: nat, timestamp: int)
    | Fail(i: nat)                           // the connection, without a query, is given up
    | Deliver(i: nat, c: DbConnection, result: ResultStatus)  // slot emptied, the rest of the connection as in c
    | Replace(i: nat, timestamp: int, c: DbConnection)
    | Purge(left: seq<DbConnection>)

  predicate Idle(c: DbConnection) {
    c.status == Ready && c.query == None
  }

  function Slot(c: DbConnection): Option<nat> {
    match c.query case None => None case Some(q) => Some(q.id)
  }

  /** The last entry that is neither the start of a query nor the return of a hook. */
  function LastHook(calls: seq<Call>): Option<Call> {
    if calls == [] then None
    else
      var last := calls[|calls| - 1];
      if last.DoQuery? || last.Returned? then LastHook(calls[..|calls| - 1]) else Some(last)
  }

  /** The last hook called was `DoConnect` on connection i. */
  predicate Connecting(calls: seq<Call>, i: nat) {
    match LastHook(calls)
    case Some(DoConnect(j, _)) => i == j
    case _ => false
  }

  /** Connection i sits idle beside waiting queries and would not any more as c. */
  predicate TakesAway(s: Pool, i: nat, c: DbConnection)
    requires i < |s.connections|
  {
    Idle(s.connections[i]) && s.queue != [] && !Idle(c)
  }

  predicate Enabled(maxQueueSize: nat, s: Pool, step: Step) {
    (s.owing == None || step.Start?) &&
    match step
    case Attach(i, q) => i < |s.connections| && Idle(s.connections[i]) && q.id == s.submitted
    case Push(q) => |s.queue| <= maxQueueSize && q.id == s.submitted && (forall c :: c in s.connections ==> !Idle(c))
    case Reject(q) => |s.queue| > maxQueueSize && q.id == s.submitted && (forall c :: c in s.connections ==> !Idle(c))
    case Pop(i) => i < |s.connections| && Idle(s.connections[i]) && s.queue != []
    case Start(i, c) =>
      && s.owing == Some(i) && i < |s.connections|
      && c.query.Some? && Slot(c) == Slot(s.connections[i]) && c.status != Error
    case Ask(call) =>
      && call.i < |s.connections| && !call.DoQuery?
      && (call.DoConnect? ==> call.since == s.connections[call.i].timestamp)
      && (call.LeftReady? ==> Connecting(s.calls, call.i) && s.connections[call.i].status == Ready)
      && (call.SaidOpen? ==> LastHook(s.calls) == Some(CheckConnect(call.i)))
      && (call.Returned? ==> call.since == s.connections[call.i].timestamp)
    case Change(i, c) =>
      i < |s.connections| && Slot(c) == Slot(s.connections[i]) && (c.status == Error ==> c.query == None)
    case Stamp(i, _) => i < |s.connections|
    case Fail(i) => i < |s.connections| && s.connections[i].query == None
    case Deliver(i, c, result) => i < |s.connections| && s.connections[i].query.Some? && c.query == None
    case Replace(i, t, c) =>
      i < |s.connections| && s.connections[i].status == Error && c.status == Wait && c.query == None
    case Purge(left) => forall c :: c in left ==> c in s.badConnections
  }

  function Apply(maxQueueSize: nat, s: Pool, step: Step): Pool
    requires Enabled(maxQueueSize, s, step)
  {
    match step
    case Attach(i, q) =>
      s.(connections := s.connections[i := s.connections[i].(query := Some(q))], owing := Some(i),
         submitted := s.submitted + 1, accepted := s.accepted + [q.id])
    case Push(q) =>
      s.(queue := s.queue + [q], pushed := s.pushed + [q.id],
         submitted := s.submitted + 1, accepted := s.accepted + [q.id])
    case Reject(q) =>
      s.(submitted := s.submitted + 1, rejected := s.rejected + [q.id])
    case Pop(i) =>
      s.(connections := s.connections[i := s.connections[i].(query := Some(s.queue[0]))], owing := Some(i),
         queue := s.queue[1..], popped := s.popped + [s.queue[0].id])
    case Start(i, c) =>
      s.(connections := s.connections[i := c], owing := None, calls := s.calls + [DoQuery(i, c.query.value.id)])
    case Ask(call) =>
      s.(calls := s.calls + [call])
    case Change(i, c) =>
      s.(connections := s.connections[i := c], lost := s.lost + (if TakesAway(s, i, c) then 1 else 0))
    case Stamp(i, t) =>
      s.(connections := s.connections[i := s.connections[i].(timestamp := t)])
    case Fail(i) =>
      var c := s.connections[i].(status := Error);
      s.(connections := s.connections[i := c], lost := s.lost + (if TakesAway(s, i, c) then 1 else 0))
    case Deliver(i, c, result) =>
      s.(connections := s.connections[i := c],
         delivered := s.delivered + [Query(s.connections[i].query.value.id, result)])
    case Replace(i, t, c) =>
      s.(connections := s.connections[i := c],
         badConnections := s.badConnections + [s.connections[i].(timestamp := t)])
    case Purge(left) =>
      s.(badConnections := left)
  }

  predicate Runs(maxQueueSize: nat, s: Pool, steps: seq<Step>)
    decreases |steps|
  {
    steps != [] ==>
      && Enabled(maxQueueSize, s, steps[0])
      && Runs(maxQueueSize, Apply(maxQueueSize, s, steps[0]), steps[1..])
  }

  function After(maxQueueSize: nat, s: Pool, steps: seq<Step>): Pool
    requires Runs(maxQueueSize, s, steps)
    decreases |steps|
  {
    if steps == [] then s else After(maxQueueSize, Apply(maxQueueSize, s, steps[0]), steps[1..])
  }

  predicate Fresh(c: DbConnection) {
    c.status == Wait && c.query == None
  }

  function Initial(connections: seq<DbConnection>): Pool {
    Pool(connections, [], [], 0, [], [], [], [], [], [], None, 0)
  }

  lemma {:induction false} RunsOn(maxQueueSize: nat, s: Pool, steps: seq<Step>, more: seq<Step>)
    requires Runs(maxQueueSize, s, steps)
    requires Runs(maxQueueSize, After(maxQueueSize, s, steps), more)
    ensures Runs(maxQueueSize, s, steps + more)
    ensures After(maxQueueSize, s, steps + more) == After(maxQueueSize, After(maxQueueSize, s, steps), more)
    decreases |steps|
  {
    hide Enabled;
    hide Apply;
    if steps == [] {
      assert steps + more == more;
    } else {
      assert (steps + more)[1..] == steps[1..] + more;
      RunsOn(maxQueueSize, Apply(maxQueueSize, s, steps[0]), steps[1..], more);
    }
  }

  /** A run that begins with another one is that one continued. */
  lemma {:induction false} RunsSplit(maxQueueSize: nat, s: Pool, steps: seq<Step>, more: seq<Step>)
    requires Runs(maxQueueSize, s, steps + more)
    ensures Runs(maxQueueSize, s, steps)
    ensures Runs(maxQueueSize, After(maxQueueSize, s, steps), more)
    ensures After(maxQueueSize, s, steps + more) == After(maxQueueSize, After(maxQueueSize, s, steps), more)
    decreases |steps|
  {
    hide Enabled;
    hide Apply;
    if steps == [] {
      assert steps + more == more;
    } else {
      assert (steps + more)[1..] == steps[1..] + more;
      RunsSplit(maxQueueSize, Apply(maxQueueSize, s, steps[0]), steps[1..], more);
    }
  }

  lemma OneStep(maxQueueSize: nat, s0: Pool, steps: seq<Step>, s: Pool, step: Step)
    returns (steps': seq<Step>, s': Pool)
    requires Runs(maxQueueSize, s0, steps) && After(maxQueueSize, s0, steps) == s && Enabled(maxQueueSize, s, step)
    ensures Runs(maxQueueSize, s0, steps') && After(maxQueueSize, s0, steps') == s'
    ensures steps' == steps + [step] && s' == Apply(maxQueueSize, s, step)
  {
    hide Enabled;
    hide Apply;
    assert [step][1..] == [];
    RunsOn(maxQueueSize, s0, steps, [step]);
    steps', s' := steps + [step], Apply(maxQueueSize, s, step);
  }

  // ----- Where the queries are -----

  function Ids(qs: seq<Query>): multiset<nat> {
    if qs == [] then multiset{} else multiset{qs[0].id} + Ids(qs[1..])
  }

  function SlotIds(c: DbConnection): multiset<nat> {
    match c.query case None => multiset{} case Some(q) => multiset{q.id}
  }

  function Slots(cs: seq<DbConnection>): multiset<nat> {
    if cs == [] then multiset{} else SlotIds(cs[0]) + Slots(cs[1..])
  }

  function IdList(qs: seq<Query>): (ids: seq<nat>)
    ensures |ids| == |qs|
    ensures forall k :: 0 <= k < |qs| ==> ids[k] == qs[k].id
  {
    if qs == [] then [] else [qs[0].id] + IdList(qs[1..])
  }

  /** Each accepted query is in exactly one place: the queue, a connection's slot, or delivered. */
  ghost predicate Conserved(s: Pool) {
    multiset(s.accepted) == Ids(s.queue) + Slots(s.connections) + Ids(s.delivered)
  }

  /** The queries handed to `DoQuery`. */
  function Started(calls: seq<Call>): multiset<nat> {
    if calls == [] then multiset{}
    else Started(calls[..|calls| - 1]) + StartedBy(calls[|calls| - 1])
  }

  function StartedBy(call: Call): multiset<nat> {
    if call.DoQuery? then multiset{call.id} else multiset{}
  }

  function OwedIds(s: Pool): multiset<nat> {
    match s.owing
    case Some(i) => if i < |s.connections| then SlotIds(s.connections[i]) else multiset{}
    case None => multiset{}
  }

  /** `DoQuery` is called once for each accepted query when it leaves the queue. */
  ghost predicate StartedOnce(s: Pool) {
    && multiset(s.accepted) == Ids(s.queue) + OwedIds(s) + Started(s.calls)
    && (s.owing.Some? ==> s.owing.value < |s.connections| && s.connections[s.owing.value].query.Some?)
  }

  /** Queries are numbered in order of submission. */
  ghost predicate Numbered(s: Pool) {
    && (forall id :: id in s.accepted ==> id < s.submitted)
    && (forall k, m :: 0 <= k < m < |s.accepted| ==> s.accepted[k] < s.accepted[m])
  }

  /** Queries leave the queue in the order in which they entered it, and there is a bound on it. */
  ghost predicate Fifo(maxQueueSize: nat, s: Pool) {
    s.pushed == s.popped + IdList(s.queue) && |s.queue| <= maxQueueSize + 1
  }

  /** No failed connection, given up or not, holds a query. */
  ghost predicate Clean(s: Pool) {
    && (forall c :: c in s.connections && c.status == Error ==> c.query == None)
    && (forall c :: c in s.badConnections ==> c.query == None)
  }

  /** What every reachable state satisfies. */
  ghost predicate Invariant(maxQueueSize: nat, s: Pool) {
    Conserved(s) && Numbered(s) && Fifo(maxQueueSize, s) && Clean(s) && StartedOnce(s)
  }

  lemma {:induction false} IdsAppend(qs: seq<Query>, q: Query)
    ensures Ids(qs + [q]) == Ids(qs) + multiset{q.id}
  {
    if qs == [] {
      assert qs + [q] == [q];
      assert [q][1..] == [];
    } else {
      assert (qs + [q])[1..] == qs[1..] + [q];
      IdsAppend(qs[1..], q);
      assert multiset{qs[0].id} + (Ids(qs[1..]) + multiset{q.id}) == Ids(qs) + multiset{q.id};
    }
  }

  lemma IdListAppend(qs: seq<Query>, q: Query)
    ensures IdList(qs + [q]) == IdList(qs) + [q.id]
  {
    hide IdList;
  }

  lemma FirstId(qs: seq<Query>)
    requires qs != []
    ensures Ids(qs) == multiset{qs[0].id} + Ids(qs[1..])
    ensures IdList(qs) == [qs[0].id] + IdList(qs[1..])
  {
  }

  lemma {:induction false} SlotsUpdate(cs: seq<DbConnection>, i: nat, c: DbConnection)
    requires i < |cs|
    ensures Slots(cs[i := c]) + SlotIds(cs[i]) == Slots(cs) + SlotIds(c)
  {
    hide SlotIds;
    if i == 0 {
      assert cs[0 := c][1..] == cs[1..];
    } else {
      assert cs[i := c][1..] == cs[1..][i - 1 := c];
      SlotsUpdate(cs[1..], i - 1, c);
      SumsShift(SlotIds(cs[0]), Slots(cs[1..][i - 1 := c]), SlotIds(cs[i]), Slots(cs[1..]), SlotIds(c));
    }
  }

  lemma SumsShift(x: multiset<nat>, a: multiset<nat>, b: multiset<nat>, c: multiset<nat>, d: multiset<nat>)
    requires a + b == c + d
    ensures (x + a) + b == (x + c) + d
  {
    assert (x + a) + b == x + (a + b) && (x + c) + d == x + (c + d);
  }

  lemma MovedAcross(x: multiset<nat>, a: multiset<nat>, b: multiset<nat>, c: multiset<nat>)
    ensures (x + a) + b + c == a + (b + x) + c
  {
  }

  lemma {:induction false} NoSlots(cs: seq<DbConnection>)
    requires forall c :: c in cs ==> c.query == None
    ensures Slots(cs) == multiset{}
  {
    if cs != [] {
      assert cs[0] in cs;
      NoSlots(cs[1..]);
    }
  }

  lemma InitialInvariant(maxQueueSize: nat, connections: seq<DbConnection>)
    requires forall c :: c in connections ==> Fresh(c)
    ensures Invariant(maxQueueSize, Initial(connections))
  {
    NoSlots(connections);
  }

  lemma SlotsKept(cs: seq<DbConnection>, i: nat, c: DbConnection)
    requires i < |cs| && Slot(c) == Slot(cs[i])
    ensures Slots(cs[i := c]) == Slots(cs)
  {
    SlotsUpdate(cs, i, c);
    Cancelled(Slots(cs[i := c]), Slots(cs), SlotIds(c));
  }

  lemma Cancelled(a: multiset<nat>, b: multiset<nat>, x: multiset<nat>)
    requires a + x == b + x
    ensures a == b
  {
    forall id
      ensures a[id] == b[id]
    {
      assert (a + x)[id] == (b + x)[id];
    }
  }

  lemma SlotsFilled(cs: seq<DbConnection>, i: nat, c: DbConnection)
    requires i < |cs| && cs[i].query == None && c.query.Some?
    ensures Slots(cs[i := c]) == Slots(cs) + multiset{c.query.value.id}
  {
    SlotsUpdate(cs, i, c);
  }

  lemma SlotsEmptied(cs: seq<DbConnection>, i: nat, c: DbConnection)
    requires i < |cs| && cs[i].query.Some? && c.query == None
    ensures Slots(cs) == Slots(cs[i := c]) + multiset{cs[i].query.value.id}
  {
    SlotsUpdate(cs, i, c);
  }

  lemma StepConserves(maxQueueSize: nat, s: Pool, step: Step)
    requires Conserved(s) && Clean(s) && Enabled(maxQueueSize, s, step)
    ensures Conserved(Apply(maxQueueSize, s, step))
  {
    hide Slots;
    hide SlotIds;
    hide Ids;
    hide IdList;
    match step {
      case Attach(i, q) =>
        SlotsFilled(s.connections, i, s.connections[i].(query := Some(q)));
      case Push(q) =>
        IdsAppend(s.queue, q);
      case Pop(i) =>
        SlotsFilled(s.connections, i, s.connections[i].(query := Some(s.queue[0])));
        FirstId(s.queue);
        MovedAcross(multiset{s.queue[0].id}, Ids(s.queue[1..]), Slots(s.connections), Ids(s.delivered));
      case Start(i, c) =>
        SlotsKept(s.connections, i, c);
      case Change(i, c) =>
        SlotsKept(s.connections, i, c);
      case Stamp(i, t) =>
        SlotsKept(s.connections, i, s.connections[i].(timestamp := t));
      case Fail(i) =>
        SlotsKept(s.connections, i, s.connections[i].(status := Error));
      case Deliver(i, c, result) =>
        SlotsEmptied(s.connections, i, c);
        IdsAppend(s.delivered, Query(s.connections[i].query.value.id, result));
      case Replace(i, t, c) =>
        assert s.connections[i] in s.connections;
        SlotsKept(s.connections, i, c);
      case _ =>
    }
  }

  lemma StartedAppend(calls: seq<Call>, call: Call)
    ensures Started(calls + [call]) == Started(calls) + StartedBy(call)
  {
    assert (calls + [call])[..|calls|] == calls;
  }

  lemma MovedToOwed(x: multiset<nat>, a: multiset<nat>, c: multiset<nat>)
    ensures (x + a) + multiset{} + c == a + x + c
  {
  }

  lemma AttachStarts(maxQueueSize: nat, s: Pool, i: nat, q: Query)
    requires StartedOnce(s) && Enabled(maxQueueSize, s, Attach(i, q))
    ensures StartedOnce(Apply(maxQueueSize, s, Attach(i, q)))
  {
    hide Started;
    hide Ids;
  }

  lemma PopStarts(maxQueueSize: nat, s: Pool, i: nat)
    requires StartedOnce(s) && Enabled(maxQueueSize, s, Pop(i))
    ensures StartedOnce(Apply(maxQueueSize, s, Pop(i)))
  {
    hide Started;
    hide Ids;
    hide IdList;
    FirstId(s.queue);
    MovedToOwed(multiset{s.queue[0].id}, Ids(s.queue[1..]), Started(s.calls));
  }

  lemma QueryStarts(maxQueueSize: nat, s: Pool, i: nat, c: DbConnection)
    requires StartedOnce(s) && Enabled(maxQueueSize, s, Start(i, c))
    ensures StartedOnce(Apply(maxQueueSize, s, Start(i, c)))
  {
    hide Started;
    hide Ids;
    StartedAppend(s.calls, DoQuery(i, c.query.value.id));
  }

  lemma StepStarts(maxQueueSize: nat, s: Pool, step: Step)
    requires StartedOnce(s) && Enabled(maxQueueSize, s, step)
    ensures StartedOnce(Apply(maxQueueSize, s, step))
  {
    hide Started;
    hide Ids;
    hide IdList;
    hide Slots;
    match step {
      case Attach(i, q) =>
        AttachStarts(maxQueueSize, s, i, q);
      case Push(q) =>
        IdsAppend(s.queue, q);
      case Pop(i) =>
        PopStarts(maxQueueSize, s, i);
      case Start(i, c) =>
        QueryStarts(maxQueueSize, s, i, c);
      case Ask(call) =>
        StartedAppend(s.calls, call);
      case _ =>
    }
  }

  lemma StepNumbers(maxQueueSize: nat, s: Pool, step: Step)
    requires Numbered(s) && Enabled(maxQueueSize, s, step)
    ensures Numbered(Apply(maxQueueSize, s, step))
  {
    assert forall k :: 0 <= k < |s.accepted| ==> s.accepted[k] in s.accepted;
  }

  lemma StepQueues(maxQueueSize: nat, s: Pool, step: Step)
    requires Fifo(maxQueueSize, s) && Enabled(maxQueueSize, s, step)
    ensures Fifo(maxQueueSize, Apply(maxQueueSize, s, step))
  {
    hide IdList;
    match step {
      case Push(q) => IdListAppend(s.queue, q);
      case Pop(_) => FirstId(s.queue);
      case _ =>
    }
  }

  lemma StepCleans(maxQueueSize: nat, s: Pool, step: Step)
    requires Clean(s) && Enabled(maxQueueSize, s, step)
    ensures Clean(Apply(maxQueueSize, s, step))
  {
    var s' := Apply(maxQueueSize, s, step);
    forall c | c in s'.connections && c.status == Error
      ensures c.query == None
    {
      var k :| 0 <= k < |s'.connections| && s'.connections[k] == c;
      assert s.connections[k] in s.connections;
    }
    forall c | c in s'.badConnections
      ensures c.query == None
    {
      match step {
        case Replace(i, t, _) => assert s.connections[i] in s.connections;
        case _ =>
      }
    }
  }

  /** Every step keeps the invariant. */
  lemma StepKeepsInvariant(maxQueueSize: nat, s: Pool, step: Step)
    requires Invariant(maxQueueSize, s) && Enabled(maxQueueSize, s, step)
    ensures Invariant(maxQueueSize, Apply(maxQueueSize, s, step))
  {
    hide Enabled;
    hide Apply;
    StepConserves(maxQueueSize, s, step);
    StepNumbers(maxQueueSize, s, step);
    StepQueues(maxQueueSize, s, step);
    StepCleans(maxQueueSize, s, step);
    StepStarts(maxQueueSize, s, step);
  }

  lemma {:induction false} RunKeepsInvariant(maxQueueSize: nat, s: Pool, steps: seq<Step>)
    requires Invariant(maxQueueSize, s) && Runs(maxQueueSize, s, steps)
    ensures Invariant(maxQueueSize, After(maxQueueSize, s, steps))
    decreases |steps|
  {
    hide Enabled;
    hide Apply;
    hide Invariant;
    if steps != [] {
      StepKeepsInvariant(maxQueueSize, s, steps[0]);
      RunKeepsInvariant(maxQueueSize, Apply(maxQueueSize, s, steps[0]), steps[1..]);
    }
  }

  /** Safety over every run from fresh connections: queries are conserved, numbered, queued in order
      and within bounds, and no failed connection holds one. */
  lemma RunsAreSafe(maxQueueSize: nat, connections: seq<DbConnection>, steps: seq<Step>)
    requires forall c :: c in connections ==> Fresh(c)
    requires Runs(maxQueueSize, Initial(connections), steps)
    ensures Invariant(maxQueueSize, After(maxQueueSize, Initial(connections), steps))
  {
    InitialInvariant(maxQueueSize, connections);
    RunKeepsInvariant(maxQueueSize, Initial(connections), steps);
  }

  // ----- What that means for a single query -----

  lemma {:induction false} CountAscending(ids: seq<nat>, id: nat)
    requires forall k, m :: 0 <= k < m < |ids| ==> ids[k] < ids[m]
    ensures multiset(ids)[id] <= 1
  {
    if ids != [] {
      var n := |ids| - 1;
      assert ids == ids[..n] + [ids[n]];
      CountAscending(ids[..n], id);
      if id == ids[n] {
        assert id !in ids[..n];
      }
    }
  }

  /** An accepted query is in exactly one place, once; and nothing else is anywhere. */
  lemma EachQueryOnce(maxQueueSize: nat, s: Pool, id: nat)
    requires Invariant(maxQueueSize, s)
    ensures Ids(s.queue)[id] + Slots(s.connections)[id] + Ids(s.delivered)[id] == (if id in s.accepted then 1 else 0)
  {
    CountAscending(s.accepted, id);
    assert id in s.accepted <==> id in multiset(s.accepted);
  }

  /** Whenever no connection is owed a call of `DoQuery`: that was called exactly once for every query
      on a connection or delivered, and not for any other. */
  lemma EachQueryStartedOnce(maxQueueSize: nat, s: Pool, id: nat)
    requires Invariant(maxQueueSize, s) && s.owing == None
    ensures Started(s.calls)[id] == Slots(s.connections)[id] + Ids(s.delivered)[id] <= 1
  {
    EachQueryOnce(maxQueueSize, s, id);
    assert (Ids(s.queue) + Slots(s.connections) + Ids(s.delivered))[id] == (Ids(s.queue) + Started(s.calls))[id];
  }

  lemma {:induction false} SlotCounted(cs: seq<DbConnection>, i: nat)
    requires i < |cs| && cs[i].query.Some?
    ensures cs[i].query.value.id in Slots(cs)
  {
    if i > 0 {
      SlotCounted(cs[1..], i - 1);
    }
  }

  lemma {:induction false} SlotsCountedTwice(cs: seq<DbConnection>, i: nat, j: nat)
    requires i < j < |cs| && cs[i].query.Some? && cs[j].query.Some?
    requires cs[i].query.value.id == cs[j].query.value.id
    ensures Slots(cs)[cs[i].query.value.id] >= 2
  {
    if i > 0 {
      SlotsCountedTwice(cs[1..], i - 1, j - 1);
    } else {
      SlotCounted(cs[1..], j - 1);
    }
  }

  lemma {:induction false} ListCounted(qs: seq<Query>, k: nat)
    requires k < |qs|
    ensures qs[k].id in Ids(qs)
  {
    if k > 0 {
      ListCounted(qs[1..], k - 1);
    }
  }

  lemma {:induction false} ListCountedTwice(qs: seq<Query>, i: nat, j: nat)
    requires i < j < |qs| && qs[i].id == qs[j].id
    ensures Ids(qs)[qs[i].id] >= 2
  {
    if i > 0 {
      ListCountedTwice(qs[1..], i - 1, j - 1);
    } else {
      ListCounted(qs[1..], j - 1);
    }
  }

  /** No query is delivered twice, none is on two connections, and none is delivered while it is
      queued or on a connection. */
  lemma NeverTwice(maxQueueSize: nat, s: Pool)
    requires Invariant(maxQueueSize, s)
    ensures forall i, j :: 0 <= i < j < |s.delivered| ==> s.delivered[i].id != s.delivered[j].id
    ensures forall i, j :: 0 <= i < j < |s.connections| && s.connections[i].query.Some? && s.connections[j].query.Some?
              ==> s.connections[i].query.value.id != s.connections[j].query.value.id
    ensures forall i, j :: 0 <= i < |s.delivered| && 0 <= j < |s.connections| && s.connections[j].query.Some?
              ==> s.delivered[i].id != s.connections[j].query.value.id
    ensures forall i, j :: 0 <= i < |s.delivered| && 0 <= j < |s.queue| ==> s.delivered[i].id != s.queue[j].id
  {
    forall i, j | 0 <= i < j < |s.delivered|
      ensures s.delivered[i].id != s.delivered[j].id
    {
      EachQueryOnce(maxQueueSize, s, s.delivered[i].id);
      if s.delivered[i].id == s.delivered[j].id {
        ListCountedTwice(s.delivered, i, j);
      }
    }
    forall i, j | 0 <= i < j < |s.connections| && s.connections[i].query.Some? && s.connections[j].query.Some?
      ensures s.connections[i].query.value.id != s.connections[j].query.value.id
    {
      EachQueryOnce(maxQueueSize, s, s.connections[i].query.value.id);
      if s.connections[i].query.value.id == s.connections[j].query.value.id {
        SlotsCountedTwice(s.connections, i, j);
      }
    }
    forall i, j | 0 <= i < |s.delivered| && 0 <= j < |s.connections| && s.connections[j].query.Some?
      ensures s.delivered[i].id != s.connections[j].query.value.id
    {
      EachQueryOnce(maxQueueSize, s, s.delivered[i].id);
      ListCounted(s.delivered, i);
      SlotCounted(s.connections, j);
    }
    forall i, j | 0 <= i < |s.delivered| && 0 <= j < |s.queue|
      ensures s.delivered[i].id != s.queue[j].id
    {
      EachQueryOnce(maxQueueSize, s, s.delivered[i].id);
      ListCounted(s.delivered, i);
      ListCounted(s.queue, j);
    }
  }

  // ----- Room in the queue -----

  /** `isFitInQueue` */
  predicate FitInQueue(maxQueueSize: nat, s: Pool, size: nat) {
    |s.queue| + size < maxQueueSize
  }

  /** What a step adds to the number of submissions. */
  function Submissions(steps: seq<Step>): nat {
    if steps == [] then 0
    else (if steps[0].Attach? || steps[0].Push? || steps[0].Reject? then 1 else 0) + Submissions(steps[1..])
  }

  function IdleCount(cs: seq<DbConnection>): nat {
    if cs == [] then 0 else (if Idle(cs[0]) then 1 else 0) + IdleCount(cs[1..])
  }

  /** How many queries would be left waiting if every idle connection took one. */
  function Waiting(s: Pool): nat {
    if |s.queue| <= IdleCount(s.connections) then 0 else |s.queue| - IdleCount(s.connections)
  }

  /** None of the next n submissions is rejected, whatever happens short of taking an idle connection
      away while queries wait for one. */
  ghost predicate AllAccepted(maxQueueSize: nat, s: Pool, n: nat) {
    forall steps :: Runs(maxQueueSize, s, steps) && Submissions(steps) <= n ==>
      var s' := After(maxQueueSize, s, steps);
      s'.lost == s.lost ==> s'.rejected == s.rejected
  }

  /** As long as the queue has room for n, n submissions find room, whatever else is done. */
  lemma {:induction false} RoomSuffices(maxQueueSize: nat, s: Pool, n: nat, steps: seq<Step>)
    requires |s.queue| + n <= maxQueueSize + 1 && Runs(maxQueueSize, s, steps) && Submissions(steps) <= n
    ensures var s' := After(maxQueueSize, s, steps);
      && s'.rejected == s.rejected
      && |s'.accepted| == |s.accepted| + Submissions(steps)
      && s'.submitted == s.submitted + Submissions(steps)
      && |s'.queue| + n - Submissions(steps) <= maxQueueSize + 1
    decreases |steps|
  {
    if steps != [] {
      var s1 := Apply(maxQueueSize, s, steps[0]);
      var left := if steps[0].Attach? || steps[0].Push? || steps[0].Reject? then n - 1 else n;
      RoomSuffices(maxQueueSize, s1, left, steps[1..]);
    }
  }

  lemma {:induction false} SubmissionsCounted(maxQueueSize: nat, s: Pool, steps: seq<Step>)
    requires Runs(maxQueueSize, s, steps)
    ensures After(maxQueueSize, s, steps).submitted == s.submitted + Submissions(steps)
    decreases |steps|
  {
    if steps != [] {
      SubmissionsCounted(maxQueueSize, Apply(maxQueueSize, s, steps[0]), steps[1..]);
    }
  }

  lemma {:induction false} IdleCountUpdate(cs: seq<DbConnection>, i: nat, c: DbConnection)
    requires i < |cs|
    ensures IdleCount(cs[i := c]) + (if Idle(cs[i]) then 1 else 0) == IdleCount(cs) + (if Idle(c) then 1 else 0)
  {
    if i == 0 {
      assert cs[0 := c][1..] == cs[1..];
    } else {
      assert cs[i := c][1..] == cs[1..][i - 1 := c];
      IdleCountUpdate(cs[1..], i - 1, c);
    }
  }

  lemma {:induction false} NoneIdle(cs: seq<DbConnection>)
    ensures IdleCount(cs) == 0 <==> forall c :: c in cs ==> !Idle(c)
  {
    if cs != [] {
      NoneIdle(cs[1..]);
      assert forall c :: c in cs <==> c == cs[0] || c in cs[1..];
    }
  }

  predicate Submits(step: Step) {
    step.Attach? || step.Push? || step.Reject?
  }

  /** Only a submission leaves one more query waiting, and only when they fill the queue is one rejected. */
  lemma WaitingStep(maxQueueSize: nat, s: Pool, step: Step)
    requires Enabled(maxQueueSize, s, step)
    ensures var s' := Apply(maxQueueSize, s, step);
      && s.lost <= s'.lost
      && (s'.lost == s.lost ==> Waiting(s') <= Waiting(s) + (if Submits(step) then 1 else 0))
      && (step.Reject? ==> Waiting(s) > maxQueueSize)
      && (!step.Reject? ==> s'.rejected == s.rejected)
  {
    var s' := Apply(maxQueueSize, s, step);
    hide IdleCount;
    match step {
      case Attach(i, _) => IdleCountUpdate(s.connections, i, s'.connections[i]);
      case Pop(i) => IdleCountUpdate(s.connections, i, s'.connections[i]);
      case Start(i, c) => IdleCountUpdate(s.connections, i, c);
      case Change(i, c) => IdleCountUpdate(s.connections, i, c);
      case Stamp(i, _) => IdleCountUpdate(s.connections, i, s'.connections[i]);
      case Fail(i) => IdleCountUpdate(s.connections, i, s'.connections[i]);
      case Deliver(i, c, _) => IdleCountUpdate(s.connections, i, c);
      case Replace(i, _, c) => IdleCountUpdate(s.connections, i, c);
      case _ => NoneIdle(s.connections);
    }
  }

  lemma {:induction false} LostGrows(maxQueueSize: nat, s: Pool, steps: seq<Step>)
    requires Runs(maxQueueSize, s, steps)
    ensures s.lost <= After(maxQueueSize, s, steps).lost
    decreases |steps|
  {
    hide Enabled;
    hide Apply;
    if steps != [] {
      WaitingStep(maxQueueSize, s, steps[0]);
      LostGrows(maxQueueSize, Apply(maxQueueSize, s, steps[0]), steps[1..]);
    }
  }

  lemma {:induction false} WaitingSuffices(maxQueueSize: nat, s: Pool, n: nat, steps: seq<Step>)
    requires Waiting(s) + n <= maxQueueSize + 1 && Runs(maxQueueSize, s, steps) && Submissions(steps) <= n
    requires After(maxQueueSize, s, steps).lost == s.lost
    ensures After(maxQueueSize, s, steps).rejected == s.rejected
    decreases |steps|
  {
    hide Enabled;
    hide Apply;
    hide Waiting;
    if steps != [] {
      var s1 := Apply(maxQueueSize, s, steps[0]);
      WaitingStep(maxQueueSize, s, steps[0]);
      LostGrows(maxQueueSize, s1, steps[1..]);
      WaitingSuffices(maxQueueSize, s1, if Submits(steps[0]) then n - 1 else n, steps[1..]);
    }
  }

  /** A positive answer for n means that the next n + 2 submissions are safe; a negative one that they
      are not, unless connections are idle beside waiting queries. */
  lemma FittingQueriesAreAccepted(maxQueueSize: nat, s: Pool, n: nat)
    requires |s.queue| <= maxQueueSize + 1 && s.owing == None
    ensures FitInQueue(maxQueueSize, s, n) ==> AllAccepted(maxQueueSize, s, n + 2)
    ensures s.queue == [] || IdleCount(s.connections) == 0 ==>
      (FitInQueue(maxQueueSize, s, n) <==> AllAccepted(maxQueueSize, s, n + 2))
  {
    RoomExactly(maxQueueSize, s, n + 2);
  }

  /** The next n submissions are safe exactly when the queue has room for all of them and those that the
      idle connections leave waiting. */
  lemma RoomExactly(maxQueueSize: nat, s: Pool, n: nat)
    requires |s.queue| <= maxQueueSize + 1 && s.owing == None
    ensures Waiting(s) + n <= maxQueueSize + 1 <==> AllAccepted(maxQueueSize, s, n)
  {
    hide Waiting;
    if Waiting(s) + n <= maxQueueSize + 1 {
      forall steps | && Runs(maxQueueSize, s, steps) && Submissions(steps) <= n
                     && After(maxQueueSize, s, steps).lost == s.lost
        ensures After(maxQueueSize, s, steps).rejected == s.rejected
      {
        WaitingSuffices(maxQueueSize, s, n, steps);
      }
    } else {
      var steps := Rejection(maxQueueSize, s);
    }
  }

  /** A run that shows it: idle connections take what they can of the queue; those that find it empty are
      lost; then the queue fills up, and a submission is rejected. */
  lemma Rejection(maxQueueSize: nat, s: Pool) returns (steps: seq<Step>)
    requires |s.queue| <= maxQueueSize + 1 && s.owing == None
    ensures Runs(maxQueueSize, s, steps) && Submissions(steps) == maxQueueSize + 2 - Waiting(s)
    ensures After(maxQueueSize, s, steps).lost == s.lost
    ensures After(maxQueueSize, s, steps).rejected != s.rejected
  {
    hide Enabled;
    hide Apply;
    hide Runs;
    hide After;
    hide IdleCount;
    var pops := Drain(maxQueueSize, s);
    var s0 := After(maxQueueSize, s, pops);
    NoneIdle(s0.connections);
    var losses := Losses(maxQueueSize, s0, 0);
    var s1 := After(maxQueueSize, s0, losses);
    var n := maxQueueSize + 1 - |s1.queue|;
    var rest := FillAndReject(maxQueueSize, s1, n);
    RunsOn(maxQueueSize, s, pops, losses);
    RunsOn(maxQueueSize, s, pops + losses, rest);
    SubmissionsOfConcat(pops, losses);
    SubmissionsOfConcat(pops + losses, rest);
    steps := pops + losses + rest;
  }

  lemma FillAndReject(maxQueueSize: nat, s: Pool, n: nat) returns (steps: seq<Step>)
    requires (forall c :: c in s.connections ==> !Idle(c)) && s.owing == None && |s.queue| + n == maxQueueSize + 1
    ensures Runs(maxQueueSize, s, steps) && Submissions(steps) == n + 1
    ensures After(maxQueueSize, s, steps).lost == s.lost && After(maxQueueSize, s, steps).rejected != s.rejected
  {
    PushesRun(maxQueueSize, s, n);
    var pushes := Pushes(s.submitted, n);
    var s' := After(maxQueueSize, s, pushes);
    var reject := Reject(Query(s'.submitted, ResultOk));
    var s'';
    steps, s'' := OneStep(maxQueueSize, s, pushes, s', reject);
    SubmissionsOfConcat(pushes, [reject]);
  }

  /** Idle connections take queries while there are both, without any submission. */
  lemma {:induction false} Drain(maxQueueSize: nat, s: Pool) returns (steps: seq<Step>)
    requires s.owing == None
    ensures Runs(maxQueueSize, s, steps) && Submissions(steps) == 0
    ensures var s' := After(maxQueueSize, s, steps);
      && s'.rejected == s.rejected && s'.owing == None && s'.lost == s.lost
      && |s'.queue| == Waiting(s)
      && (s'.queue == [] || IdleCount(s'.connections) == 0)
    decreases |s.queue|
  {
    hide IdleCount;
    NoneIdle(s.connections);
    if s.queue == [] || IdleCount(s.connections) == 0 {
      steps := [];
    } else {
      var c :| c in s.connections && Idle(c);
      var i: nat :| i < |s.connections| && s.connections[i] == c;
      var busy := c.(query := Some(s.queue[0]));
      var first, s1 := OneStep(maxQueueSize, s, [], s, Pop(i));
      IdleCountUpdate(s.connections, i, busy);
      var both, s2 := OneStep(maxQueueSize, s, first, s1, Start(i, busy));
      assert s2.connections == s.connections[i := busy];
      var later := Drain(maxQueueSize, s2);
      RunsOn(maxQueueSize, s, both, later);
      SubmissionsOfConcat(both, later);
      assert both == [Pop(i), Start(i, busy)] && both[1..] == [Start(i, busy)] && both[1..][1..] == [];
      steps := both + later;
    }
  }

  /** Connections from k on turn unusable while nothing waits, without any submission. */
  lemma {:induction false} Losses(maxQueueSize: nat, s: Pool, k: nat) returns (steps: seq<Step>)
    requires s.owing == None && k <= |s.connections|
    requires forall j :: 0 <= j < k ==> !Idle(s.connections[j])
    requires s.queue == [] || forall c :: c in s.connections ==> !Idle(c)
    ensures Runs(maxQueueSize, s, steps) && Submissions(steps) == 0
    ensures var s' := After(maxQueueSize, s, steps);
      && s'.queue == s.queue && s'.rejected == s.rejected && s'.owing == None && s'.lost == s.lost
      && forall c :: c in s'.connections ==> !Idle(c)
    decreases |s.connections| - k
  {
    if k == |s.connections| || s.queue != [] {
      steps := [];
    } else {
      var c := s.connections[k].(status := Wait);
      var later := Losses(maxQueueSize, Apply(maxQueueSize, s, Change(k, c)), k + 1);
      steps := [Change(k, c)] + later;
      assert steps[1..] == later;
    }
  }

  lemma {:induction false} SubmissionsOfConcat(a: seq<Step>, b: seq<Step>)
    ensures Submissions(a + b) == Submissions(a) + Submissions(b)
  {
    if a == [] {
      assert a + b == b;
    } else {
      assert (a + b)[1..] == a[1..] + b;
      SubmissionsOfConcat(a[1..], b);
    }
  }

  // ----- The bound on the queue is one more than its name says -----

  function Pushes(from: nat, n: nat): (steps: seq<Step>)
    ensures |steps| == n
    decreases n
  {
    if n == 0 then [] else [Push(Query(from, ResultOk))] + Pushes(from + 1, n - 1)
  }

  lemma {:induction false} PushesRun(maxQueueSize: nat, s: Pool, n: nat)
    requires (forall c :: c in s.connections ==> !Idle(c)) && s.owing == None && |s.queue| + n <= maxQueueSize + 1
    ensures Runs(maxQueueSize, s, Pushes(s.submitted, n)) && Submissions(Pushes(s.submitted, n)) == n
    ensures var s' := After(maxQueueSize, s, Pushes(s.submitted, n));
      && |s'.queue| == |s.queue| + n && s'.connections == s.connections
      && s'.owing == None && s'.rejected == s.rejected && s'.lost == s.lost
    decreases n
  {
    if n > 0 {
      var steps := Pushes(s.submitted, n);
      assert steps[1..] == Pushes(s.submitted + 1, n - 1);
      PushesRun(maxQueueSize, Apply(maxQueueSize, s, steps[0]), n - 1);
    }
  }

  /** Without connections the queue takes max_queue_size + 1 queries. */
  lemma QueueOverfills(maxQueueSize: nat)
    ensures var steps := Pushes(0, maxQueueSize + 1);
      Runs(maxQueueSize, Initial([]), steps) && |After(maxQueueSize, Initial([]), steps).queue| == maxQueueSize + 1
  {
    PushesRun(maxQueueSize, Initial([]), maxQueueSize + 1);
  }

  /** The queue has filled up while the only connection was not ready, which now it is. With k queries
      waiting, max_queue_size + 2 - k submissions are safe, though with k at or above max_queue_size the
      answer is no even for none. */
  lemma NoIsNotRejection(maxQueueSize: nat, k: nat) returns (steps: seq<Step>, s: Pool)
    requires 0 < k <= maxQueueSize + 1
    ensures Runs(maxQueueSize, Initial([NewOne()]), steps) && s == After(maxQueueSize, Initial([NewOne()]), steps)
    ensures |s.queue| == k && s.lost == 0 && AllAccepted(maxQueueSize, s, maxQueueSize + 2 - k)
    ensures k >= maxQueueSize ==> !FitInQueue(maxQueueSize, s, 0)
  {
    var s0 := Initial([NewOne()]);
    PushesRun(maxQueueSize, s0, k);
    var pushes := Pushes(0, k);
    var full := After(maxQueueSize, s0, pushes);
    steps, s := OneStep(maxQueueSize, s0, pushes, full, Change(0, NewOne().(status := Ready)));
    assert s.connections == [NewOne().(status := Ready)] && s.connections[1..] == [];
    RoomExactly(maxQueueSize, s, maxQueueSize + 2 - k);
  }

  // ----- What a hook must not do -----

  /** A query is on the connection, another one waits, and the connection is asked whether it is open. */
  lemma AskedWhetherOpen(maxQueueSize: nat) returns (steps: seq<Step>, s: Pool)
    ensures Runs(maxQueueSize, Initial([NewOne()]), steps) && s == After(maxQueueSize, Initial([NewOne()]), steps)
    ensures s.connections == [NewOne().(status := Connect, query := Some(Query(0, ResultOk)))]
    ensures s.queue == [Query(1, ResultOk)] && s.accepted == [0, 1] && s.delivered == [] && s.owing == None
    ensures LastHook(s.calls) == Some(CheckConnect(0))
  {
    var s0, c, q := Initial([NewOne()]), NewOne(), Query(0, ResultOk);
    var busy := c.(status := Ready, query := Some(q));
    steps, s := OneStep(maxQueueSize, s0, [], s0, Change(0, c.(status := Ready)));
    steps, s := OneStep(maxQueueSize, s0, steps, s, Attach(0, q));
    steps, s := OneStep(maxQueueSize, s0, steps, s, Start(0, busy));
    steps, s := OneStep(maxQueueSize, s0, steps, s, Push(Query(1, ResultOk)));
    steps, s := OneStep(maxQueueSize, s0, steps, s, Change(0, busy.(status := Connect)));
    steps, s := OneStep(maxQueueSize, s0, steps, s, Ask(CheckConnect(0)));
  }

  /** Suppose `CheckConnect` says no of a connection that it leaves ready with an expired query. Then
      `Result` puts a waiting query in the slot, after which the connection is failed all the same.
      That query goes with it to the connections given up: it is in none of the places it may be. */
  lemma RefusedWhileReady(maxQueueSize: nat) returns (steps: seq<Step>, s: Pool)
    ensures Runs(maxQueueSize, Initial([NewOne()]), steps) && s == After(maxQueueSize, Initial([NewOne()]), steps)
    ensures s.connections == [NewOne().(status := Ready, query := Some(Query(1, ResultOk)))]
    ensures s.delivered == [Query(0, ResultExpired)] && s.accepted == [0, 1] && s.queue == []
    ensures var failed := s.connections[0].(status := Error);
      && !Clean(s.(connections := [failed]))
      && !Conserved(s.(connections := [NewOne()], badConnections := [failed]))
  {
    hide LastHook;
    var s0 := Initial([NewOne()]);
    steps, s := AskedWhetherOpen(maxQueueSize);
    var free := NewOne().(status := Ready);
    steps, s := OneStep(maxQueueSize, s0, steps, s, Change(0, s.connections[0].(status := Ready)));
    steps, s := OneStep(maxQueueSize, s0, steps, s, Deliver(0, free, ResultExpired));
    steps, s := OneStep(maxQueueSize, s0, steps, s, Pop(0));
    steps, s := OneStep(maxQueueSize, s0, steps, s, Start(0, free.(query := Some(Query(1, ResultOk)))));
    NotConserved(s.(connections := [NewOne()], badConnections := [s.connections[0].(status := Error)]));
  }

  lemma NotConserved(s: Pool)
    requires s.connections == [NewOne()] && s.queue == [] && s.delivered == [Query(0, ResultExpired)]
    requires s.accepted == [0, 1]
    ensures !Conserved(s)
  {
    assert s.delivered[1..] == [] && Ids(s.delivered)[1] == 0 && multiset(s.accepted)[1] == 1;
    assert [NewOne()][1..] == [];
  }

  /** A step of the callback, or of `NextQuery` after it. */
  predicate OfResult(step: Step) {
    Submits(step) || step.Pop? || step.Start?
  }

  /** Giving up a connection: if it holds a query, `Result` delivers that as expired. Whatever the queue
      and the callback then do, the connection has no query when it is failed. */
  ghost predicate GivenUpEmpty(maxQueueSize: nat, s: Pool, i: nat)
    requires s.owing == None && i < |s.connections|
  {
    s.connections[i].query.Some? ==>
      var deliver := Deliver(i, s.connections[i].(query := None), ResultExpired);
      forall steps :: Runs(maxQueueSize, s, [deliver] + steps) && (forall step :: step in steps ==> OfResult(step)) ==>
        EmptyAt(After(maxQueueSize, s, [deliver] + steps), i)
  }

  predicate EmptyAt(s: Pool, i: nat) {
    i < |s.connections| && s.connections[i].query == None
  }

  /** That is so exactly if it holds none, or is not ready. */
  lemma GivingUpExactly(maxQueueSize: nat, s: Pool, i: nat)
    requires s.owing == None && i < |s.connections|
    ensures GivenUpEmpty(maxQueueSize, s, i)
       <==> s.connections[i].query == None || s.connections[i].status != Ready
  {
    var c := s.connections[i];
    if c.query.Some? {
      var deliver := Deliver(i, c.(query := None), ResultExpired);
      var s1 := Apply(maxQueueSize, s, deliver);
      if c.status == Ready {
        var q := Query(s.submitted, ResultOk);
        var run, s' := OneStep(maxQueueSize, s, [], s, deliver);
        run, s' := OneStep(maxQueueSize, s, run, s', Attach(i, q));
        run, s' := OneStep(maxQueueSize, s, run, s', Start(i, c.(query := Some(q))));
        assert run == [deliver] + [Attach(i, q), Start(i, c.(query := Some(q)))] && !EmptyAt(s', i);
      } else {
        forall steps | Runs(maxQueueSize, s, [deliver] + steps) && (forall step :: step in steps ==> OfResult(step))
          ensures EmptyAt(After(maxQueueSize, s, [deliver] + steps), i)
        {
          assert ([deliver] + steps)[1..] == steps;
          StaysEmpty(maxQueueSize, s1, i, steps);
        }
      }
    }
  }

  lemma {:induction false} StaysEmpty(maxQueueSize: nat, s: Pool, i: nat, steps: seq<Step>)
    requires Runs(maxQueueSize, s, steps) && forall step :: step in steps ==> OfResult(step)
    requires i < |s.connections| && s.connections[i].query == None && s.connections[i].status != Ready
    ensures EmptyAt(After(maxQueueSize, s, steps), i)
    decreases |steps|
  {
    if steps != [] {
      assert steps[0] in steps && forall step :: step in steps[1..] ==> step in steps;
      StaysEmpty(maxQueueSize, Apply(maxQueueSize, s, steps[0]), i, steps[1..]);
    }
  }

  function NewOne(): DbConnection {
    DbConnection(0, 0, Wait, None)
  }
}
