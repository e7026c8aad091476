/** `TAbstractDbClient`: the query pool, its connections kept by value. Every change of it is a step
    of the state machine, recorded in a ghost log. */
module DbClients {
  import opened Bytes
  import opened QueryPool
  import opened PoolTurns
  import opened PoolTraces

  const IDLE_PING_TIME := 3600

  class DbClient {
    const maxQueueSize: nat
    const connectTimeout: nat
    const queryTimeout: nat
    var connections: seq<DbConnection>
    var badConnections: seq<DbConnection>
    var queries: seq<Query>
    var connected: bool
    /** The system time, as last read. */
    var clock: int
    /** How many queries were submitted; numbers the next one. */
    var submitted: nat
    ghost var initial: seq<DbConnection>
    ghost var log: seq<Step>
    ghost var state: Pool

    ghost predicate Logged()
      reads this
    {
      && (forall c :: c in initial ==> Fresh(c))
      && Runs(maxQueueSize, Initial(initial), log)
      && state == After(maxQueueSize, Initial(initial), log)
    }

    /** The pool is what its log says. */
    ghost predicate Tied()
      reads this
    {
      && Logged()
      && connections == state.connections
      && badConnections == state.badConnections
      && queries == state.queue
      && submitted == state.submitted
    }

    ghost predicate Valid()
      reads this
    {
      Tied() && state.owing == None
    }

    /** Connection i has been given a query, and `DoQuery` is still to be called for it. */
    ghost predicate Owing(i: nat)
      reads this
    {
      Tied() && state.owing == Some(i) && i < |connections| && connections[i].query.Some?
    }

    /** Valid, except that connection i may have been changed, not its query, without a step. */
    ghost predicate ValidBut(i: nat)
      reads this
    {
      && Logged()
      && state.owing == None
      && i < |connections| == |state.connections|
      && Slot(connections[i]) == Slot(state.connections[i])
      && state.connections[i := connections[i]] == connections
      && AtWork(state.connections[i], state.queue)
      && badConnections == state.badConnections
      && queries == state.queue
      && submitted == state.submitted
    }

    /** The log has only been added to. */
    twostate predicate Extended()
      reads this
    {
      initial == old(initial) && old(log) <= log
    }

    /** And no idle connection was taken away while queries waited for one. */
    twostate predicate Continued()
      reads this
    {
      Extended() && state.lost == old(state).lost
    }

    /** Safety holds of every client at any time. */
    lemma Safe()
      requires Logged()
      ensures Invariant(maxQueueSize, state)
    {
      RunsAreSafe(maxQueueSize, initial, log);
    }

    constructor (connections: seq<DbConnection>, maxQueueSize: nat, connectTimeout: nat, queryTimeout: nat, clock: int)
      requires forall c :: c in connections ==> Fresh(c)
      ensures Valid() && state == Initial(connections) && !connected
    {
      this.maxQueueSize, this.connectTimeout, this.queryTimeout := maxQueueSize, connectTimeout, queryTimeout;
      this.connections, badConnections, queries, submitted := connections, [], [], 0;
      this.clock, connected := clock, false;
      initial, log, state := connections, [], Initial(connections);
    }

    ghost method Record(step: Step)
      requires Logged() && Enabled(maxQueueSize, state, step)
      modifies this`log, this`state
      ensures Logged()
      ensures log == old(log) + [step] && state == Apply(maxQueueSize, old(state), step)
    {
      RunsOn(maxQueueSize, Initial(initial), log, [step]);
      log := log + [step];
      state := Apply(maxQueueSize, state, step);
    }

    /** `time`: never runs backwards. */
    method Time() returns (t: int)
      modifies this`clock
      ensures t == clock >= old(clock)
    {
      t :| t >= clock;
      clock := t;
    }

    // ----- Hooks -----

    /** `DoQuery`: may change anything but the query, and does not give the connection up. */
    method DoQuery(i: nat)
      requires Owing(i)
      modifies this`connections, this`log, this`state
      ensures Valid() && |connections| == |old(connections)|
      ensures Continued()
      ensures connections == old(connections)[i := connections[i]]
      ensures Slot(connections[i]) == Slot(old(connections)[i]) && connections[i].status != Error
      ensures SameHistories(old(state), state)
      ensures state.calls == old(state).calls + [Call.DoQuery(i, old(connections)[i].query.value.id)]
      ensures log == old(log) + [Start(i, connections[i])]
    {
      hide Runs;
      hide After;
      var c := connections[i].(status := Ready);
      assert Slot(c) == Slot(connections[i]) && c.query.Some? && c.status != Error;
      c :| Slot(c) == Slot(connections[i]) && c.query.Some? && c.status != Error;
      Record(Start(i, c));
      connections := connections[i := c];
    }

    /** A hook changes connection i, but neither its query nor so that it fails with one. */
    method HookChanges(i: nat)
      requires Valid() && i < |connections| && AtWork(connections[i], queries)
      modifies this`connections, this`log, this`state
      ensures Valid() && Turned(old(state), state, clock, i)
      ensures Continued()
      ensures Unaffected(old(state), state, i)
      ensures state.calls == old(state).calls && |connections| == |old(connections)|
      ensures HookOnly(log, |old(log)|, |log|, i)
    {
      hide Runs;
      hide After;
      hide Turned;
      var c := connections[i].(status := Wait);
      assert Slot(c) == Slot(connections[i]) && (c.status == Error ==> c.query == None);
      c :| Slot(c) == Slot(connections[i]) && (c.status == Error ==> c.query == None);
      Become(i, c);
    }

    /** Connection i changes, not its query. */
    method Become(i: nat, c: DbConnection)
      requires Valid() && i < |connections| && Slot(c) == Slot(connections[i])
      requires c.status == Error ==> c.query == None
      modifies this`connections, this`log, this`state
      ensures Valid() && Turned(old(state), state, clock, i)
      ensures Extended() && (!TakesAway(old(state), i, c) ==> Continued())
      ensures connections == old(connections)[i := c] && queries == old(queries)
      ensures state.calls == old(state).calls && state.delivered == old(state).delivered
      ensures Unaffected(old(state), state, i)
      ensures log == old(log) + [Change(i, c)]
    {
      hide Runs;
      hide After;
      hide Turned;
      Record(Change(i, c));
      connections := connections[i := c];
      LoneTurn(old(state), state, clock, i);
    }

    /** A hook sets up the outcome of connection i's query, and maybe fails the connection, and calls
        `Result`. */
    method HookFinishes(i: nat)
      requires Valid() && i < |connections| && AtWork(connections[i], queries)
      modifies this
      ensures Valid() && Turned(old(state), state, old(clock), i) && clock >= old(clock)
      ensures Continued()
      ensures Unaffected(old(state), state, i)
      ensures OnlyStarts(old(state).calls, state.calls)
      ensures connected == old(connected) && |connections| == |old(connections)| && AtWork(connections[i], queries)
      ensures HookOnly(log, |old(log)|, |log|, i)
    {
      hide Runs;
      hide After;
      hide Turned;
      var c := connections[i];
      assert Slot(c) == Slot(connections[i]);
      c :| Slot(c) == Slot(connections[i]);
      connections := connections[i := c];
      Result(i);
    }

    /** A virtual hook other than `DoQuery` on connection i: changes the connection short of its
        query, and calls `Result`, as often as it likes and in any order. What several changes in a row
        come to is one change. */
    method Hook(call: Call)
      requires Valid() && call.i < |connections|
      requires call.DoConnect? || call.CheckConnect? || call.CheckResult? || call.DoPing?
      requires call.DoConnect? ==> call.since == connections[call.i].timestamp
      requires AtWork(connections[call.i], queries)
      modifies this
      ensures Valid() && Turned(old(state), state, old(clock), call.i) && clock >= old(clock)
      ensures Continued()
      ensures Unaffected(old(state), state, call.i)
      ensures OnlyStarts(old(state).calls + [call], state.calls)
      ensures connected == old(connected) && |connections| == |old(connections)|
      // the hook's own steps lie between its call and its return, which notes the timestamp it left
      ensures HookRan(log, |old(log)|, |log|, call)
      ensures log[|log| - 1] == Ask(Call.Returned(call.i, connections[call.i].timestamp))
    {
      hide Runs;
      hide After;
      hide Turned;
      hide HookOnly;
      Note(call);
      label asked:
      HookActs(call.i);
      TurnedFacts(old@asked(state), state, old@asked(clock), call.i);
      TurnedTransitive(old(state), old@asked(state), state, old(clock), old@asked(clock), call.i);
      UnaffectedTransitive(old(state), old@asked(state), state, call.i);
      label acted:
      Note(Call.Returned(call.i, connections[call.i].timestamp));
      TurnedTransitive(old(state), old@acted(state), state, old(clock), old@acted(clock), call.i);
      UnaffectedTransitive(old(state), old@acted(state), state, call.i);
      HookOnlyStill(old@acted(log), log, |old(log)| + 1, |old@acted(log)|, call.i);
    }

    /** What the hook does between call and return. */
    method HookActs(i: nat)
      requires Valid() && i < |connections| && AtWork(connections[i], queries)
      modifies this
      ensures Valid() && Turned(old(state), state, old(clock), i) && clock >= old(clock)
      ensures Continued()
      ensures Unaffected(old(state), state, i)
      ensures OnlyStarts(old(state).calls, state.calls)
      ensures connected == old(connected) && |connections| == |old(connections)|
      ensures HookOnly(log, |old(log)|, |log|, i)
    {
      hide Turned;
      hide Runs;
      hide After;
      LoneTurn(state, state, clock, i);
      var n: nat := *;
      while n > 0
        invariant Valid() && Turned(old(state), state, old(clock), i) && clock >= old(clock)
        invariant Continued()
        invariant i < |connections| == |old(connections)| && AtWork(connections[i], queries)
        invariant Unaffected(old(state), state, i)
        invariant OnlyStarts(old(state).calls, state.calls)
        invariant connected == old(connected)
        invariant HookOnly(log, |old(log)|, |log|, i)
      {
        label before:
        HookFinishes(i);
        CallsExtend(old(state).calls, old@before(state).calls, state.calls, 0);
        TurnedTransitive(old(state), old@before(state), state, old(clock), old@before(clock), i);
        UnaffectedTransitive(old(state), old@before(state), state, i);
        n := n - 1;
      }
      label finished:
      HookChanges(i);
      TurnedTransitive(old(state), old@finished(state), state, old(clock), old@finished(clock), i);
      UnaffectedTransitive(old(state), old@finished(state), state, i);
    }

    /** Records a call, or what came of one. */
    ghost method Note(call: Call)
      requires Valid() && Enabled(maxQueueSize, state, Ask(call))
      modifies this`log, this`state
      ensures Valid() && Turned(old(state), state, clock, call.i)
      ensures Continued()
      ensures state.calls == old(state).calls + [call]
      ensures Unaffected(old(state), state, call.i)
      ensures log == old(log) + [Ask(call)]
    {
      hide Runs;
      hide After;
      hide Turned;
      Record(Ask(call));
      LoneTurn(old(state), state, clock, call.i);
    }

    /** `DoConnect`: the record says whether it left the connection ready. */
    method DoConnect(i: nat)
      requires Valid() && i < |connections| && connections[i].status == Wait
      modifies this
      ensures Valid() && Turned(old(state), state, old(clock), i) && clock >= old(clock)
      ensures Continued()
      ensures connected == old(connected) && |connections| == |old(connections)|
      ensures Concluded(old(state).calls + [Call.DoConnect(i, old(connections)[i].timestamp)], state.calls,
                        connections[i].status == Ready, Call.LeftReady(i))
      ensures ConnectRan(log, |old(log)|, |log|, i, old(connections)[i].timestamp)
    {
      hide Runs;
      hide After;
      hide Turned;
      ghost var call := Call.DoConnect(i, connections[i].timestamp);
      Hook(Call.DoConnect(i, connections[i].timestamp));
      if connections[i].status == Ready {
        label asked:
        LastHookAsked(old(state).calls, state.calls, call);
        Note(Call.LeftReady(i));
        HookRanStill(old@asked(log), log, |old(log)|, |old@asked(log)|, call);
        TurnedTransitive(old(state), old@asked(state), state, old(clock), old@asked(clock), i);
        assert state.calls[..|state.calls| - 1] == old@asked(state).calls;
      }
    }

    /** `CheckConnect`: the record says whether it answered yes; when it says no, the connection is not
        ready. */
    method CheckConnect(i: nat) returns (ok: bool)
      requires Valid() && i < |connections| && connections[i].status == Connect
      modifies this
      ensures Valid() && Turned(old(state), state, old(clock), i) && clock >= old(clock)
      ensures Continued()
      ensures connected == old(connected) && |connections| == |old(connections)|
      ensures Concluded(old(state).calls + [Call.CheckConnect(i)], state.calls, ok, Call.SaidOpen(i))
      ensures !ok ==> connections[i].status != Ready
      // a no is the last thing that happens, a yes is noted
      ensures CheckRan(log, |old(log)|, |log|, i)
      ensures log[|log| - 1] == if ok then Ask(Call.SaidOpen(i)) else Ask(Call.Returned(i, connections[i].timestamp))
      ensures ok ==> |log| > 0 && HookRan(log, |old(log)|, |log| - 1, Call.CheckConnect(i))
      ensures !ok ==> HookRan(log, |old(log)|, |log|, Call.CheckConnect(i))
    {
      hide Runs;
      hide After;
      hide Turned;
      Hook(Call.CheckConnect(i));
      ok := *;
      ok := ok || connections[i].status == Ready;
      if ok {
        label asked:
        LastHookAsked(old(state).calls, state.calls, Call.CheckConnect(i));
        Note(Call.SaidOpen(i));
        HookRanStill(old@asked(log), log, |old(log)|, |old@asked(log)|, Call.CheckConnect(i));
        TurnedTransitive(old(state), old@asked(state), state, old(clock), old@asked(clock), i);
        assert state.calls[..|state.calls| - 1] == old@asked(state).calls;
      }
    }

    // ----- Queries -----

    /** `isFitInQueue`: after a yes, none of the next size + 2 queries is rejected, whatever the
        connections do in between; after a no, one of them can be, unless connections are idle beside
        waiting queries. */
    method IsFitInQueue(size: nat) returns (fits: bool)
      requires Valid()
      ensures fits == FitInQueue(maxQueueSize, state, size)
      ensures fits ==> AllAccepted(maxQueueSize, state, size + 2)
      ensures AllAtWork(connections, queries) ==> (fits <==> AllAccepted(maxQueueSize, state, size + 2))
    {
      fits := |queries| + size < maxQueueSize;
      Safe();
      NoneIdle(connections);
      FittingQueriesAreAccepted(maxQueueSize, state, size);
    }

    /** After a positive answer of `IsFitInQueue` at the time of an earlier log, fewer than size + 2
        submissions since then leave room for another one, and none of them was rejected. */
    lemma NextIsAccepted(earlier: seq<Step>, size: nat)
      requires Valid() && earlier <= log && Runs(maxQueueSize, Initial(initial), earlier)
      requires var s := After(maxQueueSize, Initial(initial), earlier);
        FitInQueue(maxQueueSize, s, size) && submitted < s.submitted + size + 2
      ensures |queries| <= maxQueueSize
      ensures var s := After(maxQueueSize, Initial(initial), earlier);
        state.rejected == s.rejected && |state.accepted| - |s.accepted| == submitted - s.submitted
    {
      var later := log[|earlier|..];
      assert log == earlier + later;
      RunsSplit(maxQueueSize, Initial(initial), earlier, later);
      var s := After(maxQueueSize, Initial(initial), earlier);
      SubmissionsCounted(maxQueueSize, s, later);
      RoomSuffices(maxQueueSize, s, size + 2, later);
    }

    /** `Query`: the first idle connection takes the query, or the queue does if it has room. */
    method SubmitQuery(result: ResultStatus) returns (ok: bool)
      requires Valid()
      modifies this
      ensures Valid() && clock >= old(clock) && connected == old(connected) && |connections| == |old(connections)|
      ensures Continued()
      ensures ok <==> (exists i: nat :: FirstIdle(old(connections), i)) || |old(queries)| <= maxQueueSize
      ensures forall i: nat :: FirstIdle(old(connections), i) ==>
        Slot(connections[i]) == Some(old(submitted)) && queries == old(queries)
      ensures (forall i: nat :: !FirstIdle(old(connections), i)) ==>
        && connections == old(connections)
        && queries == if ok then old(queries) + [Query(old(submitted), result)] else old(queries)
      ensures submitted == old(submitted) + 1
      ensures state.accepted == if ok then old(state).accepted + [old(submitted)] else old(state).accepted
      ensures state.rejected == if ok then old(state).rejected else old(state).rejected + [old(submitted)]
      ensures Absorbed(old(state), state, old(clock))
      ensures AllAtWork(old(connections), old(queries)) ==> AllAtWork(connections, queries)
      ensures SubmitsOnly(log, |old(log)|, |log|)
    {
      hide Runs;
      hide After;
      var q := Query(submitted, result);
      var i := 0;
      while i < |connections|
        invariant 0 <= i <= |connections| && Valid() && log == old(log) && initial == old(initial)
        invariant connections == old(connections) && queries == old(queries) && submitted == old(submitted)
        invariant state == old(state) && clock == old(clock) && connected == old(connected)
        invariant forall j :: 0 <= j < i ==> !Idle(connections[j])
      {
        if connections[i].status == Ready && connections[i].query == None {
          assert FirstIdle(old(connections), i);
          Attached(i, q);
          return true;
        }
        i := i + 1;
      }
      submitted := submitted + 1;
      if |queries| > maxQueueSize {
        Record(Reject(q));
        return false;
      }
      Record(Push(q));
      queries := queries + [q];
      return true;
    }

    /** The branch of `Query` for an idle connection. */
    method Attached(i: nat, q: Query)
      requires Valid() && FirstIdle(connections, i) && q.id == submitted
      modifies this`connections, this`submitted, this`log, this`state, this`clock
      ensures Valid() && clock >= old(clock) && queries == old(queries) && |connections| == |old(connections)|
      ensures Continued()
      ensures Slot(connections[i]) == Some(q.id) && submitted == old(submitted) + 1
      ensures AllAtWork(old(connections), old(queries)) ==> AllAtWork(connections, queries)
      ensures state.accepted == old(state).accepted + [q.id] && state.rejected == old(state).rejected
      ensures Absorbed(old(state), state, old(clock))
      ensures SubmitsOnly(log, |old(log)|, |log|)
    {
      hide Runs;
      hide After;
      Record(Attach(i, q));
      connections := connections[i := connections[i].(query := Some(q))];
      submitted := submitted + 1;
      StartQuery(i);
      assert state.calls[|old(state).calls|] == Call.DoQuery(i, q.id);
    }

    /** Starts the query of connection i, and stamps the connection with the time after that. */
    method StartQuery(i: nat)
      requires Owing(i)
      modifies this`connections, this`log, this`state, this`clock
      ensures Valid() && |connections| == |old(connections)|
      ensures Continued()
      ensures connections == old(connections)[i := connections[i]]
      ensures Slot(connections[i]) == Slot(old(connections)[i]) && connections[i].status != Error
      ensures connections[i].timestamp == clock >= old(clock)
      ensures SameHistories(old(state), state)
      ensures state.calls == old(state).calls + [Call.DoQuery(i, old(connections)[i].query.value.id)]
      ensures |log| == |old(log)| + 2
      ensures log[|old(log)|].Start? && log[|old(log)|].i == i && log[|old(log)| + 1] == Stamp(i, clock)
    {
      hide Runs;
      hide After;
      DoQuery(i);
      var t := Time();
      Record(Stamp(i, t));
      connections := connections[i := connections[i].(timestamp := t)];
    }

    method NextQuery(i: nat) returns (ok: bool)
      requires Valid() && i < |connections| && Idle(connections[i])
      modifies this`connections, this`queries, this`log, this`state, this`clock
      ensures Valid() && clock >= old(clock) && |connections| == |old(connections)|
      ensures Continued()
      ensures ok == (old(queries) != [])
      ensures connections == old(connections)[i := connections[i]]
      ensures Touched(old(connections)[i], connections[i], old(clock))
      ensures !ok ==> connections == old(connections) && queries == old(queries)
      ensures !ok ==> state == old(state) && clock == old(clock)
      ensures ok ==> queries == old(queries)[1..] && Slot(connections[i]) == Some(old(queries)[0].id)
      ensures ok ==> state.calls == old(state).calls + [Call.DoQuery(i, old(queries)[0].id)]
      ensures state.delivered == old(state).delivered && state.badConnections == old(state).badConnections
      ensures if ok then TakesOne(log, |old(log)|, |log|, i) else log == old(log)
    {
      hide Runs;
      hide After;
      if |queries| == 0 {
        return false;
      }
      Record(Pop(i));
      connections := connections[i := connections[i].(query := Some(queries[0]))];
      queries := queries[1..];
      StartQuery(i);
      return true;
    }

    /** The result callback takes over a delivered query; on its way it may submit any number of
        new ones. */
    method OnResult(q: Query)
      requires Valid()
      modifies this
      ensures Valid() && clock >= old(clock) && connected == old(connected)
      ensures Continued()
      ensures Absorbed(old(state), state, old(clock))
      ensures SubmitsOnly(log, |old(log)|, |log|)
    {
      hide Runs;
      hide After;
      hide Absorbed;
      NothingAbsorbed(state, clock);
      var n: nat := *;
      while n > 0
        invariant Valid() && Continued() && clock >= old(clock) && connected == old(connected)
        invariant Absorbed(old(state), state, old(clock))
        invariant SubmitsOnly(log, |old(log)|, |log|)
      {
        label before:
        var result: ResultStatus := *;
        var _ := SubmitQuery(result);
        AbsorbedTransitive(old(state), old@before(state), state, old(clock), old@before(clock));
        n := n - 1;
      }
    }

    /** `Result`: hands the query of connection i over, with the result it carries, then takes the
        next one if the connection is ready and nothing was put on it meanwhile. */
    method Result(i: nat)
      requires ValidBut(i)
      modifies this
      ensures Valid() && Turned(old(state), state, old(clock), i) && clock >= old(clock)
      ensures Continued()
      ensures connected == old(connected) && |connections| == |old(connections)|
      ensures var c := old(connections)[i];
        && Touched(c.(query := None), connections[i], old(clock))
        && state.delivered == old(state).delivered
             + (match c.query case None => [] case Some(q) => [q])
      ensures OnlyStarts(old(state).calls, state.calls)
      ensures connections[i].query.Some? ==> StartedOn(old(state).calls, state.calls, i)
      ensures AtWork(connections[i], queries)
      ensures AllAtWork(old(connections), old(queries)) ==> AllAtWork(connections, queries)
      ensures Unaffected(old(state), state, i)
      ensures HookOnly(log, |old(log)|, |log|, i)
      ensures var c := old(connections)[i];
        c.query.Some? && c.status != Ready ==>
          && |log| > |old(log)| && SubmitsOnly(log, |old(log)| + 1, |log|)
          && log[|old(log)|] == Deliver(i, c.(query := None), c.query.value.result)
    {
      hide Runs;
      hide After;
      hide Turned;
      hide Absorbed;
      HandOver(i);
      label free:
      TakeNext(i);
      TurnedTransitive(old(state), old@free(state), state, old(clock), old@free(clock), i);
      CallsExtend(old(state).calls, old@free(state).calls, state.calls, i);
    }

    /** The query of connection i goes to the callback. */
    method HandOver(i: nat)
      requires ValidBut(i)
      modifies this
      ensures Valid() && Turned(old(state), state, old(clock), i) && clock >= old(clock)
      ensures Continued()
      ensures connected == old(connected) && |connections| == |old(connections)|
      ensures var c := old(connections)[i];
        && Touched(c.(query := None), connections[i], old(clock))
        && state.delivered == old(state).delivered
             + (match c.query case None => [] case Some(q) => [q])
      ensures OnlyStarts(old(state).calls, state.calls)
      ensures connections[i].query.Some? ==> StartedOn(old(state).calls, state.calls, i)
      ensures old(queries) == [] ==> AtWork(connections[i], queries)
      ensures AllAtWork(old(connections), old(queries)) ==>
        forall j :: 0 <= j < |connections| && j != i ==> AtWork(connections[j], queries)
      ensures old(connections)[i].query == None ==>
        connections == old(connections) && queries == old(queries)
      ensures |log| > |old(log)| && SubmitsOnly(log, |old(log)| + 1, |log|)
      ensures var c := old(connections)[i];
        log[|old(log)|] == match c.query
          case Some(q) => Deliver(i, c.(query := None), q.result)
          case None => Change(i, c)
    {
      hide Runs;
      hide After;
      hide Turned;
      hide Absorbed;
      var c := connections[i];
      match c.query {
        case Some(q) =>
          Record(Deliver(i, c.(query := None), q.result));
          connections := connections[i := c.(query := None)];
          ghost var delivered := state;
          LoneTurn(old(state), delivered, clock, i);
          OnResult(q);
          AbsorbedTurn(delivered, state, old(clock), i);
          TurnedTransitive(old(state), delivered, state, old(clock), old(clock), i);
          OthersAtWork(delivered, state, old(clock), i, old(connections), old(queries));
        case None =>
          Record(Change(i, c));
          LoneTurn(old(state), state, clock, i);
      }
    }

    /** A ready connection without a query takes the next one. */
    method TakeNext(i: nat)
      requires Valid() && i < |connections|
      modifies this`connections, this`queries, this`log, this`state, this`clock
      ensures Valid() && Turned(old(state), state, old(clock), i) && clock >= old(clock)
      ensures Continued()
      ensures connections == old(connections)[i := connections[i]]
      ensures Touched(old(connections)[i], connections[i], old(clock))
      ensures connections[i] != old(connections)[i] ==> StartedOn(old(state).calls, state.calls, i)
      ensures OnlyStarts(old(state).calls, state.calls) && state.delivered == old(state).delivered
      ensures AtWork(connections[i], queries)
      ensures queries == old(queries) || (old(queries) != [] && queries == old(queries)[1..])
      ensures old(queries) == [] ==> state == old(state) && connections == old(connections) && queries == []
      ensures log == old(log) || (old(connections)[i].status == Ready && TakesOne(log, |old(log)|, |log|, i))
    {
      hide Runs;
      hide After;
      hide Turned;
      LoneTurn(state, state, clock, i);
      if connections[i].query == None && connections[i].status == Ready {
        var ok := NextQuery(i);
        if ok {
          LoneTurn(old(state), state, old(clock), i);
          assert state.calls[|old(state).calls|].DoQuery?;
        }
      }
    }

    // ----- The timer -----

    /** A ready connection whose query has run out of time: the query is expired, the connection
        fails. */
    method ExpireQuery(i: nat)
      requires Valid() && i < |connections| && connections[i].status == Ready && connections[i].query.Some?
      modifies this
      ensures Valid() && Turned(old(state), state, old(clock), i) && clock >= old(clock)
      ensures Continued()
      ensures connected == old(connected) && |connections| == |old(connections)|
      ensures connections[i] == old(connections)[i].(status := Error, query := None)
      ensures state.delivered == old(state).delivered + [Query(old(connections)[i].query.value.id, ResultExpired)]
      ensures OnlyStarts(old(state).calls, state.calls)
      ensures Expires(log, |old(log)|, |log|, i, old(connections)[i].(status := Error, query := None))
    {
      hide Runs;
      hide After;
      hide Turned;
      var c := connections[i];
      var q := c.query.value.(result := ResultExpired);
      connections := connections[i := c.(query := Some(q), status := Error)];
      Result(i);
    }

    /** A ready connection without a query: it takes the next one, or is pinged after a long time. */
    method IdleTurn(i: nat, now: int)
      requires Valid() && i < |connections| && Idle(connections[i])
      modifies this
      ensures Valid() && Turned(old(state), state, old(clock), i) && clock >= old(clock)
      ensures Continued()
      ensures connected == old(connected) && |connections| == |old(connections)|
      ensures AtWork(connections[i], queries)
      ensures connections[i].query.Some? ==> connections[i].timestamp >= old(clock)
      ensures old(queries) != [] ==> Slot(connections[i]) == Some(old(queries)[0].id) && queries == old(queries)[1..]
      ensures old(queries) == [] ==> connections[i].query == None
      ensures old(queries) == [] ==> connections[i].timestamp == PingedAt(old(connections)[i], now)
      ensures old(queries) != [] ==> state.calls == old(state).calls + [Call.DoQuery(i, old(queries)[0].id)]
      ensures old(queries) == [] && now - old(connections)[i].timestamp <= 3600 ==> state == old(state)
      ensures old(queries) == [] && now - old(connections)[i].timestamp > 3600 ==>
        OnlyStarts(old(state).calls + [Call.DoPing(i)], state.calls)
      ensures Served(old(connections)[i], i, old(state).calls, state.calls, now)
      ensures !WasOpened(old(state).calls, state.calls) && !JustOpened(old(state).calls, state.calls, i)
      ensures Asked(old(state).calls, state.calls, Call.DoPing(i)) ==> now - old(connections)[i].timestamp > 3600
      ensures TurnTaken(old(connections)[i], log, |old(log)|, |log|, i, now, queryTimeout, connectTimeout)
    {
      hide Runs;
      hide After;
      hide Turned;
      var ok := NextQuery(i);
      LoneTurn(old(state), state, old(clock), i);
      if ok {
        assert state.calls[|old(state).calls|].DoQuery?;
      } else if now - connections[i].timestamp > IDLE_PING_TIME {
        Ping(i, now);
      }
    }

    /** A connection that has been idle for long, while nothing waits. */
    method Ping(i: nat, now: int)
      requires Valid() && i < |connections| && Idle(connections[i]) && queries == []
      modifies this
      ensures Valid() && Turned(old(state), state, old(clock), i) && clock >= old(clock)
      ensures Continued()
      ensures connected == old(connected) && |connections| == |old(connections)|
      ensures connections[i].query == None && connections[i].timestamp == now && queries == []
      ensures OnlyStarts(old(state).calls + [Call.DoPing(i)], state.calls)
      ensures Asked(old(state).calls, state.calls, Call.DoPing(i))
      ensures !WasOpened(old(state).calls, state.calls) && !JustOpened(old(state).calls, state.calls, i)
      ensures |log| > |old(log)| && log[|log| - 1] == Stamp(i, now)
      ensures HookRan(log, |old(log)|, |log| - 1, Call.DoPing(i))
    {
      hide Turned;
      hide Runs;
      hide After;
      hide HookOnly;
      Hook(Call.DoPing(i));
      label pinged:
      SetTimestamp(i, now);
      HookRanStill(old@pinged(log), log, |old(log)|, |old@pinged(log)|, Call.DoPing(i));
      TurnedTransitive(old(state), old@pinged(state), state, old(clock), old@pinged(clock), i);
      FirstAsked(old(state).calls, state.calls, Call.DoPing(i));
      NoneOpenedAfter(old(state).calls, state.calls, Call.DoPing(i));
    }

    method SetTimestamp(i: nat, now: int)
      requires Valid() && i < |connections|
      modifies this`connections, this`log, this`state
      ensures Valid() && Turned(old(state), state, clock, i)
      ensures Continued()
      ensures connections == old(connections)[i := old(connections)[i].(timestamp := now)]
      ensures queries == old(queries)
      ensures state.delivered == old(state).delivered && state.calls == old(state).calls
      ensures log == old(log) + [Stamp(i, now)]
    {
      hide Runs;
      hide After;
      hide Turned;
      Record(Stamp(i, now));
      connections := connections[i := connections[i].(timestamp := now)];
      LoneTurn(old(state), state, clock, i);
    }

    /** A connection still to be opened. */
    method ConnectTurn(i: nat, now: int)
      requires Valid() && i < |connections| && connections[i].status == Wait
      modifies this
      ensures Valid() && Turned(old(state), state, old(clock), i) && clock >= old(clock)
      ensures Continued()
      ensures connected == old(connected) && |connections| == |old(connections)|
      ensures Concluded(old(state).calls + [Call.DoConnect(i, now)], state.calls,
                        connections[i].status == Ready, Call.LeftReady(i))
      ensures TurnTaken(old(connections)[i], log, |old(log)|, |log|, i, now, queryTimeout, connectTimeout)
    {
      hide Runs;
      hide After;
      hide Turned;
      SetTimestamp(i, now);
      label stamped:
      DoConnect(i);
      TurnedTransitive(old(state), old@stamped(state), state, old(clock), old@stamped(clock), i);
    }

    /** A connection being opened, `ok` being the hook's word that it is open. */
    method CheckTurn(i: nat, now: int) returns (ok: bool)
      requires Valid() && i < |connections| && connections[i].status == Connect
      modifies this
      ensures Valid() && Turned(old(state), state, old(clock), i) && clock >= old(clock)
      ensures Continued()
      ensures connected == (ok || old(connected)) && |connections| == |old(connections)|
      ensures Concluded(old(state).calls + [Call.CheckConnect(i)], state.calls, ok, Call.SaidOpen(i))
      ensures !ok ==> connections[i].status != Ready
      ensures !ok ==> connections[i].status == Error || now - connections[i].timestamp <= connectTimeout
      ensures TurnTaken(old(connections)[i], log, |old(log)|, |log|, i, now, queryTimeout, connectTimeout)
    {
      hide Runs;
      hide After;
      hide Turned;
      ok := CheckConnect(i);
      ghost var back := if ok then |log| - 1 else |log|;
      if ok {
        connected := true;
        assert Checked(log, back, |log|, i, log[back - 1].call.since, now, connectTimeout);
        return;
      }
      if now - connections[i].timestamp > connectTimeout {
        label checked:
        GiveUpConnecting(i);
        HookRanStill(old@checked(log), log, |old(log)|, back, Call.CheckConnect(i));
        TurnedTransitive(old(state), old@checked(state), state, old(clock), old@checked(clock), i);
        CallsExtend(old(state).calls + [Call.CheckConnect(i)], old@checked(state).calls, state.calls, i);
      }
      assert Checked(log, back, |log|, i, log[back - 1].call.since, now, connectTimeout);
    }

    /** The connection could not be opened in time: it fails, its query, if any, is expired. If it is
        ready with a query, `GivingUpExactly` shows that it may fail with another one. */
    method GiveUpConnecting(i: nat)
      requires Valid() && i < |connections|
      requires connections[i].status != Ready || connections[i].query == None
      modifies this
      ensures Valid() && Turned(old(state), state, old(clock), i) && clock >= old(clock)
      ensures Extended() && (AtWork(old(connections)[i], old(queries)) ==> Continued())
      ensures connected == old(connected) && |connections| == |old(connections)|
      ensures connections[i] == old(connections)[i].(status := Error, query := None)
      ensures state.delivered == old(state).delivered
        + (match old(connections)[i].query case None => [] case Some(q) => [Query(q.id, ResultExpired)])
      ensures OnlyStarts(old(state).calls, state.calls)
      ensures GivesUp(log, |old(log)|, |log|, i)
      ensures |log| == |old(log)| + 1 <==> old(connections)[i].query == None
    {
      hide Runs;
      hide After;
      hide Turned;
      LoneTurn(state, state, clock, i);
      if connections[i].query.Some? {
        var c := connections[i];
        var q := c.query.value.(result := ResultExpired);
        connections := connections[i := c.(query := Some(q))];
        Result(i);
      }
      label delivered:
      Abandon(i);
      TurnedTransitive(old(state), old@delivered(state), state, old(clock), old@delivered(clock), i);
    }

    /** Connection i, without a query, counts as failed. */
    method Abandon(i: nat)
      requires Valid() && i < |connections| && connections[i].query == None
      modifies this`connections, this`log, this`state
      ensures Valid() && Turned(old(state), state, clock, i)
      ensures Extended() && (AtWork(old(connections)[i], queries) ==> Continued())
      ensures connections == old(connections)[i := old(connections)[i].(status := Error)] && queries == old(queries)
      ensures state.calls == old(state).calls && state.delivered == old(state).delivered
      ensures log == old(log) + [Fail(i)]
    {
      hide Runs;
      hide After;
      hide Turned;
      Record(Fail(i));
      connections := connections[i := connections[i].(status := Error)];
      LoneTurn(old(state), state, clock, i);
    }

    /** A failed connection: once it has been down long enough it is given up for a new one. */
    method ErrorTurn(i: nat, now: int)
      requires Valid() && i < |connections| && connections[i].status == Error
      modifies this
      ensures Valid() && |connections| == |old(connections)| && clock == old(clock) && !connected
      ensures Continued()
      ensures connections == old(connections)[i := connections[i]] && queries == old(queries)
      ensures state.delivered == old(state).delivered && state.calls == old(state).calls
      ensures GivenUp(old(state), state, now, i, connectTimeout)
      ensures now - old(connections)[i].timestamp <= connectTimeout ==> log == old(log) && state == old(state)
      ensures now - old(connections)[i].timestamp > connectTimeout ==>
        log == old(log) + [Replace(i, now, connections[i])]
    {
      hide Runs;
      hide After;
      connected := false;
      var c := connections[i];
      if now - c.timestamp > connectTimeout {
        var c' := NewConnection();
        Record(Replace(i, now, c'));
        badConnections := badConnections + [c.(timestamp := now)];
        connections := connections[i := c'];
      }
    }

    method NewConnection() returns (c: DbConnection)
      ensures Fresh(c)
    {
      var fd: int := *;
      var timestamp: int := *;
      c := DbConnection(fd, timestamp, Wait, None);
    }

    /** The loop over the connections given up. */
    method DropExpired(all: seq<DbConnection>, now: int) returns (bad: seq<DbConnection>)
      ensures bad == Unexpired(all, now, connectTimeout)
    {
      hide Unexpired;
      bad := all;
      var k := 0;
      assert bad[0..] == bad && bad[..0] == [];
      while k < |bad|
        invariant 0 <= k <= |bad|
        invariant bad[..k] + Unexpired(bad[k..], now, connectTimeout) == Unexpired(all, now, connectTimeout)
        decreases |bad| - k
      {
        FirstUnexpired(bad, k, now, connectTimeout);
        if now - bad[k].timestamp > connectTimeout {
          ghost var kept, later := bad[..k], bad[k + 1..];
          bad := bad[..k] + bad[k + 1..];
          assert bad[..k] == kept && bad[k..] == later;
        } else {
          assert bad[..k + 1] == bad[..k] + [bad[k]];
          k := k + 1;
        }
      }
      NoneUnexpired(bad[k..], now, connectTimeout);
      assert bad == bad[..k] + [];
    }

    method PurgeBad(now: int)
      requires Valid()
      modifies this`badConnections, this`log, this`state
      ensures Valid() && badConnections == Unexpired(old(badConnections), now, connectTimeout)
      ensures Continued()
      ensures state == old(state).(badConnections := badConnections)
      ensures log == old(log) + [Purge(badConnections)]
    {
      hide Runs;
      hide After;
      hide Unexpired;
      var bad := DropExpired(badConnections, now);
      PurgeAllowed(badConnections, now, connectTimeout);
      Record(Purge(bad));
      badConnections := bad;
    }

    /** `OnTimer`. `completed`: the pass reached its end; `reached`: how many connections had their
        turn; `found`: as what the pass found each of them; `cuts`: where the steps of each turn begin
        in the log. */
    method OnTimer(now: int)
      returns (completed: bool, ghost reached: nat, ghost found: seq<DbConnection>, ghost cuts: seq<nat>)
      requires Valid() && now <= clock
      modifies this
      ensures Valid() && |connections| == |old(connections)| && clock >= old(clock)
      ensures Continued()
      // every connection that had its turn was asked what its status calls for, the overdue queries
      // were delivered as expired; and unless a hook opened it in this pass, none is left with an
      // overdue query, idle beside waiting queries, or connecting beyond its time
      ensures Done(old(state), state, now, reached, queryTimeout, connectTimeout)
      ensures completed ==> reached == |connections|
      ensures completed && (forall j: nat :: !JustOpened(old(state).calls, state.calls, j)) ==>
        AllAtWork(connections, queries)
      // of the connections given up, those within their time are left
      ensures completed ==> badConnections == Unexpired(old(badConnections), now, connectTimeout)
      // a pass is cut short only while the pool counts as disconnected
      ensures !completed ==> !connected && CutShort(old(state), state, now, reached, connectTimeout)
      // the pool counts as connected if it did before, or a connection has been opened; and it must if
      // one was told to connect
      ensures completed ==> connected == (old(connected) || WasOpened(old(state).calls, state.calls))
      ensures completed && (exists c :: c in old(connections) && c.status == Wait) ==> connected
      // the steps of the pass are those of the turns, each as the connection found calls for, and those
      // that close the pass; there are no others
      ensures |found| == reached && |cuts| == reached + 1 && cuts[0] == |old(log)|
      ensures TurnsTaken(old(connections), found, log, cuts, now, queryTimeout, connectTimeout)
      ensures PassClosed(old(connections), found, old(badConnections), log, cuts[reached], completed,
                         old(connected) || WasOpened(old(state).calls, state.calls), now, connectTimeout)
    {
      hide Runs;
      hide After;
      hide Turned;
      hide Passed;
      hide Done;
      hide CutShort;
      hide GivenUp;
      hide WasOpened;
      hide TurnTaken;
      hide TurnsTaken;
      hide Unexpired;
      hide AtWork;
      hide Touched;
      hide Asked;
      hide InTime;
      reached := 0;
      completed := false;
      found, cuts := [], [|log|];
      TurnsBegin(connections, log, now, queryTimeout, connectTimeout);
      ghost var start := state;
      var i := 0;
      PassBegins(state, now, queryTimeout, connectTimeout);
      NothingOpened(state.calls);
      while i < |connections|
        invariant Valid() && Continued() && clock >= old(clock) && |connections| == |start.connections| && i == reached
        invariant Passed(start, state, now, i, queryTimeout, connectTimeout) && start.calls <= state.calls
        invariant connected == (old(connected) || WasOpened(start.calls, state.calls))
        invariant (exists j :: 0 <= j < i <= |start.connections| && start.connections[j].status == Wait) ==> connected
        invariant |found| == i && |cuts| == i + 1 && cuts[0] == |old(log)| && cuts[i] == |log|
        invariant i > 0 && found[i - 1].status == Wait ==> connected
        invariant TurnsTaken(start.connections, found, log, cuts, now, queryTimeout, connectTimeout)
        decreases |connections| - i
      {
        ghost var before, steps, c := state, log, connections[i];
        PassSoFar(start, state, now, i, queryTimeout, connectTimeout);
        if connections[i].status == Error {
          ErrorTurn(i, now);
          StoppedByError(start, before, state, now, i, queryTimeout, connectTimeout);
          TurnsStill(start.connections, found, steps, log, cuts, now, queryTimeout, connectTimeout);
          return;
        }
        var wasWaiting := connections[i].status == Wait;
        Turn(i, now, start);
        CallsExtend(start.calls, before.calls, state.calls, i);
        reached := i + 1;
        TurnsGrow(start.connections, found, steps, log, cuts, c, now, queryTimeout, connectTimeout);
        found, cuts := found + [c], cuts + [|log|];
        PassedIsDone(start, state, now, i + 1, queryTimeout, connectTimeout);
        if wasWaiting && !connected {
          StoppedByConnect(start, before, state, now, i, queryTimeout, connectTimeout);
          return;
        }
        i := i + 1;
      }
      PassedIsDone(start, state, now, i, queryTimeout, connectTimeout);
      PassEnds(start, state, now, i, queryTimeout, connectTimeout);
      ghost var before, steps := state, log;
      PurgeBad(now);
      TurnsStill(start.connections, found, steps, log, cuts, now, queryTimeout, connectTimeout);
      DoneAfterPurge(start, before, state, now, i, queryTimeout, connectTimeout);
      completed := true;
    }

    /** The turn of a connection that has not failed. */
    method Turn(i: nat, now: int, ghost start: Pool)
      requires Valid() && now <= clock && i < |connections| && connections[i].status != Error
      requires Passed(start, state, now, i, queryTimeout, connectTimeout)
      modifies this
      ensures Valid() && |connections| == |old(connections)| && clock >= old(clock)
      ensures Continued()
      ensures Passed(start, state, now, i + 1, queryTimeout, connectTimeout)
      ensures start.calls <= old(state).calls <= state.calls
      ensures old(connections)[i].status == Wait ==> Asked(old(state).calls, state.calls, Call.DoConnect(i, now))
      ensures start.connections[i].status == Wait ==> old(connections)[i].status == Wait
      ensures connected == (old(connected) || WasOpened(old(state).calls, state.calls))
      ensures TurnTaken(old(connections)[i], log, |old(log)|, |log|, i, now, queryTimeout, connectTimeout)
      ensures InTime(old(connections)[i], now, queryTimeout) ==> state == old(state)
    {
      hide Runs;
      hide After;
      hide Turned;
      hide Passed;
      hide Concluded;
      hide WasOpened;
      PassSoFar(start, state, now, i, queryTimeout, connectTimeout);
      TurnOfNothing(state, clock, i);
      NothingOpened(state.calls);
      match connections[i].status {
        case Ready =>
          if connections[i].query.Some? {
            if now - connections[i].timestamp > queryTimeout {
              ExpireQuery(i);
              NoneOpened(old(state).calls, state.calls);
            }
          } else {
            IdleTurn(i, now);
          }
        case Wait =>
          ConnectTurn(i, now);
          ConcludedFacts(old(state).calls, state.calls, Call.DoConnect(i, now),
                         connections[i].status == Ready, Call.LeftReady(i));
          NotPinged(old(state).calls, state.calls, Call.DoConnect(i, now),
                    connections[i].status == Ready, Call.LeftReady(i), i);
        case Connect =>
          var ok := CheckTurn(i, now);
          ConcludedFacts(old(state).calls, state.calls, Call.CheckConnect(i), ok, Call.SaidOpen(i));
          NotPinged(old(state).calls, state.calls, Call.CheckConnect(i), ok, Call.SaidOpen(i), i);
      }
      TurnedFacts(old(state), state, old(clock), i);
      PassOne(start, old(state), state, now, old(clock), i, queryTimeout, connectTimeout);
    }

    /** What `DataProcessing` does once it has found the connection. */
    method ProcessEvent(i: nat)
      requires Valid() && i < |connections|
      modifies this
      ensures Valid() && |connections| == |old(connections)| && clock >= old(clock)
      ensures Continued()
      ensures Turned(old(state), state, old(clock), i) && Answered(old(connections)[i], i, old(state), state)
      ensures old(state).delivered <= state.delivered && badConnections == old(badConnections)
      ensures connected == (old(connected) || WasOpened(old(state).calls, state.calls))
      // the hook called is all there is to the event
      ensures EventTaken(old(connections)[i], log, |old(log)|, |log|, i)
    {
      hide Runs;
      hide After;
      TurnOfNothing(state, clock, i);
      NothingOpened(state.calls);
      hide Turned;
      hide WasOpened;
      match connections[i].status {
        case Ready =>
          if connections[i].query.Some? {
            Hook(Call.CheckResult(i));
            ConcludedFacts(old(state).calls, state.calls, Call.CheckResult(i), false, Call.SaidOpen(i));
          }
        case Connect =>
          var ok := CheckConnect(i);
          ConcludedFacts(old(state).calls, state.calls, Call.CheckConnect(i), ok, Call.SaidOpen(i));
          if ok {
            connected := true;
          }
        case _ =>
      }
      TurnedFacts(old(state), state, old(clock), i);
    }

    /** `DataProcessing`: whether the descriptor belongs to the pool. */
    method DataProcessing(fd: int) returns (found: bool)
      requires Valid()
      modifies this
      ensures Valid() && |connections| == |old(connections)| && clock >= old(clock)
      ensures Continued()
      ensures found <==> exists c :: c in old(connections) && c.fd == fd
      ensures old(state).delivered <= state.delivered && badConnections == old(badConnections)
      ensures !found ==> state == old(state)
      ensures forall i: nat :: FirstWith(old(connections), fd, i) ==> Turned(old(state), state, old(clock), i)
      ensures forall i: nat :: FirstWith(old(connections), fd, i) ==>
        Answered(old(connections)[i], i, old(state), state)
      // the hook called is all there is to the event
      ensures forall i: nat :: FirstWith(old(connections), fd, i) ==>
        EventTaken(old(connections)[i], log, |old(log)|, |log|, i)
      ensures !found ==> log == old(log)
      ensures connected == (old(connected) || WasOpened(old(state).calls, state.calls))
    {
      hide Runs;
      hide After;
      hide Turned;
      hide Answered;
      hide WasOpened;
      hide EventTaken;
      NothingOpened(state.calls);
      var i := Find(fd);
      if i == None {
        return false;
      }
      ProcessEvent(i.value);
      return true;
    }

    /** The loop of `DataProcessing`. */
    method Find(fd: int) returns (found: Option<nat>)
      ensures found == None <==> forall c :: c in connections ==> c.fd != fd
      ensures found.Some? ==> FirstWith(connections, fd, found.value)
    {
      var i := 0;
      while i < |connections|
        invariant 0 <= i <= |connections|
        invariant forall j :: 0 <= j < i ==> connections[j].fd != fd
      {
        if connections[i].fd == fd {
          assert connections[i] in connections;
          return Some(i);
        }
        i := i + 1;
      }
      return None;
    }
  }
}
