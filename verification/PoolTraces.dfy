/** The steps by which the pool does its work, in the order in which it does them: what a hook, a turn of
    the timer pass, a whole pass and an event leave in the log. */
module PoolTraces {
  import opened Bytes
  import opened QueryPool
  import opened PoolTurns

  /** A step of `Query`. */
  predicate OfSubmission(step: Step) {
    Submits(step) || step.Start? || step.Stamp?
  }

  /** A step of a hook on connection i, and of the callbacks it brings about. */
  predicate OfHook(step: Step, i: nat) {
    OfSubmission(step) || ((step.Change? || step.Deliver? || step.Pop?) && step.i == i)
  }

  ghost predicate SubmitsOnly(log: seq<Step>, from: nat, to: nat) {
    from <= to <= |log| && forall k :: from <= k < to ==> OfSubmission(log[k])
  }

  ghost predicate HookOnly(log: seq<Step>, from: nat, to: nat, i: nat) {
    from <= to <= |log| && forall k :: from <= k < to ==> OfHook(log[k], i)
  }

  /** The steps are the call of the hook, what the hook does, and its return. */
  ghost predicate HookRan(log: seq<Step>, from: nat, to: nat, call: Call) {
    && from + 2 <= to <= |log|
    && log[from] == Ask(call)
    && log[to - 1].Ask? && log[to - 1].call.Returned? && log[to - 1].call.i == call.i
    && HookOnly(log, from + 1, to - 1, call.i)
  }

  /** Connection i takes the oldest query of the queue. */
  predicate TakesOne(log: seq<Step>, from: nat, to: nat, i: nat) {
    && to == from + 3 <= |log|
    && log[from] == Pop(i)
    && log[from + 1].Start? && log[from + 1].i == i
    && log[from + 2].Stamp? && log[from + 2].i == i
  }

  /** The query of connection i is delivered as expired, leaving the connection as c; the callback may
      submit. */
  ghost predicate Expires(log: seq<Step>, from: nat, to: nat, i: nat, c: DbConnection) {
    && from < to <= |log|
    && log[from] == Deliver(i, c, ResultExpired)
    && SubmitsOnly(log, from + 1, to)
  }

  /** A connection that could not be opened in time: its query, if any, is expired, then it fails. */
  ghost predicate GivesUp(log: seq<Step>, from: nat, to: nat, i: nat) {
    && from < to <= |log|
    && log[to - 1] == Fail(i)
    && (from < to - 1 ==>
          && log[from].Deliver? && log[from].i == i && log[from].result == ResultExpired
          && SubmitsOnly(log, from + 1, to - 1))
  }

  /** What follows the return of `CheckConnect` on connection i: after a yes nothing; after a no nothing
      as long as its time is not up. */
  ghost predicate Checked(log: seq<Step>, from: nat, to: nat, i: nat, since: int, now: int, connectTimeout: nat) {
    && from <= to <= |log|
    && if from < to && log[from] == Ask(Call.SaidOpen(i)) then to == from + 1
       else if now - since <= connectTimeout then to == from
       else GivesUp(log, from, to, i)
  }

  ghost predicate CheckedTurn(log: seq<Step>, from: nat, to: nat, i: nat, now: int, connectTimeout: nat) {
    exists m: nat :: m <= to && HookRan(log, from, m, Call.CheckConnect(i))
      && Checked(log, m, to, i, log[m - 1].call.since, now, connectTimeout)
  }

  /** The call of `DoConnect`, and whether it left the connection ready. */
  ghost predicate ConnectRan(log: seq<Step>, from: nat, to: nat, i: nat, since: int) {
    || HookRan(log, from, to, Call.DoConnect(i, since))
    || (from < to <= |log| && log[to - 1] == Ask(Call.LeftReady(i))
        && HookRan(log, from, to - 1, Call.DoConnect(i, since)))
  }

  /** The call of `CheckConnect`, and whether it said yes. */
  ghost predicate CheckRan(log: seq<Step>, from: nat, to: nat, i: nat) {
    || HookRan(log, from, to, Call.CheckConnect(i))
    || (from < to <= |log| && log[to - 1] == Ask(Call.SaidOpen(i)) && HookRan(log, from, to - 1, Call.CheckConnect(i)))
  }

  /** The turn of connection i, found as c, in a timer pass. */
  ghost predicate TurnTaken(c: DbConnection, log: seq<Step>, from: nat, to: nat, i: nat, now: int,
                            queryTimeout: nat, connectTimeout: nat) {
    && from <= to <= |log|
    && match c.status
       case Ready =>
         if c.query.Some? then
           if now - c.timestamp > queryTimeout then Expires(log, from, to, i, c.(status := Error, query := None))
           else to == from
         else
           || TakesOne(log, from, to, i)
           || (if now - c.timestamp > 3600 then
                 to > from && log[to - 1] == Stamp(i, now) && HookRan(log, from, to - 1, Call.DoPing(i))
               else to == from)
       case Wait => to > from && log[from] == Stamp(i, now) && ConnectRan(log, from + 1, to, i, now)
       case Connect => CheckedTurn(log, from, to, i, now, connectTimeout)
       case Error => false
  }

  /** The first |cuts| - 1 turns of a pass, turn j made of the steps from cuts[j] to cuts[j + 1], on a
      connection found as found[j]. */
  ghost predicate TurnsTaken(before: seq<DbConnection>, found: seq<DbConnection>, log: seq<Step>, cuts: seq<nat>,
                             now: int, queryTimeout: nat, connectTimeout: nat) {
    && |cuts| == |found| + 1 && |found| <= |before|
    && (forall j :: 0 <= j < |found| ==> Touched(before[j], found[j], now))
    && (forall j :: 0 <= j < |found| ==>
          TurnTaken(found[j], log, cuts[j], cuts[j + 1], j, now, queryTimeout, connectTimeout))
  }

  /** How the steps of a pass end behind those of its turns: with the loop over the connections given
      up; or because the pool is disconnected and the last one found was told to connect; or because the
      next one has failed. */
  predicate PassClosed(before: seq<DbConnection>, found: seq<DbConnection>, bad: seq<DbConnection>, log: seq<Step>,
                       last: nat, completed: bool, wasConnected: bool, now: int, connectTimeout: nat) {
    var n := |found|;
    if completed then |log| == last + 1 && log[last] == Purge(Unexpired(bad, now, connectTimeout))
    else if !wasConnected && n > 0 && found[n - 1].status == Wait then |log| == last
    else
      && n < |before| && before[n].status == Error
      && if now - before[n].timestamp <= connectTimeout then |log| == last
         else |log| == last + 1 && log[last].Replace? && log[last].i == n && log[last].timestamp == now
  }

  /** An event on connection i, found as c. */
  ghost predicate EventTaken(c: DbConnection, log: seq<Step>, from: nat, to: nat, i: nat) {
    match c.status
    case Ready => if c.query.Some? then HookRan(log, from, to, Call.CheckResult(i)) else to == from
    case Connect => CheckRan(log, from, to, i)
    case _ => to == from
  }

  // ----- Later steps do not change earlier ones -----

  lemma HookOnlyStill(log: seq<Step>, later: seq<Step>, from: nat, to: nat, i: nat)
    requires HookOnly(log, from, to, i) && log <= later
    ensures HookOnly(later, from, to, i)
  {
  }

  lemma HookRanStill(log: seq<Step>, later: seq<Step>, from: nat, to: nat, call: Call)
    requires HookRan(log, from, to, call) && log <= later
    ensures HookRan(later, from, to, call)
  {
  }

  lemma TurnStill(c: DbConnection, log: seq<Step>, later: seq<Step>, from: nat, to: nat, i: nat, now: int,
                  queryTimeout: nat, connectTimeout: nat)
    requires TurnTaken(c, log, from, to, i, now, queryTimeout, connectTimeout) && log <= later
    ensures TurnTaken(c, later, from, to, i, now, queryTimeout, connectTimeout)
  {
    if c.status == Connect {
      var m: nat :| m <= to && HookRan(log, from, m, Call.CheckConnect(i))
        && Checked(log, m, to, i, log[m - 1].call.since, now, connectTimeout);
      HookRanStill(log, later, from, m, Call.CheckConnect(i));
      assert log[m - 1] == later[m - 1];
      assert Checked(later, m, to, i, later[m - 1].call.since, now, connectTimeout);
    }
  }

  lemma TurnsBegin(before: seq<DbConnection>, log: seq<Step>, now: int, queryTimeout: nat, connectTimeout: nat)
    ensures TurnsTaken(before, [], log, [|log|], now, queryTimeout, connectTimeout)
  {
  }

  lemma TurnsGrow(before: seq<DbConnection>, found: seq<DbConnection>, log: seq<Step>, later: seq<Step>, cuts: seq<nat>,
                  c: DbConnection, now: int, queryTimeout: nat, connectTimeout: nat)
    requires TurnsTaken(before, found, log, cuts, now, queryTimeout, connectTimeout) && log <= later
    requires |found| < |before| && Touched(before[|found|], c, now) && cuts[|found|] == |log|
    requires TurnTaken(c, later, |log|, |later|, |found|, now, queryTimeout, connectTimeout)
    ensures TurnsTaken(before, found + [c], later, cuts + [|later|], now, queryTimeout, connectTimeout)
  {
    hide TurnTaken;
    forall j | 0 <= j < |found|
      ensures TurnTaken(found[j], later, cuts[j], cuts[j + 1], j, now, queryTimeout, connectTimeout)
    {
      TurnStill(found[j], log, later, cuts[j], cuts[j + 1], j, now, queryTimeout, connectTimeout);
    }
  }

  lemma TurnsStill(before: seq<DbConnection>, found: seq<DbConnection>, log: seq<Step>, later: seq<Step>,
                   cuts: seq<nat>, now: int, queryTimeout: nat, connectTimeout: nat)
    requires TurnsTaken(before, found, log, cuts, now, queryTimeout, connectTimeout) && log <= later
    ensures TurnsTaken(before, found, later, cuts, now, queryTimeout, connectTimeout)
  {
    hide TurnTaken;
    forall j | 0 <= j < |found|
      ensures TurnTaken(found[j], later, cuts[j], cuts[j + 1], j, now, queryTimeout, connectTimeout)
    {
      TurnStill(found[j], log, later, cuts[j], cuts[j + 1], j, now, queryTimeout, connectTimeout);
    }
  }
}
