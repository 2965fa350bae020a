/**
 The control plane together with its agents.

 An agent learns of work only from heartbeat answers, runs each command as a task of its own, and
 reports that task's outcome. Tasks finish in any order and any of them may be lost. Handlers
 interleave: a report commits with whatever it had read of the rental and the host, and a delete, an
 eviction or a payout may commit after what it read has changed.
 */
module Agent {
  import opened Model
  import opened Tables
  import opened Database
  import opened Billing
  import opened Commands
  import opened Occupancy

  datatype Outcome = Success(kind: RentalKind, sshPort: int, containerId: string) | Failure(message: string)

  /** The report a finished task sends. A stop says nothing of how the rental was reached. */
  function Dispatch(command: Command, outcome: Outcome): ReportRequest {
    match (command, outcome)
    case (StartRental(_, _, _), Success(kind, port, id)) =>
      ReportRequest(Running, Some(kind), Some(port), Some(id), None)
    case (StopRental(_), Success(_, _, _)) => ReportRequest(Stopped, None, None, None, None)
    case (_, Failure(message)) => ReportRequest(Failed, None, None, None, Some(message))
  }

  datatype Task = Task(machine: nat, item: Item)

  datatype Sys = Sys(db: Db, tasks: seq<Task>)

  /** What the report handler read before its transaction: the host's address, and whether to settle. */
  datatype Read = Read(ip: string, settle: bool)

  datatype Step =
    | Other(tx: Tx)
    | Beat(machine: nat, online: bool, at: int, received: bool)
    | Finish(task: nat, outcome: Outcome, read: Read, at: int)
    | Lose(task: nat)

  function Spawn(machine: nat, items: seq<Item>): seq<Task> {
    seq(|items|, i requires 0 <= i < |items| => Task(machine, items[i]))
  }

  function Without(tasks: seq<Task>, k: nat): seq<Task>
    requires k < |tasks|
  {
    tasks[..k] + tasks[k + 1..]
  }

  /** The transaction of the report on a task's outcome. */
  function ReportOf(task: Task, outcome: Outcome, read: Read, at: int): Tx {
    Report(task.item.command.rental, read.ip, Dispatch(task.item.command, outcome), read.settle, at)
  }

  /** Heartbeats and reports come only from the agents' own steps. */
  predicate Possible(s: Sys, step: Step)
    requires WellFormed(s.db)
  {
    match step
    case Other(tx) => !tx.Report? && !tx.Heartbeat? && Legal(s.db, tx)
    case Beat(m, _, _, _) => m < |s.db.machines|
    case Finish(k, outcome, read, at) =>
      && k < |s.tasks|
      && s.tasks[k].machine < |s.db.machines|
      && Legal(s.db, ReportOf(s.tasks[k], outcome, read, at))
    case Lose(k) => k < |s.tasks|
  }

  /**
   A stop's report is processed only after the start of the same rental has finished or was lost,
   and a delete or an eviction commits only on a rental that has not ended since it was read.
   */
  predicate Guarded(s: Sys, step: Step) {
    && (step.Finish? && step.task < |s.tasks| && s.tasks[step.task].item.command.StopRental? ==>
          forall j :: 0 <= j < |s.tasks| && s.tasks[j].item.command.StartRental? ==>
            s.tasks[j].item.command.rental != s.tasks[step.task].item.command.rental)
    && (step.Other? && (step.tx.RequestStop? || step.tx.EvictRental?) ==> !Ended(s.db, step.tx.rental))
  }

  /** The transaction a step commits, if any. */
  function Commits(s: Sys, step: Step): seq<Tx>
    requires WellFormed(s.db) && Possible(s, step)
  {
    match step
    case Other(tx) => [tx]
    case Beat(m, online, at, _) => [Heartbeat(m, online, at)]
    case Finish(k, outcome, read, at) => [ReportOf(s.tasks[k], outcome, read, at)]
    case Lose(_) => []
  }

  function Do(s: Sys, step: Step): Sys
    requires WellFormed(s.db) && Possible(s, step)
  {
    match step
    case Other(tx) => s.(db := Apply(s.db, tx))
    case Beat(m, online, at, received) =>
      Sys(Apply(s.db, Heartbeat(m, online, at)),
          s.tasks + if received then Spawn(m, Response(s.db.commands, m)) else [])
    case Finish(k, outcome, read, at) =>
      Sys(Apply(s.db, ReportOf(s.tasks[k], outcome, read, at)), Without(s.tasks, k))
    case Lose(k) => s.(tasks := Without(s.tasks, k))
  }

  // ---- the invariant -------------------------------------------------------

  /** Tasks come from distinct delivered rows. */
  ghost predicate TasksDelivered(commands: seq<CommandRow>, tasks: seq<Task>) {
    && (forall k :: 0 <= k < |tasks| ==>
          && tasks[k].item.id < |commands|
          && commands[tasks[k].item.id].delivered
          && commands[tasks[k].item.id].machine == tasks[k].machine
          && commands[tasks[k].item.id].command == tasks[k].item.command)
    && (forall k, j :: 0 <= k < j < |tasks| ==> tasks[k].item.id != tasks[j].item.id)
  }

  /** The start of rental `r` was delivered and is no longer running. */
  ghost predicate StartResolved(s: Sys, r: nat) {
    forall c :: 0 <= c < |s.db.commands|
                && s.db.commands[c].command.StartRental? && s.db.commands[c].command.rental == r ==>
      s.db.commands[c].delivered && forall k :: 0 <= k < |s.tasks| ==> s.tasks[k].item.id != c
  }

  ghost predicate Inv(s: Sys) {
    && WellFormed(s.db)
    && Sensible(s.db)
    && InOrder(s.db.commands)
    && TasksDelivered(s.db.commands, s.tasks)
    && forall r :: Ended(s.db, r) ==> StartResolved(s, r)
  }

  lemma StepKeepsTables(s: Sys, step: Step)
    requires Inv(s) && Possible(s, step)
    ensures WellFormed(Do(s, step).db) && Sensible(Do(s, step).db) && InOrder(Do(s, step).db.commands)
    ensures Commits(s, step) != [] ==> Legal(s.db, Commits(s, step)[0]) && Do(s, step).db == Apply(s.db, Commits(s, step)[0])
    ensures Commits(s, step) == [] ==> Do(s, step).db == s.db
  {
    var txs := Commits(s, step);
    if txs != [] {
      StaysWellFormed(s.db, txs[0]);
      SensibleStep(s.db, txs[0]);
      ViewStep(s.db, txs[0], 0);
    }
  }

  lemma SpawnedTasks(commands: seq<CommandRow>, tasks: seq<Task>, m: nat)
    requires TasksDelivered(commands, tasks)
    ensures TasksDelivered(MarkDelivered(commands, m), tasks)
    ensures TasksDelivered(MarkDelivered(commands, m), tasks + Spawn(m, Response(commands, m)))
    ensures forall k :: |tasks| <= k < |tasks| + |Response(commands, m)| ==>
              !commands[(tasks + Spawn(m, Response(commands, m)))[k].item.id].delivered
  {
    IdsIncrease(commands, m, Waiting);
  }

  lemma TasksKept(commands: seq<CommandRow>, row: Option<CommandRow>, tasks: seq<Task>)
    requires TasksDelivered(commands, tasks)
    ensures TasksDelivered(Table(commands, None, row), tasks)
  {
  }

  lemma TaskRemoved(commands: seq<CommandRow>, tasks: seq<Task>, k: nat)
    requires TasksDelivered(commands, tasks) && k < |tasks|
    ensures TasksDelivered(commands, Without(tasks, k))
    ensures forall j :: 0 <= j < |Without(tasks, k)| ==> Without(tasks, k)[j].item.id != tasks[k].item.id
  {
  }

  lemma StepKeepsTasks(s: Sys, step: Step)
    requires Inv(s) && Possible(s, step)
    ensures TasksDelivered(Do(s, step).db.commands, Do(s, step).tasks)
  {
    match step
    case Other(tx) =>
      TableStep(s.db, tx);
      TasksKept(s.db.commands, Issued(s.db, tx), s.tasks);
    case Beat(m, online, at, received) =>
      TableStep(s.db, Heartbeat(m, online, at));
      SpawnedTasks(s.db.commands, s.tasks, m);
    case Finish(k, outcome, read, at) =>
      TableStep(s.db, ReportOf(s.tasks[k], outcome, read, at));
      TaskRemoved(s.db.commands, s.tasks, k);
    case Lose(k) =>
      TaskRemoved(s.db.commands, s.tasks, k);
  }

  /** Who can be ended after a step: whoever was, and the rental whose task just reported an end. */
  lemma EndedAfter(s: Sys, step: Step, r: nat)
    requires Inv(s) && Possible(s, step)
    ensures Ended(Do(s, step).db, r) ==>
              || Ended(s.db, r)
              || (step.Finish? && s.tasks[step.task].item.command.rental == r
                  && Dispatch(s.tasks[step.task].item.command, step.outcome).status.IsTerminal())
  {
    if Commits(s, step) != [] {
      EndsWhenBilled(s.db, Commits(s, step)[0], r);
    }
  }

  lemma StepResolves(s: Sys, step: Step, r: nat)
    requires Inv(s) && Possible(s, step) && Guarded(s, step)
    requires Ended(Do(s, step).db, r)
    ensures StartResolved(Do(s, step), r)
  {
    EndedAfter(s, step, r);
    match step
    case Other(tx) =>
      TableStep(s.db, tx);
      RentalsStep(s.db, tx);
    case Beat(m, online, at, received) =>
      SpawnedTasks(s.db.commands, s.tasks, m);
    case Lose(k) =>
      FewerTasks(s, k, r);
    case Finish(k, outcome, read, at) =>
      TableStep(s.db, ReportOf(s.tasks[k], outcome, read, at));
      if Ended(s.db, r) {
        FewerTasks(s, k, r);
      } else {
        ReportedEndResolves(s, k, r);
      }
  }

  lemma FewerTasks(s: Sys, k: nat, r: nat)
    requires k < |s.tasks| && StartResolved(s, r)
    ensures StartResolved(s.(tasks := Without(s.tasks, k)), r)
  {
  }

  /** When a task of `r` reports an end, no start of `r` is left waiting or running. */
  lemma ReportedEndResolves(s: Sys, k: nat, r: nat)
    requires Inv(s) && k < |s.tasks| && s.tasks[k].item.command.rental == r
    requires s.tasks[k].item.command.StopRental? ==>
               forall j :: 0 <= j < |s.tasks| && s.tasks[j].item.command.StartRental? ==>
                 s.tasks[j].item.command.rental != r
    ensures StartResolved(s.(tasks := Without(s.tasks, k)), r)
  {
    var row := s.tasks[k].item.id;
    if s.tasks[k].item.command.StopRental? {
      assert StartedBefore(s.db.commands, r, row);
    }
  }

  lemma InvStep(s: Sys, step: Step)
    requires Inv(s) && Possible(s, step) && Guarded(s, step)
    ensures Inv(Do(s, step))
  {
    StepKeepsTables(s, step);
    StepKeepsTasks(s, step);
    forall r | Ended(Do(s, step).db, r) ensures StartResolved(Do(s, step), r) {
      StepResolves(s, step, r);
    }
  }

  /** Under the invariant only an unguarded delete or eviction brings an ended rental back in one step. */
  lemma OnlyStaleRevives(s: Sys, step: Step, r: nat)
    requires Inv(s) && Possible(s, step) && Commits(s, step) != []
    ensures Revives(s.db, Commits(s, step)[0], r) <==> !Guarded(s, step) && step.Other? && step.tx.rental == r
  {
    if step.Finish? && s.tasks[step.task].item.command.StartRental? {
      var c := s.tasks[step.task].item.id;
      assert s.db.commands[c].command.rental == s.tasks[step.task].item.command.rental;
    }
  }

  // ---- runs of the composed system -----------------------------------------

  ghost predicate GuardedRun(s: Sys, steps: seq<Step>)
    requires WellFormed(s.db)
    decreases |steps|
  {
    |steps| == 0 ||
    (&& Possible(s, steps[0]) && Guarded(s, steps[0])
     && WellFormed(Do(s, steps[0]).db) && GuardedRun(Do(s, steps[0]), steps[1..]))
  }

  ghost function End(s: Sys, steps: seq<Step>): (end: Sys)
    requires WellFormed(s.db) && GuardedRun(s, steps)
    ensures WellFormed(end.db)
    decreases |steps|
  {
    if |steps| == 0 then s else End(Do(s, steps[0]), steps[1..])
  }

  ghost function Trace(s: Sys, steps: seq<Step>): seq<Tx>
    requires WellFormed(s.db) && GuardedRun(s, steps)
    decreases |steps|
  {
    if |steps| == 0 then [] else Commits(s, steps[0]) + Trace(Do(s, steps[0]), steps[1..])
  }

  /** A guarded run commits a run in which no rental is brought back. */
  lemma {:induction false} GuardedTrace(s: Sys, steps: seq<Step>)
    requires Inv(s) && GuardedRun(s, steps)
    ensures Inv(End(s, steps))
    ensures Run(s.db, Trace(s, steps))
    ensures After(s.db, Trace(s, steps)) == End(s, steps).db
    ensures forall r :: Times(s.db, Trace(s, steps), Reviving(r)) == 0
    decreases |steps|
  {
    if |steps| > 0 {
      var step, rest := steps[0], steps[1..];
      var next := Do(s, step);
      InvStep(s, step);
      StepKeepsTables(s, step);
      GuardedTrace(next, rest);
      var txs := Commits(s, step);
      if txs == [] {
        assert Trace(s, steps) == Trace(next, rest);
      } else {
        forall r ensures !Revives(s.db, txs[0], r) {
          OnlyStaleRevives(s, step, r);
        }
        PrependTx(s.db, txs[0], Trace(next, rest));
        assert Trace(s, steps) == [txs[0]] + Trace(next, rest);
      }
    }
  }

  lemma PrependTx(db: Db, tx: Tx, txs: seq<Tx>)
    requires WellFormed(db) && Legal(db, tx) && forall r :: !Revives(db, tx, r)
    requires WellFormed(Apply(db, tx)) && Run(Apply(db, tx), txs)
    requires forall r :: Times(Apply(db, tx), txs, Reviving(r)) == 0
    ensures Run(db, [tx] + txs)
    ensures After(db, [tx] + txs) == After(Apply(db, tx), txs)
    ensures forall r :: Times(db, [tx] + txs, Reviving(r)) == 0
  {
    var all := [tx] + txs;
    assert all[0] == tx && all[1..] == txs;
  }

  const START: Sys := Sys(EMPTY, [])

  lemma EndedForGood(s: Sys, steps: seq<Step>, r: nat)
    requires Inv(s) && GuardedRun(s, steps) && Ended(s.db, r)
    ensures Ended(End(s, steps).db, r)
  {
    GuardedTrace(s, steps);
    StaysEnded(s.db, Trace(s, steps), r);
  }

  /** No guarded run of the composed system ever makes a terminal rental non-terminal again. */
  lemma TerminalIsFinal(before: seq<Step>, after: seq<Step>, r: nat)
    requires GuardedRun(START, before) && GuardedRun(End(START, before), after)
    requires Ended(End(START, before).db, r)
    ensures Ended(End(End(START, before), after).db, r)
  {
    GuardedTrace(START, before);
    EndedForGood(End(START, before), after, r);
  }

  /**
   Nor does any machine ever have two live rentals; and a rental is billed once for its end, once
   more for each report that settles it after reading it live, and never for anything else.
   */
  lemma ComposedSafety(steps: seq<Step>, r: nat)
    requires GuardedRun(START, steps)
    ensures Run(EMPTY, Trace(START, steps)) && After(EMPTY, Trace(START, steps)) == End(START, steps).db
    ensures Exclusive(End(START, steps).db)
    ensures |Bills(EMPTY, Trace(START, steps), r)| + Times(EMPTY, Trace(START, steps), EndingUnbilled(r)) ==
              Times(EMPTY, Trace(START, steps), BillingAgain(r)) + EndedCount(End(START, steps).db, r)
  {
    GuardedTrace(START, steps);
    SafeIfNoneRevived(Trace(START, steps), r);
  }

  lemma SafeIfNoneRevived(txs: seq<Tx>, r: nat)
    requires Run(EMPTY, txs) && forall q :: Times(EMPTY, txs, Reviving(q)) == 0
    ensures Exclusive(After(EMPTY, txs))
    ensures |Bills(EMPTY, txs, r)| + Times(EMPTY, txs, EndingUnbilled(r)) ==
              Times(EMPTY, txs, BillingAgain(r)) + EndedCount(After(EMPTY, txs), r)
  {
    ExclusiveUnlessRevived(EMPTY, txs);
    OneBillPerEnding(EMPTY, txs, r);
  }

  /** With reports that settle on what they find, each rental is billed exactly when it has ended, once. */
  lemma BilledWhenEnded(s: Sys, steps: seq<Step>, r: nat)
    requires Inv(s) && GuardedRun(s, steps)
    requires Run(s.db, Trace(s, steps)) && Along(s.db, Trace(s, steps), IsFresh())
    ensures |Bills(s.db, Trace(s, steps), r)| + EndedCount(s.db, r) == EndedCount(End(s, steps).db, r)
  {
    GuardedTrace(s, steps);
    BilledWhenItEnds(s.db, Trace(s, steps), r);
  }

  /**
   The first half of the guard is exactly what this needs: wherever a stop breaks it, that step and
   the outstanding start's success end a rental and then bring it back.
   */
  lemma GuardIsNeeded(s: Sys, step: Step, at: int) returns (j: nat, revive: Step)
    requires Inv(s) && Possible(s, step) && !Guarded(s, step) && step.Finish?
    ensures WellFormed(Do(s, step).db) && Possible(Do(s, step), revive) && WellFormed(Do(Do(s, step), revive).db)
    ensures var r := s.tasks[step.task].item.command.rental;
            && Ended(Do(s, step).db, r)
            && !Ended(Do(Do(s, step), revive).db, r)
  {
    var k := step.task;
    var i :| 0 <= i < |s.tasks| && s.tasks[i].item.command.StartRental?
             && s.tasks[i].item.command.rental == s.tasks[k].item.command.rental;
    j := ShiftedTask(s.tasks, k, i);
    revive := Finish(j, Success(Ssh, 0, ""), Read("", false), at);
    StepKeepsTables(s, step);
    StopEnds(s, k, step.outcome, step.read, step.at);
    TaskInRange(s, i);
    StartRevives(Do(s, step), j, at);
  }

  /** So is the second: any other handler leaves every ended rental ended exactly when guarded. */
  lemma StaleGuardIsNeeded(s: Sys, step: Step)
    requires Inv(s) && Possible(s, step) && step.Other?
    ensures Guarded(s, step) <==> forall r :: Ended(s.db, r) ==> Ended(Do(s, step).db, r)
  {
    forall r | Ended(s.db, r)
      ensures Ended(Do(s, step).db, r) <==> Guarded(s, step) || step.tx.rental != r
    {
      EndsWhenBilled(s.db, step.tx, r);
      OnlyStaleRevives(s, step, r);
    }
  }

  lemma ShiftedTask(tasks: seq<Task>, k: nat, i: nat) returns (j: nat)
    requires k < |tasks| && i < |tasks| && i != k
    ensures j < |Without(tasks, k)| && Without(tasks, k)[j] == tasks[i]
  {
    j := if i < k then i else i - 1;
  }

  lemma TaskInRange(s: Sys, i: nat)
    requires Inv(s) && i < |s.tasks|
    ensures s.tasks[i].machine < |s.db.machines| && s.tasks[i].item.command.rental < |s.db.rentals|
  {
  }

  lemma StopEnds(s: Sys, k: nat, outcome: Outcome, read: Read, at: int)
    requires WellFormed(s.db) && Possible(s, Finish(k, outcome, read, at)) && s.tasks[k].item.command.StopRental?
    ensures Ended(Do(s, Finish(k, outcome, read, at)).db, s.tasks[k].item.command.rental)
    ensures |Do(s, Finish(k, outcome, read, at)).db.machines| == |s.db.machines|
    ensures |Do(s, Finish(k, outcome, read, at)).db.rentals| == |s.db.rentals|
  {
  }

  lemma StartRevives(s: Sys, j: nat, at: int)
    requires WellFormed(s.db) && j < |s.tasks| && s.tasks[j].item.command.StartRental?
    requires s.tasks[j].machine < |s.db.machines| && s.tasks[j].item.command.rental < |s.db.rentals|
    ensures var revive := Finish(j, Success(Ssh, 0, ""), Read("", false), at);
            && Possible(s, revive) && WellFormed(Do(s, revive).db)
            && !Ended(Do(s, revive).db, s.tasks[j].item.command.rental)
  {
    StaysWellFormed(s.db, ReportOf(s.tasks[j], Success(Ssh, 0, ""), Read("", false), at));
  }

  /** What the tenant sees of a rental: how its start succeeded, with a stop keeping all but the port. */
  lemma ReportedContact(s: Sys, k: nat, kind: RentalKind, port: int, id: string, read: Read, at: int)
    requires WellFormed(s.db) && Possible(s, Finish(k, Success(kind, port, id), read, at))
    ensures var r := s.tasks[k].item.command.rental;
            var row := Do(s, Finish(k, Success(kind, port, id), read, at)).db.rentals[r];
            && row.sshHost == Some(read.ip) && row.error == None
            && if s.tasks[k].item.command.StartRental?
               then row.status == Running && row.kind == kind && row.sshPort == Some(port) && row.containerId == Some(id)
               else
                 && row.status == Stopped && row.endedAt == Some(at) && row.sshPort == None
                 && row.kind == s.db.rentals[r].kind && row.containerId == s.db.rentals[r].containerId
  {
    var tx := ReportOf(s.tasks[k], Success(kind, port, id), read, at);
    assert Do(s, Finish(k, Success(kind, port, id), read, at)).db ==
      ReportTx(s.db, tx.rental, tx.ip, tx.report, tx.settle, at);
  }

  /**
   A failed start and a failed stop end their rental alike: it is `failed`, with the agent's message
   and the time, no port, and the kind and container it had; and if the report read it live and it
   still was, it is billed there and then for what it accrued, up to what its account holds.
   */
  lemma ReportedFailure(s: Sys, k: nat, message: string, read: Read, at: int)
    requires WellFormed(s.db) && Possible(s, Finish(k, Failure(message), read, at))
    ensures var r := s.tasks[k].item.command.rental;
            var before, row := s.db.rentals[r], Do(s, Finish(k, Failure(message), read, at)).db.rentals[r];
            && row.status == Failed && row.error == Some(message) && row.endedAt == Some(at) && row.sshPort == None
            && row.sshHost == Some(read.ip) && row.kind == before.kind && row.containerId == before.containerId
    ensures Ended(Do(s, Finish(k, Failure(message), read, at)).db, s.tasks[k].item.command.rental)
    ensures var r := s.tasks[k].item.command.rental;
            var before, after := s.db, Do(s, Finish(k, Failure(message), read, at)).db;
            var row := before.rentals[r];
            read.settle && !Ended(before, r) ==>
              && BillOf(before, Commits(s, Finish(k, Failure(message), read, at))[0], r) == [Bill(at, after.rentals[r].satsCharged)]
              && after.rentals[r].satsCharged ==
                   Min(AccruedCharge(row.createdAt, at, row.rate), before.balances[row.account])
  {
    var tx := ReportOf(s.tasks[k], Failure(message), read, at);
    assert Do(s, Finish(k, Failure(message), read, at)).db ==
      ReportTx(s.db, tx.rental, tx.ip, tx.report, tx.settle, at);
  }

  /** Whatever its outcome, a report settles nothing unless it ends the rental, and a start that runs does not. */
  lemma RunningDoesNotSettle(s: Sys, k: nat, kind: RentalKind, port: int, id: string, read: Read, at: int)
    requires WellFormed(s.db) && Possible(s, Finish(k, Success(kind, port, id), read, at))
    requires s.tasks[k].item.command.StartRental?
    ensures !read.settle
    ensures Do(s, Finish(k, Success(kind, port, id), read, at)).db.balances == s.db.balances
    ensures Do(s, Finish(k, Success(kind, port, id), read, at)).db.ledger == s.db.ledger
  {
  }

  /** Every command of an answer received becomes a task of its own; of an answer lost, none does. */
  lemma EveryCommandRuns(s: Sys, m: nat, online: bool, at: int, received: bool)
    requires WellFormed(s.db) && m < |s.db.machines|
    ensures var answer, after := Response(s.db.commands, m), Do(s, Beat(m, online, at, received)).tasks;
            && |after| == |s.tasks| + (if received then |answer| else 0)
            && after[..|s.tasks|] == s.tasks
            && forall i :: 0 <= i < |after| - |s.tasks| ==> after[|s.tasks| + i] == Task(m, answer[i])
  {
  }

  /** A task that finishes or is lost leaves, and every other stays. */
  lemma OneTaskLeaves(s: Sys, step: Step)
    requires WellFormed(s.db) && Possible(s, step) && (step.Finish? || step.Lose?)
    ensures multiset(s.tasks) == multiset(Do(s, step).tasks) + multiset{s.tasks[step.task]}
  {
    assert s.tasks == s.tasks[..step.task] + [s.tasks[step.task]] + s.tasks[step.task + 1..];
  }
}
