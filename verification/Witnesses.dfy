/** Laws one might expect of every run, and runs or steps that break them. */
module Witnesses {
  import opened Model
  import opened Tables
  import opened Database
  import opened Books
  import opened Billing
  import opened Commands
  import opened Occupancy
  import opened Agent
  import Ticker

  const STOPPED: ReportRequest := ReportRequest(Stopped, None, None, None, None)
  const RUNNING: ReportRequest := ReportRequest(Running, None, None, None, None)

  // ---- one run, from the empty tables --------------------------------------

  const HOST: Machine := Machine("h", "ip", 1, 0, true, 0)
  const ROW: Rental := Rental(0, 0, "metal:gemm", "", Provisioning, Ssh, None, None, None, None, 1, 0, 0, 0, None)
  const GO: Command := StartRental(0, "metal:gemm", "")

  const REGISTERED: Db := Db([HOST], [], [], [], [], [])
  const JOINED: Db := REGISTERED.(balances := [0])
  const BILLED: Db := JOINED.(invoices := [Invoice(0, 1000, false)])
  const FUNDED: Db := Db([HOST], [1000], [], [Invoice(0, 1000, true)],
                         [Entry(0, Deposit, 1000, Some(0), None, None)], [])
  const RENTED: Db := FUNDED.(rentals := [ROW], commands := [CommandRow(0, GO, false)])

  /** The first rental was stopped after a minute and paid for. */
  const ENDED: Db :=
    RENTED.(machines := [HOST.(payoutBalance := 1)],
            balances := [999],
            rentals := [ROW.(status := Stopped, sshHost := Some("ip"), endedAt := Some(60), satsCharged := 1,
                             minutesBilled := 1)],
            ledger := FUNDED.ledger + ChargePair(60, 0, 0, 0, 1))

  /** A second one has taken its machine. */
  const RELET: Db :=
    ENDED.(rentals := ENDED.rentals + [ROW.(createdAt := 60)],
           commands := ENDED.commands + [CommandRow(0, StartRental(1, "metal:gemm", ""), false)])

  const REGISTER: Tx := RegisterMachine("h", "ip", 1, 0)
  const INVOICE: Tx := IssueInvoice(0, 1000)
  const CREDIT: Tx := SettleInvoice(0, 0)
  const RENT: Tx := CreateRental(0, 0, "metal:gemm", None, 0)
  const STOP: Tx := Report(0, "ip", STOPPED, true, 60)
  const RENT_AGAIN: Tx := CreateRental(0, 0, "metal:gemm", None, 60)

  ghost predicate Moves(db: Db, tx: Tx, later: Db) {
    WellFormed(db) && Legal(db, tx) && Fresh(db, tx) && Apply(db, tx) == later
  }

  /** One more atomic transaction at the end of a run. */
  lemma Then(txs: seq<Tx>, middle: Db, tx: Tx, later: Db)
    requires AtomicRun(EMPTY, txs) && After(EMPTY, txs) == middle && Moves(middle, tx, later)
    ensures AtomicRun(EMPTY, txs + [tx]) && After(EMPTY, txs + [tx]) == later
  {
    AtomicAppend(EMPTY, txs, tx);
  }

  lemma Arrives()
    ensures Moves(EMPTY, REGISTER, REGISTERED)
    ensures Moves(REGISTERED, OpenAccount, JOINED)
  {
  }

  lemma Pays()
    ensures Moves(JOINED, INVOICE, BILLED)
    ensures Moves(BILLED, CREDIT, FUNDED)
  {
  }

  lemma Rents()
    ensures Moves(FUNDED, RENT, RENTED)
  {
  }

  lemma Stops()
    ensures Moves(RENTED, STOP, ENDED)
  {
    assert AccruedCharge(0, 60, 1) == 1;
  }

  lemma RentsAgain()
    ensures Moves(ENDED, RENT_AGAIN, RELET)
  {
    OccupiedWhenLive(ENDED, 0);
  }

  lemma Funding() returns (txs: seq<Tx>)
    ensures AtomicRun(EMPTY, txs) && After(EMPTY, txs) == FUNDED
  {
    Arrives();
    Pays();
    txs := [];
    Then(txs, EMPTY, REGISTER, REGISTERED);
    txs := txs + [REGISTER];
    Then(txs, REGISTERED, OpenAccount, JOINED);
    txs := txs + [OpenAccount];
    Then(txs, JOINED, INVOICE, BILLED);
    txs := txs + [INVOICE];
    Then(txs, BILLED, CREDIT, FUNDED);
    txs := txs + [CREDIT];
  }

  lemma Ending() returns (txs: seq<Tx>)
    ensures AtomicRun(EMPTY, txs) && After(EMPTY, txs) == ENDED
  {
    txs := Funding();
    Rents();
    Then(txs, FUNDED, RENT, RENTED);
    txs := txs + [RENT];
    Stops();
    Then(txs, RENTED, STOP, ENDED);
    txs := txs + [STOP];
  }

  lemma Reletting() returns (txs: seq<Tx>)
    ensures AtomicRun(EMPTY, txs) && After(EMPTY, txs) == RELET
  {
    txs := Ending();
    RentsAgain();
    Then(txs, ENDED, RENT_AGAIN, RELET);
    txs := txs + [RENT_AGAIN];
  }

  // ---- `SUM(delta_sats)` is not always zero --------------------------------

  /** One settled deposit makes the ledger's total positive. */
  lemma LedgerIsNotAlwaysZero() returns (txs: seq<Tx>)
    ensures AtomicRun(EMPTY, txs) && Sum(After(EMPTY, txs).ledger, Everything()) == 1000
  {
    txs := Funding();
    assert FUNDED.ledger[..0] == [];
  }

  // ---- two payouts that read the same balance ------------------------------

  /**
   Two payout requests that both read a positive balance before either committed: the first leaves
   the host's books in order and the second does not.
   */
  lemma TwoPayouts(db: Db, m: nat, at: int)
    requires WellFormed(db) && HostBooks(db) && DoubleEntry(db)
    requires m < |db.machines| && db.machines[m].payoutBalance > 0
    ensures var tx := PayOut(m, db.machines[m].payoutBalance, at);
            && WellFormed(Apply(db, tx)) && HostBooks(Apply(db, tx))
            && Legal(Apply(db, tx), tx) && !HostBooks(Apply(Apply(db, tx), tx))
  {
    var tx := PayOut(m, db.machines[m].payoutBalance, at);
    var paid := PayOutTx(db, m, tx.seen, at);
    StaysWellFormed(db, tx);
    HostBooksStep(db, tx);
    DoubleEntryStep(db, tx);
    assert paid == Apply(db, tx) && paid.machines[m].payoutBalance == 0;
    HostBooksStep(paid, tx);
  }

  /** Such a state is reached, and so is the broken one. */
  lemma TwoPayoutsReached() returns (txs: seq<Tx>)
    ensures AtomicRun(EMPTY, txs) && After(EMPTY, txs) == ENDED
    ensures Run(EMPTY, txs + [PayOut(0, 1, 90), PayOut(0, 1, 90)])
    ensures !HostBooks(After(EMPTY, txs + [PayOut(0, 1, 90), PayOut(0, 1, 90)]))
  {
    txs := Ending();
    AtomicConservation(txs);
    TwoPayouts(ENDED, 0, 90);
    TwoMore(txs, ENDED, PayOut(0, 1, 90), PayOut(0, 1, 90));
  }

  lemma TwoMore(txs: seq<Tx>, db: Db, tx: Tx, last: Tx)
    requires Run(EMPTY, txs) && After(EMPTY, txs) == db
    requires Legal(db, tx) && WellFormed(Apply(db, tx)) && Legal(Apply(db, tx), last)
    ensures Run(EMPTY, txs + [tx, last]) && After(EMPTY, txs + [tx, last]) == Apply(Apply(db, tx), last)
  {
    TwoSteps(db, Apply(db, tx), tx, last);
    RunAppend(EMPTY, txs, [tx, last]);
  }

  // ---- charged more than once ----------------------------------------------

  lemma TwoSteps(db: Db, middle: Db, tx: Tx, last: Tx)
    requires WellFormed(db) && Legal(db, tx) && Apply(db, tx) == middle
    requires WellFormed(middle) && Legal(middle, last)
    ensures Run(db, [tx, last]) && After(db, [tx, last]) == Apply(middle, last)
    ensures forall r :: Bills(db, [tx, last], r) == BillOf(db, tx, r) + BillOf(middle, last, r)
  {
    var txs := [tx, last];
    StaysWellFormed(middle, last);
    assert txs[1..] == [last] && [last][1..] == [];
    assert After(middle, [last]) == Apply(middle, last);
    forall r ensures Bills(db, txs, r) == BillOf(db, tx, r) + BillOf(middle, last, r) {
      assert Bills(middle, [last], r) == BillOf(middle, last, r) + [];
    }
  }

  lemma Revived(db: Db, tx: Tx, r: nat) returns (middle: Db)
    requires WellFormed(db) && Legal(db, tx) && Revives(db, tx, r)
    ensures Apply(db, tx) == middle && WellFormed(middle)
    ensures middle.balances == db.balances && r < |middle.rentals| && !Ended(middle, r)
    ensures SameContract(db.rentals[r], middle.rentals[r]) && BillOf(db, tx, r) == []
  {
    middle := Apply(db, tx);
    StaysWellFormed(db, tx);
  }

  /**
   However an ended rental is brought back, by a live report or by a delete or an eviction that comes
   too late, its next end bills it again for everything since it was created.
   */
  lemma RevivedIsBilledAgain(db: Db, tx: Tx, r: nat, ip: string, at: int)
    requires WellFormed(db) && Legal(db, tx) && Revives(db, tx, r)
    ensures var txs := [tx, Report(r, ip, STOPPED, true, at)];
            && Run(db, txs) && WellFormed(Apply(db, tx)) && Fresh(Apply(db, tx), txs[1])
            && Bills(db, txs, r) ==
                 [Bill(at, Min(AccruedCharge(db.rentals[r].createdAt, at, db.rentals[r].rate),
                               db.balances[db.rentals[r].account]))]
  {
    var middle := Revived(db, tx, r);
    TwoSteps(db, middle, tx, Report(r, ip, STOPPED, true, at));
  }

  /** Two terminal reports that both read a live rental both settle it. */
  lemma OverlappingReportsBillTwice(db: Db, r: nat, ip: string, first: int, second: int)
    requires WellFormed(db) && r < |db.rentals| && !Ended(db, r)
    ensures var stop, again := Report(r, ip, STOPPED, true, first), Report(r, ip, STOPPED, true, second);
            && Fresh(db, stop) && Fresh(db, again)
            && Run(db, [stop, again]) && |Bills(db, [stop, again], r)| == 2
  {
    var stop, again := Report(r, ip, STOPPED, true, first), Report(r, ip, STOPPED, true, second);
    StaysWellFormed(db, stop);
    ApplyExtends(db, stop);
    TwoSteps(db, Apply(db, stop), stop, again);
  }

  /** From the empty tables: a minute's rental, reported stopped twice at once, costs two minutes. */
  lemma OverlapReached() returns (txs: seq<Tx>)
    ensures AtomicRun(EMPTY, txs) && After(EMPTY, txs) == ENDED
    ensures Fresh(RENTED, STOP) && BilledAgain(ENDED, STOP, 0)
    ensures Run(EMPTY, txs + [STOP]) && After(EMPTY, txs + [STOP]).balances == [998]
  {
    txs := Ending();
    Overlaps();
    StaysWellFormed(ENDED, STOP);
    assert [STOP][1..] == [];
    RunAppend(EMPTY, txs, [STOP]);
  }

  lemma Overlaps()
    ensures WellFormed(ENDED) && Fresh(RENTED, STOP) && Legal(ENDED, STOP) && BilledAgain(ENDED, STOP, 0)
    ensures Apply(ENDED, STOP).balances == [998]
  {
    assert AccruedCharge(0, 60, 1) == 1;
  }

  // ---- two rentals on one machine ------------------------------------------

  /**
   A run of atomic handlers after which one machine has an ended rental and a live one: any report,
   delete or eviction that brings the first back, and each of the three does, gives it two.
   */
  lemma SharedMachine(tx: Tx) returns (txs: seq<Tx>)
    requires tx == Report(0, "ip", RUNNING, false, 90) || tx == RequestStop(0) || tx == EvictRental(0, 90)
    ensures AtomicRun(EMPTY, txs) && Exclusive(After(EMPTY, txs))
    ensures Legal(After(EMPTY, txs), tx) && !Exclusive(Apply(After(EMPTY, txs), tx))
  {
    txs := Reletting();
    OneLive();
    assert Revives(RELET, tx, 0) && TakesHeld(RELET, tx);
    ExclusiveStep(RELET, tx);
  }

  lemma OneLive()
    ensures WellFormed(RELET) && Exclusive(RELET) && Ended(RELET, 0) && HeldByAnother(RELET, 0)
  {
    assert Live(RELET, 1) && RELET.rentals[1].machine == RELET.rentals[0].machine;
  }

  // ---- a stop that overtakes its start -------------------------------------

  const STARTING: Sys := Sys(FUNDED.(rentals := [ROW], commands := [CommandRow(0, GO, true)]), [Task(0, Item(0, GO))])
  const STOPPING: Sys :=
    Sys(FUNDED.(rentals := [ROW.(status := Evicting)],
                commands := [CommandRow(0, GO, true), CommandRow(0, StopRental(0), false)]),
        [Task(0, Item(0, GO))])
  const RACING: Sys :=
    Sys(FUNDED.(rentals := [ROW.(status := Evicting)],
                commands := [CommandRow(0, GO, true), CommandRow(0, StopRental(0), true)]),
        [Task(0, Item(0, GO)), Task(0, Item(1, StopRental(0)))])

  ghost predicate Leads(s: Sys, step: Step, later: Sys) {
    WellFormed(s.db) && Possible(s, step) && Guarded(s, step) && Do(s, step) == later && WellFormed(later.db)
  }

  lemma {:induction false} OneMore(s: Sys, steps: seq<Step>, middle: Sys, step: Step, later: Sys)
    requires WellFormed(s.db) && GuardedRun(s, steps) && End(s, steps) == middle && Leads(middle, step, later)
    ensures GuardedRun(s, steps + [step]) && End(s, steps + [step]) == later
    decreases |steps|
  {
    var all := steps + [step];
    if |steps| == 0 {
      assert all[0] == step && all[1..] == [];
    } else {
      OneMore(Do(s, steps[0]), steps[1..], middle, step, later);
      assert all[0] == steps[0] && all[1..] == steps[1..] + [step];
    }
  }

  const BEAT: Step := Beat(0, true, 0, true)

  /** A transaction of the run above, as a step of a system without tasks. */
  lemma NoTasks(db: Db, tx: Tx, later: Db)
    requires Moves(db, tx, later) && !tx.Report? && !tx.Heartbeat? && !tx.RequestStop? && !tx.EvictRental?
    ensures Leads(Sys(db, []), Other(tx), Sys(later, []))
  {
    StaysWellFormed(db, tx);
  }

  lemma Fund() returns (steps: seq<Step>)
    ensures GuardedRun(START, steps) && End(START, steps) == Sys(RENTED, [])
  {
    Arrives();
    Pays();
    Rents();
    steps := [];
    steps := OneTx(steps, EMPTY, REGISTER, REGISTERED);
    steps := OneTx(steps, REGISTERED, OpenAccount, JOINED);
    steps := OneTx(steps, JOINED, INVOICE, BILLED);
    steps := OneTx(steps, BILLED, CREDIT, FUNDED);
    steps := OneTx(steps, FUNDED, RENT, RENTED);
  }

  lemma OneTx(steps: seq<Step>, db: Db, tx: Tx, later: Db) returns (more: seq<Step>)
    requires GuardedRun(START, steps) && End(START, steps) == Sys(db, [])
    requires Moves(db, tx, later) && !tx.Report? && !tx.Heartbeat? && !tx.RequestStop? && !tx.EvictRental?
    ensures GuardedRun(START, more) && End(START, more) == Sys(later, [])
  {
    NoTasks(db, tx, later);
    OneMore(START, steps, Sys(db, []), Other(tx), Sys(later, []));
    more := steps + [Other(tx)];
  }

  lemma Deliver()
    ensures Leads(Sys(RENTED, []), BEAT, STARTING)
  {
    var s := Sys(RENTED, []);
    assert Items(RENTED.commands[..0], 0, Waiting) == [];
    assert Response(RENTED.commands, 0) == [Item(0, GO)];
    assert MarkDelivered(RENTED.commands, 0) == STARTING.db.commands;
    assert Do(s, BEAT).db.machines == STARTING.db.machines;
    assert Do(s, BEAT).tasks == STARTING.tasks;
  }

  lemma AskToStop()
    ensures Leads(STARTING, Other(RequestStop(0)), STOPPING)
  {
  }

  lemma DeliverStop()
    ensures Leads(STOPPING, BEAT, RACING)
  {
    var rows := STOPPING.db.commands;
    assert Items(rows[..1], 0, Waiting) == Items(rows[..1][..0], 0, Waiting) == [];
    assert Response(rows, 0) == [Item(1, StopRental(0))];
    assert MarkDelivered(rows, 0) == RACING.db.commands;
    assert Do(STOPPING, BEAT).db.machines == RACING.db.machines;
    assert Do(STOPPING, BEAT).tasks == RACING.tasks;
  }

  lemma Race() returns (steps: seq<Step>)
    ensures GuardedRun(START, steps) && End(START, steps) == RACING
  {
    steps := Fund();
    Deliver();
    OneMore(START, steps, Sys(RENTED, []), BEAT, STARTING);
    steps := steps + [BEAT];
    AskToStop();
    OneMore(START, steps, STARTING, Other(RequestStop(0)), STOPPING);
    steps := steps + [Other(RequestStop(0))];
    DeliverStop();
    OneMore(START, steps, STOPPING, BEAT, RACING);
    steps := steps + [BEAT];
  }

  const OVERTAKE: Step := Finish(1, Success(Ssh, 0, ""), Read("ip", true), 0)

  lemma Unguarded()
    ensures WellFormed(RACING.db) && Possible(RACING, OVERTAKE) && !Guarded(RACING, OVERTAKE)
  {
    var start := RACING.tasks[0].item.command;
    assert start.StartRental? && start.rental == 0;
    assert RACING.tasks[1].item.command == StopRental(0);
  }

  lemma Overtaken(s: Sys, stop: Step) returns (revive: Step, r: nat)
    requires Inv(s) && Possible(s, stop) && !Guarded(s, stop) && stop.Finish?
    ensures WellFormed(Do(s, stop).db) && Possible(Do(s, stop), revive) && WellFormed(Do(Do(s, stop), revive).db)
    ensures Ended(Do(s, stop).db, r) && !Ended(Do(Do(s, stop), revive).db, r)
  {
    r := s.tasks[stop.task].item.command.rental;
    var j;
    j, revive := GuardIsNeeded(s, stop, 0);
  }

  /**
   Without the guard terminal is not final, even from the empty system with honest agents: a rental
   deleted while its start is still running ends, and then the start reports it running.
   */
  lemma StopOvertakesStart() returns (steps: seq<Step>, s: Sys, stop: Step, revive: Step, r: nat)
    ensures GuardedRun(START, steps) && End(START, steps) == s
    ensures Possible(s, stop) && WellFormed(Do(s, stop).db)
    ensures Possible(Do(s, stop), revive) && WellFormed(Do(Do(s, stop), revive).db)
    ensures Ended(Do(s, stop).db, r) && !Ended(Do(Do(s, stop), revive).db, r)
  {
    steps := Race();
    s := End(START, steps);
    Unguarded();
    stop := OVERTAKE;
    GuardedTrace(START, steps);
    revive, r := Overtaken(s, stop);
  }

  // ---- a poll that credits -------------------------------------------------

  /** The interleaved poll is not idle: it credits an invoice issued while handlers run. */
  lemma PollCredits() returns (steps: seq<Ticker.Step>)
    ensures Ticker.TickerRun(Ticker.State(BILLED, []), steps)
    ensures Ticker.Credits(Ticker.Trace(Ticker.State(BILLED, []), steps), 0) == 1
  {
    var idle, polling := Ticker.State(BILLED, []), Ticker.State(BILLED, [0]);
    var start, ask := Ticker.StartPoll([0]), Ticker.Ask(Ticker.Paid, 0);
    steps := [start, ask];
    assert Ticker.ListsUnsettled(BILLED, [0]);
    assert Ticker.Possible(idle, start) && Ticker.Do(idle, start) == polling;
    Ticker.InvStep(idle, start);
    Ticker.InvStep(polling, ask);
    assert steps[1..] == [ask] && [ask][1..] == [];
    var last := Ticker.Do(polling, ask);
    assert Ticker.TickerRun(last, []) && Ticker.Trace(last, []) == [];
    assert Ticker.TickerRun(polling, [ask]);
    assert Ticker.Trace(polling, [ask]) == [SettleInvoice(0, 0)] + [];
    assert Ticker.Trace(idle, steps) == [] + [SettleInvoice(0, 0)];
    assert [SettleInvoice(0, 0)][1..] == [];
  }
}
