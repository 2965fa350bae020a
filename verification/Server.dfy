/**
 The control plane as it runs: the tables are fields, each handler and each ticker phase is a
 method that updates them in place, and each is proved to be the transaction of the same name.

 A method is one request handled from start to finish with nothing in between. The agent routes
 take the machine their bearer token resolved to.
 */
module Server {
  import opened Model
  import opened Tables
  import opened Database
  import opened Books
  import opened Billing
  import opened Commands
  import opened Ticker
  import History

  /** What holds of the tables between handlers. */
  ghost predicate Consistent(db: Db) {
    WellFormed(db) && AllBooks(db) && Sensible(db) && InOrder(db.commands)
  }

  /** Among other things, every total the books give and every queue in order and sensible. */
  lemma ConsistentMeans(db: Db, m: nat)
    requires Consistent(db)
    ensures forall a :: 0 <= a < |db.balances| ==> db.balances[a] == Sum(db.ledger, OfAccount(a)) >= 0
    ensures m < |db.machines| ==> db.machines[m].payoutBalance == Sum(db.ledger, OfMachine(m)) >= 0
    ensures Total(db.balances) + Total(Payouts(db)) == Sum(db.ledger, Everything())
    ensures Items(db.commands, m, Queued) == Items(db.commands, m, Sent) + Items(db.commands, m, Waiting)
    ensures SensibleStream(db, m, Items(db.commands, m, Sent))
  {
    LedgerTotal(db);
    QueueSplits(db.commands, m);
    SentIsSensible(db, m);
  }

  lemma ConsistentStep(db: Db, tx: Tx)
    requires Consistent(db) && Legal(db, tx) && Fresh(db, tx)
    ensures Consistent(Apply(db, tx))
  {
    StaysWellFormed(db, tx);
    AccountBooksStep(db, tx);
    HostBooksStep(db, tx);
    DoubleEntryStep(db, tx);
    DepositBooksStep(db, tx);
    SensibleStep(db, tx);
    ViewStep(db, tx, 0);
  }

  lemma {:induction false} ConsistentAlong(db: Db, txs: seq<Tx>)
    requires Consistent(db) && AtomicRun(db, txs)
    ensures Consistent(After(db, txs))
    decreases |txs|
  {
    if |txs| > 0 {
      ConsistentStep(db, txs[0]);
      ConsistentAlong(Apply(db, txs[0]), txs[1..]);
    }
  }

  /** What a poll commits: a credit for each invoice answered `Paid` before the first error, as it is reached. */
  function PaidTxs(rows: seq<nat>, answers: seq<Answer>, clock: nat -> int): seq<Tx>
    requires |rows| == |answers|
  {
    if |rows| == 0 then []
    else
      var last := |rows| - 1;
      PaidTxs(rows[..last], answers[..last], clock)
      + if Error !in answers[..last] && answers[last] == Paid then [SettleInvoice(rows[last], clock(last))] else []
  }

  lemma {:induction false} NothingAfterError(rows: seq<nat>, answers: seq<Answer>, clock: nat -> int, k: nat)
    requires |rows| == |answers| && k < |rows| && answers[k] == Error
    ensures PaidTxs(rows, answers, clock) == PaidTxs(rows[..k], answers[..k], clock)
  {
    var last := |rows| - 1;
    if k < last {
      NothingAfterError(rows[..last], answers[..last], clock, k);
      assert answers[..last][k] == Error;
      assert rows[..last][..k] == rows[..k] && answers[..last][..k] == answers[..k];
    }
  }

  lemma PaidTxsNext(rows: seq<nat>, answers: seq<Answer>, clock: nat -> int, k: nat)
    requires |rows| == |answers| && k < |rows| && Error !in answers[..k]
    ensures PaidTxs(rows[..k + 1], answers[..k + 1], clock) ==
              PaidTxs(rows[..k], answers[..k], clock)
              + if answers[k] == Paid then [SettleInvoice(rows[k], clock(k))] else []
  {
    assert rows[..k + 1][..k] == rows[..k] && answers[..k + 1][..k] == answers[..k];
  }

  /** Of the invoices listed, exactly those answered `Paid` before any error are settled now; no other changed. */
  ghost predicate Polled(before: seq<Invoice>, later: seq<Invoice>, rows: seq<nat>, answers: seq<Answer>)
    requires |rows| == |answers| && forall i :: 0 <= i < |rows| ==> rows[i] < |before|
  {
    && |later| == |before|
    && (forall i :: 0 <= i < |rows| ==> (later[rows[i]].settled <==> answers[i] == Paid && Error !in answers[..i]))
    && (forall i: nat :: i < |before| && i !in rows ==> later[i] == before[i])
  }

  ghost predicate PolledTo(before: seq<Invoice>, later: seq<Invoice>, rows: seq<nat>, answers: seq<Answer>, k: nat)
    requires |rows| == |answers| && forall i :: 0 <= i < |rows| ==> rows[i] < |before|
  {
    && |later| == |before|
    && (forall i :: 0 <= i < |rows| ==> (later[rows[i]].settled <==> i < k && answers[i] == Paid))
    && (forall i: nat :: i < |before| && i !in rows ==> later[i] == before[i])
  }

  lemma PollNext(before: seq<Invoice>, now: seq<Invoice>, rows: seq<nat>, answers: seq<Answer>, k: nat)
    requires Distinct(rows) && |rows| == |answers| && k < |rows|
    requires forall i :: 0 <= i < |rows| ==> rows[i] < |before|
    requires PolledTo(before, now, rows, answers, k)
    ensures rows[k] < |now| && !now[rows[k]].settled
    ensures answers[k] != Paid ==> PolledTo(before, now, rows, answers, k + 1)
    ensures answers[k] == Paid ==>
              PolledTo(before, now[rows[k] := now[rows[k]].(settled := true)], rows, answers, k + 1)
  {
  }

  lemma PollEnds(before: seq<Invoice>, later: seq<Invoice>, rows: seq<nat>, answers: seq<Answer>, k: nat)
    requires |rows| == |answers| && k <= |rows| && forall i :: 0 <= i < |rows| ==> rows[i] < |before|
    requires Error !in answers[..k] && (k < |rows| ==> answers[k] == Error)
    requires PolledTo(before, later, rows, answers, k)
    ensures Polled(before, later, rows, answers)
  {
    forall i | 0 <= i < |rows| ensures i < k && answers[i] == Paid <==> answers[i] == Paid && Error !in answers[..i] {
      if i < k {
        assert forall j :: 0 <= j < i ==> answers[..i][j] == answers[..k][j];
      } else if i > k {
        assert answers[..i][k] == Error;
      }
    }
  }

  /** After a poll without an error, the settled invoices are those that were and those answered `Paid`. */
  lemma PolledAll(db: Db, later: seq<Invoice>, rows: seq<nat>, answer: nat -> Answer)
    requires ListsUnsettled(db, rows) && Polled(db.invoices, later, rows, Answers(rows, answer))
    ensures Error !in Answers(rows, answer) ==>
              forall i :: 0 <= i < |later| ==> (later[i].settled <==> db.invoices[i].settled || answer(i) == Paid)
  {
    if Error !in Answers(rows, answer) {
      forall i: nat | i < |later| ensures later[i].settled <==> db.invoices[i].settled || answer(i) == Paid {
        if i in rows {
          var k :| 0 <= k < |rows| && rows[k] == i;
          assert Answers(rows, answer)[k] == answer(i);
          assert forall j :: 0 <= j < k ==> Answers(rows, answer)[..k][j] in Answers(rows, answer);
        }
      }
    }
  }

  function Answers(rows: seq<nat>, answer: nat -> Answer): seq<Answer> {
    seq(|rows|, i requires 0 <= i < |rows| => answer(rows[i]))
  }

  /** `later` is `db` with the rentals that were over budget when checked evicted, each once, and no others. */
  ghost predicate EvictsOverdue(db: Db, rows: seq<nat>, clock: nat -> int, timeout: int, later: Db) {
    && WellFormed(db) && ListsRunning(db, rows)
    && var due := Overdue(db, Checks(rows, clock), timeout);
       && Known(db, due) && Distinct(Rentals(due))
       && (forall i :: 0 <= i < |rows| ==> (rows[i] in Rentals(due) <==> OverBudget(db, rows[i], clock(i), timeout)))
       && EvictedExactly(db, due, later)
       && Judged(db, rows, clock, timeout, later)
  }

  /** `later` is `before` after the transactions `txs`. */
  ghost predicate Reached(before: Db, txs: seq<Tx>, later: Db) {
    WellFormed(before) && Run(before, txs) && After(before, txs) == later
  }

  lemma ReachedOne(before: Db, txs: seq<Tx>, middle: Db, tx: Tx)
    requires Reached(before, txs, middle) && Legal(middle, tx)
    ensures Reached(before, txs + [tx], Apply(middle, tx))
  {
    StaysWellFormed(middle, tx);
    assert [tx][1..] == [];
    RunAppend(before, txs, [tx]);
  }

  lemma ReachedJudged(db: Db, rows: seq<nat>, clock: nat -> int, timeout: int, later: Db)
    requires WellFormed(db) && ListsRunning(db, rows)
    requires Reached(db, Evictions(Overdue(db, Checks(rows, clock), timeout)), later)
    ensures Judged(db, rows, clock, timeout, later)
  {
    BudgetsEnforced(db, rows, clock, timeout);
  }

  /** Every running rental was checked, and none is over budget as of its check. */
  ghost predicate BudgetsHeld(db: Db, rows: seq<nat>, clock: nat -> int, timeout: int) {
    && WellFormed(db)
    && (forall i :: 0 <= i < |rows| ==> rows[i] < |db.rentals| && !OverBudget(db, rows[i], clock(i), timeout))
    && (forall r: nat :: r < |db.rentals| && db.rentals[r].status == Running ==> r in rows)
  }

  /** Every host marked online has been heard from within the timeout. */
  ghost predicate OnlineHeard(machines: seq<Machine>, at: int, timeout: int) {
    forall m :: 0 <= m < |machines| && machines[m].online ==> at - machines[m].lastHeartbeat <= timeout
  }

  /**
   What a tick is for: a rental it leaves running on a host heard from, settled at `s` after any
   interleaving of handlers that does not bill it, leaves unpaid at most what accrued since its
   check, one sat, and what other settlements took from its account in between.
   */
  lemma TickBoundsOverrun(db: Db, rows: seq<nat>, clock: nat -> int, timeout: int, i: nat, txs: seq<Tx>, s: int)
    requires Consistent(db) && BudgetsHeld(db, rows, clock, timeout) && Run(db, txs)
    requires i < |rows| && db.rentals[rows[i]].status == Running
    requires clock(i) - db.machines[db.rentals[rows[i]].machine].lastHeartbeat <= timeout && clock(i) <= s
    requires Bills(db, txs, rows[i]) == []
    ensures var row, later := db.rentals[rows[i]], After(db, txs);
            && rows[i] < |later.rentals| && db.ledger <= later.ledger
            && AccruedCharge(row.createdAt, s, row.rate) - ChargeAt(later, rows[i], s) <=
                 Max(AccruedCharge(clock(i), s, row.rate), 0) + 1
                 - Sum(later.ledger[|db.ledger|..], TakenByOthers(row.account, rows[i]))
  {
    RentalKept(db, txs, rows[i]);
    BoundedOverrun(db, txs, rows[i], clock(i), s, timeout);
  }

  class ControlPlane {
    const heartbeatTimeout: int

    var machines: seq<Machine>
    var balances: seq<int>
    var rentals: seq<Rental>
    var invoices: seq<Invoice>
    var ledger: seq<Entry>
    var commands: seq<CommandRow>

    function State(): Db
      reads this
    {
      Db(machines, balances, rentals, invoices, ledger, commands)
    }

    ghost predicate Valid()
      reads this
    {
      Consistent(State())
    }

    constructor (heartbeatTimeout: int)
      ensures Valid() && State() == EMPTY && this.heartbeatTimeout == heartbeatTimeout
    {
      this.heartbeatTimeout := heartbeatTimeout;
      machines, balances, rentals, invoices, ledger, commands := [], [], [], [], [], [];
    }

    // ---- the only ledger writers ---------------------------------------------

    method Record(ts: int, kind: LedgerKind, delta: int, account: Option<nat>, machine: Option<nat>, rental: Option<nat>)
      modifies this`ledger
      ensures ledger == old(ledger) + [Entry(ts, kind, delta, account, machine, rental)]
    {
      ledger := ledger + [Entry(ts, kind, delta, account, machine, rental)];
    }

    method RecordCharge(ts: int, account: nat, machine: nat, rental: nat, sats: int)
      modifies this`ledger
      ensures ledger == old(ledger) + ChargePair(ts, account, machine, rental, sats)
    {
      Record(ts, RentalCharge, -sats, Some(account), None, Some(rental));
      Record(ts, HostCredit, sats, None, Some(machine), Some(rental));
    }

    // ---- agent routes --------------------------------------------------------

    method Register(hostId: string, ip: string, rate: int, now: int) returns (id: nat)
      requires Valid()
      modifies this
      ensures Valid() && State() == Apply(old(State()), RegisterMachine(hostId, ip, rate, now))
      ensures id < |machines| && machines[id].hostId == hostId && machines[id].online
      ensures machines[id].publicIp == ip && machines[id].rate == rate && machines[id].lastHeartbeat == now
      ensures id < |old(machines)| ==>
                && |machines| == |old(machines)|
                && old(machines)[id].hostId == hostId
                && machines[id].payoutBalance == old(machines)[id].payoutBalance
      ensures id >= |old(machines)| ==> forall m :: 0 <= m < |old(machines)| ==> old(machines)[m].hostId != hostId
    {
      ConsistentStep(State(), RegisterMachine(hostId, ip, rate, now));
      match FindHost(machines, hostId)
      case Some(m) =>
        var row := machines[m];
        machines := machines[m := row.(publicIp := ip, rate := rate, online := true, lastHeartbeat := now)];
        id := m;
      case None =>
        machines := machines + [Machine(hostId, ip, rate, 0, true, now)];
        id := |machines| - 1;
    }

    /** Mark the machine's waiting rows delivered, one by one, and hand them out. */
    method Drain(m: nat) returns (rows: seq<Item>)
      modifies this`commands
      ensures rows == Response(old(commands), m)
      ensures commands == MarkDelivered(old(commands), m)
    {
      rows := Items(commands, m, Waiting);
      IdsIncrease(commands, m, Waiting);
      for k := 0 to |rows|
        invariant |commands| == |old(commands)|
        invariant forall i :: 0 <= i < k ==> commands[rows[i].id] == old(commands)[rows[i].id].(delivered := true)
        invariant forall c :: 0 <= c < |commands| ==>
                    commands[c] == old(commands)[c]
                    || (old(commands)[c].machine == m && commands[c] == old(commands)[c].(delivered := true))
      {
        var id := rows[k].id;
        commands := commands[id := commands[id].(delivered := true)];
      }
      AllMarked(old(commands), commands, m);
    }

    /** Refresh liveness and drain the machine's queue in one transaction. */
    method HandleHeartbeat(m: nat, online: bool, now: int) returns (answer: seq<Command>)
      requires Valid() && m < |machines|
      modifies this
      ensures Valid() && State() == Apply(old(State()), Heartbeat(m, online, now))
      ensures m < |machines| && machines[m].lastHeartbeat == now && machines[m].online == online
      ensures |answer| == |Response(old(commands), m)|
      ensures forall i :: 0 <= i < |answer| ==> answer[i] == Response(old(commands), m)[i].command
    {
      ConsistentStep(State(), Heartbeat(m, online, now));
      machines := machines[m := machines[m].(online := online, lastHeartbeat := now)];
      var rows := Drain(m);
      answer := Payloads(rows);
    }

    static method Payloads(rows: seq<Item>) returns (answer: seq<Command>)
      ensures |answer| == |rows| && forall i :: 0 <= i < |rows| ==> answer[i] == rows[i].command
    {
      answer := [];
      for k := 0 to |rows|
        invariant |answer| == k && forall i :: 0 <= i < k ==> answer[i] == rows[i].command
      {
        answer := answer + [rows[k].command];
      }
    }

    static lemma AllMarked(before: seq<CommandRow>, later: seq<CommandRow>, m: nat)
      requires |later| == |before|
      requires forall item :: item in Items(before, m, Waiting) && item.id < |before| ==>
                 later[item.id] == before[item.id].(delivered := true)
      requires forall c :: 0 <= c < |before| ==>
                 later[c] == before[c] || (before[c].machine == m && later[c] == before[c].(delivered := true))
      ensures later == MarkDelivered(before, m)
    {
      forall c | 0 <= c < |before| ensures later[c] == MarkDelivered(before, m)[c] {
        if before[c].machine == m && !before[c].delivered {
          Listed(before, m, Waiting, c);
        }
      }
    }

    /** The stop-time charge: what the rental accrued, capped at the account's balance. */
    method Settle(r: nat, now: int)
      requires WellFormed(State()) && r < |rentals|
      modifies this
      ensures State() == SettleRental(old(State()), r, now)
      ensures r < |rentals| && MinutesRight(rentals[r], now)
    {
      var rental := rentals[r];
      var accrued := AccruedCharge(rental.createdAt, now, rental.rate);
      var balance := balances[rental.account];
      var charge := Min(accrued, balance);
      if charge > 0 {
        balances := balances[rental.account := balance - charge];
        var machine := machines[rental.machine];
        machines := machines[rental.machine := machine.(payoutBalance := machine.payoutBalance + charge)];
        RecordCharge(now, rental.account, rental.machine, r, charge);
      }
      var minutes := Max(now - rental.createdAt, 0) / 60;
      rentals := rentals[r := rental.(satsCharged := charge, minutesBilled := minutes)];
      ChargeCoversMinutes(old(State()), r, now);
    }

    /** A task's outcome: overwrite the status, and settle when a live rental first ends. */
    method HandleReport(m: nat, r: nat, report: ReportRequest, now: int) returns (result: Result<()>)
      requires Valid() && m < |machines|
      modifies this
      ensures Valid()
      ensures result.Err? <==> !(r < |old(rentals)| && old(rentals)[r].machine == m)
      ensures result.Err? ==> result.error == NotFound && State() == old(State())
      ensures result.Ok? ==>
                var settle := report.status.IsTerminal() && !old(rentals)[r].status.IsTerminal();
                State() == Apply(old(State()), Report(r, old(machines)[m].publicIp, report, settle, now))
    {
      if r >= |rentals| || rentals[r].machine != m {
        return Err(NotFound);
      }
      var rental := rentals[r];
      var terminal := report.status.IsTerminal();
      var settle := terminal && !rental.status.IsTerminal();
      ConsistentStep(State(), Report(r, machines[m].publicIp, report, settle, now));

      rentals := rentals[r := ReportedRow(rental, machines[m].publicIp, report, now)];
      if settle {
        Settle(r, now);
      }
      result := Ok(());
    }

    method HandleRate(m: nat, rate: int) returns (result: Result<()>)
      requires Valid() && m < |machines|
      modifies this
      ensures Valid()
      ensures result == if rate < 1 then Err(BadRequest) else Ok(())
      ensures result.Ok? ==> machines == old(machines)[m := old(machines)[m].(rate := rate)]
      ensures State() == if rate < 1 then old(State()) else Apply(old(State()), SetRate(m, rate))
    {
      if rate < 1 {
        return Err(BadRequest);
      }
      ConsistentStep(State(), SetRate(m, rate));
      machines := machines[m := machines[m].(rate := rate)];
      result := Ok(());
    }

    /** `paid` is whether the Lightning node paid the host's invoice. */
    method HandlePayout(m: nat, paid: bool, now: int) returns (result: Result<int>)
      requires Valid() && m < |machines|
      modifies this
      ensures Valid()
      ensures result == if old(machines)[m].payoutBalance <= 0 then Err(BadRequest)
                        else if !paid then Err(BadGateway)
                        else Ok(old(machines)[m].payoutBalance)
      ensures State() == if result.Err? then old(State())
                         else Apply(old(State()), PayOut(m, old(machines)[m].payoutBalance, now))
    {
      var balance := machines[m].payoutBalance;
      if balance <= 0 {
        return Err(BadRequest);
      }
      if !paid {
        return Err(BadGateway);
      }
      ConsistentStep(State(), PayOut(m, balance, now));
      machines := machines[m := machines[m].(payoutBalance := 0)];
      Record(now, Payout, -balance, None, Some(m), None);
      result := Ok(balance);
    }

    // ---- tenant routes -------------------------------------------------------

    method CreateAccount() returns (id: nat)
      requires Valid()
      modifies this
      ensures Valid() && State() == Apply(old(State()), OpenAccount) && id == |old(balances)|
    {
      ConsistentStep(State(), OpenAccount);
      id := |balances|;
      balances := balances + [0];
    }

    /** `issued` is whether the Lightning node issued an invoice. */
    method HandleDeposit(account: nat, sats: int, issued: bool) returns (result: Result<nat>)
      requires Valid()
      modifies this
      ensures Valid()
      ensures result == if sats < 1 then Err(BadRequest)
                        else if account >= |old(balances)| then Err(NotFound)
                        else if !issued then Err(BadGateway)
                        else Ok(|old(invoices)|)
      ensures State() == if result.Err? then old(State()) else Apply(old(State()), IssueInvoice(account, sats))
      ensures result.Ok? ==> invoices == old(invoices) + [Invoice(account, sats, false)]
    {
      if sats < 1 {
        return Err(BadRequest);
      }
      if account >= |balances| {
        return Err(NotFound);
      }
      if !issued {
        return Err(BadGateway);
      }
      ConsistentStep(State(), IssueInvoice(account, sats));
      result := Ok(|invoices|);
      invoices := invoices + [Invoice(account, sats, false)];
    }

    method HandleCreateRental(m: nat, account: nat, image: string, key: Option<string>, now: int)
      returns (result: Result<nat>)
      requires Valid()
      modifies this
      ensures Valid() && State() == Apply(old(State()), CreateRental(m, account, image, key, now))
      ensures var refusal := RentalRefusal(old(State()), m, account, image, key);
              result == if refusal.Some? then Err(refusal.value) else Ok(|old(rentals)|)
      ensures result.Ok? ==>
                && result.value < |rentals| && rentals[result.value].image == image
                && History.KeyKept(key, image, rentals[result.value].sshKey)
    {
      ConsistentStep(State(), CreateRental(m, account, image, key, now));
      if m >= |machines| || account >= |balances| {
        return Err(NotFound);
      }
      var sshKey := AcceptedKey(image, key);
      if sshKey.None? {
        return Err(BadRequest);
      }
      History.KeyIsKept(key, image);
      if !machines[m].online || Occupied(State(), m) {
        return Err(Conflict);
      }
      var rate := machines[m].rate;
      if balances[account] < rate {
        return Err(PaymentRequired);
      }
      var id := |rentals|;
      rentals := rentals + [Rental(m, account, image, sshKey.value, Provisioning, Ssh, None, None, None, None,
                                   rate, 0, 0, now, None)];
      commands := commands + [CommandRow(m, StartRental(id, image, sshKey.value), false)];
      result := Ok(id);
    }

    method HandleDelete(r: nat) returns (result: Result<RentalStatus>)
      requires Valid()
      modifies this
      ensures Valid()
      ensures r >= |old(rentals)| ==> result == Err(NotFound) && State() == old(State())
      ensures r < |old(rentals)| ==>
                var status := old(rentals)[r].status;
                if status.IsTerminal() || status == Evicting
                then result == Ok(status) && State() == old(State())
                else result == Ok(Evicting) && State() == Apply(old(State()), RequestStop(r))
    {
      if r >= |rentals| {
        return Err(NotFound);
      }
      var rental := rentals[r];
      if rental.status.IsTerminal() || rental.status == Evicting {
        return Ok(rental.status);
      }
      ConsistentStep(State(), RequestStop(r));
      rentals := rentals[r := rental.(status := Evicting)];
      commands := commands + [CommandRow(rental.machine, StopRental(r), false)];
      result := Ok(Evicting);
    }

    // ---- the ticker ----------------------------------------------------------

    method CreditInvoice(i: nat, now: int)
      requires WellFormed(State()) && i < |invoices|
      modifies this
      ensures State() == SettleInvoiceTx(old(State()), i, now)
    {
      var invoice := invoices[i];
      invoices := invoices[i := invoice.(settled := true)];
      balances := balances[invoice.account := balances[invoice.account] + invoice.sats];
      Record(now, Deposit, invoice.sats, Some(invoice.account), None, None);
    }

    method EvictOne(r: nat, now: int)
      requires WellFormed(State()) && r < |rentals|
      modifies this
      ensures State() == EvictTx(old(State()), r, now)
    {
      var rental := rentals[r];
      rentals := rentals[r := rental.(status := Evicting, error := Some("insufficient balance"))];
      commands := commands + [CommandRow(rental.machine, StopRental(r), false)];
      Record(now, Evict, 0, Some(rental.account), None, Some(r));
    }

    method HandleMarkOffline(now: int)
      requires Valid()
      modifies this
      ensures Valid() && State() == Apply(old(State()), MarkOffline(now - heartbeatTimeout))
      ensures OnlineHeard(machines, now, heartbeatTimeout)
    {
      var threshold := now - heartbeatTimeout;
      ConsistentStep(State(), MarkOffline(threshold));
      TakeOffline(threshold);
    }

    /** `UPDATE machines SET online = 0 WHERE online = 1 AND last_heartbeat < threshold`. */
    method TakeOffline(threshold: int)
      modifies this`machines
      ensures machines == MarkOfflineTx(old(State()), threshold).machines
      ensures forall m :: 0 <= m < |machines| ==> machines[m].online ==> machines[m].lastHeartbeat >= threshold
    {
      for m := 0 to |machines|
        invariant |machines| == |old(machines)|
        invariant forall i :: 0 <= i < m ==> machines[i] == MarkOfflineTx(old(State()), threshold).machines[i]
        invariant forall i :: m <= i < |machines| ==> machines[i] == old(machines)[i]
      {
        if machines[m].online && machines[m].lastHeartbeat < threshold {
          machines := machines[m := machines[m].(online := false)];
        }
      }
    }

    /** `SELECT id FROM rentals WHERE status = 'running'`. */
    method RunningRows() returns (rows: seq<nat>)
      ensures ListsRunning(State(), rows)
    {
      rows := [];
      for r := 0 to |rentals|
        invariant Distinct(rows)
        invariant forall i :: 0 <= i < |rows| ==> rows[i] < r && rentals[rows[i]].status == Running
        invariant forall q: nat :: q < r && rentals[q].status == Running ==> q in rows
      {
        if rentals[r].status == Running {
          rows := rows + [r];
        }
      }
    }

    /** `SELECT payment_hash FROM invoices WHERE settled = 0`. */
    method UnsettledRows() returns (rows: seq<nat>)
      ensures ListsUnsettled(State(), rows)
    {
      rows := [];
      for i := 0 to |invoices|
        invariant Distinct(rows)
        invariant forall k :: 0 <= k < |rows| ==> rows[k] < i && !invoices[rows[k]].settled
        invariant forall q: nat :: q < i && !invoices[q].settled ==> q in rows
      {
        if !invoices[i].settled {
          rows := rows + [i];
        }
      }
    }

    /** Check every rental of `rows` at its own moment, and evict it in a transaction of its own if it is over budget. */
    method CheckAll(rows: seq<nat>, clock: nat -> int)
      requires Valid() && ListsRunning(State(), rows)
      modifies this
      ensures Valid() && machines == old(machines)
      ensures Reached(old(State()), Evictions(Overdue(old(State()), Checks(rows, clock), heartbeatTimeout)), State())
    {
      ghost var before, checks := State(), Checks(rows, clock);
      ghost var due: seq<Check> := [];
      for k := 0 to |rows|
        invariant Valid()
        invariant due == Overdue(before, checks[..k], heartbeatTimeout)
        invariant Reached(before, Evictions(due), State())
        invariant machines == before.machines && balances == before.balances && |rentals| == |before.rentals|
        invariant forall i :: k <= i < |rows| ==> rentals[rows[i]] == before.rentals[rows[i]]
      {
        OverdueNext(before, checks, k, heartbeatTimeout);
        due := EnforceOne(rows[k], clock(k), before, due);
      }
      assert checks[..|rows|] == checks;
    }

    /** The loop over the running rentals: afterwards each is judged as it should be. */
    method EnforceBudgets(rows: seq<nat>, clock: nat -> int)
      requires Valid() && ListsRunning(State(), rows)
      modifies this
      ensures Valid() && machines == old(machines)
      ensures Reached(old(State()), Evictions(Overdue(old(State()), Checks(rows, clock), heartbeatTimeout)), State())
      ensures Judged(old(State()), rows, clock, heartbeatTimeout, State())
    {
      CheckAll(rows, clock);
      ReachedJudged(old(State()), rows, clock, heartbeatTimeout, State());
    }

    /** Check one running rental, and evict it if it is over budget. */
    method EnforceOne(r: nat, now: int, ghost before: Db, ghost due: seq<Check>) returns (ghost more: seq<Check>)
      requires Valid() && r < |rentals| && rentals[r].status == Running
      requires Reached(before, Evictions(due), State())
      requires machines == before.machines && balances == before.balances
      requires r < |before.rentals| && before.rentals[r] == rentals[r]
      modifies this
      ensures Valid() && Reached(before, Evictions(more), State())
      ensures more == due + if OverBudget(before, r, now, heartbeatTimeout) then [Check(r, now)] else []
      ensures machines == old(machines) && balances == old(balances)
      ensures |rentals| == |old(rentals)| && forall i :: 0 <= i < |rentals| && i != r ==> rentals[i] == old(rentals)[i]
    {
      var rental := rentals[r];
      more := due;
      if now - machines[rental.machine].lastHeartbeat <= heartbeatTimeout {
        var accrued := AccruedCharge(rental.createdAt, now, rental.rate);
        if accrued > balances[rental.account] {
          EvictNext(r, now, before, due);
          more := due + [Check(r, now)];
        }
      }
    }

    static lemma OverdueNext(db: Db, checks: seq<Check>, k: nat, timeout: int)
      requires WellFormed(db) && k < |checks| && checks[k].rental < |db.rentals|
      ensures Overdue(db, checks[..k + 1], timeout) ==
                Overdue(db, checks[..k], timeout)
                + if OverBudget(db, checks[k].rental, checks[k].at, timeout) then [checks[k]] else []
    {
      assert checks[..k + 1][..k] == checks[..k];
    }

    method EvictNext(r: nat, now: int, ghost before: Db, ghost due: seq<Check>)
      requires Valid() && r < |rentals| && rentals[r].status == Running
      requires Reached(before, Evictions(due), State())
      modifies this
      ensures Valid() && Reached(before, Evictions(due + [Check(r, now)]), State())
      ensures machines == old(machines) && balances == old(balances)
      ensures rentals == old(rentals)[r := EvictedRow(old(rentals)[r])]
    {
      ReachedOne(before, Evictions(due), State(), EvictRental(r, now));
      assert Evictions(due + [Check(r, now)]) == Evictions(due) + [EvictRental(r, now)];
      ConsistentStep(State(), EvictRental(r, now));
      EvictOne(r, now);
    }

    /** Credit the invoices answered `Paid`, in turn; an error from the node ends the poll. */
    method PollInvoices(rows: seq<nat>, answers: seq<Answer>, clock: nat -> int) returns (ok: bool)
      requires Valid() && ListsUnsettled(State(), rows) && |answers| == |rows|
      modifies this
      ensures Valid()
      ensures ok <==> Error !in answers
      ensures Reached(old(State()), PaidTxs(rows, answers, clock), State())
      ensures Polled(old(invoices), invoices, rows, answers)
    {
      ghost var before := State();
      ghost var txs: seq<Tx> := [];
      for k := 0 to |rows|
        invariant Valid()
        invariant Error !in answers[..k]
        invariant txs == PaidTxs(rows[..k], answers[..k], clock)
        invariant Reached(before, txs, State())
        invariant PolledTo(before.invoices, invoices, rows, answers, k)
      {
        if answers[k] == Error {
          NothingAfterError(rows, answers, clock, k);
          PollEnds(before.invoices, invoices, rows, answers, k);
          return false;
        }
        PaidTxsNext(rows, answers, clock, k);
        PollNext(before.invoices, invoices, rows, answers, k);
        if answers[k] == Paid {
          CreditNext(rows[k], clock(k), before, txs);
          txs := txs + [SettleInvoice(rows[k], clock(k))];
        }
      }
      assert rows[..|rows|] == rows && answers[..|rows|] == answers;
      PollEnds(before.invoices, invoices, rows, answers, |rows|);
      ok := true;
    }

    method CreditNext(i: nat, now: int, ghost before: Db, ghost txs: seq<Tx>)
      requires Valid() && i < |invoices| && !invoices[i].settled
      requires Reached(before, txs, State())
      modifies this
      ensures Valid() && Reached(before, txs + [SettleInvoice(i, now)], State())
      ensures invoices == old(invoices)[i := old(invoices)[i].(settled := true)]
    {
      ReachedOne(before, txs, State(), SettleInvoice(i, now));
      ConsistentStep(State(), SettleInvoice(i, now));
      CreditInvoice(i, now);
    }

    /**
     One tick: credit what was paid, mark silent hosts offline, then evict exactly the rentals that
     are over budget when checked. A failed poll abandons the rest. The clock is read for every
     credit (`polled`), once for the hosts (`now`) and for every rental checked (`checked`); `middle`
     is the state before the budget check.
     */
    method Tick(answer: nat -> Answer, polled: nat -> int, now: int, checked: nat -> int)
      returns (ok: bool, ghost invoiceRows: seq<nat>, ghost middle: Db, ghost rentalRows: seq<nat>)
      requires Valid()
      modifies this
      ensures Valid() && ListsUnsettled(old(State()), invoiceRows)
      ensures ok <==> Error !in Answers(invoiceRows, answer)
      ensures Reached(old(State()),
                      PaidTxs(invoiceRows, Answers(invoiceRows, answer), polled)
                      + (if ok then [MarkOffline(now - heartbeatTimeout)] else []),
                      middle)
      ensures Polled(old(invoices), invoices, invoiceRows, Answers(invoiceRows, answer))
      ensures |invoices| == |old(invoices)|
      ensures ok ==> forall i :: 0 <= i < |invoices| ==>
                (invoices[i].settled <==> old(invoices)[i].settled || answer(i) == Paid)
      ensures if ok then EvictsOverdue(middle, rentalRows, checked, heartbeatTimeout, State()) else State() == middle
      ensures ok ==> BudgetsHeld(State(), rentalRows, checked, heartbeatTimeout)
      ensures ok ==> OnlineHeard(machines, now, heartbeatTimeout)
    {
      var unsettled := UnsettledRows();
      invoiceRows := unsettled;
      ok := PollInvoices(unsettled, Answers(unsettled, answer), polled);
      middle, rentalRows := State(), [];
      ghost var txs := PaidTxs(invoiceRows, Answers(invoiceRows, answer), polled);
      assert txs + [] == txs;
      PolledAll(old(State()), invoices, invoiceRows, answer);
      if ok {
        ReachedOne(old(State()), txs, State(), MarkOffline(now - heartbeatTimeout));
        HandleMarkOffline(now);
        middle := State();
        rentalRows := EnforceAll(checked);
      }
    }

    method EnforceAll(clock: nat -> int) returns (ghost rows: seq<nat>)
      requires Valid()
      modifies this
      ensures Valid() && machines == old(machines) && invoices == old(invoices)
      ensures EvictsOverdue(old(State()), rows, clock, heartbeatTimeout, State())
      ensures BudgetsHeld(State(), rows, clock, heartbeatTimeout)
    {
      var running := RunningRows();
      rows := running;
      BudgetsEnforced(State(), running, clock, heartbeatTimeout);
      EnforceBudgets(running, clock);
      NoneOverBudget(old(State()), rows, clock, heartbeatTimeout, State());
    }

    static lemma NoneOverBudget(db: Db, rows: seq<nat>, clock: nat -> int, timeout: int, later: Db)
      requires WellFormed(later) && EvictsOverdue(db, rows, clock, timeout, later)
      ensures BudgetsHeld(later, rows, clock, timeout)
    {
      var due := Overdue(db, Checks(rows, clock), timeout);
      forall i | 0 <= i < |rows|
        ensures rows[i] < |later.rentals| && !OverBudget(later, rows[i], clock(i), timeout)
      {
        assert later.rentals[rows[i]] ==
          if rows[i] in Rentals(due) then EvictedRow(db.rentals[rows[i]]) else db.rentals[rows[i]];
      }
      forall r: nat | r < |later.rentals| && later.rentals[r].status == Running ensures r in rows {
        assert later.rentals[r] == if r in Rentals(due) then EvictedRow(db.rentals[r]) else db.rentals[r];
      }
    }
  }
}
