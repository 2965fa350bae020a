/**
 The control plane's tables, and every transaction that writes them.

 Rows are never deleted, so a table is a sequence and a row's key is its position. A value of
 `Tx` is one committed transaction: whatever the handler read before it took the write lock is
 an argument of the constructor (`settle`, `seen`), and may be out of date when it commits.
 */
module Database {
  import opened Model

  datatype Machine = Machine(
    hostId: string,
    publicIp: string,
    rate: int,
    payoutBalance: int,
    online: bool,
    lastHeartbeat: int)

  datatype Rental = Rental(
    machine: nat,
    account: nat,
    image: string,
    sshKey: string,
    status: RentalStatus,
    kind: RentalKind,
    sshHost: Option<string>,
    sshPort: Option<int>,
    containerId: Option<string>,
    error: Option<string>,
    rate: int,
    satsCharged: int,
    minutesBilled: int,
    createdAt: int,
    endedAt: Option<int>)

  datatype Invoice = Invoice(account: nat, sats: int, settled: bool)

  datatype Entry = Entry(
    ts: int,
    kind: LedgerKind,
    delta: int,
    account: Option<nat>,
    machine: Option<nat>,
    rental: Option<nat>)

  datatype CommandRow = CommandRow(machine: nat, command: Command, delivered: bool)

  datatype Db = Db(
    machines: seq<Machine>,
    balances: seq<int>,
    rentals: seq<Rental>,
    invoices: seq<Invoice>,
    ledger: seq<Entry>,
    commands: seq<CommandRow>)

  const EMPTY: Db := Db([], [], [], [], [], [])

  /** The foreign keys and the uniqueness of `host_id`. */
  predicate WellFormed(db: Db) {
    && (forall r :: 0 <= r < |db.rentals| ==>
          db.rentals[r].machine < |db.machines| && db.rentals[r].account < |db.balances|)
    && (forall i :: 0 <= i < |db.invoices| ==> db.invoices[i].account < |db.balances|)
    && (forall c :: 0 <= c < |db.commands| ==> db.commands[c].machine < |db.machines|)
    && (forall i, j :: 0 <= i < j < |db.machines| ==> db.machines[i].hostId != db.machines[j].hostId)
  }

  datatype Tx =
    | RegisterMachine(hostId: string, ip: string, rate: int, at: int)
    | OpenAccount
    | IssueInvoice(account: nat, sats: int)
    | CreateRental(machine: nat, account: nat, image: string, key: Option<string>, at: int)
    | Heartbeat(machine: nat, online: bool, at: int)
    | Report(rental: nat, ip: string, report: ReportRequest, settle: bool, at: int)
    | RequestStop(rental: nat)
    | EvictRental(rental: nat, at: int)
    | SettleInvoice(invoice: nat, at: int)
    | PayOut(machine: nat, seen: int, at: int)
    | SetRate(machine: nat, rate: int)
    | MarkOffline(threshold: int)

  /** What every handler has checked before its transaction and nothing can undo since. */
  predicate Legal(db: Db, tx: Tx) {
    match tx
    case IssueInvoice(a, sats) => a < |db.balances| && sats >= 1
    case Heartbeat(m, _, _) => m < |db.machines|
    case Report(r, _, report, settle, _) => r < |db.rentals| && (settle ==> report.status.IsTerminal())
    case RequestStop(r) => r < |db.rentals|
    case EvictRental(r, _) => r < |db.rentals|
    case SettleInvoice(i, _) => i < |db.invoices|
    case PayOut(m, seen, _) => m < |db.machines| && seen > 0
    case SetRate(m, rate) => m < |db.machines| && rate >= 1
    case _ => true
  }

  /** Rust's `/` on `i64`: truncation toward zero. */
  function TruncDiv(x: int, d: int): int
    requires d > 0
  {
    if x >= 0 then x / d else -((-x) / d)
  }

  function AccruedCharge(start: int, end: int, rate: int): int {
    TruncDiv(Max(end - start, 0) * rate, 60)
  }

  // ---- ledger rows ---------------------------------------------------------

  function ChargePair(ts: int, account: nat, machine: nat, rental: nat, sats: int): seq<Entry> {
    [Entry(ts, RentalCharge, -sats, Some(account), None, Some(rental)),
     Entry(ts, HostCredit, sats, None, Some(machine), Some(rental))]
  }

  // ---- registration, accounts, invoices ------------------------------------

  function FindHost(machines: seq<Machine>, hostId: string): (m: Option<nat>)
    ensures m.Some? ==> m.value < |machines| && machines[m.value].hostId == hostId
    ensures m.None? ==> forall i :: 0 <= i < |machines| ==> machines[i].hostId != hostId
  {
    if |machines| == 0 then None
    else if machines[|machines| - 1].hostId == hostId then Some(|machines| - 1)
    else FindHost(machines[..|machines| - 1], hostId)
  }

  function RegisterTx(db: Db, hostId: string, ip: string, rate: int, at: int): Db {
    match FindHost(db.machines, hostId)
    case Some(m) =>
      db.(machines := db.machines[m := db.machines[m].(publicIp := ip, rate := rate, online := true,
                                                       lastHeartbeat := at)])
    case None =>
      db.(machines := db.machines + [Machine(hostId, ip, rate, 0, true, at)])
  }

  function SettleInvoiceTx(db: Db, i: nat, at: int): Db
    requires WellFormed(db) && i < |db.invoices|
  {
    var inv := db.invoices[i];
    db.(invoices := db.invoices[i := inv.(settled := true)],
        balances := db.balances[inv.account := db.balances[inv.account] + inv.sats],
        ledger := db.ledger + [Entry(at, Deposit, inv.sats, Some(inv.account), None, None)])
  }

  // ---- rentals -------------------------------------------------------------

  predicate IsSpace(c: char) {
    c == ' ' || '\t' <= c <= '\r'
  }

  function Trim(s: string): string
    decreases |s|
  {
    if |s| == 0 then s
    else if IsSpace(s[0]) then Trim(s[1..])
    else if IsSpace(s[|s| - 1]) then Trim(s[..|s| - 1])
    else s
  }

  /** The stored key, or `None` when the image needs one and the request brings none. */
  function AcceptedKey(image: string, key: Option<string>): Option<string> {
    if key.Some? && Trim(key.value) != "" then Some(Trim(key.value))
    else if IsHttpStatusImage(image) then Some("")
    else None
  }

  /** The statuses that hold a machine, selected from `ALL` as the SQL list is. */
  function OccupyingInList(): seq<RentalStatus> {
    OccupyingAmong(ALL)
  }

  function OccupyingAmong(statuses: seq<RentalStatus>): seq<RentalStatus> {
    if |statuses| == 0 then []
    else (if statuses[0].OccupiesMachine() then [statuses[0]] else []) + OccupyingAmong(statuses[1..])
  }

  predicate Occupied(db: Db, m: nat) {
    exists r :: 0 <= r < |db.rentals| && db.rentals[r].machine == m && db.rentals[r].status in OccupyingInList()
  }

  /** The first check of `create_rental` that fails, in the order the handler makes them. */
  function RentalRefusal(db: Db, m: nat, a: nat, image: string, key: Option<string>): Option<ApiError> {
    if m >= |db.machines| then Some(NotFound)
    else if a >= |db.balances| then Some(NotFound)
    else if AcceptedKey(image, key).None? then Some(BadRequest)
    else if !db.machines[m].online then Some(Conflict)
    else if Occupied(db, m) then Some(Conflict)
    else if db.balances[a] < db.machines[m].rate then Some(PaymentRequired)
    else None
  }

  function NewRental(db: Db, m: nat, a: nat, image: string, sshKey: string, at: int): Rental
    requires m < |db.machines|
  {
    Rental(m, a, image, sshKey, Provisioning, Ssh, None, None, None, None,
           db.machines[m].rate, 0, 0, at, None)
  }

  function CreateRentalTx(db: Db, m: nat, a: nat, image: string, key: Option<string>, at: int): Db {
    if RentalRefusal(db, m, a, image, key).Some? then db
    else
      var sshKey := AcceptedKey(image, key).value;
      db.(rentals := db.rentals + [NewRental(db, m, a, image, sshKey, at)],
          commands := db.commands + [CommandRow(m, StartRental(|db.rentals|, image, sshKey), false)])
  }

  function SetStatus(db: Db, r: nat, row: Rental): Db
    requires r < |db.rentals|
  {
    db.(rentals := db.rentals[r := row])
  }

  function QueueStop(db: Db, r: nat): Db
    requires r < |db.rentals|
  {
    db.(commands := db.commands + [CommandRow(db.rentals[r].machine, StopRental(r), false)])
  }

  function EvictTx(db: Db, r: nat, at: int): Db
    requires r < |db.rentals|
  {
    var row := db.rentals[r];
    var evicting := SetStatus(db, r, row.(status := Evicting, error := Some("insufficient balance")));
    QueueStop(evicting, r).(
      ledger := db.ledger + [Entry(at, Evict, 0, Some(row.account), None, Some(r))])
  }

  function ReportedRow(row: Rental, ip: string, report: ReportRequest, at: int): Rental {
    row.(status := report.status,
         kind := report.kind.GetOr(row.kind),
         sshHost := Some(ip),
         sshPort := report.sshPort,
         containerId := if report.containerId.Some? then report.containerId else row.containerId,
         error := report.error,
         endedAt := if report.status.IsTerminal() then Some(at) else row.endedAt)
  }

  /** What settling rental `r` at `at` takes: what it accrued, capped at the account's balance. */
  function ChargeAt(db: Db, r: nat, at: int): int
    requires WellFormed(db) && r < |db.rentals|
  {
    var row := db.rentals[r];
    Min(AccruedCharge(row.createdAt, at, row.rate), db.balances[row.account])
  }

  function SettleRental(db: Db, r: nat, at: int): Db
    requires WellFormed(db) && r < |db.rentals|
  {
    var row := db.rentals[r];
    var charge := ChargeAt(db, r, at);
    var billed := SetStatus(db, r, row.(satsCharged := charge,
                                        minutesBilled := Max(at - row.createdAt, 0) / 60));
    if charge <= 0 then billed
    else
      var machine := db.machines[row.machine];
      billed.(balances := db.balances[row.account := db.balances[row.account] - charge],
              machines := db.machines[row.machine := machine.(payoutBalance := machine.payoutBalance + charge)],
              ledger := db.ledger + ChargePair(at, row.account, row.machine, r, charge))
  }

  function ReportTx(db: Db, r: nat, ip: string, report: ReportRequest, settle: bool, at: int): Db
    requires WellFormed(db) && r < |db.rentals|
  {
    var written := SetStatus(db, r, ReportedRow(db.rentals[r], ip, report, at));
    if settle then SettleRental(written, r, at) else written
  }

  // ---- agent liveness and money out ----------------------------------------

  function MarkDelivered(commands: seq<CommandRow>, m: nat): (marked: seq<CommandRow>)
  {
    seq(|commands|, i requires 0 <= i < |commands| =>
      if commands[i].machine == m then commands[i].(delivered := true) else commands[i])
  }

  function HeartbeatTx(db: Db, m: nat, online: bool, at: int): Db
    requires m < |db.machines|
  {
    db.(machines := db.machines[m := db.machines[m].(online := online, lastHeartbeat := at)],
        commands := MarkDelivered(db.commands, m))
  }

  function PayOutTx(db: Db, m: nat, seen: int, at: int): Db
    requires m < |db.machines|
  {
    db.(machines := db.machines[m := db.machines[m].(payoutBalance := 0)],
        ledger := db.ledger + [Entry(at, Payout, -seen, None, Some(m), None)])
  }

  function MarkOfflineTx(db: Db, threshold: int): Db {
    db.(machines := seq(|db.machines|, i requires 0 <= i < |db.machines| =>
          var m := db.machines[i];
          if m.online && m.lastHeartbeat < threshold then m.(online := false) else m))
  }

  // ---- one transaction, and runs of them -----------------------------------

  function Apply(db: Db, tx: Tx): Db
    requires WellFormed(db) && Legal(db, tx)
  {
    match tx
    case RegisterMachine(hostId, ip, rate, at) => RegisterTx(db, hostId, ip, rate, at)
    case OpenAccount => db.(balances := db.balances + [0])
    case IssueInvoice(a, sats) => db.(invoices := db.invoices + [Invoice(a, sats, false)])
    case CreateRental(m, a, image, key, at) => CreateRentalTx(db, m, a, image, key, at)
    case Heartbeat(m, online, at) => HeartbeatTx(db, m, online, at)
    case Report(r, ip, report, settle, at) => ReportTx(db, r, ip, report, settle, at)
    case RequestStop(r) => QueueStop(SetStatus(db, r, db.rentals[r].(status := Evicting)), r)
    case EvictRental(r, at) => EvictTx(db, r, at)
    case SettleInvoice(i, at) => SettleInvoiceTx(db, i, at)
    case PayOut(m, seen, at) => PayOutTx(db, m, seen, at)
    case SetRate(m, rate) => db.(machines := db.machines[m := db.machines[m].(rate := rate)])
    case MarkOffline(threshold) => MarkOfflineTx(db, threshold)
  }

  /** The columns of a rental that no transaction writes after its insertion. */
  predicate SameContract(r: Rental, s: Rental) {
    r.machine == s.machine && r.account == s.account && r.rate == s.rate && r.createdAt == s.createdAt
  }

  /** Every transaction keeps the keys, only appends to the tables, and never rewrites the ledger. */
  ghost predicate Extends(db: Db, later: Db) {
    && |db.machines| <= |later.machines|
    && |db.balances| <= |later.balances|
    && |db.rentals| <= |later.rentals|
    && |db.invoices| <= |later.invoices|
    && |db.commands| <= |later.commands|
    && db.ledger <= later.ledger
    && (forall r :: 0 <= r < |db.rentals| ==> SameContract(db.rentals[r], later.rentals[r]))
    && (forall c :: 0 <= c < |db.commands| ==>
          && later.commands[c].machine == db.commands[c].machine
          && later.commands[c].command == db.commands[c].command
          && (db.commands[c].delivered ==> later.commands[c].delivered))
    && (forall i :: 0 <= i < |db.invoices| ==>
          && later.invoices[i].account == db.invoices[i].account
          && later.invoices[i].sats == db.invoices[i].sats
          && (db.invoices[i].settled ==> later.invoices[i].settled))
  }

  lemma SettleExtends(db: Db, r: nat, at: int)
    requires WellFormed(db) && r < |db.rentals|
    ensures WellFormed(SettleRental(db, r, at))
    ensures Extends(db, SettleRental(db, r, at))
  {
  }

  lemma ReportExtends(db: Db, r: nat, ip: string, report: ReportRequest, settle: bool, at: int)
    requires WellFormed(db) && r < |db.rentals|
    ensures WellFormed(ReportTx(db, r, ip, report, settle, at))
    ensures Extends(db, ReportTx(db, r, ip, report, settle, at))
  {
    var written := SetStatus(db, r, ReportedRow(db.rentals[r], ip, report, at));
    assert WellFormed(written) && Extends(db, written);
    if settle {
      SettleExtends(written, r, at);
    }
  }

  lemma CreateRentalExtends(db: Db, m: nat, a: nat, image: string, key: Option<string>, at: int)
    requires WellFormed(db)
    ensures WellFormed(CreateRentalTx(db, m, a, image, key, at))
    ensures Extends(db, CreateRentalTx(db, m, a, image, key, at))
  {
  }

  lemma StopExtends(db: Db, r: nat, row: Rental)
    requires WellFormed(db) && r < |db.rentals| && SameContract(db.rentals[r], row)
    ensures WellFormed(QueueStop(SetStatus(db, r, row), r))
    ensures Extends(db, QueueStop(SetStatus(db, r, row), r))
  {
  }

  lemma HeartbeatExtends(db: Db, m: nat, online: bool, at: int)
    requires WellFormed(db) && m < |db.machines|
    ensures WellFormed(HeartbeatTx(db, m, online, at))
    ensures Extends(db, HeartbeatTx(db, m, online, at))
  {
  }

  lemma SettleInvoiceExtends(db: Db, i: nat, at: int)
    requires WellFormed(db) && i < |db.invoices|
    ensures WellFormed(SettleInvoiceTx(db, i, at))
    ensures Extends(db, SettleInvoiceTx(db, i, at))
  {
  }

  /** Rewriting machine rows without touching a `host_id`, and perhaps posting to the ledger. */
  lemma MachinesExtend(db: Db, machines: seq<Machine>, posted: seq<Entry>)
    requires WellFormed(db) && |machines| == |db.machines|
    requires forall m :: 0 <= m < |machines| ==> machines[m].hostId == db.machines[m].hostId
    ensures var later := db.(machines := machines, ledger := db.ledger + posted);
            WellFormed(later) && Extends(db, later)
  {
  }

  lemma RegisterExtends(db: Db, hostId: string, ip: string, rate: int, at: int)
    requires WellFormed(db)
    ensures WellFormed(RegisterTx(db, hostId, ip, rate, at))
    ensures Extends(db, RegisterTx(db, hostId, ip, rate, at))
  {
  }

  lemma ApplyExtends(db: Db, tx: Tx)
    requires WellFormed(db) && Legal(db, tx)
    ensures WellFormed(Apply(db, tx))
    ensures Extends(db, Apply(db, tx))
  {
    match tx
    case CreateRental(m, a, image, key, at) => CreateRentalExtends(db, m, a, image, key, at);
    case Report(r, ip, report, settle, at) => ReportExtends(db, r, ip, report, settle, at);
    case RequestStop(r) => StopExtends(db, r, db.rentals[r].(status := Evicting));
    case EvictRental(r, at) => StopExtends(db, r, db.rentals[r].(status := Evicting, error := Some("insufficient balance")));
    case Heartbeat(m, online, at) => HeartbeatExtends(db, m, online, at);
    case SettleInvoice(i, at) => SettleInvoiceExtends(db, i, at);
    case RegisterMachine(hostId, ip, rate, at) => RegisterExtends(db, hostId, ip, rate, at);
    case PayOut(m, seen, at) =>
      MachinesExtend(db, Apply(db, tx).machines, [Entry(at, Payout, -seen, None, Some(m), None)]);
    case SetRate(m, rate) =>
      MachinesExtend(db, Apply(db, tx).machines, []);
      assert db.ledger + [] == db.ledger;
    case MarkOffline(threshold) =>
      MachinesExtend(db, Apply(db, tx).machines, []);
      assert db.ledger + [] == db.ledger;
    case _ =>
  }

  lemma StaysWellFormed(db: Db, tx: Tx)
    requires WellFormed(db) && Legal(db, tx)
    ensures WellFormed(Apply(db, tx))
  {
    ApplyExtends(db, tx);
  }

  ghost predicate Run(db: Db, txs: seq<Tx>)
    requires WellFormed(db)
    decreases |txs|
  {
    |txs| == 0 ||
    (&& Legal(db, txs[0])
     && (StaysWellFormed(db, txs[0]); Run(Apply(db, txs[0]), txs[1..])))
  }

  ghost function After(db: Db, txs: seq<Tx>): (later: Db)
    requires WellFormed(db) && Run(db, txs)
    ensures WellFormed(later)
    decreases |txs|
  {
    if |txs| == 0 then db
    else
      StaysWellFormed(db, txs[0]);
      After(Apply(db, txs[0]), txs[1..])
  }

  lemma {:induction false} RunExtends(db: Db, txs: seq<Tx>)
    requires WellFormed(db) && Run(db, txs)
    ensures Extends(db, After(db, txs))
    decreases |txs|
  {
    if |txs| > 0 {
      ApplyExtends(db, txs[0]);
      RunExtends(Apply(db, txs[0]), txs[1..]);
    }
  }

  lemma RentalKept(db: Db, txs: seq<Tx>, r: nat)
    requires WellFormed(db) && Run(db, txs) && r < |db.rentals|
    ensures r < |After(db, txs).rentals| && SameContract(db.rentals[r], After(db, txs).rentals[r])
  {
    RunExtends(db, txs);
  }

  lemma {:induction false} RunAppend(db: Db, txs: seq<Tx>, more: seq<Tx>)
    requires WellFormed(db) && Run(db, txs) && Run(After(db, txs), more)
    ensures Run(db, txs + more)
    ensures After(db, txs + more) == After(After(db, txs), more)
    decreases |txs|
  {
    if |txs| == 0 {
      assert txs + more == more;
    } else {
      var rest := txs[1..];
      StaysWellFormed(db, txs[0]);
      RunAppend(Apply(db, txs[0]), rest, more);
      var all := txs + more;
      assert all[0] == txs[0] && all[1..] == rest + more;
    }
  }

  /** `p` holds of every transaction of a run, in the state it commits on. */
  ghost predicate Along(db: Db, txs: seq<Tx>, p: (Db, Tx) -> bool)
    requires WellFormed(db) && Run(db, txs)
    decreases |txs|
  {
    |txs| == 0 ||
    (&& p(db, txs[0])
     && (StaysWellFormed(db, txs[0]); Along(Apply(db, txs[0]), txs[1..], p)))
  }

  /** How many transactions of a run satisfy `p` in the state they commit on. */
  ghost function Times(db: Db, txs: seq<Tx>, p: (Db, Tx) -> bool): nat
    requires WellFormed(db) && Run(db, txs)
    decreases |txs|
  {
    if |txs| == 0 then 0
    else
      StaysWellFormed(db, txs[0]);
      (if p(db, txs[0]) then 1 else 0) + Times(Apply(db, txs[0]), txs[1..], p)
  }

  lemma {:induction false} Never(db: Db, txs: seq<Tx>, p: (Db, Tx) -> bool, q: (Db, Tx) -> bool)
    requires WellFormed(db) && Run(db, txs) && Along(db, txs, p)
    requires forall d, tx :: p(d, tx) ==> !q(d, tx)
    ensures Times(db, txs, q) == 0
    decreases |txs|
  {
    if |txs| > 0 {
      StaysWellFormed(db, txs[0]);
      Never(Apply(db, txs[0]), txs[1..], p, q);
    }
  }

  /** Cutting a run anywhere gives two runs. */
  lemma {:induction false} RunSplit(db: Db, txs: seq<Tx>, k: nat)
    requires WellFormed(db) && Run(db, txs) && k <= |txs|
    ensures Run(db, txs[..k]) && Run(After(db, txs[..k]), txs[k..])
    ensures After(After(db, txs[..k]), txs[k..]) == After(db, txs)
    decreases |txs|
  {
    if k == 0 {
      assert txs[..k] == [] && txs[k..] == txs;
    } else {
      var rest := txs[1..];
      StaysWellFormed(db, txs[0]);
      RunSplit(Apply(db, txs[0]), rest, k - 1);
      assert txs[..k][0] == txs[0] && txs[..k][1..] == rest[..k - 1] && txs[k..] == rest[k - 1..];
    }
  }

  /** Whatever holds along a run still does when weakened. */
  lemma {:induction false} AlongWeaken(db: Db, txs: seq<Tx>, p: (Db, Tx) -> bool, q: (Db, Tx) -> bool)
    requires WellFormed(db) && Run(db, txs) && Along(db, txs, p)
    requires forall d, tx :: p(d, tx) ==> q(d, tx)
    ensures Along(db, txs, q)
    decreases |txs|
  {
    if |txs| > 0 {
      StaysWellFormed(db, txs[0]);
      AlongWeaken(Apply(db, txs[0]), txs[1..], p, q);
    }
  }

  /**
   What the handler's own reads established, still true when its transaction commits. A run along
   which every transaction is fresh is a run of handlers that each execute atomically.
   */
  predicate Fresh(db: Db, tx: Tx) {
    match tx
    case Report(r, _, report, settle, _) =>
      r < |db.rentals| ==> settle == (report.status.IsTerminal() && !db.rentals[r].status.IsTerminal())
    case RequestStop(r) =>
      r < |db.rentals| ==> !db.rentals[r].status.IsTerminal() && db.rentals[r].status != Evicting
    case EvictRental(r, _) => r < |db.rentals| ==> db.rentals[r].status == Running
    case SettleInvoice(i, _) => i < |db.invoices| ==> !db.invoices[i].settled
    case PayOut(m, seen, _) => m < |db.machines| ==> seen == db.machines[m].payoutBalance
    case _ => true
  }

  function IsFresh(): (Db, Tx) -> bool {
    (db: Db, tx: Tx) => Fresh(db, tx)
  }

  ghost predicate AtomicRun(db: Db, txs: seq<Tx>)
    requires WellFormed(db)
  {
    Run(db, txs) && Along(db, txs, IsFresh())
  }

  lemma {:induction false} AtomicAppend(db: Db, txs: seq<Tx>, tx: Tx)
    requires WellFormed(db) && AtomicRun(db, txs) && Legal(After(db, txs), tx) && Fresh(After(db, txs), tx)
    ensures AtomicRun(db, txs + [tx]) && After(db, txs + [tx]) == Apply(After(db, txs), tx)
    decreases |txs|
  {
    var all := txs + [tx];
    if |txs| == 0 {
      StaysWellFormed(db, tx);
      assert all[0] == tx && all[1..] == [];
    } else {
      StaysWellFormed(db, txs[0]);
      AtomicAppend(Apply(db, txs[0]), txs[1..], tx);
      assert all[0] == txs[0] && all[1..] == txs[1..] + [tx];
    }
  }
}
