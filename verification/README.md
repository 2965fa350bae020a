# Model of the GPU rental marketplace

A Dafny model of the control plane, its agents, the GPU kernels of `gpu-bench` and the small
algorithms of the host agent, with proofs of what they keep and compute. `dafny verify
dfyconfig.toml` checks all of it.

## How it is built

**Tables and transactions** (`Model`, `Tables`, `Database`). The database is a value: machines,
account balances, rentals, invoices, the ledger and the command table. Rows are never deleted, so a
table is a sequence and a row's key is its position. A `Tx` is one committed transaction. What a
handler read before it took the write lock is an argument of the constructor and may be out of date:
`Report` carries its decision to settle, `PayOut` the amount it read, and `RequestStop`,
`EvictRental` and `SettleInvoice` may name a row that has changed since. A `Run` is any list of
legal transactions, so it covers every interleaving of the handlers and the ticker at commit
granularity. Where a property needs a handler's reads to be still true when it commits, the run is an
`AtomicRun`, every transaction of which is `Fresh`. `create_rental` and `heartbeat` read inside their
transaction and need no such assumption.

**What is proved about runs** (`History`, `Books`, `Billing`, `Commands`, `Occupancy`, `Ticker`).
What each column of a machine or a rental says of the requests that wrote it.
Conservation, charges, the command queue, exclusive use of a machine and offers, and the invoice
poll interleaved with handlers. The laws about books, bills and exclusive use are exact over every
run: a law that a single step can break comes with the condition under which it does, as an
if-and-only-if over every legal transaction, fresh or stale. `Witnesses` has steps and runs, most from
the empty tables, that break them; a second credit has none, as `Ticker` shows it cannot happen.

**Agents** (`Agent`). The control plane composed with tasks that run `dispatch` on delivered commands,
finish in any order, and may lose their reports; handlers commit with whatever they had read. That
terminal is final needs two assumptions: a stop is processed after the start of the same rental is
over, and no delete or eviction commits on a rental that ended after it was read. Each is shown to be
needed.

**The handlers as they run** (`Server`). A class with the tables as fields. Each handler and each
ticker phase updates them in place as the original does, keeps the invariant `Consistent`, and is proved
to be the transaction of the same name, so everything above applies to it. A method is one request
from start to finish; a tick reads the clock as often as the original does.

**Kernels** (`Matmul`, `WgslGemm`, `MetalGemm`, `Triad`). The tiled WGSL matmul runs one instruction
of one lane at a time, with all workgroups interleaved and barriers passed by a workgroup together;
the triad runs one loop iteration of one thread at a time. Each takes its schedule from the caller
and is proved to finish with the right output whatever the schedule. Values are exact reals.

**Agent side** (`Fingerprint`, `Images`, `Ports`). The bytes behind `hw_fingerprint`, the image
parsers, and the port pool of the Metal runtime.

## Where the code and its documentation differ

The model follows the code.

- The design document and the comment at crates/control-plane/src/routes/tenant.rs:205-206
  describe charging the first minute up front and every minute in advance. The code charges once, at
  stop; `paid_through` stays 0.
- `crates/core/src/model.rs:105-106` and the schema promise `SUM(delta_sats) == 0` always. A deposit is a
  single positive row, so the sum is what the system holds; `Books.LedgerTotal` states it exactly.
- A silent host stops the eviction check only. The charge at stop covers the whole time since
  `created_at`.
- `report` writes any status over any other. A rental reported running after it ended is billed again
  at its next end, from `created_at`, and may share its machine with another rental. So may one that a
  delete or an eviction sets back to `evicting`, having read it before it ended. Two terminal reports
  that overlap both settle.
- `payout` zeroes a balance it did not read again. Two requests that read the same balance pay it twice.

## Main results

- Money: `Books.ExactConservation`, `Books.AccountBooksHold`, `Books.NeverNegativeAlong`, `Books.HostBooksStep`.
- Charges: `Billing.OneBillPerEnding`, `Billing.ChargedOnceAndExactly`, `Billing.BoundedOverrun` with `Server.TickBoundsOverrun`, `Billing.SplitCharge`.
- Budget check: `Billing.BudgetsEnforced`, `Billing.EnforcedAtOneInstant`, `Billing.BudgetsStayEnforced`, `Server.ControlPlane.Tick`.
- Commands: `Commands.FifoStep`, `Commands.FifoDelivery`, `Commands.StreamIsSensible`.
- What rows say: `History.LastWord`, `History.RentalHistory`, `History.HeldUntilReported`, `History.Answers`, `History.Accepted`, `Books.LedgerRecords`, `Books.DepositArrives`.
- Occupancy: `Occupancy.ExclusiveAlong`, `Occupancy.ListedIffRentable`.
- Agents: `Agent.TerminalIsFinal`, `Agent.GuardIsNeeded`, `Agent.StaleGuardIsNeeded`, `Agent.ComposedSafety`, `Agent.ReportedFailure`.
- Invoices: `Ticker.CreditedOnce`, `Ticker.CreditedIfPaid`.
- Kernels: `WgslGemm.Dispatch.Run`, `MetalGemm.Output.RunGrid`, `MetalGemm.KernelsAgree`, `Triad.Grid.Run`.
- Agent side: `Fingerprint.IdentifiedExactly`, `Fingerprint.IdentifiedAmongNulFreeExactly`, `Fingerprint.LeastFirst`, `Ports.NoteKeepsPool`, `Ports.Accounted`, `Images.SplitIsStable`, `Images.AcceptedTasks`.
- What fails, and where: the lemmas of `Witnesses`.

## Model

| member | source | states |
|---|---|---|
| `Database.FindHost` | crates/control-plane/src/routes/agent.rs:26-31 | the lookup finds a machine with that `host_id` if any has it, and says none only when none does |
| `Database.ApplyExtends` | crates/control-plane/migrations/0001_init.sql:5-86 | every transaction keeps the foreign keys and the uniqueness of `host_id`, only appends to the tables, never rewrites a ledger row, never undelivers a command or unsettles an invoice, and never changes a rental's machine, account, rate or creation time |
| `Database.RunExtends` | crates/control-plane/migrations/0001_init.sql:66-86 | the same over any run of any transactions, interleaved in any way |
| `Database.RentalKept` | crates/control-plane/migrations/0001_init.sql:38-55 | a rental's machine, account, snapshot rate and creation time survive every run |
| `Database.RunAppend` | crates/control-plane/src/routes/agent.rs:190-252 | runs compose: committing one run after another reaches the state of the concatenated run |
| `Database.AtomicAppend` | crates/control-plane/src/routes/agent.rs:173-252 | runs whose handlers each act on reads still true at commit can be extended one handler at a time |
| `History.LastWriteMeans` | crates/control-plane/src/routes/agent.rs:192-205 | what is called the last write of a run is one of its writes with none after it |
| `History.MachineStep` | crates/control-plane/src/routes/agent.rs:26-72 | registering again or setting a rate changes exactly the columns it names on the machine it names; a sweep takes offline exactly the silent |
| `History.MachineHistory` | crates/control-plane/src/routes/agent.rs:257-272 | over every run, a machine's rate is the last one registered or set, and its address the one last registered from |
| `History.LastWord` | crates/control-plane/src/routes/agent.rs:124-131 | over every run, `last_heartbeat` is the time of the host's last heartbeat or registration, and the machine is online if and only if that said so and no sweep since had a threshold past it |
| `History.HeartbeatFrame` | crates/control-plane/src/routes/agent.rs:126-145 | a heartbeat writes its machine's liveness and its command rows, and nothing else |
| `History.HeartbeatKeepsOnline` | crates/control-plane/src/billing.rs:82-90 | a host that said it is online survives every sweep whose timeout allows the silence since, whatever else runs |
| `History.ChargedAtTheLastPrice` | crates/control-plane/src/routes/tenant.rs:255-279 | a new rental's rate is the last its host registered or set, in every run |
| `History.RentalHistory` | crates/control-plane/src/routes/agent.rs:192-205 | over every run, status, kind, container, port, host, error and end time hold the last value written to each: kind and container survive reports that bring none, the end time is that of the last terminal report, and image and key never change |
| `History.HeldUntilReported` | crates/core/src/model.rs:28-42 | over every run, a machine is occupied exactly by its rentals whose last status written is neither `stopped` nor `failed`: from creation through `running` and `evicting` |
| `History.TrimStrips` | crates/control-plane/src/routes/tenant.rs:229-230 | trimming takes white space off both ends and nothing else, and leaves nothing exactly of white space |
| `History.Answers` | crates/control-plane/src/routes/tenant.rs:215-260 | which refusal `create_rental` gives, for every request: 404, 400, 409, 402 or none, each if and only if its reason is the first that holds |
| `History.Accepted` | crates/control-plane/src/routes/tenant.rs:227-293 | an accepted request adds one provisioning row, and one start command with that row's id, image and key; the key is the one sent less the white space around it, and empty only if none was sent for a `metal:` image; nothing else changes |
| `History.StopRequested` | crates/control-plane/src/routes/tenant.rs:381-394 | a delete marks its rental and queues one stop of it for its machine; nothing else changes |
| `Books.PostedRows` | crates/control-plane/src/db.rs:119-186 | each transaction appends exactly the rows it posts, and the rows that move money inside the system cancel |
| `Books.AccountPosting` | crates/control-plane/src/billing.rs:44-66 | each account's balance moves by exactly the ledger rows the transaction posts to it |
| `Books.HostPosting` | crates/control-plane/src/routes/agent.rs:293-314 | a host's balance moves by the rows posted to it plus what the transaction overpays, and that is nonzero exactly for a payout of an amount read before the balance changed |
| `Books.DoubleEntryStep` | crates/control-plane/src/db.rs:155-186 | every row belongs to exactly one party and debit/credit pairs cancel, preserved by every transaction |
| `Books.AccountBooksStep` | crates/control-plane/migrations/0001_init.sql:32-36 | balance equals the sum of the account's rows and is not negative, and only charges take: preserved by every transaction, fresh or stale |
| `Books.AccountBooksHold` | crates/control-plane/src/routes/agent.rs:207-238 | over every run and every interleaving, each account balance equals the sum of its ledger rows and is never negative |
| `Books.NeverNegative` | crates/control-plane/src/routes/agent.rs:214-230 | no transaction takes a tenant or host balance below zero, whatever it read and at whatever rate |
| `Books.NeverNegativeAlong` | crates/control-plane/src/routes/agent.rs:214-230 | no balance is ever negative, over every run and interleaving, for any reports and any rates |
| `Books.HostBooksStep` | crates/control-plane/src/routes/agent.rs:276-327 | a host's balance keeps agreeing with its rows if and only if the transaction is not a stale payout |
| `Books.SettleOne` | crates/control-plane/src/billing.rs:44-53 | marking one invoice settled adds exactly its sats to the settled total of its account |
| `Books.DepositBooksStep` | crates/control-plane/src/billing.rs:32-80 | deposit rows keep totalling the settled invoices, per any group of accounts, if and only if no invoice is credited twice |
| `Books.DepositBooksHold` | crates/control-plane/src/billing.rs:32-80 | the same over every run without a second credit |
| `Books.AllBooksHold` | crates/control-plane/src/routes/agent.rs:207-314 | all four books hold along every run without a stale payout or a second credit |
| `Books.SumByParty` | crates/control-plane/src/db.rs:136-148 | the ledger's total is the sum over accounts plus the sum over machines, since each row has one party |
| `Books.SumByKind` | crates/core/src/model.rs:105-117 | the ledger's total is deposits plus payouts plus internal rows |
| `Books.LedgerTotal` | crates/core/src/model.rs:105-106 | the ledger's total equals all balances plus all payouts owed, equals settled deposits less payouts, is never negative, and is zero exactly when every balance is drained: what holds instead of the documented `SUM(delta_sats) == 0` |
| `Books.Conservation` | crates/control-plane/src/billing.rs:32-80 | conservation over every run from the empty database, at the granularity of single transactions |
| `Books.AtomicConservation` | crates/control-plane/src/routes/agent.rs:276-327 | conservation over every run of handlers that each execute atomically, with no further assumption |
| `Books.HostGap` | crates/control-plane/src/routes/agent.rs:282-301 | over every run and interleaving, a host's balance parts from its ledger rows by exactly the sum, over its payouts, of the amount read less the balance found |
| `Books.DepositGap` | crates/control-plane/src/billing.rs:32-66 | over every run and interleaving, deposit rows part from the settled invoices of any group of accounts by exactly what was credited again |
| `Books.LedgerRecords` | crates/control-plane/src/db.rs:119-186 | over every run, each ledger row fills the columns of its kind with the right sign and records, at its time, a transaction of the run |
| `Books.InvoiceKept` | crates/control-plane/src/routes/tenant.rs:186-196 | an invoice keeps the account and the amount it was issued for |
| `Books.DepositArrives` | crates/control-plane/src/billing.rs:44-66 | from deposit request to credit, with anything in between: settling the invoice credits the account that asked by the sats it asked for, records it, and moves nobody else's money |
| `Books.ExactConservation` | crates/core/src/model.rs:105-106 | conservation over every run with no assumption: balances plus payouts owed equal the ledger's total plus what stale payouts overpaid, the total equals all credits less payouts, and no balance is negative |
| `Billing.ChargeWithinOneSat` | crates/control-plane/src/billing.rs:22-29 | for every interval and rate, the charge is elapsed seconds times rate over 60 rounded toward zero: never above the price and less than one sat below it at a nonnegative rate; clock skew charges nothing |
| `Billing.ChargeCoversMinutes` | crates/control-plane/src/routes/agent.rs:231-237 | the `minutes_billed` that settling writes are the whole minutes from creation to the settlement, and the accrued charge covers that many at the rental's rate and not one more |
| `Billing.SplitOnce` | crates/control-plane/src/billing.rs:26-29 | cutting an interval once loses at most one sat, for any cut not after the end |
| `Billing.SplitCharge` | crates/control-plane/src/billing.rs:26-29 | billing an interval in k consecutive pieces gives at most the whole and loses at most k - 1 sats |
| `Billing.ChargeFitsI64` | crates/control-plane/src/billing.rs:26-29 | for all 64-bit arguments: between any two times since 1970 the wrapped charge is the true one if and only if elapsed seconds times rate fits; an interval too long to subtract is charged nothing |
| `Billing.BillStep` | crates/control-plane/src/routes/agent.rs:188-238 | one transaction adds to a rental's charge rows exactly the debit/credit pair of the bill it issues, and `sats_charged` becomes that bill |
| `Billing.ChargesFollowBills` | crates/control-plane/src/routes/agent.rs:207-238 | over any run, charge rows and `sats_charged` are those at its start followed by its bills, in order |
| `Billing.ChargesAreBills` | crates/control-plane/src/routes/agent.rs:207-238 | in every run and interleaving from the empty database, a rental's charge rows are exactly its bills and `sats_charged` is the last of them |
| `Billing.EndsWhenBilled` | crates/control-plane/src/routes/agent.rs:183-194 | after any transaction, fresh or stale, a rental is ended exactly when it was and was not brought back, or was billed, or was ended without a settle; and a bill finds it ended exactly when it is a second settle |
| `Billing.OneBillPerEnding` | crates/control-plane/src/routes/agent.rs:175-216 | over every run and interleaving: bills plus ends left unbilled equal times brought back plus second settles, plus one if it has ended meanwhile; so an ended rental is charged exactly once if and only if it was brought back and settled again, together, as often as it ended unbilled |
| `Billing.StaysEnded` | crates/control-plane/src/routes/agent.rs:192-205 | only a live report, or a delete or eviction that commits too late, makes an ended rental live |
| `Billing.AtomicUndisturbed` | crates/control-plane/src/routes/agent.rs:173-194 | handlers that execute atomically disturb a rental's ending only by a report that brings it back |
| `Billing.BilledWhenItEnds` | crates/control-plane/src/routes/agent.rs:185-188 | so in a run of atomic handlers that never brings it back a rental is billed exactly when it ends, once |
| `Billing.FirstEnd` | crates/control-plane/src/routes/agent.rs:183-188 | the one bill of an undisturbed rental is issued by its first terminal report, on the state that report finds |
| `Billing.ChargedOnceAndExactly` | crates/control-plane/src/routes/agent.rs:185-238 | a rental whose ending nothing disturbs has no charge and no minutes while it lives; once ended, `sats_charged` is what it accrued by its first terminal report in the run, capped at the balance its account had when that report committed, with one debit/credit pair if positive and none otherwise, and `minutes_billed` the whole minutes until then, whatever else runs |
| `Billing.TermsAreSnapshotted` | crates/control-plane/src/routes/tenant.rs:255-279 | whatever follows, a rental is charged by the rate the machine had, and from the moment, it was created; and its account could then pay a minute |
| `Billing.EvictAll` | crates/control-plane/src/billing.rs:103-165 | evicting a list of rentals one transaction at a time changes those rows and no others, with one stop command and one zero ledger row each, in order |
| `Billing.OverdueRentals` | crates/control-plane/src/billing.rs:103-122 | the rentals evicted are exactly those of the checks that found them over budget, each once |
| `Billing.BudgetsEnforced` | crates/control-plane/src/billing.rs:96-167 | over the running rows in any order, each checked at its own moment: on a host heard from, a rental that accrued more by its check than its account holds becomes `evicting` with one stop command and one zero row, any other is untouched, and no balance changes |
| `Billing.EvictedIfUnpaid` | crates/control-plane/src/billing.rs:111-122 | so there a rental is evicted if and only if settling it at its check would have fallen short |
| `Billing.EnforcedAtOneInstant` | crates/control-plane/src/billing.rs:96-122 | at a fixed instant the rentals evicted are all those running, on a host heard from, with more accrued than their account holds, regardless of row order |
| `Billing.BudgetsStayEnforced` | crates/control-plane/src/billing.rs:96-167 | running the loop again over any rows, each seen at the moment it was first checked, evicts nothing |
| `Billing.BalanceFloor` | crates/control-plane/src/billing.rs:103-122 | between two states of a run that does not bill a rental, its account loses no more than other rentals' settlements took |
| `Billing.BoundedOverrun` | crates/control-plane/src/billing.rs:103-122 | a rental a tick found within budget and settled later leaves unpaid at most what accrued since the tick, one sat, and what other settlements took from the account in between, under any interleaving and at any rate |
| `Commands.QueueSplits` | crates/control-plane/src/routes/agent.rs:133-139 | delivered rows are a prefix of a machine's queue and waiting ones are the rest |
| `Commands.MarkedItems` | crates/control-plane/src/routes/agent.rs:140-145 | marking a machine's rows delivered moves its whole queue to delivered and touches no other machine's |
| `Commands.ViewStep` | crates/control-plane/src/routes/agent.rs:133-151 | one transaction appends to a machine's queue only what it issues to it, and to its delivered rows only a heartbeat's answer |
| `Commands.FifoStep` | crates/control-plane/src/routes/agent.rs:133-151 | refinement: a heartbeat pops everything waiting, oldest first; issuing a command pushes it; all else leaves the queue alone |
| `Commands.DeliveredIsSent` | crates/control-plane/src/routes/agent.rs:114-165 | the concatenated answers of any run are exactly the rows marked delivered during it |
| `Commands.FifoDelivery` | crates/control-plane/src/routes/agent.rs:114-165 | in every run a machine's answers are a prefix of everything queued for it, all of it right after a heartbeat, and repeat no row |
| `Commands.SensibleStep` | crates/control-plane/src/routes/tenant.rs:267-293 | every command belongs to a rental of its machine, each rental is started by exactly one row, and no stop row precedes that start: preserved by every transaction |
| `Commands.SentIsSensible` | crates/control-plane/src/routes/agent.rs:147-151 | so the delivered rows of a machine start each rental at most once and stop none before its start |
| `Commands.StreamIsSensible` | crates/control-plane/src/routes/tenant.rs:363-394 | in every run, whatever the agents report, a machine's delivered stream names only its own rentals, starts each at most once, and stops none before |
| `Occupancy.OccupyingList` | crates/control-plane/src/routes/tenant.rs:27-36 | the status list derived from `ALL` holds exactly the statuses that occupy a machine, and those are exactly the non-terminal ones |
| `Occupancy.OccupiedWhenLive` | crates/control-plane/src/routes/tenant.rs:243-253 | the occupancy query answers yes exactly when some rental of the machine is live |
| `Occupancy.ExclusiveStep` | crates/control-plane/src/routes/tenant.rs:239-253 | any transaction, fresh or stale, keeps at most one live rental per machine if and only if it does not bring an ended rental back onto a machine another holds |
| `Occupancy.ExclusiveAlong` | crates/core/src/model.rs:28-42 | in every run and interleaving, no state passed through has two live rentals on a machine if and only if no transaction brings one back onto a machine held by another |
| `Occupancy.ThroughoutMeansEach` | crates/core/src/model.rs:28-42 | that is, in the state after every prefix of the run |
| `Occupancy.ExclusiveUnlessRevived` | crates/core/src/model.rs:28-42 | so a run that brings no rental back ends exclusive |
| `Occupancy.WholePage` | crates/control-plane/src/routes/tenant.rs:103-109 | a page as large as the set it is drawn from lists the whole set |
| `Occupancy.ListedIffRentable` | crates/control-plane/src/routes/tenant.rs:71-114 | without filters and with no more idle online machines than the page holds, a machine is listed exactly when `create_rental` by a funded account with an acceptable key would succeed |
| `Occupancy.PageSizeClamps` | crates/control-plane/src/routes/tenant.rs:103 | the page size is the limit asked for if between 1 and 200, else the nearer of the two, and 200 by default |
| `Occupancy.ListedMeans` | crates/control-plane/src/routes/tenant.rs:75-109 | with any filters, only online machines without a live rental that pass them are listed, and all of those unless the page is full |
| `Occupancy.SelectOffers` | crates/control-plane/src/routes/tenant.rs:75-109 | for any filter and sort key, the page holds distinct online idle matching machines in key order, as many as the clamped limit allows, and leaves out none with a smaller key |
| `Agent.ReportedFailure` | crates/host-agent/src/main.rs:257-293 | a failed start and a failed stop end their rental: `failed`, the agent's message, the time, no port, kind and container kept; if the report read it live and it was, it is billed in that step for what it accrued up to what its account holds |
| `Agent.RunningDoesNotSettle` | crates/control-plane/src/routes/agent.rs:183-188 | a start that succeeds moves no money |
| `Agent.EveryCommandRuns` | crates/host-agent/src/main.rs:413-418 | every command of a heartbeat answer received becomes a task of its own, in order; of an answer lost, none does |
| `Agent.OneTaskLeaves` | crates/host-agent/src/main.rs:296-298 | a task that reports or whose report is lost is over, and no other is |
| `Agent.InvStep` | crates/host-agent/src/main.rs:410-418 | running tasks come from distinct delivered rows, and an ended rental's start has been delivered and is over: kept by every guarded step of control plane and agents |
| `Agent.OnlyStaleRevives` | crates/host-agent/src/main.rs:231-299 | in such a state a step turns a terminal rental back if and only if it is a delete or an eviction of that rental that commits after its end |
| `Agent.GuardedTrace` | crates/host-agent/src/main.rs:410-418 | a guarded run of the composed system, its reports settling on whatever they read, commits a run in which no rental is brought back |
| `Agent.TerminalIsFinal` | crates/control-plane/src/routes/agent.rs:192-205 | if each rental's start has finished or was lost before a stop of it is processed, and no delete or eviction commits on a rental that ended after it was read, no terminal rental ever becomes non-terminal again |
| `Agent.ComposedSafety` | crates/control-plane/src/routes/tenant.rs:239-253 | in every such run no machine has two live rentals, and the bills of a rental plus its unbilled ends are its end, if it has ended, plus the settles that found it ended |
| `Agent.BilledWhenEnded` | crates/control-plane/src/routes/agent.rs:173-188 | when reports also settle on what they find, each rental is billed exactly once if it has ended and never otherwise |
| `Agent.GuardIsNeeded` | crates/host-agent/src/main.rs:413-418 | the first assumption is needed: wherever a stop is processed before its start has finished, the start's success then brings the ended rental back |
| `Agent.StaleGuardIsNeeded` | crates/control-plane/src/routes/tenant.rs:367-385 | so is the second: a handler other than the agents' own leaves every ended rental ended if and only if it is no such late delete or eviction |
| `Agent.ReportedContact` | crates/host-agent/src/main.rs:231-299 | a successful start leaves its kind, port, container and the address read for the host on the row; a successful stop clears port and error and keeps kind and container |
| `Ticker.InvStep` | crates/control-plane/src/billing.rs:32-48 | whatever handlers commit in between, everything still on the poll's list is unsettled, so no credit is a second one |
| `Ticker.TraceCredits` | crates/control-plane/src/billing.rs:32-80 | along any interleaving an invoice is credited exactly when it turns settled |
| `Ticker.CreditedIfPaid` | crates/control-plane/src/billing.rs:38-41 | an invoice is credited exactly as often as the node answered that it is paid |
| `Ticker.ErrorEndsPoll` | crates/control-plane/src/billing.rs:39 | after an error nothing more is asked in that poll, and nothing was written |
| `Ticker.CreditedOnce` | crates/control-plane/src/billing.rs:32-80 | with one ticker, any answers and any interleaving, each invoice is credited once if settled and never otherwise, and deposit rows total the settled invoices of every group of accounts |
| `Witnesses.LedgerIsNotAlwaysZero` | crates/core/src/model.rs:105-106 | a run after which `SUM(delta_sats)` is 1000 |
| `Witnesses.TwoPayouts` | crates/control-plane/src/routes/agent.rs:282-301 | from any sound state with a positive balance, two payouts that both read it leave that host's books out of balance |
| `Witnesses.TwoPayoutsReached` | crates/control-plane/src/routes/agent.rs:282-301 | a run from the empty tables that does so |
| `Witnesses.RevivedIsBilledAgain` | crates/control-plane/src/routes/agent.rs:188-216 | from any state, however an ended rental is brought back, its next end bills it again for everything since it was created |
| `Witnesses.OverlappingReportsBillTwice` | crates/control-plane/src/routes/agent.rs:175-188 | from any state, two terminal reports that both read a rental live bill it twice |
| `Witnesses.OverlapReached` | crates/control-plane/src/routes/agent.rs:175-188 | a run from the empty tables in which they do, and take the minute's price twice |
| `Witnesses.SharedMachine` | crates/control-plane/src/routes/tenant.rs:367-385 | a run of atomic handlers from the empty tables after which a live report, a late delete and a late eviction each put two live rentals on one machine |
| `Witnesses.StopOvertakesStart` | crates/host-agent/src/main.rs:413-418 | a run from the empty system, with agents that only run `dispatch`, in which a rental ends and is then reported running because its stop finished before its start |
| `Witnesses.PollCredits` | crates/control-plane/src/billing.rs:32-66 | a poll that credits an invoice, so the interleaving results are not about idle polls |
| `Server.ConsistentMeans` | crates/control-plane/migrations/0001_init.sql:1-86 | the invariant kept by every handler gives each balance as the sum of its rows, the total held as the sum of the ledger, and each queue in order and sensible |
| `Server.ConsistentStep` | crates/control-plane/migrations/0001_init.sql:1-86 | the schema, all the books, the queue order and the sense of the commands are kept by every atomic handler |
| `Server.ConsistentAlong` | crates/control-plane/migrations/0001_init.sql:1-86 | and so along every run of them |
| `Server.TickBoundsOverrun` | crates/control-plane/src/billing.rs:92-122 | a rental that a tick leaves running on a host heard from, settled later after any interleaving that does not bill it, leaves unpaid at most what accrued since its check, one sat, and what other settlements took from its account |
| `Server.ControlPlane.Record` | crates/control-plane/src/db.rs:119-150 | one row is appended and nothing else changes |
| `Server.ControlPlane.RecordCharge` | crates/control-plane/src/db.rs:152-186 | the debit and the credit of one charge, in that order, which sum to zero |
| `Server.ControlPlane.Register` | crates/control-plane/src/routes/agent.rs:20-112 | registration is idempotent on `host_id`: a known host keeps its row and its payout balance, a new one gets the next id; all invariants kept |
| `Server.ControlPlane.Drain` | crates/control-plane/src/routes/agent.rs:133-145 | marking the selected rows one by one ends with exactly the machine's rows delivered, and hands out what was waiting in id order |
| `Server.ControlPlane.HandleHeartbeat` | crates/control-plane/src/routes/agent.rs:116-165 | liveness and queue change together as one transaction: the machine's last heartbeat is now and it is online as it says; the answer is its waiting commands in id order |
| `Server.ControlPlane.Settle` | crates/control-plane/src/routes/agent.rs:207-238 | the stop-time charge in place equals the settlement the billing lemmas are about: account, host, ledger and rental row; the minutes written are the whole minutes elapsed |
| `Server.ControlPlane.HandleReport` | crates/control-plane/src/routes/agent.rs:168-253 | 404 exactly when the rental is not this machine's; otherwise the transaction `Report`, settling exactly when a live rental ends; all invariants kept |
| `Server.ControlPlane.HandleRate` | crates/control-plane/src/routes/agent.rs:257-272 | rates below one are refused; otherwise only the machine's rate changes |
| `Server.ControlPlane.HandlePayout` | crates/control-plane/src/routes/agent.rs:276-327 | nothing owed or a failed payment leaves the tables alone; otherwise the balance is zeroed against a ledger row of the same amount |
| `Server.ControlPlane.CreateAccount` | crates/control-plane/src/routes/tenant.rs:117-131 | a new account with nothing in it |
| `Server.ControlPlane.HandleDeposit` | crates/control-plane/src/routes/tenant.rs:163-203 | the three refusals in order; otherwise one unsettled invoice and no money moved |
| `Server.ControlPlane.HandleCreateRental` | crates/control-plane/src/routes/tenant.rs:207-313 | the refusals in the handler's order with their statuses, changing nothing; otherwise one provisioning rental at the snapshot rate and one start command, both with the request's image and the key sent less the white space around it |
| `Server.ControlPlane.HandleDelete` | crates/control-plane/src/routes/tenant.rs:363-411 | ending or ended rentals are answered as they are; others become `evicting` with one stop command |
| `Server.ControlPlane.CreditInvoice` | crates/control-plane/src/billing.rs:44-66 | crediting in place equals the transaction the deposit lemmas are about |
| `Server.ControlPlane.HandleMarkOffline` | crates/control-plane/src/billing.rs:83-90 | after it every machine marked online has been heard from within the timeout |
| `Server.ControlPlane.TakeOffline` | crates/control-plane/src/billing.rs:85-88 | the update row by row: exactly the online machines last heard from before the threshold go offline |
| `Server.ControlPlane.CheckAll` | crates/control-plane/src/billing.rs:96-167 | the loop, which checks each row against the tables and the clock as they then are, commits the evictions that the state before it called for, each in its own transaction |
| `Server.ControlPlane.EnforceBudgets` | crates/control-plane/src/billing.rs:96-167 | the loop, which checks each row against the tables and the clock as they then are, leaves each rental judged as it should be: evicting if its host was heard from and it accrued more than its account holds, else untouched |
| `Server.ControlPlane.PollInvoices` | crates/control-plane/src/billing.rs:32-80 | of the invoices listed, exactly those answered paid before any error are settled afterwards, each credited in its own transaction at its own time; it succeeds exactly when there was no error |
| `Server.ControlPlane.Tick` | crates/control-plane/src/billing.rs:14-20 | the three phases in order with a clock reading for each row: the invoices credited, which without an error are all those answered paid, the state the budget check saw, and the evictions, which are exactly the rentals over budget there when checked; a failed poll stops after its credits; a completed tick leaves nobody over budget as of their check |
| `Server.NothingAfterError` | crates/control-plane/src/billing.rs:38-41 | an error from the node ends the poll: later answers credit nothing |
| `Matmul.Injective` | crates/gpu-bench/src/wgpu_backend.rs:64-66 | row-major positions of different elements differ |
| `Matmul.ProductIsUnique` | crates/gpu-bench/src/wgpu_backend.rs:33-67 | there is one product, so kernels that each compute it agree |
| `Matmul.OnesDot` | crates/gpu-bench/src/wgpu_backend.rs:312-314 | on all-ones inputs every partial sum is the count of its terms |
| `Matmul.IdentityIsNeutral` | crates/gpu-bench/src/wgpu_backend.rs:58-66 | multiplying by the identity on either side gives the matrix back, which tells rows from columns in what the kernels compute |
| `WgslGemm.GroupsCover` | crates/gpu-bench/src/wgpu_backend.rs:29-42 | 256 lanes to a workgroup, and as many workgroups a side, and tiles along k, as cover n sixteen at a time |
| `WgslGemm.PaddingIsHarmless` | crates/gpu-bench/src/wgpu_backend.rs:46-55 | zero padding does not change an inner product, for any n |
| `WgslGemm.LoadA` | crates/gpu-bench/src/wgpu_backend.rs:46-50 | a lane's load fills its own cell of the shared tile with the padded element, in range, and leaves its workgroup in order |
| `WgslGemm.LoadB` | crates/gpu-bench/src/wgpu_backend.rs:51-55 | the same for the second tile |
| `WgslGemm.NextTerm` | crates/gpu-bench/src/wgpu_backend.rs:58-60 | whatever order the lanes ran in, the two tile cells a lane multiplies are the next term of its inner product |
| `WgslGemm.MultiplyAdd` | crates/gpu-bench/src/wgpu_backend.rs:58-60 | one multiply-add extends the accumulator by exactly that term |
| `WgslGemm.PassBarrier` | crates/gpu-bench/src/wgpu_backend.rs:56-61 | when all lanes have arrived they pass together, and the next stretch starts from complete tiles or accumulators |
| `WgslGemm.OnesAccumulator` | crates/gpu-bench/src/wgpu_backend.rs:312-314 | on all-ones inputs every accumulator is, at every moment of every schedule, a whole number between 0 and n |
| `WgslGemm.IndicesFitU32` | crates/gpu-bench/src/wgpu_backend.rs:47-65 | row-major `u32` indices never wrap exactly up to n = 65536 |
| `WgslGemm.StoreKeeps` | crates/gpu-bench/src/wgpu_backend.rs:64-66 | a lane's store writes its own element, for the first time, with the full inner product, and no other |
| `WgslGemm.NothingLeft` | crates/gpu-bench/src/wgpu_backend.rs:41-66 | no event is left exactly when every lane has executed its store |
| `WgslGemm.Dispatch.Execute` | crates/gpu-bench/src/wgpu_backend.rs:33-67 | any one enabled instruction or barrier of any workgroup moves only that lane or workgroup, uses up one of the events left, and keeps every tile cell, accumulator and written element right |
| `WgslGemm.Dispatch.FinishedIsProduct` | crates/gpu-bench/src/wgpu_backend.rs:33-67 | a finished dispatch holds the plain product, each element written exactly once, for every n and schedule |
| `WgslGemm.Dispatch.OnesResult` | crates/gpu-bench/src/wgpu_backend.rs:312-314 | on all-ones inputs every element is exactly n |
| `WgslGemm.Dispatch.FindEnabled` | crates/gpu-bench/src/wgpu_backend.rs:56-61 | barriers never deadlock: some event is enabled until the dispatch has finished |
| `WgslGemm.Dispatch.Run` | crates/gpu-bench/src/wgpu_backend.rs:372-378 | every schedule of lanes and barriers finishes, after the same number of events, with the product in `c`, each element written once |
| `MetalGemm.Load` | crates/gpu-bench/src/metal_backend.rs:45-46 | a tile load reads exactly the 8 by 8 block at its address, in range |
| `MetalGemm.BlockExtendsDot` | crates/gpu-bench/src/metal_backend.rs:43-48 | one 8-wide block is the next eight terms of the inner product |
| `MetalGemm.Kernel` | crates/gpu-bench/src/metal_backend.rs:34-68 | the k-blocked accumulation ends with every inner product of its tile complete |
| `MetalGemm.Output.Store` | crates/gpu-bench/src/metal_backend.rs:49 | the tile store writes its 64 elements and no others |
| `MetalGemm.Output.RunGrid` | crates/gpu-bench/src/metal_backend.rs:149-162 | the (n/8)^2 tiles partition the output: the product, each element written once, in any order of threadgroups |
| `MetalGemm.OneTileEach` | crates/gpu-bench/src/metal_backend.rs:149-154 | every element lies in exactly one 8 by 8 tile of the grid |
| `MetalGemm.Gemm` | crates/gpu-bench/src/metal_backend.rs:178-213 | sizes are accepted exactly when positive multiples of 8, and then the output is the product |
| `MetalGemm.AgreedSizesRun` | crates/host-agent/src/runtime.rs:426-429 | every size an agent agrees to run is one the backend accepts, with indices that fit 32 bits |
| `MetalGemm.KernelsAgree` | crates/gpu-bench/src/metal_backend.rs:30-69 | the Metal and the WGSL kernels compute the same matrix from the same inputs |
| `Triad.DispatchFits` | crates/gpu-bench/src/wgpu_backend.rs:438-440 | a nonempty grid whose counters stay below 2^32 is dispatched exactly for up to 2^32 - 65535 * 256 elements |
| `Triad.DispatchCovers` | crates/gpu-bench/src/wgpu_backend.rs:438-440 | one thread per element without an idle workgroup, until the cap of 65535 workgroups |
| `Triad.NoWrap` | crates/gpu-bench/src/wgpu_backend.rs:135-141 | the `u32` loop counter never wraps if and only if n + stride <= 2^32 |
| `Triad.OnePerStride` | crates/gpu-bench/src/wgpu_backend.rs:136-141 | between one index of a thread and its next lies no other of its own |
| `Triad.Grid.Iterate` | crates/gpu-bench/src/wgpu_backend.rs:138-141 | one iteration writes one element nobody has written, with its value, and moves only its own thread |
| `Triad.Grid.Run` | crates/gpu-bench/src/wgpu_backend.rs:132-142 | every schedule of the threads finishes, after one iteration per element, with c[i] = a[i] + 2 b[i] written exactly once for every i |
| `Fingerprint.SortSorts` | crates/host-agent/src/benchmark.rs:162 | the sort orders the records and keeps them, with multiplicity |
| `Fingerprint.BytewiseOrder` | crates/host-agent/src/benchmark.rs:162 | the order of the records is byte-wise: a prefix first, else by the first byte that differs |
| `Fingerprint.LeastFirst` | crates/host-agent/src/benchmark.rs:158-168 | the bytes fed are the fields of some least record, name, uuid, bus id, with `|` between and a zero byte after, followed by the bytes of the rest |
| `Fingerprint.Fingerprint` | crates/host-agent/src/benchmark.rs:157-168 | the bytes fed to the hash are the sorted records, each followed by a NUL |
| `Fingerprint.PreimageIsRecords` | crates/host-agent/src/benchmark.rs:162-168 | on NUL-free fields the fed bytes are equal if and only if the multisets of records are |
| `Fingerprint.TupleInjective` | crates/host-agent/src/benchmark.rs:160 | a record determines its three fields when name and uuid hold no bar |
| `Fingerprint.FingerprintIsCanonical` | crates/host-agent/src/benchmark.rs:153-168 | without bars and NULs, two GPU lists feed the same bytes if and only if they are the same multiset of (name, uuid, bus id), in whatever order |
| `Fingerprint.RecordDetermines` | crates/host-agent/src/benchmark.rs:160 | a record stands for one key only, among all keys, if and only if no field of it holds a bar |
| `Fingerprint.IdentifiedAmongNulFreeExactly` | crates/host-agent/src/benchmark.rs:153-168 | among NUL-free lists, as NVML's C strings make them, only permutations of a list feed its bytes if and only if no field in it holds a bar |
| `Fingerprint.ManyFeedAsOne` | crates/host-agent/src/benchmark.rs:164-168 | every list of two or more GPUs feeds the bytes of some single GPU with a NUL in its bus id |
| `Fingerprint.IdentifiedExactly` | crates/host-agent/src/benchmark.rs:153-168 | among all lists whatever, only permutations of a list feed its bytes if and only if it is empty or one GPU without a bar |
| `Fingerprint.BarCollides` | crates/host-agent/src/benchmark.rs:160 | with a bar in a name two different GPUs feed the same bytes |
| `Fingerprint.NulCollides` | crates/host-agent/src/benchmark.rs:167 | with a NUL in a bus id one GPU feeds the same bytes as two |
| `Images.RFind` | crates/host-agent/src/runtime.rs:109-110 | the last occurrence, or none at all |
| `Images.SplitUndoesJoin` | crates/host-agent/src/runtime.rs:104-117 | splitting `repo:tag` gives both back for every repo and every tag without `/` or `:` |
| `Images.SplitIsStable` | crates/host-agent/src/runtime.rs:104-117 | every split has a plain tag, joins back to the image or to its default tag, and splits the same way again |
| `Images.DigitsOfDecimal` | crates/host-agent/src/runtime.rs:421-424 | reading a decimal numeral back gives the number |
| `Images.ParsesAs` | crates/host-agent/src/runtime.rs:421-424 | the size argument parses as n exactly when it is an optional plus sign, any zeros and the decimal numeral of n, below 2^32 |
| `Images.TaskRoundTrip` | crates/host-agent/src/runtime.rs:409-434 | asking for any size in decimal is answered with that size exactly when it is a multiple of 8 from 256 to 16384, and refused otherwise |
| `Images.BareTask` | crates/host-agent/src/runtime.rs:417-425 | `metal:gemm` without a size asks for 2048 |
| `Images.AcceptedTasks` | crates/host-agent/src/runtime.rs:409-434 | the accepted images are exactly `metal:gemm` and `metal:gemm:` with a size that parses and is allowed; each is an HTTP-status image |
| `Ports.PickFreePort` | crates/host-agent/src/runtime.rs:91-97 | the least free port of the range, or none exactly when all are used |
| `Ports.NoteKeepsPool` | crates/host-agent/src/runtime.rs:490-493 | noting a job under a port chosen earlier keeps ports distinct if and only if no other job holds that port by then |
| `Ports.ConcurrentStartsCollide` | crates/host-agent/src/runtime.rs:477-493 | two starts that choose before either is noted take the same port, in any pool with one free |
| `Ports.MetalRuntime.Choose` | crates/host-agent/src/runtime.rs:475-480 | the choosing half of a start: the least free port, or none exactly on a bad image or a full pool |
| `Ports.MetalRuntime.Note` | crates/host-agent/src/runtime.rs:490-493 | the noting half: the job is entered, and the pool stays sound exactly when no other job took the port meanwhile |
| `Ports.MetalRuntime.StartRental` | crates/host-agent/src/runtime.rs:474-500 | with nothing between its halves, a start fails exactly on a bad image, a full pool or a failed spawn, leaving the jobs alone; otherwise its job gets the least free port, and ports stay distinct and in range |
| `Ports.MetalRuntime.StopRental` | crates/host-agent/src/runtime.rs:502-509 | exactly that job is forgotten and the pool stays sound |
| `Ports.MetalRuntime.RunningRentals` | crates/host-agent/src/runtime.rs:511-530 | exactly the exited jobs are forgotten and the rest are listed |
| `Ports.MetalRuntime.Available` | crates/host-agent/src/runtime.rs:532-537 | exactly the unused ports of the range, and as many as the range less the jobs |
| `Ports.Accounted` | crates/host-agent/src/runtime.rs:462-469 | free ports plus jobs is the size of the range |

## Left out

- HTTP routing, JSON, bearer tokens, SQLite and sqlx: a handler gets the machine its token resolved to, and a transaction commits whole or not at all.
- Lightning backends: whether an invoice is issued, settled or paid is an arbitrary answer. Payment hashes, account ids and tokens are fresh keys, modelled as row positions.
- `get_account`, `get_rental`, `health`, `machine_to_offer`, the `vgpu` command line, money formatting: they only display.
- Machine hardware columns and the `paid_through`, `note`, `bolt11` and command `created_at` columns: nothing modelled reads them. The `offers` filters and its three sort keys, which do read hardware columns, are an arbitrary predicate and an arbitrary real key.
- Integers are unbounded; `Billing.ChargeFitsI64` says exactly when the charge is right in 64 bits. Sums of balances are not bounded.
- Interleaving is at the granularity of commits; reads inside a transaction are serialized, as `BEGIN IMMEDIATE` makes them.
- Whether a lost report or command is ever made good: delivery is at most once, and only safety is proved of the agents.
- `Trim` knows the ASCII white space, not the Unicode one.
- Docker, process control, NVML, CUDA, timing, throughput and the network probe: foreign calls. The `dlperf` tables are data.
- The process of a Metal job replaced by a second start of the same rental is not tracked, only its port.
- The Docker runtime's ports, which come from labels of running containers.
- Floating-point rounding, in both precisions; the two WGSL texts and the two Metal texts differ only in it, so one model stands for each pair.
- WgslGemm.Dispatch.Execute: the shared tiles and lane registers of a workgroup are a value that each step replaces, not an array updated in place; `c` is an array. Device limits on the grid are not modelled.
- MetalGemm.Output.RunGrid: runs threadgroups one after another in an arbitrary order; they share nothing but disjoint tiles of the output. The simdgroup intrinsics are operations on 8 by 8 tiles.
- SHA-256 and hex encoding: the fingerprint is modelled up to the bytes hashed. NVML's names, uuids and bus ids are C strings, so the results about a NUL in a field concern the function's type, not an inventory it is given on Linux; on macOS an inventory is one GPU.
- Registration is one step; the original's lookup and insertion are two statements, between which only the uniqueness of `host_id` protects.
