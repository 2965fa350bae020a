/**
 Conservation of money: the ledger, the balances and the invoices tell the same story.

 Nothing here assumes that a handler's reads and its transaction happen together. Account
 balances agree with the ledger under every interleaving; a host's balance does so exactly
 while no payout commits on an amount that has changed since it was read.
 */
module Books {
  import opened Model
  import opened Tables
  import opened Database

  function Sum(l: seq<Entry>, p: Entry -> bool): int {
    if |l| == 0 then 0
    else Sum(l[..|l| - 1], p) + if p(l[|l| - 1]) then l[|l| - 1].delta else 0
  }

  lemma {:induction false} SumAppend(l: seq<Entry>, t: seq<Entry>, p: Entry -> bool)
    ensures Sum(l + t, p) == Sum(l, p) + Sum(t, p)
    decreases |t|
  {
    if |t| == 0 {
      assert l + t == l;
    } else {
      assert (l + t)[..|l + t| - 1] == l + t[..|t| - 1];
      SumAppend(l, t[..|t| - 1], p);
    }
  }

  function OfAccount(a: nat): Entry -> bool {
    (e: Entry) => e.account == Some(a)
  }

  function OfMachine(m: nat): Entry -> bool {
    (e: Entry) => e.machine == Some(m)
  }

  function Everything(): Entry -> bool {
    (e: Entry) => true
  }

  function OfKind(k: LedgerKind): Entry -> bool {
    (e: Entry) => e.kind == k
  }

  /** Rows that only move money inside the system. */
  function Internal(): Entry -> bool {
    (e: Entry) => e.kind != Deposit && e.kind != Payout
  }

  function DepositsOf(who: nat -> bool): Entry -> bool {
    (e: Entry) => e.kind == Deposit && e.account.Some? && who(e.account.value)
  }

  function SettledSats(invoices: seq<Invoice>, who: nat -> bool): int {
    if |invoices| == 0 then 0
    else
      var last := invoices[|invoices| - 1];
      SettledSats(invoices[..|invoices| - 1], who) + if last.settled && who(last.account) then last.sats else 0
  }

  function Payouts(db: Db): seq<int> {
    seq(|db.machines|, m requires 0 <= m < |db.machines| => db.machines[m].payoutBalance)
  }

  // ---- the invariants ------------------------------------------------------

  /** Only charges take from an account, and a charge always takes. */
  ghost predicate Signed(l: seq<Entry>) {
    forall e :: e in l && e.account.Some? ==> if e.kind == RentalCharge then e.delta < 0 else e.delta >= 0
  }

  ghost predicate AccountBooks(db: Db) {
    && (forall a :: 0 <= a < |db.balances| ==>
          db.balances[a] == Sum(db.ledger, OfAccount(a)) && db.balances[a] >= 0)
    && (forall i :: 0 <= i < |db.invoices| ==> db.invoices[i].sats >= 1)
    && Signed(db.ledger)
  }

  ghost predicate HostBooks(db: Db) {
    forall m :: 0 <= m < |db.machines| ==>
      db.machines[m].payoutBalance == Sum(db.ledger, OfMachine(m)) && db.machines[m].payoutBalance >= 0
  }

  /** Every row belongs to exactly one party, and internal rows cancel. */
  ghost predicate DoubleEntry(db: Db) {
    && (forall e :: e in db.ledger ==>
          && (e.account.Some? <==> e.machine.None?)
          && (e.kind == Deposit ==> e.account.Some?)
          && (e.account.Some? ==> e.account.value < |db.balances|)
          && (e.machine.Some? ==> e.machine.value < |db.machines|))
    && Sum(db.ledger, Internal()) == 0
  }

  ghost predicate DepositBooks(db: Db) {
    forall who: nat -> bool :: Sum(db.ledger, DepositsOf(who)) == SettledSats(db.invoices, who)
  }

  ghost predicate AllBooks(db: Db) {
    AccountBooks(db) && HostBooks(db) && DoubleEntry(db) && DepositBooks(db)
  }

  /** A payout whose amount was read before someone else changed the host's balance. */
  predicate StalePayout(db: Db, tx: Tx) {
    tx.PayOut? && tx.machine < |db.machines| && tx.seen != db.machines[tx.machine].payoutBalance
  }

  /** Crediting an invoice that is already credited. */
  predicate SecondCredit(db: Db, tx: Tx) {
    tx.SettleInvoice? && tx.invoice < |db.invoices| && db.invoices[tx.invoice].settled
  }

  function SoundMoney(): (Db, Tx) -> bool {
    (db: Db, tx: Tx) => !StalePayout(db, tx) && !SecondCredit(db, tx)
  }

  // ---- what one transaction posts ------------------------------------------

  function Posted(db: Db, tx: Tx): seq<Entry>
    requires WellFormed(db) && Legal(db, tx)
  {
    match tx
    case Report(r, ip, report, true, at) =>
      var row := db.rentals[r];
      var charge := ChargeAt(db, r, at);
      if charge > 0 then ChargePair(at, row.account, row.machine, r, charge) else []
    case EvictRental(r, at) => [Entry(at, Evict, 0, Some(db.rentals[r].account), None, Some(r))]
    case SettleInvoice(i, at) =>
      [Entry(at, Deposit, db.invoices[i].sats, Some(db.invoices[i].account), None, None)]
    case PayOut(m, seen, at) => [Entry(at, Payout, -seen, None, Some(m), None)]
    case _ => []
  }

  lemma SumOfPair(ts: int, a: nat, m: nat, r: nat, sats: int, p: Entry -> bool)
    ensures var pair := ChargePair(ts, a, m, r, sats);
            Sum(pair, p) == (if p(pair[0]) then pair[0].delta else 0) + (if p(pair[1]) then pair[1].delta else 0)
  {
    var pair := ChargePair(ts, a, m, r, sats);
    assert pair[..1] == [pair[0]] && pair[..1][..0] == [];
    assert Sum(pair, p) == Sum(pair[..1], p) + if p(pair[1]) then pair[1].delta else 0;
  }

  /**
   The double entry of one transaction: it appends exactly `Posted`, every account moves by the
   rows posted to it, and so does every host unless the transaction is a stale payout.
   */
  lemma PostedRows(db: Db, tx: Tx)
    requires WellFormed(db) && Legal(db, tx)
    ensures Apply(db, tx).ledger == db.ledger + Posted(db, tx)
    ensures Sum(Posted(db, tx), Internal()) == 0
  {
    if tx.Report? && tx.settle {
      var row := db.rentals[tx.rental];
      SumOfPair(tx.at, row.account, row.machine, tx.rental, ChargeAt(db, tx.rental, tx.at), Internal());
    }
  }

  lemma AccountPosting(db: Db, tx: Tx, a: nat)
    requires WellFormed(db) && Legal(db, tx)
    requires a < |Apply(db, tx).balances|
    ensures Apply(db, tx).balances[a] ==
              (if a < |db.balances| then db.balances[a] else 0) + Sum(Posted(db, tx), OfAccount(a))
  {
    if tx.Report? && tx.settle {
      var row := db.rentals[tx.rental];
      SumOfPair(tx.at, row.account, row.machine, tx.rental, ChargeAt(db, tx.rental, tx.at), OfAccount(a));
    }
  }

  /** What a payout takes beyond the balance it finds, because the balance it read has changed. */
  function Overpaid(db: Db, tx: Tx, m: nat): int {
    if tx.PayOut? && tx.machine == m && m < |db.machines| then tx.seen - db.machines[m].payoutBalance else 0
  }

  function Owed(db: Db, m: nat): int {
    if m < |db.machines| then db.machines[m].payoutBalance else 0
  }

  lemma HostPosting(db: Db, tx: Tx, m: nat)
    requires WellFormed(db) && Legal(db, tx)
    ensures Owed(Apply(db, tx), m) == Owed(db, m) + Sum(Posted(db, tx), OfMachine(m)) + Overpaid(db, tx, m)
    ensures Overpaid(db, tx, m) != 0 <==> StalePayout(db, tx) && m == tx.machine
  {
    if tx.Report? && tx.settle {
      var row := db.rentals[tx.rental];
      SumOfPair(tx.at, row.account, row.machine, tx.rental, ChargeAt(db, tx.rental, tx.at), OfMachine(m));
    }
  }

  lemma {:induction false} NoRows(l: seq<Entry>, p: Entry -> bool)
    requires forall e :: e in l ==> !p(e)
    ensures Sum(l, p) == 0
  {
    if |l| > 0 {
      assert l[|l| - 1] in l;
      NoRows(l[..|l| - 1], p);
    }
  }

  lemma {:induction false} SettleOne(invoices: seq<Invoice>, i: nat, who: nat -> bool)
    requires i < |invoices| && !invoices[i].settled
    ensures SettledSats(invoices[i := invoices[i].(settled := true)], who)
         == SettledSats(invoices, who) + if who(invoices[i].account) then invoices[i].sats else 0
  {
    var n := |invoices| - 1;
    var settled := invoices[i := invoices[i].(settled := true)];
    if i < n {
      assert settled[..n] == invoices[..n][i := invoices[i].(settled := true)];
      SettleOne(invoices[..n], i, who);
    } else {
      assert settled[..n] == invoices[..n];
    }
  }

  // ---- one step keeps the books --------------------------------------------

  lemma DoubleEntryStep(db: Db, tx: Tx)
    requires WellFormed(db) && Legal(db, tx) && DoubleEntry(db)
    ensures DoubleEntry(Apply(db, tx))
  {
    PostedRows(db, tx);
    ApplyExtends(db, tx);
    SumAppend(db.ledger, Posted(db, tx), Internal());
  }

  lemma PostedSigned(db: Db, tx: Tx)
    requires WellFormed(db) && Legal(db, tx)
    requires forall i :: 0 <= i < |db.invoices| ==> db.invoices[i].sats >= 1
    ensures Signed(Posted(db, tx))
  {
  }

  lemma InvoicesStayPositive(db: Db, tx: Tx)
    requires WellFormed(db) && Legal(db, tx)
    requires forall i :: 0 <= i < |db.invoices| ==> db.invoices[i].sats >= 1
    ensures forall i :: 0 <= i < |Apply(db, tx).invoices| ==> Apply(db, tx).invoices[i].sats >= 1
  {
  }

  lemma BalanceNotNegative(db: Db, tx: Tx, a: nat)
    requires WellFormed(db) && Legal(db, tx) && a < |Apply(db, tx).balances|
    requires forall c :: 0 <= c < |db.balances| ==> db.balances[c] >= 0
    requires forall i :: 0 <= i < |db.invoices| ==> db.invoices[i].sats >= 1
    ensures Apply(db, tx).balances[a] >= 0
  {
  }

  lemma AccountBooksStep(db: Db, tx: Tx)
    requires WellFormed(db) && Legal(db, tx)
    requires AccountBooks(db) && DoubleEntry(db)
    ensures AccountBooks(Apply(db, tx))
  {
    PostedRows(db, tx);
    PostedSigned(db, tx);
    InvoicesStayPositive(db, tx);
    var later := Apply(db, tx);
    forall a | 0 <= a < |later.balances|
      ensures later.balances[a] == Sum(later.ledger, OfAccount(a)) && later.balances[a] >= 0
    {
      AccountPosting(db, tx, a);
      SumAppend(db.ledger, Posted(db, tx), OfAccount(a));
      if a >= |db.balances| {
        NoRows(db.ledger, OfAccount(a));
      }
      BalanceNotNegative(db, tx, a);
    }
  }

  ghost predicate NonNegative(db: Db) {
    && (forall a :: 0 <= a < |db.balances| ==> db.balances[a] >= 0)
    && (forall m :: 0 <= m < |db.machines| ==> db.machines[m].payoutBalance >= 0)
    && (forall i :: 0 <= i < |db.invoices| ==> db.invoices[i].sats >= 1)
  }

  /** The custodial cap: no transaction, fresh or stale, takes more than is there, at any rate. */
  lemma NeverNegative(db: Db, tx: Tx)
    requires WellFormed(db) && Legal(db, tx) && NonNegative(db)
    ensures NonNegative(Apply(db, tx))
  {
    InvoicesStayPositive(db, tx);
    forall a: nat | a < |Apply(db, tx).balances| ensures Apply(db, tx).balances[a] >= 0 {
      BalanceNotNegative(db, tx, a);
    }
    HostsNeverNegative(db, tx);
  }

  lemma HostsNeverNegative(db: Db, tx: Tx)
    requires WellFormed(db) && Legal(db, tx)
    requires forall m :: 0 <= m < |db.machines| ==> db.machines[m].payoutBalance >= 0
    ensures forall m :: 0 <= m < |Apply(db, tx).machines| ==> Apply(db, tx).machines[m].payoutBalance >= 0
  {
  }

  /** No balance is ever negative: under every interleaving, for any reports and any rates. */
  lemma {:induction false} NeverNegativeAlong(db: Db, txs: seq<Tx>)
    requires WellFormed(db) && Run(db, txs) && NonNegative(db)
    ensures NonNegative(After(db, txs))
    decreases |txs|
  {
    if |txs| > 0 {
      StaysWellFormed(db, txs[0]);
      NeverNegative(db, txs[0]);
      NeverNegativeAlong(Apply(db, txs[0]), txs[1..]);
    }
  }

  /** A host's balance keeps agreeing with the ledger exactly when the transaction is not a stale payout. */
  lemma HostBooksStep(db: Db, tx: Tx)
    requires WellFormed(db) && Legal(db, tx)
    requires HostBooks(db) && DoubleEntry(db)
    ensures HostBooks(Apply(db, tx)) <==> !StalePayout(db, tx)
  {
    PostedRows(db, tx);
    HostsNeverNegative(db, tx);
    var later := Apply(db, tx);
    var posted := Posted(db, tx);
    forall m | 0 <= m < |later.machines|
      ensures later.machines[m].payoutBalance == Sum(later.ledger, OfMachine(m)) <==>
                !(StalePayout(db, tx) && m == tx.machine)
      ensures later.machines[m].payoutBalance >= 0
    {
      HostPosting(db, tx, m);
      SumAppend(db.ledger, posted, OfMachine(m));
      if m >= |db.machines| {
        NoRows(db.ledger, OfMachine(m));
      }
    }
    if StalePayout(db, tx) {
      assert tx.machine < |later.machines|;
    }
  }

  /** Deposits keep agreeing with the settled invoices exactly when no invoice is credited twice. */
  lemma DepositBooksStep(db: Db, tx: Tx)
    requires WellFormed(db) && Legal(db, tx)
    requires AccountBooks(db) && DepositBooks(db)
    ensures DepositBooks(Apply(db, tx)) <==> !SecondCredit(db, tx)
  {
    PostedRows(db, tx);
    var later := Apply(db, tx);
    var posted := Posted(db, tx);
    if SecondCredit(db, tx) {
      var i := tx.invoice;
      assert later.invoices == db.invoices;
      SumAppend(db.ledger, posted, DepositsOf(AnyAccount()));
      assert Sum(posted, DepositsOf(AnyAccount())) == db.invoices[i].sats;
      assert Sum(later.ledger, DepositsOf(AnyAccount())) != SettledSats(later.invoices, AnyAccount());
    } else {
      forall who: nat -> bool
        ensures Sum(later.ledger, DepositsOf(who)) == SettledSats(later.invoices, who)
      {
        DepositsStep(db, tx, who);
      }
    }
  }

  function AnyAccount(): nat -> bool {
    (a: nat) => true
  }

  lemma DepositsStep(db: Db, tx: Tx, who: nat -> bool)
    requires WellFormed(db) && Legal(db, tx) && !SecondCredit(db, tx)
    requires Sum(db.ledger, DepositsOf(who)) == SettledSats(db.invoices, who)
    ensures Sum(Apply(db, tx).ledger, DepositsOf(who)) == SettledSats(Apply(db, tx).invoices, who)
  {
    DepositGapStep(db, tx, who);
  }

  // ---- runs ----------------------------------------------------------------

  /** Under every interleaving of every handler, account balances match the ledger and stay nonnegative. */
  lemma {:induction false} AccountBooksHold(db: Db, txs: seq<Tx>)
    requires WellFormed(db) && Run(db, txs)
    requires AccountBooks(db) && DoubleEntry(db)
    ensures AccountBooks(After(db, txs)) && DoubleEntry(After(db, txs))
    decreases |txs|
  {
    if |txs| > 0 {
      StaysWellFormed(db, txs[0]);
      AccountBooksStep(db, txs[0]);
      DoubleEntryStep(db, txs[0]);
      AccountBooksHold(Apply(db, txs[0]), txs[1..]);
    }
  }

  function SingleCredit(): (Db, Tx) -> bool {
    (db: Db, tx: Tx) => !SecondCredit(db, tx)
  }

  lemma {:induction false} DepositBooksHold(db: Db, txs: seq<Tx>)
    requires WellFormed(db) && Run(db, txs) && Along(db, txs, SingleCredit())
    requires AccountBooks(db) && DoubleEntry(db) && DepositBooks(db)
    ensures DepositBooks(After(db, txs))
    decreases |txs|
  {
    if |txs| > 0 {
      StaysWellFormed(db, txs[0]);
      AccountBooksStep(db, txs[0]);
      DoubleEntryStep(db, txs[0]);
      DepositBooksStep(db, txs[0]);
      DepositBooksHold(Apply(db, txs[0]), txs[1..]);
    }
  }

  lemma {:induction false} AllBooksHold(db: Db, txs: seq<Tx>)
    requires WellFormed(db) && Run(db, txs)
    requires Along(db, txs, SoundMoney())
    requires AllBooks(db)
    ensures AllBooks(After(db, txs))
    decreases |txs|
  {
    if |txs| > 0 {
      StaysWellFormed(db, txs[0]);
      AccountBooksStep(db, txs[0]);
      DoubleEntryStep(db, txs[0]);
      HostBooksStep(db, txs[0]);
      DepositBooksStep(db, txs[0]);
      AllBooksHold(Apply(db, txs[0]), txs[1..]);
    }
  }

  // ---- the whole-system totals ---------------------------------------------

  function AccountSums(l: seq<Entry>, n: nat): seq<int> {
    seq(n, a requires 0 <= a < n => Sum(l, OfAccount(a)))
  }

  function MachineSums(l: seq<Entry>, n: nat): seq<int> {
    seq(n, m requires 0 <= m < n => Sum(l, OfMachine(m)))
  }

  lemma {:induction false} ZeroTotal(s: seq<int>)
    requires forall i :: 0 <= i < |s| ==> s[i] == 0
    ensures Total(s) == 0
  {
    TotalNonNegative(s);
  }

  lemma {:induction false} SumByParty(l: seq<Entry>, accounts: nat, machines: nat)
    requires forall e :: e in l ==>
               && (e.account.Some? <==> e.machine.None?)
               && (e.account.Some? ==> e.account.value < accounts)
               && (e.machine.Some? ==> e.machine.value < machines)
    ensures Sum(l, Everything()) == Total(AccountSums(l, accounts)) + Total(MachineSums(l, machines))
  {
    if |l| == 0 {
      ZeroTotal(AccountSums(l, accounts));
      ZeroTotal(MachineSums(l, machines));
    } else {
      var init, e := l[..|l| - 1], l[|l| - 1];
      assert e in l;
      SumByParty(init, accounts, machines);
      var before, beforeM := AccountSums(init, accounts), MachineSums(init, machines);
      if e.account.Some? {
        var a := e.account.value;
        TotalUpdate(before, a, before[a] + e.delta);
        assert AccountSums(l, accounts) == before[a := before[a] + e.delta];
        assert MachineSums(l, machines) == beforeM;
      } else {
        var m := e.machine.value;
        TotalUpdate(beforeM, m, beforeM[m] + e.delta);
        assert MachineSums(l, machines) == beforeM[m := beforeM[m] + e.delta];
        assert AccountSums(l, accounts) == before;
      }
    }
  }

  lemma {:induction false} SumByKind(l: seq<Entry>)
    requires forall e :: e in l && e.kind == Deposit ==> e.account.Some?
    ensures Sum(l, Everything()) == Sum(l, DepositsOf(AnyAccount())) + Sum(l, OfKind(Payout)) + Sum(l, Internal())
  {
    if |l| > 0 {
      assert l[|l| - 1] in l;
      SumByKind(l[..|l| - 1]);
    }
  }

  /**
   The ledger's total is what the system holds for its tenants and hosts, and what came in less
   what was paid out. It is zero exactly when every balance is drained.
   */
  lemma LedgerTotal(db: Db)
    requires WellFormed(db) && AllBooks(db)
    ensures Sum(db.ledger, Everything()) == Total(db.balances) + Total(Payouts(db))
    ensures Sum(db.ledger, Everything()) == SettledSats(db.invoices, AnyAccount()) + Sum(db.ledger, OfKind(Payout))
    ensures Sum(db.ledger, Everything()) >= 0
    ensures Sum(db.ledger, Everything()) == 0 <==>
              && (forall a :: 0 <= a < |db.balances| ==> db.balances[a] == 0)
              && (forall m :: 0 <= m < |db.machines| ==> db.machines[m].payoutBalance == 0)
  {
    SumByParty(db.ledger, |db.balances|, |db.machines|);
    assert db.balances == AccountSums(db.ledger, |db.balances|);
    assert Payouts(db) == MachineSums(db.ledger, |db.machines|);
    TotalNonNegative(db.balances);
    TotalNonNegative(Payouts(db));
    SumByKind(db.ledger);
    assert forall m :: 0 <= m < |db.machines| ==> db.machines[m].payoutBalance == Payouts(db)[m];
  }

  /** Conservation over every run from the empty database, at transaction granularity. */
  lemma Conservation(txs: seq<Tx>)
    requires Run(EMPTY, txs) && Along(EMPTY, txs, SoundMoney())
    ensures var db := After(EMPTY, txs);
            && AllBooks(db)
            && Sum(db.ledger, Everything()) == Total(db.balances) + Total(Payouts(db))
            && Sum(db.ledger, Everything()) == SettledSats(db.invoices, AnyAccount()) + Sum(db.ledger, OfKind(Payout))
            && (Sum(db.ledger, Everything()) == 0 <==>
                  && (forall a :: 0 <= a < |db.balances| ==> db.balances[a] == 0)
                  && (forall m :: 0 <= m < |db.machines| ==> db.machines[m].payoutBalance == 0))
  {
    AllBooksHold(EMPTY, txs);
    LedgerTotal(After(EMPTY, txs));
  }

  /** Handlers that each execute atomically never pay or credit twice, so their runs conserve. */
  lemma AtomicConservation(txs: seq<Tx>)
    requires AtomicRun(EMPTY, txs)
    ensures var db := After(EMPTY, txs);
            && AllBooks(db)
            && Sum(db.ledger, Everything()) == Total(db.balances) + Total(Payouts(db))
            && Sum(db.ledger, Everything()) == SettledSats(db.invoices, AnyAccount()) + Sum(db.ledger, OfKind(Payout))
  {
    AlongWeaken(EMPTY, txs, IsFresh(), SoundMoney());
    Conservation(txs);
  }

  // ---- the exact totals of every run ---------------------------------------

  ghost function Excess(db: Db, txs: seq<Tx>, m: nat): int
    requires WellFormed(db) && Run(db, txs)
    decreases |txs|
  {
    if |txs| == 0 then 0
    else
      StaysWellFormed(db, txs[0]);
      Overpaid(db, txs[0], m) + Excess(Apply(db, txs[0]), txs[1..], m)
  }

  lemma HostGapStep(db: Db, tx: Tx, m: nat)
    requires WellFormed(db) && Legal(db, tx)
    ensures Owed(Apply(db, tx), m) - Sum(Apply(db, tx).ledger, OfMachine(m)) ==
              Owed(db, m) - Sum(db.ledger, OfMachine(m)) + Overpaid(db, tx, m)
  {
    PostedRows(db, tx);
    HostPosting(db, tx, m);
    SumAppend(db.ledger, Posted(db, tx), OfMachine(m));
  }

  /** Over every run, a host's balance leaves its rows by exactly what its stale payouts overpaid. */
  lemma {:induction false} HostGap(db: Db, txs: seq<Tx>, m: nat)
    requires WellFormed(db) && Run(db, txs)
    ensures Owed(After(db, txs), m) - Sum(After(db, txs).ledger, OfMachine(m)) ==
              Owed(db, m) - Sum(db.ledger, OfMachine(m)) + Excess(db, txs, m)
    decreases |txs|
  {
    if |txs| > 0 {
      var tx, rest := txs[0], txs[1..];
      StaysWellFormed(db, tx);
      var next := Apply(db, tx);
      HostGapStep(db, tx, m);
      HostGap(next, rest, m);
      assert After(db, txs) == After(next, rest);
    }
  }

  function Recredited(db: Db, tx: Tx, who: nat -> bool): int {
    if SecondCredit(db, tx) && who(db.invoices[tx.invoice].account) then db.invoices[tx.invoice].sats else 0
  }

  ghost function Recredits(db: Db, txs: seq<Tx>, who: nat -> bool): int
    requires WellFormed(db) && Run(db, txs)
    decreases |txs|
  {
    if |txs| == 0 then 0
    else
      StaysWellFormed(db, txs[0]);
      Recredited(db, txs[0], who) + Recredits(Apply(db, txs[0]), txs[1..], who)
  }

  lemma SettledStep(db: Db, tx: Tx, who: nat -> bool)
    requires WellFormed(db) && Legal(db, tx)
    ensures SettledSats(Apply(db, tx).invoices, who) == SettledSats(db.invoices, who) + Credited(db, tx, who) - Recredited(db, tx, who)
  {
    match tx
    case SettleInvoice(i, _) =>
      if db.invoices[i].settled {
        assert Apply(db, tx).invoices == db.invoices;
      } else {
        SettleOne(db.invoices, i, who);
      }
    case IssueInvoice(a, sats) =>
      assert Apply(db, tx).invoices[..|db.invoices|] == db.invoices;
    case _ =>
  }

  function Credited(db: Db, tx: Tx, who: nat -> bool): int
    requires Legal(db, tx)
  {
    if tx.SettleInvoice? && who(db.invoices[tx.invoice].account) then db.invoices[tx.invoice].sats else 0
  }

  lemma PostedDeposits(db: Db, tx: Tx, who: nat -> bool)
    requires WellFormed(db) && Legal(db, tx)
    ensures Sum(Posted(db, tx), DepositsOf(who)) == Credited(db, tx, who)
  {
    if !tx.SettleInvoice? {
      NoRows(Posted(db, tx), DepositsOf(who));
    }
  }

  lemma DepositGapStep(db: Db, tx: Tx, who: nat -> bool)
    requires WellFormed(db) && Legal(db, tx)
    ensures Sum(Apply(db, tx).ledger, DepositsOf(who)) - SettledSats(Apply(db, tx).invoices, who) ==
              Sum(db.ledger, DepositsOf(who)) - SettledSats(db.invoices, who) + Recredited(db, tx, who)
  {
    PostedRows(db, tx);
    SumAppend(db.ledger, Posted(db, tx), DepositsOf(who));
    PostedDeposits(db, tx, who);
    SettledStep(db, tx, who);
  }

  /** Over every run, deposits leave the settled invoices by exactly what was credited again. */
  lemma {:induction false} DepositGap(db: Db, txs: seq<Tx>, who: nat -> bool)
    requires WellFormed(db) && Run(db, txs)
    ensures Sum(After(db, txs).ledger, DepositsOf(who)) - SettledSats(After(db, txs).invoices, who) ==
              Sum(db.ledger, DepositsOf(who)) - SettledSats(db.invoices, who) + Recredits(db, txs, who)
    decreases |txs|
  {
    if |txs| > 0 {
      var tx, rest := txs[0], txs[1..];
      StaysWellFormed(db, tx);
      var next := Apply(db, tx);
      DepositGapStep(db, tx, who);
      DepositGap(next, rest, who);
      assert After(db, txs) == After(next, rest);
    }
  }

  ghost function Excesses(txs: seq<Tx>, machines: nat): seq<int>
    requires Run(EMPTY, txs)
  {
    seq(machines, m requires 0 <= m < machines => Excess(EMPTY, txs, m))
  }

  lemma {:induction false} TotalSplits(s: seq<int>, t: seq<int>, u: seq<int>)
    requires |s| == |t| == |u| && forall i :: 0 <= i < |s| ==> s[i] == t[i] + u[i]
    ensures Total(s) == Total(t) + Total(u)
  {
    if |s| > 0 {
      var n := |s| - 1;
      TotalSplits(s[..n], t[..n], u[..n]);
    }
  }

  lemma HeldTotal(db: Db, excess: seq<int>)
    requires AccountBooks(db) && DoubleEntry(db) && |excess| == |db.machines|
    requires forall m :: 0 <= m < |db.machines| ==>
               db.machines[m].payoutBalance == Sum(db.ledger, OfMachine(m)) + excess[m]
    ensures Total(db.balances) + Total(Payouts(db)) == Sum(db.ledger, Everything()) + Total(excess)
  {
    SumByParty(db.ledger, |db.balances|, |db.machines|);
    assert db.balances == AccountSums(db.ledger, |db.balances|);
    TotalSplits(Payouts(db), MachineSums(db.ledger, |db.machines|), excess);
  }

  lemma EachHost(txs: seq<Tx>)
    requires Run(EMPTY, txs)
    ensures var db := After(EMPTY, txs);
            forall m :: 0 <= m < |db.machines| ==>
              db.machines[m].payoutBalance == Sum(db.ledger, OfMachine(m)) + Excess(EMPTY, txs, m)
  {
    var db := After(EMPTY, txs);
    forall m | 0 <= m < |db.machines|
      ensures db.machines[m].payoutBalance == Sum(db.ledger, OfMachine(m)) + Excess(EMPTY, txs, m)
    {
      HostGap(EMPTY, txs, m);
    }
  }

  lemma CameInLessPaidOut(txs: seq<Tx>)
    requires Run(EMPTY, txs) && DoubleEntry(After(EMPTY, txs))
    ensures var db := After(EMPTY, txs);
            Sum(db.ledger, Everything()) ==
              SettledSats(db.invoices, AnyAccount()) + Recredits(EMPTY, txs, AnyAccount()) + Sum(db.ledger, OfKind(Payout))
  {
    DepositGap(EMPTY, txs, AnyAccount());
    SumByKind(After(EMPTY, txs).ledger);
  }

  /**
   Conservation over every run with no assumption at all: what the system holds is its ledger's
   total and what stale payouts overpaid, and the ledger's total is what came in, counting every
   credit, less what was paid out.
   */
  lemma ExactConservation(txs: seq<Tx>)
    requires Run(EMPTY, txs)
    ensures AccountBooks(After(EMPTY, txs)) && DoubleEntry(After(EMPTY, txs)) && NonNegative(After(EMPTY, txs))
    ensures var db := After(EMPTY, txs);
            && Total(db.balances) + Total(Payouts(db)) ==
                 Sum(db.ledger, Everything()) + Total(Excesses(txs, |db.machines|))
            && Sum(db.ledger, Everything()) ==
                 SettledSats(db.invoices, AnyAccount()) + Recredits(EMPTY, txs, AnyAccount())
                 + Sum(db.ledger, OfKind(Payout))
  {
    AccountBooksHold(EMPTY, txs);
    NeverNegativeAlong(EMPTY, txs);
    EachHost(txs);
    CameInLessPaidOut(txs);
    var db := After(EMPTY, txs);
    HeldTotal(db, Excesses(txs, |db.machines|));
  }

  // ---- what a ledger row says ----------------------------------------------

  /** Which columns a row of each kind fills, and the sign of what it moves. */
  predicate Shaped(e: Entry) {
    match e.kind
    case Deposit => e.account.Some? && e.machine.None? && e.rental.None? && e.delta >= 1
    case RentalCharge => e.account.Some? && e.machine.None? && e.rental.Some? && e.delta <= -1
    case HostCredit => e.account.None? && e.machine.Some? && e.rental.Some? && e.delta >= 1
    case Payout => e.account.None? && e.machine.Some? && e.rental.None? && e.delta <= -1
    case Evict => e.account.Some? && e.machine.None? && e.rental.Some? && e.delta == 0
  }

  /** The request a row is a record of, and its time. */
  predicate Records(e: Entry, tx: Tx) {
    match tx
    case Report(r, _, _, settle, at) =>
      settle && e.ts == at && e.rental == Some(r) && (e.kind == RentalCharge || e.kind == HostCredit)
    case EvictRental(r, at) => e.ts == at && e.rental == Some(r) && e.kind == Evict
    case SettleInvoice(_, at) => e.ts == at && e.kind == Deposit
    case PayOut(m, seen, at) => e.ts == at && e.kind == Payout && e.machine == Some(m) && e.delta == -seen
    case _ => false
  }

  lemma PostedRecords(db: Db, tx: Tx)
    requires WellFormed(db) && Legal(db, tx)
    requires forall i :: 0 <= i < |db.invoices| ==> db.invoices[i].sats >= 1
    ensures forall e :: e in Posted(db, tx) ==> Shaped(e) && Records(e, tx)
  {
  }

  /** Every row of the ledger has its kind's shape and records, at its time, a transaction of the run. */
  lemma {:induction false} LedgerRecords(db: Db, txs: seq<Tx>)
    requires WellFormed(db) && Run(db, txs)
    requires forall i :: 0 <= i < |db.invoices| ==> db.invoices[i].sats >= 1
    ensures forall e :: e in After(db, txs).ledger ==>
              e in db.ledger || (Shaped(e) && exists i :: 0 <= i < |txs| && Records(e, txs[i]))
    decreases |txs|
  {
    if |txs| > 0 {
      var tx, rest := txs[0], txs[1..];
      StaysWellFormed(db, tx);
      var next := Apply(db, tx);
      assert After(db, txs) == After(next, rest);
      PostedRows(db, tx);
      PostedRecords(db, tx);
      InvoicesStayPositive(db, tx);
      LedgerRecords(next, rest);
      forall e | e in After(next, rest).ledger && e !in db.ledger
        ensures Shaped(e) && exists i :: 0 <= i < |txs| && Records(e, txs[i])
      {
        if e in next.ledger {
          assert Records(e, txs[0]);
        } else {
          var i :| 0 <= i < |rest| && Records(e, rest[i]);
          assert Records(e, txs[i + 1]);
        }
      }
    }
  }

  /** An invoice keeps the account and the amount it was issued for. */
  lemma InvoiceKept(db: Db, a: nat, sats: int, issued: Db, txs: seq<Tx>)
    requires WellFormed(db) && Legal(db, IssueInvoice(a, sats)) && issued == Apply(db, IssueInvoice(a, sats))
    requires WellFormed(issued) && Run(issued, txs)
    ensures var later := After(issued, txs);
            && |db.invoices| < |later.invoices| && a < |later.balances|
            && later.invoices[|db.invoices|].account == a && later.invoices[|db.invoices|].sats == sats
  {
    assert issued.invoices[|db.invoices|] == Invoice(a, sats, false);
    RunExtends(issued, txs);
  }

  lemma Settling(db: Db, i: nat, at: int)
    requires WellFormed(db) && i < |db.invoices|
    ensures var invoice, later := db.invoices[i], Apply(db, SettleInvoice(i, at));
            && later.balances == db.balances[invoice.account := db.balances[invoice.account] + invoice.sats]
            && later.ledger == db.ledger + [Entry(at, Deposit, invoice.sats, Some(invoice.account), None, None)]
            && later.machines == db.machines && later.rentals == db.rentals && later.commands == db.commands
            && later.invoices == db.invoices[i := Invoice(invoice.account, invoice.sats, true)]
  {
  }

  /**
   A deposit from end to end: whatever runs in between, settling the invoice an account was issued
   credits that account by the amount asked for, records it, and moves nobody else's money.
   */
  lemma DepositArrives(db: Db, a: nat, sats: int, issued: Db, txs: seq<Tx>, before: Db, at: int)
    requires WellFormed(db) && Legal(db, IssueInvoice(a, sats)) && issued == Apply(db, IssueInvoice(a, sats))
    requires WellFormed(issued) && Run(issued, txs) && before == After(issued, txs)
    ensures Legal(before, SettleInvoice(|db.invoices|, at)) && a < |before.balances|
    ensures var later := Apply(before, SettleInvoice(|db.invoices|, at));
            && later.balances == before.balances[a := before.balances[a] + sats]
            && later.ledger == before.ledger + [Entry(at, Deposit, sats, Some(a), None, None)]
            && later.machines == before.machines
            && later.invoices == before.invoices[|db.invoices| := Invoice(a, sats, true)]
  {
    InvoiceKept(db, a, sats, issued, txs);
    Settling(before, |db.invoices|, at);
  }
}
