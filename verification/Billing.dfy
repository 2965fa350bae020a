/** Charges: their arithmetic, who pays them and how often, and the budget check that bounds them. */
module Billing {
  import opened Model
  import opened Tables
  import opened Database
  import opened Books

  // ---- the arithmetic of a charge ------------------------------------------

  /**
   The charge is the exact price rounded toward zero: at a nonnegative rate it never exceeds the
   price and falls short by less than one sat. `register` accepts any rate, so negative ones count.
   */
  lemma ChargeWithinOneSat(start: int, end: int, rate: int)
    ensures var exact, charged := Max(end - start, 0) * rate, 60 * AccruedCharge(start, end, rate);
            if rate >= 0 then 0 <= charged <= exact < charged + 60 else charged - 60 < exact <= charged <= 0
  {
    if rate >= 0 {
      assert Max(end - start, 0) * rate >= 0;
    } else {
      assert Max(end - start, 0) * -rate >= 0;
      assert Max(end - start, 0) * rate == -(Max(end - start, 0) * -rate);
    }
  }

  lemma Distribute(m: int, s: int, rate: int)
    requires 0 <= s <= 59 && rate >= 0
    ensures (60 * m + s) * rate == 60 * (m * rate) + s * rate
    ensures 0 <= s * rate <= 59 * rate
    ensures (m + 1) * rate == m * rate + rate
  {
    assert (59 - s) * rate >= 0;
  }

  /** Whole minutes are always covered by the charge, and one more never is. */
  lemma MinutesCovered(start: int, end: int, rate: int, minutes: int)
    requires rate >= 1 && 60 * minutes <= Max(end - start, 0) < 60 * minutes + 60
    ensures minutes * rate <= AccruedCharge(start, end, rate) < (minutes + 1) * rate
  {
    var elapsed := Max(end - start, 0);
    ChargeWithinOneSat(start, end, rate);
    Distribute(minutes, elapsed - 60 * minutes, rate);
  }

  /**
   `minutes_billed` is the whole minutes from creation to `at`: the accrued charge covers that many at
   the rental's rate, and not one more.
   */
  ghost predicate MinutesRight(row: Rental, at: int) {
    && 60 * row.minutesBilled <= Max(at - row.createdAt, 0) < 60 * row.minutesBilled + 60
    && (row.rate >= 1 ==>
          row.minutesBilled * row.rate <= AccruedCharge(row.createdAt, at, row.rate) < (row.minutesBilled + 1) * row.rate)
  }

  /** Settling writes down the whole minutes elapsed, which the accrued charge covers. */
  lemma ChargeCoversMinutes(db: Db, r: nat, at: int)
    requires WellFormed(db) && r < |db.rentals|
    ensures r < |SettleRental(db, r, at).rentals|
    ensures SameContract(db.rentals[r], SettleRental(db, r, at).rentals[r])
    ensures MinutesRight(SettleRental(db, r, at).rentals[r], at)
  {
    var row := SettleRental(db, r, at).rentals[r];
    if row.rate >= 1 {
      MinutesCovered(row.createdAt, at, row.rate, row.minutesBilled);
    }
  }

  function Pieces(cuts: seq<int>, rate: int): int {
    if |cuts| < 2 then 0
    else Pieces(cuts[..|cuts| - 1], rate) + AccruedCharge(cuts[|cuts| - 2], cuts[|cuts| - 1], rate)
  }

  lemma Products(x: int, y: int, z: int, rate: int)
    requires rate >= 0
    ensures z <= x + y ==> z * rate <= x * rate + y * rate
    ensures z == x + y ==> z * rate == x * rate + y * rate
  {
    assert x * rate + y * rate == (x + y) * rate;
    if z <= x + y {
      assert (x + y - z) * rate >= 0;
      assert (x + y - z) * rate == (x + y) * rate - z * rate;
    }
  }

  lemma SplitOnce(a: int, b: int, c: int, rate: int)
    requires b <= c && rate >= 0
    ensures AccruedCharge(a, c, rate) <= AccruedCharge(a, b, rate) + AccruedCharge(b, c, rate) + 1
    ensures a <= b ==> AccruedCharge(a, b, rate) + AccruedCharge(b, c, rate) <= AccruedCharge(a, c, rate)
  {
    ChargeWithinOneSat(a, b, rate);
    ChargeWithinOneSat(b, c, rate);
    ChargeWithinOneSat(a, c, rate);
    Products(Max(b - a, 0), c - b, Max(c - a, 0), rate);
  }

  /** Billing an interval in k consecutive pieces loses less than one sat per cut. */
  lemma {:induction false} SplitCharge(cuts: seq<int>, rate: int)
    requires |cuts| >= 2 && rate >= 0
    requires forall i, j :: 0 <= i <= j < |cuts| ==> cuts[i] <= cuts[j]
    ensures Pieces(cuts, rate) <= AccruedCharge(cuts[0], cuts[|cuts| - 1], rate) <= Pieces(cuts, rate) + |cuts| - 2
  {
    var n := |cuts| - 1;
    if n == 1 {
      assert Pieces(cuts[..1], rate) == 0;
    } else {
      SplitCharge(cuts[..n], rate);
      SplitOnce(cuts[0], cuts[n - 1], cuts[n], rate);
    }
  }

  const I64 := 0x1_0000_0000_0000_0000

  predicate Fits(x: int) {
    -I64 / 2 <= x < I64 / 2
  }

  /** The value a wrapping `i64` operation leaves. */
  function Wrap(x: int): int {
    (x + I64 / 2) % I64 - I64 / 2
  }

  /** `accrued_charge` in wrapping 64-bit arithmetic. */
  function AccruedChargeI64(start: int, end: int, rate: int): int {
    TruncDiv(Wrap(Max(Wrap(end - start), 0) * rate), 60)
  }

  lemma WrapIs(x: int)
    ensures Fits(Wrap(x)) && (Wrap(x) == x <==> Fits(x))
  {
  }

  /** Different multiples of 2^64 apart, truncated quotients differ. */
  lemma WrappedQuotient(x: int)
    ensures TruncDiv(Wrap(x), 60) == TruncDiv(x, 60) <==> Fits(x)
  {
    WrapIs(x);
  }

  /**
   The 64-bit charge is the true one exactly when the product fits, as long as the subtraction does,
   which it does for any two times since 1970. An interval too long to subtract is charged nothing.
   */
  lemma ChargeFitsI64(start: int, end: int, rate: int)
    requires Fits(start) && Fits(end) && Fits(rate)
    ensures start >= 0 && end >= 0 ==> Fits(end - start)
    ensures Fits(end - start) ==>
              (AccruedChargeI64(start, end, rate) == AccruedCharge(start, end, rate) <==> Fits(Max(end - start, 0) * rate))
    ensures end - start >= I64 / 2 ==> AccruedChargeI64(start, end, rate) == 0
  {
    WrapIs(end - start);
    WrappedQuotient(Max(end - start, 0) * rate);
  }

  // ---- how often a rental is charged ---------------------------------------

  datatype Bill = Bill(at: int, sats: int)

  function IsChargeOf(r: nat): Entry -> bool {
    (e: Entry) => e.rental == Some(r) && (e.kind == RentalCharge || e.kind == HostCredit)
  }

  function ChargeRows(db: Db, r: nat): seq<Entry> {
    Filter(db.ledger, IsChargeOf(r))
  }

  /** The bill one transaction issues to rental `r`, if any. */
  function BillOf(db: Db, tx: Tx, r: nat): seq<Bill>
    requires WellFormed(db) && Legal(db, tx)
  {
    if tx.Report? && tx.rental == r && tx.settle then [Bill(tx.at, ChargeAt(db, r, tx.at))] else []
  }

  ghost function Bills(db: Db, txs: seq<Tx>, r: nat): seq<Bill>
    requires WellFormed(db) && Run(db, txs)
    decreases |txs|
  {
    if |txs| == 0 then []
    else
      StaysWellFormed(db, txs[0]);
      BillOf(db, txs[0], r) + Bills(Apply(db, txs[0]), txs[1..], r)
  }

  /** The ledger rows a list of bills stands for: one debit/credit pair for each positive bill. */
  function BillRows(bills: seq<Bill>, account: nat, machine: nat, r: nat): seq<Entry> {
    if |bills| == 0 then []
    else
      (if bills[0].sats > 0 then ChargePair(bills[0].at, account, machine, r, bills[0].sats) else [])
      + BillRows(bills[1..], account, machine, r)
  }

  function ChargedSoFar(db: Db, r: nat): int {
    if r < |db.rentals| then db.rentals[r].satsCharged else 0
  }

  lemma BillPosts(db: Db, tx: Tx, r: nat)
    requires WellFormed(db) && Legal(db, tx)
    ensures Filter(Posted(db, tx), IsChargeOf(r)) ==
              if BillOf(db, tx, r) == [] then []
              else BillRows(BillOf(db, tx, r), db.rentals[r].account, db.rentals[r].machine, r)
  {
    var posted := Posted(db, tx);
    if |posted| == 2 {
      FilterAppend([posted[0]], [posted[1]], IsChargeOf(r));
      assert posted == [posted[0]] + [posted[1]];
    }
    if BillOf(db, tx, r) != [] {
      assert BillOf(db, tx, r)[1..] == [];
    }
  }

  lemma BillStep(db: Db, tx: Tx, r: nat, account: nat, machine: nat)
    requires WellFormed(db) && Legal(db, tx)
    requires r < |db.rentals| ==> db.rentals[r].account == account && db.rentals[r].machine == machine
    ensures var later, bill := Apply(db, tx), BillOf(db, tx, r);
            && ChargeRows(later, r) == ChargeRows(db, r) + BillRows(bill, account, machine, r)
            && ChargedSoFar(later, r) == LastCharge(ChargedSoFar(db, r), bill)
  {
    PostedRows(db, tx);
    FilterAppend(db.ledger, Posted(db, tx), IsChargeOf(r));
    BillPosts(db, tx, r);
    ReportCharges(db, tx, r);
  }

  lemma ReportCharges(db: Db, tx: Tx, r: nat)
    requires WellFormed(db) && Legal(db, tx)
    ensures ChargedSoFar(Apply(db, tx), r) ==
              if tx.Report? && tx.rental == r && tx.settle then ChargeAt(db, r, tx.at) else ChargedSoFar(db, r)
  {
  }

  lemma {:induction false} BillRowsAppend(a: seq<Bill>, b: seq<Bill>, account: nat, machine: nat, r: nat)
    ensures BillRows(a + b, account, machine, r) ==
              BillRows(a, account, machine, r) + BillRows(b, account, machine, r)
  {
    if |a| == 0 {
      assert a + b == b;
    } else {
      assert (a + b)[1..] == a[1..] + b;
      BillRowsAppend(a[1..], b, account, machine, r);
    }
  }

  lemma {:induction false} ChargesFollowBills(db: Db, txs: seq<Tx>, r: nat, account: nat, machine: nat)
    requires WellFormed(db) && Run(db, txs) && r < |After(db, txs).rentals|
    requires After(db, txs).rentals[r].account == account && After(db, txs).rentals[r].machine == machine
    ensures ChargeRows(After(db, txs), r) == ChargeRows(db, r) + BillRows(Bills(db, txs, r), account, machine, r)
    ensures ChargedSoFar(After(db, txs), r) == LastCharge(ChargedSoFar(db, r), Bills(db, txs, r))
    decreases |txs|
  {
    if |txs| == 0 {
      assert ChargeRows(db, r) + [] == ChargeRows(db, r);
    } else {
      var tx, rest := txs[0], txs[1..];
      StaysWellFormed(db, tx);
      var next := Apply(db, tx);
      assert After(db, txs) == After(next, rest);
      if r < |db.rentals| {
        RentalKept(db, txs, r);
      }
      BillStep(db, tx, r, account, machine);
      ChargesFollowBills(next, rest, r, account, machine);
      JoinBills(ChargeRows(db, r), BillOf(db, tx, r), Bills(next, rest, r), account, machine, r);
    }
  }

  function LastCharge(before: int, bills: seq<Bill>): int {
    if bills == [] then before else bills[|bills| - 1].sats
  }

  function MinutesSoFar(db: Db, r: nat): int {
    if r < |db.rentals| then db.rentals[r].minutesBilled else 0
  }

  /** The whole minutes between the rental's creation and its last bill. */
  ghost predicate MinutesUpTo(minutes: int, before: int, bills: seq<Bill>, createdAt: int) {
    if bills == [] then minutes == before
    else 60 * minutes <= Max(bills[|bills| - 1].at - createdAt, 0) < 60 * minutes + 60
  }

  lemma MinutesStep(db: Db, tx: Tx, r: nat, createdAt: int)
    requires WellFormed(db) && Legal(db, tx) && (r < |db.rentals| ==> db.rentals[r].createdAt == createdAt)
    ensures MinutesUpTo(MinutesSoFar(Apply(db, tx), r), MinutesSoFar(db, r), BillOf(db, tx, r), createdAt)
  {
  }

  lemma MinutesOnce(row: Rental, bills: seq<Bill>, at: int)
    requires MinutesUpTo(row.minutesBilled, 0, bills, row.createdAt) && |bills| == 1 && bills[0].at == at
    ensures MinutesRight(row, at)
  {
    if row.rate >= 1 {
      MinutesCovered(row.createdAt, at, row.rate, row.minutesBilled);
    }
  }

  lemma {:induction false} MinutesFollowBills(db: Db, txs: seq<Tx>, r: nat, createdAt: int)
    requires WellFormed(db) && Run(db, txs) && r < |After(db, txs).rentals|
    requires After(db, txs).rentals[r].createdAt == createdAt
    ensures MinutesUpTo(MinutesSoFar(After(db, txs), r), MinutesSoFar(db, r), Bills(db, txs, r), createdAt)
    decreases |txs|
  {
    if |txs| > 0 {
      var tx, rest := txs[0], txs[1..];
      StaysWellFormed(db, tx);
      var next := Apply(db, tx);
      assert After(db, txs) == After(next, rest);
      if r < |db.rentals| {
        RentalKept(db, txs, r);
      }
      MinutesStep(db, tx, r, createdAt);
      MinutesFollowBills(next, rest, r, createdAt);
      var first, more := BillOf(db, tx, r), Bills(next, rest, r);
      assert Bills(db, txs, r) == first + more;
      if more == [] {
        assert first + more == first;
      } else {
        assert (first + more)[|first + more| - 1] == more[|more| - 1];
      }
    }
  }

  lemma JoinBills(rows: seq<Entry>, a: seq<Bill>, b: seq<Bill>, account: nat, machine: nat, r: nat)
    ensures rows + BillRows(a + b, account, machine, r) ==
              (rows + BillRows(a, account, machine, r)) + BillRows(b, account, machine, r)
  {
    BillRowsAppend(a, b, account, machine, r);
  }

  /**
   In every run, whatever is interleaved with what, the charge rows of a rental are exactly its
   bills, in order, and `sats_charged` is the last bill.
   */
  lemma ChargesAreBills(txs: seq<Tx>, r: nat)
    requires Run(EMPTY, txs) && r < |After(EMPTY, txs).rentals|
    ensures var db, bills := After(EMPTY, txs), Bills(EMPTY, txs, r);
            && ChargeRows(db, r) == BillRows(bills, db.rentals[r].account, db.rentals[r].machine, r)
            && db.rentals[r].satsCharged == LastCharge(0, bills)
  {
    var row := After(EMPTY, txs).rentals[r];
    ChargesFollowBills(EMPTY, txs, r, row.account, row.machine);
  }

  predicate Ended(db: Db, r: nat) {
    r < |db.rentals| && db.rentals[r].status.IsTerminal()
  }

  /**
   What brings an ended rental back: a report of a live status, or a delete or an eviction that
   commits after the end it did not see.
   */
  predicate Revives(db: Db, tx: Tx, r: nat) {
    Ended(db, r) &&
    match tx
    case Report(s, _, report, _, _) => s == r && !report.status.IsTerminal()
    case RequestStop(s) => s == r
    case EvictRental(s, _) => s == r
    case _ => false
  }

  /** A terminal report that read the rental live settles it after another already has. */
  predicate BilledAgain(db: Db, tx: Tx, r: nat) {
    Ended(db, r) && tx.Report? && tx.rental == r && tx.settle
  }

  /** A terminal report that read the rental ended ends it without a bill, after it was brought back. */
  predicate EndsUnbilled(db: Db, tx: Tx, r: nat) {
    r < |db.rentals| && !Ended(db, r) && tx.Report? && tx.rental == r && tx.report.status.IsTerminal() && !tx.settle
  }

  function Reviving(r: nat): (Db, Tx) -> bool {
    (db: Db, tx: Tx) => Revives(db, tx, r)
  }

  function BillingAgain(r: nat): (Db, Tx) -> bool {
    (db: Db, tx: Tx) => BilledAgain(db, tx, r)
  }

  function EndingUnbilled(r: nat): (Db, Tx) -> bool {
    (db: Db, tx: Tx) => EndsUnbilled(db, tx, r)
  }

  function EndedCount(db: Db, r: nat): nat {
    if Ended(db, r) then 1 else 0
  }

  /** When a rental is ended and when it is billed, after any transaction, fresh or stale. */
  lemma EndsWhenBilled(db: Db, tx: Tx, r: nat)
    requires WellFormed(db) && Legal(db, tx)
    ensures Ended(Apply(db, tx), r) <==>
              (Ended(db, r) && !Revives(db, tx, r)) || BillOf(db, tx, r) != [] || EndsUnbilled(db, tx, r)
    ensures BillOf(db, tx, r) != [] ==> (BilledAgain(db, tx, r) <==> Ended(db, r))
    ensures BilledAgain(db, tx, r) ==> BillOf(db, tx, r) != [] && !Revives(db, tx, r)
    ensures EndsUnbilled(db, tx, r) ==> BillOf(db, tx, r) == []
    ensures Fresh(db, tx) ==> !BilledAgain(db, tx, r) && !EndsUnbilled(db, tx, r) && (Revives(db, tx, r) ==> tx.Report?)
  {
  }

  /**
   The exact count over every run, however its handlers interleave: a rental is billed once for each
   time it ends, once more for each settle that found it ended, and not for an end that went
   unsettled. So an ended rental has exactly one bill if and only if it was brought back and billed
   again, together, as often as it ended unbilled.
   */
  lemma {:induction false} OneBillPerEnding(db: Db, txs: seq<Tx>, r: nat)
    requires WellFormed(db) && Run(db, txs)
    ensures |Bills(db, txs, r)| + EndedCount(db, r) + Times(db, txs, EndingUnbilled(r)) ==
              Times(db, txs, Reviving(r)) + Times(db, txs, BillingAgain(r)) + EndedCount(After(db, txs), r)
    decreases |txs|
  {
    if |txs| > 0 {
      var tx, rest := txs[0], txs[1..];
      StaysWellFormed(db, tx);
      var next := Apply(db, tx);
      EndsWhenBilled(db, tx, r);
      OneBillPerEnding(next, rest, r);
      assert After(db, txs) == After(next, rest);
    }
  }

  /** Only bringing it back makes an ended rental live. */
  lemma {:induction false} StaysEnded(db: Db, txs: seq<Tx>, r: nat)
    requires WellFormed(db) && Run(db, txs) && Ended(db, r) && Times(db, txs, Reviving(r)) == 0
    ensures Ended(After(db, txs), r)
    decreases |txs|
  {
    if |txs| > 0 {
      StaysWellFormed(db, txs[0]);
      EndsWhenBilled(db, txs[0], r);
      StaysEnded(Apply(db, txs[0]), txs[1..], r);
    }
  }

  /** Nothing disturbs the rental's one ending. */
  function Undisturbed(r: nat): (Db, Tx) -> bool {
    (db: Db, tx: Tx) => !Revives(db, tx, r) && !BilledAgain(db, tx, r) && !EndsUnbilled(db, tx, r)
  }

  lemma UndisturbedCounts(db: Db, txs: seq<Tx>, r: nat)
    requires WellFormed(db) && Run(db, txs) && Along(db, txs, Undisturbed(r))
    ensures Times(db, txs, Reviving(r)) == Times(db, txs, BillingAgain(r)) == Times(db, txs, EndingUnbilled(r)) == 0
  {
    Never(db, txs, Undisturbed(r), Reviving(r));
    Never(db, txs, Undisturbed(r), BillingAgain(r));
    Never(db, txs, Undisturbed(r), EndingUnbilled(r));
  }

  /** Handlers that each execute atomically disturb an ending only by reporting the rental live again. */
  lemma {:induction false} AtomicUndisturbed(db: Db, txs: seq<Tx>, r: nat)
    requires WellFormed(db) && AtomicRun(db, txs) && Times(db, txs, Reviving(r)) == 0
    ensures Along(db, txs, Undisturbed(r))
    decreases |txs|
  {
    if |txs| > 0 {
      StaysWellFormed(db, txs[0]);
      EndsWhenBilled(db, txs[0], r);
      AtomicUndisturbed(Apply(db, txs[0]), txs[1..], r);
    }
  }

  /** So in a run of atomic handlers that never brings it back, a rental is billed exactly when it ends. */
  lemma BilledWhenItEnds(db: Db, txs: seq<Tx>, r: nat)
    requires WellFormed(db) && AtomicRun(db, txs) && Times(db, txs, Reviving(r)) == 0
    ensures |Bills(db, txs, r)| + EndedCount(db, r) == EndedCount(After(db, txs), r)
  {
    AtomicUndisturbed(db, txs, r);
    UndisturbedCounts(db, txs, r);
    OneBillPerEnding(db, txs, r);
  }

  predicate IsEnd(tx: Tx, r: nat) {
    tx.Report? && tx.rental == r && tx.report.status.IsTerminal()
  }

  /** The one bill of a run is issued by its first terminal report, on the state that report finds. */
  lemma {:induction false} FirstEnd(db: Db, txs: seq<Tx>, r: nat) returns (i: nat)
    requires WellFormed(db) && Run(db, txs) && Along(db, txs, Undisturbed(r))
    requires !Ended(db, r) && Ended(After(db, txs), r)
    ensures i < |txs| && IsEnd(txs[i], r) && forall j :: 0 <= j < i ==> !IsEnd(txs[j], r)
    ensures Run(db, txs[..i]) && r < |After(db, txs[..i]).rentals| && !Ended(After(db, txs[..i]), r)
    ensures Bills(db, txs, r) == [Bill(txs[i].at, ChargeAt(After(db, txs[..i]), r, txs[i].at))]
    decreases |txs|
  {
    var tx, rest := txs[0], txs[1..];
    StaysWellFormed(db, tx);
    var next := Apply(db, tx);
    EndsWhenBilled(db, tx, r);
    assert After(db, txs) == After(next, rest);
    if IsEnd(tx, r) {
      i := 0;
      UndisturbedCounts(next, rest, r);
      OneBillPerEnding(next, rest, r);
      StaysEnded(next, rest, r);
      assert Bills(next, rest, r) == [] && txs[..0] == [];
    } else {
      var k := FirstEnd(next, rest, r);
      i := k + 1;
      assert txs[..i][0] == tx && txs[..i][1..] == rest[..k];
      assert After(db, txs[..i]) == After(next, rest[..k]);
    }
  }

  /**
   A rental whose ending nothing disturbs: no charge while it lives, and from its first terminal
   report on exactly one, what it accrued by then capped at what its account held then, whatever
   else the run does.
   */
  lemma ChargedOnceAndExactly(txs: seq<Tx>, r: nat) returns (i: nat)
    requires Run(EMPTY, txs) && r < |After(EMPTY, txs).rentals|
    requires Along(EMPTY, txs, Undisturbed(r))
    ensures var db := After(EMPTY, txs);
            var row := db.rentals[r];
            if row.status.IsTerminal() then
              && i < |txs| && IsEnd(txs[i], r) && (forall j :: 0 <= j < i ==> !IsEnd(txs[j], r))
              && Run(EMPTY, txs[..i])
              && var found := After(EMPTY, txs[..i]);
                 && r < |found.rentals| && !Ended(found, r) && row.account < |found.balances|
                 && row.satsCharged ==
                      Min(AccruedCharge(row.createdAt, txs[i].at, row.rate), found.balances[row.account])
                 && ChargeRows(db, r) ==
                      if row.satsCharged > 0
                      then ChargePair(txs[i].at, row.account, row.machine, r, row.satsCharged) else []
            else
              row.satsCharged == 0 && ChargeRows(db, r) == []
    ensures var row := After(EMPTY, txs).rentals[r];
            if row.status.IsTerminal() then i < |txs| && IsEnd(txs[i], r) && MinutesRight(row, txs[i].at)
            else row.minutesBilled == 0
  {
    ChargesAreBills(txs, r);
    UndisturbedCounts(EMPTY, txs, r);
    OneBillPerEnding(EMPTY, txs, r);
    var row := After(EMPTY, txs).rentals[r];
    MinutesFollowBills(EMPTY, txs, r, row.createdAt);
    i := 0;
    if Ended(After(EMPTY, txs), r) {
      i := FirstEnd(EMPTY, txs, r);
      RunSplit(EMPTY, txs, i);
      RentalKept(After(EMPTY, txs[..i]), txs[i..], r);
      assert Bills(EMPTY, txs, r)[1..] == [];
      MinutesOnce(row, Bills(EMPTY, txs, r), txs[i].at);
    }
  }

  /**
   A rental's terms are those of the moment it was created: no later rate change, registration or
   report alters what it will be charged by.
   */
  lemma TermsAreSnapshotted(db: Db, m: nat, account: nat, image: string, key: Option<string>, at: int, txs: seq<Tx>)
    requires WellFormed(db) && RentalRefusal(db, m, account, image, key).None?
    requires WellFormed(Apply(db, CreateRental(m, account, image, key, at)))
    requires Run(Apply(db, CreateRental(m, account, image, key, at)), txs)
    ensures var later := After(Apply(db, CreateRental(m, account, image, key, at)), txs);
            && |db.rentals| < |later.rentals|
            && var row := later.rentals[|db.rentals|];
               && row.rate == db.machines[m].rate && row.createdAt == at
               && row.machine == m && row.account == account
               && row.rate <= db.balances[account]
  {
    RentalKept(Apply(db, CreateRental(m, account, image, key, at)), txs, |db.rentals|);
  }

  // ---- the budget check ----------------------------------------------------

  /** The test `enforce_budgets` makes of one rental: running, on a host still heard from, and out of funds. */
  predicate OverBudget(db: Db, r: nat, at: int, timeout: int)
    requires WellFormed(db) && r < |db.rentals|
  {
    var row := db.rentals[r];
    && row.status == Running
    && at - db.machines[row.machine].lastHeartbeat <= timeout
    && AccruedCharge(row.createdAt, at, row.rate) > db.balances[row.account]
  }

  /** The answer to `SELECT ... WHERE status = 'running'`, in whatever order the rows come. */
  ghost predicate ListsRunning(db: Db, rows: seq<nat>) {
    && Distinct(rows)
    && (forall i :: 0 <= i < |rows| ==> rows[i] < |db.rentals| && db.rentals[rows[i]].status == Running)
    && (forall r: nat :: r < |db.rentals| && db.rentals[r].status == Running ==> r in rows)
  }

  /** One rental looked at, at the moment the loop read the clock for it. */
  datatype Check = Check(rental: nat, at: int)

  function Checks(rows: seq<nat>, clock: nat -> int): seq<Check> {
    seq(|rows|, i requires 0 <= i < |rows| => Check(rows[i], clock(i)))
  }

  function Rentals(checks: seq<Check>): seq<nat> {
    seq(|checks|, i requires 0 <= i < |checks| => checks[i].rental)
  }

  predicate Due(db: Db, c: Check, timeout: int)
    requires WellFormed(db)
  {
    c.rental < |db.rentals| && OverBudget(db, c.rental, c.at, timeout)
  }

  function IsDue(db: Db, timeout: int): Check -> bool
    requires WellFormed(db)
  {
    (c: Check) => Due(db, c, timeout)
  }

  function Overdue(db: Db, checks: seq<Check>, timeout: int): seq<Check>
    requires WellFormed(db)
  {
    Filter<Check>(checks, IsDue(db, timeout))
  }

  function Evictions(due: seq<Check>): seq<Tx> {
    seq(|due|, i requires 0 <= i < |due| => EvictRental(due[i].rental, due[i].at))
  }

  function EvictedRow(row: Rental): Rental {
    row.(status := Evicting, error := Some("insufficient balance"))
  }

  ghost predicate Known(db: Db, due: seq<Check>) {
    forall i :: 0 <= i < |due| ==> due[i].rental < |db.rentals|
  }

  /** The tables after evicting exactly the rentals of `due`, written down without running anything. */
  ghost predicate EvictedExactly(db: Db, due: seq<Check>, later: Db)
    requires WellFormed(db) && Known(db, due)
  {
    && later.machines == db.machines
    && later.balances == db.balances
    && later.invoices == db.invoices
    && later.commands == db.commands + seq(|due|, i requires 0 <= i < |due| =>
         CommandRow(db.rentals[due[i].rental].machine, StopRental(due[i].rental), false))
    && later.ledger == db.ledger + seq(|due|, i requires 0 <= i < |due| =>
         Entry(due[i].at, Evict, 0, Some(db.rentals[due[i].rental].account), None, Some(due[i].rental)))
    && |later.rentals| == |db.rentals|
    && (forall r :: 0 <= r < |db.rentals| ==>
          later.rentals[r] == if r in Rentals(due) then EvictedRow(db.rentals[r]) else db.rentals[r])
  }

  lemma {:induction false} EvictAll(db: Db, due: seq<Check>)
    requires WellFormed(db) && Distinct(Rentals(due)) && Known(db, due)
    ensures Run(db, Evictions(due))
    ensures EvictedExactly(db, due, After(db, Evictions(due)))
    decreases |due|
  {
    if |due| > 0 {
      var init, last := due[..|due| - 1], due[|due| - 1];
      RentalsSplit(init, last);
      assert init + [last] == due;
      EvictAll(db, init);
      EvictOneMore(db, init, last, After(db, Evictions(init)));
      EvictLast(db, init, last);
    }
  }

  lemma RentalsSplit(init: seq<Check>, last: Check)
    ensures Rentals(init + [last]) == Rentals(init) + [last.rental]
    ensures Distinct(Rentals(init + [last])) <==> Distinct(Rentals(init)) && last.rental !in Rentals(init)
  {
    assert Rentals(init + [last]) == Rentals(init) + [last.rental];
    DistinctAppend(Rentals(init), last.rental);
  }

  lemma EvictLast(db: Db, init: seq<Check>, last: Check)
    requires WellFormed(db) && Run(db, Evictions(init))
    requires last.rental < |After(db, Evictions(init)).rentals|
    ensures Run(db, Evictions(init + [last]))
    ensures After(db, Evictions(init + [last])) == EvictTx(After(db, Evictions(init)), last.rental, last.at)
  {
    var before, tx := After(db, Evictions(init)), EvictRental(last.rental, last.at);
    StaysWellFormed(before, tx);
    assert [tx][1..] == [];
    RunAppend(db, Evictions(init), [tx]);
    assert Evictions(init + [last]) == Evictions(init) + [tx];
  }

  lemma EvictOneMore(db: Db, init: seq<Check>, last: Check, before: Db)
    requires WellFormed(db) && last.rental < |db.rentals| && last.rental !in Rentals(init)
    requires Known(db, init) && EvictedExactly(db, init, before)
    ensures EvictedExactly(db, init + [last], EvictTx(before, last.rental, last.at))
  {
    assert before.rentals[last.rental] == db.rentals[last.rental];
    RentalsSplit(init, last);
  }

  /** The rentals due are those of the checks that found them over budget. */
  lemma {:induction false} OverdueRentals(db: Db, checks: seq<Check>, timeout: int)
    requires WellFormed(db) && Distinct(Rentals(checks))
    ensures Known(db, Overdue(db, checks, timeout)) && Distinct(Rentals(Overdue(db, checks, timeout)))
    ensures forall i :: 0 <= i < |checks| ==>
              (checks[i].rental in Rentals(Overdue(db, checks, timeout)) <==> Due(db, checks[i], timeout))
    ensures forall r :: r in Rentals(Overdue(db, checks, timeout)) ==> r in Rentals(checks)
  {
    if |checks| > 0 {
      var init, last := checks[..|checks| - 1], checks[|checks| - 1];
      assert init + [last] == checks;
      RentalsSplit(init, last);
      OverdueRentals(db, init, timeout);
      RentalsSplit(Overdue(db, init, timeout), last);
      forall i | 0 <= i < |init| ensures checks[i].rental != last.rental {
        assert Rentals(init)[i] == checks[i].rental;
      }
      assert Overdue(db, init, timeout) + [] == Overdue(db, init, timeout);
    }
  }

  /**
   The judgement on each row, in the plain terms of the accounts: a rental on a host still heard from
   is evicting afterwards if what it accrued by its check is more than its account holds, and is
   otherwise untouched, as is every rental that was not running.
   */
  ghost predicate Judged(db: Db, rows: seq<nat>, clock: nat -> int, timeout: int, later: Db)
    requires WellFormed(db) && ListsRunning(db, rows)
  {
    && |later.rentals| == |db.rentals|
    && (forall i :: 0 <= i < |rows| ==>
          var row, after := db.rentals[rows[i]], later.rentals[rows[i]];
          if && clock(i) - db.machines[row.machine].lastHeartbeat <= timeout
             && AccruedCharge(row.createdAt, clock(i), row.rate) > db.balances[row.account]
          then after == row.(status := Evicting, error := Some("insufficient balance"))
          else after == row)
    && (forall r :: 0 <= r < |db.rentals| && r !in rows ==> later.rentals[r] == db.rentals[r])
  }

  lemma Judgement(db: Db, rows: seq<nat>, clock: nat -> int, timeout: int, due: seq<Check>, later: Db)
    requires WellFormed(db) && ListsRunning(db, rows) && Known(db, due) && EvictedExactly(db, due, later)
    requires forall i :: 0 <= i < |rows| ==> (rows[i] in Rentals(due) <==> OverBudget(db, rows[i], clock(i), timeout))
    requires forall r :: r in Rentals(due) ==> r in rows
    ensures Judged(db, rows, clock, timeout, later)
  {
  }

  /** So, where the host was heard from, exactly the rentals that settling then would have left unpaid. */
  lemma EvictedIfUnpaid(db: Db, rows: seq<nat>, clock: nat -> int, timeout: int, later: Db, i: nat)
    requires WellFormed(db) && ListsRunning(db, rows) && Judged(db, rows, clock, timeout, later) && i < |rows|
    requires clock(i) - db.machines[db.rentals[rows[i]].machine].lastHeartbeat <= timeout
    ensures var row := db.rentals[rows[i]];
            && (later.rentals[rows[i]].status == Evicting <==>
                  ChargeAt(db, rows[i], clock(i)) < AccruedCharge(row.createdAt, clock(i), row.rate))
            && (later.rentals[rows[i]].status != Evicting ==> later.rentals[rows[i]] == row)
  {
  }

  /**
   `enforce_budgets` over the running rows in any order, each checked at its own moment: exactly the
   rentals over budget when checked become `evicting`, each with one stop command and one zero row;
   nothing else changes.
   */
  lemma BudgetsEnforced(db: Db, rows: seq<nat>, clock: nat -> int, timeout: int)
    requires WellFormed(db) && ListsRunning(db, rows)
    ensures var due := Overdue(db, Checks(rows, clock), timeout);
            && Known(db, due) && Distinct(Rentals(due))
            && (forall i :: 0 <= i < |rows| ==> (rows[i] in Rentals(due) <==> OverBudget(db, rows[i], clock(i), timeout)))
            && (forall r :: r in Rentals(due) ==> r in rows)
            && Run(db, Evictions(due))
            && EvictedExactly(db, due, After(db, Evictions(due)))
            && Judged(db, rows, clock, timeout, After(db, Evictions(due)))
  {
    var checks := Checks(rows, clock);
    assert Rentals(checks) == rows;
    OverdueRentals(db, checks, timeout);
    forall i | 0 <= i < |rows|
      ensures rows[i] in Rentals(Overdue(db, checks, timeout)) <==> OverBudget(db, rows[i], clock(i), timeout)
    {
      assert checks[i] == Check(rows[i], clock(i));
    }
    var due := Overdue(db, checks, timeout);
    EvictAll(db, due);
    Judgement(db, rows, clock, timeout, due, After(db, Evictions(due)));
  }

  /** At a fixed instant, whatever the order of the rows, that is every rental over budget. */
  lemma EnforcedAtOneInstant(db: Db, rows: seq<nat>, clock: nat -> int, at: int, timeout: int)
    requires WellFormed(db) && ListsRunning(db, rows) && forall i :: clock(i) == at
    ensures forall r: nat :: r in Rentals(Overdue(db, Checks(rows, clock), timeout)) <==>
              && r < |db.rentals|
              && db.rentals[r].status == Running
              && at - db.machines[db.rentals[r].machine].lastHeartbeat <= timeout
              && AccruedCharge(db.rentals[r].createdAt, at, db.rentals[r].rate) > db.balances[db.rentals[r].account]
  {
    var due := Overdue(db, Checks(rows, clock), timeout);
    BudgetsEnforced(db, rows, clock, timeout);
    forall r: nat ensures r in Rentals(due) <==> r < |db.rentals| && OverBudget(db, r, at, timeout) {
      if r in rows {
        var i :| 0 <= i < |rows| && rows[i] == r;
        assert rows[i] in Rentals(due) <==> OverBudget(db, rows[i], clock(i), timeout);
      }
    }
  }

  /** Checks that agree with the evictions already made find nothing more to do. */
  lemma NothingLeft(db: Db, due: seq<Check>, timeout: int, later: Db, again: seq<Check>)
    requires WellFormed(db) && WellFormed(later) && Known(db, due) && EvictedExactly(db, due, later)
    requires forall c :: c in again && Due(db, c, timeout) ==> c.rental in Rentals(due)
    ensures Overdue(later, again, timeout) == []
  {
    forall c | c in again ensures !IsDue(later, timeout)(c) {
      if c.rental < |later.rentals| {
        assert later.rentals[c.rental] ==
          if c.rental in Rentals(due) then EvictedRow(db.rentals[c.rental]) else db.rentals[c.rental];
      }
    }
    FilterNone<Check>(again, IsDue(later, timeout));
  }

  /** Running the loop again, over any rows and with each seen at the moment it was first checked, evicts nothing. */
  lemma BudgetsStayEnforced(db: Db, rows: seq<nat>, clock: nat -> int, timeout: int, again: seq<nat>, clock': nat -> int)
    requires WellFormed(db) && ListsRunning(db, rows)
    requires forall i, j :: 0 <= i < |rows| && 0 <= j < |again| && rows[i] == again[j] ==> clock(i) == clock'(j)
    ensures Run(db, Evictions(Overdue(db, Checks(rows, clock), timeout)))
    ensures Overdue(After(db, Evictions(Overdue(db, Checks(rows, clock), timeout))), Checks(again, clock'), timeout) == []
  {
    var due := Overdue(db, Checks(rows, clock), timeout);
    BudgetsEnforced(db, rows, clock, timeout);
    forall c | c in Checks(again, clock') && Due(db, c, timeout) ensures c.rental in Rentals(due) {
      var j :| 0 <= j < |again| && Checks(again, clock')[j] == c;
      var i :| 0 <= i < |rows| && rows[i] == c.rental;
      assert rows[i] in Rentals(due) <==> OverBudget(db, rows[i], clock(i), timeout);
    }
    NothingLeft(db, due, timeout, After(db, Evictions(due)), Checks(again, clock'));
  }

  // ---- how far a rental can outrun its balance -----------------------------

  /** What settlements of other rentals than `r` took from account `a` in a stretch of the ledger. */
  function TakenByOthers(a: nat, r: nat): Entry -> bool {
    (e: Entry) => e.kind == RentalCharge && e.account == Some(a) && e.rental != Some(r)
  }

  lemma {:induction false} OnlyChargesTake(l: seq<Entry>, a: nat, r: nat)
    requires forall e :: e in l && e.account == Some(a) ==> TakenByOthers(a, r)(e) || e.delta >= 0
    ensures Sum(l, OfAccount(a)) >= Sum(l, TakenByOthers(a, r))
  {
    if |l| > 0 {
      assert l[|l| - 1] in l;
      OnlyChargesTake(l[..|l| - 1], a, r);
    }
  }

  /** Between two states of a run, an account loses no more than other rentals took, if `r` is not billed. */
  lemma BalanceFloor(db: Db, txs: seq<Tx>, a: nat, r: nat)
    requires WellFormed(db) && Run(db, txs) && AccountBooks(db) && DoubleEntry(db)
    requires a < |db.balances| && r < |db.rentals| && Bills(db, txs, r) == []
    ensures a < |After(db, txs).balances| && db.ledger <= After(db, txs).ledger
    ensures After(db, txs).balances[a] >=
              db.balances[a] + Sum(After(db, txs).ledger[|db.ledger|..], TakenByOthers(a, r))
  {
    var later := After(db, txs);
    RunExtends(db, txs);
    AccountBooksHold(db, txs);
    var since := later.ledger[|db.ledger|..];
    assert later.ledger == db.ledger + since;
    SumAppend(db.ledger, since, OfAccount(a));
    NotBilled(db, txs, r, since);
    assert forall e :: e in since ==> e in later.ledger;
    OnlyChargesTake(since, a, r);
  }

  lemma NotBilled(db: Db, txs: seq<Tx>, r: nat, since: seq<Entry>)
    requires WellFormed(db) && Run(db, txs) && r < |db.rentals| && Bills(db, txs, r) == []
    requires After(db, txs).ledger == db.ledger + since
    ensures forall e :: e in since ==> !IsChargeOf(r)(e)
  {
    var row := db.rentals[r];
    RentalKept(db, txs, r);
    ChargesFollowBills(db, txs, r, row.account, row.machine);
    FilterAppend(db.ledger, since, IsChargeOf(r));
    assert Filter(since, IsChargeOf(r)) == [];
    FilterMembers(since, IsChargeOf(r));
  }

  /**
   Bounded overrun. A tick at `t` that finds a rental within budget, followed by any interleaving
   of anything that does not bill it, followed by its settlement at `s`: what the tenant accrued
   but did not pay is at most what accrued since the tick (nothing, at a negative rate), one sat, and what other settlements
   took from the account in between.
   */
  lemma BoundedOverrun(db: Db, txs: seq<Tx>, r: nat, t: int, s: int, timeout: int)
    requires WellFormed(db) && Run(db, txs) && AccountBooks(db) && DoubleEntry(db)
    requires r < |db.rentals| && db.rentals[r].status == Running && t <= s
    requires t - db.machines[db.rentals[r].machine].lastHeartbeat <= timeout && !OverBudget(db, r, t, timeout)
    requires Bills(db, txs, r) == [] && r < |After(db, txs).rentals|
    ensures var row, later := db.rentals[r], After(db, txs);
            && db.ledger <= later.ledger
            && AccruedCharge(row.createdAt, s, row.rate) - ChargeAt(later, r, s) <=
                 Max(AccruedCharge(t, s, row.rate), 0) + 1
                 - Sum(later.ledger[|db.ledger|..], TakenByOthers(row.account, r))
  {
    var row := db.rentals[r];
    RentalKept(db, txs, r);
    BalanceFloor(db, txs, row.account, r);
    AccountBooksHold(db, txs);
    TakenIsNegative(After(db, txs).ledger[|db.ledger|..], row.account, r);
    ChargeWithinOneSat(row.createdAt, s, row.rate);
    if row.rate >= 0 {
      SplitOnce(row.createdAt, t, s, row.rate);
    }
  }

  lemma {:induction false} TakenIsNegative(l: seq<Entry>, a: nat, r: nat)
    requires Signed(l)
    ensures Sum(l, TakenByOthers(a, r)) <= 0
  {
    if |l| > 0 {
      assert l[|l| - 1] in l;
      TakenIsNegative(l[..|l| - 1], a, r);
    }
  }
}
