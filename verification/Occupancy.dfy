/** Who holds a machine, and which machines are on offer. */
module Occupancy {
  import opened Model
  import opened Tables
  import opened Database
  import opened Billing

  /** The SQL list derived from `ALL` holds exactly the statuses that are not terminal. */
  lemma OccupyingList(s: RentalStatus)
    ensures s in OccupyingInList() <==> s.OccupiesMachine()
    ensures s.OccupiesMachine() <==> !s.IsTerminal()
  {
    assert ALL[1..] == [Running, Evicting, Stopped, Failed];
    assert ALL[1..][1..] == [Evicting, Stopped, Failed];
    assert ALL[1..][1..][1..] == [Stopped, Failed];
    assert ALL[1..][1..][1..][1..] == [Failed];
    assert ALL[1..][1..][1..][1..][1..] == [];
    assert OccupyingInList() == [Provisioning, Running, Evicting];
  }

  predicate Live(db: Db, r: nat) {
    r < |db.rentals| && !db.rentals[r].status.IsTerminal()
  }

  /** At most one live rental per machine. */
  ghost predicate Exclusive(db: Db) {
    forall r, s :: 0 <= r < s < |db.rentals| && db.rentals[r].machine == db.rentals[s].machine
      ==> !Live(db, r) || !Live(db, s)
  }

  ghost predicate HeldByAnother(db: Db, r: nat)
    requires r < |db.rentals|
  {
    exists s :: 0 <= s < |db.rentals| && s != r && db.rentals[s].machine == db.rentals[r].machine && Live(db, s)
  }

  lemma OccupiedWhenLive(db: Db, m: nat)
    ensures Occupied(db, m) <==> exists r :: 0 <= r < |db.rentals| && db.rentals[r].machine == m && Live(db, r)
  {
    forall s: RentalStatus ensures s in OccupyingInList() <==> !s.IsTerminal() {
      OccupyingList(s);
    }
  }

  /** Which rentals a transaction leaves live: those it finds live, one it brings back, one it creates. */
  lemma LiveStep(db: Db, tx: Tx, r: nat)
    requires WellFormed(db) && Legal(db, tx)
    ensures Live(Apply(db, tx), r) ==>
              || Live(db, r)
              || Revives(db, tx, r)
              || (r == |db.rentals| && tx.CreateRental?
                  && RentalRefusal(db, tx.machine, tx.account, tx.image, tx.key).None?
                  && Apply(db, tx).rentals[r].machine == tx.machine)
    ensures Revives(db, tx, r) ==> Live(Apply(db, tx), r)
  {
  }

  /** Bringing one rental back leaves every other as it was. */
  lemma RevivesOne(db: Db, tx: Tx, r: nat, s: nat)
    requires WellFormed(db) && Legal(db, tx) && Revives(db, tx, r) && s != r && Live(db, s)
    ensures Live(Apply(db, tx), s)
    ensures !Revives(db, tx, s)
  {
  }

  /** The transaction brings a rental back onto a machine that another one holds. */
  ghost predicate TakesHeld(db: Db, tx: Tx) {
    exists r: nat :: Revives(db, tx, r) && HeldByAnother(db, r)
  }

  /** Otherwise no machine gets a second live rental. */
  lemma StaysExclusive(db: Db, tx: Tx, r: nat, s: nat)
    requires WellFormed(db) && Legal(db, tx) && Exclusive(db) && !TakesHeld(db, tx)
    requires r < s < |Apply(db, tx).rentals| && Apply(db, tx).rentals[r].machine == Apply(db, tx).rentals[s].machine
    requires r < |db.rentals| ==> Apply(db, tx).rentals[r].machine == db.rentals[r].machine
    requires s < |db.rentals| ==> Apply(db, tx).rentals[s].machine == db.rentals[s].machine
    requires |Apply(db, tx).rentals| <= |db.rentals| + 1
    ensures !Live(Apply(db, tx), r) || !Live(Apply(db, tx), s)
  {
    LiveStep(db, tx, r);
    LiveStep(db, tx, s);
    if s == |db.rentals| && tx.CreateRental? {
      OccupiedWhenLive(db, tx.machine);
    } else if Revives(db, tx, r) {
      assert !HeldByAnother(db, r);
    } else if Revives(db, tx, s) {
      assert !HeldByAnother(db, s);
    }
  }

  lemma RentalCount(db: Db, tx: Tx)
    requires WellFormed(db) && Legal(db, tx)
    ensures |db.rentals| <= |Apply(db, tx).rentals| <= |db.rentals| + 1
    ensures forall r :: 0 <= r < |db.rentals| ==> Apply(db, tx).rentals[r].machine == db.rentals[r].machine
  {
    ApplyExtends(db, tx);
  }

  lemma TakingHeldBreaks(db: Db, tx: Tx)
    requires WellFormed(db) && Legal(db, tx) && TakesHeld(db, tx)
    ensures !Exclusive(Apply(db, tx))
  {
    var r: nat :| Revives(db, tx, r) && HeldByAnother(db, r);
    var s :| 0 <= s < |db.rentals| && s != r && db.rentals[s].machine == db.rentals[r].machine && Live(db, s);
    var later := Apply(db, tx);
    RentalCount(db, tx);
    LiveStep(db, tx, r);
    RevivesOne(db, tx, r, s);
    var low, high := if s < r then s else r, if s < r then r else s;
    assert Live(later, low) && Live(later, high) && later.rentals[low].machine == later.rentals[high].machine;
  }

  /**
   Any transaction, fresh or stale, keeps machines exclusive exactly when it does not bring an ended
   rental back onto a machine that another one holds.
   */
  lemma ExclusiveStep(db: Db, tx: Tx)
    requires WellFormed(db) && Legal(db, tx) && Exclusive(db)
    ensures Exclusive(Apply(db, tx)) <==> !TakesHeld(db, tx)
  {
    var later := Apply(db, tx);
    if TakesHeld(db, tx) {
      TakingHeldBreaks(db, tx);
    } else {
      RentalCount(db, tx);
      forall r, s | 0 <= r < s < |later.rentals| && later.rentals[r].machine == later.rentals[s].machine
        ensures !Live(later, r) || !Live(later, s)
      {
        StaysExclusive(db, tx, r, s);
      }
    }
  }

  ghost function LeavesHeld(): (Db, Tx) -> bool {
    (db: Db, tx: Tx) => !TakesHeld(db, tx)
  }

  /** Every state a run passes through, its first and last included, is exclusive. */
  ghost predicate ExclusiveThroughout(db: Db, txs: seq<Tx>)
    requires WellFormed(db) && Run(db, txs)
    decreases |txs|
  {
    && Exclusive(db)
    && (|txs| == 0 || (StaysWellFormed(db, txs[0]); ExclusiveThroughout(Apply(db, txs[0]), txs[1..])))
  }

  lemma {:induction false} ThroughoutMeansEach(db: Db, txs: seq<Tx>, k: nat)
    requires WellFormed(db) && Run(db, txs) && ExclusiveThroughout(db, txs) && k <= |txs|
    ensures Run(db, txs[..k]) && Exclusive(After(db, txs[..k]))
    decreases |txs|
  {
    if k == 0 {
      assert txs[..k] == [];
    } else {
      StaysWellFormed(db, txs[0]);
      ThroughoutMeansEach(Apply(db, txs[0]), txs[1..], k - 1);
      assert txs[..k][0] == txs[0] && txs[..k][1..] == txs[1..][..k - 1];
    }
  }

  /**
   In every run, however its handlers interleave, no machine ever has two live rentals if and only
   if no transaction brings a rental back onto a machine that another one holds by then.
   */
  lemma {:induction false} ExclusiveAlong(db: Db, txs: seq<Tx>)
    requires WellFormed(db) && Run(db, txs) && Exclusive(db)
    ensures ExclusiveThroughout(db, txs) <==> Along(db, txs, LeavesHeld())
    decreases |txs|
  {
    if |txs| > 0 {
      StaysWellFormed(db, txs[0]);
      ExclusiveStep(db, txs[0]);
      var next := Apply(db, txs[0]);
      if Exclusive(next) {
        ExclusiveAlong(next, txs[1..]);
      } else {
        assert !ExclusiveThroughout(next, txs[1..]);
      }
    }
  }

  /** In particular a run that brings no rental back. */
  lemma {:induction false} ExclusiveUnlessRevived(db: Db, txs: seq<Tx>)
    requires WellFormed(db) && Run(db, txs) && Exclusive(db)
    requires forall r :: Times(db, txs, Reviving(r)) == 0
    ensures Exclusive(After(db, txs))
    decreases |txs|
  {
    if |txs| > 0 {
      var tx, rest := txs[0], txs[1..];
      StaysWellFormed(db, tx);
      var next := Apply(db, tx);
      forall r: nat ensures !Revives(db, tx, r) && Times(next, rest, Reviving(r)) == 0 {
        assert Times(db, txs, Reviving(r)) == 0;
      }
      ExclusiveStep(db, tx);
      ExclusiveUnlessRevived(next, rest);
      assert After(db, txs) == After(next, rest);
    }
  }

  // ---- offers --------------------------------------------------------------

  predicate Offerable(db: Db, m: nat) {
    m < |db.machines| && db.machines[m].online && !Occupied(db, m)
  }

  function PageSize(limit: Option<int>): nat {
    Max(1, Min(limit.GetOr(200), 200))
  }

  /** The limit asked for if it is between 1 and 200, else the nearer of those; 200 if none is asked for. */
  lemma PageSizeClamps(limit: Option<int>)
    ensures 1 <= PageSize(limit) <= 200
    ensures limit.None? ==> PageSize(limit) == 200
    ensures limit.Some? ==> forall p :: 1 <= p <= 200 ==> Distance(PageSize(limit), limit.value) <= Distance(p, limit.value)
  {
  }

  function Distance(x: int, y: int): int {
    if x <= y then y - x else x - y
  }

  ghost function Matching(db: Db, passes: nat -> bool): set<nat> {
    set m: nat | m < |db.machines| && Offerable(db, m) && passes(m)
  }

  /** Whatever the filter, only online idle machines that pass it are listed, and all of them if they fit the page. */
  lemma ListedMeans(db: Db, passes: nat -> bool, key: nat -> real, limit: Option<int>, page: seq<nat>, m: nat)
    requires OffersPage(db, passes, key, limit, page)
    ensures var offered := && m < |db.machines| && db.machines[m].online && passes(m)
                           && forall r :: 0 <= r < |db.rentals| && db.rentals[r].machine == m ==> !Live(db, r);
            && (m in page ==> offered)
            && (offered && |page| < PageSize(limit) ==> m in page)
  {
    OccupiedWhenLive(db, m);
    assert m in page ==> exists i :: 0 <= i < |page| && page[i] == m;
    if |page| < PageSize(limit) {
      WholePage(page, Matching(db, passes));
    }
  }

  ghost predicate Ordered(page: seq<nat>, key: nat -> real) {
    forall i, j :: 0 <= i < j < |page| ==> key(page[i]) <= key(page[j])
  }

  /** What the offers query may answer, for any filter and any sort key, with ties in any order. */
  ghost predicate OffersPage(db: Db, passes: nat -> bool, key: nat -> real, limit: Option<int>, page: seq<nat>) {
    && Distinct(page)
    && (forall i :: 0 <= i < |page| ==> page[i] in Matching(db, passes))
    && |page| == Min(PageSize(limit), |Matching(db, passes)|)
    && Ordered(page, key)
    && (forall i, m :: 0 <= i < |page| && m in Matching(db, passes) && m !in page ==> key(page[i]) <= key(m))
  }

  ghost function Elements(s: seq<nat>): set<nat> {
    set x: nat | x in s
  }

  lemma {:induction false} DistinctCount(s: seq<nat>)
    requires Distinct(s)
    ensures |Elements(s)| == |s|
  {
    if |s| > 0 {
      var init, last := s[..|s| - 1], s[|s| - 1];
      DistinctCount(init);
      assert Elements(s) == Elements(init) + {last};
      assert last !in Elements(init);
    }
  }

  lemma WholePage(page: seq<nat>, all: set<nat>)
    requires Distinct(page) && |page| == |all| && forall i :: 0 <= i < |page| ==> page[i] in all
    ensures forall m: nat :: m in page <==> m in all
  {
    DistinctCount(page);
    SubsetOfSameSize(Elements(page), all);
    assert forall m: nat :: m in page <==> m in Elements(page);
  }

  lemma SubsetOfSameSize(a: set<nat>, b: set<nat>)
    requires a <= b && |a| == |b|
    ensures a == b
  {
    assert |b - a| == |b| - |a|;
  }

  /**
   Without filters, and with no more idle online machines than the page holds, a machine is listed
   exactly when a funded account with an acceptable key can rent it now.
   */
  lemma ListedIffRentable(db: Db, key: nat -> real, limit: Option<int>, page: seq<nat>,
                          m: nat, account: nat, image: string, sshKey: Option<string>)
    requires OffersPage(db, (x: nat) => true, key, limit, page)
    requires |Matching(db, (x: nat) => true)| <= PageSize(limit)
    requires account < |db.balances| && AcceptedKey(image, sshKey).Some?
    requires m < |db.machines| ==> db.balances[account] >= db.machines[m].rate
    ensures m in page <==> RentalRefusal(db, m, account, image, sshKey).None?
  {
    WholePage(page, Matching(db, (x: nat) => true));
  }

  function InsertAt(page: seq<nat>, k: nat, m: nat): (longer: seq<nat>)
    requires k <= |page|
    ensures |longer| == |page| + 1
    ensures forall i :: 0 <= i < |longer| ==> longer[i] == if i < k then page[i] else if i == k then m else page[i - 1]
  {
    page[..k] + [m] + page[k..]
  }

  lemma InsertedMembers(page: seq<nat>, k: nat, m: nat)
    requires k <= |page|
    ensures forall x: nat :: x in InsertAt(page, k, m) <==> x in page || x == m
  {
    var longer := InsertAt(page, k, m);
    assert longer[k] == m;
    forall x: nat | x in page ensures x in longer {
      var i :| 0 <= i < |page| && page[i] == x;
      assert longer[if i < k then i else i + 1] == x;
    }
  }

  lemma InsertedOrder(page: seq<nat>, k: nat, m: nat, key: nat -> real)
    requires k <= |page| && Ordered(page, key)
    requires forall i :: 0 <= i < k ==> key(page[i]) <= key(m)
    requires k < |page| ==> key(m) <= key(page[k])
    ensures Ordered(InsertAt(page, k, m), key)
  {
  }

  lemma InsertedDistinct(page: seq<nat>, k: nat, m: nat)
    requires k <= |page| && Distinct(page) && m !in page
    ensures Distinct(InsertAt(page, k, m))
  {
  }

  /** Insert after every machine whose key is no larger. */
  method InsertByKey(page: seq<nat>, m: nat, key: nat -> real) returns (longer: seq<nat>)
    requires Ordered(page, key) && Distinct(page) && m !in page
    ensures Ordered(longer, key) && Distinct(longer)
    ensures forall x: nat :: x in longer <==> x in page || x == m
  {
    var k := 0;
    while k < |page| && key(page[k]) <= key(m)
      invariant 0 <= k <= |page|
      invariant forall i :: 0 <= i < k ==> key(page[i]) <= key(m)
    {
      k := k + 1;
    }
    longer := InsertAt(page, k, m);
    InsertedMembers(page, k, m);
    InsertedOrder(page, k, m, key);
    InsertedDistinct(page, k, m);
  }

  /** Every matching machine, in key order. */
  method AllMatching(db: Db, passes: nat -> bool, key: nat -> real) returns (all: seq<nat>)
    ensures Distinct(all) && Ordered(all, key)
    ensures forall m: nat :: m in all <==> m < |db.machines| && Offerable(db, m) && passes(m)
  {
    all := [];
    for m := 0 to |db.machines|
      invariant Distinct(all) && Ordered(all, key)
      invariant forall x: nat :: x in all <==> x < m && Offerable(db, x) && passes(x)
    {
      if Offerable(db, m) && passes(m) {
        all := InsertByKey(all, m, key);
      }
    }
  }

  lemma FirstOf(all: seq<nat>, size: nat, key: nat -> real, page: seq<nat>)
    requires Distinct(all) && Ordered(all, key) && page == all[..Min(size, |all|)]
    ensures Distinct(page) && Ordered(page, key)
    ensures forall i :: 0 <= i < |page| ==> page[i] in all
    ensures forall i, m :: 0 <= i < |page| && m in all && m !in page ==> key(page[i]) <= key(m)
  {
    assert forall j :: 0 <= j < |page| ==> all[j] in page;
    forall i, m | 0 <= i < |page| && m in all && m !in page ensures key(page[i]) <= key(m) {
      var j :| 0 <= j < |all| && all[j] == m;
    }
  }

  /** `GET /offers`: the matching machines in key order, up to the page size. */
  method SelectOffers(db: Db, passes: nat -> bool, key: nat -> real, limit: Option<int>) returns (page: seq<nat>)
    ensures OffersPage(db, passes, key, limit, page)
  {
    var all := AllMatching(db, passes, key);
    page := all[..Min(PageSize(limit), |all|)];
    DistinctCount(all);
    assert Elements(all) == Matching(db, passes);
    FirstOf(all, PageSize(limit), key, page);
  }
}
