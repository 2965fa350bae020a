/**
 What a row holds, read off the run that wrote it: each column is the last thing written to it.

 The writers below name columns of the requests, not of the tables, so they say what a host, a tenant
 or an agent can rely on without looking at how a transaction is carried out. Everything holds of
 every run, however its handlers interleave.
 */
module History {
  import opened Model
  import opened Database
  import opened Billing
  import opened Occupancy

  /** The last value that the transactions write, where `w` says what each one writes. */
  function LastWrite<V>(txs: seq<Tx>, w: Tx -> Option<V>): Option<V> {
    if |txs| == 0 then None
    else
      var later := LastWrite(txs[1..], w);
      if later.Some? then later else w(txs[0])
  }

  /** That is: some transaction writes it and no later one writes anything. */
  lemma {:induction false} LastWriteMeans<V>(txs: seq<Tx>, w: Tx -> Option<V>)
    ensures LastWrite(txs, w).Some? ==>
              exists i :: 0 <= i < |txs| && w(txs[i]) == LastWrite(txs, w) && forall j :: i < j < |txs| ==> w(txs[j]).None?
    ensures LastWrite(txs, w).None? ==> forall i :: 0 <= i < |txs| ==> w(txs[i]).None?
  {
    if |txs| > 0 {
      var rest := txs[1..];
      LastWriteMeans(rest, w);
      if LastWrite(rest, w).Some? {
        var i :| 0 <= i < |rest| && w(rest[i]) == LastWrite(rest, w) && forall j :: i < j < |rest| ==> w(rest[j]).None?;
        assert w(txs[i + 1]) == LastWrite(txs, w);
        assert forall j :: i + 1 < j < |txs| ==> txs[j] == rest[j - 1];
      } else {
        assert forall j :: 0 < j < |txs| ==> txs[j] == rest[j - 1];
      }
    }
  }

  // ---- machines ------------------------------------------------------------

  function Prices(m: nat, hostId: string): Tx -> Option<int> {
    (tx: Tx) =>
      match tx
      case RegisterMachine(h, _, rate, _) => if h == hostId then Some(rate) else None
      case SetRate(n, rate) => if n == m then Some(rate) else None
      case _ => None
  }

  function Addresses(hostId: string): Tx -> Option<string> {
    (tx: Tx) =>
      match tx
      case RegisterMachine(h, ip, _, _) => if h == hostId then Some(ip) else None
      case _ => None
  }

  datatype Word = Word(online: bool, at: int)

  /** What a host says of itself: registering says it is online. */
  function Speaks(m: nat, hostId: string): Tx -> Option<Word> {
    (tx: Tx) =>
      match tx
      case RegisterMachine(h, _, _, at) => if h == hostId then Some(Word(true, at)) else None
      case Heartbeat(n, online, at) => if n == m then Some(Word(online, at)) else None
      case _ => None
  }

  lemma FoundHost(machines: seq<Machine>, m: nat)
    requires m < |machines| && forall i, j :: 0 <= i < j < |machines| ==> machines[i].hostId != machines[j].hostId
    ensures FindHost(machines, machines[m].hostId) == Some(m)
  {
    var n := FindHost(machines, machines[m].hostId);
    assert n.Some?;
  }

  /** One transaction and one machine, column by column. */
  lemma MachineStep(db: Db, tx: Tx, m: nat)
    requires WellFormed(db) && Legal(db, tx) && m < |db.machines|
    ensures m < |Apply(db, tx).machines|
    ensures var before, after := db.machines[m], Apply(db, tx).machines[m];
            && after.hostId == before.hostId
            && after.rate == Prices(m, before.hostId)(tx).GetOr(before.rate)
            && after.publicIp == Addresses(before.hostId)(tx).GetOr(before.publicIp)
            && after.lastHeartbeat == (if Speaks(m, before.hostId)(tx).Some? then Speaks(m, before.hostId)(tx).value.at
                                       else before.lastHeartbeat)
            && after.online == (if Speaks(m, before.hostId)(tx).Some? then Speaks(m, before.hostId)(tx).value.online
                                else before.online && (tx.MarkOffline? ==> before.lastHeartbeat >= tx.threshold))
  {
    FoundHost(db.machines, m);
    if tx.RegisterMachine? && FindHost(db.machines, tx.hostId).Some? {
      assert FindHost(db.machines, tx.hostId) == Some(m) <==> tx.hostId == db.machines[m].hostId;
    }
  }

  /** A machine row appears when an unknown host registers, with what it registers. */
  lemma MachineAppears(db: Db, tx: Tx, m: nat)
    requires WellFormed(db) && Legal(db, tx) && |db.machines| <= m < |Apply(db, tx).machines|
    ensures tx.RegisterMachine? && m == |db.machines|
    ensures var row := Apply(db, tx).machines[m];
            row == Machine(tx.hostId, tx.ip, tx.rate, 0, true, tx.at)
  {
  }

  /** A host's price is the last it registered or set, and its address the last it registered from. */
  lemma {:induction false} MachineHistory(db: Db, txs: seq<Tx>, m: nat)
    requires WellFormed(db) && Run(db, txs) && m < |After(db, txs).machines|
    ensures var row := After(db, txs).machines[m];
            var price, address := LastWrite(txs, Prices(m, row.hostId)), LastWrite(txs, Addresses(row.hostId));
            && (if price.Some? then row.rate == price.value else m < |db.machines| && row.rate == db.machines[m].rate)
            && (if address.Some? then row.publicIp == address.value
                else m < |db.machines| && row.publicIp == db.machines[m].publicIp)
            && (m < |db.machines| ==> row.hostId == db.machines[m].hostId)
    decreases |txs|
  {
    if |txs| > 0 {
      var tx, rest := txs[0], txs[1..];
      StaysWellFormed(db, tx);
      var next := Apply(db, tx);
      assert After(db, txs) == After(next, rest);
      MachineHistory(next, rest, m);
      if m < |db.machines| {
        MachineStep(db, tx, m);
      } else if m < |next.machines| {
        MachineAppears(db, tx, m);
      }
    }
  }

  /** While a host is silent, it stays online exactly as long as no threshold passes its last word. */
  lemma {:induction false} Silent(db: Db, txs: seq<Tx>, m: nat)
    requires WellFormed(db) && Run(db, txs) && m < |db.machines|
    requires forall j :: 0 <= j < |txs| ==> Speaks(m, db.machines[m].hostId)(txs[j]).None?
    ensures m < |After(db, txs).machines|
    ensures After(db, txs).machines[m].hostId == db.machines[m].hostId
    ensures After(db, txs).machines[m].lastHeartbeat == db.machines[m].lastHeartbeat
    ensures After(db, txs).machines[m].online <==>
              && db.machines[m].online
              && forall j :: 0 <= j < |txs| && txs[j].MarkOffline? ==> db.machines[m].lastHeartbeat >= txs[j].threshold
    decreases |txs|
  {
    if |txs| > 0 {
      var tx, rest := txs[0], txs[1..];
      StaysWellFormed(db, tx);
      var next := Apply(db, tx);
      assert After(db, txs) == After(next, rest);
      MachineStep(db, tx, m);
      assert Speaks(m, db.machines[m].hostId)(txs[0]).None?;
      assert forall j :: 0 <= j < |rest| ==> rest[j] == txs[j + 1];
      Silent(next, rest, m);
      assert forall j :: 0 < j < |txs| ==> txs[j] == rest[j - 1];
    }
  }

  lemma HostKept(db: Db, txs: seq<Tx>, m: nat)
    requires WellFormed(db) && Run(db, txs) && m < |db.machines|
    ensures m < |After(db, txs).machines| && After(db, txs).machines[m].hostId == db.machines[m].hostId
  {
    RunExtends(db, txs);
    MachineHistory(db, txs, m);
  }

  /**
   A machine's last heartbeat is the time of its host's last word, a heartbeat or a registration; and
   it is online exactly when that word said so and no sweep since had a threshold past it.
   */
  lemma {:induction false} LastWord(db: Db, txs: seq<Tx>, m: nat, hostId: string) returns (i: nat)
    requires WellFormed(db) && Run(db, txs)
    requires m < |After(db, txs).machines| && hostId == After(db, txs).machines[m].hostId
    requires m >= |db.machines| || exists j :: 0 <= j < |txs| && Speaks(m, hostId)(txs[j]).Some?
    ensures i < |txs| && Speaks(m, hostId)(txs[i]).Some?
    ensures forall j :: i < j < |txs| ==> Speaks(m, hostId)(txs[j]).None?
    ensures var word, row := Speaks(m, hostId)(txs[i]).value, After(db, txs).machines[m];
            && row.lastHeartbeat == word.at
            && (row.online <==>
                  word.online && forall j :: i < j < |txs| && txs[j].MarkOffline? ==> word.at >= txs[j].threshold)
    decreases |txs|
  {
    assert |txs| > 0;
    var tx, rest := txs[0], txs[1..];
    StaysWellFormed(db, tx);
    var next := Apply(db, tx);
    assert After(db, txs) == After(next, rest);
    assert forall j :: 0 < j < |txs| ==> txs[j] == rest[j - 1];
    if m >= |next.machines| || exists j :: 0 <= j < |rest| && Speaks(m, hostId)(rest[j]).Some? {
      var k := LastWord(next, rest, m, hostId);
      i := k + 1;
      assert txs[i] == rest[k];
    } else {
      i := 0;
      HostKept(next, rest, m);
      if m >= |db.machines| {
        MachineAppears(db, tx, m);
      } else {
        MachineStep(db, tx, m);
      }
      Silent(next, rest, m);
    }
  }

  /** A heartbeat touches the liveness of its machine and its command rows, and nothing else. */
  lemma HeartbeatFrame(db: Db, m: nat, online: bool, at: int)
    requires WellFormed(db) && m < |db.machines|
    ensures var later := Apply(db, Heartbeat(m, online, at));
            && later.machines == db.machines[m := db.machines[m].(lastHeartbeat := at, online := online)]
            && later.balances == db.balances && later.rentals == db.rentals
            && later.invoices == db.invoices && later.ledger == db.ledger
  {
  }

  /**
   A host that said it is online at `at` and nothing since survives every sweep that allows it that
   silence, one at s with a timeout of at least s - `at`: its threshold, s less the timeout, is not past `at`.
   */
  lemma HeartbeatKeepsOnline(db: Db, m: nat, at: int, txs: seq<Tx>)
    requires WellFormed(db) && Run(db, [Heartbeat(m, true, at)] + txs) && m < |db.machines|
    requires forall j :: 0 <= j < |txs| ==> Speaks(m, db.machines[m].hostId)(txs[j]).None?
    requires forall j :: 0 <= j < |txs| && txs[j].MarkOffline? ==> txs[j].threshold <= at
    ensures var later := After(db, [Heartbeat(m, true, at)] + txs);
            m < |later.machines| && later.machines[m].online && later.machines[m].lastHeartbeat == at
  {
    var all := [Heartbeat(m, true, at)] + txs;
    StaysWellFormed(db, all[0]);
    var next := Apply(db, all[0]);
    assert all[1..] == txs && After(db, all) == After(next, txs);
    MachineStep(db, all[0], m);
    Silent(next, txs, m);
  }

  // ---- rentals -------------------------------------------------------------

  function Statuses(r: nat): Tx -> Option<RentalStatus> {
    (tx: Tx) =>
      match tx
      case Report(s, _, report, _, _) => if s == r then Some(report.status) else None
      case RequestStop(s) => if s == r then Some(Evicting) else None
      case EvictRental(s, _) => if s == r then Some(Evicting) else None
      case _ => None
  }

  /** A report without a kind keeps the one before. */
  function Kinds(r: nat): Tx -> Option<RentalKind> {
    (tx: Tx) => if tx.Report? && tx.rental == r then tx.report.kind else None
  }

  function Containers(r: nat): Tx -> Option<string> {
    (tx: Tx) => if tx.Report? && tx.rental == r then tx.report.containerId else None
  }

  function Ports(r: nat): Tx -> Option<Option<int>> {
    (tx: Tx) => if tx.Report? && tx.rental == r then Some(tx.report.sshPort) else None
  }

  function Hosts(r: nat): Tx -> Option<string> {
    (tx: Tx) => if tx.Report? && tx.rental == r then Some(tx.ip) else None
  }

  function Errors(r: nat): Tx -> Option<Option<string>> {
    (tx: Tx) =>
      match tx
      case Report(s, _, report, _, _) => if s == r then Some(report.error) else None
      case EvictRental(s, _) => if s == r then Some(Some("insufficient balance")) else None
      case _ => None
  }

  /** Only the two terminal statuses end a rental. */
  function Ends(r: nat): Tx -> Option<int> {
    (tx: Tx) =>
      if tx.Report? && tx.rental == r && (tx.report.status == Stopped || tx.report.status == Failed)
      then Some(tx.at) else None
  }

  lemma RentalStep(db: Db, tx: Tx, r: nat)
    requires WellFormed(db) && Legal(db, tx) && r < |db.rentals|
    ensures r < |Apply(db, tx).rentals|
    ensures var before, after := db.rentals[r], Apply(db, tx).rentals[r];
            && after.image == before.image && after.sshKey == before.sshKey
            && after.status == Statuses(r)(tx).GetOr(before.status)
            && after.kind == Kinds(r)(tx).GetOr(before.kind)
            && after.containerId == (if Containers(r)(tx).Some? then Containers(r)(tx) else before.containerId)
            && after.sshPort == Ports(r)(tx).GetOr(before.sshPort)
            && after.sshHost == (if Hosts(r)(tx).Some? then Hosts(r)(tx) else before.sshHost)
            && after.error == Errors(r)(tx).GetOr(before.error)
            && after.endedAt == (if Ends(r)(tx).Some? then Ends(r)(tx) else before.endedAt)
  {
  }

  /** No transaction names a rental before its row exists, and the row starts without any report. */
  lemma RentalAppears(db: Db, tx: Tx, r: nat)
    requires WellFormed(db) && Legal(db, tx) && |db.rentals| <= r
    ensures Statuses(r)(tx).None? && Kinds(r)(tx).None? && Containers(r)(tx).None? && Ports(r)(tx).None?
    ensures Hosts(r)(tx).None? && Errors(r)(tx).None? && Ends(r)(tx).None?
    ensures r < |Apply(db, tx).rentals| ==>
              var row := Apply(db, tx).rentals[r];
              && tx.CreateRental? && r == |db.rentals|
              && row.machine == tx.machine && row.account == tx.account && row.image == tx.image && row.createdAt == tx.at
              && row.status == Provisioning && row.kind == Ssh && row.containerId == None && row.sshPort == None
              && row.sshHost == None && row.error == None && row.endedAt == None
  {
  }

  /** The state a rental starts from, or is already in when the run starts. */
  function Initially(db: Db, r: nat): Rental {
    if r < |db.rentals| then db.rentals[r]
    else Rental(0, 0, "", "", Provisioning, Ssh, None, None, None, None, 0, 0, 0, 0, None)
  }

  /** Every column an agent or an eviction writes holds the last value written to it. */
  lemma {:induction false} RentalHistory(db: Db, txs: seq<Tx>, r: nat)
    requires WellFormed(db) && Run(db, txs) && r < |After(db, txs).rentals|
    ensures var row, first := After(db, txs).rentals[r], Initially(db, r);
            && row.status == LastWrite(txs, Statuses(r)).GetOr(first.status)
            && row.kind == LastWrite(txs, Kinds(r)).GetOr(first.kind)
            && row.containerId == (if LastWrite(txs, Containers(r)).Some? then LastWrite(txs, Containers(r)) else first.containerId)
            && row.sshPort == LastWrite(txs, Ports(r)).GetOr(first.sshPort)
            && row.sshHost == (if LastWrite(txs, Hosts(r)).Some? then LastWrite(txs, Hosts(r)) else first.sshHost)
            && row.error == LastWrite(txs, Errors(r)).GetOr(first.error)
            && row.endedAt == (if LastWrite(txs, Ends(r)).Some? then LastWrite(txs, Ends(r)) else first.endedAt)
    ensures r < |db.rentals| ==>
              After(db, txs).rentals[r].image == db.rentals[r].image
              && After(db, txs).rentals[r].sshKey == db.rentals[r].sshKey
    decreases |txs|
  {
    if |txs| > 0 {
      var tx, rest := txs[0], txs[1..];
      StaysWellFormed(db, tx);
      var next := Apply(db, tx);
      assert After(db, txs) == After(next, rest);
      RentalHistory(next, rest, r);
      if r < |db.rentals| {
        RentalStep(db, tx, r);
      } else {
        RentalAppears(db, tx, r);
      }
    }
  }

  /**
   A machine is held exactly by the rentals nobody has reported stopped or failed since they were
   last set to anything else. From its creation through running and evicting, a rental holds it.
   */
  lemma HeldUntilReported(txs: seq<Tx>, m: nat)
    requires Run(EMPTY, txs)
    ensures Occupied(After(EMPTY, txs), m) <==>
              exists r :: 0 <= r < |After(EMPTY, txs).rentals| && After(EMPTY, txs).rentals[r].machine == m
                          && StillHolds(txs, r)
  {
    var db := After(EMPTY, txs);
    forall r: nat | r < |db.rentals| ensures Live(db, r) <==> StillHolds(txs, r) {
      RentalHistory(EMPTY, txs, r);
    }
    OccupiedWhenLive(db, m);
  }

  predicate StillHolds(txs: seq<Tx>, r: nat) {
    LastWrite(txs, Statuses(r)) != Some(Stopped) && LastWrite(txs, Statuses(r)) != Some(Failed)
  }

  // ---- a new rental --------------------------------------------------------

  /** White space of the ASCII range: space, and tab through carriage return. */
  predicate White(c: char) {
    c as int == 32 || 9 <= c as int <= 13
  }

  predicate AllWhite(s: string) {
    forall i :: 0 <= i < |s| ==> White(s[i])
  }

  /** `kept` is `s` without the white space around it. */
  ghost predicate Stripped(s: string, kept: string, pre: string, post: string) {
    && s == pre + kept + post && AllWhite(pre) && AllWhite(post)
    && (|kept| > 0 ==> !White(kept[0]) && !White(kept[|kept| - 1]))
  }

  lemma StripFront(s: string, kept: string, pre: string, post: string)
    requires |s| > 0 && White(s[0]) && Stripped(s[1..], kept, pre, post)
    ensures Stripped(s, kept, [s[0]] + pre, post)
  {
    assert s == [s[0]] + s[1..];
    assert [s[0]] + pre + kept + post == [s[0]] + (pre + kept + post);
  }

  lemma StripBack(s: string, kept: string, pre: string, post: string)
    requires |s| > 0 && White(s[|s| - 1]) && Stripped(s[..|s| - 1], kept, pre, post)
    ensures Stripped(s, kept, pre, post + [s[|s| - 1]])
  {
    var last := [s[|s| - 1]];
    assert s == s[..|s| - 1] + last;
    assert pre + kept + (post + last) == (pre + kept + post) + last;
  }

  lemma StrippedEmpty(s: string, kept: string, pre: string, post: string)
    requires Stripped(s, kept, pre, post)
    ensures kept == "" <==> AllWhite(s)
  {
    if kept == "" {
      assert s == pre + post;
    } else {
      assert s[|pre|] == kept[0];
    }
  }

  lemma {:induction false} TrimSplits(s: string) returns (pre: string, post: string)
    ensures Stripped(s, Trim(s), pre, post)
    decreases |s|
  {
    pre, post := "", "";
    if |s| == 0 || (!IsSpace(s[0]) && !IsSpace(s[|s| - 1])) {
      assert s == pre + s + post;
    } else if IsSpace(s[0]) {
      var p, q := TrimSplits(s[1..]);
      StripFront(s, Trim(s), p, q);
      pre, post := [s[0]] + p, q;
    } else {
      var p, q := TrimSplits(s[..|s| - 1]);
      StripBack(s, Trim(s), p, q);
      pre, post := p, q + [s[|s| - 1]];
    }
  }

  lemma TrimStrips(s: string) returns (pre: string, post: string)
    ensures Stripped(s, Trim(s), pre, post)
    ensures Trim(s) == "" <==> AllWhite(s)
  {
    pre, post := TrimSplits(s);
    StrippedEmpty(s, Trim(s), pre, post);
  }

  /** The request brings a key, that is, some character that is not white space. */
  predicate BringsKey(key: Option<string>) {
    key.Some? && !AllWhite(key.value)
  }

  /**
   What `create_rental` answers: 404 for an unknown machine or account; then 400 for a missing key
   unless the image is a `metal:` one; then 409 for a machine that is offline or held by a live
   rental; then 402 for less than a minute's funds; and otherwise it accepts.
   */
  lemma Answers(db: Db, m: nat, a: nat, image: string, key: Option<string>)
    ensures var known := m < |db.machines| && a < |db.balances|;
            var keyed := BringsKey(key) || "metal:" <= image;
            var idle := m < |db.machines| && db.machines[m].online
                        && forall r :: 0 <= r < |db.rentals| && db.rentals[r].machine == m
                             ==> db.rentals[r].status == Stopped || db.rentals[r].status == Failed;
            var refusal := RentalRefusal(db, m, a, image, key);
            && (refusal == Some(NotFound) <==> !known)
            && (refusal == Some(BadRequest) <==> known && !keyed)
            && (refusal == Some(Conflict) <==> known && keyed && !idle)
            && (refusal == Some(PaymentRequired) <==> known && keyed && idle && db.balances[a] < db.machines[m].rate)
            && (refusal == None <==> known && keyed && idle && db.balances[a] >= db.machines[m].rate)
  {
    if key.Some? {
      var _, _ := TrimStrips(key.value);
    }
    OccupiedWhenLive(db, m);
    assert forall s: RentalStatus :: s.IsTerminal() <==> s == Stopped || s == Failed;
  }

  /** The key a rental is given: the one sent less the white space around it, or none for a `metal:` image. */
  ghost predicate KeyKept(key: Option<string>, image: string, sshKey: string) {
    if BringsKey(key) then sshKey != "" && exists pre, post :: Stripped(key.value, sshKey, pre, post)
    else sshKey == "" && "metal:" <= image
  }

  lemma KeyIsKept(key: Option<string>, image: string)
    requires AcceptedKey(image, key).Some?
    ensures KeyKept(key, image, AcceptedKey(image, key).value)
  {
    if key.Some? {
      var pre, post := TrimStrips(key.value);
    }
  }

  /**
   An accepted request: one row at the end of the table, one start command carrying that row's id,
   image and key, and the key the tenant sent less the white space around it.
   */
  lemma Accepted(db: Db, m: nat, a: nat, image: string, key: Option<string>, at: int) returns (pre: string, post: string)
    requires WellFormed(db) && RentalRefusal(db, m, a, image, key).None?
    ensures var later := Apply(db, CreateRental(m, a, image, key, at));
            && |later.rentals| == |db.rentals| + 1 && later.rentals[..|db.rentals|] == db.rentals
            && later.machines == db.machines && later.balances == db.balances
            && later.invoices == db.invoices && later.ledger == db.ledger
    ensures var later := Apply(db, CreateRental(m, a, image, key, at));
            var row := later.rentals[|db.rentals|];
            && row.machine == m && row.account == a && row.image == image && row.createdAt == at
            && row.rate == db.machines[m].rate && row.status == Provisioning
            && row.satsCharged == 0 && row.minutesBilled == 0
            && later.commands == db.commands + [CommandRow(m, StartRental(|db.rentals|, image, row.sshKey), false)]
            && (BringsKey(key) ==> row.sshKey != "" && Stripped(key.value, row.sshKey, pre, post))
            && (!BringsKey(key) ==> row.sshKey == "" && "metal:" <= image)
  {
    pre, post := "", "";
    if key.Some? {
      pre, post := TrimStrips(key.value);
    }
    assert Apply(db, CreateRental(m, a, image, key, at)).rentals[..|db.rentals|] == db.rentals;
  }

  /** A delete marks its rental and queues one stop of it for its machine; nothing else changes. */
  lemma StopRequested(db: Db, r: nat)
    requires WellFormed(db) && r < |db.rentals|
    ensures Apply(db, RequestStop(r)) ==
              db.(rentals := db.rentals[r := db.rentals[r].(status := Evicting)],
                  commands := db.commands + [CommandRow(db.rentals[r].machine, StopRental(r), false)])
  {
  }

  lemma LastPrice(txs: seq<Tx>, m: nat)
    requires Run(EMPTY, txs) && m < |After(EMPTY, txs).machines|
    ensures var row := After(EMPTY, txs).machines[m];
            LastWrite(txs, Prices(m, row.hostId)) == Some(row.rate)
  {
    MachineHistory(EMPTY, txs, m);
  }

  /** A new rental is charged by the price its host last registered or set. */
  lemma ChargedAtTheLastPrice(txs: seq<Tx>, db: Db, m: nat, a: nat, image: string, key: Option<string>, at: int)
    requires Run(EMPTY, txs) && After(EMPTY, txs) == db && RentalRefusal(db, m, a, image, key).None?
    ensures var later := Apply(db, CreateRental(m, a, image, key, at));
            && |later.rentals| == |db.rentals| + 1
            && LastWrite(txs, Prices(m, db.machines[m].hostId)) == Some(later.rentals[|db.rentals|].rate)
  {
    LastPrice(txs, m);
    var pre, post := Accepted(db, m, a, image, key, at);
  }
}
