/**
 The command table is one FIFO queue per machine, and what a machine is told makes sense.

 Rows are inserted with `delivered = 0`; a heartbeat returns a machine's undelivered rows in id
 order and marks them. Everything here holds of every run, whatever the agents report and however
 the handlers interleave.
 */
module Commands {
  import opened Model
  import opened Tables
  import opened Database

  /** A command together with its row id, so that equal commands in different rows stay apart. */
  datatype Item = Item(id: nat, command: Command)

  datatype View = Queued | Sent | Waiting {
    predicate Shows(row: CommandRow) {
      match this
      case Queued => true
      case Sent => row.delivered
      case Waiting => !row.delivered
    }
  }

  /** Machine `m`'s rows of one view, in id order. */
  function Items(commands: seq<CommandRow>, m: nat, view: View): seq<Item> {
    if |commands| == 0 then []
    else
      var last := |commands| - 1;
      var row := commands[last];
      Items(commands[..last], m, view)
      + if row.machine == m && view.Shows(row) then [Item(last, row.command)] else []
  }

  /** What the heartbeat answers: the payloads of the machine's undelivered rows, in id order. */
  function Response(commands: seq<CommandRow>, m: nat): seq<Item> {
    Items(commands, m, Waiting)
  }

  /** No undelivered row of a machine lies before a delivered one. */
  ghost predicate InOrder(commands: seq<CommandRow>) {
    forall i, j :: 0 <= i < j < |commands| && commands[i].machine == commands[j].machine && commands[j].delivered
      ==> commands[i].delivered
  }

  /** Sent rows are a prefix of the queue and the waiting ones are the rest. */
  lemma {:induction false} QueueSplits(commands: seq<CommandRow>, m: nat)
    requires InOrder(commands)
    ensures Items(commands, m, Queued) == Items(commands, m, Sent) + Items(commands, m, Waiting)
  {
    if |commands| > 0 {
      var last := |commands| - 1;
      var init, row := commands[..last], commands[last];
      QueueSplits(init, m);
      if row.machine == m && row.delivered {
        NoneWaiting(init, m);
      }
    }
  }

  lemma {:induction false} NoneWaiting(commands: seq<CommandRow>, m: nat)
    requires forall i :: 0 <= i < |commands| && commands[i].machine == m ==> commands[i].delivered
    ensures Items(commands, m, Waiting) == []
  {
    if |commands| > 0 {
      NoneWaiting(commands[..|commands| - 1], m);
    }
  }

  lemma {:induction false} MarkedItems(commands: seq<CommandRow>, beat: nat, m: nat)
    ensures var marked := MarkDelivered(commands, beat);
            && Items(marked, m, Queued) == Items(commands, m, Queued)
            && Items(marked, m, Sent) == (if m == beat then Items(commands, m, Queued) else Items(commands, m, Sent))
            && Items(marked, m, Waiting) == (if m == beat then [] else Items(commands, m, Waiting))
  {
    if |commands| > 0 {
      var last := |commands| - 1;
      MarkedItems(commands[..last], beat, m);
      assert MarkDelivered(commands, beat)[..last] == MarkDelivered(commands[..last], beat);
    }
  }

  // ---- refinement of a FIFO queue ------------------------------------------

  /** The abstract queue: everything pushed, and how much of it has been popped. */
  datatype Fifo = Fifo(pushed: seq<Item>, popped: nat)

  ghost function Abstract(db: Db, m: nat): Fifo {
    Fifo(Items(db.commands, m, Queued), |Items(db.commands, m, Sent)|)
  }

  ghost predicate Push(q: Fifo, items: seq<Item>, q': Fifo) {
    q' == Fifo(q.pushed + items, q.popped)
  }

  /** Popping everything yields exactly what was pushed and not yet popped, oldest first. */
  ghost predicate PopAll(q: Fifo, answer: seq<Item>, q': Fifo) {
    q.popped <= |q.pushed| && answer == q.pushed[q.popped..] && q' == Fifo(q.pushed, |q.pushed|)
  }

  lemma AppendedRow(commands: seq<CommandRow>, row: CommandRow, m: nat, view: View)
    ensures Items(commands + [row], m, view) ==
              Items(commands, m, view)
              + if row.machine == m && view.Shows(row) then [Item(|commands|, row.command)] else []
  {
    assert (commands + [row])[..|commands|] == commands;
  }

  /** The command a transaction issues, and the machine it is for. */
  function Issued(db: Db, tx: Tx): Option<CommandRow>
    requires WellFormed(db) && Legal(db, tx)
  {
    match tx
    case CreateRental(m, a, image, key, _) =>
      if RentalRefusal(db, m, a, image, key).Some? then None
      else Some(CommandRow(m, StartRental(|db.rentals|, image, AcceptedKey(image, key).value), false))
    case RequestStop(r) => Some(CommandRow(db.rentals[r].machine, StopRental(r), false))
    case EvictRental(r, _) => Some(CommandRow(db.rentals[r].machine, StopRental(r), false))
    case _ => None
  }

  function IssuedTo(db: Db, tx: Tx, m: nat): seq<Item>
    requires WellFormed(db) && Legal(db, tx)
  {
    if Issued(db, tx).Some? && Issued(db, tx).value.machine == m
    then [Item(|db.commands|, Issued(db, tx).value.command)] else []
  }

  /** The command table after one transaction: marked for a heartbeat's machine, or grown by one row. */
  function Table(commands: seq<CommandRow>, beat: Option<nat>, row: Option<CommandRow>): seq<CommandRow> {
    if beat.Some? then MarkDelivered(commands, beat.value)
    else if row.Some? then commands + [row.value]
    else commands
  }

  function Beat(tx: Tx): Option<nat> {
    if tx.Heartbeat? then Some(tx.machine) else None
  }

  lemma TableStep(db: Db, tx: Tx)
    requires WellFormed(db) && Legal(db, tx)
    ensures Apply(db, tx).commands == Table(db.commands, Beat(tx), Issued(db, tx))
    ensures Issued(db, tx).Some? ==> Beat(tx).None? && !Issued(db, tx).value.delivered
  {
  }

  lemma OrderKept(commands: seq<CommandRow>, beat: Option<nat>, row: Option<CommandRow>)
    requires InOrder(commands) && (row.Some? ==> !row.value.delivered)
    ensures InOrder(Table(commands, beat, row))
  {
  }

  lemma ViewsAfter(commands: seq<CommandRow>, beat: Option<nat>, row: Option<CommandRow>, m: nat)
    requires InOrder(commands)
    requires row.Some? ==> beat.None? && !row.value.delivered
    ensures Items(Table(commands, beat, row), m, Queued) == Items(commands, m, Queued)
              + (if row.Some? && row.value.machine == m then [Item(|commands|, row.value.command)] else [])
    ensures Items(Table(commands, beat, row), m, Sent) ==
              Items(commands, m, Sent) + if beat == Some(m) then Items(commands, m, Waiting) else []
  {
    if beat.Some? {
      QueueSplits(commands, m);
      MarkedItems(commands, beat.value, m);
    } else if row.Some? {
      AppendedRow(commands, row.value, m, Queued);
      AppendedRow(commands, row.value, m, Sent);
    }
  }

  /** What one transaction does to one machine's queue. */
  lemma ViewStep(db: Db, tx: Tx, m: nat)
    requires WellFormed(db) && Legal(db, tx) && InOrder(db.commands)
    ensures InOrder(Apply(db, tx).commands)
    ensures Items(Apply(db, tx).commands, m, Queued) == Items(db.commands, m, Queued) + IssuedTo(db, tx, m)
    ensures Items(Apply(db, tx).commands, m, Sent) ==
              Items(db.commands, m, Sent) + if Beat(tx) == Some(m) then Response(db.commands, m) else []
  {
    TableStep(db, tx);
    OrderKept(db.commands, Beat(tx), Issued(db, tx));
    ViewsAfter(db.commands, Beat(tx), Issued(db, tx), m);
  }

  /**
   The table refines a FIFO queue per machine: a heartbeat of the machine pops everything, oldest
   first; a transaction that issues it a command pushes that command; all else leaves it alone.
   */
  lemma FifoStep(db: Db, tx: Tx, m: nat)
    requires WellFormed(db) && Legal(db, tx) && InOrder(db.commands)
    ensures InOrder(Apply(db, tx).commands)
    ensures if Beat(tx) == Some(m)
            then PopAll(Abstract(db, m), Response(db.commands, m), Abstract(Apply(db, tx), m))
            else Push(Abstract(db, m), IssuedTo(db, tx, m), Abstract(Apply(db, tx), m))
  {
    QueueSplits(db.commands, m);
    ViewStep(db, tx, m);
  }

  /** Everything machine `m` is answered along a run, in order. */
  ghost function Delivered(db: Db, txs: seq<Tx>, m: nat): seq<Item>
    requires WellFormed(db) && Run(db, txs)
    decreases |txs|
  {
    if |txs| == 0 then []
    else
      StaysWellFormed(db, txs[0]);
      (if Beat(txs[0]) == Some(m) then Response(db.commands, m) else [])
      + Delivered(Apply(db, txs[0]), txs[1..], m)
  }

  lemma {:induction false} DeliveredIsSent(db: Db, txs: seq<Tx>, m: nat)
    requires WellFormed(db) && Run(db, txs) && InOrder(db.commands)
    ensures InOrder(After(db, txs).commands)
    ensures Items(After(db, txs).commands, m, Sent) == Items(db.commands, m, Sent) + Delivered(db, txs, m)
    decreases |txs|
  {
    if |txs| > 0 {
      var tx, rest := txs[0], txs[1..];
      StaysWellFormed(db, tx);
      var next := Apply(db, tx);
      ViewStep(db, tx, m);
      DeliveredIsSent(next, rest, m);
      assert After(db, txs) == After(next, rest);
    }
  }

  /** Row ids along a view strictly increase, so no row is listed twice. */
  lemma {:induction false} IdsIncrease(commands: seq<CommandRow>, m: nat, view: View)
    ensures forall i, j :: 0 <= i < j < |Items(commands, m, view)| ==>
              Items(commands, m, view)[i].id < Items(commands, m, view)[j].id
    ensures forall i :: 0 <= i < |Items(commands, m, view)| ==>
              var item := Items(commands, m, view)[i];
              && item.id < |commands|
              && commands[item.id].machine == m
              && commands[item.id].command == item.command
              && view.Shows(commands[item.id])
  {
    if |commands| > 0 {
      IdsIncrease(commands[..|commands| - 1], m, view);
    }
  }

  /**
   FIFO delivery over every run: the heartbeat answers of a machine, concatenated, are a prefix of
   everything ever queued for it, all of it right after a heartbeat, and repeat no row.
   */
  lemma FifoDelivery(txs: seq<Tx>, m: nat)
    requires Run(EMPTY, txs)
    ensures var db, stream := After(EMPTY, txs), Delivered(EMPTY, txs, m);
            && stream <= Items(db.commands, m, Queued)
            && (|txs| > 0 && Beat(txs[|txs| - 1]) == Some(m)
                ==> stream == Items(db.commands, m, Queued))
            && (forall i, j :: 0 <= i < j < |stream| ==> stream[i].id < stream[j].id)
  {
    DeliveredIsSent(EMPTY, txs, m);
    var db := After(EMPTY, txs);
    QueueSplits(db.commands, m);
    IdsIncrease(db.commands, m, Sent);
    if |txs| > 0 && Beat(txs[|txs| - 1]) == Some(m) {
      EmptyAfterBeat(EMPTY, txs, m);
    }
  }

  lemma {:induction false} EmptyAfterBeat(db: Db, txs: seq<Tx>, m: nat)
    requires WellFormed(db) && Run(db, txs)
    requires |txs| > 0 && Beat(txs[|txs| - 1]) == Some(m)
    ensures Items(After(db, txs).commands, m, Waiting) == []
    decreases |txs|
  {
    var rest := txs[1..];
    StaysWellFormed(db, txs[0]);
    var next := Apply(db, txs[0]);
    assert After(db, txs) == After(next, rest);
    if rest == [] {
      MarkedItems(db.commands, m, m);
    } else {
      EmptyAfterBeat(next, rest, m);
    }
  }

  // ---- what a machine is told ----------------------------------------------

  /** Rental `r` was started by one of the first `n` rows. */
  ghost predicate StartedBefore(commands: seq<CommandRow>, r: nat, n: int) {
    exists i :: 0 <= i < n && i < |commands| && commands[i].command.StartRental? && commands[i].command.rental == r
  }

  ghost predicate Sensible(db: Db) {
    && (forall c :: 0 <= c < |db.commands| ==>
          && db.commands[c].command.rental < |db.rentals|
          && db.rentals[db.commands[c].command.rental].machine == db.commands[c].machine)
    && (forall c, d :: 0 <= c < d < |db.commands|
                       && db.commands[c].command.StartRental? && db.commands[d].command.StartRental?
          ==> db.commands[c].command.rental != db.commands[d].command.rental)
    && (forall c :: 0 <= c < |db.commands| && db.commands[c].command.StopRental?
          ==> StartedBefore(db.commands, db.commands[c].command.rental, c))
    && (forall r :: 0 <= r < |db.rentals| ==> StartedBefore(db.commands, r, |db.commands|))
  }

  lemma StartsKept(before: seq<CommandRow>, later: seq<CommandRow>, r: nat, n: int)
    requires |before| <= |later| && forall c :: 0 <= c < |before| ==> later[c].command == before[c].command
    requires StartedBefore(before, r, n)
    ensures StartedBefore(later, r, n)
  {
  }

  /** The rentals a table of commands may speak of, before and after one transaction. */
  ghost predicate RentalsGrow(db: Db, later: Db, row: Option<CommandRow>) {
    && |db.rentals| <= |later.rentals| <= |db.rentals| + 1
    && (forall r :: 0 <= r < |db.rentals| ==> later.rentals[r].machine == db.rentals[r].machine)
    && (|later.rentals| > |db.rentals| <==> row.Some? && row.value.command.StartRental?)
    && (row.Some? ==>
          && row.value.command.rental < |later.rentals|
          && later.rentals[row.value.command.rental].machine == row.value.machine)
    && (row.Some? && row.value.command.StartRental? ==> row.value.command.rental == |db.rentals|)
  }

  lemma SensibleAfter(db: Db, later: Db, beat: Option<nat>, row: Option<CommandRow>)
    requires Sensible(db) && RentalsGrow(db, later, row)
    requires row.Some? ==> beat.None?
    requires later.commands == Table(db.commands, beat, row)
    ensures Sensible(later)
  {
    forall c | 0 <= c < |later.commands| && later.commands[c].command.StopRental?
      ensures StartedBefore(later.commands, later.commands[c].command.rental, c)
    {
      StartsKept(db.commands, later.commands, later.commands[c].command.rental, c);
    }
    forall r | 0 <= r < |later.rentals|
      ensures StartedBefore(later.commands, r, |later.commands|)
    {
      if r < |db.rentals| {
        StartsKept(db.commands, later.commands, r, |db.commands|);
      } else {
        assert later.commands[|db.commands|].command.rental == r;
      }
    }
  }

  lemma SensibleStep(db: Db, tx: Tx)
    requires WellFormed(db) && Legal(db, tx) && Sensible(db)
    ensures Sensible(Apply(db, tx))
  {
    TableStep(db, tx);
    RentalsStep(db, tx);
    SensibleAfter(db, Apply(db, tx), Beat(tx), Issued(db, tx));
  }

  /** A rental row appears exactly when a start command for it does. */
  lemma RentalsStep(db: Db, tx: Tx)
    requires WellFormed(db) && Legal(db, tx)
    ensures RentalsGrow(db, Apply(db, tx), Issued(db, tx))
  {
    ApplyExtends(db, tx);
  }

  lemma {:induction false} SensibleAlong(db: Db, txs: seq<Tx>)
    requires WellFormed(db) && Run(db, txs) && Sensible(db)
    ensures Sensible(After(db, txs))
    decreases |txs|
  {
    if |txs| > 0 {
      StaysWellFormed(db, txs[0]);
      SensibleStep(db, txs[0]);
      SensibleAlong(Apply(db, txs[0]), txs[1..]);
    }
  }

  lemma {:induction false} Listed(commands: seq<CommandRow>, m: nat, view: View, c: nat)
    requires c < |commands| && commands[c].machine == m && view.Shows(commands[c])
    ensures exists i :: 0 <= i < |Items(commands, m, view)| && Items(commands, m, view)[i] == Item(c, commands[c].command)
  {
    var last := |commands| - 1;
    if c == last {
      var items := Items(commands, m, view);
      assert items[|items| - 1] == Item(c, commands[c].command);
    } else {
      Listed(commands[..last], m, view, c);
      var i :| 0 <= i < |Items(commands[..last], m, view)|
               && Items(commands[..last], m, view)[i] == Item(c, commands[c].command);
      assert Items(commands, m, view)[i] == Item(c, commands[c].command);
    }
  }

  /** A delivered stream names only the machine's own rentals, starts each at most once, and stops none before. */
  ghost predicate SensibleStream(db: Db, m: nat, stream: seq<Item>) {
    && (forall i :: 0 <= i < |stream| ==>
          stream[i].command.rental < |db.rentals| && db.rentals[stream[i].command.rental].machine == m)
    && (forall i, j :: 0 <= i < j < |stream| && stream[i].command.StartRental? && stream[j].command.StartRental?
          ==> stream[i].command.rental != stream[j].command.rental)
    && (forall j :: 0 <= j < |stream| && stream[j].command.StopRental? ==> StartsEarlier(stream, j))
  }

  ghost predicate StartsEarlier(stream: seq<Item>, j: nat)
    requires j < |stream|
  {
    exists i :: 0 <= i < j && stream[i].command.StartRental? && stream[i].command.rental == stream[j].command.rental
  }

  lemma StartSent(db: Db, m: nat, j: nat)
    requires Sensible(db) && InOrder(db.commands)
    requires j < |Items(db.commands, m, Sent)| && Items(db.commands, m, Sent)[j].command.StopRental?
    ensures StartsEarlier(Items(db.commands, m, Sent), j)
  {
    var stream := Items(db.commands, m, Sent);
    IdsIncrease(db.commands, m, Sent);
    var stop := stream[j].id;
    var r := stream[j].command.rental;
    assert StartedBefore(db.commands, r, stop);
    var c :| 0 <= c < stop && db.commands[c].command.StartRental? && db.commands[c].command.rental == r;
    Listed(db.commands, m, Sent, c);
    var i :| 0 <= i < |stream| && stream[i] == Item(c, db.commands[c].command);
    assert i < j;
  }

  lemma SentIsSensible(db: Db, m: nat)
    requires Sensible(db) && InOrder(db.commands)
    ensures SensibleStream(db, m, Items(db.commands, m, Sent))
  {
    var stream := Items(db.commands, m, Sent);
    IdsIncrease(db.commands, m, Sent);
    forall j | 0 <= j < |stream| && stream[j].command.StopRental? ensures StartsEarlier(stream, j) {
      StartSent(db, m, j);
    }
  }

  /** In every run, from the empty tables, whatever the agents report. */
  lemma StreamIsSensible(txs: seq<Tx>, m: nat)
    requires Run(EMPTY, txs)
    ensures SensibleStream(After(EMPTY, txs), m, Delivered(EMPTY, txs, m))
  {
    SensibleAlong(EMPTY, txs);
    DeliveredIsSent(EMPTY, txs, m);
    SentIsSensible(After(EMPTY, txs), m);
    assert Delivered(EMPTY, txs, m) == Items(After(EMPTY, txs).commands, m, Sent);
  }
}
