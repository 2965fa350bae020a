/**
 The ticker's invoice poll, interleaved with every handler.

 One poll reads the unsettled invoices, then asks the Lightning node about each in turn and credits
 the paid ones, a transaction apiece. Handlers may commit between any two of those moments. There
 is one ticker: a poll starts only when the previous one has finished or given up.
 */
module Ticker {
  import opened Model
  import opened Tables
  import opened Database
  import opened Books

  datatype Answer = Paid | Unpaid | Error

  datatype State = State(db: Db, todo: seq<nat>)

  datatype Step =
    | Handle(tx: Tx)
    | StartPoll(rows: seq<nat>)
    | Ask(answer: Answer, at: int)

  /** The answer to `SELECT ... WHERE settled = 0`, in whatever order the rows come. */
  ghost predicate ListsUnsettled(db: Db, rows: seq<nat>) {
    && Distinct(rows)
    && (forall i :: 0 <= i < |rows| ==> rows[i] < |db.invoices| && !db.invoices[rows[i]].settled)
    && (forall r: nat :: r < |db.invoices| && !db.invoices[r].settled ==> r in rows)
  }

  ghost predicate Possible(s: State, step: Step)
    requires WellFormed(s.db)
  {
    match step
    case Handle(tx) => !tx.SettleInvoice? && Legal(s.db, tx)
    case StartPoll(rows) => s.todo == [] && ListsUnsettled(s.db, rows)
    case Ask(_, _) => |s.todo| > 0 && s.todo[0] < |s.db.invoices|
  }

  function Commits(s: State, step: Step): seq<Tx> {
    match step
    case Handle(tx) => [tx]
    case StartPoll(_) => []
    case Ask(answer, at) => if answer == Paid && |s.todo| > 0 then [SettleInvoice(s.todo[0], at)] else []
  }

  /** An error from the node abandons the rest of the poll. */
  function Do(s: State, step: Step): State
    requires WellFormed(s.db)
    requires Commits(s, step) != [] ==> Legal(s.db, Commits(s, step)[0])
  {
    var db := if Commits(s, step) == [] then s.db else Apply(s.db, Commits(s, step)[0]);
    match step
    case Handle(_) => State(db, s.todo)
    case StartPoll(rows) => State(db, rows)
    case Ask(answer, _) => State(db, if answer == Error || |s.todo| == 0 then [] else s.todo[1..])
  }

  ghost predicate Inv(s: State) {
    && WellFormed(s.db)
    && Distinct(s.todo)
    && forall i :: 0 <= i < |s.todo| ==> s.todo[i] < |s.db.invoices| && !s.db.invoices[s.todo[i]].settled
  }

  predicate Settled(db: Db, i: nat) {
    i < |db.invoices| && db.invoices[i].settled
  }

  lemma SettledStep(db: Db, tx: Tx, i: nat)
    requires WellFormed(db) && Legal(db, tx)
    ensures |db.invoices| <= |Apply(db, tx).invoices|
    ensures Settled(Apply(db, tx), i) <==> Settled(db, i) || (tx.SettleInvoice? && tx.invoice == i)
  {
  }

  lemma InvStep(s: State, step: Step)
    requires Inv(s) && Possible(s, step)
    ensures Commits(s, step) != [] ==>
              Legal(s.db, Commits(s, step)[0]) && !SecondCredit(s.db, Commits(s, step)[0])
    ensures Inv(Do(s, step))
  {
    var txs := Commits(s, step);
    if txs != [] {
      StaysWellFormed(s.db, txs[0]);
      forall i: nat
        ensures |s.db.invoices| <= |Apply(s.db, txs[0]).invoices|
        ensures Settled(Apply(s.db, txs[0]), i) <==> Settled(s.db, i) || (txs[0].SettleInvoice? && txs[0].invoice == i)
      {
        SettledStep(s.db, txs[0], i);
      }
    }
    var next := Do(s, step);
    forall k | 0 <= k < |next.todo|
      ensures next.todo[k] < |next.db.invoices| && !next.db.invoices[next.todo[k]].settled
    {
      assert !Settled(next.db, next.todo[k]);
    }
  }

  ghost predicate TickerRun(s: State, steps: seq<Step>)
    requires Inv(s)
    decreases |steps|
  {
    |steps| == 0 ||
    (&& Possible(s, steps[0])
     && (InvStep(s, steps[0]); TickerRun(Do(s, steps[0]), steps[1..])))
  }

  ghost function Trace(s: State, steps: seq<Step>): seq<Tx>
    requires Inv(s) && TickerRun(s, steps)
    decreases |steps|
  {
    if |steps| == 0 then []
    else
      InvStep(s, steps[0]);
      Commits(s, steps[0]) + Trace(Do(s, steps[0]), steps[1..])
  }

  /** How often invoice `i` is credited in a list of transactions. */
  function Credits(txs: seq<Tx>, i: nat): nat {
    if |txs| == 0 then 0
    else (if txs[0].SettleInvoice? && txs[0].invoice == i then 1 else 0) + Credits(txs[1..], i)
  }

  lemma PrependTx(db: Db, tx: Tx, txs: seq<Tx>, i: nat)
    requires WellFormed(db) && Legal(db, tx) && !SecondCredit(db, tx)
    requires WellFormed(Apply(db, tx)) && Run(Apply(db, tx), txs) && Along(Apply(db, tx), txs, SingleCredit())
    ensures Run(db, [tx] + txs) && Along(db, [tx] + txs, SingleCredit())
    ensures After(db, [tx] + txs) == After(Apply(db, tx), txs)
    ensures Credits([tx] + txs, i) == (if tx.SettleInvoice? && tx.invoice == i then 1 else 0) + Credits(txs, i)
  {
    var all := [tx] + txs;
    assert all[0] == tx && all[1..] == txs;
  }

  lemma {:induction false} TraceCredits(s: State, steps: seq<Step>, i: nat)
    requires Inv(s) && TickerRun(s, steps)
    ensures var txs := Trace(s, steps);
            && Run(s.db, txs) && Along(s.db, txs, SingleCredit())
            && Credits(txs, i) + (if Settled(s.db, i) then 1 else 0) == if Settled(After(s.db, txs), i) then 1 else 0
    decreases |steps|
  {
    if |steps| > 0 {
      var step, rest := steps[0], steps[1..];
      InvStep(s, step);
      var next := Do(s, step);
      TraceCredits(next, rest, i);
      var txs := Commits(s, step);
      if txs == [] {
        assert Trace(s, steps) == Trace(next, rest);
      } else {
        SettledStep(s.db, txs[0], i);
        PrependTx(s.db, txs[0], Trace(next, rest), i);
        assert Trace(s, steps) == [txs[0]] + Trace(next, rest);
      }
    }
  }

  datatype Asked = Asked(invoice: nat, answer: Answer)

  /** What the node was asked along a run, and what it answered. */
  ghost function Conversation(s: State, steps: seq<Step>): seq<Asked>
    requires Inv(s) && TickerRun(s, steps)
    decreases |steps|
  {
    if |steps| == 0 then []
    else
      InvStep(s, steps[0]);
      (if steps[0].Ask? then [Asked(s.todo[0], steps[0].answer)] else []) + Conversation(Do(s, steps[0]), steps[1..])
  }

  function PaidAnswers(asked: seq<Asked>, i: nat): nat {
    if |asked| == 0 then 0
    else (if asked[0] == Asked(i, Paid) then 1 else 0) + PaidAnswers(asked[1..], i)
  }

  /** An invoice is credited exactly as often as the node answered that it is paid. */
  lemma {:induction false} CreditedIfPaid(s: State, steps: seq<Step>, i: nat)
    requires Inv(s) && TickerRun(s, steps)
    ensures Credits(Trace(s, steps), i) == PaidAnswers(Conversation(s, steps), i)
    decreases |steps|
  {
    if |steps| > 0 {
      var step, rest := steps[0], steps[1..];
      InvStep(s, step);
      var next := Do(s, step);
      CreditedIfPaid(next, rest, i);
      var txs, more := Commits(s, step), Conversation(next, rest);
      if txs == [] {
        assert Trace(s, steps) == Trace(next, rest);
      } else {
        assert Trace(s, steps) == [txs[0]] + Trace(next, rest);
        assert ([txs[0]] + Trace(next, rest))[1..] == Trace(next, rest);
      }
      if step.Ask? {
        assert Conversation(s, steps) == [Asked(s.todo[0], step.answer)] + more;
        assert ([Asked(s.todo[0], step.answer)] + more)[1..] == more;
      } else {
        assert Conversation(s, steps) == more;
      }
    }
  }

  /** After an error the poll is over: nothing is asked until the next one starts. */
  lemma ErrorEndsPoll(s: State, at: int, tx: Tx, answer: Answer, at': int)
    requires Inv(s) && Possible(s, Ask(Error, at))
    ensures Do(s, Ask(Error, at)).db == s.db
    ensures Inv(Do(s, Ask(Error, at))) && !Possible(Do(s, Ask(Error, at)), Ask(answer, at'))
    ensures Possible(Do(s, Ask(Error, at)), Handle(tx)) ==>
              Inv(Do(Do(s, Ask(Error, at)), Handle(tx))) && !Possible(Do(Do(s, Ask(Error, at)), Handle(tx)), Ask(answer, at'))
  {
    InvStep(s, Ask(Error, at));
    if Possible(Do(s, Ask(Error, at)), Handle(tx)) {
      InvStep(Do(s, Ask(Error, at)), Handle(tx));
    }
  }

  const START: State := State(EMPTY, [])

  /**
   However handlers interleave with the poll and whatever the node answers, an invoice is credited
   exactly once if it is settled and never otherwise, and every group of accounts was credited
   exactly the sats of its settled invoices.
   */
  lemma CreditedOnce(steps: seq<Step>, i: nat, who: nat -> bool)
    requires TickerRun(START, steps)
    ensures var txs := Trace(START, steps);
            && Run(EMPTY, txs)
            && var db := After(EMPTY, txs);
               && Credits(txs, i) == (if Settled(db, i) then 1 else 0)
               && Sum(db.ledger, DepositsOf(who)) == SettledSats(db.invoices, who)
  {
    TraceCredits(START, steps, i);
    DepositBooksHold(EMPTY, Trace(START, steps));
  }
}
