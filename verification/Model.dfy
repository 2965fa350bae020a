/** The domain enums and wire types shared by the control plane and the agent. */
module Model {

  datatype Option<+T> = None | Some(value: T) {
    function GetOr(default: T): T {
      match this
      case Some(v) => v
      case None => default
    }
  }

  /** What a handler answers when it refuses a request; each constructor is one HTTP status. */
  datatype ApiError = Unauthorized | BadRequest | NotFound | Conflict | PaymentRequired | BadGateway

  datatype Result<+T> = Ok(value: T) | Err(error: ApiError)

  datatype RentalStatus = Provisioning | Running | Evicting | Stopped | Failed {
    predicate OccupiesMachine() {
      Provisioning? || Running? || Evicting?
    }

    predicate IsTerminal() {
      Stopped? || Failed?
    }
  }

  const ALL: seq<RentalStatus> := [Provisioning, Running, Evicting, Stopped, Failed]

  datatype RentalKind = Ssh | HttpStatus | HttpOpenai

  datatype LedgerKind = Deposit | RentalCharge | HostCredit | Payout | Evict

  datatype Command =
    | StartRental(rental: nat, image: string, sshKey: string)
    | StopRental(rental: nat)

  /** Body of `POST /agent/report`, less the rental id. */
  datatype ReportRequest = ReportRequest(
    status: RentalStatus,
    kind: Option<RentalKind>,
    sshPort: Option<int>,
    containerId: Option<string>,
    error: Option<string>)

  predicate IsHttpStatusImage(image: string) {
    "metal:" <= image
  }

  function Min(x: int, y: int): int {
    if x <= y then x else y
  }

  function Max(x: int, y: int): int {
    if x >= y then x else y
  }
}

/** Filtering and summing sequences. Both recurse from the end, the way tables grow. */
module Tables {

  function Filter<T>(s: seq<T>, p: T -> bool): seq<T> {
    if |s| == 0 then []
    else Filter(s[..|s| - 1], p) + if p(s[|s| - 1]) then [s[|s| - 1]] else []
  }

  lemma {:induction false} FilterAppend<T>(s: seq<T>, t: seq<T>, p: T -> bool)
    ensures Filter(s + t, p) == Filter(s, p) + Filter(t, p)
    decreases |t|
  {
    if |t| == 0 {
      assert s + t == s;
    } else {
      var u, x := t[..|t| - 1], t[|t| - 1];
      assert (s + t)[..|s + t| - 1] == s + u;
      FilterAppend(s, u, p);
    }
  }

  predicate Distinct<T(==)>(s: seq<T>) {
    forall i, j :: 0 <= i < j < |s| ==> s[i] != s[j]
  }

  lemma DistinctAppend<T>(s: seq<T>, x: T)
    ensures Distinct(s + [x]) <==> Distinct(s) && x !in s
  {
    var t := s + [x];
    if Distinct(t) {
      forall i | 0 <= i < |s| ensures s[i] != x {
        assert t[i] != t[|s|];
      }
      forall i, j | 0 <= i < j < |s| ensures s[i] != s[j] {
        assert t[i] != t[j];
      }
    }
  }

  lemma {:induction false} FilterMembers<T>(s: seq<T>, p: T -> bool)
    ensures forall x :: x in Filter(s, p) <==> x in s && p(x)
    ensures Distinct(s) ==> Distinct(Filter(s, p))
  {
    if |s| > 0 {
      FilterMembers(s[..|s| - 1], p);
      assert forall x :: x in s <==> x in s[..|s| - 1] || x == s[|s| - 1];
    }
  }

  lemma {:induction false} FilterNone<T>(s: seq<T>, p: T -> bool)
    requires forall x :: x in s ==> !p(x)
    ensures Filter(s, p) == []
  {
    if |s| > 0 {
      assert s[|s| - 1] in s;
      FilterNone(s[..|s| - 1], p);
    }
  }

  function Total(s: seq<int>): int {
    if |s| == 0 then 0 else Total(s[..|s| - 1]) + s[|s| - 1]
  }

  /** Writing one cell moves the total by exactly the change to that cell. */
  lemma {:induction false} TotalUpdate(s: seq<int>, i: nat, x: int)
    requires i < |s|
    ensures Total(s[i := x]) == Total(s) - s[i] + x
    decreases |s|
  {
    var n := |s| - 1;
    if i < n {
      assert s[i := x][..n] == s[..n][i := x];
      TotalUpdate(s[..n], i, x);
    } else {
      assert s[i := x][..n] == s[..n];
    }
  }

  lemma {:induction false} TotalNonNegative(s: seq<int>)
    requires forall i :: 0 <= i < |s| ==> s[i] >= 0
    ensures Total(s) >= 0
    ensures Total(s) == 0 <==> forall i :: 0 <= i < |s| ==> s[i] == 0
  {
    if |s| > 0 {
      var n := |s| - 1;
      TotalNonNegative(s[..n]);
      assert forall i :: 0 <= i < n ==> s[..n][i] == s[i];
      if forall i :: 0 <= i < |s| ==> s[i] == 0 {
        assert forall i :: 0 <= i < n ==> s[..n][i] == 0;
      } else {
        var i :| 0 <= i < |s| && s[i] != 0;
        assert i < n ==> s[..n][i] != 0;
      }
    }
  }
}
