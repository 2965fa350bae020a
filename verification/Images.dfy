/** The image strings an agent takes apart: container tags and Metal task names. */
module Images {
  import opened Model

  // ---- repo[:tag] ----------------------------------------------------------

  function RFind(s: string, c: char): (i: Option<nat>)
    ensures i.Some? ==> i.value < |s| && s[i.value] == c && c !in s[i.value + 1..]
    ensures i.None? ==> c !in s
  {
    if |s| == 0 then None
    else if s[|s| - 1] == c then Some(|s| - 1)
    else
      var i := RFind(s[..|s| - 1], c);
      assert i.Some? ==> s[i.value + 1..] == s[..|s| - 1][i.value + 1..] + [s[|s| - 1]];
      i
  }

  /** Where the last path segment begins. */
  function LastSegment(image: string): (start: nat)
    ensures start <= |image| && '/' !in image[start..]
    ensures start > 0 ==> image[start - 1] == '/'
  {
    var slash := RFind(image, '/');
    if slash.Some? then slash.value + 1 else 0
  }

  /** A colon counts as a tag separator only after the last slash. */
  function SplitImageTag(image: string): (string, string) {
    var start := LastSegment(image);
    match RFind(image[start..], ':')
    case Some(rel) => (image[..start + rel], image[start + rel + 1..])
    case None => (image, "latest")
  }

  lemma NotInTail(s: string, c: char, i: nat)
    requires i < |s| && c !in s[i + 1..]
    ensures forall k :: i < k < |s| ==> s[k] != c
  {
    assert forall k :: i < k < |s| ==> s[k] == s[i + 1..][k - i - 1];
  }

  lemma RFindIs(s: string, c: char, i: nat)
    requires i < |s| && s[i] == c && c !in s[i + 1..]
    ensures RFind(s, c) == Some(i)
  {
    var j := RFind(s, c);
    assert s[i] in s;
    NotInTail(s, c, i);
    NotInTail(s, c, j.value);
  }

  lemma Joined(repo: string, tag: string)
    ensures var image := repo + ":" + tag;
            && |repo| < |image| && image[|repo|] == ':'
            && image[..|repo|] == repo && image[|repo| + 1..] == tag
  {
  }

  lemma SegmentBeforeTag(repo: string, tag: string)
    requires '/' !in tag
    ensures LastSegment(repo + ":" + tag) <= |repo|
  {
    var image := repo + ":" + tag;
    Joined(repo, tag);
    NotInTail(image, '/', |repo|);
  }

  /** Joining a repository and a plain tag, then splitting, gives both back. */
  lemma SplitUndoesJoin(repo: string, tag: string)
    requires '/' !in tag && ':' !in tag
    ensures SplitImageTag(repo + ":" + tag) == (repo, tag)
  {
    var image := repo + ":" + tag;
    Joined(repo, tag);
    SegmentBeforeTag(repo, tag);
    var start := LastSegment(image);
    var last, rel := image[start..], |repo| - start;
    assert last[rel] == ':' && last[rel + 1..] == tag;
    RFindIs(last, ':', rel);
  }

  /** Every split is stable: its tag is plain, and joining the parts splits the same way again. */
  lemma SplitIsStable(image: string)
    ensures var (repo, tag) := SplitImageTag(image);
            && '/' !in tag && ':' !in tag
            && SplitImageTag(repo + ":" + tag) == (repo, tag)
            && (repo + ":" + tag == image || (repo == image && tag == "latest"))
  {
    var (repo, tag) := SplitImageTag(image);
    var start := LastSegment(image);
    var rel := RFind(image[start..], ':');
    if rel.Some? {
      assert tag == image[start..][rel.value + 1..];
      assert image == repo + ":" + tag;
    }
    SplitUndoesJoin(repo, tag);
  }

  // ---- metal:gemm[:N] ------------------------------------------------------

  const U32 := 0x1_0000_0000

  predicate IsDigit(c: char) {
    '0' <= c <= '9'
  }

  function Digits(s: string): (n: Option<nat>)
  {
    if |s| == 0 then Some(0)
    else if !IsDigit(s[|s| - 1]) then None
    else
      match Digits(s[..|s| - 1])
      case Some(n) => Some(10 * n + (s[|s| - 1] - '0') as nat)
      case None => None
  }

  /** Rust's `str::parse::<u32>`: an optional plus sign, at least one digit, and no overflow. */
  function ParseU32(s: string): Option<nat> {
    var body := if |s| > 0 && s[0] == '+' then s[1..] else s;
    if |body| == 0 then None
    else
      match Digits(body)
      case Some(n) => if n < U32 then Some(n) else None
      case None => None
  }

  function Decimal(n: nat): (s: string)
    ensures |s| > 0 && forall i :: 0 <= i < |s| ==> IsDigit(s[i])
  {
    var last := [(n % 10) as char + '0'];
    if n < 10 then last else Decimal(n / 10) + last
  }

  lemma {:induction false} DigitsOfDecimal(n: nat)
    ensures Digits(Decimal(n)) == Some(n)
  {
    var s := Decimal(n);
    if n >= 10 {
      DigitsOfDecimal(n / 10);
      assert s[..|s| - 1] == Decimal(n / 10);
    } else {
      assert s[..|s| - 1] == "";
    }
  }

  function Zeros(z: nat): string {
    seq(z, _ => '0')
  }

  /** A digit string has the value of the numeral left when its leading zeros are dropped. */
  lemma {:induction false} DigitsMean(s: string, n: nat) returns (z: nat)
    requires |s| > 0 && Digits(s) == Some(n)
    ensures s == Zeros(z) + Decimal(n)
  {
    var init, c := s[..|s| - 1], s[|s| - 1];
    assert s == init + [c];
    var m := Digits(init).value;
    assert n == 10 * m + (c - '0') as nat;
    assert [(n % 10) as char + '0'] == [c];
    if init == "" {
      z := 0;
      assert Zeros(0) == "";
    } else {
      var y := DigitsMean(init, m);
      if m == 0 {
        z := y + 1;
        assert Decimal(0) == "0";
        assert Zeros(y) + "0" == Zeros(y + 1);
      } else {
        z := y;
        assert Decimal(n) == Decimal(m) + [c];
        assert s == Zeros(y) + Decimal(m) + [c];
      }
    }
  }

  lemma {:induction false} LeadingZeros(z: nat, s: string)
    ensures Digits(Zeros(z) + s) == Digits(s)
    decreases |s|
  {
    var t := Zeros(z) + s;
    if |s| == 0 {
      ZerosAreZero(z);
      assert t == Zeros(z);
    } else {
      LeadingZeros(z, s[..|s| - 1]);
      assert t[..|t| - 1] == Zeros(z) + s[..|s| - 1];
    }
  }

  lemma {:induction false} ZerosAreZero(z: nat)
    ensures Digits(Zeros(z)) == Some(0)
  {
    if z > 0 {
      ZerosAreZero(z - 1);
      assert Zeros(z)[..z - 1] == Zeros(z - 1);
    }
  }

  /** Exactly what parses as `n`: an optional plus sign, any zeros, and the decimal numeral of `n`, below 2^32. */
  lemma ParsesAs(s: string, n: nat)
    ensures ParseU32(s) == Some(n) <==>
              n < 0x1_0000_0000 && exists z: nat :: s == Zeros(z) + Decimal(n) || s == "+" + (Zeros(z) + Decimal(n))
  {
    if ParseU32(s) == Some(n) {
      var body := if |s| > 0 && s[0] == '+' then s[1..] else s;
      var z := DigitsMean(body, n);
      assert s == body || s == "+" + body;
    } else {
      forall z: nat | s == Zeros(z) + Decimal(n) || s == "+" + (Zeros(z) + Decimal(n)) ensures n >= U32 {
        var body := Zeros(z) + Decimal(n);
        LeadingZeros(z, Decimal(n));
        DigitsOfDecimal(n);
        NumeralStarts(z, n);
        assert s == "+" + body ==> s[1..] == body;
      }
    }
  }

  lemma NumeralStarts(z: nat, n: nat)
    ensures var body := Zeros(z) + Decimal(n);
            |body| > 0 && body[0] != '+'
  {
    var body := Zeros(z) + Decimal(n);
    assert if z > 0 then body[0] == '0' else body[0] == Decimal(n)[0];
  }

  predicate AllowedSize(n: nat) {
    256 <= n <= 16384 && n % 8 == 0
  }

  /** The first colon, if any. */
  function Find(s: string, c: char): (i: Option<nat>)
    ensures i.Some? ==> i.value < |s| && s[i.value] == c && c !in s[..i.value]
    ensures i.None? ==> c !in s
  {
    if |s| == 0 then None
    else if s[0] == c then Some(0)
    else
      match Find(s[1..], c)
      case Some(i) => assert s[..i + 1] == [s[0]] + s[1..][..i]; Some(i + 1)
      case None => None
  }

  /** The GEMM size an image asks for, or `None` where the runtime refuses it. */
  function ParseTask(image: string): Option<nat> {
    if !IsHttpStatusImage(image) then None
    else
      var rest := image[6..];
      var colon := Find(rest, ':');
      var task := if colon.Some? then rest[..colon.value] else rest;
      var size := if colon.Some? then ParseU32(rest[colon.value + 1..]) else Some(2048);
      if task != "gemm" then None
      else if size.None? || !AllowedSize(size.value) then None
      else size
  }

  lemma ParseGemm(arg: string)
    ensures ParseTask("metal:gemm:" + arg) ==
              if ParseU32(arg).Some? && AllowedSize(ParseU32(arg).value) then ParseU32(arg) else None
  {
    var image := "metal:gemm:" + arg;
    var rest := image[6..];
    assert rest == "gemm:" + arg;
    assert rest[0] == 'g' && rest[1] == 'e' && rest[2] == 'm' && rest[3] == 'm' && rest[4] == ':';
    var i := Find(rest, ':');
    assert rest[4] in rest;
    assert forall k :: 0 <= k < i.value ==> rest[k] == rest[..i.value][k];
    assert i.value == 4;
    assert rest[..4] == "gemm" && rest[5..] == arg;
  }

  /** Asking for a size in decimal is answered with that size exactly when it is allowed. */
  lemma TaskRoundTrip(n: nat)
    ensures ParseTask("metal:gemm:" + Decimal(n)) == if 256 <= n <= 16384 && n % 8 == 0 then Some(n) else None
  {
    ParseGemm(Decimal(n));
    DigitsOfDecimal(n);
    assert Decimal(n)[0] != '+';
  }

  lemma BareTask()
    ensures ParseTask("metal:gemm") == Some(2048)
  {
    var rest := "metal:gemm"[6..];
    assert rest == "gemm" && ':' !in rest;
  }

  /** The accepted images, completely: `metal:gemm`, or `metal:gemm:` and a size that parses and is allowed. */
  lemma AcceptedTasks(image: string)
    ensures ParseTask(image).Some? <==>
              || image == "metal:gemm"
              || (exists arg :: image == "metal:gemm:" + arg
                                && ParseU32(arg).Some? && AllowedSize(ParseU32(arg).value))
    ensures ParseTask(image).Some? ==>
              && IsHttpStatusImage(image) && "metal:" <= image
              && 256 <= ParseTask(image).value <= 16384 && ParseTask(image).value % 8 == 0
  {
    BareTask();
    if ParseTask(image).Some? {
      var rest := image[6..];
      var colon := Find(rest, ':');
      assert image == "metal:" + rest;
      if colon.Some? {
        var arg := rest[colon.value + 1..];
        assert rest == rest[..colon.value] + ":" + arg;
        assert image == "metal:gemm:" + arg;
      }
    } else {
      forall arg | image == "metal:gemm:" + arg
        ensures !(ParseU32(arg).Some? && AllowedSize(ParseU32(arg).value))
      {
        ParseGemm(arg);
      }
    }
  }
}
