/** The bytes behind `hw_fingerprint`: canonical, and faithful to the set of GPUs. */
module Fingerprint {

  newtype byte = x: int | 0 <= x < 256

  const BAR: byte := 124
  const NUL: byte := 0

  datatype Key = Key(name: seq<byte>, uuid: seq<byte>, busId: seq<byte>)

  datatype GpuInfo = GpuInfo(key: Key, vramMb: int)

  /** `name|uuid|bus`. */
  function Tuple(k: Key): seq<byte> {
    k.name + [BAR] + (k.uuid + [BAR] + k.busId)
  }

  // ---- byte-wise lexicographic order, as `String` sorts --------------------

  predicate LessEq(s: seq<byte>, t: seq<byte>) {
    |s| == 0 || (|t| > 0 && (s[0] < t[0] || (s[0] == t[0] && LessEq(s[1..], t[1..]))))
  }

  lemma {:induction false} Total(s: seq<byte>, t: seq<byte>)
    ensures LessEq(s, t) || LessEq(t, s)
  {
    if |s| > 0 && |t| > 0 {
      Total(s[1..], t[1..]);
    }
  }

  lemma {:induction false} Antisymmetric(s: seq<byte>, t: seq<byte>)
    requires LessEq(s, t) && LessEq(t, s)
    ensures s == t
  {
    if |s| > 0 && |t| > 0 {
      Antisymmetric(s[1..], t[1..]);
      assert s == [s[0]] + s[1..] && t == [t[0]] + t[1..];
    }
  }

  lemma {:induction false} Transitive(s: seq<byte>, t: seq<byte>, u: seq<byte>)
    requires LessEq(s, t) && LessEq(t, u)
    ensures LessEq(s, u)
  {
    if |s| > 0 && s[0] == t[0] == u[0] {
      Transitive(s[1..], t[1..], u[1..]);
    }
  }

  ghost predicate SmallerAt(s: seq<byte>, t: seq<byte>, i: nat) {
    i < |s| && i < |t| && s[..i] == t[..i] && s[i] < t[i]
  }

  /** A prefix comes first, and otherwise the first byte that differs decides. */
  lemma {:induction false} BytewiseOrder(s: seq<byte>, t: seq<byte>)
    ensures LessEq(s, t) <==> s <= t || exists i: nat :: SmallerAt(s, t, i)
  {
    if |s| > 0 && |t| > 0 {
      BytewiseOrder(s[1..], t[1..]);
      assert s == [s[0]] + s[1..] && t == [t[0]] + t[1..];
      forall i: nat ensures i > 0 && SmallerAt(s, t, i) ==> s[0] == t[0] {
        if i > 0 && SmallerAt(s, t, i) {
          SamePrefix(s, t, i);
        }
      }
      if s[0] == t[0] {
        forall i: nat ensures SmallerAt(s, t, i + 1) <==> SmallerAt(s[1..], t[1..], i) {
          if i < |s| - 1 && i < |t| - 1 {
            assert s[..i + 1] == [s[0]] + s[1..][..i] && t[..i + 1] == [t[0]] + t[1..][..i];
          }
        }
        forall i: nat | SmallerAt(s, t, i) ensures i > 0 && SmallerAt(s[1..], t[1..], i - 1) {
          assert SmallerAt(s, t, i - 1 + 1);
        }
      } else {
        assert s[..0] == t[..0];
        assert SmallerAt(s, t, 0) <==> s[0] < t[0];
      }
    }
  }

  lemma SamePrefix(s: seq<byte>, t: seq<byte>, i: nat)
    requires 0 < i <= |s| && i <= |t| && s[..i] == t[..i]
    ensures s[0] == t[0]
  {
    assert s[0] == s[..i][0] && t[0] == t[..i][0];
  }

  ghost predicate Sorted(ss: seq<seq<byte>>) {
    forall i, j :: 0 <= i < j < |ss| ==> LessEq(ss[i], ss[j])
  }

  function Insert(x: seq<byte>, ss: seq<seq<byte>>): seq<seq<byte>> {
    if |ss| == 0 || LessEq(x, ss[0]) then [x] + ss else [ss[0]] + Insert(x, ss[1..])
  }

  function Sort(ss: seq<seq<byte>>): seq<seq<byte>> {
    if |ss| == 0 then [] else Insert(ss[0], Sort(ss[1..]))
  }

  lemma {:induction false} InsertSorts(x: seq<byte>, ss: seq<seq<byte>>)
    requires Sorted(ss)
    ensures Sorted(Insert(x, ss)) && multiset(Insert(x, ss)) == multiset{x} + multiset(ss)
  {
    if |ss| == 0 {
    } else if LessEq(x, ss[0]) {
      forall j | 0 <= j < |ss| ensures LessEq(x, ss[j]) {
        if j > 0 {
          Transitive(x, ss[0], ss[j]);
        }
      }
    } else {
      var rest := Insert(x, ss[1..]);
      InsertSorts(x, ss[1..]);
      Total(x, ss[0]);
      assert ss == [ss[0]] + ss[1..];
      forall j | 0 <= j < |rest| ensures LessEq(ss[0], rest[j]) {
        assert rest[j] in multiset(rest);
        assert rest[j] == x || rest[j] in ss[1..];
      }
    }
  }

  lemma {:induction false} SortSorts(ss: seq<seq<byte>>)
    ensures Sorted(Sort(ss)) && multiset(Sort(ss)) == multiset(ss)
  {
    if |ss| > 0 {
      SortSorts(ss[1..]);
      InsertSorts(ss[0], Sort(ss[1..]));
      assert ss == [ss[0]] + ss[1..];
    }
  }

  /** A sorted list is determined by its elements. */
  lemma {:induction false} SortedUnique(s: seq<seq<byte>>, t: seq<seq<byte>>)
    requires Sorted(s) && Sorted(t) && multiset(s) == multiset(t)
    ensures s == t
  {
    assert |s| == |multiset(s)| == |multiset(t)| == |t|;
    if |s| > 0 {
      Least(s, t);
      Least(t, s);
      Antisymmetric(s[0], t[0]);
      Behead(s);
      Behead(t);
      SortedUnique(s[1..], t[1..]);
      assert s == [s[0]] + s[1..] && t == [t[0]] + t[1..];
    }
  }

  lemma Behead(s: seq<seq<byte>>)
    requires |s| > 0
    ensures multiset(s[1..]) == multiset(s) - multiset{s[0]}
  {
    assert s == [s[0]] + s[1..];
  }

  lemma Least(s: seq<seq<byte>>, t: seq<seq<byte>>)
    requires Sorted(s) && multiset(s) == multiset(t) && |s| > 0 && |t| > 0
    ensures LessEq(s[0], t[0])
  {
    assert t[0] in multiset(t);
    assert t[0] in s;
    Total(s[0], s[0]);
  }

  // ---- the pre-image -------------------------------------------------------

  function Keys(gpus: seq<GpuInfo>): seq<Key> {
    seq(|gpus|, i requires 0 <= i < |gpus| => gpus[i].key)
  }

  function Tuples(keys: seq<Key>): seq<seq<byte>> {
    seq(|keys|, i requires 0 <= i < |keys| => Tuple(keys[i]))
  }

  /** Each record followed by a NUL. */
  function Feed(records: seq<seq<byte>>): seq<byte> {
    if |records| == 0 then [] else records[0] + [NUL] + Feed(records[1..])
  }

  function Preimage(gpus: seq<GpuInfo>): seq<byte> {
    Feed(Sort(Tuples(Keys(gpus))))
  }

  /** What `fingerprint` feeds the hasher. */
  method Fingerprint(gpus: seq<GpuInfo>) returns (fed: seq<byte>)
    ensures fed == Preimage(gpus)
  {
    var tuples := [];
    for i := 0 to |gpus|
      invariant tuples == Tuples(Keys(gpus))[..i]
    {
      tuples := tuples + [Tuple(gpus[i].key)];
    }
    assert tuples == Tuples(Keys(gpus));
    tuples := Sort(tuples);
    fed := [];
    for i := 0 to |tuples|
      invariant fed + Feed(tuples[i..]) == Feed(tuples)
    {
      assert tuples[i..][1..] == tuples[i + 1..];
      fed := fed + tuples[i];
      fed := fed + [NUL];
    }
    assert tuples[|tuples|..] == [] && fed + [] == fed;
  }

  lemma LeastRecord(ss: seq<seq<byte>>) returns (i: nat)
    requires |ss| > 0
    ensures i < |ss| && |Sort(ss)| == |ss| && Sort(ss)[0] == ss[i]
    ensures forall j :: 0 <= j < |ss| ==> LessEq(ss[i], ss[j])
  {
    var s := Sort(ss);
    SortSorts(ss);
    assert |s| == |multiset(s)| == |multiset(ss)| == |ss|;
    assert s[0] in multiset(s);
    i := IndexOf(ss, s[0]);
    Total(s[0], s[0]);
    forall j | 0 <= j < |ss| ensures LessEq(s[0], ss[j]) {
      assert ss[j] in multiset(ss);
      assert ss[j] in s;
    }
  }

  /**
   The bytes, read from the front: some least record, its three fields in order with bars between, a
   zero byte, and then the bytes of the rest.
   */
  lemma LeastFirst(g: seq<GpuInfo>) returns (i: nat)
    requires |g| > 0
    ensures i < |g| && forall j :: 0 <= j < |g| ==> LessEq(Tuple(g[i].key), Tuple(g[j].key))
    ensures var k := g[i].key;
            Preimage(g) == k.name + [124] + k.uuid + [124] + k.busId + [0] + Preimage(g[..i] + g[i + 1..])
  {
    var tuples := Tuples(Keys(g));
    i := LeastRecord(tuples);
    forall j | 0 <= j < |g| ensures LessEq(Tuple(g[i].key), Tuple(g[j].key)) {
      assert LessEq(tuples[i], tuples[j]);
    }
    SortRest(tuples, i);
    var rest := g[..i] + g[i + 1..];
    assert Tuples(Keys(rest)) == tuples[..i] + tuples[i + 1..];
    FeedFirst(Sort(tuples));
    Spelled(g[i].key, Preimage(rest));
  }

  lemma FeedFirst(s: seq<seq<byte>>)
    requires |s| > 0
    ensures Feed(s) == s[0] + [NUL] + Feed(s[1..])
  {
  }

  lemma Spelled(k: Key, rest: seq<byte>)
    ensures Tuple(k) + [NUL] + rest == k.name + [124] + k.uuid + [124] + k.busId + [0] + rest
  {
    assert Tuple(k) == k.name + [124] + k.uuid + [124] + k.busId;
  }

  lemma SortRest(tuples: seq<seq<byte>>, i: nat)
    requires i < |tuples| && |Sort(tuples)| > 0 && Sort(tuples)[0] == tuples[i]
    ensures Sort(tuples[..i] + tuples[i + 1..]) == Sort(tuples)[1..]
  {
    SortSorts(tuples);
    SortSorts(tuples[..i] + tuples[i + 1..]);
    RemoveAt(tuples, i);
    Behead(Sort(tuples));
    SortedUnique(Sort(tuples[..i] + tuples[i + 1..]), Sort(tuples)[1..]);
  }

  /** Splitting at the first separator undoes joining with it. */
  lemma SplitAtFirst(x: seq<byte>, u: seq<byte>, y: seq<byte>, v: seq<byte>, d: byte)
    requires x + [d] + u == y + [d] + v && d !in x && d !in y
    ensures x == y && u == v
  {
    var whole := x + [d] + u;
    assert whole[|x|] == d && whole[|y|] == d;
    assert forall i :: 0 <= i < |x| ==> whole[i] == x[i] && x[i] != d;
    assert forall i :: 0 <= i < |y| ==> whole[i] == y[i] && y[i] != d;
    assert |x| == |y|;
    assert x == whole[..|x|] && y == whole[..|y|];
    assert u == whole[|x| + 1..] && v == whole[|y| + 1..];
  }

  lemma {:induction false} FeedInjective(s: seq<seq<byte>>, t: seq<seq<byte>>)
    requires Feed(s) == Feed(t)
    requires forall i :: 0 <= i < |s| ==> NUL !in s[i]
    requires forall i :: 0 <= i < |t| ==> NUL !in t[i]
    ensures s == t
  {
    if |s| > 0 && |t| > 0 {
      SplitAtFirst(s[0], Feed(s[1..]), t[0], Feed(t[1..]), NUL);
      FeedInjective(s[1..], t[1..]);
      assert s == [s[0]] + s[1..] && t == [t[0]] + t[1..];
    }
  }

  ghost predicate NoNul(k: Key) {
    NUL !in k.name && NUL !in k.uuid && NUL !in k.busId
  }

  /** The name and the uuid, which a `|` follows, hold none themselves. */
  ghost predicate NoBar(k: Key) {
    BAR !in k.name && BAR !in k.uuid
  }

  lemma TupleInjective(k: Key, l: Key)
    requires NoBar(k) && NoBar(l) && Tuple(k) == Tuple(l)
    ensures k == l
  {
    SplitAtFirst(k.name, k.uuid + [BAR] + k.busId, l.name, l.uuid + [BAR] + l.busId, BAR);
    SplitAtFirst(k.uuid, k.busId, l.uuid, l.busId, BAR);
  }

  // ---- which records stand for one GPU only --------------------------------

  ghost predicate BarFree(k: Key) {
    BAR !in k.name && BAR !in k.uuid && BAR !in k.busId
  }

  function Bars(s: seq<byte>): nat {
    multiset(s)[BAR]
  }

  /** A record has its two separators and the bars of its fields. */
  lemma TupleBars(k: Key)
    ensures Bars(Tuple(k)) == Bars(k.name) + Bars(k.uuid) + Bars(k.busId) + 2
    ensures Bars(Tuple(k)) == 2 <==> BarFree(k)
  {
    assert BAR in k.name <==> BAR in multiset(k.name);
    assert BAR in k.uuid <==> BAR in multiset(k.uuid);
    assert BAR in k.busId <==> BAR in multiset(k.busId);
  }

  /** No other key, of whatever fields, has the record of a bar-free one. */
  lemma OnlyRecord(k: Key, l: Key)
    requires BarFree(k) && Tuple(k) == Tuple(l)
    ensures k == l
  {
    TupleBars(k);
    TupleBars(l);
    TupleInjective(k, l);
  }

  lemma Halves(s: seq<byte>) returns (x: seq<byte>, y: seq<byte>)
    requires BAR in s
    ensures s == x + [BAR] + y
  {
    var i :| 0 <= i < |s| && s[i] == BAR;
    x, y := s[..i], s[i + 1..];
  }

  /** A key with a bar in any field shares its record with another: take that bar for a separator. */
  lemma OtherKey(k: Key) returns (l: Key)
    requires !BarFree(k)
    ensures l != k && Tuple(l) == Tuple(k)
  {
    if BAR in k.name {
      var x, y := Halves(k.name);
      l := Key(x, y, k.uuid + [BAR] + k.busId);
      assert Tuple(k) == x + [BAR] + y + [BAR] + k.uuid + [BAR] + k.busId == Tuple(l);
    } else if BAR in k.uuid {
      var x, y := Halves(k.uuid);
      l := Key(k.name, x, y + [BAR] + k.busId);
      assert Tuple(k) == k.name + [BAR] + x + [BAR] + y + [BAR] + k.busId == Tuple(l);
    } else {
      var x, y := Halves(k.busId);
      l := Key(k.name + [BAR] + k.uuid, x, y);
      assert Tuple(k) == k.name + [BAR] + k.uuid + [BAR] + x + [BAR] + y == Tuple(l);
    }
  }

  /** A record determines its key exactly when no field holds a bar. */
  lemma RecordDetermines(k: Key)
    ensures (forall l :: Tuple(l) == Tuple(k) ==> l == k) <==> BarFree(k)
  {
    if BarFree(k) {
      forall l | Tuple(l) == Tuple(k) ensures l == k {
        OnlyRecord(k, l);
      }
    } else {
      var l := OtherKey(k);
    }
  }

  /** On NUL-free fields the pre-image stands for exactly the multiset of records, whatever the order. */
  lemma PreimageIsRecords(g: seq<GpuInfo>, h: seq<GpuInfo>)
    requires forall i :: 0 <= i < |g| ==> NoNul(g[i].key)
    requires forall i :: 0 <= i < |h| ==> NoNul(h[i].key)
    ensures Preimage(g) == Preimage(h) <==> multiset(Tuples(Keys(g))) == multiset(Tuples(Keys(h)))
  {
    var s, t := Sort(Tuples(Keys(g))), Sort(Tuples(Keys(h)));
    SortSorts(Tuples(Keys(g)));
    SortSorts(Tuples(Keys(h)));
    if multiset(Tuples(Keys(g))) == multiset(Tuples(Keys(h))) {
      SortedUnique(s, t);
    }
    if Preimage(g) == Preimage(h) {
      NulFree(g);
      NulFree(h);
      FeedInjective(s, t);
    }
  }

  lemma TupleNulFree(k: Key)
    requires NoNul(k)
    ensures NUL !in Tuple(k)
  {
  }

  lemma NulFree(g: seq<GpuInfo>)
    requires forall i :: 0 <= i < |g| ==> NoNul(g[i].key)
    ensures forall i :: 0 <= i < |Sort(Tuples(Keys(g)))| ==> NUL !in Sort(Tuples(Keys(g)))[i]
  {
    var tuples := Tuples(Keys(g));
    SortSorts(tuples);
    forall i | 0 <= i < |tuples| ensures NUL !in tuples[i] {
      assert NoNul(g[i].key);
      TupleNulFree(g[i].key);
    }
    forall i | 0 <= i < |Sort(tuples)| ensures NUL !in Sort(tuples)[i] {
      assert Sort(tuples)[i] in multiset(Sort(tuples));
      assert Sort(tuples)[i] in tuples;
    }
  }

  function Without(l: seq<Key>, j: nat): seq<Key>
    requires j < |l|
  {
    l[..j] + l[j + 1..]
  }

  lemma IndexOf<T>(s: seq<T>, x: T) returns (j: nat)
    requires x in multiset(s)
    ensures j < |s| && s[j] == x
  {
    j :| 0 <= j < |s| && s[j] == x;
  }

  lemma {:induction false} SameKeys(k: seq<Key>, l: seq<Key>)
    requires multiset(k) == multiset(l)
    ensures multiset(Tuples(k)) == multiset(Tuples(l))
    decreases |k|
  {
    assert |k| == |multiset(k)| == |multiset(l)| == |l|;
    if |k| > 0 {
      assert k[0] in multiset(k);
      var j := IndexOf(l, k[0]);
      RemoveKey(k, 0);
      RemoveKey(l, j);
      SameKeys(Without(k, 0), Without(l, j));
    }
  }

  lemma {:induction false} SameRecords(k: seq<Key>, l: seq<Key>)
    requires forall x, y :: x in k && y in l && Tuple(x) == Tuple(y) ==> x == y
    requires multiset(Tuples(k)) == multiset(Tuples(l))
    ensures multiset(k) == multiset(l)
    decreases |k|
  {
    assert |Tuples(k)| == |multiset(Tuples(k))| == |multiset(Tuples(l))| == |Tuples(l)|;
    if |k| > 0 {
      assert Tuples(k)[0] in multiset(Tuples(k));
      var j := IndexOf(Tuples(l), Tuples(k)[0]);
      assert k[0] in k && l[j] in l;
      RemoveKey(k, 0);
      RemoveKey(l, j);
      SameRecords(Without(k, 0), Without(l, j));
    }
  }

  lemma RemoveAt<T>(s: seq<T>, j: nat)
    requires j < |s|
    ensures multiset(s[..j] + s[j + 1..]) == multiset(s) - multiset{s[j]}
    ensures multiset(s) == multiset(s[..j] + s[j + 1..]) + multiset{s[j]}
  {
    assert s == s[..j] + [s[j]] + s[j + 1..];
  }

  /** Removing a key removes its record. */
  lemma RemoveKey(l: seq<Key>, j: nat)
    requires j < |l|
    ensures multiset(Without(l, j)) == multiset(l) - multiset{l[j]}
    ensures multiset(l) == multiset(Without(l, j)) + multiset{l[j]}
    ensures multiset(Tuples(Without(l, j))) == multiset(Tuples(l)) - multiset{Tuple(l[j])}
    ensures multiset(Tuples(l)) == multiset(Tuples(Without(l, j))) + multiset{Tuple(l[j])}
  {
    RemoveAt(l, j);
    RemoveAt(Tuples(l), j);
    assert Tuples(Without(l, j)) == Tuples(l)[..j] + Tuples(l)[j + 1..];
  }

  /** Canonical and injective: equal pre-images mean the same GPUs, in any enumeration order. */
  lemma FingerprintIsCanonical(g: seq<GpuInfo>, h: seq<GpuInfo>)
    requires forall i :: 0 <= i < |g| ==> NoNul(g[i].key) && NoBar(g[i].key)
    requires forall i :: 0 <= i < |h| ==> NoNul(h[i].key) && NoBar(h[i].key)
    ensures Preimage(g) == Preimage(h) <==> multiset(Keys(g)) == multiset(Keys(h))
  {
    PreimageIsRecords(g, h);
    if multiset(Keys(g)) == multiset(Keys(h)) {
      SameKeys(Keys(g), Keys(h));
    }
    if multiset(Tuples(Keys(g))) == multiset(Tuples(Keys(h))) {
      forall x, y | x in Keys(g) && y in Keys(h) && Tuple(x) == Tuple(y) ensures x == y {
        TupleInjective(x, y);
      }
      SameRecords(Keys(g), Keys(h));
    }
  }

  // ---- exactly which inventories a fingerprint identifies ------------------

  ghost predicate NulFreeList(g: seq<GpuInfo>) {
    forall i :: 0 <= i < |g| ==> NoNul(g[i].key)
  }

  ghost predicate BarFreeList(g: seq<GpuInfo>) {
    forall i :: 0 <= i < |g| ==> BarFree(g[i].key)
  }

  /** Among NUL-free lists, only permutations of `g` feed the bytes of `g`. */
  ghost predicate IdentifiedAmongNulFree(g: seq<GpuInfo>) {
    forall h :: NulFreeList(h) && Preimage(g) == Preimage(h) ==> multiset(Keys(g)) == multiset(Keys(h))
  }

  /** Among all lists, only permutations of `g` feed the bytes of `g`. */
  ghost predicate Identified(g: seq<GpuInfo>) {
    forall h :: Preimage(g) == Preimage(h) ==> multiset(Keys(g)) == multiset(Keys(h))
  }

  lemma Replaced<T>(s: seq<T>, i: nat, x: T)
    requires i < |s| && s[i] != x
    ensures multiset(s[i := x]) != multiset(s)
  {
    RemoveAt(s, i);
    RemoveAt(s[i := x], i);
    var rest := s[..i] + s[i + 1..];
    assert s[i := x][..i] + s[i := x][i + 1..] == rest;
    assert multiset(s)[x] == multiset(rest)[x];
  }

  lemma Swapped(g: seq<GpuInfo>, i: nat, l: Key) returns (h: seq<GpuInfo>)
    requires i < |g| && l != g[i].key && Tuple(l) == Tuple(g[i].key)
    ensures Preimage(h) == Preimage(g) && multiset(Keys(h)) != multiset(Keys(g))
    ensures NulFreeList(g) ==> NulFreeList(h)
  {
    var k := g[i].key;
    h := g[i := GpuInfo(l, 0)];
    assert Tuples(Keys(h)) == Tuples(Keys(g));
    assert Keys(h) == Keys(g)[i := l];
    Replaced(Keys(g), i, l);
    if NulFreeList(g) {
      TupleNul(k);
      TupleNul(l);
    }
  }

  lemma TupleNul(k: Key)
    ensures NUL in Tuple(k) <==> !NoNul(k)
  {
    var t := Tuple(k);
    assert t == k.name + [BAR] + k.uuid + [BAR] + k.busId;
  }

  /** On inventories as NVML reports them, whose strings hold no NUL: exactly the bar-free ones. */
  lemma IdentifiedAmongNulFreeExactly(g: seq<GpuInfo>)
    requires NulFreeList(g)
    ensures IdentifiedAmongNulFree(g) <==> BarFreeList(g)
  {
    if BarFreeList(g) {
      forall h | NulFreeList(h) && Preimage(g) == Preimage(h) ensures multiset(Keys(g)) == multiset(Keys(h)) {
        PreimageIsRecords(g, h);
        forall x, y | x in Keys(g) && y in Keys(h) && Tuple(x) == Tuple(y) ensures x == y {
          OnlyRecord(x, y);
        }
        SameRecords(Keys(g), Keys(h));
      }
    } else {
      var i :| 0 <= i < |g| && !BarFree(g[i].key);
      var l := OtherKey(g[i].key);
      var h := Swapped(g, i, l);
    }
  }

  /** Two or more GPUs always feed the bytes of one, which has the later records in its bus id. */
  lemma ManyFeedAsOne(g: seq<GpuInfo>) returns (l: Key)
    requires |g| >= 2
    ensures Preimage([GpuInfo(l, 0)]) == Preimage(g) && NUL in l.busId
  {
    var tuples := Tuples(Keys(g));
    var s := Sort(tuples);
    SortSorts(tuples);
    assert |s| == |multiset(s)| == |multiset(tuples)| == |g|;
    assert s[0] in multiset(s);
    var j := IndexOf(tuples, s[0]);
    var k := g[j].key;
    var later := FedTail(s[1..]);
    l := Key(k.name, k.uuid, k.busId + [NUL] + later);
    assert Tuple(l) == Tuple(k) + [NUL] + later;
    var one := [GpuInfo(l, 0)];
    assert Tuples(Keys(one)) == [Tuple(l)];
    OneRecord(Tuple(l));
    assert Preimage(one) == Tuple(k) + [NUL] + later + [NUL] == Preimage(g);
  }

  lemma FedTail(s: seq<seq<byte>>) returns (t: seq<byte>)
    requires |s| > 0
    ensures Feed(s) == t + [NUL]
  {
    if |s| == 1 {
      t := s[0];
      assert Feed(s[1..]) == [];
    } else {
      var rest := FedTail(s[1..]);
      t := s[0] + [NUL] + rest;
    }
  }

  lemma OneRecord(t: seq<byte>)
    ensures Sort([t]) == [t] && Feed([t]) == t + [NUL]
  {
    assert [t][1..] == [] && Sort([]) == [] && Feed([]) == [];
  }

  lemma {:induction false} FeedBars(s: seq<seq<byte>>)
    requires forall t :: t in s ==> Bars(t) >= 2
    ensures Bars(Feed(s)) >= 2 * |s|
  {
    if |s| > 0 {
      assert s[0] in s;
      FeedBars(s[1..]);
    }
  }

  lemma SortKeeps(ss: seq<seq<byte>>)
    ensures |Sort(ss)| == |ss|
    ensures forall t :: t in Sort(ss) <==> t in ss
  {
    SortSorts(ss);
    assert |Sort(ss)| == |multiset(Sort(ss))| == |multiset(ss)| == |ss|;
    forall t ensures t in Sort(ss) <==> t in ss {
      assert t in Sort(ss) <==> t in multiset(Sort(ss));
      assert t in ss <==> t in multiset(ss);
    }
  }

  lemma RecordBars(keys: seq<Key>, t: seq<byte>)
    requires t in Tuples(keys)
    ensures Bars(t) >= 2
  {
    var j := IndexOf(Tuples(keys), t);
    TupleBars(keys[j]);
  }

  lemma PreimageBars(h: seq<GpuInfo>)
    ensures Bars(Preimage(h)) >= 2 * |h|
  {
    var tuples := Tuples(Keys(h));
    SortKeeps(tuples);
    forall t | t in Sort(tuples) ensures Bars(t) >= 2 {
      RecordBars(Keys(h), t);
    }
    FeedBars(Sort(tuples));
  }

  lemma EmptyPreimage(g: seq<GpuInfo>)
    ensures Preimage(g) == [] <==> |g| == 0
  {
    PreimageBars(g);
  }

  lemma SinglePreimage(h: seq<GpuInfo>)
    requires |h| == 1
    ensures Preimage(h) == Tuple(h[0].key) + [NUL]
  {
    assert Tuples(Keys(h)) == [Tuple(h[0].key)];
    OneRecord(Tuple(h[0].key));
  }

  lemma Unterminated(s: seq<byte>, t: seq<byte>)
    requires s + [NUL] == t + [NUL]
    ensures s == t
  {
    assert s == (s + [NUL])[..|s|] && t == (t + [NUL])[..|t|];
  }

  /** Bars count records: what one bar-free GPU feeds, only a list of one can feed. */
  lemma FedByOne(k: Key, h: seq<GpuInfo>)
    requires BarFree(k) && Preimage(h) == Tuple(k) + [NUL]
    ensures |h| == 1
  {
    TupleBars(k);
    assert Bars(Preimage(h)) == 2;
    PreimageBars(h);
    EmptyPreimage(h);
  }

  lemma SingleIsIdentified(k: Key, h: seq<GpuInfo>)
    requires BarFree(k) && Preimage(h) == Tuple(k) + [NUL]
    ensures |h| == 1 && h[0].key == k
  {
    FedByOne(k, h);
    SinglePreimage(h);
    Unterminated(Tuple(k), Tuple(h[0].key));
    OnlyRecord(k, h[0].key);
  }

  /** On every list at all: exactly the empty one and those of a single GPU without a bar. */
  lemma IdentifiedExactly(g: seq<GpuInfo>)
    ensures Identified(g) <==> |g| == 0 || (|g| == 1 && BarFree(g[0].key))
  {
    if |g| == 0 {
      forall h | Preimage(g) == Preimage(h) ensures multiset(Keys(g)) == multiset(Keys(h)) {
        EmptyPreimage(g);
        EmptyPreimage(h);
      }
    } else if |g| >= 2 {
      var l := ManyFeedAsOne(g);
      assert |multiset(Keys(g))| == |g| && |multiset(Keys([GpuInfo(l, 0)]))| == 1;
    } else if BarFree(g[0].key) {
      forall h | Preimage(g) == Preimage(h) ensures multiset(Keys(g)) == multiset(Keys(h)) {
        SinglePreimage(g);
        SingleIsIdentified(g[0].key, h);
        assert Keys(g) == [g[0].key] == Keys(h);
      }
    } else {
      var l := OtherKey(g[0].key);
      var h := Swapped(g, 0, l);
    }
  }

  /** A `|` inside a name can be mistaken for the separator. */
  lemma BarCollides()
    ensures var g, h := [GpuInfo(Key([BAR], [], []), 0)], [GpuInfo(Key([], [BAR], []), 0)];
            Preimage(g) == Preimage(h) && multiset(Keys(g)) != multiset(Keys(h))
  {
    var k, l := Key([BAR], [], []), Key([], [BAR], []);
    assert Tuple(k) == [BAR, BAR, BAR] == Tuple(l);
    var g, h := [GpuInfo(k, 0)], [GpuInfo(l, 0)];
    assert Tuples(Keys(g)) == [Tuple(k)] == Tuples(Keys(h));
    assert k in multiset(Keys(g)) && k !in multiset(Keys(h)) by {
      assert Keys(g) == [k] && Keys(h) == [l];
    }
  }

  /** A NUL inside a field can be mistaken for the end of a record. */
  lemma NulCollides()
    ensures var k, l := Key([], [], []), Key([], [], [NUL, BAR, BAR]);
            var g, h := [GpuInfo(k, 0), GpuInfo(k, 0)], [GpuInfo(l, 0)];
            Preimage(g) == Preimage(h) && multiset(Keys(g)) != multiset(Keys(h))
  {
    var k, l := Key([], [], []), Key([], [], [NUL, BAR, BAR]);
    var g, h := [GpuInfo(k, 0), GpuInfo(k, 0)], [GpuInfo(l, 0)];
    var pair := [BAR, BAR];
    assert Tuple(k) == pair && Tuple(l) == pair + [NUL] + pair;
    assert Tuples(Keys(g)) == [pair, pair] && Tuples(Keys(h)) == [Tuple(l)];
    assert [pair, pair][1..] == [pair] && [pair][1..] == [];
    Total(pair, pair);
    assert Sort([pair]) == [pair] && Insert(pair, [pair]) == [pair] + [pair];
    assert Sort([pair, pair]) == [pair, pair];
    assert Sort([Tuple(l)]) == [Tuple(l)];
    assert Feed([pair]) == pair + [NUL];
    assert Preimage(g) == pair + [NUL] + (pair + [NUL]);
    assert Preimage(h) == Tuple(l) + [NUL];
    assert |multiset(Keys(g))| == 2 && |multiset(Keys(h))| == 1;
  }
}
