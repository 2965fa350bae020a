/**
 The grid-stride triad: every thread walks the arrays in strides of the whole grid.

 Threads are scheduled one loop iteration at a time in any order. The loop counter is a `u32` and
 wraps; `n + stride <= 2^32` is exactly what keeps it from doing so.
 */
module Triad {
  import opened Matmul
  import opened Model
  import opened Tables

  const U32 := 0x1_0000_0000
  const THREADS := 256

  /** Workgroups dispatched for a buffer of `elements`: the count is narrowed to `u32` and capped. */
  function Dispatched(elements: nat): nat {
    var groups := (elements % U32 + THREADS - 1) / THREADS;
    if groups <= 65535 then groups else 65535
  }

  /**
   The dispatched grid is nonempty and its counters stay in range exactly up to 2^32 less the
   largest stride: the cap bounds the stride, and narrowing the count never matters below that.
   */
  lemma DispatchFits(elements: nat)
    requires elements > 0
    ensures Dispatched(elements) >= 1 && elements + Dispatched(elements) * 256 <= 0x1_0000_0000
            <==> elements <= 0x1_0000_0000 - 65535 * 256
  {
    if elements < U32 {
      assert elements % U32 == elements;
    }
  }

  /** One thread per element without an idle workgroup, until the cap. */
  lemma DispatchCovers(elements: nat)
    requires 0 < elements < U32
    ensures elements <= 65535 * 256 ==> (Dispatched(elements) - 1) * 256 < elements <= Dispatched(elements) * 256
    ensures elements > 65535 * 256 ==> Dispatched(elements) == 65535
  {
    assert elements % U32 == elements;
  }

  /** The loop counter after one iteration, in `u32` arithmetic. */
  function Advance(i: nat, stride: nat): nat {
    (i + stride) % U32
  }

  /** No counter wraps on its way past the end exactly when `n + stride` fits. */
  lemma NoWrap(n: nat, stride: nat)
    requires 0 < n && stride < U32
    ensures (forall i: nat :: i < n ==> Advance(i, stride) == i + stride) <==> n + stride <= U32
  {
    if n + stride > U32 {
      assert Advance(n - 1, stride) != n - 1 + stride;
    }
  }

  lemma NextInClass(i: nat, stride: nat)
    requires stride > 0
    ensures (i + stride) % stride == i % stride
  {
    var q, r := i / stride, i % stride;
    assert i + stride == (q + 1) * stride + r;
    Quotient(i + stride, stride, q + 1, r);
  }

  /** Between one index of a thread and its next there is no other of the same thread. */
  lemma OnePerStride(i: nat, j: nat, stride: nat)
    requires stride > 0 && i < j < i + stride
    ensures i % stride != j % stride
  {
    if i % stride == j % stride {
      var e := j / stride - i / stride;
      assert i == (i / stride) * stride + i % stride && j == (j / stride) * stride + j % stride;
      assert e * stride == (j / stride) * stride - (i / stride) * stride == j - i;
      Multiple(e, stride);
    }
  }

  class Grid {
    const n: nat
    const a: seq<real>
    const b: seq<real>
    const stride: nat
    /** Each thread's loop counter. */
    const next: array<nat>
    const c: array<real>
    /** How often each element of `c` has been written. */
    const writes: array<nat>

    ghost predicate ThreadOk(t: nat)
      requires stride > 0 && next.Length == stride && t < stride
      reads next
    {
      next[t] < U32 && next[t] % stride == t
    }

    /** An element is written once, by the thread of its class, when that thread's counter passes it. */
    ghost predicate ElementOk(i: nat)
      requires stride > 0 && next.Length == stride && |a| == |b| == c.Length == writes.Length == n && i < n
      reads next, c, writes
    {
      if i < next[i % stride] then writes[i] == 1 && c[i] == a[i] + 2.0 * b[i] else writes[i] == 0
    }

    ghost predicate Valid()
      reads next, c, writes
    {
      && stride > 0 && n + stride <= U32
      && |a| == |b| == c.Length == writes.Length == n && next.Length == stride && next != writes
      && (forall t: nat :: t < stride ==> ThreadOk(t))
      && (forall i: nat :: i < n ==> ElementOk(i))
    }

    ghost predicate Finished()
      requires next.Length == stride
      reads next
    {
      forall t :: 0 <= t < stride ==> next[t] >= n
    }

    constructor (a: seq<real>, b: seq<real>, groups: nat)
      requires |a| == |b| && groups >= 1 && |a| + groups * THREADS <= U32
      ensures Valid() && this.a == a && this.b == b && n == |a| && stride == groups * THREADS
      ensures fresh(next) && fresh(c) && fresh(writes)
      ensures forall i :: 0 <= i < n ==> writes[i] == 0
    {
      this.a, this.b, n, stride := a, b, |a|, groups * THREADS;
      next := new nat[groups * THREADS](t => t);
      c := new real[|a|];
      writes := new nat[|a|](_ => 0);
      new;
      forall t: nat | t < stride ensures ThreadOk(t) {
        Quotient(t, stride, 0, t);
      }
      forall i: nat | i < n ensures ElementOk(i) {
        Below(i, stride);
      }
    }

    static lemma Below(i: nat, stride: nat)
      requires stride > 0
      ensures 0 <= i % stride < stride && i % stride <= i
    {
      var q, r := i / stride, i % stride;
      assert i == q * stride + r;
      Multiple(q, stride);
    }

    /** Thread `t` is still in its loop. */
    predicate Running(t: nat)
      reads next
    {
      t < next.Length && next[t] < n
    }

    /** One iteration of a thread's loop. */
    method Iterate(t: nat)
      requires Valid() && Running(t)
      modifies next, c, writes
      ensures Valid()
      ensures next[t] == old(next[t]) + stride
      ensures forall s :: 0 <= s < stride && s != t ==> next[s] == old(next[s])
      ensures writes[..] == old(writes[..])[old(next[t]) := 1]
      ensures old(writes[next[t]]) == 0
    {
      var i := next[t];
      assert ThreadOk(t) && ElementOk(i);
      c[i] := a[i] + 2.0 * b[i];
      writes[i] := writes[i] + 1;
      assert Advance(i, stride) == i + stride;
      next[t] := Advance(i, stride);
      NextInClass(i, stride);
      forall s: nat | s < stride ensures ThreadOk(s) {
        assert s != t ==> next[s] == old(next[s]) && old(ThreadOk(s));
      }
      forall j: nat | j < n ensures ElementOk(j) {
        assert old(ElementOk(j));
        if j % stride != t {
          assert j != i && next[j % stride] == old(next[j % stride]);
        } else if i < j {
          assert i + stride <= j by {
            if j < i + stride {
              OnePerStride(i, j, stride);
            }
          }
        }
      }
    }

    /** A thread still in its loop, if any. */
    method FindRunning() returns (t: Option<nat>)
      requires Valid()
      ensures if Finished() then t.None? else t.Some? && Running(t.value)
    {
      for s := 0 to stride
        invariant forall r :: 0 <= r < s ==> next[r] >= n
      {
        if next[s] < n {
          return Some(s);
        }
      }
      t := None;
    }

    lemma Filled()
      requires Valid()
      ensures Total(writes[..]) <= n
      ensures Finished() ==> Total(writes[..]) == n
      ensures Finished() ==> forall i :: 0 <= i < n ==> c[i] == a[i] + 2.0 * b[i] && writes[i] == 1
    {
      forall i: nat | i < n
        ensures writes[i] <= 1 && (Finished() ==> writes[i] == 1 && c[i] == a[i] + 2.0 * b[i])
      {
        assert ElementOk(i) && 0 <= i % stride < stride;
      }
      AtMostOne(writes[..]);
    }

    static lemma {:induction false} AtMostOne(s: seq<nat>)
      requires forall i :: 0 <= i < |s| ==> s[i] <= 1
      ensures Total(s) <= |s|
      ensures (forall i :: 0 <= i < |s| ==> s[i] == 1) ==> Total(s) == |s|
    {
      if |s| > 0 {
        AtMostOne(s[..|s| - 1]);
      }
    }

    lemma OneMore(t: nat)
      requires Valid() && Running(t)
      ensures writes[next[t]] == 0
      ensures Total(writes[..][next[t] := 1]) == Total(writes[..]) + 1
    {
      assert ThreadOk(t) && ElementOk(next[t]);
      TotalUpdate(writes[..], next[t], 1);
    }

    /**
     Run every thread to its end, one iteration at a time, the scheduler's choices taken wherever
     they are possible. From fresh counters every schedule takes exactly one iteration per element.
     */
    method Run(choice: nat -> nat) returns (iterations: nat)
      requires Valid()
      modifies next, c, writes
      ensures Valid() && Finished()
      ensures iterations + Total(old(writes[..])) == n
      ensures forall i :: 0 <= i < n ==> c[i] == a[i] + 2.0 * b[i] && writes[i] == 1
    {
      iterations := 0;
      var running := FindRunning();
      Filled();
      while running.Some?
        invariant Valid()
        invariant if Finished() then running.None? else running.Some? && Running(running.value)
        invariant iterations + Total(old(writes[..])) == Total(writes[..]) <= n
        decreases n - Total(writes[..])
      {
        var t := choice(iterations);
        if !Running(t) {
          t := running.value;
        }
        OneMore(t);
        Iterate(t);
        iterations := iterations + 1;
        Filled();
        running := FindRunning();
      }
      Filled();
    }
  }
}
