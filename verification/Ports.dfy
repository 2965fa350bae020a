/** The port pool of the Metal runtime: its jobs, and the ports they hold. */
module Ports {
  import opened Model
  import opened Tables
  import Images

  /** First port in `start..=end` that is not in use. */
  function PickFreePort(start: int, end: int, used: set<int>): (port: Option<int>)
    ensures port.Some? ==> start <= port.value <= end && port.value !in used
                           && forall q :: start <= q < port.value ==> q in used
    ensures port.None? ==> forall q :: start <= q <= end ==> q in used
    decreases end - start
  {
    if start > end then None
    else if start !in used then Some(start)
    else PickFreePort(start + 1, end, used)
  }

  function FreePorts(start: int, end: int, used: set<int>): (ports: seq<int>)
    ensures forall q :: q in ports <==> start <= q <= end && q !in used
    ensures forall i, j :: 0 <= i < j < |ports| ==> ports[i] < ports[j]
    decreases end - start
  {
    if start > end then []
    else
      var rest := FreePorts(start + 1, end, used);
      assert forall i :: 0 <= i < |rest| ==> rest[i] in rest;
      (if start in used then [] else [start]) + rest
  }

  /** Jobs hold pairwise distinct ports inside the range. */
  ghost predicate Pool<K(!new)>(jobs: map<K, int>, start: int, end: int) {
    && (forall r :: r in jobs ==> start <= jobs[r] <= end)
    && (forall r, s :: r in jobs && s in jobs && r != s ==> jobs[r] != jobs[s])
  }

  predicate HeldByAnother<K(==)>(jobs: map<K, int>, rental: K, port: int) {
    exists r :: r in jobs && r != rental && jobs[r] == port
  }

  /** Noting a job keeps the pool sound exactly when no other job holds its port by then. */
  lemma NoteKeepsPool<K(!new)>(jobs: map<K, int>, start: int, end: int, rental: K, port: int)
    requires Pool(jobs, start, end) && start <= port <= end
    ensures Pool(jobs[rental := port], start, end) <==> !HeldByAnother(jobs, rental, port)
  {
    var noted := jobs[rental := port];
    if HeldByAnother(jobs, rental, port) {
      var r :| r in jobs && r != rental && jobs[r] == port;
      assert noted[r] == noted[rental];
    }
  }

  /** Two starts that choose before either is noted take the same port, in any pool with one free. */
  lemma ConcurrentStartsCollide<K(!new)>(jobs: map<K, int>, start: int, end: int, r: K, s: K)
    requires Pool(jobs, start, end) && r != s
    requires r !in jobs && s !in jobs && PickFreePort(start, end, jobs.Values).Some?
    ensures var port := PickFreePort(start, end, jobs.Values).value;
            Pool(jobs[r := port], start, end) && !Pool(jobs[r := port][s := port], start, end)
  {
    var port := PickFreePort(start, end, jobs.Values).value;
    NoteKeepsPool(jobs, start, end, r, port);
    assert jobs[r := port][r] == port;
    NoteKeepsPool(jobs[r := port], start, end, s, port);
  }

  class MetalRuntime {
    const portStart: int
    const portEnd: int
    /** The port of each running job, by rental. */
    var jobs: map<int, int>

    ghost predicate Valid()
      reads this
    {
      portStart <= portEnd && Pool(jobs, portStart, portEnd)
    }

    constructor (portStart: int, portEnd: int)
      requires portStart <= portEnd
      ensures Valid() && jobs == map[] && this.portStart == portStart && this.portEnd == portEnd
    {
      this.portStart, this.portEnd, jobs := portStart, portEnd, map[];
    }

    function UsedPorts(): set<int>
      reads this
    {
      jobs.Values
    }

    /** The first critical section of a start: choose a port. */
    method Choose(image: string) returns (port: Option<int>)
      requires portStart <= portEnd
      ensures port.Some? <==>
                && Images.ParseTask(image).Some?
                && exists q :: portStart <= q <= portEnd && q !in UsedPorts()
      ensures port.Some? ==>
                && portStart <= port.value <= portEnd
                && port.value !in UsedPorts()
                && forall q :: portStart <= q < port.value ==> q in UsedPorts()
    {
      if Images.ParseTask(image).None? {
        return None;
      }
      port := PickFreePort(portStart, portEnd, UsedPorts());
    }

    /** The second: note the job under the port chosen earlier, whatever has been noted since. */
    method Note(rental: int, port: int)
      requires Valid() && portStart <= port <= portEnd
      modifies this
      ensures jobs == old(jobs)[rental := port]
      ensures Valid() <==> !HeldByAnother(old(jobs), rental, port)
    {
      NoteKeepsPool(jobs, portStart, portEnd, rental, port);
      jobs := jobs[rental := port];
    }

    /** A start with nothing in between; `spawned` is whether the worker process could be started. */
    method StartRental(rental: int, image: string, spawned: bool) returns (port: Option<int>)
      requires Valid()
      modifies this
      ensures Valid()
      ensures port.Some? <==>
                && Images.ParseTask(image).Some?
                && spawned
                && exists q :: portStart <= q <= portEnd && q !in old(UsedPorts())
      ensures port.None? ==> jobs == old(jobs)
      ensures port.Some? ==>
                && jobs == old(jobs)[rental := port.value]
                && portStart <= port.value <= portEnd
                && port.value !in old(UsedPorts())
                && forall q :: portStart <= q < port.value ==> q in old(UsedPorts())
    {
      ghost var used := UsedPorts();
      port := Choose(image);
      assert used == UsedPorts() == old(UsedPorts());
      assert port.Some? <==> Images.ParseTask(image).Some? && exists q :: portStart <= q <= portEnd && q !in used;
      if port.Some? {
        if spawned {
          assert portStart <= port.value <= portEnd && port.value !in used;
          Note(rental, port.value);
        } else {
          port := None;
        }
      }
    }

    method StopRental(rental: int)
      requires Valid()
      modifies this
      ensures Valid() && jobs == old(jobs) - {rental}
    {
      jobs := jobs - {rental};
    }

    /** Forget the jobs whose process has exited; the rest are listed as running. */
    method RunningRentals(exited: int -> bool) returns (running: map<int, int>)
      requires Valid()
      modifies this
      ensures Valid() && running == jobs
      ensures jobs == map r | r in old(jobs) && !exited(r) :: old(jobs)[r]
    {
      jobs := map r | r in jobs && !exited(r) :: jobs[r];
      running := jobs;
    }

    method Available() returns (ports: seq<int>)
      requires Valid()
      ensures forall q :: q in ports <==> portStart <= q <= portEnd && q !in UsedPorts()
      ensures |ports| + |jobs| == portEnd - portStart + 1
    {
      ports := FreePorts(portStart, portEnd, UsedPorts());
      Accounted(jobs, portStart, portEnd);
    }
  }

  /** Every port of the range is either free or held by exactly one job. */
  lemma Accounted<K(!new)>(jobs: map<K, int>, start: int, end: int)
    requires start <= end + 1 && Pool(jobs, start, end)
    ensures |FreePorts(start, end, jobs.Values)| + |jobs| == end - start + 1
  {
    OnePortEach(jobs);
    forall q | q in jobs.Values ensures start <= q <= end {
      var r :| r in jobs && jobs[r] == q;
    }
    FreeAndUsed(start, end, jobs.Values);
  }

  lemma {:induction false} OnePortEach<K>(jobs: map<K, int>)
    requires forall r, s :: r in jobs && s in jobs && r != s ==> jobs[r] != jobs[s]
    ensures |jobs.Values| == |jobs|
    decreases |jobs|
  {
    if |jobs| > 0 {
      assert |jobs.Keys| == |jobs|;
      var r :| r in jobs;
      var rest := jobs - {r};
      assert rest.Keys == jobs.Keys - {r} && |rest.Keys| == |rest|;
      OnePortEach(rest);
      forall q ensures q in jobs.Values <==> q in rest.Values + {jobs[r]} {
        if q in jobs.Values {
          var s :| s in jobs && jobs[s] == q;
          assert s != r ==> s in rest && rest[s] == q;
        }
      }
      assert jobs.Values == rest.Values + {jobs[r]};
      assert jobs[r] !in rest.Values;
    }
  }

  lemma {:induction false} FreeAndUsed(start: int, end: int, used: set<int>)
    requires start <= end + 1 && forall q :: q in used ==> start <= q <= end
    ensures |FreePorts(start, end, used)| + |used| == end - start + 1
    decreases end - start
  {
    if start > end {
      assert used == {};
    } else {
      var rest := used - {start};
      FreeAndUsed(start + 1, end, rest);
      SameFree(start + 1, end, used, rest);
      if start in used {
        assert |rest| == |used| - 1;
        assert FreePorts(start, end, used) == [] + FreePorts(start + 1, end, used);
      } else {
        assert rest == used;
        assert FreePorts(start, end, used) == [start] + FreePorts(start + 1, end, used);
      }
    }
  }

  lemma {:induction false} SameFree(start: int, end: int, a: set<int>, b: set<int>)
    requires forall q :: start <= q <= end ==> (q in a <==> q in b)
    ensures FreePorts(start, end, a) == FreePorts(start, end, b)
    decreases end - start
  {
    if start <= end {
      SameFree(start + 1, end, a, b);
    }
  }
}
