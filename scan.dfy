/** `scan` (src/main.rs:59-76) and the schedule it gives each worker: worker
    `start_port` of `num_threads` probes `start_port + 1`, then keeps adding
    `num_threads` until the guard `(MAX - port) <= num_threads` breaks the loop.
    `TcpStream::connect` is the oracle `isOpen`. */
module PortScan {
  import opened Types
  import opened Seqs

  /** The ports a worker probes from `port` on, as the loop visits them. */
  function Walk(port: u16, numThreads: u16): (r: seq<u16>)
    requires numThreads >= 1
    ensures |r| >= 1 && r[0] == port
    decreases MAX - port
  {
    if MAX - port <= numThreads then [port]
    else [port] + Walk(port + numThreads, numThreads)
  }

  /** A walk is strictly ascending and starts at its least port. */
  lemma {:induction false} WalkIncreasing(port: u16, numThreads: u16)
    requires numThreads >= 1
    ensures forall k :: 0 <= k < |Walk(port, numThreads)| ==> port <= Walk(port, numThreads)[k]
    ensures Increasing(Walk(port, numThreads))
    decreases MAX - port
  {
    if MAX - port > numThreads {
      var rest := Walk(port + numThreads, numThreads);
      WalkIncreasing(port + numThreads, numThreads);
      assert Walk(port, numThreads) == [port] + rest;
    }
  }

  /** The worker loop. `visited` records every probe, `sent` every port whose
      probe succeeded, in the order `tx.send` emits them. Every `u16`
      operation is checked, so neither `start_port + 1`, `MAX - port` nor
      `port += num_threads` can overflow. */
  method Scan(startPort: u16, numThreads: u16, isOpen: u16 -> bool)
    returns (sent: seq<u16>, ghost visited: seq<u16>)
    requires startPort < numThreads
    ensures visited == WorkerProbes(startPort, numThreads)
    ensures sent == Filter(visited, isOpen)
    ensures Increasing(sent)
    ensures forall p :: p in sent <==> isOpen(p) && InClass(startPort, numThreads, p)
  {
    var port: u16 := startPort + 1;
    sent, visited := [], [];
    while true
      invariant visited + Walk(port, numThreads) == Walk(startPort + 1, numThreads)
      invariant sent == Filter(visited, isOpen)
      decreases MAX - port
    {
      if isOpen(port) {
        sent := sent + [port];
      }
      ProbeStep(visited, port, isOpen, numThreads, startPort + 1);
      visited := visited + [port];
      if MAX - port <= numThreads {
        break;
      }
      port := port + numThreads;
    }
    EmittedPorts(startPort, numThreads, isOpen);
  }

  /** One pass of the loop body: probing `port` extends the visited and the
      sent sequences, and either the walk is over or it goes on from
      `port + numThreads`. */
  lemma ProbeStep(visited: seq<u16>, port: u16, isOpen: u16 -> bool, numThreads: u16, first: u16)
    requires numThreads >= 1
    requires visited + Walk(port, numThreads) == Walk(first, numThreads)
    ensures Filter(visited + [port], isOpen) == Filter(visited, isOpen) + (if isOpen(port) then [port] else [])
    ensures MAX - port <= numThreads ==> visited + [port] == Walk(first, numThreads)
    ensures MAX - port > numThreads ==>
      (visited + [port]) + Walk(port + numThreads, numThreads) == Walk(first, numThreads)
  {
    FilterSnoc(visited, port, isOpen);
    if MAX - port > numThreads {
      WalkUnfold(port, numThreads);
      assert (visited + [port]) + Walk(port + numThreads, numThreads)
          == visited + ([port] + Walk(port + numThreads, numThreads));
    }
  }

  lemma WalkUnfold(port: u16, numThreads: u16)
    requires numThreads >= 1 && MAX - port > numThreads
    ensures Walk(port, numThreads) == [port] + Walk(port + numThreads, numThreads)
  {
  }

  /** The `k`-th probe of a walk is `port + k * numThreads`, and the walk
      stops at the first probe within `numThreads` of 65535: every earlier
      probe is more than `numThreads` below it, the last one is not. */
  lemma {:induction false} WalkClosedForm(port: u16, numThreads: u16)
    requires numThreads >= 1
    ensures var r := Walk(port, numThreads);
      (forall k :: 0 <= k < |r| ==> r[k] as int == port as int + k * numThreads as int) &&
      (forall k :: 0 <= k < |r| - 1 ==> MAX as int - r[k] as int > numThreads as int) &&
      MAX as int - r[|r| - 1] as int <= numThreads as int
    decreases MAX - port
  {
    var r := Walk(port, numThreads);
    if MAX - port > numThreads {
      var rest := Walk(port + numThreads, numThreads);
      WalkClosedForm(port + numThreads, numThreads);
      assert r == [port] + rest;
      forall k | 1 <= k < |r| ensures r[k] as int == port as int + k * numThreads as int {
        assert r[k] == rest[k - 1];
        assert (k - 1) * numThreads as int + numThreads as int == k * numThreads as int;
      }
      forall k | 1 <= k < |r| - 1 ensures MAX as int - r[k] as int > numThreads as int {
        assert r[k] == rest[k - 1];
      }
    }
  }

  lemma {:induction false} FilterSnoc(s: seq<u16>, x: u16, f: u16 -> bool)
    ensures Filter(s + [x], f) == Filter(s, f) + (if f(x) then [x] else [])
  {
    if s != [] {
      assert (s + [x])[1..] == s[1..] + [x];
      FilterSnoc(s[1..], x, f);
    }
  }

  // ---------------------------------------------------------------------------
  // Which ports each worker probes.

  /** Port `p` is in the residue class of worker `i` and the loop reaches it:
      every such port below 65535, and 65535 itself only as the first port of
      worker 65534 of 65535. */
  predicate InClass(i: u16, numThreads: u16, p: u16)
    requires i < numThreads
  {
    1 <= p && (p as int - 1) % numThreads as int == i as int && (p < MAX || numThreads == MAX)
  }

  lemma MulNonNegative(a: int, d: int)
    requires a >= 0 && d >= 0
    ensures a * d >= 0
  {
  }

  /** Quotient and remainder are unique. */
  lemma ModUnique(x: int, d: int, q: int, r: int)
    requires d > 0 && 0 <= r < d && x == q * d + r
    ensures x % d == r && x / d == q
  {
    var q', r' := x / d, x % d;
    assert x == q' * d + r';
    assert (q - q') * d == r' - r;
    if q > q' {
      MulNonNegative(q - q' - 1, d);
    } else if q < q' {
      MulNonNegative(q' - q - 1, d);
    }
  }

  /** Stepping back by one period keeps a number's residue. */
  lemma ModStep(x: int, d: int)
    requires d > 0
    ensures (x - d) % d == x % d
  {
    ModUnique(x - d, d, x / d - 1, x % d);
  }

  /** A positive multiple of `d` is at least `d`. */
  lemma PositiveMultiple(x: int, d: int)
    requires d > 0 && x > 0 && x % d == 0
    ensures x >= d
  {
  }

  /** For `0 <= i < d` and `x >= 0`: `x % d == i` iff `x - i` is a
      non-negative multiple of `d`. */
  lemma ResidueIff(x: int, i: int, d: int)
    requires d > 0 && 0 <= i < d && x >= 0
    ensures x % d == i <==> (x >= i && (x - i) % d == 0)
  {
    if x % d == i {
      ModUnique(x - i, d, x / d, 0);
    }
    if x >= i && (x - i) % d == 0 {
      ModUnique(x, d, (x - i) / d, i);
    }
  }

  /** The walk from `port` holds the ports `port + k * numThreads` that the
      loop reaches: all those below 65535, plus `port` itself. */
  lemma {:induction false} WalkContains(port: u16, numThreads: u16, p: u16)
    requires numThreads >= 1
    ensures p in Walk(port, numThreads) <==>
      port <= p && (p as int - port as int) % numThreads as int == 0 && (p == port || p < MAX)
    decreases MAX - port
  {
    var d, t := p as int - port as int, numThreads as int;
    var reached := port <= p && d % t == 0 && (p == port || p < MAX);
    if MAX - port <= numThreads {
      assert Walk(port, numThreads) == [port];
      if port < p && d % t == 0 {
        PositiveMultiple(d, t);
      }
      assert reached <==> p == port;
    } else {
      var next := port + numThreads;
      assert Walk(port, numThreads) == [port] + Walk(next, numThreads);
      WalkContains(next, numThreads, p);
      assert p in Walk(next, numThreads) <==>
        next <= p && (d - t) % t == 0 && (p == next || p < MAX);
      ModStep(d, t);
      if port < p && d % t == 0 {
        PositiveMultiple(d, t);
      }
      assert reached <==> p == port || p in Walk(next, numThreads);
    }
  }

  /** Worker `i` probes exactly the ports of its class. */
  lemma WorkerPorts(i: u16, numThreads: u16, p: u16)
    requires i < numThreads
    ensures p in Walk(i + 1, numThreads) <==> InClass(i, numThreads, p)
  {
    WalkContains(i + 1, numThreads, p);
    if 1 <= p {
      ResidueIff(p as int - 1, i as int, numThreads as int);
      if p == MAX && numThreads == MAX {
        ModUnique(p as int - 1, numThreads as int, 0, p as int - 1);
      }
    }
  }

  /** What worker `i` sends: the open ports of its class, in ascending order. */
  lemma EmittedPorts(i: u16, numThreads: u16, isOpen: u16 -> bool)
    requires i < numThreads
    ensures Increasing(Filter(Walk(i + 1, numThreads), isOpen))
    ensures forall p :: p in Filter(Walk(i + 1, numThreads), isOpen) <==>
      isOpen(p) && InClass(i, numThreads, p)
  {
    WalkIncreasing(i + 1, numThreads);
    FilterIncreasing(Walk(i + 1, numThreads), isOpen);
    FilterMembers(Walk(i + 1, numThreads), isOpen);
    forall p ensures p in Filter(Walk(i + 1, numThreads), isOpen) <==>
      isOpen(p) && InClass(i, numThreads, p)
    {
      WorkerPorts(i, numThreads, p);
    }
  }

  // ---------------------------------------------------------------------------
  // All workers together (`for i in 0..num_threads`, src/main.rs:98-104).

  /** Port `p` is probed by one of the first `n` workers: its class, the
      residue `(p - 1) % numThreads`, is below `n`. */
  predicate InFirstWorkers(numThreads: u16, n: nat, p: u16)
  {
    numThreads >= 1 && 1 <= p && (p as int - 1) % numThreads as int < n &&
    (p < MAX || numThreads == MAX)
  }

  /** The ports some worker of `numThreads` probes, the case of
      InFirstWorkers where `n` is every worker: none when no worker is
      spawned, otherwise `[1, 65534]`, and `[1, 65535]` when there are 65535
      workers. */
  predicate Covered(numThreads: u16, p: u16)
  {
    InFirstWorkers(numThreads, numThreads as int, p)
  }

  /** The highest port any worker probes. */
  function LastPort(numThreads: u16): u16
  {
    if numThreads == MAX then MAX else MAX - 1
  }

  /** The ports worker `i` probes: `scan(tx, i, addr, num_threads)`. */
  function WorkerProbes(i: u16, numThreads: u16): seq<u16>
    requires i < numThreads
  {
    Walk(i + 1, numThreads)
  }

  /** Coverage: a port is probed by some worker iff it is covered. */
  lemma Coverage(numThreads: u16, p: u16)
    ensures (exists i: u16 :: i < numThreads && p in WorkerProbes(i, numThreads)) <==> Covered(numThreads, p)
  {
    if Covered(numThreads, p) {
      var i := ((p as int - 1) % numThreads as int) as u16;
      WorkerPorts(i, numThreads, p);
      assert p in WorkerProbes(i, numThreads);
    }
    forall i: u16 | i < numThreads && p in WorkerProbes(i, numThreads)
      ensures Covered(numThreads, p)
    {
      WorkerPorts(i, numThreads, p);
    }
  }

  /** Disjointness: no port is probed by two different workers. */
  lemma Disjoint(i: u16, j: u16, numThreads: u16, p: u16)
    requires i < numThreads && j < numThreads
    requires p in WorkerProbes(i, numThreads) && p in WorkerProbes(j, numThreads)
    ensures i == j
  {
    WorkerPorts(i, numThreads, p);
    WorkerPorts(j, numThreads, p);
  }

  /** Because the guard is `<=` rather than `<`, port 65535 is never probed
      unless there are exactly 65535 workers, in which case each worker
      probes one port, its own `i + 1`. */
  lemma MaxPortOnlyWithMaxThreads(numThreads: u16)
    ensures numThreads < MAX ==>
      forall i: u16 :: i < numThreads ==> MAX !in WorkerProbes(i, numThreads)
    ensures numThreads == MAX ==>
      forall i: u16 :: i < numThreads ==> WorkerProbes(i, numThreads) == [i + 1]
  {
    forall i: u16 | i < numThreads
      ensures MAX !in WorkerProbes(i, numThreads) || numThreads == MAX
    {
      WorkerPorts(i, numThreads, MAX);
    }
  }
}
