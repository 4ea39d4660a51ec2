/** The driver in `main` (src/main.rs:94-116): one `scan` per worker index,
    every port the workers send collected into `out` in the order the channel
    delivers them, then `out.sort()`.
    Threads and the channel are not modelled as such. Each worker's sends are
    a sequence, and the channel delivers some interleaving of them, chosen by
    a `schedule` of worker indices (see Merge). */
module Report {
  import opened Types
  import opened Seqs
  import opened PortScan

  /** What each worker sends on its clone of `tx`, in send order. */
  function Emissions(numThreads: u16, isOpen: u16 -> bool): (ws: seq<seq<u16>>)
    ensures |ws| == numThreads as int
  {
    seq(numThreads as int, i requires 0 <= i < numThreads as int =>
      Filter(WorkerProbes(i as u16, numThreads), isOpen))
  }

  /** The channel's delivery order. At each step the next value comes from the
      worker `schedule[0]` names, when it still has one; once the schedule
      runs out the remaining values come worker by worker. The result is an
      interleaving of `ws`: MergeMultiset shows that it holds exactly the
      values sent, and MergeKeepsOrder that each worker's values arrive in
      the order that worker sent them. */
  function Merge(ws: seq<seq<u16>>, schedule: seq<nat>): seq<u16>
    decreases |schedule|
  {
    if schedule == [] then Flatten(ws)
    else
      var i := schedule[0];
      if i < |ws| && ws[i] != [] then [ws[i][0]] + Merge(ws[i := ws[i][1..]], schedule[1..])
      else Merge(ws, schedule[1..])
  }

  /** Whatever the interleaving, the channel delivers each value sent exactly
      once: nothing is lost, duplicated or invented. */
  lemma {:induction false} MergeMultiset(ws: seq<seq<u16>>, schedule: seq<nat>)
    ensures multiset(Merge(ws, schedule)) == multiset(Flatten(ws))
    decreases |schedule|
  {
    if schedule != [] {
      var i := schedule[0];
      if i < |ws| && ws[i] != [] {
        var head, tail := ws[i][0], ws[i][1..];
        var rest := ws[i := tail];
        assert Merge(ws, schedule) == [head] + Merge(rest, schedule[1..]);
        MergeMultiset(rest, schedule[1..]);
        FlattenTakeHead(ws, i);
      } else {
        assert Merge(ws, schedule) == Merge(ws, schedule[1..]);
        MergeMultiset(ws, schedule[1..]);
      }
    }
  }

  /** A channel is FIFO per sender: whatever the interleaving, the values of
      each worker arrive in the order that worker sent them. */
  lemma {:induction false} MergeKeepsOrder(ws: seq<seq<u16>>, schedule: seq<nat>, k: nat)
    requires k < |ws|
    ensures Subsequence(ws[k], Merge(ws, schedule))
    decreases |schedule|
  {
    if schedule == [] {
      FlattenKeepsParts(ws, k);
    } else {
      var i := schedule[0];
      if i < |ws| && ws[i] != [] {
        var rest := ws[i := ws[i][1..]];
        var m := Merge(ws, schedule);
        assert m == [ws[i][0]] + Merge(rest, schedule[1..]);
        MergeKeepsOrder(rest, schedule[1..], k);
        assert m[1..] == Merge(rest, schedule[1..]);
        if i == k {
          assert ws[k][1..] == rest[k];
        } else {
          assert ws[k] == rest[k];
        }
      } else {
        MergeKeepsOrder(ws, schedule[1..], k);
      }
    }
  }

  /** The first `n` workers together send each open port of their classes
      exactly once. */
  lemma {:induction false} PrefixCount(numThreads: u16, isOpen: u16 -> bool, n: nat, p: u16)
    requires n <= numThreads as int
    ensures multiset(Flatten(Emissions(numThreads, isOpen)[..n]))[p] ==
      if InFirstWorkers(numThreads, n, p) && isOpen(p) then 1 else 0
  {
    var ws := Emissions(numThreads, isOpen);
    if n > 0 {
      var i := (n - 1) as u16;
      PrefixCount(numThreads, isOpen, n - 1, p);
      assert ws[..n][..n - 1] == ws[..n - 1];
      assert Flatten(ws[..n]) == Flatten(ws[..n - 1]) + ws[n - 1];
      EmittedPorts(i, numThreads, isOpen);
      IncreasingCount(ws[n - 1], p);
      assert multiset(ws[n - 1])[p] == if isOpen(p) && InClass(i, numThreads, p) then 1 else 0;
      StepWorkers(numThreads, n, p);
    }
  }

  /** Adding worker `n - 1` adds exactly its class. */
  lemma StepWorkers(numThreads: u16, n: nat, p: u16)
    requires 0 < n <= numThreads as int
    ensures InFirstWorkers(numThreads, n, p) <==>
      InFirstWorkers(numThreads, n - 1, p) || InClass((n - 1) as u16, numThreads, p)
    ensures !(InFirstWorkers(numThreads, n - 1, p) && InClass((n - 1) as u16, numThreads, p))
  {
  }

  /** All workers together send each open covered port exactly once. */
  lemma EmissionsCount(numThreads: u16, isOpen: u16 -> bool, p: u16)
    ensures multiset(Flatten(Emissions(numThreads, isOpen)))[p] ==
      if Covered(numThreads, p) && isOpen(p) then 1 else 0
  {
    var ws := Emissions(numThreads, isOpen);
    assert ws[..numThreads as int] == ws;
    PrefixCount(numThreads, isOpen, numThreads as int, p);
  }

  /** Every probe `connect` is attempted on, over all workers, in worker
      order. */
  function AllProbes(numThreads: u16): seq<u16>
  {
    Flatten(seq(numThreads as int, i requires 0 <= i < numThreads as int => WorkerProbes(i as u16, numThreads)))
  }

  /** A target where every port accepts a connection. */
  function AllOpen(p: u16): bool { true }

  /** Partition: across all workers each covered port is probed exactly once
      and no other port is probed, so there are 65534 probes in all (65535
      for 65535 workers, none for 0). */
  lemma ProbeCount(numThreads: u16)
    ensures forall p :: multiset(AllProbes(numThreads))[p] == if Covered(numThreads, p) then 1 else 0
    ensures |AllProbes(numThreads)| == if numThreads == 0 then 0 else LastPort(numThreads) as int
  {
    var walks := seq(numThreads as int, i requires 0 <= i < numThreads as int => WorkerProbes(i as u16, numThreads));
    var ws := Emissions(numThreads, AllOpen);
    forall i | 0 <= i < numThreads as int ensures ws[i] == walks[i] {
      FilterTrue(WorkerProbes(i as u16, numThreads), AllOpen);
    }
    assert ws == walks;
    forall p ensures multiset(AllProbes(numThreads))[p] == if Covered(numThreads, p) then 1 else 0 {
      EmissionsCount(numThreads, AllOpen, p);
    }
    if numThreads > 0 {
      var range := Range(1, LastPort(numThreads));
      forall p ensures multiset(AllProbes(numThreads))[p] == multiset(range)[p] {
        IncreasingCount(range, p);
      }
      assert multiset(AllProbes(numThreads)) == multiset(range);
      assert |AllProbes(numThreads)| == |multiset(range)| == |range|;
    }
  }

  /** The report a scan should print: the open ports among those probed, in
      ascending order. */
  function ExpectedReport(numThreads: u16, isOpen: u16 -> bool): seq<u16>
  {
    if numThreads == 0 then [] else Filter(Range(1, LastPort(numThreads)), isOpen)
  }

  /** The expected report is strictly ascending and lists exactly the open
      covered ports. */
  lemma ExpectedReportContents(numThreads: u16, isOpen: u16 -> bool)
    ensures Increasing(ExpectedReport(numThreads, isOpen))
    ensures forall p :: p in ExpectedReport(numThreads, isOpen) <==> Covered(numThreads, p) && isOpen(p)
  {
    if numThreads > 0 {
      FilterMembers(Range(1, LastPort(numThreads)), isOpen);
      FilterIncreasing(Range(1, LastPort(numThreads)), isOpen);
    }
  }

  /** Whatever the interleaving, any ascending permutation of what arrives on
      the channel is the expected report. */
  lemma SortedReport(numThreads: u16, isOpen: u16 -> bool, schedule: seq<nat>, out: seq<u16>)
    requires Sorted(out)
    requires multiset(out) == multiset(Merge(Emissions(numThreads, isOpen), schedule))
    ensures out == ExpectedReport(numThreads, isOpen)
  {
    var expected := ExpectedReport(numThreads, isOpen);
    MergeMultiset(Emissions(numThreads, isOpen), schedule);
    ExpectedReportContents(numThreads, isOpen);
    forall p ensures multiset(out)[p] == multiset(expected)[p] {
      EmissionsCount(numThreads, isOpen, p);
      IncreasingCount(expected, p);
    }
    assert multiset(out) == multiset(expected);
    SortedUnique(out, expected);
  }

  /** `main` from the parsed thread count on. `isOpen` is the connect
      oracle for the parsed address; `schedule` decides how the channel
      interleaves the workers' sends. */
  method ScanAll(numThreads: u16, isOpen: u16 -> bool, schedule: seq<nat>) returns (report: seq<u16>)
    ensures report == ExpectedReport(numThreads, isOpen)
    ensures Increasing(report)
    ensures forall p :: p in report <==> Covered(numThreads, p) && isOpen(p)
  {
    // for i in 0..num_threads { thread::spawn(move || scan(tx, i, addr, num_threads)) }
    var emissions: seq<seq<u16>> := [];
    for i := 0 to numThreads as int
      invariant |emissions| == i
      invariant forall k :: 0 <= k < i ==> emissions[k] == Emissions(numThreads, isOpen)[k]
    {
      var sent;
      ghost var visited;
      sent, visited := Scan(i as u16, numThreads, isOpen);
      emissions := emissions + [sent];
    }
    assert emissions == Emissions(numThreads, isOpen);
    var received := Merge(emissions, schedule);
    // for j in rx { out.push(j); }
    var out: seq<u16> := [];
    for k := 0 to |received|
      invariant out == received[..k]
    {
      out := out + [received[k]];
    }
    assert out == received;
    // out.sort();
    out := InsertionSort(out);
    SortedReport(numThreads, isOpen, schedule, out);
    ExpectedReportContents(numThreads, isOpen);
    report := out;
  }

  // ---------------------------------------------------------------------------
  // Reports for two targets.

  /** Listeners on ports 22 and 8080 and four workers: the report is
      `[22, 8080]` whichever worker finds its port first. */
  lemma TwoListeners(schedule: seq<nat>, out: seq<u16>)
    requires Sorted(out)
    requires multiset(out) == multiset(Merge(Emissions(4, p => p == 22 || p == 8080), schedule))
    ensures out == [22, 8080]
  {
    var isOpen := p => p == 22 || p == 8080;
    SortedReport(4, isOpen, schedule, out);
    ExpectedReportContents(4, isOpen);
    var found: seq<u16> := [22, 8080];
    assert Increasing(found);
    IncreasingSameElements(out, found);
  }

  /** No listeners: the report is empty. */
  lemma NoListeners(numThreads: u16, schedule: seq<nat>, out: seq<u16>)
    requires Sorted(out)
    requires multiset(out) == multiset(Merge(Emissions(numThreads, p => false), schedule))
    ensures out == []
  {
    SortedReport(numThreads, p => false, schedule, out);
    ExpectedReportContents(numThreads, p => false);
    IncreasingSameElements(out, []);
  }
}
