/** `main` end to end (src/main.rs:78-116), with `env::args()` as the
    parameter `args`, `IpAddr::from_str` as `parseIp`, and `TcpStream::connect`
    as the oracle `probe(address, port)`. */
module Driver {
  import opened Types
  import opened Seqs
  import opened Cli
  import opened PortScan
  import opened Report

  /** How a run ends: `Arguments::new` failed (main then exits), a slice
      index was out of bounds (`args[0]` in `main`, `args[3]` in
      `Arguments::new`), or a scan of `address` printed `report`. */
  datatype RunResult<A> =
    | Exited(error: ArgError)
    | Panicked(index: nat)
    | Scanned(address: A, report: seq<u16>)

  /** The connect oracle for a fixed address. */
  function OracleFor<A>(probe: (A, u16) -> bool, address: A): u16 -> bool
  {
    p => probe(address, p)
  }

  method Run<A>(args: seq<string>, parseIp: string -> Option<A>, probe: (A, u16) -> bool, schedule: seq<nat>)
    returns (r: RunResult<A>)
    ensures |args| == 0 ==> r == Panicked(0)
    ensures |args| > 0 ==> match NewArguments(args, parseIp)
      case Err(e) => r == Exited(e)
      case IndexPanic(k) => r == Panicked(k)
      case Ok(a) =>
        r.Scanned? && r.address == a.ipaddress &&
        r.report == ExpectedReport(a.threads, OracleFor(probe, a.ipaddress)) &&
        Increasing(r.report) &&
        forall p :: p in r.report <==> Covered(a.threads, p) && probe(a.ipaddress, p)
  {
    // let program = args[0].clone();
    if |args| == 0 {
      return Panicked(0);
    }
    match NewArguments(args, parseIp)
    case Err(e) =>
      r := Exited(e);
    case IndexPanic(k) =>
      r := Panicked(k);
    case Ok(arguments) =>
      var numThreads := arguments.threads;
      var addr := arguments.ipaddress;
      var report := ScanAll(numThreads, OracleFor(probe, addr), schedule);
      r := Scanned(addr, report);
  }
}
