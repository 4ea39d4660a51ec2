# portscanner, modelled in Dafny

A model of the Rust TCP port scanner in `src/main.rs`. Two parts are covered:

- **Argument classification.** `Arguments::new` turns the command line into a
  flag, an IP address and a thread count, or into one of a fixed set of
  error strings.
- **Scan and aggregation.** `main` starts one `scan` worker per index
  `0..num_threads`. Worker `i` probes ports `i+1`, `i+1+T`, `i+1+2T`, …
  (T is the thread count) and sends each port that accepts a connection over
  a channel. `main` collects what arrives and sorts it into the report.

The files:

- `types.dfy`: Rust's `u16` as a newtype, so that every addition and
  subtraction on ports is checked against overflow; `MAX = 65535`; `Option`.
- `text.dfy`: `str::contains` (substring search) and `str::parse::<u16>`.
  The parser accepts an optional `+` followed by one or more ASCII digits
  with value at most 65535.
- `cli.dfy`: `Arguments::new` as the function `NewArguments`, plus lemmas
  about its decision tree.
- `seqs.dfy`: filtering, strict and non-strict ordering, concatenation of the
  workers' sequences, and a sort.
- `scan.dfy`:
  - `Walk`, the ports a worker's loop visits, as a function.
  - `Scan`, the loop itself, as a method with a `while` loop, proved equal
    to `Walk`.
  - Lemmas on which ports each worker probes (its class), disjointness
    between workers, and coverage of the port range.
- `report.dfy`:
  - What the workers send.
  - The channel, as an arbitrary interleaving chosen by a schedule.
  - The collect-and-sort loop `ScanAll`.
  - Proofs that the sorted report is the same for every interleaving.
- `driver.dfy`: `main` end to end. The arguments are classified and, on
  success, scanned.

`IpAddr::from_str` is the parameter `parseIp: string -> Option<A>`. The
address type `A` stays abstract, so every result holds for any IP literal
grammar. `TcpStream::connect((addr, port))` is the oracle `isOpen(port)`, or
`probe(addr, port)` in the driver. It is a fixed function, so the target's
set of listening ports does not change during a scan.

What the code does, and the model proves:

- **Port 65535 is skipped.** The loop stops when `MAX - port <= num_threads`,
  so a worker never steps onto a port `>= 65535`. The union of all workers'
  ports is therefore `[1, 65534]` for `1 <= T < 65535`. Only for
  `T = 65535` is it `[1, 65535]`, with each worker probing just its own
  port `i + 1`. The comments at src/main.rs:9 ("max port # that can be
  sniffed") and src/main.rs:71 ("break loop when max port is reached") point
  to the full range `[1, 65535]`, which would be 65535 probes for every
  `T >= 1`. For `1 <= T < 65535` the code makes 65534 probes, 65535 for
  `T = 65535`, and none for `T = 0`. The model follows the code:
  see `Coverage`, `ProbeCount`, `MaxPortOnlyWithMaxThreads` and
  `WalkClosedForm`.
- **`-t 0` is accepted.** A thread count of 0 parses as a `u16`
  (src/main.rs:46). `for i in 0..num_threads` (src/main.rs:98) then spawns no
  worker, and the report is empty.
- **Help is matched by substring.** The usage text (src/main.rs:34) names
  `-h` and `-help` as the help options. The code treats any non-address first
  argument that contains `-h` as a help request, for any argument count from
  2 to 4; with more than 4 arguments the length check comes first and gives
  "Too many arguments". Because `&&` binds tighter than `||`, the branch at
  line 37 is unreachable.
- **Unchecked index in the `-t` branch.** Any non-address first argument
  containing `-t` (and not `-h`) takes that branch. It reads `args[3]`
  without checking the length, so with two or three arguments it panics.
  The model's outcome for this is `IndexPanic(3)`.

## Model

| member | source | states |
|---|---|---|
| `Text.Contains` | src/main.rs:33 | `s.contains(pat)` is true exactly when `pat` occurs in `s` at some index (a substring test, not equality) |
| `Text.HelpImpliesH` | src/main.rs:33-37 | every string that contains "-help" also contains "-h" |
| `Text.ParseU16` | src/main.rs:46 | `str::parse::<u16>`: an optional `+`, one or more ASCII digits, value at most 65535; the body is the definition, and `ParseDecimal` and `ParseOverflow` state its round trip and its range check |
| `Text.ParseDecimal` | src/main.rs:46 | round trip: `parse::<u16>` of the decimal rendering of any `u16` value gives that value back |
| `Text.ParseOverflow` | src/main.rs:46-49 | the decimal rendering of any number above 65535 is rejected by `parse::<u16>`, so the thread count must fit in a `u16` |
| `Cli.NewArguments` | src/main.rs:19-56 | the decision tree of `Arguments::new`, written out in the body with the same branch order; what it means is stated by `LengthCheckedFirst`, `TooManyOnlyFromLength`, `IpFirstWins`, `HelpIff`, `ThreadsBranch`, `InvalidSyntaxIff` and `OkShapes` |
| `Cli.LengthCheckedFirst` | src/main.rs:20-25 | fewer than 2 arguments gives "Not enough arguments" and more than 4 gives "Too many arguments", whatever the contents; "Not enough" occurs exactly when there are fewer than 2 |
| `Cli.SecondHelpBranchUnreachable` | src/main.rs:33-39 | whenever the first help guard is false, the second one is false too, so the branch at line 37 never runs |
| `Cli.TooManyOnlyFromLength` | src/main.rs:23-39 | "Too many arguments" is returned if and only if there are more than 4 arguments |
| `Cli.IpFirstWins` | src/main.rs:26-30 | if `args[1]` parses as an address, the result is that address with an empty flag and 4 threads, and replacing `args[2..]` changes nothing |
| `Cli.HelpIff` | src/main.rs:31-36 | with 2 to 4 arguments, the result is `Err("Help")` if and only if `args[1]` is not an address and contains "-h" |
| `Cli.ThreadsBranch` | src/main.rs:40-51 | for a non-address `args[1]` that contains "-t" and not "-h": fewer than 4 arguments panics on `args[3]`; otherwise a bad address gives the address error (checked first), a bad count gives the thread-parse error, and otherwise the result is `Ok` with `args[1]` as flag, the parsed address and the parsed count |
| `Cli.NonNumericThreads` | src/main.rs:40-49 | `-t abc 127.0.0.1` gives "Failed to parse thread number" for any address parser that accepts 127.0.0.1 and rejects "-t" |
| `Cli.InvalidSyntaxIff` | src/main.rs:52-54 | with 2 to 4 arguments, "Invalid syntax" is returned if and only if `args[1]` is not an address and contains neither "-h" nor "-t" |
| `Cli.HelpTakesErrorPath` | src/main.rs:84-90 | the help error (src/main.rs:35) is "Help", which does not contain "help", so `main`'s `err.contains("help")` test is false for it and it takes the `eprintln!` branch |
| `Cli.OkShapes` | src/main.rs:19-56 | every successful result has 2 to 4 arguments. It is either the address form (empty flag, 4 threads) or the 4-argument `-t` form, whose flag contains "-t" and not "-h" and whose address and count are `args[3]` and `args[2]` parsed |
| `PortScan.Walk` | src/main.rs:61-75 | the ports the loop visits from a start port: never empty, and the first is the start port |
| `PortScan.WalkIncreasing` | src/main.rs:71-74 | the visited ports are strictly ascending and none is below the start port, so no port is probed twice |
| `PortScan.WalkClosedForm` | src/main.rs:61-75 | the k-th probe is `start + k * num_threads`, every probe but the last is more than `num_threads` below 65535, and the last is within `num_threads` of it: the loop stops at the first such port, as the `<=` guard of line 71 makes it |
| `PortScan.WalkContains` | src/main.rs:61-75 | a port is visited iff it is the start port plus a multiple of `num_threads` and is either the start port or below 65535 |
| `PortScan.Scan` | src/main.rs:60-76 | the loop terminates (`MAX - port` decreases) and no `u16` operation overflows; it visits exactly `Walk(start_port + 1, num_threads)`; it sends the open ports among them, in ascending order, and these are exactly the open ports of its class |
| `PortScan.WorkerPorts` | src/main.rs:60-76 | worker `i` probes port `p` iff `p >= 1`, `(p - 1) % T == i`, and `p < 65535` or `T == 65535` |
| `PortScan.EmittedPorts` | src/main.rs:63-68 | what worker `i` sends is strictly ascending and holds exactly the open ports of its class |
| `PortScan.Coverage` | src/main.rs:98-104 | some worker probes `p` iff `T >= 1`, `p >= 1`, and `p < 65535` or `T == 65535` |
| `PortScan.Disjoint` | src/main.rs:98-104 | a port probed by workers `i` and `j` forces `i == j` |
| `PortScan.MaxPortOnlyWithMaxThreads` | src/main.rs:71-73 | for `T < 65535` no worker probes 65535; for `T == 65535` worker `i` probes only `i + 1` |
| `Report.Emissions` | src/main.rs:98-104 | one send sequence per spawned worker, `num_threads` of them; worker `i`'s is the open ports among `Walk(i + 1, num_threads)`, in probe order |
| `Report.Merge` | src/main.rs:106-110 | the order in which the channel delivers the workers' sends, chosen by a schedule; the body is the construction, and `MergeMultiset` and `MergeKeepsOrder` show that it is an interleaving |
| `Report.MergeMultiset` | src/main.rs:106-110 | every interleaving the channel can deliver holds exactly what the workers sent, each value as often as it was sent |
| `Report.MergeKeepsOrder` | src/main.rs:106-110 | for every schedule, each worker's values arrive in the order that worker sent them (its send sequence is a subsequence of what is delivered) |
| `Report.PrefixCount` | src/main.rs:98-110 | the first `n` workers together send each open port of their classes exactly once, and nothing else |
| `Report.EmissionsCount` | src/main.rs:98-110 | all workers together send each open covered port exactly once, and nothing else |
| `Report.ProbeCount` | src/main.rs:98-104 | over all workers each covered port is probed exactly once and no other port is probed; there are 65534 probes in all (65535 when `T == 65535`, 0 when `T == 0`) |
| `Report.ExpectedReportContents` | src/main.rs:111-116 | the reference report is strictly ascending and lists exactly the open covered ports |
| `Report.SortedReport` | src/main.rs:106-113 | for every interleaving, every ascending permutation of what arrives equals the reference report |
| `Report.ScanAll` | src/main.rs:94-116 | spawning the workers, collecting the channel into `out` and sorting yields the reference report, the same for every interleaving: strictly ascending (so duplicate-free) and exactly the open covered ports |
| `Report.TwoListeners` | src/main.rs:106-116 | with listeners on 22 and 8080 and 4 threads, the sorted report is `[22, 8080]` for every interleaving |
| `Report.NoListeners` | src/main.rs:106-116 | with no listeners the sorted report is empty for every thread count and interleaving |
| `Seqs.InsertionSort` | src/main.rs:113 | `out.sort()` gives an ascending permutation of its input |
| `Seqs.SortedUnique` | src/main.rs:113 | any two ascending permutations of the same values are equal, so the standard library's sort gives the same result as the model's |
| `Driver.Run` | src/main.rs:78-116 | an empty argument vector panics on `args[0]`; an argument error or panic in `Arguments::new` stops the program before any scan. Otherwise the scan of the parsed address with the parsed thread count prints the reference report, which is ascending and holds exactly that address's open covered ports |

## Left out

- `TcpStream::connect` (src/main.rs:63) is network I/O. It is the oracle `isOpen`/`probe`, fixed for the duration of a scan. Connect timeouts and transient failures are not modelled.
- `thread::spawn`, `channel`, `tx.clone()` and `drop(tx)` (src/main.rs:96-108) are the concurrency mechanism. Workers run one after another in `ScanAll`, and the channel is a `schedule` that interleaves the workers' send sequences. Channel closing, and the `unwrap()` on `tx.send`, are not modelled.
- Report.Merge: every schedule gives an interleaving, but the converse is not proved: the model does not show that every interleaving comes from some schedule. The report does not depend on this, because `Seqs.SortedUnique` makes the sorted result the same for every delivery order with the same values.
- `print!`, `flush`, `println!` (the usage text, the progress dots and the report lines), `eprintln!` and `process::exit` (src/main.rs:34, 65-66, 84-90, 111-116) are output. `Driver.Run` returns the report instead of printing it.
- `main`'s `err.contains("help")` test (src/main.rs:84) only chooses between exit paths that both exit with status 0. `Cli.HelpTakesErrorPath` shows that `"Help"` does not contain `"help"`, so a help request takes the `eprintln!` path.
- `env::args()` (src/main.rs:79) reads the environment. The model takes `args` as a parameter. `Driver.Run` models the panic of `args[0].clone()` (src/main.rs:80) on an empty vector as `Panicked(0)`. `args[0]` is never examined by `Arguments::new`.
- `IpAddr::from_str` is a library parser. It is the parameter `parseIp`, and the IPv4/IPv6 literal grammar is not modelled.
- `slice::sort` is a library algorithm. It is modelled by `Seqs.InsertionSort`, a pure function rather than an in-place sort; `Seqs.SortedUnique` shows that every correct sort gives the same result.
