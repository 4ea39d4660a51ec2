/** `Arguments::new` (src/main.rs:11-56): classifies the command line into a
    scan request or one of a fixed set of errors. `IpAddr::from_str` is a
    parameter `parseIp`, so the model holds for every IP literal grammar; the
    address type `A` is left abstract. */
module Cli {
  import opened Types
  import opened Text

  /** The `Arguments` struct (src/main.rs:11-15). */
  datatype Arguments<A> = Arguments(flag: string, ipaddress: A, threads: u16)

  /** The `&'static str` errors `Arguments::new` can return. */
  datatype ArgError =
    | NotEnoughArguments
    | TooManyArguments
    | Help
    | InvalidIpAddr
    | ThreadParse
    | InvalidSyntax

  function Message(e: ArgError): string
  {
    match e
    case NotEnoughArguments => "ERROR - Not enough arguments"
    case TooManyArguments => "ERROR - Too many arguments"
    case Help => "Help"
    case InvalidIpAddr => "ERROR - Not a valid IPADDR; must be IPv4 or IPv6"
    case ThreadParse => "ERROR - Failed to parse thread number"
    case InvalidSyntax => "ERROR - Invalid syntax"
  }

  /** What a call can come to: `Ok`, `Err`, or a panic on an out-of-bounds
      slice index (the `-t` branch reads `args[3]` without a length check). */
  datatype Outcome<A> =
    | Ok(value: Arguments<A>)
    | Err(error: ArgError)
    | IndexPanic(index: nat)

  /** The guard of the help branch, `flag.contains("-h") || flag.contains("-help") && args.len() == 2`,
      with Rust's precedence: `&&` binds tighter than `||`. */
  predicate HelpGuard(flag: string, len: nat)
  {
    Contains(flag, "-h") || (Contains(flag, "-help") && len == 2)
  }

  /** The guard of the second help branch, `flag.contains("-h") || flag.contains("-help")`. */
  predicate SecondHelpGuard(flag: string)
  {
    Contains(flag, "-h") || Contains(flag, "-help")
  }

  /** `Arguments::new(args)`; `args[0]` is the program name and is never read. */
  function NewArguments<A>(args: seq<string>, parseIp: string -> Option<A>): Outcome<A>
  {
    if |args| < 2 then Err(NotEnoughArguments)
    else if |args| > 4 then Err(TooManyArguments)
    else
      var first := args[1];
      match parseIp(first)
      case Some(ip) => Ok(Arguments("", ip, 4))
      case None =>
        var flag := args[1];
        if HelpGuard(flag, |args|) then Err(Help)
        else if SecondHelpGuard(flag) then Err(TooManyArguments)
        else if Contains(flag, "-t") then
          if |args| <= 3 then IndexPanic(3)
          else
            match parseIp(args[3])
            case None => Err(InvalidIpAddr)
            case Some(ip) =>
              match ParseU16(args[2])
              case None => Err(ThreadParse)
              case Some(threads) => Ok(Arguments(flag, ip, threads))
        else Err(InvalidSyntax)
  }

  // ---------------------------------------------------------------------------
  // Properties of the decision tree.

  /** The length checks come before anything else: fewer than two arguments is
      "Not enough", more than four is "Too many", whatever the arguments say. */
  lemma LengthCheckedFirst<A>(args: seq<string>, parseIp: string -> Option<A>)
    ensures |args| < 2 ==> NewArguments(args, parseIp) == Err(NotEnoughArguments)
    ensures |args| > 4 ==> NewArguments(args, parseIp) == Err(TooManyArguments)
    ensures NewArguments(args, parseIp) == Err(NotEnoughArguments) <==> |args| < 2
  {
  }

  /** The branch at src/main.rs:37 is dead: whenever control gets past the
      first guard, the second one is false, because "-help" contains "-h". */
  lemma SecondHelpBranchUnreachable(flag: string, len: nat)
    ensures !HelpGuard(flag, len) ==> !SecondHelpGuard(flag)
  {
    HelpImpliesH(flag);
  }

  /** Hence "Too many arguments" is returned exactly when there are more than
      four arguments: the dead branch never contributes it. */
  lemma TooManyOnlyFromLength<A>(args: seq<string>, parseIp: string -> Option<A>)
    ensures NewArguments(args, parseIp) == Err(TooManyArguments) <==> |args| > 4
  {
    if 2 <= |args| <= 4 {
      SecondHelpBranchUnreachable(args[1], |args|);
    }
  }

  /** If `args[1]` parses as an IP address, the result is that address with
      the default of 4 threads and an empty flag; `args[2..]` are ignored. */
  lemma IpFirstWins<A>(args: seq<string>, parseIp: string -> Option<A>, ip: A)
    requires 2 <= |args| <= 4 && parseIp(args[1]) == Some(ip)
    ensures NewArguments(args, parseIp) == Ok(Arguments("", ip, 4))
    ensures forall rest: seq<string> :: |rest| <= 2 ==>
      NewArguments(args[..2] + rest, parseIp) == NewArguments(args, parseIp)
  {
  }

  /** A first argument that is not an address and contains "-h" anywhere
      (e.g. "-help", "--host", "x-hy") is a help request, for any number of
      arguments from two to four; and only such arguments are. */
  lemma HelpIff<A>(args: seq<string>, parseIp: string -> Option<A>)
    requires 2 <= |args| <= 4
    ensures NewArguments(args, parseIp) == Err(Help) <==>
      parseIp(args[1]).None? && Contains(args[1], "-h")
  {
    HelpImpliesH(args[1]);
  }

  /** The `-t` branch: a non-address first argument containing "-t" but not
      "-h". With fewer than four arguments it panics reading `args[3]`; with
      four, the address is checked before the thread count. */
  lemma ThreadsBranch<A>(args: seq<string>, parseIp: string -> Option<A>)
    requires 2 <= |args| <= 4
    requires parseIp(args[1]).None? && !Contains(args[1], "-h") && Contains(args[1], "-t")
    ensures |args| < 4 ==> NewArguments(args, parseIp) == IndexPanic(3)
    ensures |args| == 4 && parseIp(args[3]).None? ==>
      NewArguments(args, parseIp) == Err(InvalidIpAddr)
    ensures |args| == 4 && parseIp(args[3]).Some? && ParseU16(args[2]).None? ==>
      NewArguments(args, parseIp) == Err(ThreadParse)
    ensures |args| == 4 && parseIp(args[3]).Some? && ParseU16(args[2]).Some? ==>
      NewArguments(args, parseIp) ==
        Ok(Arguments(args[1], parseIp(args[3]).value, ParseU16(args[2]).value))
  {
    HelpImpliesH(args[1]);
  }

  /** `-t abc 127.0.0.1`: a non-numeric thread count is a parse error, for
      any address parser that accepts "127.0.0.1" and rejects "-t". */
  lemma NonNumericThreads<A>(parseIp: string -> Option<A>, prog: string)
    requires parseIp("-t").None? && parseIp("127.0.0.1").Some?
    ensures NewArguments([prog, "-t", "abc", "127.0.0.1"], parseIp) == Err(ThreadParse)
  {
    assert !Contains("-t", "-h") by {
      assert !OccursAt("-t", "-h", 0);
    }
    assert Contains("-t", "-t") by {
      assert OccursAt("-t", "-t", 0);
    }
    assert ParseU16("abc").None? by {
      assert !IsDigit("abc"[0]);
    }
    ThreadsBranch([prog, "-t", "abc", "127.0.0.1"], parseIp);
  }

  /** Every other first argument is a syntax error. */
  lemma InvalidSyntaxIff<A>(args: seq<string>, parseIp: string -> Option<A>)
    requires 2 <= |args| <= 4
    ensures NewArguments(args, parseIp) == Err(InvalidSyntax) <==>
      parseIp(args[1]).None? && !Contains(args[1], "-h") && !Contains(args[1], "-t")
  {
    HelpImpliesH(args[1]);
  }

  /** A successful result always carries either the defaults of the address
      form, or the flag, address and thread count of the `-t` form. */
  lemma OkShapes<A>(args: seq<string>, parseIp: string -> Option<A>)
    requires NewArguments(args, parseIp).Ok?
    ensures 2 <= |args| <= 4
    ensures var a := NewArguments(args, parseIp).value;
      (parseIp(args[1]) == Some(a.ipaddress) && a.flag == "" && a.threads == 4) ||
      (|args| == 4 && a.flag == args[1] && Contains(a.flag, "-t") && !Contains(a.flag, "-h") &&
       parseIp(args[3]) == Some(a.ipaddress) && ParseU16(args[2]) == Some(a.threads))
  {
  }

  /** `main` tests `err.contains("help")` (src/main.rs:84), but the help
      message is "Help", capitalised, so a help request takes the other
      branch, the one that prints the error before exiting. */
  lemma HelpTakesErrorPath()
    ensures Message(Help) == "Help"
    ensures !Contains(Message(Help), "help")
  {
    var s := Message(Help);
    assert s[..4][0] != "help"[0];
    assert !Contains(s[1..], "help");
  }
}
