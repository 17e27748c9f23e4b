/** The command line of `Program.Main`: flags, the two options that take a
    value, and up to two positional arguments (share link, password). */
module Options {
  import opened Wrappers

  datatype CommandLine = CommandLine(
    rpcUrl: string,
    rpcSecret: string,
    shareUrl: string,
    sharePassword: string,
    printHelp: bool,
    selectFiles: bool)

  const DefaultRpcUrl := "http://[::1]:6800"

  const Defaults := CommandLine(DefaultRpcUrl, "", "", "", false, false)

  /** A value-taking option given as the last argument has no value to
      read, and the loop throws; the option is kept. */
  datatype ArgsError = MissingValue(option: string)

  /** One argument, or an option together with the argument after it. */
  datatype Arg =
    | Help
    | SelectFiles
    | RpcSecret(secret: string)
    | RpcUrl(url: string)
    | Positional(value: string)

  predicate TakesValue(arg: string)
  {
    arg == "--rpc-secret" || arg == "--rpc-url"
  }

  /** The arguments grouped as the loop reads them: an option that takes a
      value swallows the next argument, whatever it is. */
  function Tokens(args: seq<string>): Result<seq<Arg>, ArgsError>
  {
    if args == [] then Ok([])
    else
      var arg := args[0];
      if TakesValue(arg) then
        if |args| < 2 then Err(MissingValue(arg))
        else
          var t := if arg == "--rpc-secret" then RpcSecret(args[1]) else RpcUrl(args[1]);
          Cons(t, Tokens(args[2..]))
      else
        var t := if arg == "--help" || arg == "-h" then Help
                 else if arg == "--select-files" then SelectFiles
                 else Positional(arg);
        Cons(t, Tokens(args[1..]))
  }

  function Cons(t: Arg, rest: Result<seq<Arg>, ArgsError>): Result<seq<Arg>, ArgsError>
  {
    if rest.Err? then rest else Ok([t] + rest.value)
  }

  /** What one argument does to the variables of `Main`. */
  function Apply(c: CommandLine, t: Arg): CommandLine
  {
    match t
    case Help => c.(printHelp := true)
    case SelectFiles => c.(selectFiles := true)
    case RpcSecret(v) => c.(rpcSecret := v)
    case RpcUrl(v) => c.(rpcUrl := v)
    case Positional(v) => if c.shareUrl == "" then c.(shareUrl := v) else c.(sharePassword := v)
  }

  function Fold(c: CommandLine, ts: seq<Arg>): CommandLine
    decreases |ts|
  {
    if ts == [] then c else Fold(Apply(c, ts[0]), ts[1..])
  }

  /** The command line `Main` ends its argument loop with. */
  function Parse(args: seq<string>): Result<CommandLine, ArgsError>
  {
    Continue(Defaults, Tokens(args))
  }

  function Continue(c: CommandLine, ts: Result<seq<Arg>, ArgsError>): Result<CommandLine, ArgsError>
  {
    if ts.Err? then Err(ts.error) else Ok(Fold(c, ts.value))
  }

  /** `Main` prints its usage and returns. */
  predicate ShowsUsage(c: CommandLine)
  {
    c.printHelp || c.shareUrl == ""
  }

  /** The argument loop of `Main`. */
  method ParseArgs(args: seq<string>) returns (r: Result<CommandLine, ArgsError>)
    ensures r == Parse(args)
  {
    var c := Defaults;
    var i := 0;
    while i < |args|
      invariant 0 <= i <= |args|
      invariant Parse(args) == Continue(c, Tokens(args[i..]))
      decreases |args| - i
    {
      var arg := args[i];
      assert args[i..][0] == arg;
      if arg == "--help" || arg == "-h" {
        c := c.(printHelp := true);
      } else if arg == "--select-files" {
        c := c.(selectFiles := true);
      } else if arg == "--rpc-secret" {
        i := i + 1;
        if i >= |args| {
          return Err(MissingValue(arg));
        }
        assert args[i - 1..][1] == args[i] && args[i - 1..][2..] == args[i + 1..];
        c := c.(rpcSecret := args[i]);
      } else if arg == "--rpc-url" {
        i := i + 1;
        if i >= |args| {
          return Err(MissingValue(arg));
        }
        assert args[i - 1..][1] == args[i] && args[i - 1..][2..] == args[i + 1..];
        c := c.(rpcUrl := args[i]);
      } else if c.shareUrl == "" {
        c := c.(shareUrl := arg);
      } else {
        c := c.(sharePassword := arg);
      }
      assert args[i..][1..] == args[i + 1..];
      i := i + 1;
    }
    assert args[i..] == [];
    return Continue(c, Ok([]));
  }

  // ---------------------------------------------------------------------
  // What the loop computes, option by option
  // ---------------------------------------------------------------------

  /** The values of the positional arguments, in order. */
  function Positionals(ts: seq<Arg>): seq<string>
  {
    if ts == [] then []
    else (if ts[0].Positional? then [ts[0].value] else []) + Positionals(ts[1..])
  }

  /** `--help` or `-h` anywhere (not as an option's value) sets the flag;
      `--select-files` likewise. */
  lemma {:induction false} FoldFlags(c: CommandLine, ts: seq<Arg>)
    ensures Fold(c, ts).printHelp <==> c.printHelp || Help in ts
    ensures Fold(c, ts).selectFiles <==> c.selectFiles || SelectFiles in ts
    decreases |ts|
  {
    if ts != [] {
      FoldFlags(Apply(c, ts[0]), ts[1..]);
      assert ts == [ts[0]] + ts[1..];
    }
  }

  /** `ts[k]` is the last `--rpc-url`. */
  predicate LastRpcUrlAt(ts: seq<Arg>, k: int)
  {
    0 <= k < |ts| && ts[k].RpcUrl? && forall j :: k < j < |ts| ==> !ts[j].RpcUrl?
  }

  /** `ts[k]` is the last `--rpc-secret`. */
  predicate LastRpcSecretAt(ts: seq<Arg>, k: int)
  {
    0 <= k < |ts| && ts[k].RpcSecret? && forall j :: k < j < |ts| ==> !ts[j].RpcSecret?
  }

  /** The last `--rpc-url` wins; without one the default stays. */
  lemma {:induction false} FoldLastRpcUrlWins(c: CommandLine, ts: seq<Arg>)
    ensures (forall k :: 0 <= k < |ts| ==> !ts[k].RpcUrl?) ==> Fold(c, ts).rpcUrl == c.rpcUrl
    ensures forall k :: LastRpcUrlAt(ts, k) ==> Fold(c, ts).rpcUrl == ts[k].url
    decreases |ts|
  {
    if ts != [] {
      var rest := ts[1..];
      FoldLastRpcUrlWins(Apply(c, ts[0]), rest);
      assert forall j :: 0 <= j < |rest| ==> rest[j] == ts[j + 1];
      forall k | LastRpcUrlAt(ts, k) && k > 0
        ensures LastRpcUrlAt(rest, k - 1)
      {
      }
    }
  }

  /** The last `--rpc-secret` wins; without one the secret stays. */
  lemma {:induction false} FoldLastRpcSecretWins(c: CommandLine, ts: seq<Arg>)
    ensures (forall k :: 0 <= k < |ts| ==> !ts[k].RpcSecret?) ==> Fold(c, ts).rpcSecret == c.rpcSecret
    ensures forall k :: LastRpcSecretAt(ts, k) ==> Fold(c, ts).rpcSecret == ts[k].secret
    decreases |ts|
  {
    if ts != [] {
      var rest := ts[1..];
      FoldLastRpcSecretWins(Apply(c, ts[0]), rest);
      assert forall j :: 0 <= j < |rest| ==> rest[j] == ts[j + 1];
      forall k | LastRpcSecretAt(ts, k) && k > 0
        ensures LastRpcSecretAt(rest, k - 1)
      {
      }
    }
  }

  /** `ps[k]` is the first non-empty string of `ps`. */
  predicate FirstNonEmptyAt(ps: seq<string>, k: int)
  {
    0 <= k < |ps| && ps[k] != "" && forall j :: 0 <= j < k ==> ps[j] == ""
  }

  predicate AllEmpty(ps: seq<string>)
  {
    forall k :: 0 <= k < |ps| ==> ps[k] == ""
  }

  /** Without a non-empty positional argument the share link stays empty
      (and `Main` prints its usage). */
  lemma {:induction false} FoldNoLink(c: CommandLine, ts: seq<Arg>)
    requires c.shareUrl == "" && AllEmpty(Positionals(ts))
    ensures Fold(c, ts).shareUrl == "" && Fold(c, ts).sharePassword == c.sharePassword
    decreases |ts|
  {
    if ts != [] {
      var ps := Positionals(ts);
      var ps' := Positionals(ts[1..]);
      if ts[0].Positional? {
        assert ps == [ts[0].value] + ps';
        assert ps[0] == "";
        assert forall j :: 0 <= j < |ps'| ==> ps'[j] == ps[j + 1];
      } else {
        assert ps == ps';
      }
      FoldNoLink(Apply(c, ts[0]), ts[1..]);
    }
  }

  /** The positional arguments only ever set the share link and the
      password: the first non-empty one becomes the link (an empty one
      before it is skipped), and the last one after it the password. */
  lemma {:induction false} FoldLink(c: CommandLine, ts: seq<Arg>, k: int)
    requires c.shareUrl == "" && FirstNonEmptyAt(Positionals(ts), k)
    ensures Fold(c, ts).shareUrl == Positionals(ts)[k]
    ensures var ps := Positionals(ts);
            Fold(c, ts).sharePassword == if k < |ps| - 1 then ps[|ps| - 1] else c.sharePassword
    decreases |ts|, 1
  {
    if !ts[0].Positional? {
      FoldLinkOption(c, ts, k);
    } else if ts[0].value == "" {
      FoldLinkEmpty(c, ts, k);
    } else {
      FoldLinkHere(c, ts, k);
    }
  }

  /** The case of `FoldLink` where the first argument is not positional. */
  lemma {:induction false} FoldLinkOption(c: CommandLine, ts: seq<Arg>, k: int)
    requires c.shareUrl == "" && FirstNonEmptyAt(Positionals(ts), k)
    requires !ts[0].Positional?
    ensures Fold(c, ts).shareUrl == Positionals(ts)[k]
    ensures var ps := Positionals(ts);
            Fold(c, ts).sharePassword == if k < |ps| - 1 then ps[|ps| - 1] else c.sharePassword
    decreases |ts|, 0
  {
    var c' := Apply(c, ts[0]);
    assert Fold(c, ts) == Fold(c', ts[1..]);
    assert c'.shareUrl == "" && c'.sharePassword == c.sharePassword;
    assert Positionals(ts) == Positionals(ts[1..]);
    FoldLink(c', ts[1..], k);
  }

  /** The case of `FoldLink` where the first argument is an empty
      positional one, which sets the (still empty) link again. */
  lemma {:induction false} FoldLinkEmpty(c: CommandLine, ts: seq<Arg>, k: int)
    requires c.shareUrl == "" && FirstNonEmptyAt(Positionals(ts), k)
    requires ts[0] == Positional("")
    ensures Fold(c, ts).shareUrl == Positionals(ts)[k]
    ensures var ps := Positionals(ts);
            Fold(c, ts).sharePassword == if k < |ps| - 1 then ps[|ps| - 1] else c.sharePassword
    decreases |ts|, 0
  {
    var c' := Apply(c, ts[0]);
    var ps := Positionals(ts);
    var ps' := Positionals(ts[1..]);
    assert Fold(c, ts) == Fold(c', ts[1..]);
    assert c' == c;
    assert ps == [""] + ps';
    assert k != 0;
    assert forall j :: 0 <= j < k - 1 ==> ps'[j] == ps[j + 1];
    FoldLink(c, ts[1..], k - 1);
    assert ps'[k - 1] == ps[k] && ps[|ps| - 1] == ps'[|ps'| - 1];
  }

  /** The case of `FoldLink` where the first argument is the link. */
  lemma FoldLinkHere(c: CommandLine, ts: seq<Arg>, k: int)
    requires c.shareUrl == "" && FirstNonEmptyAt(Positionals(ts), k)
    requires ts[0].Positional? && ts[0].value != ""
    ensures k == 0
    ensures Fold(c, ts).shareUrl == ts[0].value
    ensures var ps := Positionals(ts);
            Fold(c, ts).sharePassword == if |ps| > 1 then ps[|ps| - 1] else c.sharePassword
  {
    var c' := Apply(c, ts[0]);
    var ps := Positionals(ts);
    var ps' := Positionals(ts[1..]);
    assert ps == [ts[0].value] + ps';
    assert ps[0] == ts[0].value;
    assert Fold(c, ts) == Fold(c', ts[1..]);
    FoldAfterLink(c', ts[1..]);
    if ps' != [] {
      assert ps[|ps| - 1] == ps'[|ps'| - 1];
    }
  }

  /** Once the link is set, every positional argument overwrites the
      password and the link stays. */
  lemma {:induction false} FoldAfterLink(c: CommandLine, ts: seq<Arg>)
    requires c.shareUrl != ""
    ensures Fold(c, ts).shareUrl == c.shareUrl
    ensures var ps := Positionals(ts);
            Fold(c, ts).sharePassword == if ps == [] then c.sharePassword else ps[|ps| - 1]
    decreases |ts|
  {
    if ts != [] {
      FoldAfterLink(Apply(c, ts[0]), ts[1..]);
      var ps := Positionals(ts);
      var ps' := Positionals(ts[1..]);
      if ts[0].Positional? {
        assert ps == [ts[0].value] + ps';
        if ps' != [] {
          assert ps[|ps| - 1] == ps'[|ps'| - 1];
        }
      } else {
        assert ps == ps';
      }
    }
  }

  /** The loop fails only on its last argument: an option that takes a
      value with nothing after it. */
  lemma {:induction false} TokensFailOnlyAtEnd(args: seq<string>)
    ensures Tokens(args).Err? ==>
              args != [] && TakesValue(args[|args| - 1]) && Tokens(args).error == MissingValue(args[|args| - 1])
    decreases |args|
  {
    if |args| == 1 {
      assert args[|args| - 1] == args[0];
      if !TakesValue(args[0]) {
        assert args[1..] == [] && Tokens(args[1..]) == Ok([]);
      }
    } else if |args| >= 2 {
      var rest := if TakesValue(args[0]) then args[2..] else args[1..];
      TokensFailOnlyAtEnd(rest);
      assert Tokens(args).Err? ==> Tokens(rest).Err? && Tokens(args).error == Tokens(rest).error;
      if rest != [] {
        assert rest[|rest| - 1] == args[|args| - 1];
      }
    }
  }
}
