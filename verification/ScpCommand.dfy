/** The canonical form of a legacy SCP server command. */
module ScpCommand {
  import opened Wrappers
  import opened ShellWords

  datatype ScpError =
    | InvalidCommand | NotScp | InvalidOption | FlagNotAllowed(flag: char) | MultipleModes | NoModeOrPath

  predicate HasLineBreak(raw: string) { '\0' in raw || '\r' in raw || '\n' in raw }

  predicate IsMode(flag: char) { flag == 'f' || flag == 't' }

  /** One option's letters; the result says whether a transfer mode has been seen. */
  function ScanFlags(flags: string, mode: bool): (r: Result<bool, ScpError>) {
    if flags == "" then Ok(mode)
    else if flags[0] !in "ftrpd" then Err(FlagNotAllowed(flags[0]))
    else if IsMode(flags[0]) && mode then Err(MultipleModes)
    else ScanFlags(flags[1..], mode || IsMode(flags[0]))
  }

  function ScanOptions(options: seq<string>, mode: bool): (r: Result<bool, ScpError>) {
    if options == [] then Ok(mode)
    else
      var arg := options[0];
      if arg == "" || arg[0] != '-' || |arg| < 2 then Err(InvalidOption)
      else
        var r := ScanFlags(arg[1..], mode);
        if r.Err? then r else ScanOptions(options[1..], r.value)
  }

  /** The argument list that is accepted. */
  function Validated(raw: string): (r: Result<seq<string>, ScpError>) {
    if HasLineBreak(raw) then Err(InvalidCommand)
    else match Words(raw)
      case Err(_) => Err(NotScp)
      case Ok(args) =>
        if |args| < 3 || args[0] != "scp" then Err(NotScp)
        else match ScanOptions(args[1..|args| - 1], false)
          case Err(e) => Err(e)
          case Ok(mode) => if !mode || args[|args| - 1] == "" then Err(NoModeOrPath) else Ok(args)
  }

  function Canonical(raw: string): (r: Result<string, ScpError>) {
    match Validated(raw)
    case Err(e) => Err(e)
    case Ok(args) => Ok(Join(args))
  }

  method ScanFlagLoop(flags: string, seen: bool) returns (r: Result<bool, ScpError>)
    ensures r == ScanFlags(flags, seen)
  {
    var mode := seen;
    for i := 0 to |flags|
      invariant ScanFlags(flags, seen) == ScanFlags(flags[i..], mode)
    {
      assert flags[i..][1..] == flags[i + 1..];
      if flags[i] !in "ftrpd" {
        return Err(FlagNotAllowed(flags[i]));
      }
      if IsMode(flags[i]) {
        if mode {
          return Err(MultipleModes);
        }
        mode := true;
      }
    }
    r := Ok(mode);
  }

  method ScanOptionLoop(options: seq<string>) returns (r: Result<bool, ScpError>)
    ensures r == ScanOptions(options, false)
  {
    var mode := false;
    for i := 0 to |options|
      invariant ScanOptions(options, false) == ScanOptions(options[i..], mode)
    {
      assert options[i..][1..] == options[i + 1..];
      var arg := options[i];
      if arg == "" || arg[0] != '-' || |arg| < 2 {
        return Err(InvalidOption);
      }
      var flags := ScanFlagLoop(arg[1..], mode);
      if flags.Err? {
        return flags;
      }
      mode := flags.value;
    }
    r := Ok(mode);
  }

  lemma JoinFrom(args: seq<string>, k: nat)
    requires k < |args|
    ensures Join(args[k..]) == if k + 1 == |args| then Quote(args[k]) else Quote(args[k]) + " " + Join(args[k + 1..])
  {
    hide Quote;
    assert args[k..][1..] == args[k + 1..];
  }

  method QuoteAndJoin(args: seq<string>) returns (joined: string)
    requires args != []
    ensures joined == Join(args)
  {
    hide Join, Quote;
    var quoted := new string[|args|];
    for i := 0 to |args|
      invariant forall j :: 0 <= j < i ==> quoted[j] == Quote(args[j])
    {
      quoted[i] := Quote(args[i]);
    }
    JoinFrom(args, |args| - 1);
    joined := quoted[|args| - 1];
    for k := |args| - 1 downto 0
      invariant joined == Join(args[k..]) && forall j :: 0 <= j < |args| ==> quoted[j] == Quote(args[j])
    {
      JoinFrom(args, k);
      joined := quoted[k] + " " + joined;
    }
    assert args[0..] == args;
  }

  method SafeSCPCommand(raw: string) returns (r: Result<string, ScpError>)
    ensures r == Canonical(raw)
  {
    if HasLineBreak(raw) {
      return Err(InvalidCommand);
    }
    var split := Words(raw);
    if split.Err? || |split.value| < 3 || split.value[0] != "scp" {
      return Err(NotScp);
    }
    var args := split.value;
    var mode := ScanOptionLoop(args[1..|args| - 1]);
    if mode.Err? {
      return Err(mode.error);
    }
    if !mode.value || args[|args| - 1] == "" {
      return Err(NoModeOrPath);
    }
    var joined := QuoteAndJoin(args);
    r := Ok(joined);
  }

  // ---------- what is accepted ----------

  predicate AllowedFlags(flags: string) {
    forall i :: 0 <= i < |flags| ==> flags[i] in "ftrpd"
  }

  predicate AllowedOption(arg: string) {
    |arg| >= 2 && arg[0] == '-' && AllowedFlags(arg[1..])
  }

  function CountModes(flags: string): (r: nat) {
    if flags == "" then 0 else (if IsMode(flags[0]) then 1 else 0) + CountModes(flags[1..])
  }

  function CountAllModes(options: seq<string>): (r: nat) {
    if options == [] then 0
    else (if options[0] == "" then 0 else CountModes(options[0][1..])) + CountAllModes(options[1..])
  }

  lemma {:induction false} ScanFlagsExactly(flags: string, mode: bool)
    ensures ScanFlags(flags, mode).Ok? <==> AllowedFlags(flags) && CountModes(flags) + (if mode then 1 else 0) <= 1
    ensures ScanFlags(flags, mode).Ok? ==>
      (ScanFlags(flags, mode).value <==> CountModes(flags) + (if mode then 1 else 0) == 1)
  {
    if flags == "" {
    } else {
      assert AllowedFlags(flags) <==> flags[0] in "ftrpd" && AllowedFlags(flags[1..]) by {
        assert forall i :: 1 <= i < |flags| ==> flags[i] == flags[1..][i - 1];
      }
      ScanFlagsExactly(flags[1..], mode || IsMode(flags[0]));
      ScanFlagsExactly(flags[1..], mode);
    }
  }

  lemma {:induction false} ScanOptionsExactly(options: seq<string>, mode: bool)
    ensures ScanOptions(options, mode) == Ok(true)
      <==> ((forall i :: 0 <= i < |options| ==> AllowedOption(options[i]))
            && CountAllModes(options) + (if mode then 1 else 0) == 1)
  {
    if options == [] {
    } else {
      var arg := options[0];
      if |arg| >= 2 && arg[0] == '-' {
        ScanFlagsExactly(arg[1..], mode);
        var r := ScanFlags(arg[1..], mode);
        if r.Ok? { ScanOptionsExactly(options[1..], r.value); }
      }
      assert (forall i :: 0 <= i < |options| ==> AllowedOption(options[i]))
        <==> AllowedOption(options[0]) && (forall i :: 0 <= i < |options[1..]| ==> AllowedOption(options[1..][i])) by {
        assert forall i :: 1 <= i < |options| ==> options[i] == options[1..][i - 1];
      }
    }
  }

  /** Exactly these commands are accepted: scp, options of the letters f, t, r, p and d with one
      f or t among all of them, and a path. */
  lemma AcceptedExactly(raw: string)
    ensures Canonical(raw).Ok? <==>
      !HasLineBreak(raw) && Words(raw).Ok? && var args := Words(raw).value;
        |args| >= 3 && args[0] == "scp" && args[|args| - 1] != ""
        && (forall i :: 1 <= i < |args| - 1 ==> AllowedOption(args[i]))
        && CountAllModes(args[1..|args| - 1]) == 1
  {
    if Words(raw).Ok? && |Words(raw).value| >= 3 {
      var args := Words(raw).value;
      var options := args[1..|args| - 1];
      ScanOptionsExactly(options, false);
      assert forall i :: 1 <= i < |args| - 1 ==> args[i] == options[i - 1];
      assert forall i :: 0 <= i < |options| ==> options[i] == args[i + 1];
    }
  }

  // ---------- what is forwarded ----------

  /** The downstream shell reads back exactly the validated arguments. */
  lemma ForwardsValidated(raw: string)
    requires Canonical(raw).Ok?
    ensures Words(Canonical(raw).value) == Ok(Validated(raw).value) && Validated(raw).value == Words(raw).value
  {
    JoinReads(Validated(raw).value);
  }

  lemma NoLineBreakComesOut(raw: string)
    requires Canonical(raw).Ok?
    ensures !HasLineBreak(Canonical(raw).value)
  {
    var alphabet := (set c | c in raw) + {' ', '\'', '"'};
    WordsOver(raw, alphabet);
    JoinOver(Words(raw).value, alphabet);
    assert '\0' !in alphabet && '\r' !in alphabet && '\n' !in alphabet;
  }

  /** A forwarded command is accepted again, unchanged. */
  lemma Fixpoint(raw: string)
    requires Canonical(raw).Ok?
    ensures Canonical(Canonical(raw).value) == Canonical(raw)
  {
    NoLineBreakComesOut(raw);
    ForwardsValidated(raw);
  }
}
