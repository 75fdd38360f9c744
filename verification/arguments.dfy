/** Command-line parsing (`Fifteen.parseArgs`). The static fields the parser
    writes become an immutable `Config`; the scan is a fold over the tokens
    that ends normally, on `-h` (help is printed and the process exits), or on
    an exception, carrying the configuration as it stood at that moment. */
module Arguments {
  import opened Wrappers
  import opened JavaInt

  /** The launcher's static settings: `isShowStatistic`, `isReadInStream`,
      `sideSize` and `stepCount`. */
  datatype Config = Config(showStatistic: bool, readInStream: bool, sideSize: int, stepCount: int)

  /** The initial values of the static fields. */
  const Defaults: Config := Config(false, true, 4, 10)

  /** How a scan ends. `MissingValue` is only reachable in `ScanIntended`. */
  datatype Stop =
    | Completed
    | Help
    | UnknownArgument(token: string)
    | NumberFormat(error: NumberFormatException)
    | MissingValue(option: string)

  datatype Parsed = Parsed(config: Config, stop: Stop)

  /** The option names the parser recognises. */
  predicate IsOption(token: string) {
    token == "-h" || token == "-v" || token == "-s" || token == "-c"
  }

  /** `parseArgs(args)`, a null array being `None`. */
  function ParseArgs(config: Config, args: Option<seq<string>>): (r: Parsed)
    ensures (args.None? || args == Some([])) ==> r == Parsed(config, Completed)
  {
    if args.None? || |args.value| == 0 then Parsed(config, Completed)
    else Scan(config, args.value, 0)
  }

  /** What one token does to the scan: it goes on with new settings (also
      skipping the following token when `skipNext`), or it halts. */
  datatype Step = Continue(config: Config, skipNext: bool) | Halt(result: Parsed)

  /** One iteration of the loop in `parseArgs`, as the Java code is written:
      `-s` and `-c` hand the option token itself to `Integer.parseInt`, and
      would skip the next token if that ever succeeded. */
  function StepToken(config: Config, token: string): Step {
    if token == "-h" then Halt(Parsed(config, Help))
    else if token == "-v" then Continue(config.(showStatistic := true), false)
    else if token == "-s" then
      var config' := config.(readInStream := false);
      match ParseInt(token)
      case Failure(e) => Halt(Parsed(config', NumberFormat(e)))
      case Success(n) => Continue(config'.(sideSize := n), true)
    else if token == "-c" then
      var config' := config.(readInStream := false);
      match ParseInt(token)
      case Failure(e) => Halt(Parsed(config', NumberFormat(e)))
      case Success(n) => Continue(config'.(stepCount := n), true)
    else Halt(Parsed(config, UnknownArgument(token)))
  }

  /** The scan from token `i` on. */
  function Scan(config: Config, args: seq<string>, i: nat): Parsed
    decreases |args| - i
  {
    if i >= |args| then Parsed(config, Completed)
    else match StepToken(config, args[i])
      case Halt(result) => result
      case Continue(config', skipNext) => Scan(config', args, if skipNext then i + 2 else i + 1)
  }

  /** Index of the first token from `i` on that is not `-v`, or `|args|`. */
  function FirstNotVerbose(args: seq<string>, i: nat): (k: nat)
    requires i <= |args|
    ensures i <= k <= |args|
    ensures forall m :: i <= m < k ==> args[m] == "-v"
    ensures k < |args| ==> args[k] != "-v"
    decreases |args| - i
  {
    if i == |args| || args[i] != "-v" then i else FirstNotVerbose(args, i + 1)
  }

  /** Reference outcome of a scan from token `i`: every leading `-v` switches
      statistics on, and the first other token decides how the scan ends. */
  function Expected(config: Config, args: seq<string>, i: nat): Parsed
    requires i <= |args|
  {
    var k := FirstNotVerbose(args, i);
    var c := if k > i then config.(showStatistic := true) else config;
    if k == |args| then Parsed(c, Completed)
    else
      var token := args[k];
      if token == "-h" then Parsed(c, Help)
      else if token == "-s" || token == "-c" then
        Parsed(c.(readInStream := false), NumberFormat(NumberFormatException(token)))
      else Parsed(c, UnknownArgument(token))
  }

  lemma {:induction false} ScanMatchesExpected(config: Config, args: seq<string>, i: nat)
    requires i <= |args|
    ensures Scan(config, args, i) == Expected(config, args, i)
    decreases |args| - i
  {
    ParseIntRejectsOption("-s");
    ParseIntRejectsOption("-c");
    if i < |args| && args[i] == "-v" {
      ScanMatchesExpected(config.(showStatistic := true), args, i + 1);
      ExpectedAfterVerbose(config, args, i);
    }
  }

  /** A leading `-v` is absorbed by the reference outcome. */
  lemma ExpectedAfterVerbose(config: Config, args: seq<string>, i: nat)
    requires i < |args| && args[i] == "-v"
    ensures Expected(config, args, i) == Expected(config.(showStatistic := true), args, i + 1)
  {
    assert FirstNotVerbose(args, i) == FirstNotVerbose(args, i + 1);
  }

  /** What `parseArgs` does to any argument array: the statistics flag is set
      by leading `-v` tokens, the first other token ends the scan, and
      `sideSize` and `stepCount` are never changed. */
  lemma ParseArgsOutcome(config: Config, args: seq<string>)
    ensures ParseArgs(config, Some(args)) == Expected(config, args, 0)
    ensures ParseArgs(config, Some(args)).config.sideSize == config.sideSize
    ensures ParseArgs(config, Some(args)).config.stepCount == config.stepCount
  {
    ScanMatchesExpected(config, args, 0);
  }

  /** The scan completes normally exactly when every token is `-v`. */
  lemma ParseArgsCompletes(config: Config, args: seq<string>)
    ensures ParseArgs(config, Some(args)).stop == Completed <==> forall m :: 0 <= m < |args| ==> args[m] == "-v"
  {
    ParseArgsOutcome(config, args);
  }

  /** `-v` sets the statistics flag, changes nothing else, and the scan goes on
      with the tokens after it. */
  lemma VerboseContinues(config: Config, rest: seq<string>)
    ensures ParseArgs(config, Some(["-v"] + rest)) == ParseArgs(config.(showStatistic := true), Some(rest))
  {
    var args := ["-v"] + rest;
    ParseArgsOutcome(config, args);
    ParseArgsOutcome(config.(showStatistic := true), rest);
    FirstNotVerboseShift(args, rest, 0);
    assert args[1..] == rest;
  }

  /** Dropping a leading token shifts the first non-`-v` index by one. */
  lemma {:induction false} FirstNotVerboseShift(args: seq<string>, rest: seq<string>, i: nat)
    requires |args| > 0 && args[1..] == rest && i <= |rest|
    ensures FirstNotVerbose(args, i + 1) == FirstNotVerbose(rest, i) + 1
    decreases |rest| - i
  {
    assert forall m :: 0 <= m < |rest| ==> args[m + 1] == rest[m];
    if i < |rest| && rest[i] == "-v" {
      FirstNotVerboseShift(args, rest, i + 1);
    }
  }

  /** A token that is not an option aborts the scan with an error naming it,
      after the effects of the tokens before it. */
  lemma UnknownArgumentAborts(config: Config, args: seq<string>, k: nat)
    requires k < |args| && !IsOption(args[k])
    requires forall m :: 0 <= m < k ==> args[m] == "-v"
    ensures ParseArgs(config, Some(args))
         == Parsed(config.(showStatistic := config.showStatistic || k > 0), UnknownArgument(args[k]))
  {
    ParseArgsOutcome(config, args);
    assert FirstNotVerbose(args, 0) == k by {
      FirstNotVerboseIs(args, 0, k);
    }
  }

  /** `-s` and `-c` clear the stream flag and then fail to parse the option
      name itself, ending the scan with a number-format error. */
  lemma NumericOptionFails(config: Config, args: seq<string>, k: nat)
    requires k < |args| && (args[k] == "-s" || args[k] == "-c")
    requires forall m :: 0 <= m < k ==> args[m] == "-v"
    ensures ParseArgs(config, Some(args))
         == Parsed(config.(showStatistic := config.showStatistic || k > 0, readInStream := false),
                   NumberFormat(NumberFormatException(args[k])))
  {
    ParseArgsOutcome(config, args);
    assert FirstNotVerbose(args, 0) == k by {
      FirstNotVerboseIs(args, 0, k);
    }
  }

  /** `FirstNotVerbose` finds the first token that is not `-v`. */
  lemma FirstNotVerboseIs(args: seq<string>, i: nat, k: nat)
    requires i <= k < |args| && args[k] != "-v"
    requires forall m :: i <= m < k ==> args[m] == "-v"
    ensures FirstNotVerbose(args, i) == k
  {
  }

  /** `-h` stops the scan (help is shown and the process exits). */
  lemma HelpStops(config: Config, args: seq<string>, i: nat)
    requires i < |args| && args[i] == "-h"
    ensures Scan(config, args, i) == Parsed(config, Help)
  {
  }

  /** The scan as evidently intended: `-s` and `-c` read their value from the
      token after the option and skip it. With no token after the option
      `parseArgs` would index past the array; that ends the scan as `MissingValue`. */
  function ScanIntended(config: Config, args: seq<string>, i: nat): Parsed
    decreases |args| - i
  {
    if i >= |args| then Parsed(config, Completed)
    else
      var token := args[i];
      if token == "-h" then Parsed(config, Help)
      else if token == "-v" then ScanIntended(config.(showStatistic := true), args, i + 1)
      else if token == "-s" || token == "-c" then
        var config' := config.(readInStream := false);
        if i + 1 == |args| then Parsed(config', MissingValue(token))
        else match ParseInt(args[i + 1])
          case Failure(e) => Parsed(config', NumberFormat(e))
          case Success(n) =>
            var config'' := if token == "-s" then config'.(sideSize := n) else config'.(stepCount := n);
            ScanIntended(config'', args, i + 2)
      else Parsed(config, UnknownArgument(token))
  }

  /** As written, `-s 3` does not set the side length: the scan stops with a
      number-format error on the option name `-s`. */
  lemma SideOptionRejectsValue()
    ensures ParseArgs(Defaults, Some(["-s", "3"]))
         == Parsed(Defaults.(readInStream := false), NumberFormat(NumberFormatException("-s")))
    ensures ParseArgs(Defaults, Some(["-c", "3"]))
         == Parsed(Defaults.(readInStream := false), NumberFormat(NumberFormatException("-c")))
  {
    ParseIntRejectsOption("-s");
    ParseIntRejectsOption("-c");
  }

  /** In the intended scan, `-s t` and `-c t` where `Integer.parseInt`
      accepts `t` with value `n` (a sign, leading zeros and `Integer.MIN_VALUE`
      all allowed) clear the stream flag, store `n` in the side length or the
      step count, and the scan goes on after the value. Every `int` spelt as
      `Integer.toString` spells it is such a `t`. */
  lemma ScanIntendedReadsValue(config: Config, args: seq<string>, i: nat, n: int)
    requires i + 1 < |args| && (args[i] == "-s" || args[i] == "-c")
    requires ParseInt(args[i + 1]) == Success(n)
    ensures IsInt(n)
    ensures args[i] == "-s" ==>
      ScanIntended(config, args, i) == ScanIntended(config.(readInStream := false, sideSize := n), args, i + 2)
    ensures args[i] == "-c" ==>
      ScanIntended(config, args, i) == ScanIntended(config.(readInStream := false, stepCount := n), args, i + 2)
  {
  }

  /** In the intended scan, `-s` and `-c` followed by any `int` in its
      `Integer.toString` spelling store that value. */
  lemma ScanIntendedReadsSpelling(config: Config, args: seq<string>, i: nat, n: int)
    requires i + 1 < |args| && (args[i] == "-s" || args[i] == "-c")
    requires IsInt(n) && args[i + 1] == DecimalSpelling(n)
    ensures args[i] == "-s" ==>
      ScanIntended(config, args, i) == ScanIntended(config.(readInStream := false, sideSize := n), args, i + 2)
    ensures args[i] == "-c" ==>
      ScanIntended(config, args, i) == ScanIntended(config.(readInStream := false, stepCount := n), args, i + 2)
  {
    ParseIntDecimal(n);
    ScanIntendedReadsValue(config, args, i, n);
  }
}
