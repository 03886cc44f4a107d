/**
 * The command router and the five command kinds. Every configured command
 * whose precondition matches its chosen text (raw or preprocessed) is run,
 * in declaration order; running a command hands one unit of work to a
 * transport, and the reply of a round-trip transport either reports an
 * error or names an action to perform.
 */
module Command {
  import opened Wrappers
  import opened Strings
  import opened Regex
  import opened CommandApi
  import opened CaslAction
  import opened Executor
  import opened Config
  import opened Speech

  /** The command objects built from the configuration. */
  datatype Command =
    | SocketCommand(srcAddr: string, dstAddr: string, srcPort: nat, dstPort: nat)
    | StdIOCommand(command: string)
    | ShellCommand(command: string, shell: string, precondition: string)
    | RedirectCommand(inner: Command, path: string)
    | AutoActionCommand(action: CommandAction)

  /** The local address a `Net` command binds when it names none. */
  const DefaultSrcAddr: string := "localhost"

  /** `SocketCommand::new`; any other variant panics in the source. */
  function NewSocketCommand(conf: CommandConfig): (c: Command)
    requires conf.Net?
    ensures c.SocketCommand?
    ensures c.srcPort == conf.srcPort && c.dstPort == conf.dstPort && c.dstAddr == conf.dstAddr
    ensures c.srcAddr == if conf.srcAddr.Some? then conf.srcAddr.value else DefaultSrcAddr
  {
    SocketCommand(conf.srcAddr.GetOr(DefaultSrcAddr), conf.dstAddr, conf.srcPort, conf.dstPort)
  }

  /** `StdIOCommand::new`; any other variant panics in the source. */
  function NewStdIOCommand(conf: CommandConfig): (c: Command)
    requires conf.StdIO?
    ensures c == StdIOCommand(conf.command)
  {
    StdIOCommand(conf.command)
  }

  /** `ShellCommand::new`: its precondition is compiled case-insensitively; any other variant panics. */
  function NewShellCommand(conf: CommandConfig): (c: Command)
    requires conf.Shell?
    ensures c == ShellCommand(conf.command, conf.shell, conf.precondition)
  {
    ShellCommand(conf.command, conf.shell, conf.precondition)
  }

  /** `RedirectCommand::new`: the command built from the loaded specification; any other variant panics. */
  function NewRedirectCommand(conf: CommandConfig): (c: Command)
    requires conf.Redirect?
    ensures c.RedirectCommand? && c.path == conf.path
    ensures c.inner == CommandOf(conf.target)
    decreases conf, 0
  {
    RedirectCommand(CommandOf(conf.target), conf.path)
  }

  /** `AutoActionCommand::new`; any other variant panics in the source. */
  function NewAutoActionCommand(conf: CommandConfig): (c: Command)
    requires conf.Action?
    ensures c == AutoActionCommand(conf.action)
  {
    AutoActionCommand(conf.action)
  }

  /** `CommandConfig::command()`: each variant is given to the constructor that accepts it. */
  function CommandOf(conf: CommandConfig): Command
    decreases conf, 1
  {
    match conf
    case Net(_, _, _, _, _, _) => NewSocketCommand(conf)
    case StdIO(_, _, _) => NewStdIOCommand(conf)
    case Shell(_, _, _, _) => NewShellCommand(conf)
    case Redirect(_, _, _, _) => NewRedirectCommand(conf)
    case Action(_, _, _) => NewAutoActionCommand(conf)
  }

  /** `CommandConfig::is_match`: the precondition, ignoring case. */
  predicate Matches(conf: CommandConfig, text: string) {
    IsMatchIgnoreCase(conf.precondition, text)
  }

  /** The text a command is matched against and run with: raw or preprocessed. */
  function InputFor(conf: CommandConfig, meta: MetadataResult): string {
    if conf.useRawText then meta.phraseRaw else meta.phrase
  }

  /** The unit of work that running a command hands off. */
  datatype Job =
    | DatagramRoundTrip(srcAddr: string, srcPort: nat, dstAddr: string, dstPort: nat, payload: Payload)
    | PipeRoundTrip(command: string, payload: Payload)
    | SpawnShell(request: SpawnRequest)
    | RunAction(action: CommandAction)

  /**
   * `ShellCommand::run` unwraps the captures of its precondition on the
   * input; a redirect runs what it loaded.
   */
  predicate CanRun(cmd: Command, input: string) {
    match cmd
    case ShellCommand(_, _, pre) => IsMatchIgnoreCase(pre, input)
    case RedirectCommand(inner, _) => CanRun(inner, input)
    case _ => true
  }

  /**
   * `ICommand::run`: the round-trip transports carry the input unchanged as
   * their payload, a shell command spawns its shell with `-c` and nulled
   * standard streams, a redirect runs its inner command on the same input,
   * and an action command hands off its stored action.
   */
  function Run(cmd: Command, input: string): (j: Job)
    requires CanRun(cmd, input)
    ensures cmd.SocketCommand? ==>
      j == DatagramRoundTrip(cmd.srcAddr, cmd.srcPort, cmd.dstAddr, cmd.dstPort, Payload(input))
    ensures cmd.StdIOCommand? ==> j == PipeRoundTrip(cmd.command, Payload(input))
    ensures cmd.ShellCommand? ==>
      && j.SpawnShell? && j.request.program == cmd.shell && |j.request.args| == 2 && j.request.args[0] == "-c"
      && j.request.stdin == Null && j.request.stdout == Null && j.request.stderr == Null
    ensures cmd.RedirectCommand? ==> j == Run(cmd.inner, input)
    ensures cmd.AutoActionCommand? ==> j == RunAction(cmd.action)
  {
    match cmd
    case SocketCommand(src, dst, srcPort, dstPort) => DatagramRoundTrip(src, srcPort, dst, dstPort, Payload(input))
    case StdIOCommand(command) => PipeRoundTrip(command, Payload(input))
    case ShellCommand(template, shell, pre) =>
      SpawnShell(SpawnRequest(shell, ["-c", Expand(template, MatchedText(pre, input))], Null, Null, Null))
    case RedirectCommand(inner, _) => Run(inner, input)
    case AutoActionCommand(action) => RunAction(action)
  }

  /** The round-trip transports send the matched text as the payload, unchanged. */
  lemma RoundTripSendsInput(conf: CommandConfig, input: string)
    requires conf.Net? || conf.StdIO?
    ensures conf.Net? ==>
      Run(CommandOf(conf), input) == DatagramRoundTrip(conf.srcAddr.GetOr("localhost"), conf.srcPort, conf.dstAddr, conf.dstPort, Payload(input))
    ensures conf.StdIO? ==>
      Run(CommandOf(conf), input) == PipeRoundTrip(conf.command, Payload(input))
  {
  }

  /** A redirect forwards its input, unchanged, to the command it loaded. */
  lemma RedirectForwards(conf: CommandConfig, input: string)
    requires conf.Redirect? && CanRun(CommandOf(conf.target), input)
    ensures CanRun(CommandOf(conf), input)
    ensures Run(CommandOf(conf), input) == Run(CommandOf(conf.target), input)
  {
  }

  /** An action command ignores its input and performs its stored action. */
  lemma AutoActionIgnoresInput(conf: CommandConfig, input1: string, input2: string)
    requires conf.Action?
    ensures Run(CommandOf(conf), input1) == Run(CommandOf(conf), input2) == RunAction(conf.action)
  {
  }

  /**
   * The router discharges `ShellCommand::run`'s unwrap: a shell command is
   * only run on a text its precondition matches, and the spawned command
   * line is the template expanded with the matched part of that text.
   */
  lemma {:induction false} ShellRunsOnMatch(conf: CommandConfig, text: string)
    requires conf.Shell? && Matches(conf, text)
    ensures CanRun(CommandOf(conf), text)
    ensures var j := Run(CommandOf(conf), text);
      && j.SpawnShell? && j.request.program == conf.shell
      && j.request.args == ["-c", Expand(conf.command, MatchedText(conf.precondition, text))]
      && Lower(MatchedText(conf.precondition, text)) == Lower(conf.precondition)
    ensures exists i: nat :: OccursAt(MatchedText(conf.precondition, text), text, i)
  {
    var m := MatchedText(conf.precondition, text);
    var i: nat :| i + |conf.precondition| <= |text| && m == text[i..i + |conf.precondition|];
    assert OccursAt(m, text, i);
  }

  /** A shell command "echo $0" with precondition "lights" run on "LIGHTS on" spawns `sh -c "echo LIGHTS"`. */
  lemma ShellTemplateExample()
    ensures Matches(CommandConfig.Shell("lights", false, "sh", "echo $0"), "LIGHTS on")
    ensures Run(CommandOf(CommandConfig.Shell("lights", false, "sh", "echo $0")), "LIGHTS on")
         == SpawnShell(SpawnRequest("sh", ["-c", "echo LIGHTS"], Null, Null, Null))
  {
    LightsMatch();
    EchoExpands();
    var conf := CommandConfig.Shell("lights", false, "sh", "echo $0");
    ShellRunsOnMatch(conf, "LIGHTS on");
  }

  lemma EchoExpands()
    ensures Expand("echo $0", "LIGHTS") == "echo LIGHTS"
  {
    var prefix, whole := "echo ", "LIGHTS";
    assert '$' !in prefix by {
      assert prefix == ['e', 'c', 'h', 'o', ' '];
    }
    ExpandLiteralPrefix(prefix, "$0", whole);
    ExpandGroupZero(whole);
    assert prefix + "$0" == "echo $0";
    assert prefix + whole == "echo LIGHTS";
  }

  lemma LightsMatch()
    ensures IsMatchIgnoreCase("lights", "LIGHTS on")
    ensures MatchedText("lights", "LIGHTS on") == "LIGHTS"
  {
    assert Lower("lights") == "lights";
    assert Lower("LIGHTS on")[..6] == "lights";
    assert FindIgnoreCase("lights", "LIGHTS on") == Some(0);
  }

  /** What a round-trip thread does with the reply. */
  datatype ResponseOutcome = Aborted(error: string) | Performed(effect: Effect)

  /** The reply handling of `SocketCommand::thread` and `StdIOCommand::thread`. */
  function HandleResponse(resp: Response): (o: ResponseOutcome)
    ensures o.Aborted? <==> resp.error.Some?
    ensures o.Performed? ==> o.effect == Perform(resp.action)
  {
    match resp.error
    case Some(err) => Aborted(err)
    case None => Performed(Perform(resp.action))
  }

  /** An error short-circuits: nothing is performed; only an error-free reply performs its action. */
  lemma ErrorShortCircuits(resp: Response)
    ensures HandleResponse(resp).Aborted? <==> resp.error.Some?
    ensures resp.error.Some? ==> HandleResponse(resp) == Aborted(resp.error.value)
    ensures resp.error.None? ==> HandleResponse(resp) == Performed(Perform(resp.action))
  {
  }

  /**
   * The two protocol examples: an error reply with a `Custom` action is
   * aborted; an error-free reply naming the debug builtin prints a banner
   * whose middle line is the parameter.
   */
  lemma ResponseExamples()
    ensures HandleResponse(Response(Some("boom"), Custom)) == Aborted("boom")
    ensures var o := HandleResponse(Response(None, CASL("debug", ["x"])));
      && o.Performed? && o.effect.PrintLine?
      && Split(o.effect.line, '\n') == ["\\/ CASL DEBUG MESSAGE \\/", "x", "/\\CASL DEBUG MESSAGE/\\"]
  {
    var debug := CASL("debug", ["x"]);
    assert GetFuncByName(debug.operation) == Some(PrintDebug) by {
      assert Lower("debug") == "debug";
    }
    PerformByVariant(debug);
    assert HandleResponse(Response(None, debug)) == Performed(PrintLine(Output(PrintDebug, ["x"])));
    DebugBannerShowsParameter();
  }

  /** One dispatch: the position of the command in the configuration and the text it was run with. */
  datatype Dispatch = Dispatch(index: nat, text: string)

  /** The dispatches for a phrase: every matching command, in declaration order. */
  function Dispatches(meta: MetadataResult, cmds: seq<CommandConfig>): seq<Dispatch> {
    if cmds == [] then []
    else
      var i := |cmds| - 1;
      var text := InputFor(cmds[i], meta);
      Dispatches(meta, cmds[..i]) + (if Matches(cmds[i], text) then [Dispatch(i, text)] else [])
  }

  /** Every entry of `log` is a command of `cmds` run with its chosen text, which its precondition matches. */
  predicate LogSound(meta: MetadataResult, cmds: seq<CommandConfig>, log: seq<Dispatch>) {
    forall k :: 0 <= k < |log| ==>
      && log[k].index < |cmds|
      && log[k].text == InputFor(cmds[log[k].index], meta)
      && Matches(cmds[log[k].index], log[k].text)
  }

  /** The entries of `log` follow declaration order, each command at most once. */
  predicate InDeclarationOrder(log: seq<Dispatch>) {
    forall k, l :: 0 <= k < l < |log| ==> log[k].index < log[l].index
  }

  /** Every command whose precondition matches its chosen text has an entry in `log`. */
  predicate LogComplete(meta: MetadataResult, cmds: seq<CommandConfig>, log: seq<Dispatch>) {
    forall i :: 0 <= i < |cmds| && Matches(cmds[i], InputFor(cmds[i], meta)) ==>
      exists k :: 0 <= k < |log| && log[k].index == i
  }

  /**
   * Fan-out, not first match: the log holds exactly the commands whose
   * precondition matches their chosen text, in declaration order, each run
   * with that text.
   */
  lemma DispatchesFanOut(meta: MetadataResult, cmds: seq<CommandConfig>)
    ensures LogSound(meta, cmds, Dispatches(meta, cmds))
    ensures InDeclarationOrder(Dispatches(meta, cmds))
    ensures LogComplete(meta, cmds, Dispatches(meta, cmds))
  {
    DispatchesSound(meta, cmds);
    DispatchesOrdered(meta, cmds);
    DispatchesComplete(meta, cmds);
  }

  /** Every dispatch is a command of the configuration, run with its chosen text, which its precondition matches. */
  lemma {:induction false} DispatchesSound(meta: MetadataResult, cmds: seq<CommandConfig>)
    ensures LogSound(meta, cmds, Dispatches(meta, cmds))
  {
    if cmds != [] {
      var i := |cmds| - 1;
      var init := cmds[..i];
      DispatchesSound(meta, init);
      var prev := Dispatches(meta, init);
      var log := Dispatches(meta, cmds);
      assert log == prev + (if Matches(cmds[i], InputFor(cmds[i], meta)) then [Dispatch(i, InputFor(cmds[i], meta))] else []);
      forall k | 0 <= k < |prev| ensures log[k] == prev[k] && cmds[prev[k].index] == init[prev[k].index] {
      }
    }
  }

  /** The dispatches follow declaration order, each command at most once. */
  lemma {:induction false} DispatchesOrdered(meta: MetadataResult, cmds: seq<CommandConfig>)
    ensures InDeclarationOrder(Dispatches(meta, cmds))
  {
    if cmds != [] {
      var i := |cmds| - 1;
      var init := cmds[..i];
      DispatchesOrdered(meta, init);
      DispatchesSound(meta, init);
      var prev := Dispatches(meta, init);
      var log := Dispatches(meta, cmds);
      assert log == prev + (if Matches(cmds[i], InputFor(cmds[i], meta)) then [Dispatch(i, InputFor(cmds[i], meta))] else []);
      forall k | 0 <= k < |prev| ensures log[k] == prev[k] && prev[k].index < i {
      }
    }
  }

  /** Every command whose precondition matches its chosen text is dispatched. */
  lemma {:induction false} DispatchesComplete(meta: MetadataResult, cmds: seq<CommandConfig>)
    ensures LogComplete(meta, cmds, Dispatches(meta, cmds))
  {
    if cmds != [] {
      var i := |cmds| - 1;
      var init := cmds[..i];
      DispatchesComplete(meta, init);
      var prev := Dispatches(meta, init);
      var log := Dispatches(meta, cmds);
      assert log == prev + (if Matches(cmds[i], InputFor(cmds[i], meta)) then [Dispatch(i, InputFor(cmds[i], meta))] else []);
      forall j | 0 <= j < |cmds| && Matches(cmds[j], InputFor(cmds[j], meta))
        ensures exists k :: 0 <= k < |log| && log[k].index == j
      {
        if j < i {
          assert init[j] == cmds[j];
          var k :| 0 <= k < |prev| && prev[k].index == j;
          assert log[k] == prev[k];
        } else {
          assert log[|log| - 1].index == j;
        }
      }
    }
  }

  /**
   * `process_commands`: for each command in order, choose the raw or the
   * preprocessed phrase, and run the command on it when its precondition
   * matches; running appends to the dispatch log.
   */
  method ProcessCommands(meta: MetadataResult, config: Config) returns (log: seq<Dispatch>)
    ensures log == Dispatches(meta, config.commands)
  {
    log := [];
    for i := 0 to |config.commands|
      invariant log == Dispatches(meta, config.commands[..i])
    {
      var cmd := config.commands[i];
      DispatchesStep(meta, config.commands, i);
      if cmd.useRawText {
        if Matches(cmd, meta.phraseRaw) {
          log := log + [Dispatch(i, meta.phraseRaw)];
        }
      } else {
        if Matches(cmd, meta.phrase) {
          log := log + [Dispatch(i, meta.phrase)];
        }
      }
    }
    assert config.commands[..|config.commands|] == config.commands;
  }

  /** The dispatches of the first `i + 1` commands extend those of the first `i` by command `i`'s, if it matches. */
  lemma DispatchesStep(meta: MetadataResult, cmds: seq<CommandConfig>, i: nat)
    requires i < |cmds|
    ensures var text := InputFor(cmds[i], meta);
      Dispatches(meta, cmds[..i + 1])
        == Dispatches(meta, cmds[..i]) + (if Matches(cmds[i], text) then [Dispatch(i, text)] else [])
  {
    assert cmds[..i + 1][..i] == cmds[..i];
  }

  /** A command that does not match its chosen text leaves no trace in the log. */
  lemma SkippedCommandsLeaveNoTrace(meta: MetadataResult, cmds: seq<CommandConfig>, i: nat)
    requires i < |cmds| && !Matches(cmds[i], InputFor(cmds[i], meta))
    ensures forall k :: 0 <= k < |Dispatches(meta, cmds)| ==> Dispatches(meta, cmds)[k].index != i
  {
    DispatchesFanOut(meta, cmds);
  }
}
