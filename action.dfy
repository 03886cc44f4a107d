/** The two plain actions: doing nothing, and running a command through a shell. */
module Action {
  import opened Wrappers
  import opened CommandApi

  /** The action built for a `Custom` command action. */
  datatype NoAction = NoAction

  /** `NoAction::new`: accepts any command action and keeps nothing of it. */
  function NewNoAction(conf: CommandAction): NoAction {
    NoAction
  }

  /** `NoAction::act`. */
  function ActNoAction(a: NoAction): Effect {
    NoEffect
  }

  /** A no-op action built from any command action has no effect. */
  lemma NoActionHasNoEffect(conf: CommandAction)
    ensures ActNoAction(NewNoAction(conf)) == NoEffect
  {
  }

  /** The interpreter used when a `Shell` action names none. */
  const DefaultShell: string := "/bin/sh"

  datatype ShellAction = ShellAction(shell: string, command: string)

  /** `ShellAction::new`; any other variant panics in the source. */
  function NewShellAction(conf: CommandAction): (a: ShellAction)
    requires conf.Shell?
    ensures a.command == conf.command
    ensures conf.shell.Some? ==> a.shell == conf.shell.value
    ensures conf.shell.None? ==> a.shell == DefaultShell
  {
    ShellAction(conf.shell.GetOr(DefaultShell), conf.command)
  }

  /** `ShellAction::act`: run `<shell> -c <command>` with all three standard streams nulled. */
  function ActShellAction(a: ShellAction): Effect {
    Spawn(SpawnRequest(a.shell, ["-c", a.command], Null, Null, Null))
  }

  /**
   * From configuration to process: a `Shell` action spawns exactly one
   * process, the named interpreter (or /bin/sh), with `-c` and the command
   * verbatim as its only arguments and no standard stream connected.
   */
  lemma ShellActionSpawns(conf: CommandAction)
    requires conf.Shell?
    ensures var e := ActShellAction(NewShellAction(conf));
      && e.Spawn?
      && e.request.program == (if conf.shell.Some? then conf.shell.value else "/bin/sh")
      && e.request.args == ["-c", conf.command]
      && e.request.stdin == Null && e.request.stdout == Null && e.request.stderr == Null
  {
  }
}
