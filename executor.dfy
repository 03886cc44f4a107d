/**
 * The action executor: `CommandAction::action()` picks the action object for
 * each variant, and `act()` performs it.
 */
module Executor {
  import opened Wrappers
  import opened CommandApi
  import opened Action
  import opened CaslAction

  /** The action object a command action resolves to. */
  datatype ActionImpl =
    | NoOp(none: NoAction)
    | ShellImpl(shell: ShellAction)
    | CaslImpl(casl: CASLAction)

  /** `CommandAction::action()`: each variant is given to the constructor that accepts it. */
  function ActionOf(a: CommandAction): ActionImpl {
    match a
    case Custom => NoOp(NewNoAction(a))
    case Shell(_, _) => ShellImpl(NewShellAction(a))
    case CASL(_, _) => CaslImpl(NewCASLAction(a))
  }

  /** `IAction::act` on the resolved action. */
  function Act(impl: ActionImpl): Effect {
    match impl
    case NoOp(n) => ActNoAction(n)
    case ShellImpl(s) => ActShellAction(s)
    case CaslImpl(c) => ActCASLAction(c)
  }

  /** `action.action().act()`. */
  function Perform(a: CommandAction): (e: Effect)
    ensures a.Custom? ==> e == NoEffect
    ensures a.Shell? ==> e.Spawn? && e.request.args == ["-c", a.command]
    ensures a.CASL? ==> (e.PrintLine? <==> GetFuncByName(a.operation).Some?)
  {
    Act(ActionOf(a))
  }

  /**
   * Performing a command action, stated per variant in terms of the action
   * alone: `Custom` has no effect; `Shell` spawns the interpreter (by default
   * /bin/sh) with `-c` and the command and nulled stdio; `CASL` prints the
   * output of the builtin its name resolves to, case-insensitively, and does
   * nothing when the name is unknown.
   */
  lemma PerformByVariant(a: CommandAction)
    ensures a.Custom? ==> Perform(a) == NoEffect
    ensures a.Shell? ==>
      Perform(a) == Spawn(SpawnRequest(a.shell.GetOr("/bin/sh"), ["-c", a.command], Null, Null, Null))
    ensures a.CASL? && GetFuncByName(a.operation).None? ==> Perform(a) == NoEffect
    ensures a.CASL? && GetFuncByName(a.operation).Some? ==>
      Perform(a) == PrintLine(Output(GetFuncByName(a.operation).value, a.parameters))
  {
  }

  /** The only effects a command action can have are a spawn of `-c <command>` or one printed line. */
  lemma PerformedEffects(a: CommandAction)
    ensures Perform(a).Spawn? ==> a.Shell? && Perform(a).request.args == ["-c", a.command]
    ensures Perform(a).PrintLine? ==> a.CASL? && GetFuncByName(a.operation).Some?
    ensures Perform(a).NoEffect? <==> a.Custom? || (a.CASL? && GetFuncByName(a.operation).None?)
  {
  }
}
