/**
 * The wire types exchanged with external command processes, rebuilt from their
 * use sites, and the record of what performing an action does.
 */
module CommandApi {
  import opened Wrappers

  /** The tagged union carried in a `Response` and embedded in `Action` commands. */
  datatype CommandAction =
    | Custom
    | Shell(shell: Option<string>, command: string)
    | CASL(operation: string, parameters: seq<string>)

  /** The request sent to a command process. */
  datatype Payload = Payload(text: string)

  /** The reply of a command process: an error, or an action to perform. */
  datatype Response = Response(error: Option<string>, action: CommandAction)

  /** How one standard stream of a spawned process is wired. */
  datatype Stdio = Null | Piped

  /** `std::process::Command::new(program).args(args)` with the given stdio, spawned. */
  datatype SpawnRequest = SpawnRequest(program: string, args: seq<string>, stdin: Stdio, stdout: Stdio, stderr: Stdio)

  /** The observable effect of performing an action: nothing, a process spawn, or a line on stdout. */
  datatype Effect =
    | NoEffect
    | Spawn(request: SpawnRequest)
    | PrintLine(line: string)
}
