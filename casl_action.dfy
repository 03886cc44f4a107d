/**
 * The builtin ("CASL") actions: an operation name looked up case-insensitively
 * in a registry of four formatters, each of which prints one line.
 */
module CaslAction {
  import opened Wrappers
  import opened Strings
  import opened CommandApi

  /** The four registered builtins. */
  datatype Builtin = HelloWorld | PrintDebug | PrintWarn | PrintErr

  /** The lower-case name under which each builtin is registered. */
  function Name(b: Builtin): string {
    match b
    case HelloWorld => "hello world"
    case PrintDebug => "debug"
    case PrintWarn => "warning"
    case PrintErr => "error"
  }

  datatype CASLAction = CASLAction(operation: string, parameters: seq<string>, func: Option<Builtin>)

  /** `get_func_by_name`: the name is lower-cased, then compared with the four registered names. */
  function GetFuncByName(op: string): Option<Builtin> {
    var lower := Lower(op);
    if lower == "hello world" then Some(HelloWorld)
    else if lower == "debug" then Some(PrintDebug)
    else if lower == "warning" then Some(PrintWarn)
    else if lower == "error" then Some(PrintErr)
    else None
  }

  /**
   * The lookup is exactly the registry: an operation resolves to builtin `b`
   * if and only if its lower-cased form is `b`'s name, and resolves to nothing
   * if and only if its lower-cased form is none of the four names.
   */
  lemma GetFuncByNameIsRegistry(op: string, b: Builtin)
    ensures GetFuncByName(op) == Some(b) <==> Lower(op) == Name(b)
    ensures GetFuncByName(op).None? <==> Lower(op) !in {"hello world", "debug", "warning", "error"}
  {
  }

  /** Names that differ only in the case of their letters resolve to the same builtin. */
  lemma GetFuncByNameIgnoresCase(op1: string, op2: string)
    requires Lower(op1) == Lower(op2)
    ensures GetFuncByName(op1) == GetFuncByName(op2)
  {
  }

  /** An upper-case spelling finds the builtin. */
  lemma GetFuncByNameUpperCase()
    ensures GetFuncByName("DEBUG") == Some(PrintDebug)
    ensures GetFuncByName("Hello World") == Some(HelloWorld)
    ensures GetFuncByName("nonexistent") == None
  {
    assert Lower("DEBUG") == "debug";
    assert Lower("Hello World") == "hello world";
    assert Lower("nonexistent") == "nonexistent";
  }

  /** `CASLAction::new`; any other variant panics in the source. */
  function NewCASLAction(conf: CommandAction): (a: CASLAction)
    requires conf.CASL?
    ensures a.operation == conf.operation && a.parameters == conf.parameters
    ensures a.func == GetFuncByName(conf.operation)
  {
    CASLAction(conf.operation, conf.parameters, GetFuncByName(conf.operation))
  }

  /** `hello_world`: greets with the first parameter, if there is one. */
  function HelloWorldLine(params: seq<string>): string {
    if |params| != 0 then "Hello " + params[0] + " world" else "Hello world"
  }

  /** The first line of a message banner, e.g. `\/ CASL DEBUG MESSAGE \/`. */
  function Header(kind: string): string {
    "\\/ CASL " + kind + " MESSAGE \\/"
  }

  /** The last line of a message banner, e.g. `/\CASL DEBUG MESSAGE/\`. */
  function Footer(kind: string): string {
    "/\\CASL " + kind + " MESSAGE/\\"
  }

  /** `print_debug`, `print_warn`, `print_err`: the parameters joined by newlines between header and footer. */
  function Banner(kind: string, params: seq<string>): string {
    Header(kind) + "\n" + Join(params, "\n") + "\n" + Footer(kind)
  }

  /** The line a builtin prints for the given parameters. */
  function Output(b: Builtin, params: seq<string>): string {
    match b
    case HelloWorld => HelloWorldLine(params)
    case PrintDebug => Banner("DEBUG", params)
    case PrintWarn => Banner("WARNING", params)
    case PrintErr => Banner("ERROR", params)
  }

  /** `CASLAction::act`: run the resolved builtin, or do nothing when the name was unknown. */
  function ActCASLAction(a: CASLAction): Effect {
    match a.func
    case Some(f) => PrintLine(Output(f, a.parameters))
    case None => NoEffect
  }

  /** An unknown operation does nothing and raises nothing, whatever its parameters. */
  lemma UnknownOperationIsSilent(conf: CommandAction)
    requires conf.CASL? && Lower(conf.operation) !in {"hello world", "debug", "warning", "error"}
    ensures ActCASLAction(NewCASLAction(conf)) == NoEffect
  {
  }

  /** The greeting: "Hello <first parameter> world", or "Hello world" without parameters. */
  lemma HelloWorldGreets(params: seq<string>)
    ensures params == [] ==> HelloWorldLine(params) == "Hello world"
    ensures params != [] ==> HelloWorldLine(params) == "Hello " + params[0] + " world"
  {
  }

  /**
   * Read back line by line, a banner is its header, then one line per
   * parameter (a single empty line when there are none), then its footer,
   * provided neither the kind nor any parameter contains a newline.
   */
  lemma {:induction false} BannerLines(kind: string, params: seq<string>)
    requires '\n' !in kind
    requires forall i :: 0 <= i < |params| ==> '\n' !in params[i]
    ensures Split(Banner(kind, params), '\n')
         == [Header(kind)] + (if params == [] then [""] else params) + [Footer(kind)]
  {
    var body := if params == [] then [""] else params;
    var lines := [Header(kind)] + body + [Footer(kind)];
    assert Join(body, "\n") == Join(params, "\n");
    JoinAppend([Header(kind)], body + [Footer(kind)], "\n");
    JoinAppend(body, [Footer(kind)], "\n");
    assert [Header(kind)] + (body + [Footer(kind)]) == lines;
    assert Join(lines, "\n") == Banner(kind, params);
    assert '\n' !in Header(kind) && '\n' !in Footer(kind);
    forall i | 0 <= i < |lines| ensures '\n' !in lines[i] {
      if 0 < i < |lines| - 1 { assert lines[i] == body[i - 1]; }
    }
    SplitJoin(lines, '\n');
  }

  /** A debug banner for the parameter "x" has "x" as its middle line. */
  lemma DebugBannerShowsParameter()
    ensures Split(Output(PrintDebug, ["x"]), '\n') == ["\\/ CASL DEBUG MESSAGE \\/", "x", "/\\CASL DEBUG MESSAGE/\\"]
  {
    BannerLines("DEBUG", ["x"]);
    assert Header("DEBUG") == "\\/ CASL DEBUG MESSAGE \\/";
    assert Footer("DEBUG") == "/\\CASL DEBUG MESSAGE/\\";
  }
}
