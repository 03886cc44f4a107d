/**
 * The configuration, rebuilt from the fields its users read: the driver
 * (thresholds, preprocessors), the router (commands, debug) and the
 * preprocessor (mappings).
 */
module Config {
  import opened Wrappers
  import opened CommandApi

  /** One search/replace rule of a remap table. */
  datatype Mapping = Mapping(search: string, replace: string, name: Option<string>)

  /** A preprocessor specification; the only kind is a remap table. */
  datatype PreprocessorConfig = Remap(mappings: seq<Mapping>)

  /**
   * A command specification. Every variant has a precondition pattern and a
   * flag choosing the raw phrase over the preprocessed one. A `Redirect`
   * carries the specification loaded from the file at `path`.
   */
  datatype CommandConfig =
    | Net(precondition: string, useRawText: bool,
          srcAddr: Option<string>, srcPort: nat, dstAddr: string, dstPort: nat)
    | StdIO(precondition: string, useRawText: bool, command: string)
    | Shell(precondition: string, useRawText: bool, shell: string, command: string)
    | Redirect(precondition: string, useRawText: bool, path: string, target: CommandConfig)
    | Action(precondition: string, useRawText: bool, action: CommandAction)

  datatype Config = Config(
    model: string,
    scorer: Option<string>,
    carryoverBufferSize: nat,
    refreshBufferThreshold: nat,
    gapDetectionMs: nat,
    preprocessors: seq<PreprocessorConfig>,
    commands: seq<CommandConfig>,
    debug: bool)
}
