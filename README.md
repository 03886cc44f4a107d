# CASL in Dafny

CASL (Command-Action Speech Loopback) listens to a microphone, decodes speech
into timed tokens, cuts the token stream into phrases at silences, rewrites
each phrase through a chain of preprocessors, and runs every configured
command whose precondition matches the phrase. A command either talks to a
responder (over UDP or a child process's pipes) and performs the action the
responder names, spawns a shell, forwards to a command loaded from a file, or
performs a stored action. Actions are a no-op, a shell spawn, or one of four
builtin formatters.

This project models the deterministic path from decoded tokens to the
commands that fire, and proves what that path promises.

- `wrappers.dfy` — `Option`.
- `strings.dfy` — ASCII lower-casing, Unicode white space, `join` and splitting on a character.
- `regex.dfy` — the part of the `regex` crate the core uses, for literal
  patterns: leftmost search, case-insensitive search, `replace_all`, and the
  `$name`, `${name}` and `$$` template expansion of `Captures::expand`.
- `command_api.dfy` — `CommandAction`, `Payload` and `Response`, plus the
  effects an action can have (a spawn request, a printed line).
- `config.dfy` — `Config`, `Mapping`, the preprocessor and command
  specifications, rebuilt from the fields the code reads.
- `action.dfy`, `casl_action.dfy`, `executor.dfy` — the action executor.
- `preprocessor.dfy` — `Remapper` and the left-to-right preprocessor chain.
- `speech.dfy` — `process_metadata`: the token scan, gap detection,
  `safe_to_refresh` and the gap boundaries.
- `command.dfy` — the command constructors, `run`, the response decision
  and `process_commands` as a method appending `(command index, text)` to a
  dispatch log.
- `driver.dfy` — class `Driver`: the sample buffer of `process_audio_loop`,
  the bounded drain `process_audio`, and the refresh step that decodes,
  dispatches and recycles the buffer. The decoder stream is the sequence of
  samples fed to it; the decoded tokens are an input.

## Model

| member | source | states |
|---|---|---|
| Regex.Find | src/preprocessor.rs:25-27 | The search result is the leftmost position where the pattern occurs; `None` exactly when it occurs nowhere. |
| Regex.MatchImpliesMatchIgnoreCase | src/command.rs:166-168 | A case-insensitively compiled precondition matches every text the exact-case pattern matches. |
| Regex.MatchedText | src/command.rs:177 | The text captured by a case-insensitive match is the input's own slice at the leftmost case-insensitive occurrence of the pattern: no earlier position matches, it has the pattern's length and equals the pattern up to case. |
| Regex.ExpandLiteral | src/command.rs:177 | A shell template without `$` expands to itself whatever was captured. |
| Regex.ExpandLiteralPrefix | src/command.rs:177 | Literal template text before a `$` reference is copied through unchanged. |
| Regex.ExpandGroupZero | src/command.rs:177 | `$0` and `${0}` expand to the matched text. |
| Regex.ReplaceAll | src/preprocessor.rs:29 | `replace_all` with a pattern that does not occur returns the input unchanged. |
| Regex.ReplaceAllAtFirstMatch | src/preprocessor.rs:29 | When the leftmost occurrence of a non-empty pattern is at i, `replace_all` keeps the text before i, writes the expanded replacement, and continues with `replace_all` on the text after that occurrence. |
| Action.NoActionHasNoEffect | src/action.rs:9-19 | A no-op action built from any command action has no effect. |
| Action.NewShellAction | src/action.rs:28-36 | The command is kept verbatim; the shell is the given one, or "/bin/sh" when none is given; only the `Shell` variant is accepted. |
| Action.ShellActionSpawns | src/action.rs:38-49 | Acting spawns the shell with exactly the arguments "-c" and the command, with stdin, stdout and stderr nulled. |
| CaslAction.GetFuncByNameIsRegistry | src/casl_action.rs:31-41 | An operation resolves to a builtin iff its lower-cased form is that builtin's name, and to nothing iff it is none of "hello world", "debug", "warning", "error". |
| CaslAction.GetFuncByNameIgnoresCase | src/casl_action.rs:32 | Names equal up to case resolve to the same builtin. |
| CaslAction.GetFuncByNameUpperCase | src/casl_action.rs:31-41 | "DEBUG" and "Hello World" resolve to their builtins; "nonexistent" resolves to nothing. |
| CaslAction.NewCASLAction | src/casl_action.rs:12-20 | Operation and parameters are kept unchanged and the builtin is looked up by name; only the `CASL` variant is accepted. |
| CaslAction.UnknownOperationIsSilent | src/casl_action.rs:24-28 | An action with an unknown operation does nothing and raises nothing, whatever its parameters. |
| CaslAction.HelloWorldGreets | src/casl_action.rs:45-51 | "Hello <first parameter> world" when there are parameters, "Hello world" otherwise. |
| CaslAction.BannerLines | src/casl_action.rs:53-63 | A debug, warning or error banner read back line by line is the header, one line per parameter (one empty line when there are none), then the footer. |
| CaslAction.DebugBannerShowsParameter | src/casl_action.rs:53-55 | The debug banner for ["x"] is the three lines `\/ CASL DEBUG MESSAGE \/`, "x", `/\CASL DEBUG MESSAGE/\`. |
| Executor.Perform | src/command.rs:80 | `action().act()` on a `Custom` action has no effect, on a `Shell` action spawns with the arguments "-c" and its command, and on a `CASL` action prints a line exactly when its operation names a builtin. |
| Executor.PerformByVariant | src/command.rs:79-80 | Performing a `Custom` action has no effect, a `Shell` action spawns `<shell or /bin/sh> -c <command>`, a `CASL` action prints its builtin's output or does nothing when the name is unknown. |
| Executor.PerformedEffects | src/command.rs:79-80 | A spawn comes only from a `Shell` action and runs "-c" and its command; a printed line only from a known builtin; no effect exactly for `Custom` or an unknown builtin. |
| Preprocessor.FromMappings | src/preprocessor.rs:15-19 | The remapper keeps exactly the given mappings in the same order. |
| Preprocessor.FirstMatch | src/preprocessor.rs:24-32 | The loop over mappings returns either the input or `replace_all` of the input by one of the mappings whose search matches. |
| Preprocessor.Process | src/preprocessor.rs:23-33 | When no mapping's search matches, the output is the input; when mapping k is the first whose search matches, the output is the input with every occurrence replaced by mapping k. |
| Preprocessor.ProcessUsesFirstMatch | src/preprocessor.rs:23-30 | When mapping k is the first whose search matches, the output is `replace_all` with mapping k. |
| Preprocessor.ProcessNoMatch | src/preprocessor.rs:24-32 | When no mapping matches, the input is returned unchanged. |
| Preprocessor.LaterMappingsIgnored | src/preprocessor.rs:27-29 | Mappings after the first matching one are never consulted: replacing them changes nothing. |
| Preprocessor.EmptyRemapperIsIdentity | src/preprocessor.rs:24-32 | A remapper with no mappings is the identity. |
| Preprocessor.FirstMatchExample | src/preprocessor.rs:24-29 | [a→X, b→Y] turns "ab" into "Xb": the second rule is not applied although it matches. |
| Preprocessor.SearchIsCaseSensitive | src/preprocessor.rs:25-27 | The search "Hello" leaves "hello" unchanged although it matches it ignoring case. |
| Preprocessor.ChainAppend | src/speech.rs:83-86 | Preprocessors fold left to right: the chain p + q runs p and feeds its output to q. |
| Preprocessor.ChainBase | src/speech.rs:83-86 | With no preprocessors the phrase is the raw text; with one, it is that preprocessor's output. |
| Speech.LastSoundIsLatestSound | src/speech.rs:67-79 | `last_sound` is the largest timestep of a token that is not all white space, and 0 when there is none. |
| Speech.LastSoundMonotone | src/speech.rs:76-79 | `last_sound` never decreases during the scan. |
| Speech.LastReset | src/speech.rs:69-74 | The last token whose silence since the previous sound times 20 ms exceeds `gap_detection_ms`; none after it does; `None` iff no token does. |
| Speech.PhraseFollowsLastGap | src/speech.rs:69-75 | The phrase starts at the last resetting token, or at the first token when none resets. |
| Speech.Scan | src/speech.rs:64-80 | The scan loop's text is the concatenation of token texts from the last resetting token to the end, its `last_sound` is the latest sound, and its `last_gap` is the last resetting timestep (0 if none); timesteps must not go below `last_sound`. |
| Speech.Preprocess | src/speech.rs:83-86 | The preprocessor loop yields the chain's output: each preprocessor, in order, rewrites the previous one's output. |
| Speech.ProcessMetadata | src/speech.rs:63-95 | The result is the segmentation: raw phrase after the last gap, phrase through the preprocessor chain, safe flag and gap boundaries; requires `length_ms >= 20 * last_sound`. |
| Speech.GapEndBackoff | src/speech.rs:87-93 | `last_gap_end_ms` is 0 when no gap was found and otherwise 20 ms times one less than the resetting timestep, which is at least 1. |
| Speech.GapEndZero | src/speech.rs:87-93 | `last_gap_end_ms` is 0 exactly when no token resets or the last resetting token is at timestep 1, which the backoff moves to 0. |
| Speech.GapAtFirstTimestep | src/speech.rs:69-74 | With a 10 ms threshold a lone token at timestep 1 resets (20 ms of silence), and the gap end is still 0 ms. |
| Speech.RefreshWhenSilent | src/speech.rs:81-92 | `safe_to_refresh` iff `length_ms - 20 * last_sound > gap_detection_ms`; `last_gap_start_ms = 20 * (last_sound + 1)`; without preprocessors `phrase == phrase_raw`. |
| Speech.GapExampleScan | src/speech.rs:64-80 | For "h", "i", " " at timesteps 0-2 then "y", "o" at 40-41 with a 500 ms threshold, `last_sound` is 41, the last resetting token is "y", the phrase is "yo" and the gap end is 780 ms. |
| Speech.GapExample | src/speech.rs:63-95 | With a 500 ms threshold, "hi " at timesteps 0-2 then "yo" at 40-41 in a 3000 ms buffer gives phrase "yo", safe, gap end 780 ms. |
| Command.NewSocketCommand | src/command.rs:42-51 | Ports and destination address are copied; the source address defaults to "localhost"; only the `Net` variant is accepted. |
| Command.NewStdIOCommand | src/command.rs:108-114 | The command line is copied; only the `StdIO` variant is accepted. |
| Command.NewShellCommand | src/command.rs:161-171 | Command, shell and precondition are copied; only the `Shell` variant is accepted. |
| Command.NewRedirectCommand | src/command.rs:196-207 | A redirect keeps its path and its inner command is exactly the command built from the loaded specification; only the `Redirect` variant is accepted. |
| Command.NewAutoActionCommand | src/command.rs:234-240 | The action is copied; only the `Action` variant is accepted. |
| Command.Run | src/command.rs:88-249 | A UDP command starts a datagram round trip between its configured endpoints carrying the input as payload (88-99); a pipe command a round trip with its command line (142-150); a shell command spawns its shell with "-c" and one argument, all streams nulled (174-187); a redirect runs its inner command on the same input (210-214); an action command performs its stored action (243-249). |
| Command.RoundTripSendsInput | src/command.rs:88-150 | A UDP command (88-99) or pipe command (142-150) sends the text it is run with, unchanged, as the payload, to the configured endpoints. |
| Command.RedirectForwards | src/command.rs:210-214 | A redirect runs its loaded command on the same input. |
| Command.AutoActionIgnoresInput | src/command.rs:243-249 | An action command does the same whatever its input: it performs its stored action. |
| Command.ShellRunsOnMatch | src/command.rs:174-187 | On a text its precondition matches, a shell command can run, and spawns its shell with "-c" and the template expanded with the matched text, which is a slice of the input equal to the precondition up to case. |
| Command.ShellTemplateExample | src/command.rs:175-181 | "echo $0" with precondition "lights" on "LIGHTS on" spawns `sh -c "echo LIGHTS"`. |
| Command.HandleResponse | src/command.rs:72-80 | A reply is aborted exactly when it carries an error; otherwise it performs its action's effect (the pipe thread, lines 130-138, decides the same way). |
| Command.ErrorShortCircuits | src/command.rs:72-80 | A reply with an error is aborted with that error and performs nothing; only an error-free reply performs its action. |
| Command.ResponseExamples | src/command.rs:133-138 | An error "boom" with a `Custom` action is aborted; an error-free reply naming "debug" with ["x"] prints the three-line debug banner. |
| Command.DispatchesFanOut | src/command.rs:19-29 | The log holds exactly the commands whose precondition matches their chosen text, each with that text, in declaration order, each once. |
| Command.DispatchesSound | src/command.rs:19-29 | Every logged dispatch names a configured command, carries that command's chosen text (raw or processed), and that text matches the command's precondition. |
| Command.DispatchesOrdered | src/command.rs:19-29 | The log lists commands in strictly increasing declaration order, so no command runs twice for one phrase. |
| Command.DispatchesComplete | src/command.rs:19-29 | Every command whose precondition matches its chosen text has an entry in the log. |
| Command.ProcessCommands | src/command.rs:15-30 | The loop over commands, choosing raw or processed text per command and running each match, yields the dispatch log. |
| Command.SkippedCommandsLeaveNoTrace | src/command.rs:20-27 | A command whose precondition does not match its chosen text has no entry in the log. |
| Driver.LengthMs | src/speech.rs:25 | The buffered length in whole milliseconds at 16 samples per millisecond. |
| Driver.GapStartSample | src/speech.rs:37 | The gap end in samples is 16 per millisecond, and 0 exactly when `last_gap_end_ms` is 0 (no gap found, or a gap at timestep 1; see `Speech.GapEndZero`). |
| Driver.UnsafeCarryoverAsWritten | src/speech.rs:36-42 | As written, the not-safe branch keeps the last `gap_start_sample` samples, and panics when that exceeds the buffer. |
| Driver.UnsafeCarryoverAsWrittenDiffers | src/speech.rs:37-39 | On a 960-sample buffer the as-written branch keeps audio from before the gap end, and keeps nothing when the gap end is 0, unlike the corrected carryover. |
| Driver.GapCarryover | src/speech.rs:38-39 | The corrected not-safe carryover: the `buffer.len() - gap_start_sample` samples from the gap end on. |
| Driver.Carryover | src/speech.rs:29-42 | The new buffer is a suffix of the old: the last `carryover_buffer_size` samples when safe, the audio from the gap end on otherwise (the corrected slice `buffer[gap_start_sample..]`; line 39 as written is `Driver.UnsafeCarryoverAsWritten`, see Findings); `None` exactly when the slice would be out of range. |
| Driver.UnsafeCarryoverKeepsPhrase | src/speech.rs:36-42 | A not-safe cycle keeps the samples from `16 * last_gap_end_ms` on, and the whole buffer when `last_gap_end_ms` is 0 (no gap found, or a gap at timestep 1). |
| Driver.Driver.constructor | src/speech.rs:14-17 | The loop starts with an empty buffer, `last_carryover = 0` and a fresh stream. |
| Driver.Driver.ProcessAudio | src/speech.rs:50-61 | Appends at most `max` received samples and keeps the old buffer as prefix; with more than `max` available it consumes `max + 1`, dropping one; the new samples go to the stream. |
| Driver.Driver.Refresh | src/speech.rs:21-44 | Nothing happens until `buffer.len() - last_carryover >= refresh_buffer_threshold`; then the tokens are segmented over the buffered milliseconds and the buffer recycled by the corrected carryover of `Driver.Carryover` (see Findings). |
| Driver.Driver.Recycle | src/speech.rs:28-44 | If safe, the commands are dispatched and the buffer becomes the last `carryover_buffer_size` samples; otherwise nothing is dispatched and the audio from the gap end on is kept (the corrected slice `buffer[gap_start_sample..]`, not line 39 as written, which is `Driver.UnsafeCarryoverAsWritten`); `last_carryover` becomes the new length and the fresh stream holds exactly the new buffer; an out-of-range slice ends the thread. |

## Left out

- Regular expressions are literal strings: the model has no metacharacters, alternation or classes, and case-insensitive matching folds ASCII letters only. `$name` in a template expands only group 0.
- Integer widths: timesteps, milliseconds, ports and sample counts are unbounded naturals, so the u32 overflow of `ms * TARGET_SAMPLE_RATE`, `(timestep - last_sound) * 20` and the `as u32` casts is not modelled.
- Speech.ProcessMetadata and Driver.Driver.Refresh: the u32 subtractions `timestep - last_sound` and `length_ms - 20 * last_sound` are preconditions (`Ordered` tokens, `20 * last_sound <= length_ms`), not a modelled panic or wrap-around.
- Command.Run: requires that a shell precondition matches its input, which the source unwraps; a redirect to a shell command whose own precondition differs from the redirect's would panic there, and the model does not capture that panic.
- The DeepSpeech model, stream creation, `feed_audio` and `finish_with_metadata` are foreign calls: the stream is the sequence of fed samples and the decoded tokens are an input.
- The control channel and the outer `while !is_exiting` loop of `process_audio_loop` are left out; the model offers its two steps, `ProcessAudio` and `Refresh`.
- Driver.Driver.ProcessAudio: the sample channel is a finite sequence that disconnects when it runs out; blocking receives are not modelled.
- UDP sockets, subprocess spawning, pipe I/O and `std::thread::spawn` are I/O and fire-and-forget concurrency: running a command yields a `Job` record, and only the reply decision is modelled.
- serde JSON encoding and decoding: `Payload`, `Response` and `CommandAction` are plain datatypes.
- Reading a redirect's target file (also on `clone`) is file I/O: a redirect specification holds its loaded target, so cyclic redirects cannot be expressed.
- Console output (`println!` of debug lines, errors and "Running ..." messages) is left out; builtin actions return the printed line as an effect.
- `capture_audio` is a floating-point f32 to i16 conversion feeding a channel.
- src/main.rs and src/audio.rs hold older copies of the driver loop around cpal, DeepSpeech and channels; only `TARGET_SAMPLE_RATE` (src/main.rs:11) is used.
- src/command_api.rs and src/config.rs declare out-of-date types: `CommandAction` is rebuilt with the variants `Custom`, `Shell` and `CASL` used by the actions and the example responder, and `Config` with the fields the driver and router read.
- The drain bound: `process_audio` is called with `carryover_buffer_size` (src/speech.rs:20), not `refresh_buffer_threshold`; the model follows the call.
- Driver.Carryover: the not-safe branch runs the corrected slice `buffer[gap_start_sample..]`, not the `buffer[buffer.len() - gap_start_sample..]` of src/speech.rs:39; the as-written slice is `Driver.UnsafeCarryoverAsWritten` (see Findings).
- Driver.Driver.Refresh: recycles with the corrected slice of `Driver.Carryover`, so it does not reproduce the as-written loss of audio from src/speech.rs:39.
- Driver.Driver.Recycle: keeps the corrected slice `buffer[gap_start_sample..]` when not safe; the as-written slice of src/speech.rs:39 is `Driver.UnsafeCarryoverAsWritten`.

## Findings

| source | as written | input that shows it | evidently intended | confidence | as-written member | corrected member |
|---|---|---|---|---|---|---|
| src/speech.rs:37-39 | When the buffer does not end in silence, the new buffer is `buffer[buffer.len() - gap_start_sample..]`: the last `gap_start_sample` samples, with `gap_start_sample` counted from the start of the buffer. | A 960-sample buffer with `last_gap_end_ms = 40` (sample 640) keeps samples 320-959, half of them from before the gap; with no gap found (`last_gap_end_ms = 0`) it keeps nothing and the unfinished phrase is lost. | `buffer[gap_start_sample..]`: the audio from the gap end on, `buffer.len() - gap_start_sample` samples, the capacity the code reserves on line 38. | medium; not executed | Driver.UnsafeCarryoverAsWrittenDiffers | Driver.GapCarryover |
