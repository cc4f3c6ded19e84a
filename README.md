# keywrap, modelled in Dafny

keywrap runs a command inside a pseudo-terminal and sits between the
user's terminal and that command. Most keystrokes are forwarded to the
child. A keystroke bound with `--bind key:action` runs an action instead:

- `exit` stops the child and ends the program.
- `become(cmd)` stops the child and replaces the program with `bash -c cmd`.
- `execute(cmd)` runs `bash -c cmd` and leaves the child running.

When standard input is not a terminal, keywrap first captures it to a
temporary file. The child then reads it through a small bash wrapper, and
action commands can name that file with the placeholder `__stdin_file__`.

This project models the program's core, all of it in `main.go`:

- command-line parsing, `parseFlag` (`flags.dfy`);
- parsing action specs and compiling the key map, `formatKeymap`
  (`actions.dfy`, `keymap.dfy`);
- what the terminal reader does with each chunk it reads (`router.dfy`);
- the command lines handed to bash, and placeholder substitution
  (`commands.dfy`);
- `stopChild` and the main `select` loop (`eventloop.dfy`).

It proves properties of each part. `text.dfy` holds the byte-string
helpers the Go standard library provides: `strings.TrimSpace`,
`strings.SplitN(s, ":", 2)`, `strings.ReplaceAll`, and decimal formatting
with `%d`. `wrappers.dfy` holds `Option` and `Result`.

Modelling choices:

- Go strings are byte sequences (`Text.Bytes`).
- Go panics and `log.Fatal` become `Err` results: `Actions.Panic`,
  `Flags.FlagError` and `Commands.Fault`.
- Iteration over a Go map visits keys in an unspecified order. This is
  modelled by choosing the next unvisited key with `:|`, so every proof
  holds for every order.
- The main loop is a pure transition function, `EventLoop.Next`, over a
  configuration. The configuration records whether the child has exited,
  whether the loop is still running, and the effects sent to the outside
  world (signals, resize, notices, the command that replaces the process,
  and commands that are run).
- The class `EventLoop.Supervisor` carries that state in fields. Its
  methods are proved against `Next` and `Run`.
- `stopChild` waits in 2-second rounds and sends SIGKILL after each round
  in which the child has not exited. The model takes the number of rounds
  that pass as a parameter.

Behaviour of the code worth knowing (the model follows the code):

- An action spec that is not `exit`, `become(…)` or `execute(…)` is not
  rejected. It compiles to Go's zero `Action`, which the main loop
  ignores, so the key is swallowed (`Actions.ParseActionSpec`,
  `EventLoop.UnsetIgnored`).
- The argument of `become(`/`execute(` is the spec minus its prefix and
  its last byte, whatever that byte is. There is no check for matching
  parentheses (`Actions.LastByteDropped`).
- `become(` or `execute(` with nothing after it fails with a slice panic
  (`Actions.ParseActionSpec`).
- A malformed binding is only detected late. The
  key map is compiled in the reader goroutine, after the PTY has started
  and the terminal is in raw mode, and the panic there skips the
  terminal restore. The model keeps the panic as an error result and
  leaves the ordering out.
- When the child fails without hold mode, the failure is only logged. The
  loop returns and the program exits with status 0
  (`EventLoop.ChildExitOutcome`).
- `stopChild` sends SIGTERM once, then a SIGKILL every 2 seconds until
  the child exits
  (`EventLoop.StopRunning`).

## Model

| member | source | states |
|---|---|---|
| Text.TrimLeftShape | main.go:44 | trimming the left keeps a suffix and drops only leading white space, so the result is empty or starts with a non-space byte |
| Text.TrimRightShape | main.go:44 | trimming the right keeps a prefix and drops only trailing white space, so the result is empty or ends with a non-space byte |
| Text.TrimSpaceShape | main.go:44 | the trimmed value has no white space at either end and is no longer than the input |
| Text.TrimLeftSpaces | main.go:44 | left trimming removes exactly a leading run of white space |
| Text.TrimRightSpaces | main.go:44 | right trimming removes exactly a trailing run of white space |
| Text.TrimSpacePadding | main.go:44 | `Text.TrimSpace` characterised: white space padding on both sides of a trimmed value is removed and the value is kept |
| Text.TrimSpaceOfTrimmed | main.go:44 | trimming is the identity on a value with no white space at its ends |
| Text.IndexOf | main.go:40 | the result is absent exactly when the byte does not occur, and otherwise is its first position |
| Text.SplitFirst | main.go:40-43 | splitting at the first `:` fails exactly when there is no `:`; otherwise the key holds no `:` and key, `:` and value rejoin to the input |
| Text.SplitFirstJoin | main.go:40-44 | joining a key without `:` to a value with `:` splits back into that key and that value, even when the value holds `:` |
| Text.ReplaceAllAbsent | main.go:225 | text with no occurrence of the pattern is unchanged by replacement |
| Text.ReplaceAllSelf | main.go:225 | replacing a pattern by itself changes nothing |
| Text.ReplaceAllAfter | main.go:225 | `Text.ReplaceAll` characterised together with ReplaceAllAbsent: the leftmost occurrence, whatever text comes before it, is replaced, the text before it is kept, and replacement continues after it |
| Text.Decimal | main.go:278 | a `%d` rendering is a non-empty run of digits, with a leading zero only for 0 |
| Text.DecimalRoundTrip | main.go:278 | reading the digits of a `%d` rendering gives the number back |
| Text.DecimalInjective | main.go:278 | different numbers have different `%d` renderings |
| Actions.ParseActionSpec | main.go:256-271 | fails (slice panic) exactly for `become(` and `execute(` with nothing after them; otherwise the kind is Exit exactly for `exit`, Become exactly for a spec starting with `become(`, and Execute exactly for one starting with `execute(`; any other spec gives the zero action; Exit carries no argument; the argument is shorter than the spec |
| Actions.LastByteDropped | main.go:261-270 | `become(`/`execute(` followed by any argument and any last byte gives that kind with that argument; the last byte is dropped unchecked |
| Actions.ParseRender | main.go:256-271 | parsing the canonical spec of an expressible action gives that action back |
| Actions.RenderParse | main.go:256-271 | a spec that parses to a recognised action and is `exit` or ends with `)` is that action's canonical spec |
| Keymap.CsiU | main.go:278 | a CSI-u Ctrl sequence is at least six bytes long |
| Keymap.CsiURoundTrip | main.go:278 | the key code can be read back from its CSI-u sequence |
| Keymap.CsiUInjective | main.go:278 | different key codes give different CSI-u sequences |
| Keymap.ControlByte | main.go:279-280 | the control byte of a lower-case letter lies in 1..26 |
| Keymap.KeyStrings | main.go:273-288 | a key literal registers one or two non-empty byte strings, or fails with the unknown-key panic naming that literal |
| Keymap.KeyStringsAcceptsGrammar | main.go:273-288 | a key literal compiles exactly when it is one byte, `ctrl-` and one byte, `enter` or `tab` |
| Keymap.SingleByteKey | main.go:274-275 | a one-byte literal is registered under exactly itself |
| Keymap.CtrlKey | main.go:276-281 | `ctrl-c` registers exactly `CsiU(c)` (ESC `[` decimal code `;5u`), plus the control byte `c-'a'+1` exactly when `c` is a lower-case letter; the two strings differ |
| Keymap.CtrlNeedsOneByte | main.go:276-287 | `ctrl-` followed by no byte or by several is an unknown key |
| Keymap.Collisions | main.go:273-285 | `tab` and `ctrl-i` register the same byte, and so do `ctrl-a` and the one-byte literal 0x01, so which action wins depends on the map order |
| Keymap.FormatKeymap | main.go:253-291 | for every iteration order: the result is a panic exactly when some binding fails, and the panic is that of a failing binding; otherwise the table holds every string every bound key registers and nothing else, each entry mapped to the action of a key that registers it |
| Keymap.CompileStep | main.go:273-289 | adding one key's entries keeps the table a compilation of the keys visited so far |
| Keymap.Lookup | main.go:253-291 | when no two bound keys share a byte string, each registered string looks up its own key's action |
| Keymap.OnlyRegistered | main.go:253-291 | a string no bound key registers is not in the table |
| Keymap.CtrlLookup | main.go:276-281 | a bound `ctrl-c` is found under its CSI-u sequence and, for a letter, under its control byte, with the same action |
| Keymap.EnterTabLookup | main.go:282-285 | `enter` is found under a newline byte and `tab` under a tab byte |
| Router.Route | main.go:144-159 | exactly one outcome per chunk: logged (with its action or the zero action) exactly in debug mode; queued exactly when the whole chunk is bound or the child has exited, with the bound action or else exit; forwarded unchanged in every other case |
| Router.RegisteredNeverForwarded | main.go:144-159 | a chunk that a bound key registers is never forwarded to the child |
| Router.QuitKey | main.go:147-159 | with `q:exit` bound and the child running, `q` queues exactly an exit and every other chunk is forwarded unchanged |
| Commands.ReplayOperands | main.go:109 | in the replay wrapper `Commands.ReplayCommand`, bash's `$0` is the captured file and `"$@"` is the original command, every word unchanged |
| Commands.ShellCommandOperands | main.go:226-229 | an action's command line, `Commands.ShellCommand`, makes its argument the whole bash script, with no `$0` and no parameters |
| Commands.SubstituteAsWritten | main.go:225 | the substitution as written fails exactly when no stdin file exists |
| Commands.AsWrittenFailsWithoutPlaceholder | main.go:225 | `become(nvim a.json)` run from a terminal fails, although its argument holds no placeholder |
| Commands.Substitute | main.go:225 | with no stdin file the argument is left unchanged |
| Commands.SubstituteAgrees | main.go:225-228 | wherever the program as written does not fail, the corrected substitution gives the same text |
| Commands.SubstituteAbsent | main.go:225 | an argument without the placeholder is passed on unchanged |
| Commands.SubstituteFirst | main.go:225 | the leftmost placeholder is replaced by the file's name, the text before it is kept, and substitution continues after it |
| Commands.SubstituteExample | main.go:228 | `cat __stdin_file__` with the file `/tmp/in` becomes `cat /tmp/in` |
| Commands.SubstituteAfterUnderscore | main.go:228 | `cat my_file __stdin_file__` with the file `/tmp/in` becomes `cat my_file /tmp/in`: an underscore before the placeholder does not matter |
| Flags.ParseFlag | main.go:25-61 | the argument loop gives exactly the result of the option grammar `Flags.ParseArgs`: the usage error, the missing-value panic or the parsed options |
| Flags.ParseBindings | main.go:39-45 | a run of `--bind key:spec` options stores each key's trimmed spec, in order, a later binding replacing an earlier one |
| Flags.ParseHold | main.go:46-48 | `--hold` sets hold mode and parsing carries on |
| Flags.ParseHoldShort | main.go:46-48 | `-h` parses exactly as `--hold` does: it sets hold mode and parsing carries on |
| Flags.ParseInput | main.go:49-51 | `--input text` records the text and parsing carries on |
| Flags.ParseCommand | main.go:35-55 | the command is everything after `--`, or everything from the first word that is not an option |
| Flags.ParseRendered | main.go:25-61 | reading back a command line built from bindings, hold, input and a command gives exactly those bindings, flags and command |
| Flags.BoundLast | main.go:44 | a key keeps the trimmed spec of its last binding |
| Flags.BoundUntouched | main.go:44 | bindings of other keys leave a key's value alone |
| Flags.BindWithoutColon | main.go:39-43 | a binding without `:` stops with the usage error |
| Flags.NoCommand | main.go:57-59 | options alone (any bindings, `--hold`, `--input text`), with or without a final `--`, name no command and give the usage error |
| Flags.ValueMissing | main.go:39-51 | `--bind` or `--input` as the last argument, after any bindings, `--hold` and `--input text`, fails reading the missing value |
| EventLoop.Supervisor.constructor | main.go:127-133 | the loop starts with the child running, the loop running and no effects |
| EventLoop.Supervisor.StopChild | main.go:175-200 | the new state is `EventLoop.Stopped` of the old: nothing if the child has exited; otherwise SIGTERM, one SIGKILL per grace period, then the child is marked exited |
| EventLoop.Supervisor.Step | main.go:202-237 | one turn of the loop moves the state exactly as the transition function `EventLoop.Next` does |
| EventLoop.Supervisor.Loop | main.go:202-237 | handling events until the loop stops gives the state `EventLoop.Run` gives; events are left over only once the loop has stopped |
| EventLoop.KillsShape | main.go:186-194 | the kills sent while waiting are SIGKILLs only, one per grace period, and no SIGTERM |
| EventLoop.StopIdempotent | main.go:175-178 | stopping marks the child exited; stopping again, or stopping a child that has exited, changes nothing |
| EventLoop.StopRunning | main.go:175-200 | stopping a running child keeps the earlier effects, then sends one SIGTERM, then exactly one SIGKILL per grace period |
| EventLoop.StopCount | main.go:180-199 | stopping a running child adds exactly one SIGTERM |
| EventLoop.ChildExitOutcome | main.go:204-213 | the child's exit marks it exited; the loop returns exactly without hold mode; a failure is only reported; with hold mode a notice is shown and the loop goes on |
| EventLoop.ExitActionOutcome | main.go:220-222 | an exit action stops the child and ends the loop |
| EventLoop.BecomeOutcome | main.go:223-226 | a become action stops the child first and then replaces the process with `bash -c` running the substituted argument as the whole script |
| EventLoop.ExecuteOutcome | main.go:227-234 | an execute action runs `bash -c` with the substituted argument and leaves the child and the loop as they were |
| EventLoop.UnsetIgnored | main.go:218-235 | the zero action from an unrecognised spec changes nothing |
| EventLoop.HoldDismissed | main.go:147-152 | on the hold screen an unbound key queues one exit, which ends the loop without signalling anything |
| EventLoop.QuietStep | main.go:202-237 | every turn that does not stop a running child only appends effects, none of them a signal |
| EventLoop.NextSafe | main.go:202-237 | each turn keeps the safety invariant, only appends effects and never unmarks the child's exit |
| EventLoop.RunSafe | main.go:202-237 | the safety invariant and the effects already sent survive any sequence of events |
| EventLoop.StartSafe | main.go:175-237 | from the start, whatever the events: once the loop stops the child has exited, and SIGTERM is sent at most once |
| EventLoop.RunStopped | main.go:209-226 | once the loop has returned or the process has been replaced, later events change nothing |

## Left out

- Terminal and PTY I/O (main.go:76-93, 99-103, 112-120, 164-173) is not modelled: opening `/dev/tty`, raw mode and its restore, starting the child on a PTY, writing `--input` to it, and copying its output to standard output. Only the routing decision for each chunk is modelled.
- Capturing standard input to a temporary file (`collectStdinToFile`) is not modelled. Whether a file exists is a parameter, and its name is an opaque byte string.
- EventLoop.Next: the replacement process's argv[0] is recorded as `bash`. The program passes the path that `exec.LookPath("bash")` returns (main.go:294-299). Only the `execute` command line (main.go:229) starts with `bash` itself.
- Replacing the process and running a command are recorded as the effects `ReplaceProcess` and `RunCommand`. The processes they start are not modelled. Their failures are not modelled either: a failed `exec.LookPath` or `syscall.Exec` panics (main.go:294-302), and a failed `cmd.Run()` is logged (main.go:232-233).
- EventLoop.Next: a become or execute action substitutes the placeholder with the corrected `Commands.Substitute`. When standard input is a terminal, the program as written panics at main.go:225 and 228 instead (for become, after stopping the child). The model runs the command unchanged, as the Findings table describes.
- Goroutines, channels, SIGWINCH delivery and the 2-second timer are not modelled. The loop handles one event at a time from a given sequence, and stopping takes the number of elapsed grace periods as a parameter.
- The data race is not modelled. The reader goroutine reads `childExitChan` while the main loop sets it to nil. The model gives the reader the loop's view of the child.
- Reads larger than 1024 bytes, and keystrokes split across or merged into reads, are not modelled. A chunk is whatever one read returns.
- The environment variable `DEBUG` is a parameter of `Router.Route`, and log output is not modelled beyond the report and notice effects.
- Text.TrimSpaceShape: white space is the six ASCII bytes only; Go's `strings.TrimSpace` also trims Unicode white space (such as U+0085 and U+00A0).
- Keymap.FormatKeymap: when two bound keys register the same byte string, it states only that the entry holds the action of one of them; which one wins depends on Go's map order.
- EventLoop.Supervisor.Step: a child exit that arrives after the child has been marked exited is ignored. The program stops listening to the channel at that point, so this cannot happen.
- Failures to deliver signals and to resize the PTY are only logged by the program, and the model does not record them.

## Findings

| source | as written | input that shows it | evidently intended | confidence | as-written member | corrected member |
|---|---|---|---|---|---|---|
| main.go:225, main.go:228 | `stdinFile.Name()` is called for every `become`/`execute`, but `stdinFile` is nil when standard input is a terminal, so the call dereferences nil and panics | `keywrap --bind "ctrl-e:become(nvim a.json)" -- bat a.json` started from an interactive shell, then Ctrl-E pressed | substitute the placeholder only when a stdin file exists, and otherwise run the command unchanged | not executed | Commands.AsWrittenFailsWithoutPlaceholder | Commands.SubstituteAgrees |
