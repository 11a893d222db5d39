# emus launcher: a Dafny model of discovery and launch

`emus` is a small command-line launcher for mobile device emulators. It looks for
the Android emulator binary and asks it for the Android Virtual Devices (AVDs),
offers the single iOS Simulator on macOS, shows every device in one menu and
starts the one the user picks. Before each launch it records a timestamp in a
persisted `lastOpenedById` map: an AVD under its own name, the iOS Simulator
(as the dispatch is written) under the key `undefined`.

This project models that decision logic in Dafny and proves what it promises:

- `android.dfy` (src/android.ts). The SDK root is chosen by precedence:
  `$ANDROID_HOME`, then `$ANDROID_SDK_ROOT`, then a guess under the user's
  profile or home directory. Under that root the two layouts are probed in
  order, first match wins. The emulator's `-list-avds` output is split on the
  end-of-line marker. `startAVD` writes the history and then spawns the emulator.
- `ios.dfy` (src/ios.ts). The simulator list is fixed and available on `darwin`
  only. `startIOSSimulator` writes the history and then runs
  `open -a Simulator.app`.
- `cli.dfy` (src/index.ts). The main flow catches each platform's failure into an
  error text and synthesizes a "none found" message. It applies the `-a`/`-i`
  scope, which ends in exit code 1 or a menu. The menu is the options, a
  separator and `Exit`, and the selected value is dispatched.
- `store.dfy`. The `Conf` store is the `ConfigStore` class. Its
  `lastOpenedById` field is `None` while the key was never written. Its event
  log records every history write and every spawned command, in order.
- `types.dfy` (src/types.ts). `DeviceOption`, the command-line flags record and
  JavaScript `Error` values.
- `strings.dfy` and `splitting.dfy` (the `split(os.EOL)` of src/android.ts). The
  JavaScript string search and split the listing relies on, with what is
  proved about them: joining the pieces gives back the text, no piece holds
  the separator, and, for either end-of-line marker, there is one piece more
  than there are separator occurrences.
- `wrappers.dfy`. `Option` and `Result`.

The environment (`process.env`, `process.platform`) is a value, `Env`. The file
system is the set of paths `fs.access` accepts. `path.normalize(path.join(..))`
is a function parameter. The `stdout` of `<emulator> -list-avds` as execa
reports it (its final newline already stripped, so `"Pixel_5\n"` arrives as
`"Pixel_5"`), the prompt's answer and the timestamp are inputs. Launches are entries appended to the
store's event log.

Facts about the code the model follows:

- The code never ranks devices by usage history. The history is read only to
  be extended with the new entry before it is written back
  (src/android.ts:25, src/ios.ts:16); it is never used for ordering, and the
  menu order is fixed: iOS options, then AVD options. `Cli.FixedOrder` shows
  this.
- Timestamps come from `Date.prototype.toString`, not ISO-8601.
- There is no startup-options submenu and no `-s` flag.
- `ANDROID_HOME` and `ANDROID_SDK_ROOT` set to the empty string count as unset,
  because the code tests them for truthiness (src/android.ts:38, 49). An empty
  `HOME` or `USERPROFILE` is still a string and is passed to `path.join`
  (src/android.ts:66, 70); only an undefined one fails.
- A caught error whose text is empty is falsy too (src/index.ts:39, 52), so it
  is replaced by the synthesized "none found" message.
- If `HOME` (or `USERPROFILE` on `win32`) is undefined when the SDK path is
  guessed, `path.join` throws a `TypeError` outside any `try`.

## Model

| member | source | states |
|---|---|---|
| `Store.Current` | src/android.ts:25 | the persisted map when there is one, the empty map when the key is missing |
| `Store.Recorded` | src/android.ts:25-26 | the new history maps the launched id to the new timestamp, its keys are the old keys plus that id, every other key keeps its value, and a missing map counts as empty |
| `Store.RecordTwiceKeepsFirst` | src/android.ts:25-27 | recording two different ids one after the other: each reads back its own timestamp and all earlier entries survive |
| `Store.ConfigStore.constructor` | src/android.ts:10 | the store opens holding whatever history was persisted, with nothing issued yet |
| `Store.ConfigStore.Read` | src/ios.ts:16 | the persisted map, or the empty map when the key is missing |
| `Store.ConfigStore.Write` | src/ios.ts:18 | `config.set` replaces the whole persisted map and is logged as a write; the store stays valid |
| `Store.ConfigStore.Spawn` | src/ios.ts:20 | the raw capability of issuing a command: it is appended to the log and leaves the history alone (only the launch methods call it, right after a write) |
| `Android.Candidates` | src/android.ts:84-89 | the two probed paths are the SDK root joined with `/emulator/emulator` and with `/tools/emulator`, in that order |
| `Android.FirstExisting` | src/android.ts:86-94 | returns the index of the first existing candidate with every earlier one missing, or nothing when none exists |
| `Android.Probe` | src/android.ts:83-97 | an existing `/emulator/emulator` candidate is returned whatever the other one is; `/tools/emulator` only when the first is missing and it exists; failure iff neither exists, with the probe's literal message |
| `Android.FindEmulatorFromSdkPath` | src/android.ts:83-97 | the loop with early return computes exactly `Probe` |
| `Android.RootMessage` | src/android.ts:42-58 | the message for an SDK root without an emulator quotes that root and names the variable it came from |
| `Android.GuessMessage` | src/android.ts:76-78 | the message for a failed guess names both `$ANDROID_HOME` and `$ANDROID_SDK_ROOT` |
| `Android.Describe` | src/android.ts:42-78 | each locator failure becomes the error thrown for it: an `Error` naming `$ANDROID_HOME` and its root, `$ANDROID_SDK_ROOT` and its root, or both variables for a failed guess, and, for an undefined base variable, the `TypeError` of `path.join`, a Node internal error carrying the code `ERR_INVALID_ARG_TYPE`; its text is never empty |
| `Android.GuessedSdkRoot` | src/android.ts:63-72 | the guessed root is `USERPROFILE` joined with `/AppData/Local/Android/Sdk/` on `win32` and `HOME` joined with `/Library/Android/sdk/` elsewhere; none when that variable is undefined |
| `Android.EmulatorPath` | src/android.ts:36-81 | a located emulator path always exists on disk |
| `Android.AndroidHomeShadowsTheRest` | src/android.ts:38-48 | with `$ANDROID_HOME` truthy, `$ANDROID_SDK_ROOT`, the profile/home variables and the platform cannot change the result; success iff that root's probe succeeds, and then the path is exactly the one the probe returns (first match); the error names `$ANDROID_HOME` |
| `Android.SdkRootWhenHomeFalsy` | src/android.ts:49-59 | with `$ANDROID_HOME` unset or empty and `$ANDROID_SDK_ROOT` truthy, the guess is never consulted; success iff that root's probe succeeds, and then the path is exactly the one the probe returns; the error names `$ANDROID_SDK_ROOT` |
| `Android.GuessWhenNeitherSet` | src/android.ts:60-80 | with neither variable truthy the guessed root is probed, a success is exactly the path the probe returns and a failed probe gives the generic "please set" error; an undefined base variable gives the `path.join` TypeError |
| `Strings.Find` | src/android.ts:18 | returns the leftmost occurrence of the separator at or after the start index, or none when there is no occurrence |
| `Strings.SplitFrom` | src/android.ts:18 | `split` from a start index always yields at least one piece |
| `Splitting.Split` | src/android.ts:18 | `stdout.split(os.EOL)`: the pieces joined with the separator give back the text, no piece contains the separator, and for a separator that cannot overlap itself there is one piece more than there are positions where it occurs |
| `Strings.EolBorderFree` | src/android.ts:18 | both values of `os.EOL` (`\n` and `\r\n`) cannot overlap themselves, so the piece count applies to them |
| `Splitting.JoinSplitFrom` | src/android.ts:18 | joining the split pieces with the separator gives back the original text |
| `Strings.PositionsAfterFirst` | src/android.ts:18 | past the first occurrence of a separator that cannot overlap itself, exactly one occurrence position is left behind |
| `SplitCount.PiecesCount` | src/android.ts:18 | by induction over the occurrences: the number of pieces is the number of occurrence positions, plus one |
| `SplitCount.SplitFromCount` | src/android.ts:18 | for a separator that cannot overlap itself, the number of pieces is the number of positions where the separator occurs, plus one |
| `Splitting.SplitFromPiecesFree` | src/android.ts:18 | no piece contains the separator |
| `Android.AvdList` | src/android.ts:16-19 | empty output gives no AVDs; otherwise the AVDs joined with EOL rebuild the output, their count is the number of EOL positions plus one (for a border-free EOL), and none contains EOL |
| `Android.ListAvds` | src/android.ts:12-22 | a locator failure is thrown as its described error; otherwise a failing `-list-avds` run is rethrown; on success the list is the parsed output |
| `Android.GetAvds` | src/android.ts:12-22 | the method with its reassigned `avdList` computes exactly `ListAvds` |
| `Android.StartAvd` | src/android.ts:24-34 | the history maps the AVD to the timestamp with other keys unchanged; the write is logged before the `-avd` spawn; when no emulator is located the write still happens and nothing is spawned |
| `Ios.GetIOSSimulatorList` | src/ios.ts:6-13 | fails iff the platform is not `darwin`, with the macOS-only message; otherwise returns exactly one device, `iOS_Simulator` |
| `Ios.MissingHistoryIsEmpty` | src/ios.ts:16-17 | a missing history map behaves exactly like the empty map before the insertion |
| `Ios.StartIOSSimulator` | src/ios.ts:15-21 | the history maps the id to the timestamp with other keys unchanged, and it is written before `open -a Simulator.app` is issued |
| `Types.JsError.ToString` | src/index.ts:36 | `error.toString()`: for a plain error, `Error.prototype.toString` (the message alone when the name is empty, the name alone when the message is empty, otherwise the name, `": "` and the message; empty iff both are empty); for a Node internal error, the name, `" ["`, the code, `"]: "` and the message, never empty; these clauses fix the text completely |
| `Cli.PlatformError` | src/index.ts:31-41 | no error exactly when devices were found; a caught error with non-empty text is kept as is; any other kept text is the synthesized message; with a non-empty synthesized message the kept error is truthy iff nothing was found (same rule for iOS at src/index.ts:43-54) |
| `Cli.AvdOptions` | src/index.ts:56-59 | one option per AVD, in order, with name and id equal to the AVD and type `android` |
| `Cli.IosOptions` | src/index.ts:61-66 | one option per simulator, in order, named `iOS Simulator`, with type `ios` and the simulator as id |
| `Cli.SelectScope` | src/index.ts:68-95 | exits 1 iff the list the flags select is empty (both lists when no flag is given), printing that platform's error under a scope flag; a menu is never empty and offers only AVDs that were listed, named after themselves, and simulators that were listed, named `iOS Simulator` |
| `Cli.Decide` | src/index.ts:31-95 | every device a menu offers comes from a successful enumeration of its own platform; under a scope flag the exit message is never empty |
| `Cli.Run` | src/index.ts:28-96 | the imperative main flow, with its reassigned errors and lists, reaches exactly the decision `Decide` takes on the two enumeration outcomes |
| `Cli.AndroidScope` | src/index.ts:68-74 | with `-a`/`--android` the iOS outcome is irrelevant; the run exits 1 iff there is no AVD, printing the (non-null) Android error; otherwise the menu is the AVD options |
| `Cli.AndroidFlagsWin` | src/index.ts:68-75 | the Android flags are checked first: adding `-i`/`--ios` to them changes nothing |
| `Cli.IosScope` | src/index.ts:75-81 | with only `-i`/`--ios` the Android outcome is irrelevant; the run exits 1 iff there is no simulator, printing the iOS error; otherwise the menu is the iOS options |
| `Cli.Unscoped` | src/index.ts:82-95 | without a scope flag the run exits 1 iff both lists are empty, printing both errors; otherwise the menu is exactly the iOS options followed by the AVD options, names and values included |
| `Cli.AndroidFailureIsFatalInAndroidScope` | src/index.ts:68-72 | under `-a`, a failed Android enumeration exits 1 with the caught error's text (or the synthesized message when that text is empty) whatever iOS found |
| `Cli.FixedOrder` | src/index.ts:93 | AVDs `Pixel_5`, `Nexus_9` and the simulator are offered simulator first, then the AVDs as listed |
| `Cli.MenuAvdsAreLaunchable` | src/index.ts:118-119 | an AVD offered by the menu was listed on the same host, so the emulator is located again when it is started |
| `Cli.Choices` | src/index.ts:99-103 | the choice list is the options in order, then one separator, then `Exit` last; its length is the option count plus two |
| `Cli.ChoicesOffer` | src/index.ts:99-112 | the prompt can return exactly `Exit` or the value of one of the options; the separator cannot be picked |
| `Cli.DispatchAsWritten` | src/index.ts:114-123 | as written: `exit` quits, `android` starts the selected id, `ios` starts the simulator with the key `undefined` |
| `Cli.IosLaunchRecordsUndefinedKey` | src/index.ts:116 | picking the simulator through the dispatch as written records the launch under `undefined`, whatever was stored, and leaves the `iOS_Simulator` entry as it was (absent if it was absent) |
| `Cli.Dispatch` | src/index.ts:114-123 | `exit` iff quitting; `android` starts the AVD with the selected id; `ios` starts the simulator with the selected id |
| `Cli.ShowOptions` | src/index.ts:98-125 | runs the corrected dispatch (`Cli.Dispatch`, see Findings): `Exit` ends with code 0 and leaves history and log untouched; a device, the iOS Simulator included, is recorded under its own id and then launched, with the write logged before the spawn; a failed Android launch is an unhandled rejection |

## Findings

| source | as written | input that shows it | evidently intended | confidence | as-written member | corrected member |
|---|---|---|---|---|---|---|
| src/index.ts:116 | `startIOSSimulator()` is called without the selected id, so the history key is the property key of `undefined` | selecting the `iOS Simulator` entry (id `iOS_Simulator`) records the timestamp under `"undefined"` | pass `selectedOption.option.id`, as the Android branch does and as `startIOSSimulator(id: string)` declares | high (not executed) | `Cli.IosLaunchRecordsUndefinedKey` | `Cli.Dispatch` |

`Cli.ShowOptions` uses the corrected `Cli.Dispatch`. `Cli.DispatchAsWritten` keeps
the original behaviour.

## Left out

- Subprocesses are not modelled. The `-list-avds` run is an input (execa's
  `stdout`, trailing newline stripped, or its error). The emulator launch and `open -a Simulator.app` are log entries. A
  spawn that fails after it has been issued, and the detached/`unref` behaviour,
  are not modelled.
- `fs.access` is membership in a set of existing paths. `path.join` with
  `path.normalize` is an arbitrary function, so path normalisation itself is not
  modelled.
- The `Conf` store is an in-memory field. Its file format, location and
  concurrent writers are not modelled.
- `new Date().toString()` is a timestamp parameter.
- The command-line parser and help text are not modelled; the flags are a record.
  The prompt rendering is not modelled; its answer is an input that must be one
  of the menu's values.
- `process.exit` is a result value. `async`/`await` runs sequentially.
- `console.error` output is the `Exit1` message. The `TypeError` that `path.join`
  throws is a Node internal error rendered as `name [code]: message`; its message
  follows Node's wording, which is not part of the repository.
- `Android.EmulatorPath`: the model does not tell apart a rejected promise and a
  synchronous throw. Both are the `Err` result.
- `Cli.ShowOptions`: the exit code after an unhandled rejection depends on the
  Node version, so the model stops at `Unhandled(error)`.
- Ranking by usage history, the startup-options submenu and the `-s` flag do not
  exist in this code, so they are not modelled.
- The probe's own error text, `Couldn't to find the Android Emulator in ${sdkPath}`,
  is a plain string with no interpolation. Every caller replaces it, so it never
  reaches the user. `Android.Probe` keeps it verbatim.
