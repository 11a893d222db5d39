/** src/index.ts: the controller. It enumerates both platforms, turns each
    platform's outcome into an optional error text, narrows to the scope the
    flags request (or exits with code 1), offers the devices in a menu ending
    in a separator and `Exit`, and starts what the user picks. */
module Cli {
  import opened Wrappers
  import opened Types
  import opened Store
  import opened Android
  import opened Ios

  const NoAndroidEmulators: string := "Couldn't find any Android Emulators"
  const NoIosSimulators: string := "Couldn't find any iOS Simulators"

  /** The label every iOS device is shown with. */
  const IosLabel: string := "iOS Simulator"

  // ---------------------------------------------------------------------
  // Collecting the devices
  // ---------------------------------------------------------------------

  /** The list an enumeration leaves behind: its result, or the initial `[]`
      when it threw. */
  function Items(outcome: Result<seq<string>, JsError>): seq<string> {
    if outcome.Ok? then outcome.value else []
  }

  /** The error text kept for one platform (src/index.ts:31-41): the text
      of the thrown error; the synthesized `none` message when that text is
      falsy (`""`) or when the enumeration succeeded with nothing; no error
      (`null`) when it found devices. */
  function PlatformError(outcome: Result<seq<string>, JsError>, none: string): (e: Option<string>)
    ensures e.None? <==> Items(outcome) != []
    ensures outcome.Err? && outcome.error.ToString() != "" ==> e == Some(outcome.error.ToString())
    ensures e.Some? ==> e.value == none || (outcome.Err? && e.value == outcome.error.ToString())
    ensures none != "" ==> (Truthy(e) <==> Items(outcome) == [])
  {
    var caught := if outcome.Err? then Some(outcome.error.ToString()) else None;
    if !Truthy(caught) && |Items(outcome)| == 0 then Some(none) else caught
  }

  /** One menu option per AVD, in order, labelled with the AVD's own name. */
  function AvdOptions(avds: seq<string>): (options: seq<DeviceOption>)
    ensures |options| == |avds|
    ensures forall k :: 0 <= k < |avds| ==>
      options[k] == DeviceOption(avds[k], DeviceValue(avds[k], Android))
  {
    if avds == [] then []
    else [DeviceOption(avds[0], DeviceValue(avds[0], Android))] + AvdOptions(avds[1..])
  }

  /** One menu option per simulator, in order, all labelled `iOS Simulator`. */
  function IosOptions(simulators: seq<string>): (options: seq<DeviceOption>)
    ensures |options| == |simulators|
    ensures forall k :: 0 <= k < |simulators| ==>
      options[k] == DeviceOption(IosLabel, DeviceValue(simulators[k], Ios))
  {
    if simulators == [] then []
    else [DeviceOption(IosLabel, DeviceValue(simulators[0], Ios))] + IosOptions(simulators[1..])
  }

  /** How the run continues once the devices are known. */
  datatype Outcome =
      /** The message printed to stderr before `process.exit(1)`. */
    | Exit1(message: string)
      /** The options handed to `showOptions`. */
    | Menu(options: seq<DeviceOption>)

  /** A JavaScript value that is a string or `null`, as printed or
      interpolated. */
  function Show(e: Option<string>): string {
    if e.Some? then e.value else "null"
  }

  /** src/index.ts:68-95: the scope decision on the collected lists and
      errors. */
  function SelectScope(avds: seq<string>, androidError: Option<string>,
                       simulators: seq<string>, iosError: Option<string>, flags: CliFlags): (r: Outcome)
    ensures r.Exit1? <==>
      if flags.a || flags.android then avds == []
      else if flags.i || flags.ios then simulators == []
      else avds == [] && simulators == []
    ensures r.Menu? ==> r.options != []
    ensures r.Menu? ==> forall o | o in r.options ::
      (o.value.deviceType == Android && o.name == o.value.id && o.value.id in avds) ||
      (o.value.deviceType == Ios && o.name == IosLabel && o.value.id in simulators)
    ensures r.Exit1? && (flags.a || flags.android) ==> r.message == Show(androidError)
    ensures r.Exit1? && !(flags.a || flags.android) && (flags.i || flags.ios) ==> r.message == Show(iosError)
  {
    var avdOptions := AvdOptions(avds);
    var iosOptions := IosOptions(simulators);
    if flags.a || flags.android then
      if |avdOptions| == 0 then Exit1(Show(androidError)) else Menu(avdOptions)
    else if flags.i || flags.ios then
      if |iosOptions| == 0 then Exit1(Show(iosError)) else Menu(iosOptions)
    else if |avds| == 0 && |simulators| == 0 then
      Exit1("\n        " + Show(androidError) + "\n        " + Show(iosError) + "\n        ")
    else
      Menu(iosOptions + avdOptions)
  }

  /** The whole decision as a function of the two enumeration outcomes and
      the flags. */
  function Decide(android: Result<seq<string>, JsError>, ios: Result<seq<string>, JsError>,
                  flags: CliFlags): (r: Outcome)
    ensures r.Menu? ==> forall o | o in r.options ::
      if o.value.deviceType == Android then android.Ok? && o.value.id in android.value
      else ios.Ok? && o.value.id in ios.value
    ensures r.Exit1? && (flags.a || flags.android || flags.i || flags.ios) ==> r.message != ""
  {
    SelectScope(Items(android), PlatformError(android, NoAndroidEmulators),
                Items(ios), PlatformError(ios, NoIosSimulators), flags)
  }

  /** The main flow of src/index.ts up to the menu: both enumerations run,
      each failure is caught into that platform's error text, a successful
      but empty enumeration gets the synthesized message, and the scope
      decision follows. */
  method Run(h: Host, listing: Result<string, JsError>, eol: string, flags: CliFlags) returns (r: Outcome)
    requires |eol| > 0
    ensures r == Decide(ListAvds(h, listing, eol), GetIOSSimulatorList(h.env.platform), flags)
  {
    var androidError: Option<string> := None;
    var avds: seq<string> := [];
    var android := GetAvds(h, listing, eol);
    match android {
      case Ok(list) => avds := list;
      case Err(error) => androidError := Some(error.ToString());
    }
    if !Truthy(androidError) && |avds| == 0 {
      androidError := Some(NoAndroidEmulators);
    }
    assert avds == Items(android) && androidError == PlatformError(android, NoAndroidEmulators);

    var iosError: Option<string> := None;
    var simulators: seq<string> := [];
    match GetIOSSimulatorList(h.env.platform) {
      case Ok(list) => simulators := list;
      case Err(error) => iosError := Some(error.ToString());
    }
    if !Truthy(iosError) && |simulators| == 0 {
      iosError := Some(NoIosSimulators);
    }
    assert iosError == PlatformError(GetIOSSimulatorList(h.env.platform), NoIosSimulators);

    r := SelectScope(avds, androidError, simulators, iosError, flags);
  }

  /** With `-a`/`--android` only the AVDs matter: the iOS outcome changes
      nothing, the run exits 1 exactly when there is no AVD (printing the
      Android error, which is then never `null`), and otherwise the menu is
      the AVD options. */
  lemma AndroidScope(android: Result<seq<string>, JsError>, ios: Result<seq<string>, JsError>,
                     otherIos: Result<seq<string>, JsError>, flags: CliFlags)
    requires flags.a || flags.android
    ensures Decide(android, ios, flags) == Decide(android, otherIos, flags)
    ensures Decide(android, ios, flags).Exit1? <==> Items(android) == []
    ensures Decide(android, ios, flags).Exit1? ==>
      PlatformError(android, NoAndroidEmulators).Some? &&
      Decide(android, ios, flags).message == PlatformError(android, NoAndroidEmulators).value
    ensures Decide(android, ios, flags).Menu? ==>
      Decide(android, ios, flags).options == AvdOptions(Items(android))
  {
  }

  /** The Android flags are tested first: adding `-i`/`--ios` to them
      changes nothing. */
  lemma AndroidFlagsWin(android: Result<seq<string>, JsError>, ios: Result<seq<string>, JsError>, flags: CliFlags)
    requires flags.a || flags.android
    ensures Decide(android, ios, flags) == Decide(android, ios, flags.(i := false, ios := false))
  {
  }

  /** With `-i`/`--ios` and no Android flag, symmetrically, only the
      simulators matter. */
  lemma IosScope(android: Result<seq<string>, JsError>, otherAndroid: Result<seq<string>, JsError>,
                 ios: Result<seq<string>, JsError>, flags: CliFlags)
    requires !(flags.a || flags.android) && (flags.i || flags.ios)
    ensures Decide(android, ios, flags) == Decide(otherAndroid, ios, flags)
    ensures Decide(android, ios, flags).Exit1? <==> Items(ios) == []
    ensures Decide(android, ios, flags).Exit1? ==>
      PlatformError(ios, NoIosSimulators).Some? &&
      Decide(android, ios, flags).message == PlatformError(ios, NoIosSimulators).value
    ensures Decide(android, ios, flags).Menu? ==>
      Decide(android, ios, flags).options == IosOptions(Items(ios))
  {
  }

  /** Without a scope flag the run exits 1 only when both platforms came up
      empty, printing both (never `null`) errors; otherwise every iOS option
      comes first and every AVD option after it, each in enumeration order. */
  lemma Unscoped(android: Result<seq<string>, JsError>, ios: Result<seq<string>, JsError>, flags: CliFlags)
    requires !flags.a && !flags.android && !flags.i && !flags.ios
    ensures Decide(android, ios, flags).Exit1? <==> Items(android) == [] && Items(ios) == []
    ensures Decide(android, ios, flags).Exit1? ==>
      PlatformError(android, NoAndroidEmulators).Some? && PlatformError(ios, NoIosSimulators).Some? &&
      Decide(android, ios, flags).message ==
        "\n        " + PlatformError(android, NoAndroidEmulators).value +
        "\n        " + PlatformError(ios, NoIosSimulators).value + "\n        "
    ensures Decide(android, ios, flags).Menu? ==>
      Decide(android, ios, flags).options == IosOptions(Items(ios)) + AvdOptions(Items(android))
  {
  }

  /** Asking for Android only exits 1 when the Android enumeration failed,
      whatever the iOS enumeration found; the message is the caught error's
      text, or the synthesized message when that text is empty. */
  lemma AndroidFailureIsFatalInAndroidScope(android: Result<seq<string>, JsError>,
                                            ios: Result<seq<string>, JsError>, flags: CliFlags)
    requires flags.a || flags.android
    requires android.Err?
    ensures Decide(android, ios, flags) ==
      Exit1(if android.error.ToString() == "" then NoAndroidEmulators else android.error.ToString())
  {
  }

  /** The order is fixed and the usage history plays no part in it: two AVDs
      and the simulator are offered simulator first, then the AVDs as listed. */
  lemma FixedOrder()
    ensures Decide(Ok(["Pixel_5", "Nexus_9"]), Ok([SimulatorId]), CliFlags(false, false, false, false)) ==
      Menu([DeviceOption(IosLabel, DeviceValue(SimulatorId, Ios)),
            DeviceOption("Pixel_5", DeviceValue("Pixel_5", Android)),
            DeviceOption("Nexus_9", DeviceValue("Nexus_9", Android))])
  {
  }

  /** Any AVD the menu offers can be started: it was listed with the same
      environment, so the emulator that `startAVD` locates again is found. */
  lemma MenuAvdsAreLaunchable(h: Host, listing: Result<string, JsError>, eol: string, flags: CliFlags, k: nat)
    requires |eol| > 0
    requires Decide(ListAvds(h, listing, eol), GetIOSSimulatorList(h.env.platform), flags).Menu?
    requires k < |Decide(ListAvds(h, listing, eol), GetIOSSimulatorList(h.env.platform), flags).options|
    requires Decide(ListAvds(h, listing, eol), GetIOSSimulatorList(h.env.platform), flags).options[k].value.deviceType == Android
    ensures EmulatorPath(h).Ok?
  {
  }

  // ---------------------------------------------------------------------
  // The menu and the dispatch
  // ---------------------------------------------------------------------

  /** An entry of the prompt's list. */
  datatype Choice = Entry(option: DeviceOption) | Separator | ExitEntry

  /** The value the prompt returns: a device's value, or `{ type: 'exit' }`. */
  datatype Selection = Picked(value: DeviceValue) | PickedExit

  /** The options, then a separator, then `Exit`. */
  function Choices(options: seq<DeviceOption>): (choices: seq<Choice>)
    ensures |choices| == |options| + 2
    ensures forall k :: 0 <= k < |options| ==> choices[k] == Entry(options[k])
    ensures choices[|options|] == Separator
    ensures choices[|choices| - 1] == ExitEntry
  {
    seq(|options|, k requires 0 <= k < |options| => Entry(options[k])) + [Separator, ExitEntry]
  }

  /** Picking `choice` makes the prompt return `selection`; a separator
      cannot be picked. */
  predicate Offers(choice: Choice, selection: Selection) {
    match choice
    case Entry(option) => selection == Picked(option.value)
    case Separator => false
    case ExitEntry => selection == PickedExit
  }

  /** `selection` is something the prompt can return for `choices`. */
  predicate Selectable(choices: seq<Choice>, selection: Selection) {
    exists k :: 0 <= k < |choices| && Offers(choices[k], selection)
  }

  /** The menu offers exactly `Exit` and the values of the options. */
  lemma ChoicesOffer(options: seq<DeviceOption>, selection: Selection)
    ensures Selectable(Choices(options), selection) <==>
      selection == PickedExit ||
      (selection.Picked? && exists k :: 0 <= k < |options| && options[k].value == selection.value)
  {
  }

  /** What the launcher does with a selection. */
  datatype Action = StartAndroid(id: string) | StartIos(id: string) | Quit

  /** The key a JavaScript object literal gets from the computed key
      `undefined`. */
  const UndefinedKey: string := "undefined"

  /** src/index.ts:114-123 as written: the iOS branch calls
      `startIOSSimulator()` with no argument, so the id it records is
      `undefined`. */
  function DispatchAsWritten(selection: Selection): (a: Action)
    ensures selection == PickedExit <==> a == Quit
    ensures selection.Picked? && selection.value.deviceType == Android ==> a == StartAndroid(selection.value.id)
    ensures selection.Picked? && selection.value.deviceType == Ios ==> a == StartIos(UndefinedKey)
  {
    match selection
    case PickedExit => Quit
    case Picked(DeviceValue(id, Android)) => StartAndroid(id)
    case Picked(DeviceValue(_, Ios)) => StartIos(UndefinedKey)
  }

  /** Launching the simulator through the dispatch as written records the
      launch under the key `undefined`, whatever was stored: the simulator's
      own entry is not touched, so a store that never saw it still does not,
      and one that did keeps its old timestamp. */
  lemma IosLaunchRecordsUndefinedKey(stored: Option<History>, timestamp: string)
    ensures var a := DispatchAsWritten(Picked(DeviceValue(SimulatorId, Ios)));
      a.StartIos? && var h := Recorded(stored, a.id, timestamp);
      h[UndefinedKey] == timestamp &&
      (SimulatorId in h <==> SimulatorId in Current(stored)) &&
      (SimulatorId in h ==> h[SimulatorId] == Current(stored)[SimulatorId])
  {
  }

  /** The dispatch with the selected id passed on: `Exit` quits, a device is
      started under its own id. */
  function Dispatch(selection: Selection): (a: Action)
    ensures selection == PickedExit <==> a == Quit
    ensures selection.Picked? && selection.value.deviceType == Android ==> a == StartAndroid(selection.value.id)
    ensures selection.Picked? && selection.value.deviceType == Ios ==> a == StartIos(selection.value.id)
  {
    match selection
    case PickedExit => Quit
    case Picked(DeviceValue(id, Android)) => StartAndroid(id)
    case Picked(DeviceValue(id, Ios)) => StartIos(id)
  }

  /** How the process ends. */
  datatype Exit =
      /** `process.exit(code)`. */
    | ExitCode(code: int)
      /** The launch rejected; `showOptions` is not awaited, so the rejection
          is unhandled and `process.exit(0)` is never reached. */
    | Unhandled(error: JsError)

  /** src/index.ts `showOptions`: offer the choices, take the prompt's answer
      and carry it out. `Exit` touches nothing; a device is recorded in the
      history under its id and then started. */
  method ShowOptions(store: ConfigStore, h: Host, options: seq<DeviceOption>, selection: Selection, timestamp: string)
    returns (exit: Exit)
    requires store.Valid()
    requires Selectable(Choices(options), selection)
    modifies store
    ensures store.Valid()
    ensures selection == PickedExit ==> exit == ExitCode(0) && unchanged(store)
    ensures selection.Picked? ==>
      store.lastOpenedById == Some(Recorded(old(store.lastOpenedById), selection.value.id, timestamp))
    ensures selection.Picked? && selection.value.deviceType == Android ==>
      exit == (if EmulatorPath(h).Ok? then ExitCode(0) else Unhandled(Describe(EmulatorPath(h).error))) &&
      store.events == old(store.events) +
        [HistoryWritten(Recorded(old(store.lastOpenedById), selection.value.id, timestamp))] +
        (if EmulatorPath(h).Ok? then [Spawned(EmulatorPath(h).value, ["-avd", selection.value.id])] else [])
    ensures selection.Picked? && selection.value.deviceType == Ios ==>
      exit == ExitCode(0) &&
      store.events == old(store.events) +
        [HistoryWritten(Recorded(old(store.lastOpenedById), selection.value.id, timestamp)),
         Spawned("open", ["-a", "Simulator.app"])]
  {
    assert Selectable(Choices(options), selection);
    match Dispatch(selection) {
      case StartIos(id) =>
        StartIOSSimulator(store, id, timestamp);
        exit := ExitCode(0);
      case StartAndroid(id) =>
        var launched := StartAvd(store, h, id, timestamp);
        exit := if launched.Ok? then ExitCode(0) else Unhandled(Describe(launched.error));
      case Quit =>
        exit := ExitCode(0);
    }
  }
}
