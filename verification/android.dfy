/** src/android.ts: locating the Android emulator binary, listing the
    Android Virtual Devices (AVDs) and starting one. */
module Android {
  import opened Wrappers
  import opened Types
  import opened Store
  import opened Strings
  import opened Splitting

  // ---------------------------------------------------------------------
  // Locating the emulator binary
  // ---------------------------------------------------------------------

  /** The part of `process.env` and `process.platform` the locator reads.
      An unset variable is `None`. */
  datatype Env = Env(
    androidHome: Option<string>,
    androidSdkRoot: Option<string>,
    userProfile: Option<string>,
    home: Option<string>,
    platform: string)

  /** What the locator can observe of the machine: the environment, the set
      of paths `fs.access` accepts, and `path.normalize(path.join(a, b))`. */
  datatype Host = Host(env: Env, existing: set<string>, join: (string, string) -> string)

  /** JavaScript truthiness of an environment variable: set and non-empty. */
  predicate Truthy(v: Option<string>) {
    v.Some? && v.value != ""
  }

  /** The two layouts of the emulator binary under an SDK root, in the order
      they are tried. */
  const EmulatorLayouts: seq<string> := ["/emulator/emulator", "/tools/emulator"]

  /** The default SDK roots guessed relative to the user's profile or home. */
  const WindowsSdkSuffix: string := "/AppData/Local/Android/Sdk/"
  const UnixSdkSuffix: string := "/Library/Android/sdk/"

  /** The message `findEmulatorFromSdkPath` throws. It is a plain string
      literal, so `${sdkPath}` is not substituted; every caller replaces it. */
  const ProbeFailure: string := "Couldn't to find the Android Emulator in ${sdkPath}"

  /** The candidate binaries under `sdkPath`, in probing order. */
  function Candidates(h: Host, sdkPath: string): (cs: seq<string>)
    ensures |cs| == |EmulatorLayouts|
    ensures forall i :: 0 <= i < |cs| ==> cs[i] == h.join(sdkPath, EmulatorLayouts[i])
  {
    [h.join(sdkPath, EmulatorLayouts[0]), h.join(sdkPath, EmulatorLayouts[1])]
  }

  /** The index of the first path of `cs` from `from` on that exists. */
  function FirstExisting(cs: seq<string>, existing: set<string>, from: nat): (r: Option<nat>)
    requires from <= |cs|
    ensures r.Some? ==> from <= r.value < |cs| && cs[r.value] in existing
    ensures r.Some? ==> forall j :: from <= j < r.value ==> cs[j] !in existing
    ensures r.None? ==> forall j :: from <= j < |cs| ==> cs[j] !in existing
    decreases |cs| - from
  {
    if from == |cs| then None
    else if cs[from] in existing then Some(from)
    else FirstExisting(cs, existing, from + 1)
  }

  /** `findEmulatorFromSdkPath` as a value: the first candidate that exists,
      or the probe's own error. */
  function Probe(h: Host, sdkPath: string): (r: Result<string, string>)
    ensures r.Ok? ==> r.value in h.existing
    ensures Candidates(h, sdkPath)[0] in h.existing ==> r == Ok(Candidates(h, sdkPath)[0])
    ensures Candidates(h, sdkPath)[0] !in h.existing && Candidates(h, sdkPath)[1] in h.existing ==>
      r == Ok(Candidates(h, sdkPath)[1])
    ensures r.Ok? && r.value != Candidates(h, sdkPath)[0] ==>
      r.value == Candidates(h, sdkPath)[1] && Candidates(h, sdkPath)[0] !in h.existing
    ensures r.Err? <==> Candidates(h, sdkPath)[0] !in h.existing && Candidates(h, sdkPath)[1] !in h.existing
    ensures r.Err? ==> r.error == ProbeFailure
  {
    var cs := Candidates(h, sdkPath);
    match FirstExisting(cs, h.existing, 0)
    case Some(i) => Ok(cs[i])
    case None => Err(ProbeFailure)
  }

  /** src/android.ts `findEmulatorFromSdkPath`: try each layout in turn and
      return the first one that exists. */
  method FindEmulatorFromSdkPath(h: Host, sdkPath: string) returns (r: Result<string, string>)
    ensures r == Probe(h, sdkPath)
  {
    var emulatorPaths := EmulatorLayouts;
    for i := 0 to |emulatorPaths|
      invariant forall j :: 0 <= j < i ==> h.join(sdkPath, emulatorPaths[j]) !in h.existing
    {
      var emulatorFullPath := h.join(sdkPath, emulatorPaths[i]);
      if emulatorFullPath in h.existing {
        return Ok(emulatorFullPath);
      }
    }
    return Err(ProbeFailure);
  }

  /** Why no emulator binary was found. */
  datatype LocateError =
      /** `$ANDROID_HOME` is set but holds no emulator. */
    | AndroidHomeInvalid(root: string)
      /** `$ANDROID_SDK_ROOT` is set, `$ANDROID_HOME` is not, and it holds no emulator. */
    | SdkRootInvalid(root: string)
      /** Neither variable is set and the guessed root holds no emulator. */
    | SdkNotGuessed
      /** Neither variable is set and the profile or home variable that the
          guess joins onto is undefined: `path.join` rejects it, outside any
          `try`. */
    | PathArgumentUndefined

  const AndroidHomeVar: string := "$ANDROID_HOME"
  const SdkRootVar: string := "$ANDROID_SDK_ROOT"
  /** The code and message of the `TypeError` that `path.join` throws for an
      undefined argument. */
  const InvalidArgType: string := "ERR_INVALID_ARG_TYPE"
  const UndefinedPathMessage: string := "The \"path\" argument must be of type string. Received undefined"

  /** The message thrown when the SDK root named by `variable` holds no
      emulator: it quotes the root and names the variable. */
  function RootMessage(variable: string, root: string): (m: string)
    ensures Mentions(m, variable) && Mentions(m, root)
  {
    var before := "\n        Couldn't find the Android Emulator in: '";
    var middle := "'\n        Make sure your ";
    var after := " environment variable is pointed to the correct SDK installation directory.\n        ";
    MentionsBoth(before, root, middle, variable, after);
    before + root + middle + variable + after
  }

  /** The message thrown when the guessed root holds no emulator: it names
      both variables. */
  function GuessMessage(): (m: string)
    ensures Mentions(m, AndroidHomeVar) && Mentions(m, SdkRootVar)
  {
    var before := "Unable to locate the Android SDK, please set the ";
    var after := " environment variable.";
    MentionsBoth(before, AndroidHomeVar, " or ", SdkRootVar, after);
    before + AndroidHomeVar + " or " + SdkRootVar + after
  }

  /** The error thrown for each way of failing: a plain `Error` naming the
      variable (and quoting the root) that was used, or the `TypeError` of
      `path.join`. Its text is never empty. */
  function Describe(e: LocateError): (r: JsError)
    ensures r.name == if e.PathArgumentUndefined? then "TypeError" else "Error"
    ensures r.ToString() != ""
    ensures r.NodeError? <==> e.PathArgumentUndefined?
    ensures r.NodeError? ==> r.code == InvalidArgType
    ensures e.AndroidHomeInvalid? ==> Mentions(r.message, AndroidHomeVar) && Mentions(r.message, e.root)
    ensures e.SdkRootInvalid? ==> Mentions(r.message, SdkRootVar) && Mentions(r.message, e.root)
    ensures e.SdkNotGuessed? ==> Mentions(r.message, AndroidHomeVar) && Mentions(r.message, SdkRootVar)
  {
    match e
    case AndroidHomeInvalid(root) => JsError("Error", RootMessage(AndroidHomeVar, root))
    case SdkRootInvalid(root) => JsError("Error", RootMessage(SdkRootVar, root))
    case SdkNotGuessed => JsError("Error", GuessMessage())
    case PathArgumentUndefined =>
      NodeError("TypeError", InvalidArgType, UndefinedPathMessage)
  }

  /** The SDK root guessed when neither variable is set: under `USERPROFILE`
      on `win32`, under `HOME` elsewhere; `None` when that variable is unset. */
  function GuessedSdkRoot(h: Host): (r: Option<string>)
    ensures h.env.platform == "win32" ==>
      r == if h.env.userProfile.Some? then Some(h.join(h.env.userProfile.value, WindowsSdkSuffix)) else None
    ensures h.env.platform != "win32" ==>
      r == if h.env.home.Some? then Some(h.join(h.env.home.value, UnixSdkSuffix)) else None
  {
    var base := if h.env.platform == "win32" then h.env.userProfile else h.env.home;
    var suffix := if h.env.platform == "win32" then WindowsSdkSuffix else UnixSdkSuffix;
    if base.Some? then Some(h.join(base.value, suffix)) else None
  }

  /** src/android.ts `getAndroidEmulatorPath`. */
  function EmulatorPath(h: Host): (r: Result<string, LocateError>)
    ensures r.Ok? ==> r.value in h.existing
  {
    if Truthy(h.env.androidHome) then
      match Probe(h, h.env.androidHome.value)
      case Ok(p) => Ok(p)
      case Err(_) => Err(AndroidHomeInvalid(h.env.androidHome.value))
    else if Truthy(h.env.androidSdkRoot) then
      match Probe(h, h.env.androidSdkRoot.value)
      case Ok(p) => Ok(p)
      case Err(_) => Err(SdkRootInvalid(h.env.androidSdkRoot.value))
    else
      match GuessedSdkRoot(h)
      case None => Err(PathArgumentUndefined)
      case Some(sdkPath) =>
        match Probe(h, sdkPath)
        case Ok(p) => Ok(p)
        case Err(_) => Err(SdkNotGuessed)
  }

  /** With `$ANDROID_HOME` set, only that root is probed: changing
      `$ANDROID_SDK_ROOT`, the profile and home variables or the platform
      changes nothing, and a failure names `$ANDROID_HOME`. */
  lemma AndroidHomeShadowsTheRest(h: Host, sdkRoot: Option<string>, userProfile: Option<string>,
                                  home: Option<string>, platform: string)
    requires Truthy(h.env.androidHome)
    ensures var h' := h.(env := h.env.(androidSdkRoot := sdkRoot, userProfile := userProfile,
                                       home := home, platform := platform));
      EmulatorPath(h') == EmulatorPath(h)
    ensures EmulatorPath(h).Ok? <==> Probe(h, h.env.androidHome.value).Ok?
    ensures EmulatorPath(h).Ok? ==> EmulatorPath(h).value == Probe(h, h.env.androidHome.value).value
    ensures EmulatorPath(h).Err? ==> EmulatorPath(h).error == AndroidHomeInvalid(h.env.androidHome.value)
  {
  }

  /** `$ANDROID_SDK_ROOT` is consulted exactly when `$ANDROID_HOME` is unset or
      empty; the guess is then never made, and a failure names
      `$ANDROID_SDK_ROOT`. */
  lemma SdkRootWhenHomeFalsy(h: Host, userProfile: Option<string>, home: Option<string>, platform: string)
    requires !Truthy(h.env.androidHome) && Truthy(h.env.androidSdkRoot)
    ensures var h' := h.(env := h.env.(userProfile := userProfile, home := home, platform := platform));
      EmulatorPath(h') == EmulatorPath(h)
    ensures EmulatorPath(h).Ok? <==> Probe(h, h.env.androidSdkRoot.value).Ok?
    ensures EmulatorPath(h).Ok? ==> EmulatorPath(h).value == Probe(h, h.env.androidSdkRoot.value).value
    ensures EmulatorPath(h).Err? ==> EmulatorPath(h).error == SdkRootInvalid(h.env.androidSdkRoot.value)
  {
  }

  /** With neither variable set, the probed root is the guessed one, and a
      failed probe gives the generic "please set" error. */
  lemma GuessWhenNeitherSet(h: Host)
    requires !Truthy(h.env.androidHome) && !Truthy(h.env.androidSdkRoot)
    ensures GuessedSdkRoot(h).None? ==> EmulatorPath(h) == Err(PathArgumentUndefined)
    ensures GuessedSdkRoot(h).Some? ==>
      (EmulatorPath(h).Ok? <==> Probe(h, GuessedSdkRoot(h).value).Ok?) &&
      (EmulatorPath(h).Ok? ==> EmulatorPath(h).value == Probe(h, GuessedSdkRoot(h).value).value) &&
      (EmulatorPath(h).Err? ==> EmulatorPath(h).error == SdkNotGuessed)
  {
  }

  // ---------------------------------------------------------------------
  // Listing the AVDs: `stdout.split(os.EOL)`
  // ---------------------------------------------------------------------

  /** src/android.ts:16-19: no output gives no AVDs; otherwise the output is
      split on the end-of-line marker, which the pieces then do not contain
      and which joins them back into the output. */
  function AvdList(stdout: string, eol: string): (avds: seq<string>)
    requires |eol| > 0
    ensures stdout == "" ==> avds == []
    ensures stdout != "" ==> Join(avds, eol) == stdout
    ensures stdout != "" && BorderFree(eol) ==> |avds| == |Positions(stdout, eol, 0)| + 1
    ensures forall k, j :: 0 <= k < |avds| ==> !OccursAt(avds[k], eol, j)
  {
    if |stdout| > 0 then Split(stdout, eol) else []
  }

  /** What `getAVDs` resolves to or throws, given the outcome of running
      `<emulator> -list-avds`: the `stdout` that execa reports, with the
      final newline already stripped, or the error the run fails with. */
  function ListAvds(h: Host, listing: Result<string, JsError>, eol: string): (r: Result<seq<string>, JsError>)
    requires |eol| > 0
    ensures EmulatorPath(h).Err? ==> r == Err(Describe(EmulatorPath(h).error))
    ensures EmulatorPath(h).Ok? && listing.Err? ==> r == Err(listing.error)
    ensures r.Ok? <==> EmulatorPath(h).Ok? && listing.Ok?
    ensures r.Ok? ==> r.value == AvdList(listing.value, eol)
  {
    match EmulatorPath(h)
    case Err(e) => Err(Describe(e))
    case Ok(_) =>
      match listing
      case Err(e) => Err(e)
      case Ok(stdout) => Ok(AvdList(stdout, eol))
  }

  /** src/android.ts `getAVDs`. */
  method GetAvds(h: Host, listing: Result<string, JsError>, eol: string) returns (r: Result<seq<string>, JsError>)
    requires |eol| > 0
    ensures r == ListAvds(h, listing, eol)
  {
    var emulatorPath := EmulatorPath(h);
    if emulatorPath.Err? {
      return Err(Describe(emulatorPath.error));
    }
    if listing.Err? {
      return Err(listing.error);
    }
    var stdout := listing.value;
    var avdList := [];
    if |stdout| > 0 {
      avdList := Split(stdout, eol);
    }
    return Ok(avdList);
  }

  // ---------------------------------------------------------------------
  // Starting an AVD
  // ---------------------------------------------------------------------

  /** src/android.ts `startAVD`: record the launch in the history, then
      locate the emulator and spawn `<emulator> -avd <avd>`. When the
      emulator cannot be located the history has still been written and
      nothing is spawned. */
  method StartAvd(store: ConfigStore, h: Host, avd: string, timestamp: string)
    returns (r: Result<string, LocateError>)
    requires store.Valid()
    modifies store
    ensures store.Valid()
    ensures store.lastOpenedById == Some(Recorded(old(store.lastOpenedById), avd, timestamp))
    ensures r == EmulatorPath(h)
    ensures store.events == old(store.events) + [HistoryWritten(Recorded(old(store.lastOpenedById), avd, timestamp))] +
      (if r.Ok? then [Spawned(r.value, ["-avd", avd])] else [])
  {
    var lastOpenedById := store.Read();
    lastOpenedById := lastOpenedById[avd := timestamp];
    store.Write(lastOpenedById);

    r := EmulatorPath(h);
    if r.Ok? {
      store.Spawn(r.value, ["-avd", avd]);
    }
  }
}
