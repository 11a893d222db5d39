/** src/ios.ts: the iOS Simulator is a single device, available on macOS
    only, started by opening the Simulator application. */
module Ios {
  import opened Wrappers
  import opened Types
  import opened Store

  /** The id of the one iOS device the launcher knows. */
  const SimulatorId: string := "iOS_Simulator"

  const OnlyOnMacOs: string := "The iOS Simulator is only available on macOS"

  /** src/ios.ts `getIOSSimulatorList`: fails on every platform but
      `darwin`; there, the list is the single simulator. */
  function GetIOSSimulatorList(platform: string): (r: Result<seq<string>, JsError>)
    ensures r.Err? <==> platform != "darwin"
    ensures r.Err? ==> r.error == JsError("Error", OnlyOnMacOs)
    ensures r.Ok? ==> |r.value| == 1 && r.value[0] == SimulatorId
  {
    if platform != "darwin" then Err(JsError("Error", OnlyOnMacOs))
    else Ok([SimulatorId])
  }

  /** A store that never held a history starts the read-modify-write from the
      empty map: the new history holds exactly the launched id. */
  lemma MissingHistoryIsEmpty(id: string, timestamp: string)
    ensures Recorded(None, id, timestamp) == map[id := timestamp]
    ensures Recorded(Some(map[]), id, timestamp) == Recorded(None, id, timestamp)
  {
  }

  /** src/ios.ts `startIOSSimulator`: record the launch of `id` in the
      history, write it back, and only then run `open -a Simulator.app`. */
  method StartIOSSimulator(store: ConfigStore, id: string, timestamp: string)
    requires store.Valid()
    modifies store
    ensures store.Valid()
    ensures store.lastOpenedById == Some(Recorded(old(store.lastOpenedById), id, timestamp))
    ensures store.events == old(store.events) +
      [HistoryWritten(Recorded(old(store.lastOpenedById), id, timestamp)), Spawned("open", ["-a", "Simulator.app"])]
  {
    var lastOpenedById := store.Read();
    lastOpenedById := lastOpenedById[id := timestamp];
    store.Write(lastOpenedById);

    store.Spawn("open", ["-a", "Simulator.app"]);
  }
}
