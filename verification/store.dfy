/** The persisted `Conf` store (project name `emus`) that both src/android.ts
    and src/ios.ts open, reduced to its one key `lastOpenedById`, together with
    the launch commands the process issues. */
module Store {
  import opened Wrappers

  /** `CliConfig.lastOpenedById`: device id to the timestamp of its last launch. */
  type History = map<string, string>

  /** What the process does to the outside world, in order: a write of the
      whole history back to the store, or a spawned command with its
      arguments. */
  datatype Event =
    | HistoryWritten(history: History)
    | Spawned(command: string, args: seq<string>)

  /** `config.get('lastOpenedById') || {}`: a missing history reads as empty. */
  function Current(stored: Option<History>): (h: History)
    ensures stored.None? ==> h == map[]
    ensures stored.Some? ==> h == stored.value
  {
    stored.GetOr(map[])
  }

  /** The read-modify-write `{ ...lastOpenedById, [id]: timestamp }`: `id`
      now maps to `timestamp`, and every other key keeps its entry. */
  function Recorded(stored: Option<History>, id: string, timestamp: string): (h: History)
    ensures id in h && h[id] == timestamp
    ensures h.Keys == Current(stored).Keys + {id}
    ensures forall k :: k in Current(stored) && k != id ==> h[k] == Current(stored)[k]
  {
    Current(stored)[id := timestamp]
  }

  /** Recording two different ids in a row: each reads back its own
      timestamp, and whatever else was stored is still there. */
  lemma RecordTwiceKeepsFirst(stored: Option<History>, first: string, t1: string, second: string, t2: string)
    requires first != second
    ensures var h := Recorded(Some(Recorded(stored, first, t1)), second, t2);
      h[first] == t1 && h[second] == t2 &&
      h.Keys == Current(stored).Keys + {first, second} &&
      forall k :: k in Current(stored) && k != first && k != second ==> h[k] == Current(stored)[k]
  {
  }

  /** Every spawned command comes right after a write of the history, and an
      emulator started with `-avd <id>` finds `<id>` in that written history. */
  ghost predicate SpawnsFollowWrites(events: seq<Event>) {
    forall i :: 0 <= i < |events| && events[i].Spawned? ==>
      0 < i && events[i - 1].HistoryWritten? &&
      (|events[i].args| == 2 && events[i].args[0] == "-avd" ==> events[i].args[1] in events[i - 1].history)
  }

  /** The store's contents and the log of effects the process has issued. */
  class ConfigStore {
    /** The persisted `lastOpenedById`; `None` when the key was never written. */
    var lastOpenedById: Option<History>
    /** Everything written to the store or spawned, oldest first. */
    var events: seq<Event>

    ghost predicate Valid()
      reads this
    {
      SpawnsFollowWrites(events)
    }

    constructor (stored: Option<History>)
      ensures Valid()
      ensures lastOpenedById == stored && events == []
    {
      lastOpenedById := stored;
      events := [];
    }

    /** `config.get('lastOpenedById') || {}`. */
    function Read(): (h: History)
      reads this
      ensures lastOpenedById.None? ==> h == map[]
      ensures lastOpenedById.Some? ==> h == lastOpenedById.value
    {
      Current(lastOpenedById)
    }

    /** `config.set('lastOpenedById', h)`: the whole map is written back. */
    method Write(h: History)
      requires Valid()
      modifies this
      ensures Valid()
      ensures lastOpenedById == Some(h)
      ensures events == old(events) + [HistoryWritten(h)]
    {
      lastOpenedById := Some(h);
      events := events + [HistoryWritten(h)];
    }

    /** A command handed to the subprocess capability. This is the raw
        capability and does not keep `Valid()` by itself: only the launch
        methods (`Android.StartAvd`, `Ios.StartIOSSimulator`) call it, each
        right after a `Write`, and they re-establish `Valid()`. */
    method Spawn(command: string, args: seq<string>)
      modifies this
      ensures lastOpenedById == old(lastOpenedById)
      ensures events == old(events) + [Spawned(command, args)]
    {
      events := events + [Spawned(command, args)];
    }
  }
}
