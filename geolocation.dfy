/**
 * `useGeoLocation(options, watch)`: a record `{loading, coordinates, error,
 * isWatching}` that the geolocation callbacks update. The effect either
 * reports that geolocation is unsupported, or registers a watch (watch mode)
 * or a one-shot request, and its cleanup clears the watch it registered.
 */
module GeoLocation {
  import opened Optional

  /** `position.coords`, as the native API reports it. */
  datatype Coordinates = Coordinates(latitude: real, longitude: real, accuracy: real)

  /** `CustomGeoLocationError`: its name, message and numeric code. */
  datatype GeoError = GeoError(name: string, message: string, code: int)

  datatype GeoState = GeoState(
    loading: bool,
    coordinates: Option<Coordinates>,
    error: Option<GeoError>,
    isWatching: bool)

  const ErrorName := "CustomGeoLocationError"
  const UnsupportedMessage := "Geolocation is not supported by this browser."
  const UnsupportedCode := 0

  /** `new CustomGeoLocationError(message, code)`. */
  function NewGeoError(message: string, code: int): (e: GeoError)
    ensures e.name == ErrorName && e.message == message && e.code == code
  {
    GeoError(ErrorName, message, code)
  }

  /** The state before any callback: loading, nothing known, `isWatching` from `watch`. */
  function Initial(watch: bool): (s: GeoState)
    ensures s.loading && s.coordinates.None? && s.error.None? && s.isWatching == watch
  {
    GeoState(true, None, None, watch)
  }

  /** The `onSuccess` updater. */
  function OnSuccess(prev: GeoState, coords: Coordinates): (s: GeoState)
    ensures !s.loading && s.coordinates == Some(coords) && s.error.None?
    ensures s.isWatching == prev.isWatching
  {
    prev.(loading := false, coordinates := Some(coords), error := None)
  }

  /** The `onError` updater: the native error's message and code are carried over. */
  function OnError(prev: GeoState, message: string, code: int): (s: GeoState)
    ensures !s.loading && s.coordinates.None?
    ensures s.error == Some(GeoError(ErrorName, message, code))
    ensures s.isWatching == prev.isWatching
  {
    prev.(loading := false, coordinates := None, error := Some(NewGeoError(message, code)))
  }

  /** The state set when `navigator.geolocation` is missing. */
  function Unsupported(): (s: GeoState)
    ensures !s.loading && s.coordinates.None? && !s.isWatching
    ensures s.error == Some(GeoError(ErrorName, UnsupportedMessage, 0))
  {
    GeoState(false, None, Some(NewGeoError(UnsupportedMessage, UnsupportedCode)), false)
  }

  /** A callback the native API makes: a position or an error. */
  datatype Report = Position(coords: Coordinates) | Failure(message: string, code: int)

  function Apply(prev: GeoState, r: Report): GeoState
  {
    match r
    case Position(c) => OnSuccess(prev, c)
    case Failure(m, c) => OnError(prev, m, c)
  }

  function ApplyAll(prev: GeoState, reports: seq<Report>): GeoState
    decreases |reports|
  {
    if reports == [] then prev else ApplyAll(Apply(prev, reports[0]), reports[1..])
  }

  /** Not loading, and never both coordinates and an error. */
  predicate Settled(s: GeoState)
  {
    !s.loading && !(s.coordinates.Some? && s.error.Some?)
  }

  /**
   * After one or more callbacks the state is settled, reflects the last
   * report, and `isWatching` is still the value it started with.
   */
  lemma {:induction false} ReportsSettle(prev: GeoState, reports: seq<Report>)
    requires |reports| >= 1
    ensures var s := ApplyAll(prev, reports);
            Settled(s) && s.isWatching == prev.isWatching
    ensures var s, last := ApplyAll(prev, reports), reports[|reports| - 1];
            s.coordinates == (if last.Position? then Some(last.coords) else None) &&
            s.error == (if last.Failure? then Some(NewGeoError(last.message, last.code)) else None)
    decreases |reports|
  {
    if |reports| > 1 {
      ReportsSettle(Apply(prev, reports[0]), reports[1..]);
    }
  }

  /** Any run of callbacks, the empty one included, keeps `isWatching`; the empty one changes nothing. */
  lemma {:induction false} ReportsPreserveWatching(prev: GeoState, reports: seq<Report>)
    ensures ApplyAll(prev, reports).isWatching == prev.isWatching
    ensures reports == [] ==> ApplyAll(prev, reports) == prev
    decreases |reports|
  {
    if reports != [] {
      ReportsPreserveWatching(Apply(prev, reports[0]), reports[1..]);
    }
  }

  /**
   * The hook with the `navigator.geolocation` port: whether it is `supported`,
   * the set of active watch ids, the next id it hands out and the number of
   * one-shot requests made so far.
   * `watcher` is the effect's local `watcher`, and `hasCleanup` says whether
   * the effect returned a cleanup function.
   */
  class GeoLocationHook {
    const watch: bool
    const supported: bool
    var state: GeoState
    var watcher: Option<nat>
    var hasCleanup: bool
    var activeWatches: set<nat>
    var nextWatchId: nat
    var requestsMade: nat

    ghost predicate Valid()
      reads this
    {
      (forall id :: id in activeWatches ==> id < nextWatchId) &&
      (watcher.Some? ==> watcher.value in activeWatches && watch && hasCleanup)
    }

    /** First render: the `useState` initial value; the effect has not run. */
    constructor (watch: bool, supported: bool, activeWatches: set<nat>, nextWatchId: nat)
      requires forall id :: id in activeWatches ==> id < nextWatchId
      ensures Valid() && this.watch == watch && this.supported == supported
      ensures state == Initial(watch) && watcher.None? && !hasCleanup
      ensures this.activeWatches == activeWatches && this.nextWatchId == nextWatchId
    {
      this.watch := watch;
      this.supported := supported;
      state := Initial(watch);
      watcher := None;
      hasCleanup := false;
      this.activeWatches := activeWatches;
      this.nextWatchId := nextWatchId;
      requestsMade := 0;
    }

    /** The effect body. */
    method Setup()
      requires Valid() && !hasCleanup
      modifies this
      ensures Valid()
      ensures !supported ==> state == Unsupported() && !hasCleanup && watcher.None?
      ensures !supported ==>
                activeWatches == old(activeWatches) && requestsMade == old(requestsMade) &&
                nextWatchId == old(nextWatchId)
      ensures supported ==> state == old(state) && hasCleanup
      ensures supported && watch ==>
                watcher == Some(old(nextWatchId)) && old(nextWatchId) !in old(activeWatches) &&
                activeWatches == old(activeWatches) + {old(nextWatchId)} &&
                requestsMade == old(requestsMade)
      ensures supported && !watch ==>
                watcher.None? && activeWatches == old(activeWatches) &&
                requestsMade == old(requestsMade) + 1 && nextWatchId == old(nextWatchId)
    {
      if !supported {
        state := Unsupported();
        watcher := None;
        hasCleanup := false;
        return;
      }
      watcher := None;
      if watch {
        var id := nextWatchId;
        activeWatches := activeWatches + {id};
        nextWatchId := nextWatchId + 1;
        watcher := Some(id);
      } else {
        requestsMade := requestsMade + 1;
      }
      hasCleanup := true;
    }

    /** The cleanup, if the effect returned one: clear the watch it registered. */
    method Teardown()
      requires Valid()
      modifies this
      ensures Valid() && !hasCleanup && watcher.None?
      ensures state == old(state) && requestsMade == old(requestsMade) && nextWatchId == old(nextWatchId)
      ensures old(hasCleanup) && old(watcher).Some? ==> activeWatches == old(activeWatches) - {old(watcher).value}
      ensures !(old(hasCleanup) && old(watcher).Some?) ==> activeWatches == old(activeWatches)
    {
      if hasCleanup {
        match watcher
        case Some(id) => activeWatches := activeWatches - {id};
        case None =>
      }
      hasCleanup := false;
      watcher := None;
    }

    /** The native API calls `onSuccess` with a position. */
    method Success(coords: Coordinates)
      modifies this`state
      ensures state == OnSuccess(old(state), coords)
    {
      state := OnSuccess(state, coords);
    }

    /** The native API calls `onError` with its error. */
    method Error(message: string, code: int)
      modifies this`state
      ensures state == OnError(old(state), message, code)
    {
      state := OnError(state, message, code);
    }
  }

  /** A full watch-mode lifecycle leaves the set of active watches as it was. */
  method WatchLifecycle(h: GeoLocationHook)
    requires h.Valid() && !h.hasCleanup && h.watch && h.supported
    modifies h
    ensures h.Valid() && h.activeWatches == old(h.activeWatches)
  {
    h.Setup();
    h.Teardown();
  }
}
