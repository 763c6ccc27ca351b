# react-custom-hooks-utils, modelled in Dafny

A model of the pieces of real logic inside a small collection of React hooks:

- `useCookie`: the lookup of a key in the `document.cookie` string (rows
  separated by "; ", the cookie-string form of section 5.4 of RFC 6265) and
  `updateCookie`, which writes `key=value; expires=<date>; path=/` (the
  Set-Cookie attribute syntax of section 4.1.1 of RFC 6265) and the hook's
  local mirror (`cookie.dfy`, on top of JavaScript's `split` and `startsWith`
  in `strings.dfy`).
- `useThrottle`: the returned gate over the `lastCall` ref (`throttle.dfy`).
- `useKeyPress`: the pressed/released state driven by keydown and keyup, and
  the effect's listener registration on `window` (`keypress.dfy`).
- `useGeoLocation`: `CustomGeoLocationError`, the `{loading, coordinates,
  error, isWatching}` record and its updaters, and the effect's unsupported,
  watch and one-shot branches with the cleanup (`geolocation.dfy`).
- `useDarkMode`: the initial value, the effect that syncs the root `dark`
  class and `localStorage.theme`, and the toggle (`darkmode.dfy`).
- `useDocumentTitle`: the render-time `defaultTitle`, the effect's write and
  the cleanup's conditional revert (`documenttitle.dfy`).
- `Each`: the non-array guard and the indexed map (`each.dfy`).

Browser state is held explicitly in class fields: the cookie jar as a string,
`localStorage` as a map, the root element's classes as a set, the document
title as a string, `window`'s listener registry as a ghost multiset, and the
geolocation service as a set of active watch ids. Time is an integer
parameter. A `useEffect` body and its cleanup are the methods `Setup` (or
`Sync`) and `Teardown`, called in sequence; a native callback is a method
call. Pure updaters are functions, and the properties relating several calls
are lemmas about them.

## Model

| member | source | states |
|---|---|---|
| Strings.StartsWith | src/useCookie.js:7 | `startsWith`: the string's first `|p|` characters are `p` |
| Strings.Split | src/useCookie.js:6 | `split` with a non-empty separator: the first piece is the longest prefix in which no separator starts, and it ends at the end of the string or at a separator |
| Strings.JoinSplit | src/useCookie.js:6 | splitting loses nothing: joining the pieces with the separator gives back the string |
| Strings.SplitAfterPiece | src/useCookie.js:6 | a separator written after a piece free of separators ends that piece: `split(a + sep + b) == [a] + split(b)` |
| Strings.SplitWithoutSeparator | src/useCookie.js:6 | a string in which no separator starts splits into itself alone |
| Strings.SplitAtOccurrence | src/useCookie.js:8 | a row that contains '=' splits on '=' into at least two pieces, so `[1]` is always defined for a matched row |
| Cookie.FindFirst | src/useCookie.js:7 | `find` gives the first row starting with the prefix, all earlier rows do not; it finds nothing exactly when no row starts with it |
| Cookie.RowValue | src/useCookie.js:8 | for a key without '=', the value is the text after `key=` up to the next '=' or the end of the row, and holds no '=' |
| Cookie.RowValueForAnyKey | src/useCookie.js:8 | for every key, '=' inside it included, the value is the text between the row's first '=' and the next '=' or the end of the row |
| Cookie.Lookup | src/useCookie.js:4-9 | when no "; "-separated row starts with `key=`, the lookup yields `initialValue` |
| Cookie.LookupFirstMatch | src/useCookie.js:5-8 | when several rows start with `key=`, the first in string order gives the value |
| Cookie.ValueTruncatedAtEquals | src/useCookie.js:8 | for a key without '=', `key=a=b` yields `a`: a value containing '=' is truncated |
| Cookie.ValueIsRestOfRow | src/useCookie.js:8 | for a key without '=', `key=v` with `v` free of '=' yields `v`, and `key=` yields "" |
| Cookie.EmptyValueIsKept | src/useCookie.js:5-8 | for a key free of '=' and of "; ", a first row `key=` yields "", not `initialValue` |
| Cookie.EmptyOnlyRowIsKept | src/useCookie.js:5-8 | for a key free of '=' and of "; ", a jar that is only the row `key=` yields "", not `initialValue` |
| Cookie.FirstRowForKeyReadBack | src/useCookie.js:5-8 | round trip for any jar: when the first row starting with `key=` is `key=value` (key and value free of '='), the lookup gives back `value` |
| Cookie.LongerKeyNotMatched | src/useCookie.js:7 | a row `keyX=...` for a longer key does not match `key`, since the prefix it checks includes '=' |
| Cookie.SetCookieString | src/useCookie.js:15 | the written string starts with `key=value; expires=` and ends with `; path=/` |
| Cookie.WrittenCookieReadBack | src/useCookie.js:4-15 | round trip: looking `key` up in the string `updateCookie` writes gives back `value` when key and value hold no '=' and no "; " |
| Cookie.CookieHook.constructor | src/useCookie.js:4-9 | the hook's state starts as the lookup of `key` in the jar |
| Cookie.CookieHook.UpdateCookie | src/useCookie.js:11-17 | the jar becomes exactly `key=value; expires=<date>; path=/`, the mirror becomes `value`; when key and value hold no '=' and no "; ", reading the jar back agrees with the mirror (a value holding '=' reads back truncated) |
| Cookie.CookieHook.UpdateCookieDefault | src/useCookie.js:11-16 | without `daysToExpire` the expiry is seven days from now |
| Throttle.Fires | src/useThrottle.js:8 | the gate: a call at `now` fires when `now - lastCall >= delay`, boundary included |
| Throttle.FiredTimesSnoc | src/useThrottle.js:8-10 | one more call at `now` fires exactly when `now - lastCall >= delay`, becoming the new `lastCall`; a dropped call changes neither the fired calls nor `lastCall` |
| Throttle.LastFiredIsLastOfFired | src/useThrottle.js:8-9 | the ref holds the time of the last fired call, or 0 when none fired |
| Throttle.FiredAreSpaced | src/useThrottle.js:8-9 | invariant: consecutive fired calls are at least `delay` apart, the first at least `delay` after the start |
| Throttle.SpacedPairwise | src/useThrottle.js:8-9 | with `delay >= 0`, any two fired calls are at least `delay` apart |
| Throttle.FiredAreCalls | src/useThrottle.js:8-11 | every firing is one of the calls, and there are no more firings than calls: nothing is queued |
| Throttle.FirstCallFires | src/useThrottle.js:4-8 | since the ref starts at 0, the first call at any `now >= delay` fires |
| Throttle.DropInsideWindow | src/useThrottle.js:8-11 | calls at t, t+d (d < delay) and t+delay: the second is dropped and the third fires, the boundary test being inclusive |
| Throttle.Throttled.constructor | src/useThrottle.js:4 | the ref starts at 0 and nothing has been invoked |
| Throttle.Throttled.Call | src/useThrottle.js:6-12 | the call fires iff `now - lastCall >= delay`; firing sets `lastCall` to `now` and invokes the callback once with the same arguments; dropping changes nothing; fired calls stay spaced |
| KeyPress.Handle | src/useKeyPress.js:9-15 | a keydown of the target key gives true, a keyup false, any other key leaves the state |
| KeyPress.OtherKeysIgnored | src/useKeyPress.js:10-14 | any sequence of events for other keys leaves the state unchanged |
| KeyPress.LastTargetEventDecides | src/useKeyPress.js:9-15 | after a sequence of events the state is decided by the last event for the target key |
| KeyPress.RepeatedKeyDownIdempotent | src/useKeyPress.js:9-11 | a repeated keydown of the target key is idempotent |
| KeyPress.ListenerPair | src/useKeyPress.js:17-18 | the effect adds exactly one keydown and one keyup handler |
| KeyPress.KeyPressHook.constructor | src/useKeyPress.js:6 | the state starts `false` |
| KeyPress.KeyPressHook.Setup | src/useKeyPress.js:17-18 | the registry grows by exactly the two new handlers |
| KeyPress.KeyPressHook.Teardown | src/useKeyPress.js:20-23 | the registry loses exactly the two handlers this effect run added |
| KeyPress.KeyPressHook.Dispatch | src/useKeyPress.js:9-15 | a window key event updates the state through the registered handlers only |
| KeyPress.KeyPressHook.ChangeTargetKey | src/useKeyPress.js:6-24 | a new `targetKey` swaps the old handler pair for a new one and does not reset the state |
| KeyPress.MountUnmount | src/useKeyPress.js:17-23 | setup followed by teardown leaves the registry as it was |
| GeoLocation.NewGeoError | useGeoLocation.js:3-8 | the error carries the name `CustomGeoLocationError`, the message and the code |
| GeoLocation.Initial | useGeoLocation.js:13-18 | the state starts loading, with no coordinates and no error, and `isWatching` is `watch` |
| GeoLocation.OnSuccess | useGeoLocation.js:22-27 | success stops loading, stores the coordinates, clears the error and keeps `isWatching` |
| GeoLocation.OnError | useGeoLocation.js:34-39 | error stops loading, clears the coordinates, stores an error with the native message and code, and keeps `isWatching` |
| GeoLocation.Unsupported | useGeoLocation.js:45-52 | without geolocation: not loading, no coordinates, error code 0 with the fixed message, not watching |
| GeoLocation.ReportsSettle | useGeoLocation.js:20-42 | after one or more callbacks the state is not loading, never has both coordinates and an error, and keeps `isWatching`; its coordinates are those of the last report if it was a position and absent otherwise, and its error is the one built from the last report's message and code if it was a failure and absent otherwise |
| GeoLocation.ReportsPreserveWatching | useGeoLocation.js:17-39 | no sequence of callbacks changes `isWatching` |
| GeoLocation.GeoLocationHook.constructor | useGeoLocation.js:12-18 | the hook starts in the initial state with no watch and no cleanup |
| GeoLocation.GeoLocationHook.Setup | useGeoLocation.js:44-61 | unsupported: the unsupported state and no cleanup; watch mode: exactly one new watch, held as `watcher`; one-shot: one request and no watch id; the next watch id changes only in watch mode |
| GeoLocation.GeoLocationHook.Teardown | useGeoLocation.js:62-66 | the cleanup clears exactly the watch it holds; one-shot and unsupported leave the watches alone; no new watch id is used |
| GeoLocation.GeoLocationHook.Success | useGeoLocation.js:20-30 | the `onSuccess` callback applies the success updater |
| GeoLocation.GeoLocationHook.Error | useGeoLocation.js:32-42 | the `onError` callback applies the error updater |
| GeoLocation.WatchLifecycle | useGeoLocation.js:55-66 | in watch mode, setup then teardown leaves the active watches as they were |
| DarkMode.InitialDark | src/useDarkMode.js:4-7 | with a stored theme, dark iff it is 'dark' (so 'light' wins over the system); with none, the system preference |
| DarkMode.StoredNonDarkWins | src/useDarkMode.js:5-6 | a stored theme other than 'dark' gives light mode whatever the system prefers |
| DarkMode.StoreTheme | src/useDarkMode.js:10-16 | the stored theme becomes 'dark' or 'light' to match; no other key changes |
| DarkMode.ApplyRootClass | src/useDarkMode.js:10-16 | the root has the `dark` class iff dark mode is on; no other class changes |
| DarkMode.Toggle | src/useDarkMode.js:19 | the toggle changes the state |
| DarkMode.ToggleTwice | src/useDarkMode.js:19 | toggling twice restores the state |
| DarkMode.SyncedThemeIsRestored | src/useDarkMode.js:4-17 | after the effect, storage and root class agree with the state, and the next initial value read from storage is the same state |
| DarkMode.DarkModeHook.constructor | src/useDarkMode.js:4-7 | the state starts at the initial-value decision |
| DarkMode.DarkModeHook.Sync | src/useDarkMode.js:9-17 | the effect stores the theme and sets or removes the root class so both agree with the state |
| DarkMode.DarkModeHook.ToggleDarkMode | src/useDarkMode.js:19 | the state is negated |
| DocumentTitle.DefaultTitle | useDocumentTitle.js:4 | the render-time capture: the current title, or "" without a document |
| DocumentTitle.AfterSetup | useDocumentTitle.js:7-9 | the effect writes `title` when there is a document and leaves the title otherwise |
| DocumentTitle.AfterTeardown | useDocumentTitle.js:11-14 | the cleanup writes `defaultTitle` only when reverting with a document |
| DocumentTitle.MountUnmountRestores | useDocumentTitle.js:4-16 | with `defaultTitle` read just before the effect, a reverting cleanup restores the old title; without revert the new title stays; without a document nothing changes |
| DocumentTitle.NoDocumentWritesNothing | useDocumentTitle.js:4-12 | without a document `defaultTitle` is "" and neither phase writes |
| DocumentTitle.NoRevertLeavesTitle | useDocumentTitle.js:12 | a cleanup without revert leaves the title |
| DocumentTitle.DocumentTitleHook.constructor | useDocumentTitle.js:3-4 | `defaultTitle` is the current title, or "" without a document |
| DocumentTitle.DocumentTitleHook.Setup | useDocumentTitle.js:6-9 | the title becomes `title` when there is a document |
| DocumentTitle.DocumentTitleHook.Teardown | useDocumentTitle.js:11-15 | the title returns to `defaultTitle` when reverting with a document, and is otherwise left |
| DocumentTitle.Lifecycle | useDocumentTitle.js:3-16 | render, effect and cleanup: a reverting hook leaves the title as it found it |
| Each.MapIndexed | Each.js:8 | the map has the input's length and item i is `render(items[i], start + i)` |
| Each.Each | Each.js:3-9 | non-array input yields `null`; an array yields one rendered element per item, in order, item i rendered with index i |
| Each.EmptyArrayIsEmpty | Each.js:8 | an empty array yields an empty result, not `null` |
| Each.RenderCallsInOrder | Each.js:8 | item i of the output is rendered from `(items[i], i)`: with a render returning its arguments the output is the `(item, index)` pairs in index order |
| Each.IdentityRenderKeepsItems | Each.js:8 | with an identity render the output is the input, same length and order |

## Left out

- Browser cookie-jar merge semantics: after `updateCookie` the jar is the string assigned, not the browser's merged jar (replacement by name, expiry, path scoping).
- Date handling: `new Date().getTime()` is the `now` parameter of the throttle; the expiry date and its `toUTCString()` are the port `utcDateAfterDays`, treated as an opaque string.
- Cookie.CookieHook.constructor: `initialValue` is modelled as a string; in JavaScript it may be any value.
- Cookie.CookieHook.UpdateCookie: `key` and `value` are modelled as strings. In JavaScript they may be any value; the template literal turns them into text for the jar while the mirror keeps the raw value, so for a non-string value (such as 42) the mirror and a new lookup ("42") differ, and the proved agreement holds only for string values.
- GeoLocation.GeoLocationHook.Setup: `watch` is fixed for the hook's lifetime. In the hook a changed `watch` re-runs the effect in the new mode while `isWatching` keeps its first value; that re-run is not modelled.
- The browser's native APIs (`navigator.geolocation`, `matchMedia`, `classList`, `addEventListener`, `localStorage`) are ports held in fields; their asynchrony is left out and each callback is a method call.
- React runtime semantics: `useState` batching, effect scheduling, dependency comparison and `useCallback` memoisation. Effects and cleanups are explicit calls in sequence; a dependency change is `Teardown` then `Setup`.
- `CustomGeoLocationError`'s `Error` inheritance and stack trace; only name, message and code are kept.
- GeoLocation.GeoLocationHook.Setup: the `options` argument is passed through to the native API and has no effect on the model.
- Each.Each: `Children.toArray` assigns keys and flattens or drops `null`, boolean and array results of `render`; the model keeps one element per item, as when each call returns one non-null element. A sparse array is not modelled either: `map` skips its holes, so the output is shorter than the array's length.
- The throttled callback's own effects: it is recorded by its arguments in `invoked`.
- DocumentTitle.Lifecycle: holds for a component rendered once. `defaultTitle` is read again at every render and is an effect dependency, so a re-render after the effect has set the title captures `title` as the new default; the final cleanup then restores `title`, not the original title. Re-renders are not modelled.
- Throttle.Throttled.Call: `delay` is fixed when the gate is created; in the hook each render builds a new closure with the current `delay` while the `lastCall` ref persists, so a delay changed between renders is not modelled.
- Each.RenderCallsInOrder: `render` is a pure function here, so how many times and in which order it is called cannot be observed; what is proved is the order of the output.
- `useTimeout` and the rest of the package's exports are not part of this model.
