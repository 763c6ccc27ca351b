/**
 * `useDarkMode`: the initial value comes from `localStorage.theme` and the
 * system's `prefers-color-scheme: dark` preference; an effect keeps the `dark`
 * class on the root element and the stored theme in step with the state; the
 * toggle negates the state.
 */
module DarkMode {

  const ThemeKey := "theme"
  const DarkTheme := "dark"
  const LightTheme := "light"
  const DarkClass := "dark"

  /** The `useState` initial value. */
  function InitialDark(storage: map<string, string>, prefersDark: bool): (r: bool)
    ensures ThemeKey in storage ==> (r <==> storage[ThemeKey] == DarkTheme)
    ensures ThemeKey !in storage ==> r == prefersDark
  {
    (ThemeKey in storage && storage[ThemeKey] == DarkTheme) ||
    (ThemeKey !in storage && prefersDark)
  }

  /** A stored theme other than "dark" gives light mode, whatever the system prefers. */
  lemma StoredNonDarkWins(storage: map<string, string>, prefersDark: bool)
    requires ThemeKey in storage && storage[ThemeKey] != DarkTheme
    ensures !InitialDark(storage, prefersDark)
  {
  }

  /** The storage after the effect: the theme matching `dark`, every other key unchanged. */
  function StoreTheme(storage: map<string, string>, dark: bool): (r: map<string, string>)
    ensures ThemeKey in r && r[ThemeKey] == (if dark then DarkTheme else LightTheme)
    ensures forall k :: k in storage && k != ThemeKey ==> k in r && r[k] == storage[k]
    ensures r.Keys == storage.Keys + {ThemeKey}
  {
    storage[ThemeKey := if dark then DarkTheme else LightTheme]
  }

  /** The root element's class list after the effect: `dark` present exactly when `dark` holds. */
  function ApplyRootClass(classes: set<string>, dark: bool): (r: set<string>)
    ensures DarkClass in r <==> dark
    ensures r - {DarkClass} == classes - {DarkClass}
  {
    if dark then classes + {DarkClass} else classes - {DarkClass}
  }

  /** The toggle's updater. */
  function Toggle(prev: bool): (r: bool)
    ensures r != prev
  {
    !prev
  }

  /** Toggling twice restores the state. */
  lemma ToggleTwice(b: bool)
    ensures Toggle(Toggle(b)) == b
  {
  }

  /** Stored theme and root class agree with the state. */
  predicate InSync(dark: bool, storage: map<string, string>, classes: set<string>)
  {
    ThemeKey in storage && (storage[ThemeKey] == DarkTheme <==> dark) && (DarkClass in classes <==> dark)
  }

  /**
   * Once synchronised, the state survives a reload: the next mount's initial
   * value read from the stored theme is the same, whatever the system prefers.
   */
  lemma SyncedThemeIsRestored(dark: bool, storage: map<string, string>, classes: set<string>, prefersDark: bool)
    ensures InitialDark(StoreTheme(storage, dark), prefersDark) == dark
    ensures InSync(dark, StoreTheme(storage, dark), ApplyRootClass(classes, dark))
  {
  }

  /** The hook with its ports: `localStorage` as a map and the root element's class list as a set. */
  class DarkModeHook {
    var isDarkMode: bool
    var storage: map<string, string>
    var rootClasses: set<string>

    /** First render; `prefersDark` is `matchMedia('(prefers-color-scheme: dark)').matches`. */
    constructor (storage: map<string, string>, rootClasses: set<string>, prefersDark: bool)
      ensures isDarkMode == InitialDark(storage, prefersDark)
      ensures this.storage == storage && this.rootClasses == rootClasses
    {
      isDarkMode := InitialDark(storage, prefersDark);
      this.storage := storage;
      this.rootClasses := rootClasses;
    }

    /** The effect run after each change of `isDarkMode`. */
    method Sync()
      modifies this`storage, this`rootClasses
      ensures storage == StoreTheme(old(storage), isDarkMode)
      ensures rootClasses == ApplyRootClass(old(rootClasses), isDarkMode)
      ensures InSync(isDarkMode, storage, rootClasses)
    {
      rootClasses := ApplyRootClass(rootClasses, isDarkMode);
      storage := StoreTheme(storage, isDarkMode);
    }

    /** `toggleDarkMode`. */
    method ToggleDarkMode()
      modifies this`isDarkMode
      ensures isDarkMode == Toggle(old(isDarkMode))
    {
      isDarkMode := !isDarkMode;
    }
  }
}
