/** The light/dark theme provider of the standalone page
    (src/context/ThemeContext.tsx). `localStorage` is the `storage` map and the
    `(prefers-color-scheme: dark)` media query is the `prefersDark` input. */
module ThemeContext {
  import opened Common

  /** The themes the provider offers, in menu order. */
  const THEMES: seq<string> := ["light", "dark", "system"]

  /** The storage key the chosen theme is kept under. */
  const THEME_KEY := "theme"

  /** `localStorage.getItem("theme")` */
  function Stored(storage: map<string, string>): (v: Option<string>)
    ensures v.Some? <==> THEME_KEY in storage
    ensures v.Some? ==> v.value == storage[THEME_KEY]
  {
    if THEME_KEY in storage then Some(storage[THEME_KEY]) else None
  }

  /** The first theme: the stored value when it is a non-empty string (it is not
      checked against the offered themes), else "system". */
  function InitialTheme(storage: map<string, string>): (theme: string)
    ensures Truthy(Stored(storage)) ==> theme == storage[THEME_KEY]
    ensures !Truthy(Stored(storage)) ==> theme == "system"
    ensures theme != ""
  {
    var stored := Stored(storage);
    if Truthy(stored) then stored.value else "system"
  }

  /** applyTheme's choice: "system" follows the preference, any other theme is
      applied as it is; so the applied theme is never "system". */
  function Resolve(theme: string, prefersDark: bool): (applied: string)
    ensures applied != "system"
    ensures theme != "system" ==> applied == theme
    ensures theme == "system" ==> (applied == "dark" <==> prefersDark)
    ensures theme == "system" ==> applied == "dark" || applied == "light"
  {
    if theme == "system" then (if prefersDark then "dark" else "light") else theme
  }

  /** An offered theme always resolves to light or dark. */
  lemma OfferedThemesResolve(theme: string, prefersDark: bool)
    requires theme in THEMES
    ensures Resolve(theme, prefersDark) == "light" || Resolve(theme, prefersDark) == "dark"
  {
  }

  /** A theme written by changeTheme is the theme the next load starts with. */
  lemma ChosenThemeIsRestored(storage: map<string, string>, theme: string)
    requires theme in THEMES
    ensures InitialTheme(storage[THEME_KEY := theme]) == theme
  {
  }

  /** The provider component: its two pieces of state, the classes it writes on
      the document root and body, and the storage it persists to. */
  class ThemeProvider {
    var theme: string
    var effectiveTheme: string
    var rootClass: string
    var bodyClass: string
    var storage: map<string, string>

    /** After every effect: the applied theme is never "system", it is the chosen
        theme unless that is "system", and both classes show it. */
    ghost predicate Valid()
      reads this
    {
      && effectiveTheme != "system"
      && (theme != "system" ==> effectiveTheme == theme)
      && rootClass == effectiveTheme && bodyClass == effectiveTheme
    }

    /** The first render and its effect: the theme read from storage is applied at
        once with the current preference. */
    constructor (storage: map<string, string>, prefersDark: bool)
      ensures theme == InitialTheme(storage) && this.storage == storage
      ensures effectiveTheme == Resolve(theme, prefersDark)
      ensures Valid()
    {
      this.storage := storage;
      theme := InitialTheme(storage);
      effectiveTheme := "light";
      rootClass := "";
      bodyClass := "";
      new;
      ApplyTheme(prefersDark);
    }

    /** applyTheme, run by the effect whenever `theme` changes. */
    method ApplyTheme(prefersDark: bool)
      modifies this
      ensures effectiveTheme == Resolve(theme, prefersDark) && Valid()
      ensures theme == old(theme) && storage == old(storage)
    {
      if theme == "system" {
        var applied := if prefersDark then "dark" else "light";
        effectiveTheme := applied;
        rootClass := applied;
        bodyClass := applied;
      } else {
        effectiveTheme := theme;
        rootClass := theme;
        bodyClass := theme;
      }
    }

    /** handleSystemThemeChange: a change of the preference moves the applied
        theme only while the chosen theme is "system". */
    method SystemChange(matches: bool)
      requires Valid()
      modifies this
      ensures Valid() && theme == old(theme) && storage == old(storage)
      ensures old(theme) == "system" ==> effectiveTheme == Resolve("system", matches)
      ensures old(theme) != "system" ==> effectiveTheme == old(effectiveTheme)
    {
      if theme == "system" {
        var applied := if matches then "dark" else "light";
        effectiveTheme := applied;
        rootClass := applied;
        bodyClass := applied;
      }
    }

    /** changeTheme, followed by the effect it triggers: the theme is set, the same
        value is stored under "theme", and it is applied with the current preference. */
    method ChangeTheme(newTheme: string, prefersDark: bool)
      requires newTheme in THEMES
      modifies this
      ensures theme == newTheme && storage == old(storage)[THEME_KEY := newTheme]
      ensures effectiveTheme == Resolve(newTheme, prefersDark) && Valid()
      ensures InitialTheme(storage) == newTheme
    {
      theme := newTheme;
      storage := storage[THEME_KEY := newTheme];
      ApplyTheme(prefersDark);
      ChosenThemeIsRestored(old(storage), newTheme);
    }
  }
}
