/** The theme menu of the standalone page (src/components/ThemeSelector.tsx). */
module ThemeSelector {
  import opened Common
  import opened Strings
  import opened ThemeContext

  /** capitalizeFirstLetter: the first character upper-cased (ASCII letters only)
      and the rest kept. */
  function CapitalizeFirstLetter(val: string): (r: string)
    ensures |r| == |val|
    ensures val == "" ==> r == ""
    ensures val != "" ==> r[1..] == val[1..] && !('a' <= r[0] <= 'z')
    ensures val != "" && 'a' <= val[0] <= 'z' ==> 'A' <= r[0] <= 'Z'
    ensures val != "" && !('a' <= val[0] <= 'z') ==> r == val
  {
    if val == "" then "" else [ToUpperAscii(val[0])] + val[1..]
  }

  /** Capitalising twice is capitalising once. */
  lemma CapitalizeIdempotent(val: string)
    ensures CapitalizeFirstLetter(CapitalizeFirstLetter(val)) == CapitalizeFirstLetter(val)
  {
  }

  /** One entry of the menu: its label and the theme it chooses. */
  datatype MenuItem = MenuItem(text: string, theme: string)

  /** `themes.map(t => ...)`: one item per theme, in order, labelled with the
      capitalised theme name. */
  function MenuItems(themes: seq<string>): (items: seq<MenuItem>)
    ensures |items| == |themes|
    ensures forall i :: 0 <= i < |themes| ==> items[i] == MenuItem(CapitalizeFirstLetter(themes[i]), themes[i])
  {
    seq(|themes|, i requires 0 <= i < |themes| => MenuItem(CapitalizeFirstLetter(themes[i]), themes[i]))
  }

  /** The menu of the provider's themes reads Light, Dark, System. */
  lemma OfferedMenu()
    ensures MenuItems(THEMES) ==
      [MenuItem("Light", "light"), MenuItem("Dark", "dark"), MenuItem("System", "system")]
  {
    var items := MenuItems(THEMES);
    assert items[0] == MenuItem("Light", "light");
    assert items[1] == MenuItem("Dark", "dark");
    assert items[2] == MenuItem("System", "system");
  }

  /** The icon of the trigger button. */
  datatype Icon = Sun | Moon

  /** `themeIcons[effectiveTheme]`: a sun for light, a moon for dark, and no
      component for any other applied theme. */
  function IconFor(effectiveTheme: string): (icon: Option<Icon>)
    ensures icon == Some(Sun) <==> effectiveTheme == "light"
    ensures icon == Some(Moon) <==> effectiveTheme == "dark"
  {
    if effectiveTheme == "light" then Some(Sun)
    else if effectiveTheme == "dark" then Some(Moon)
    else None
  }

  /** With an offered theme the trigger always has an icon; a stored theme outside
      the offered ones leaves it without. */
  lemma OfferedThemesHaveIcon(theme: string, prefersDark: bool)
    ensures theme in THEMES ==> IconFor(Resolve(theme, prefersDark)).Some?
    ensures theme !in THEMES ==> IconFor(Resolve(theme, prefersDark)).None?
  {
  }

  /** A click on the item at `index` chooses its theme. */
  method Choose(provider: ThemeProvider, index: nat, prefersDark: bool)
    requires index < |THEMES|
    modifies provider
    ensures provider.theme == MenuItems(THEMES)[index].theme
    ensures provider.storage == old(provider.storage)[THEME_KEY := provider.theme]
    ensures provider.effectiveTheme == Resolve(provider.theme, prefersDark) && provider.Valid()
  {
    provider.ChangeTheme(MenuItems(THEMES)[index].theme, prefersDark);
  }
}
