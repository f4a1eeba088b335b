/** The text-colour rule of the web client's coloured backgrounds
    (todopalm-web/src/lib/util/theme.tsx). */
module ThemeUtil {

  /** The backgrounds light enough to need black text. */
  const BLACK_TEXT_THEMES: set<string> := {"polar-bg", "vintage-bg", "sakura-bg"}

  /** shouldBeBlackText: true exactly for the three light backgrounds, matched
      character for character; every other string, "default" included, gives
      false. */
  function ShouldBeBlackText(theme: string): (black: bool)
    ensures black <==> theme in BLACK_TEXT_THEMES
  {
    match theme
    case "polar-bg" => true
    case "vintage-bg" => true
    case "sakura-bg" => true
    case _ => false
  }

  /** The "default" theme and any other spelling of a light background (the match
      is case-sensitive) ask for white text. */
  lemma OtherThemesGetWhiteText()
    ensures !ShouldBeBlackText("default")
    ensures !ShouldBeBlackText("Polar-bg") && !ShouldBeBlackText("POLAR-BG")
    ensures !ShouldBeBlackText("") && !ShouldBeBlackText("polar")
  {
  }
}
