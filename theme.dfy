/**
 * The decision inside `toggleTheme` (script.js lines 57-71): the body's
 * `data-theme` attribute flips between "dark" and "light", and the toggle
 * button then shows the icon and text of the theme it would switch to next.
 */
module Theme {
  import opened Optional

  const Dark: string := "dark"
  const Light: string := "light"

  /** U+2600 BLACK SUN WITH RAYS followed by VARIATION SELECTOR-16. */
  const SunIcon: string := "\U{2600}\U{FE0F}"
  /** U+1F319 CRESCENT MOON. */
  const MoonIcon: string := "\U{1F319}"

  /** The new `data-theme` value and the button's icon and text. */
  datatype ThemeView = ThemeView(theme: string, icon: string, text: string)

  /** `current` is the attribute as `getAttribute` returns it: None when it is
      not set. Only "dark" counts as dark; anything else, absent included,
      switches to dark. */
  function ToggleTheme(current: Option<string>): ThemeView {
    var newTheme := if current == Some(Dark) then Light else Dark;
    if newTheme == Dark then ThemeView(newTheme, SunIcon, "Light")
    else ThemeView(newTheme, MoonIcon, "Dark")
  }

  /** The new theme is light exactly when the old one was dark, and it always
      differs from the old one. */
  lemma ToggleThemeFlips(current: Option<string>)
    ensures ToggleTheme(current).theme == Light <==> current == Some(Dark)
    ensures ToggleTheme(current).theme == Dark <==> current != Some(Dark)
    ensures current != Some(ToggleTheme(current).theme)
  {
  }

  /** The button advertises the other theme: in dark mode a sun and "Light",
      in light mode a moon and "Dark". */
  lemma ToggleThemeButton(current: Option<string>)
    ensures var v := ToggleTheme(current);
      (v.icon == SunIcon && v.text == "Light") <==> v.theme == Dark
    ensures var v := ToggleTheme(current);
      (v.icon == MoonIcon && v.text == "Dark") <==> v.theme == Light
  {
  }

  /** Toggling twice from either theme brings it back; from an unset or
      unknown theme, two toggles end in light. */
  lemma ToggleTwice(current: Option<string>)
    ensures var twice := ToggleTheme(Some(ToggleTheme(current).theme));
      twice.theme == (if current == Some(Dark) then Dark else Light)
    ensures current == Some(Dark) || current == Some(Light) ==>
      Some(ToggleTheme(Some(ToggleTheme(current).theme)).theme) == current
  {
  }
}
