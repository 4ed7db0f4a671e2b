/** The light/dark theme switcher: one operation writes the root element's
    `data-theme` attribute, the stored preference under the key `theme`, and
    the toggle button's glyph, always together. */
module ThemeToggle {
  import opened Wrappers

  const Light: string := "light"
  const Dark: string := "dark"

  /** The glyph shown while the dark theme is active (a sun: click for light). */
  const Sun: string := "\U{2600}\U{FE0F}"
  /** The glyph shown under any other theme (a crescent moon: click for dark). */
  const Moon: string := "\U{1F319}"

  /** The button label for a theme: the sun exactly when the theme is dark. */
  function GlyphFor(mode: string): (g: string)
    ensures g == Sun <==> mode == Dark
    ensures g == Moon <==> mode != Dark
  {
    if mode == Dark then Sun else Moon
  }

  /** The theme a click switches to, given the attribute read from the root
      element (`None` when the attribute is absent): "light" from "dark",
      "dark" from anything else. */
  function Flipped(current: Option<string>): (m: string)
    ensures m == Light || m == Dark
    ensures m == Light <==> current == Some(Dark)
  {
    if current == Some(Dark) then Light else Dark
  }

  /** The theme applied at page load: the stored value, unless it is absent
      or empty, in which case "light". */
  function StartupMode(saved: Option<string>): (m: string)
    ensures m != ""
    ensures saved.Some? && saved.value != "" ==> m == saved.value
    ensures saved == None || saved == Some("") ==> m == Light
  {
    if saved.Some? && saved.value != "" then saved.value else Light
  }

  /** Two clicks from either of the two themes come back to it. */
  lemma FlipTwiceRestores(m: string)
    requires m == Light || m == Dark
    ensures Flipped(Some(Flipped(Some(m)))) == m
    ensures Flipped(Some(m)) != m
  {
  }

  /** The glyph names the theme the next click switches to: the sun exactly
      when that click leads to "light". */
  lemma GlyphAnnouncesNextTheme(m: string)
    ensures GlyphFor(m) == Sun <==> Flipped(Some(m)) == Light
  {
  }

  /** The three places the theme is written to. */
  class ThemeSwitcher {
    /** The `data-theme` attribute of the root element; `None` when absent. */
    var themeAttr: Option<string>
    /** The value stored under the key `theme`; `None` when absent. */
    var stored: Option<string>
    /** The text of the toggle button. */
    var glyph: string

    /** Attribute, stored value and glyph all reflect one theme. */
    ghost predicate Consistent()
      reads this
    {
      themeAttr.Some? && stored == themeAttr && glyph == GlyphFor(themeAttr.value)
    }

    /** Page load with `saved` in storage: apply the stored theme, or "light". */
    constructor (saved: Option<string>)
      ensures Consistent()
      ensures themeAttr == Some(StartupMode(saved))
    {
      themeAttr := None;
      stored := saved;
      glyph := "";
      new;
      SetTheme(StartupMode(saved));
    }

    /** Writes `mode` to the attribute and to storage, and its glyph to the
        button. */
    method SetTheme(mode: string)
      modifies this
      ensures themeAttr == Some(mode)
      ensures stored == Some(mode)
      ensures glyph == GlyphFor(mode)
      ensures Consistent()
    {
      themeAttr := Some(mode);
      stored := Some(mode);
      glyph := GlyphFor(mode);
    }

    /** The click handler of the toggle button. */
    method Toggle()
      modifies this
      ensures themeAttr == Some(Flipped(old(themeAttr)))
      ensures Consistent()
    {
      var current := themeAttr;
      SetTheme(Flipped(current));
    }
  }
}
