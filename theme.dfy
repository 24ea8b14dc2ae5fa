/** The dark/light theme switch: the `dark` class on the root element, the
    `theme` entry of local storage, and the icon inside the toggle button.
    Local storage and the colour-scheme media query are inputs: the saved
    entry is passed to `Load`, and so is whether the browser prefers light. */
module Theme {
  import opened Options

  /** The icon drawn in the toggle button. */
  datatype Icon = Sun | Moon

  datatype ThemeState = ThemeState(
    dark: bool,             // `dark` is in the root element's classes
    stored: Option<string>, // `localStorage.getItem('theme')`
    hasIcon: bool,          // the icon element exists on the page
    icon: Icon)             // what the icon element shows

  /** The state is in step with itself: storage, class and icon agree. */
  predicate Consistent(st: ThemeState) {
    && st.stored == Some(if st.dark then "dark" else "light")
    && (st.hasIcon ==> st.icon == (if st.dark then Moon else Sun))
  }

  /** `applyTheme(theme)`: exactly the string `"light"` selects the light
      theme; any other string selects the dark one. */
  function Apply(st: ThemeState, theme: string): (r: ThemeState)
    ensures r.dark <==> theme != "light"
    ensures r.stored == Some(if theme == "light" then "light" else "dark")
    ensures r.hasIcon == st.hasIcon
    ensures r.hasIcon ==> r.icon == (if theme == "light" then Sun else Moon)
    ensures !r.hasIcon ==> r.icon == st.icon
    ensures Consistent(r)
  {
    if theme == "light" then
      st.(dark := false, stored := Some("light"), icon := if st.hasIcon then Sun else st.icon)
    else
      st.(dark := true, stored := Some("dark"), icon := if st.hasIcon then Moon else st.icon)
  }

  /** `toggleTheme`: apply the theme opposite to the current class. */
  function Toggle(st: ThemeState): (r: ThemeState)
    ensures r.dark == !st.dark
    ensures Consistent(r)
  {
    Apply(st, if st.dark then "light" else "dark")
  }

  /** `saved || defaultTheme`: a missing or empty saved entry falls back to
      the browser's preference. */
  function Chosen(saved: Option<string>, prefersLight: bool): (theme: string)
    ensures saved.Some? && saved.value != "" ==> theme == saved.value
    ensures saved.None? || saved.value == "" ==> theme == (if prefersLight then "light" else "dark")
  {
    if saved.Some? && saved.value != "" then saved.value
    else if prefersLight then "light" else "dark"
  }

  /** `loadTheme`. */
  function Load(st: ThemeState, saved: Option<string>, prefersLight: bool): (r: ThemeState)
    ensures Consistent(r)
  {
    Apply(st, Chosen(saved, prefersLight))
  }

  /** Applying the same theme twice is the same as applying it once. */
  lemma ApplyIdempotent(st: ThemeState, theme: string)
    ensures Apply(Apply(st, theme), theme) == Apply(st, theme)
  {
  }

  /** Toggling twice from a consistent state restores it exactly; from any
      state it restores the theme. */
  lemma ToggleTwice(st: ThemeState)
    ensures Toggle(Toggle(st)).dark == st.dark
    ensures Consistent(st) ==> Toggle(Toggle(st)) == st
  {
  }

  /** What loading does: a saved `"light"` or `"dark"` wins over the
      preference, an absent or empty entry defers to it, and any other saved
      string gives the dark theme and is overwritten with `"dark"`. */
  lemma LoadOutcome(st: ThemeState, saved: Option<string>, prefersLight: bool)
    ensures saved == Some("light") ==> !Load(st, saved, prefersLight).dark
    ensures saved == Some("dark") ==> Load(st, saved, prefersLight).dark
    ensures saved.None? || saved == Some("") ==> Load(st, saved, prefersLight).dark == !prefersLight
    ensures saved.Some? && saved.value !in {"", "light"} ==>
      Load(st, saved, prefersLight).dark && Load(st, saved, prefersLight).stored == Some("dark")
  {
  }

  /** After loading, reloading with what was stored gives the same state,
      whatever the preference: the choice survives a page reload. */
  lemma LoadPersists(st: ThemeState, saved: Option<string>, prefersLight: bool, laterPrefersLight: bool)
    ensures var r := Load(st, saved, prefersLight);
      Load(r, r.stored, laterPrefersLight) == r
  {
  }
}
