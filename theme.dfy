/**
 * `useTheme`: a state cell holding the theme, dark unless the caller
 * passes another initial theme, and a toggle between the two themes.
 */
module ThemeHook {
  import opened Wrappers
  import opened Types

  /** The default of the `initialTheme` parameter. */
  const DefaultTheme: Theme := Dark

  /** The updater `prev === "dark" ? "light" : "dark"`. */
  function Toggled(t: Theme): (r: Theme)
    ensures r != t
    ensures t == Dark <==> r == Light
  {
    if t == Dark then Light else Dark
  }

  /** Toggling twice returns to the original theme. */
  lemma ToggleTwice(t: Theme)
    ensures Toggled(Toggled(t)) == t
  {
  }

  /** The theme cell with `toggleTheme` and `setTheme`. */
  class ThemeState {
    var theme: Theme

    /** `useState(initialTheme)`, with an absent argument meaning dark. */
    constructor (initialTheme: Option<Theme>)
      ensures initialTheme.Some? ==> theme == initialTheme.value
      ensures initialTheme.None? ==> theme == Dark
    {
      theme := initialTheme.GetOr(DefaultTheme);
    }

    method ToggleTheme()
      modifies this
      ensures theme == Toggled(old(theme))
    {
      theme := Toggled(theme);
    }

    method SetTheme(t: Theme)
      modifies this
      ensures theme == t
    {
      theme := t;
    }
  }
}
