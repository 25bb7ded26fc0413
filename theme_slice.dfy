/** The colour theme, its initial value from local storage, and the toggle that persists it. */
module ThemeSlice {
  import opened Wrappers

  /**
   * `getInitialTheme`: the saved theme when running in a browser and one is
   * saved (a non-empty value), otherwise "light".
   */
  function InitialTheme(hasWindow: bool, saved: Option<string>): (t: string)
    ensures !hasWindow ==> t == "light"
    ensures hasWindow && saved.Some? && saved.value != "" ==> t == saved.value
    ensures saved.None? || saved.value == "" ==> t == "light"
  {
    if hasWindow && saved.Some? && saved.value != "" then saved.value else "light"
  }

  /** The theme after `toggleTheme`. */
  function Toggled(t: string): (r: string)
    ensures r == "light" || r == "dark"
    ensures r == "dark" <==> t == "light"
  {
    if t == "light" then "dark" else "light"
  }

  /** Toggling twice from either known theme returns to it. */
  lemma ToggleTwice(t: string)
    requires t == "light" || t == "dark"
    ensures Toggled(Toggled(t)) == t
  {
  }

  class ThemeStore {
    var theme: string
    /** The value stored under the "theme" key of local storage. */
    var saved: Option<string>
    /** Whether a browser window exists (false during server rendering). */
    const hasWindow: bool

    constructor (hasWindow: bool, saved: Option<string>)
      ensures this.hasWindow == hasWindow && this.saved == saved
      ensures theme == InitialTheme(hasWindow, saved)
    {
      this.hasWindow := hasWindow;
      this.saved := saved;
      theme := InitialTheme(hasWindow, saved);
    }

    /** `toggleTheme`: flip the theme and, in a browser, persist the new value. */
    method ToggleTheme()
      modifies this
      ensures theme == Toggled(old(theme))
      ensures hasWindow ==> saved == Some(theme)
      ensures !hasWindow ==> saved == old(saved)
    {
      theme := if theme == "light" then "dark" else "light";
      if hasWindow {
        saved := Some(theme);
      }
    }
  }
}
