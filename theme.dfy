/** The display theme: a saved preference with 'dark' as default, and a two-way toggle. */
module Theme {
  import opened Wrappers

  const Dark := "dark"
  const Light := "light"

  /**
   * The theme applied at start-up from the stored preference.  The fallback
   * is `||`, so an empty stored value also yields 'dark'.
   */
  function InitialTheme(saved: Option<string>): (t: string)
    ensures saved.Some? && saved.value != "" ==> t == saved.value
    ensures saved.None? || saved.value == "" ==> t == Dark
  {
    if saved.Some? && saved.value != "" then saved.value else Dark
  }

  /** The theme after a toggle: 'dark' becomes 'light', anything else (none included) becomes 'dark'. */
  function Toggled(current: Option<string>): (t: string)
    ensures t == Light <==> current == Some(Dark)
    ensures t == Dark <==> current != Some(Dark)
  {
    if current == Some(Dark) then Light else Dark
  }

  /** Two toggles restore 'dark' and 'light'. */
  lemma ToggleTwice(t: string)
    requires t == Dark || t == Light
    ensures Toggled(Some(Toggled(Some(t)))) == t
  {
  }

  /** Any other theme is not restored by two toggles: it ends at 'light'. */
  lemma ToggleTwiceOther(t: string)
    requires t != Dark && t != Light
    ensures Toggled(Some(Toggled(Some(t)))) == Light
  {
  }

  /** A toggled theme, once stored, is the one the next start-up applies. */
  lemma ToggledIsRestored(current: Option<string>)
    ensures InitialTheme(Some(Toggled(current))) == Toggled(current)
  {
  }
}
