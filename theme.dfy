/** The theme button in the header and the footer: `resolvedTheme === 'dark' ? 'light' : 'dark'`. */
module Theme {
  /** The theme the button asks for, given the theme currently resolved. */
  function ToggleTheme(resolved: string): (next: string)
    ensures next == "light" || next == "dark"
    ensures next == "light" <==> resolved == "dark"
  {
    if resolved == "dark" then "light" else "dark"
  }

  /** Pressing twice returns to the starting theme exactly when it was `dark` or `light`. */
  lemma ToggleThemeTwice(resolved: string)
    ensures ToggleTheme(ToggleTheme(resolved)) == resolved <==> resolved == "dark" || resolved == "light"
  {
    assert "dark" != "light" by { assert "dark"[0] != "light"[0]; }
  }

  /** From any resolved theme, two presses reach the fixed cycle: the third press undoes the second. */
  lemma ToggleThemeCycle(resolved: string)
    ensures ToggleTheme(ToggleTheme(ToggleTheme(resolved))) == ToggleTheme(resolved)
  {
    ToggleThemeTwice(ToggleTheme(resolved));
  }
}
