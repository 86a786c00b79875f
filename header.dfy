/** The theme toggle of client/src/components/Header.jsx: the theme the button
    switches to, and the label and icon that show the current one. */
module Header {
  /** nextTheme: light goes to dark, dark to system, and anything else to light. */
  function NextTheme(theme: string): string
  {
    if theme == "light" then "dark"
    else if theme == "dark" then "system"
    else "light"
  }

  /** The three themes form a cycle of length three; any other stored value is
      replaced by light at the first toggle and joins the cycle. */
  lemma NextThemeCycle(theme: string)
    ensures theme in {"light", "dark", "system"} ==> NextTheme(NextTheme(NextTheme(theme))) == theme
    ensures theme in {"light", "dark", "system"} ==> NextTheme(theme) != theme && NextTheme(NextTheme(theme)) != theme
    ensures NextTheme(theme) in {"light", "dark", "system"}
    ensures theme !in {"light", "dark", "system"} ==> NextTheme(theme) == "light"
  {
  }

  /** The icons the button shows. */
  datatype Icon = Moon | Sun | Monitor

  /** The button's label. */
  function Label(theme: string): string
  {
    if theme == "dark" then "Dark" else if theme == "light" then "Light" else "System"
  }

  /** The button's icon. */
  function IconFor(theme: string): Icon
  {
    if theme == "dark" then Moon else if theme == "light" then Sun else Monitor
  }

  /** Label and icon make the same three-way split: Moon with "Dark", Sun with
      "Light", Monitor with "System"; "system" and any unknown value look alike. */
  lemma LabelAndIconAgree(theme: string)
    ensures IconFor(theme) == Moon <==> Label(theme) == "Dark"
    ensures IconFor(theme) == Sun <==> Label(theme) == "Light"
    ensures IconFor(theme) == Monitor <==> Label(theme) == "System"
    ensures Label(theme) == "System" <==> theme != "dark" && theme != "light"
  {
  }
}
