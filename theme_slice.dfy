/**
 * The `theme` slice of the Redux store: the colour mode. The mode saved in the
 * browser is an input; writing it back and setting the document attribute are
 * not modelled.
 */
module ThemeSlice {
  import opened Wrappers

  const Dark: string := "dark"
  const Light: string := "light"

  /** `localStorage.getItem('theme') || 'dark'`: a saved, non-empty mode wins, otherwise dark. */
  function InitialMode(saved: Option<string>): (mode: string)
    ensures saved.None? || saved == Some("") ==> mode == Dark
    ensures saved.Some? && saved.value != "" ==> mode == saved.value
    ensures mode != ""
  {
    if saved.Some? && saved.value != "" then saved.value else Dark
  }

  /** The mode `toggleTheme` moves to: light from dark, and dark from any other mode. */
  function Toggled(mode: string): (r: string)
    ensures r == Light <==> mode == Dark
    ensures r == Dark <==> mode != Dark
  {
    if mode == Dark then Light else Dark
  }

  /** Toggling twice from dark or light comes back to where it started. */
  lemma ToggleTwice(mode: string)
    requires mode == Dark || mode == Light
    ensures Toggled(Toggled(mode)) == mode
  {
  }

  /** From any other mode, two toggles end in light, not in the mode started from. */
  lemma ToggleTwiceFromOther(mode: string)
    requires mode != Dark && mode != Light
    ensures Toggled(Toggled(mode)) == Light != mode
  {
  }

  class ThemeState {
    var mode: string

    /** `initialState` */
    constructor(saved: Option<string>)
      ensures mode == InitialMode(saved)
    {
      mode := InitialMode(saved);
    }

    /** `toggleTheme` */
    method ToggleTheme()
      modifies this
      ensures mode == Toggled(old(mode))
      ensures mode == Dark || mode == Light
    {
      mode := if mode == Dark then Light else Dark;
    }

    /** `setTheme`: the mode becomes exactly the payload. */
    method SetTheme(payload: string)
      modifies this
      ensures mode == payload
    {
      mode := payload;
    }
  }
}
