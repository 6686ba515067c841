/** The client's theme store: one flag saying whether the dark theme is on. */
module UiStore {

  class Store {
    var dark: bool

    constructor ()
      ensures !dark
    {
      dark := false;
    }

    /** `toggleTheme()`: flips the flag and nothing else. */
    method ToggleTheme()
      modifies this`dark
      ensures dark == !old(dark)
    {
      dark := !dark;
    }
  }

  /** Toggling twice restores the theme the store had. */
  method ToggleTwice(ui: Store)
    modifies ui
    ensures ui.dark == old(ui.dark)
  {
    ui.ToggleTheme();
    ui.ToggleTheme();
  }
}
