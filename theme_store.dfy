/**
 * The theme store (src/stores/themeStore.ts): the colour theme, persisted
 * under the `localStorage` key 'theme', and whether the sidebar is
 * collapsed.
 */
module ThemeStore {

  type Theme = s: string | s == "light" || s == "dark" witness "light"

  /** `localStorage.getItem('theme') || 'light'`: an empty or missing entry gives 'light'. */
  function InitialTheme(storage: map<string, string>): (t: string)
    ensures "theme" in storage && storage["theme"] != "" ==> t == storage["theme"]
    ensures !("theme" in storage && storage["theme"] != "") ==> t == "light"
  {
    if "theme" in storage && storage["theme"] != "" then storage["theme"] else "light"
  }

  /** `state.theme === 'light' ? 'dark' : 'light'`. */
  function Toggled(theme: string): (t: Theme)
    ensures t == "dark" <==> theme == "light"
  {
    if theme == "light" then "dark" else "light"
  }

  /** Toggling twice restores either theme. */
  lemma ToggleTwice(theme: Theme)
    ensures Toggled(Toggled(theme)) == theme
  {
  }

  class ThemeStore {
    /** The stored value is cast, not checked, so the theme is any string the storage held. */
    var theme: string
    var sidebarCollapsed: bool
    /** `localStorage`. */
    var storage: map<string, string>

    constructor(storage: map<string, string>)
      ensures theme == InitialTheme(storage) && !sidebarCollapsed && this.storage == storage
    {
      theme := InitialTheme(storage);
      sidebarCollapsed := false;
      this.storage := storage;
    }

    method ToggleTheme()
      modifies this
      ensures theme == Toggled(old(theme))
      ensures storage == old(storage)["theme" := theme]
      ensures sidebarCollapsed == old(sidebarCollapsed)
    {
      var newTheme := Toggled(theme);
      storage := storage["theme" := newTheme];
      theme := newTheme;
    }

    method SetTheme(t: Theme)
      modifies this
      ensures theme == t && storage == old(storage)["theme" := t]
      ensures sidebarCollapsed == old(sidebarCollapsed)
    {
      storage := storage["theme" := t];
      theme := t;
    }

    method ToggleSidebar()
      modifies this
      ensures sidebarCollapsed == !old(sidebarCollapsed)
      ensures theme == old(theme) && storage == old(storage)
    {
      sidebarCollapsed := !sidebarCollapsed;
    }

    method SetSidebarCollapsed(collapsed: bool)
      modifies this
      ensures sidebarCollapsed == collapsed
      ensures theme == old(theme) && storage == old(storage)
    {
      sidebarCollapsed := collapsed;
    }
  }
}
