/**
 * The dark/light mode toggle: a button in the header, the body's
 * `light-mode` class, the button's icon, and the preference kept under one
 * local-storage key. The storage is a map from key to value; the colour
 * scheme the operating system prefers is an input.
 */
module DarkMode {
  import opened Wrappers

  datatype ModeIcon = Moon | Sun

  const StorageKey := "darkMode"

  /** The value `setDarkMode` stores. */
  function Encode(isDark: bool): string {
    if isDark then "on" else "off"
  }

  /** The icon `setDarkMode` gives the button. */
  function IconFor(isDark: bool): ModeIcon {
    if isDark then Moon else Sun
  }

  /** `localStorage.getItem(key)`: `None` is `null`. */
  function Lookup(storage: map<string, string>, key: string): Option<string> {
    if key in storage then Some(storage[key]) else None
  }

  /**
   * The mode chosen at startup: a stored "off" means light; no stored value
   * (or an empty one) defers to the operating system; any other stored
   * value, "on" included, means dark.
   */
  function InitialDark(saved: Option<string>, prefersDark: bool): (dark: bool)
    ensures saved == Some("off") ==> !dark
    ensures saved == None || saved == Some("") ==> dark == prefersDark
    ensures saved.Some? && saved.value !in {"", "off"} ==> dark
  {
    if saved == Some("off") || ((saved == None || saved == Some("")) && !prefersDark) then
      false
    else
      true
  }

  /** A stored preference decides the next load whatever the system prefers. */
  lemma StoredPreferenceWins(isDark: bool, prefersDark: bool)
    ensures InitialDark(Some(Encode(isDark)), prefersDark) == isDark
  {
  }

  class Toggle {
    /** The header exists, so the button was attached and listens for clicks. */
    const installed: bool
    /** The body carries the `light-mode` class. */
    var lightMode: bool
    var icon: ModeIcon
    var storage: map<string, string>

    /**
     * The button's icon shows the mode the body class gives. The stored value
     * is not part of this: other tabs of the same origin share the storage
     * and may change it at any time.
     */
    ghost predicate Valid()
      reads this
    {
      installed ==> icon == IconFor(!lightMode)
    }

    /** The stored preference describes the mode the body class gives. */
    ghost predicate Stored()
      reads this
    {
      Lookup(storage, StorageKey) == Some(Encode(!lightMode))
    }

    /**
     * The setup run when the page has loaded: without a header nothing else
     * happens; otherwise the startup mode is applied.
     */
    constructor Setup(hasHeader: bool, bodyLight: bool, storage: map<string, string>, prefersDark: bool)
      ensures Valid()
      ensures installed == hasHeader
      ensures hasHeader ==> Stored()
      ensures !hasHeader ==> lightMode == bodyLight && icon == Moon && this.storage == storage
      ensures hasHeader ==>
                var dark := InitialDark(Lookup(storage, StorageKey), prefersDark);
                && lightMode == !dark
                && this.storage == storage[StorageKey := Encode(dark)]
    {
      installed := hasHeader;
      lightMode := bodyLight;
      icon := Moon;
      this.storage := storage;
      new;
      if hasHeader {
        var savedMode := Lookup(storage, StorageKey);
        if savedMode == Some("off") || ((savedMode == None || savedMode == Some("")) && !prefersDark) {
          SetDarkMode(false);
        } else {
          SetDarkMode(true);
        }
      }
    }

    method SetDarkMode(isDark: bool)
      modifies this
      ensures lightMode == !isDark && icon == IconFor(isDark)
      ensures storage == old(storage)[StorageKey := Encode(isDark)]
      ensures Lookup(storage, StorageKey) == Some(Encode(isDark))
    {
      lightMode := !isDark;
      icon := if isDark then Moon else Sun;
      storage := storage[StorageKey := if isDark then "on" else "off"];
    }

    /**
     * A click on the button switches to the other mode, whatever the storage
     * and the icon held before, and stores it.
     */
    method Click()
      requires installed
      modifies this
      ensures Valid() && Stored()
      ensures lightMode == !old(lightMode)
      ensures storage == old(storage)[StorageKey := Encode(old(lightMode))]
    {
      var isDark := !lightMode;
      SetDarkMode(!isDark);
    }
  }

  /** Two clicks bring back the class and icon; the store keeps the second click's mode. */
  method TwoClicksRestore(t: Toggle)
    requires t.Valid() && t.installed
    modifies t
    ensures t.Valid() && t.Stored()
    ensures t.lightMode == old(t.lightMode) && t.icon == old(t.icon)
    ensures t.storage == old(t.storage)[StorageKey := Encode(!t.lightMode)]
  {
    t.Click();
    t.Click();
  }
}
