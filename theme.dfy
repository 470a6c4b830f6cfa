/** The theme provider: a mode that is light, dark or follows the system,
    the derived dark flag, toggling, and the persisted mode. */
module Theme {
  import opened Types

  datatype ThemeMode = LightMode | DarkMode | SystemMode

  /** A colour scheme the platform can report; where it may report none,
      the model uses `Option<ColorScheme>`. */
  datatype ColorScheme = LightScheme | DarkScheme

  /** The stored spelling of each mode. */
  function ModeName(m: ThemeMode): string
  {
    match m
    case LightMode => "light"
    case DarkMode => "dark"
    case SystemMode => "system"
  }

  /** A stored value is accepted only when it is exactly one of the three names. */
  function ParseMode(s: string): (r: Option<ThemeMode>)
    ensures r.Some? ==> ModeName(r.value) == s
  {
    if s == "light" then Some(LightMode)
    else if s == "dark" then Some(DarkMode)
    else if s == "system" then Some(SystemMode)
    else None
  }

  /** Every mode's stored name is read back as that mode, so a value is
      accepted exactly when it is the name of some mode. */
  lemma ParseModeName(m: ThemeMode)
    ensures ParseMode(ModeName(m)) == Some(m)
  {
  }

  /** The dark flag: the system scheme in system mode, otherwise the mode
      itself; an unknown system scheme counts as light. */
  function IsDark(mode: ThemeMode, system: Option<ColorScheme>): (r: bool)
    ensures mode == DarkMode ==> r
    ensures mode == LightMode ==> !r
    ensures mode == SystemMode ==> (r <==> system == Some(DarkScheme))
  {
    if mode == SystemMode then system == Some(DarkScheme) else mode == DarkMode
  }

  /** The mode a toggle selects: always a manual mode, and always the one
      whose dark flag is the opposite of the current one. */
  function Toggled(mode: ThemeMode, system: Option<ColorScheme>): (r: ThemeMode)
    ensures r != SystemMode
    ensures IsDark(r, system) == !IsDark(mode, system)
  {
    if mode == SystemMode then (if system == Some(DarkScheme) then LightMode else DarkMode)
    else (if mode == DarkMode then LightMode else DarkMode)
  }

  /** Two toggles return to the same dark flag, and from a manual mode to the same mode. */
  lemma ToggleTwice(mode: ThemeMode, system: Option<ColorScheme>)
    ensures IsDark(Toggled(Toggled(mode, system), system), system) == IsDark(mode, system)
    ensures mode != SystemMode ==> Toggled(Toggled(mode, system), system) == mode
  {
  }

  class ThemeProvider {
    var themeMode: ThemeMode
    var isDark: bool
    var systemScheme: Option<ColorScheme>
    /** The persisted mode slot, as far as writes of this provider reached it. */
    ghost var storedMode: Option<string>

    /** The dark flag follows the mode and the system scheme. */
    ghost predicate Valid()
      reads this
    {
      isDark == IsDark(themeMode, systemScheme)
    }

    /** The provider starts in system mode, dark exactly when the system is. */
    constructor (system: Option<ColorScheme>, ghost stored: Option<string>)
      ensures Valid()
      ensures themeMode == SystemMode && systemScheme == system
      ensures isDark == (system == Some(DarkScheme))
      ensures storedMode == stored
    {
      themeMode := SystemMode;
      systemScheme := system;
      isDark := system == Some(DarkScheme);
      storedMode := stored;
    }

    /** The platform reports a new system scheme; the dark flag is re-derived. */
    method SystemSchemeChanged(system: Option<ColorScheme>)
      modifies this
      ensures Valid()
      ensures systemScheme == system
      ensures themeMode == old(themeMode) && storedMode == old(storedMode)
    {
      systemScheme := system;
      isDark := IsDark(themeMode, systemScheme);
    }

    /** Applies the value read from storage (None when the slot is empty or
        the read failed): a valid mode name replaces the mode, anything else
        leaves it as it was. */
    method LoadTheme(saved: Option<string>)
      requires Valid()
      modifies this
      ensures Valid()
      ensures saved.Some? && ParseMode(saved.value).Some? ==> themeMode == ParseMode(saved.value).value
      ensures saved.None? || ParseMode(saved.value).None? ==> themeMode == old(themeMode)
      ensures systemScheme == old(systemScheme) && storedMode == old(storedMode)
    {
      if saved.Some? && saved.value != "" {
        var m := ParseMode(saved.value);
        if m.Some? {
          themeMode := m.value;
        }
      }
      isDark := IsDark(themeMode, systemScheme);
    }

    /** Sets the mode first, then persists it; a failed write (`persisted`
        false) is only logged, so the new mode stays in effect. */
    method SetThemeMode(mode: ThemeMode, persisted: bool)
      modifies this
      ensures Valid()
      ensures themeMode == mode && systemScheme == old(systemScheme)
      ensures storedMode == if persisted then Some(ModeName(mode)) else old(storedMode)
    {
      themeMode := mode;
      isDark := IsDark(themeMode, systemScheme);
      if persisted {
        storedMode := Some(ModeName(mode));
      }
    }

    /** From system mode selects the opposite of the system scheme, from a
        manual mode the other manual mode; the dark flag always flips. */
    method ToggleTheme(persisted: bool)
      requires Valid()
      modifies this
      ensures Valid()
      ensures themeMode == Toggled(old(themeMode), old(systemScheme))
      ensures themeMode != SystemMode
      ensures isDark == !old(isDark)
      ensures systemScheme == old(systemScheme)
      ensures storedMode == if persisted then Some(ModeName(themeMode)) else old(storedMode)
    {
      if themeMode == SystemMode {
        SetThemeMode(if systemScheme == Some(DarkScheme) then LightMode else DarkMode, persisted);
      } else {
        SetThemeMode(if themeMode == DarkMode then LightMode else DarkMode, persisted);
      }
    }
  }
}
