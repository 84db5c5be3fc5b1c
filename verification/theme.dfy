/** The theme state of `composables/useTheme.js`: a three-valued mode, the
    two brand colours, and the system's dark-mode preference, with the
    transitions the composable exposes and the values it derives.  Writing to
    `localStorage`, the DOM updates of `applyTheme` and the media-query
    listener registration are effects outside this model; the preference the
    media query reports is an input. */
module Theme {
  import opened Wrappers
  import opened Strings
  import opened JsValues

  datatype Mode = Light | Dark | Auto

  /** The brand colours (CSS colour strings; the source does not check their
      syntax). */
  datatype Colors = Colors(primaryLight: string, primaryDark: string)

  datatype ThemeState = ThemeState(mode: Mode, colors: Colors, systemPrefersDark: bool)

  const DefaultPrimaryLight: string := "#2563eb"
  const DefaultPrimaryDark: string := "#60a5fa"
  const DefaultColors: Colors := Colors(DefaultPrimaryLight, DefaultPrimaryDark)

  /** The state before `initTheme` runs: mode `auto`, default colours, and no
      dark preference known yet. */
  const InitialState: ThemeState := ThemeState(Auto, DefaultColors, false)

  /** The string a mode is stored and passed around as. */
  function ModeName(m: Mode): string {
    match m
    case Light => "light"
    case Dark => "dark"
    case Auto => "auto"
  }

  /** `['light', 'dark', 'auto'].includes(s)`, returning the mode named. */
  function ParseMode(s: string): (r: Option<Mode>)
    ensures r.Some? <==> s in ["light", "dark", "auto"]
    ensures r.Some? ==> ModeName(r.value) == s
  {
    if s == "light" then Some(Light)
    else if s == "dark" then Some(Dark)
    else if s == "auto" then Some(Auto)
    else None
  }

  /** Mode names read back as the mode they name. */
  lemma ParseModeName(m: Mode)
    ensures ParseMode(ModeName(m)) == Some(m)
  {
  }

  // ---------------------------------------------------------------------
  // Derived values

  /** `isDarkMode`: darkness is decided by the mode alone except in `auto`,
      where it follows the system preference. */
  function IsDarkMode(st: ThemeState): (r: bool)
    ensures st.mode == Light ==> !r
    ensures st.mode == Dark ==> r
    ensures st.mode == Auto ==> (r <==> st.systemPrefersDark)
  {
    st.mode == Dark || (st.mode == Auto && st.systemPrefersDark)
  }

  /** `currentPrimaryColor`. */
  function CurrentPrimaryColor(st: ThemeState): (r: string)
    ensures IsDarkMode(st) ==> r == st.colors.primaryDark
    ensures !IsDarkMode(st) ==> r == st.colors.primaryLight
  {
    if IsDarkMode(st) then st.colors.primaryDark else st.colors.primaryLight
  }

  /** `themeLabel`: the mode's name with its first letter capitalised. */
  function ThemeLabel(st: ThemeState): (r: string)
    ensures st.mode == Light <==> r == "Light"
    ensures st.mode == Dark <==> r == "Dark"
    ensures st.mode == Auto <==> r == "Auto"
    ensures LowerAscii(r) == ModeName(st.mode)
  {
    match st.mode
    case Light => "Light"
    case Dark => "Dark"
    case Auto => "Auto"
  }

  /** Each mode shows a different label: the label identifies the mode. */
  lemma ThemeLabelIdentifiesMode(a: ThemeState, b: ThemeState)
    ensures ThemeLabel(a) == ThemeLabel(b) <==> a.mode == b.mode
  {
  }

  // ---------------------------------------------------------------------
  // Transitions

  /** `setTheme`: any value other than the three mode names is ignored. */
  function SetTheme(st: ThemeState, theme: string): (r: ThemeState)
    ensures ParseMode(theme).None? ==> r == st
    ensures ParseMode(theme).Some? ==> ModeName(r.mode) == theme
    ensures r.colors == st.colors && r.systemPrefersDark == st.systemPrefersDark
  {
    match ParseMode(theme)
    case None => st
    case Some(m) => st.(mode := m)
  }

  /** `toggleTheme`: light, then dark, then auto, then light again. */
  function ToggleTheme(st: ThemeState): (r: ThemeState)
    ensures r.mode != st.mode
    ensures st.mode == Light ==> r.mode == Dark
    ensures st.mode == Dark ==> r.mode == Auto
    ensures st.mode == Auto ==> r.mode == Light
    ensures r.colors == st.colors && r.systemPrefersDark == st.systemPrefersDark
  {
    match st.mode
    case Light => SetTheme(st, "dark")
    case Dark => SetTheme(st, "auto")
    case Auto => SetTheme(st, "light")
  }

  /** Three toggles return to the starting state, and the three states of a
      cycle show all three modes. */
  lemma ToggleCycle(st: ThemeState)
    ensures ToggleTheme(ToggleTheme(ToggleTheme(st))) == st
    ensures ToggleTheme(st).mode != ToggleTheme(ToggleTheme(st)).mode
  {
  }

  /** The object passed to `setCustomColors`; either field may be unset. */
  datatype ColorInput = ColorInput(primaryLight: JsString, primaryDark: JsString)

  /** `new || old` for a colour string. */
  function Choose(v: JsString, current: string): (r: string)
    ensures Truthy(v) ==> r == v.s
    ensures !Truthy(v) ==> r == current
  {
    if Truthy(v) then v.s else current
  }

  /** `setCustomColors`: each colour is replaced only by a truthy new value. */
  function SetCustomColors(st: ThemeState, c: ColorInput): (r: ThemeState)
    ensures r.mode == st.mode && r.systemPrefersDark == st.systemPrefersDark
    ensures r.colors.primaryLight == (if Truthy(c.primaryLight) then c.primaryLight.s else st.colors.primaryLight)
    ensures r.colors.primaryDark == (if Truthy(c.primaryDark) then c.primaryDark.s else st.colors.primaryDark)
  {
    st.(colors := Colors(Choose(c.primaryLight, st.colors.primaryLight),
                         Choose(c.primaryDark, st.colors.primaryDark)))
  }

  /** `resetColors`: back to the colours the state starts with. */
  function ResetColors(st: ThemeState): (r: ThemeState)
    ensures r.colors == InitialState.colors
    ensures r.mode == st.mode && r.systemPrefersDark == st.systemPrefersDark
  {
    st.(colors := Colors("#2563eb", "#60a5fa"))
  }

  /** `initTheme`, without the saved colours: adopt the reported system
      preference, and the saved mode only when it names a mode. */
  function InitTheme(st: ThemeState, prefersDark: bool, savedTheme: Option<string>): (r: ThemeState)
    ensures r.systemPrefersDark == prefersDark && r.colors == st.colors
    ensures savedTheme.Some? && ParseMode(savedTheme.value).Some? ==> ModeName(r.mode) == savedTheme.value
    ensures (savedTheme.None? || ParseMode(savedTheme.value).None?) ==> r.mode == st.mode
  {
    var st1 := st.(systemPrefersDark := prefersDark);
    match savedTheme
    case None => st1
    case Some(saved) => if ParseMode(saved).Some? then st1.(mode := ParseMode(saved).value) else st1
  }

  /** The media-query change listener. */
  function SystemPreferenceChanged(st: ThemeState, matches: bool): (r: ThemeState)
    ensures r.systemPrefersDark == matches && r.mode == st.mode && r.colors == st.colors
  {
    st.(systemPrefersDark := matches)
  }

  /** The colour fields of a card record, as `loadColorsFromCard` reads them
      and `getColorsForCard` produces them. */
  datatype CardColors = CardColors(themePrimaryLight: JsString, themePrimaryDark: JsString)

  /** `loadColorsFromCard`: a no-op for a missing card or when neither colour
      is set; otherwise each set colour replaces the current one. */
  function LoadColorsFromCard(st: ThemeState, card: Option<CardColors>): (r: ThemeState)
    ensures card.None? ==> r == st
    ensures card.Some? && !Truthy(card.value.themePrimaryLight) && !Truthy(card.value.themePrimaryDark) ==> r == st
    ensures r.mode == st.mode && r.systemPrefersDark == st.systemPrefersDark
    ensures card.Some? ==>
      r.colors == Colors(Choose(card.value.themePrimaryLight, st.colors.primaryLight),
                         Choose(card.value.themePrimaryDark, st.colors.primaryDark))
  {
    match card
    case None => st
    case Some(c) =>
      if Truthy(c.themePrimaryLight) || Truthy(c.themePrimaryDark) then
        SetCustomColors(st, ColorInput(Str(Choose(c.themePrimaryLight, st.colors.primaryLight)),
                                       Str(Choose(c.themePrimaryDark, st.colors.primaryDark))))
      else st
  }

  /** `getColorsForCard`. */
  function GetColorsForCard(st: ThemeState): (r: CardColors)
    ensures r.themePrimaryLight.Str? && r.themePrimaryDark.Str?
  {
    CardColors(Str(st.colors.primaryLight), Str(st.colors.primaryDark))
  }

  /** Loading the colours just read off the state changes nothing, and the
      colours read after loading a card are the card's set colours. */
  lemma LoadGetRoundTrip(st: ThemeState, card: CardColors)
    ensures LoadColorsFromCard(st, Some(GetColorsForCard(st))) == st
    ensures Truthy(card.themePrimaryLight) && Truthy(card.themePrimaryDark) ==>
      GetColorsForCard(LoadColorsFromCard(st, Some(card))) == card
  {
  }

  // ---------------------------------------------------------------------
  // An invariant of every transition

  /** Both colours are non-empty strings. */
  predicate ColorsSet(st: ThemeState) {
    st.colors.primaryLight != [] && st.colors.primaryDark != []
  }

  /** The colours start set, and no transition can clear them: a colour is
      only ever replaced by a truthy (non-empty) string. */
  lemma ColorsStaySet(st: ThemeState, theme: string, c: ColorInput, prefersDark: bool,
                      saved: Option<string>, card: Option<CardColors>)
    requires ColorsSet(st)
    ensures ColorsSet(InitialState)
    ensures ColorsSet(SetTheme(st, theme)) && ColorsSet(ToggleTheme(st))
    ensures ColorsSet(SetCustomColors(st, c)) && ColorsSet(ResetColors(st))
    ensures ColorsSet(InitTheme(st, prefersDark, saved)) && ColorsSet(SystemPreferenceChanged(st, prefersDark))
    ensures ColorsSet(LoadColorsFromCard(st, card))
  {
  }
}
