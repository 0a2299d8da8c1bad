/** The application shell (App.tsx): the session, the light/dark theme with
    its persisted preference, and the gate between the login page and the
    dashboard. The window, the stored preference and the system colour
    scheme are parameters. */
module App {
  import opened Types
  import opened Storage
  import Login

  datatype Theme = Light | Dark

  /** The string stored for a theme. */
  function ThemeName(t: Theme): (s: string)
    ensures s == "light" || s == "dark"
  {
    match t
    case Light => "light"
    case Dark => "dark"
  }

  /** `getInitialTheme`: light without a window; a stored "light" or "dark"
      as is; anything else (or nothing) follows the system preference. */
  function GetInitialTheme(hasWindow: bool, stored: Option<string>, prefersDark: bool): (t: Theme)
    ensures !hasWindow ==> t == Light
    ensures hasWindow && stored.Some? && (stored.value == "light" || stored.value == "dark") ==>
              ThemeName(t) == stored.value
    ensures hasWindow && !(stored.Some? && (stored.value == "light" || stored.value == "dark")) ==>
              t == (if prefersDark then Dark else Light)
  {
    if !hasWindow then Light
    else if stored == Some("light") then Light
    else if stored == Some("dark") then Dark
    else if prefersDark then Dark
    else Light
  }

  /** `handleThemeToggle`. */
  function Toggle(t: Theme): (r: Theme)
    ensures r != t
  {
    if t == Light then Dark else Light
  }

  lemma ToggleTwice(t: Theme)
    ensures Toggle(Toggle(t)) == t
  {
  }

  /** The theme effect: the current theme is written under "theme". */
  function PersistTheme(store: Store, t: Theme): (r: Store)
    ensures ThemeKey in r && r[ThemeKey] == ThemeName(t)
    ensures forall k :: k in store && k != ThemeKey ==> k in r && r[k] == store[k]
  {
    store[ThemeKey := ThemeName(t)]
  }

  /** A persisted theme is the one the next start picks, whatever the
      system preference. */
  lemma ThemeSurvivesRestart(store: Store, t: Theme, prefersDark: bool)
    ensures GetInitialTheme(true, GetItem(PersistTheme(store, t), ThemeKey), prefersDark) == t
  {
  }

  /** The signed-in user (`null` when signed out) and the theme. */
  datatype AppState = AppState(user: Option<string>, theme: Theme)

  function Start(hasWindow: bool, store: Store, prefersDark: bool): (s: AppState)
    ensures s.user.None?
  {
    AppState(None, GetInitialTheme(hasWindow, GetItem(store, ThemeKey), prefersDark))
  }

  /** `handleLogin` and `handleLogout`. */
  function LogIn(s: AppState, username: string): (r: AppState)
    ensures r.user == Some(username) && r.theme == s.theme
  {
    s.(user := Some(username))
  }

  function LogOut(s: AppState): (r: AppState)
    ensures r.user.None? && r.theme == s.theme
  {
    s.(user := None)
  }

  /** What the shell renders. */
  datatype Screen = LoginScreen | DashboardScreen(user: string, theme: Theme)

  /** The gate: the dashboard only for a truthy (non-empty) user. */
  function Render(s: AppState): (v: Screen)
    ensures v.DashboardScreen? <==> Truthy(s.user)
    ensures v.DashboardScreen? ==> v.user == s.user.value && v.theme == s.theme
  {
    if Truthy(s.user) then DashboardScreen(s.user.value, s.theme) else LoginScreen
  }

  /** A login form submit handled by the shell. */
  function SubmitToApp(s: AppState, username: string, password: string): (r: AppState)
    ensures r.theme == s.theme
    ensures username == Login.ValidUsername && password == Login.ValidPassword ==> r.user == Some(username)
    ensures !(username == Login.ValidUsername && password == Login.ValidPassword) ==> r == s
  {
    match Login.SubmitLogin(username, password).loggedIn
    case Some(u) => LogIn(s, u)
    case None => s
  }

  /** Signed out, the dashboard is reached exactly with the accepted pair,
      and then for that user; any other pair leaves the login page up. */
  lemma DashboardOnlyWithValidCredentials(s: AppState, username: string, password: string)
    requires s.user.None?
    ensures var v := Render(SubmitToApp(s, username, password));
            && (v.DashboardScreen? <==> username == Login.ValidUsername && password == Login.ValidPassword)
            && (v.DashboardScreen? ==> v.user == Login.ValidUsername)
  {
  }

  /** Logging out, by the header or by the idle timeout, always brings back
      the login page and keeps the theme. */
  lemma LogOutShowsLogin(s: AppState)
    ensures Render(LogOut(s)) == LoginScreen && LogOut(s).theme == s.theme
  {
  }
}
