/** The `Stack.Protected` guards of app/_layout.tsx. */
module RootLayout {
  import opened Auth

  /** The module-level `shouldCreateAccount` constant of the layout (not the
      context's flag). */
  const SHOULD_CREATE_ACCOUNT := false

  datatype Screen = Tabs | Login | Signup | Onboarding

  /** Whether a screen's guards (including enclosing ones) let it through. */
  predicate Reachable(a: AuthState, s: Screen) {
    match s
    case Tabs => a.isLoggedIn
    case Login => !a.isLoggedIn && a.hasCompletedOnboarding
    case Signup => (!a.isLoggedIn && a.hasCompletedOnboarding) && SHOULD_CREATE_ACCOUNT
    case Onboarding => !a.hasCompletedOnboarding
  }

  /** Signup is never reachable; tabs and login never both are; some screen
      always is. */
  lemma GuardFacts(a: AuthState)
    ensures !Reachable(a, Signup)
    ensures !(Reachable(a, Tabs) && Reachable(a, Login))
    ensures Reachable(a, Tabs) || Reachable(a, Login) || Reachable(a, Onboarding)
  {
  }

  /** Logging in reveals the tabs and hides login; logging out with
      onboarding completed leads to login. */
  lemma GuardsAfterAuthChanges(a: AuthState)
    ensures Reachable(LogIn(a), Tabs) && !Reachable(LogIn(a), Login)
    ensures a.hasCompletedOnboarding ==> Reachable(LogOut(a), Login) && !Reachable(LogOut(a), Onboarding)
    ensures Reachable(ResetOnboarding(a), Onboarding)
  {
  }
}
