/**
 * The authentication flags of utils/authContext.tsx and the route guards of
 * app/_layout.tsx computed from them.
 */
module Auth {

  datatype AuthState = AuthState(isLoggedIn: bool, shouldCreateAccount: bool, hasCompletedOnboarding: bool)

  /** Every flag starts false. */
  const INITIAL_AUTH := AuthState(false, false, false)

  function LogIn(a: AuthState): (r: AuthState)
    ensures r.isLoggedIn
    ensures r.shouldCreateAccount == a.shouldCreateAccount && r.hasCompletedOnboarding == a.hasCompletedOnboarding
  {
    a.(isLoggedIn := true)
  }

  function LogOut(a: AuthState): (r: AuthState)
    ensures !r.isLoggedIn
    ensures r.shouldCreateAccount == a.shouldCreateAccount && r.hasCompletedOnboarding == a.hasCompletedOnboarding
  {
    a.(isLoggedIn := false)
  }

  function CompleteOnboarding(a: AuthState): (r: AuthState)
    ensures r.hasCompletedOnboarding
    ensures r.isLoggedIn == a.isLoggedIn && r.shouldCreateAccount == a.shouldCreateAccount
  {
    a.(hasCompletedOnboarding := true)
  }

  function ResetOnboarding(a: AuthState): (r: AuthState)
    ensures !r.hasCompletedOnboarding
    ensures r.isLoggedIn == a.isLoggedIn && r.shouldCreateAccount == a.shouldCreateAccount
  {
    a.(hasCompletedOnboarding := false)
  }

  /** Each operation is idempotent. */
  lemma OperationsIdempotent(a: AuthState)
    ensures LogIn(LogIn(a)) == LogIn(a) && LogOut(LogOut(a)) == LogOut(a)
    ensures CompleteOnboarding(CompleteOnboarding(a)) == CompleteOnboarding(a)
    ensures ResetOnboarding(ResetOnboarding(a)) == ResetOnboarding(a)
  {
  }

  /** The operations the provider offers. */
  datatype AuthOp = LogInOp | LogOutOp | CompleteOnboardingOp | ResetOnboardingOp

  function Apply(a: AuthState, op: AuthOp): AuthState {
    match op
    case LogInOp => LogIn(a)
    case LogOutOp => LogOut(a)
    case CompleteOnboardingOp => CompleteOnboarding(a)
    case ResetOnboardingOp => ResetOnboarding(a)
  }

  function ApplyAll(a: AuthState, ops: seq<AuthOp>): AuthState
    decreases |ops|
  {
    if |ops| == 0 then a else ApplyAll(Apply(a, ops[0]), ops[1..])
  }

  /** No operation ever sets `shouldCreateAccount`: it stays false from the
      initial state whatever happens. */
  lemma {:induction false} ShouldCreateAccountNeverChanges(a: AuthState, ops: seq<AuthOp>)
    ensures ApplyAll(a, ops).shouldCreateAccount == a.shouldCreateAccount
    decreases |ops|
  {
    if |ops| > 0 {
      ShouldCreateAccountNeverChanges(Apply(a, ops[0]), ops[1..]);
    }
  }
}
