/**
 * The client's session store, `client/src/store/authSlice.ts`: the signed-in
 * user, the access token, and the flag the pages read.
 */
module AuthSlice {
  import opened Wrappers
  import opened Users

  /** `user` holds the user document of a reply; a token read from a reply that lacks one is `undefined`, here `None`. */
  datatype AuthState = AuthState(user: Option<Document>, token: Option<string>, isAuthenticated: bool)

  const Initial := AuthState(None, None, false)

  datatype Action = SetCredentials(user: Document, accessToken: Option<string>) | LogOut

  /** The flag is set exactly when a user is stored, and a user exactly when a token is. */
  predicate Consistent(s: AuthState) {
    (s.isAuthenticated <==> s.user.Some?) && (s.user.Some? <==> s.token.Some?)
  }

  /** The reducer. Neither case looks at the prior state. */
  function Reduce(s: AuthState, a: Action): (r: AuthState)
    ensures a.SetCredentials? ==> r.user == Some(a.user) && r.token == a.accessToken && r.isAuthenticated
    ensures a.LogOut? ==> r == Initial
    ensures a.SetCredentials? && a.accessToken.Some? ==> Consistent(r)
    ensures a.LogOut? ==> Consistent(r)
  {
    match a
    case SetCredentials(user, token) => AuthState(Some(user), token, true)
    case LogOut => Initial
  }

  /** The state after a run of actions from `s`. */
  function Run(s: AuthState, actions: seq<Action>): AuthState
    decreases |actions|
  {
    if actions == [] then s else Run(Reduce(s, actions[0]), actions[1..])
  }

  /** Every credential the actions carry includes a token. */
  predicate CarryTokens(actions: seq<Action>) {
    forall k :: 0 <= k < |actions| && actions[k].SetCredentials? ==> actions[k].accessToken.Some?
  }

  lemma InitialConsistent()
    ensures Consistent(Initial)
  {
  }

  /** From the initial state, any run whose credentials carry tokens stays consistent. */
  lemma {:induction false} RunKeepsConsistent(s: AuthState, actions: seq<Action>)
    requires Consistent(s) && CarryTokens(actions)
    ensures Consistent(Run(s, actions))
    decreases |actions|
  {
    if actions != [] {
      assert CarryTokens(actions[1..]) by {
        forall k | 0 <= k < |actions[1..]| && actions[1..][k].SetCredentials?
          ensures actions[1..][k].accessToken.Some?
        {
          assert actions[1..][k] == actions[k + 1];
        }
      }
      RunKeepsConsistent(Reduce(s, actions[0]), actions[1..]);
    }
  }

  /** Logging out yields the initial state from anywhere, so doing it twice is doing it once. */
  lemma LogOutIdempotent(s: AuthState)
    ensures Reduce(Reduce(s, LogOut), LogOut) == Reduce(s, LogOut) == Initial
  {
  }

  /** Setting credentials forgets the previous session entirely. */
  lemma SetCredentialsOverwrites(s: AuthState, t: AuthState, user: Document, token: Option<string>)
    ensures Reduce(s, SetCredentials(user, token)) == Reduce(t, SetCredentials(user, token))
  {
  }
}
