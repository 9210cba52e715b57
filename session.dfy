/**
  The session of App.js: a reducer over `{isLoading, isOnboardingCompleted}`,
  the startup effect that reads the saved user, the `signIn`/`signOut`
  context functions over the store, and the choice of screens.
 */
module Session {
  import opened Wrappers
  import opened UserProfile
  import opened Storage

  datatype SessionState = SessionState(isLoading: bool, isOnboardingCompleted: bool)

  /** Loading, and not signed in. */
  const InitialState := SessionState(true, false)

  /** An action's `type`; `Unknown` is any other text. */
  datatype Action = SignIn | SignOut | StopLoading | Unknown(actionType: string)

  /**
    The reducer. Its `switch` has no default branch, so an unknown action
    yields `undefined`, written `None`.
   */
  function Reduce(s: SessionState, a: Action): (r: Option<SessionState>)
    ensures r.None? <==> a.Unknown?
    ensures a.SignIn? ==> r == Some(SessionState(s.isLoading, true))
    ensures a.SignOut? ==> r == Some(SessionState(s.isLoading, false))
    ensures a.StopLoading? ==> r == Some(SessionState(false, s.isOnboardingCompleted))
  {
    match a
    case SignIn => Some(s.(isOnboardingCompleted := true))
    case SignOut => Some(s.(isOnboardingCompleted := false))
    case StopLoading => Some(s.(isLoading := false))
    case Unknown(_) => None
  }

  /** Each known action is idempotent. */
  lemma ReduceIdempotent(s: SessionState, a: Action)
    requires !a.Unknown?
    ensures Reduce(Reduce(s, a).value, a) == Reduce(s, a)
  {
  }

  /** Signing in or out and stopping the loading touch different fields, so their order does not matter. */
  lemma StopLoadingCommutes(s: SessionState, a: Action)
    requires a.SignIn? || a.SignOut?
    ensures Reduce(Reduce(s, a).value, StopLoading) == Reduce(Reduce(s, StopLoading).value, a)
  {
  }

  /** Of two sign-in/sign-out actions in a row, the last one decides. */
  lemma LastSignWins(s: SessionState, a: Action, b: Action)
    requires a.SignIn? || a.SignOut?
    requires b.SignIn? || b.SignOut?
    ensures Reduce(Reduce(s, a).value, b) == Reduce(s, b)
  {
  }

  datatype Screen = SplashScreen | OnboardingScreen | HomeScreen | ProfileScreen

  /** The screens the app renders in state `s`; the first is the one shown. */
  function Screens(s: SessionState): (r: seq<Screen>)
    ensures |r| >= 1
    ensures SplashScreen in r <==> s.isLoading
    ensures OnboardingScreen in r <==> !s.isLoading && !s.isOnboardingCompleted
    ensures HomeScreen in r <==> !s.isLoading && s.isOnboardingCompleted
    ensures ProfileScreen in r <==> !s.isLoading && s.isOnboardingCompleted
    ensures !s.isLoading && s.isOnboardingCompleted ==> r[0] == HomeScreen
  {
    if s.isLoading then [SplashScreen]
    else if s.isOnboardingCompleted then [HomeScreen, ProfileScreen]
    else [OnboardingScreen]
  }

  class App {
    var state: SessionState
    const storage: KeyValueStore

    /** Signed in only while a user is saved. */
    ghost predicate SignedInHasUser()
      reads this, storage
    {
      state.isOnboardingCompleted ==> UserKey in storage.entries
    }

    constructor (storage: KeyValueStore)
      ensures this.storage == storage && state == InitialState
      ensures SignedInHasUser()
    {
      this.storage := storage;
      state := InitialState;
    }

    /**
      The startup effect: `SIGN_IN` when a user is saved, and then, whether or
      not the read failed, `STOP_LOADING`.
     */
    method Startup(readOk: bool) returns (alerted: bool)
      requires SignedInHasUser()
      modifies this`state
      ensures alerted == !readOk
      ensures state == SessionState(false, old(state.isOnboardingCompleted) || (readOk && UserKey in storage.entries))
      ensures SplashScreen !in Screens(state)
      ensures SignedInHasUser()
    {
      var r := storage.GetItem(UserKey, readOk);
      alerted := r.ReadFailed?;
      if r.Value? && r.item.Some? {
        state := Reduce(state, Action.SignIn).value;
      }
      state := Reduce(state, StopLoading).value;
    }

    /** `signIn(obj)`: save the defaults merged with `obj`, then `SIGN_IN`; a failed write skips the dispatch. */
    method SignIn(obj: Fields, writeOk: bool) returns (ok: bool)
      requires SignedInHasUser()
      modifies this`state, storage
      ensures ok == writeOk
      ensures storage.entries == if ok then old(storage.entries)[UserKey := Overlay(InitialProfile, obj)] else old(storage.entries)
      ensures state == if ok then old(state).(isOnboardingCompleted := true) else old(state)
      ensures SignedInHasUser()
    {
      ok := storage.SetItem(UserKey, Overlay(InitialProfile, obj), writeOk);
      if ok {
        state := Reduce(state, Action.SignIn).value;
      }
    }

    /** `signOut()`: remove the saved user, then `SIGN_OUT`; a failed removal skips the dispatch. */
    method SignOut(removeOk: bool) returns (ok: bool)
      requires SignedInHasUser()
      modifies this`state, storage
      ensures ok == removeOk
      ensures storage.entries == if ok then old(storage.entries) - {UserKey} else old(storage.entries)
      ensures state == if ok then old(state).(isOnboardingCompleted := false) else old(state)
      ensures ok ==> UserKey !in storage.entries && !state.isOnboardingCompleted
      ensures SignedInHasUser()
    {
      ok := storage.RemoveItem(UserKey, removeOk);
      if ok {
        state := Reduce(state, Action.SignOut).value;
      }
    }
  }
}
