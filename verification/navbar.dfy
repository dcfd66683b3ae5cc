/** The dashboard header: the avatar letter and the name shown for the signed-in
    profile, and the sign-out button's sequence of effects. */
module Navbar {
  import opened Types
  import opened UserStore
  import opened Effects

  /** `full_name` is shown when it is present and non-empty (a non-empty string
      is truthy); otherwise the header falls back. */
  predicate HasName(fullName: Option<string>)
  {
    fullName.Some? && fullName.value != ""
  }

  /** `user.full_name?.[0] || 'U'`: the first character of the name, or `U`. */
  function AvatarInitial(fullName: Option<string>): (initial: string)
    ensures |initial| == 1
    ensures HasName(fullName) ==> initial[0] == fullName.value[0]
    ensures !HasName(fullName) ==> initial == "U"
  {
    if HasName(fullName) then [fullName.value[0]] else "U"
  }

  /** `user.full_name || 'User'`: the name, or `User`. */
  function DisplayName(fullName: Option<string>): (name: string)
    ensures name != ""
    ensures HasName(fullName) ==> name == fullName.value
    ensures !HasName(fullName) ==> name == "User"
  {
    if HasName(fullName) then fullName.value else "User"
  }

  /** The avatar letter is always the first letter of the displayed name, on
      both the named and the fallback path. */
  lemma AvatarMatchesName(fullName: Option<string>)
    ensures AvatarInitial(fullName) == DisplayName(fullName)[..1]
  {
  }

  /** How the awaited `auth.signOut()` settles: it returns, or it throws, in
      which case the async handler stops there. */
  datatype SignOutOutcome = SignOutReturned | SignOutThrew

  const LoginPath: string := "/login"

  /** `handleSignOut`: clear the profile in the store, sign out with the
      identity provider, then hard-navigate to `/login`. */
  function HandleSignOut(outcome: SignOutOutcome): (trace: seq<Effect>)
    ensures |trace| >= 2
    ensures trace[0] == Store(WriteProfile(None)) && trace[1] == SignOut
    ensures HardNavigate(LoginPath) in trace <==> outcome == SignOutReturned
    ensures outcome == SignOutReturned ==> trace[|trace| - 1] == HardNavigate(LoginPath)
  {
    [Store(WriteProfile(None)), SignOut]
    + (if outcome == SignOutReturned then [HardNavigate(LoginPath)] else [])
  }

  /** Signing out writes only the profile: afterwards there is no profile and
      the loading flag is what it was, whichever way the provider call ends. */
  lemma SignOutKeepsLoading(s: UserState, outcome: SignOutOutcome)
    ensures Final(s, HandleSignOut(outcome)) == UserState(None, s.isLoading)
  {
    var rest := HandleSignOut(outcome)[1..];
    assert HandleSignOut(outcome) == [Store(WriteProfile(None))] + rest;
    FinalCons(s, Store(WriteProfile(None)), rest);
    var s1 := SetProfile(s, None);
    if outcome == SignOutReturned {
      assert rest == [SignOut] + [HardNavigate(LoginPath)];
      FinalCons(s1, SignOut, [HardNavigate(LoginPath)]);
      FinalOne(s1, HardNavigate(LoginPath));
    } else {
      assert rest == [SignOut];
      FinalOne(s1, SignOut);
    }
  }
}
