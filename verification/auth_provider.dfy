/** The client-side authentication bootstrap: resolve the session, look the
    profile up, insert a default profile when the lookup reports a missing row,
    and otherwise fall back to anonymous; plus the handler for auth events.

    Every async call is an input outcome, and each flow is a pure function that
    returns the trace of effects it performs. The `mounted` flag that guards
    stale responses is sampled only where the code reads it. */
module AuthProvider {
  import opened Types
  import opened Strings
  import opened UserStore
  import opened Effects

  /** When the effect cleanup sets `mounted := false`, counted in resumed awaits
      of the flow at hand: `StaysMounted`, or `UnmountsBefore(n)`, meaning the
      cleanup ran before the `n`-th await resumed. The flag only ever goes from
      true to false, which this encoding builds in. */
  datatype Lifetime = StaysMounted | UnmountsBefore(n: nat)

  /** The `mounted` flag as read by a check that runs after `k` awaits resumed. */
  predicate Mounted(life: Lifetime, k: nat)
  {
    life.StaysMounted? || k < life.n
  }

  /** The same lifetime seen from a flow that starts `d` awaits later. */
  function After(life: Lifetime, d: nat): (r: Lifetime)
    ensures forall k: nat :: Mounted(r, k) <==> Mounted(life, k + d)
  {
    match life
    case StaysMounted => StaysMounted
    case UnmountsBefore(n) => UnmountsBefore(if n >= d then n - d else 0)
  }

  /** Once a check reads `false`, every later check does too. */
  lemma MountedEarlier(life: Lifetime, j: nat, k: nat)
    requires j <= k && Mounted(life, k)
    ensures Mounted(life, j)
  {
  }

  /** A database error object as returned by the query client. */
  datatype DbError = DbError(code: string, details: Option<string>)

  /** What an awaited query settles to: a response carrying `data` and `error`
      (either may be null), or a thrown exception. */
  datatype Response = Responded(data: Option<Profile>, error: Option<DbError>) | Rejected

  /** What `auth.getSession()` settles to: the session's user id when there is
      a session with a user, or a thrown exception. The returned `error` field
      is never read, so it is not part of the outcome. */
  datatype SessionOutcome = Resolved(userId: Option<string>) | SessionRejected

  /** Auth events delivered to the `onAuthStateChange` subscription. */
  datatype AuthEvent = InitialSession | SignedIn | SignedOut | TokenRefreshed | UserUpdated | PasswordRecovery

  const NotFoundCode: string := "PGRST116"
  const NoRowsDetail: string := "0 rows"

  /** The lookup error that triggers self-heal: code `PGRST116`, or details
      that include `0 rows`. A missing error, or one with other code and
      details, is not a missing row. */
  function IsMissingRow(error: Option<DbError>): (missing: bool)
    ensures missing <==> error.Some? && (error.value.code == NotFoundCode ||
                                         (error.value.details.Some? &&
                                          exists i :: OccursAt(error.value.details.value, NoRowsDetail, i)))
  {
    error.Some? &&
    (error.value.code == NotFoundCode ||
     (error.value.details.Some? && Includes(error.value.details.value, NoRowsDetail)))
  }

  /** The response carries a profile and no error (`data && !error`). */
  predicate Usable(r: Response)
  {
    r.Responded? && r.data.Some? && r.error.None?
  }

  /** The lookup reported a missing row, so the flow attempts the self-heal insert. */
  predicate SelfHeals(lookup: Response)
  {
    lookup.Responded? && IsMissingRow(lookup.error)
  }

  /** The default profile inserted on self-heal. */
  function DefaultRow(userId: string): (row: ProfileDraft)
    ensures row.id == userId && row.fullName == "Customer" && row.role == Customer
  {
    ProfileDraft(userId, "Customer", Customer)
  }

  /** The `finally` of `fetchProfile`: stop loading if still mounted. */
  function Finally(life: Lifetime, k: nat): seq<Effect>
  {
    if Mounted(life, k) then [Store(WriteLoading(false))] else []
  }

  /** The rest of `fetchProfile` once the self-heal insert settles. The flag is
      not read again before `setProfile`; only the `finally` reads it. */
  function AfterInsert(life: Lifetime, insert: Response): seq<Effect>
  {
    match insert
    case Rejected =>
      (if Mounted(life, 2) then [Store(WriteProfile(None))] else []) + Finally(life, 2)
    case Responded(row, error) =>
      (if row.Some? && error.None? then [Store(WriteProfile(row))] else [Store(WriteProfile(None))])
      + Finally(life, 2)
  }

  /** The rest of `fetchProfile` once the lookup settles. */
  function AfterLookup(life: Lifetime, userId: string, lookup: Response, insert: Response): seq<Effect>
  {
    match lookup
    case Rejected =>
      (if Mounted(life, 1) then [Store(WriteProfile(None))] else []) + Finally(life, 1)
    case Responded(data, error) =>
      if !Mounted(life, 1) then Finally(life, 1)
      else if data.Some? && error.None? then [Store(WriteProfile(data))] + Finally(life, 1)
      else if IsMissingRow(error) then [InsertProfile(DefaultRow(userId))] + AfterInsert(life, insert)
      else [Store(WriteProfile(None))] + Finally(life, 1)
  }

  /** The lookup is the only query of a fetch: what follows it never selects. */
  lemma AfterLookupSelectsNothing(life: Lifetime, userId: string, lookup: Response, insert: Response)
    ensures forall e :: e in AfterLookup(life, userId, lookup, insert) ==> !e.SelectProfile?
  {
  }

  /** `fetchProfile(userId)`: mark loading, look the profile up, then either
      keep it, self-heal, or fall back to no profile; stop loading at the end. */
  function FetchProfile(life: Lifetime, userId: string, lookup: Response, insert: Response): (trace: seq<Effect>)
    ensures Mounted(life, 0) ==> |trace| >= 2 && trace[0] == Store(WriteLoading(true)) && trace[1] == SelectProfile(userId)
    ensures !Mounted(life, 0) ==> |trace| >= 1 && trace[0] == SelectProfile(userId)
    ensures forall u :: SelectProfile(u) in trace <==> u == userId
  {
    AfterLookupSelectsNothing(life, userId, lookup, insert);
    (if Mounted(life, 0) then [Store(WriteLoading(true))] else [])
    + [SelectProfile(userId)]
    + AfterLookup(life, userId, lookup, insert)
  }

  /** `initializeAuth()`: resolve the session; with a user, fetch the profile,
      otherwise (no session, or the check threw) clear the profile and stop loading. */
  function InitializeAuth(life: Lifetime, session: SessionOutcome, lookup: Response, insert: Response): (trace: seq<Effect>)
    ensures |trace| >= 1 && trace[0] == GetSession
    ensures session.Resolved? && session.userId.Some? ==> SelectProfile(session.userId.value) in trace
    ensures forall u :: SelectProfile(u) in trace ==> session == Resolved(Some(u))
  {
    [GetSession] +
    match session
    case Resolved(Some(userId)) => FetchProfile(After(life, 1), userId, lookup, insert)
    case _ =>
      if Mounted(life, 1) then [Store(WriteProfile(None)), Store(WriteLoading(false))] else []
  }

  /** The `onAuthStateChange` callback: `SIGNED_IN` with a user refetches the
      profile, `SIGNED_OUT` clears the store and redirects to `/login`, and
      every other event does nothing. */
  function HandleAuthEvent(life: Lifetime, event: AuthEvent, sessionUser: Option<string>,
                           lookup: Response, insert: Response): (trace: seq<Effect>)
    ensures !Mounted(life, 0) ==> trace == []
    ensures event !in {SignedIn, SignedOut} ==> trace == []
    ensures event == SignedIn && sessionUser.None? ==> trace == []
  {
    match event
    case SignedIn =>
      if sessionUser.Some? && Mounted(life, 0) then FetchProfile(life, sessionUser.value, lookup, insert)
      else []
    case SignedOut =>
      if Mounted(life, 0) then [Store(WriteProfile(None)), Store(WriteLoading(false)), RouterReplace("/login")]
      else []
    case _ => []
  }

  // ---------------------------------------------------------------------------
  // The state machine the flow implements, and the proofs that the traces
  // settle the store into it.

  /** The terminal states of the bootstrap. */
  datatype Outcome = Authenticated(profile: Profile) | Anonymous

  /** Which terminal state a profile fetch reaches when it is never cut short:
      a usable lookup yields its row; a missing row yields the inserted row when
      the insert returns one without error; anything else is anonymous. */
  function Resolution(lookup: Response, insert: Response): Outcome
  {
    if Usable(lookup) then Authenticated(lookup.data.value)
    else if SelfHeals(lookup) then
      (if Usable(insert) then Authenticated(insert.data.value) else Anonymous)
    else Anonymous
  }

  /** The store as readers see it in a terminal state: loading done. */
  function Ready(o: Outcome): UserState
  {
    match o
    case Authenticated(p) => UserState(Some(p), false)
    case Anonymous => UserState(None, false)
  }

  /** The number of awaits `fetchProfile` makes: the lookup, plus the insert on self-heal. */
  function FetchAwaits(lookup: Response): nat
  {
    if SelfHeals(lookup) then 2 else 1
  }

  /** The profile a settled fetch writes last: the row of the outcome, or none. */
  function SettledProfile(o: Outcome): (p: Option<Profile>)
    ensures Ready(o) == UserState(p, false)
  {
    if o.Authenticated? then Some(o.profile) else None
  }

  /** Once the lookup settles with the fetch mounted to the end, the rest of the
      fetch is the self-heal insert (when the row is missing), then the two
      terminal writes of the outcome. */
  lemma AfterLookupSettles(life: Lifetime, userId: string, lookup: Response, insert: Response)
    requires Mounted(life, 1) && Mounted(life, FetchAwaits(lookup))
    ensures AfterLookup(life, userId, lookup, insert)
            == (if SelfHeals(lookup) then [InsertProfile(DefaultRow(userId))] else [])
               + [Store(WriteProfile(SettledProfile(Resolution(lookup, insert)))), Store(WriteLoading(false))]
  {
  }

  /** A profile fetch that is still mounted at its last check settles the store
      into the state-machine outcome with loading finished, whatever the store
      held before. */
  lemma FetchProfileSettles(s: UserState, life: Lifetime, userId: string, lookup: Response, insert: Response)
    requires Mounted(life, FetchAwaits(lookup))
    ensures Final(s, FetchProfile(life, userId, lookup, insert)) == Ready(Resolution(lookup, insert))
  {
    MountedEarlier(life, 0, FetchAwaits(lookup));
    MountedEarlier(life, 1, FetchAwaits(lookup));
    AfterLookupSettles(life, userId, lookup, insert);
    var p := SettledProfile(Resolution(lookup, insert));
    var last := [Store(WriteProfile(p)), Store(WriteLoading(false))];
    var pre := [Store(WriteLoading(true)), SelectProfile(userId)]
               + (if SelfHeals(lookup) then [InsertProfile(DefaultRow(userId))] else []);
    assert FetchProfile(life, userId, lookup, insert) == pre + last;
    FinalAppend(s, pre, last);
    FinalSettle(Final(s, pre), p);
  }


  /** A profile fetch whose component is unmounted when the lookup settles
      performs nothing after issuing the lookup. */
  lemma FetchProfileStale(life: Lifetime, userId: string, lookup: Response, insert: Response)
    requires !Mounted(life, 1)
    ensures FetchProfile(life, userId, lookup, insert)
            == (if Mounted(life, 0) then [Store(WriteLoading(true))] else []) + [SelectProfile(userId)]
  {
  }

  /** The self-heal insert is attempted exactly when the flow is still mounted
      after the lookup and the lookup reported a missing row, and the only row
      ever inserted is the default row for the looked-up user. */
  lemma SelfHealExactly(life: Lifetime, userId: string, lookup: Response, insert: Response)
    ensures InsertProfile(DefaultRow(userId)) in FetchProfile(life, userId, lookup, insert)
            <==> Mounted(life, 1) && SelfHeals(lookup)
    ensures forall e :: (e in FetchProfile(life, userId, lookup, insert) && e.InsertProfile?
                         ==> e.row == DefaultRow(userId))
  {
  }

  /** On a usable lookup the profile is the looked-up row and no insert is attempted. */
  lemma FoundProfileIsKept(s: UserState, life: Lifetime, userId: string, lookup: Response, insert: Response)
    requires Usable(lookup) && Mounted(life, 1)
    ensures Final(s, FetchProfile(life, userId, lookup, insert)) == UserState(lookup.data, false)
    ensures forall e :: e in FetchProfile(life, userId, lookup, insert) ==> !e.InsertProfile?
  {
    FetchProfileSettles(s, life, userId, lookup, insert);
    SelfHealExactly(life, userId, lookup, insert);
  }

  /** The code as written does not read the flag between the insert settling and
      `setProfile`: when the component unmounts during the insert, the profile is
      still written but the loading flag is left true. */
  lemma InsertNotRechecked(s: UserState, life: Lifetime, userId: string, lookup: Response, insert: Response)
    requires Mounted(life, 1) && !Mounted(life, 2)
    requires SelfHeals(lookup) && insert.Responded?
    ensures Final(s, FetchProfile(life, userId, lookup, insert))
            == UserState(if Usable(insert) then insert.data else None, true)
  {
    var w := Store(WriteProfile(if Usable(insert) then insert.data else None));
    var loading := Store(WriteLoading(true));
    var query := SelectProfile(userId);
    var ins := InsertProfile(DefaultRow(userId));
    assert FetchProfile(life, userId, lookup, insert) == [loading] + ([query] + ([ins] + [w]));
    FinalCons(s, loading, [query] + ([ins] + [w]));
    var s1 := SetIsLoading(s, true);
    FinalCons(s1, query, [ins] + [w]);
    FinalCons(s1, ins, [w]);
    FinalOne(s1, w);
  }

  /** The `catch` of `fetchProfile` does read the flag: when the self-heal
      insert throws after the component unmounted, nothing is written after
      the initial loading flag. */
  lemma InsertThrownWhileUnmounted(s: UserState, life: Lifetime, userId: string, lookup: Response)
    requires Mounted(life, 1) && !Mounted(life, 2)
    requires SelfHeals(lookup)
    ensures Final(s, FetchProfile(life, userId, lookup, Rejected)) == UserState(s.profile, true)
  {
    var loading := Store(WriteLoading(true));
    var query := SelectProfile(userId);
    var ins := InsertProfile(DefaultRow(userId));
    assert FetchProfile(life, userId, lookup, Rejected) == [loading] + ([query] + [ins]);
    FinalCons(s, loading, [query] + [ins]);
    var s1 := SetIsLoading(s, true);
    FinalCons(s1, query, [ins]);
    FinalOne(s1, ins);
  }

  /** The number of awaits `initializeAuth` makes, including those of the fetch. */
  function InitAwaits(session: SessionOutcome, lookup: Response): nat
  {
    if session.Resolved? && session.userId.Some? then 1 + FetchAwaits(lookup) else 1
  }

  /** The terminal state `initializeAuth` reaches when never cut short. */
  function InitResolution(session: SessionOutcome, lookup: Response, insert: Response): Outcome
  {
    if session.Resolved? && session.userId.Some? then Resolution(lookup, insert) else Anonymous
  }

  /** Every mounted path of `initializeAuth` ends with loading finished, in the
      state-machine outcome. */
  lemma InitializeAuthSettles(s: UserState, life: Lifetime, session: SessionOutcome, lookup: Response, insert: Response)
    requires Mounted(life, InitAwaits(session, lookup))
    ensures Final(s, InitializeAuth(life, session, lookup, insert)) == Ready(InitResolution(session, lookup, insert))
    ensures !Final(s, InitializeAuth(life, session, lookup, insert)).isLoading
  {
    var trace := InitializeAuth(life, session, lookup, insert);
    var rest := trace[1..];
    assert trace == [GetSession] + rest;
    FinalCons(s, GetSession, rest);
    if session.Resolved? && session.userId.Some? {
      assert Mounted(After(life, 1), FetchAwaits(lookup));
      FetchProfileSettles(s, After(life, 1), session.userId.value, lookup, insert);
    } else {
      FinalSettle(s, None);
    }
  }

  /** Without a session user, or when the session check throws, a mounted
      `initializeAuth` writes exactly `profile := null` then `isLoading := false`
      and never looks a profile up. */
  lemma NoSessionIsAnonymous(life: Lifetime, session: SessionOutcome, lookup: Response, insert: Response)
    requires session == Resolved(None) || session == SessionRejected
    requires Mounted(life, 1)
    ensures Writes(InitializeAuth(life, session, lookup, insert)) == [WriteProfile(None), WriteLoading(false)]
    ensures forall e :: e in InitializeAuth(life, session, lookup, insert) ==> !e.SelectProfile?
    ensures InitializeAuth(life, session, lookup, insert)
            == [GetSession, Store(WriteProfile(None)), Store(WriteLoading(false))]
  {
  }

  /** A bootstrap whose component unmounted before the session check settled
      writes nothing: with a user only the lookup is issued, otherwise nothing
      follows the session check. */
  lemma InitializeAuthStale(life: Lifetime, session: SessionOutcome, lookup: Response, insert: Response)
    requires !Mounted(life, 1)
    ensures Writes(InitializeAuth(life, session, lookup, insert)) == []
    ensures InitializeAuth(life, session, lookup, insert)
            == [GetSession] + (if session.Resolved? && session.userId.Some? then [SelectProfile(session.userId.value)] else [])
  {
  }

  /** The profile fetch of a bootstrap counts the session check among its
      awaits: when the component unmounts while the lookup is pending, the
      only write is the fetch's initial loading flag. */
  lemma InitializeAuthLookupStale(life: Lifetime, userId: string, lookup: Response, insert: Response)
    requires Mounted(life, 1) && !Mounted(life, 2)
    ensures Writes(InitializeAuth(life, Resolved(Some(userId)), lookup, insert)) == [WriteLoading(true)]
  {
    var after := After(life, 1);
    assert Mounted(after, 0) && !Mounted(after, 1);
    FetchProfileStale(after, userId, lookup, insert);
    var trace := [GetSession, Store(WriteLoading(true)), SelectProfile(userId)];
    assert InitializeAuth(life, Resolved(Some(userId)), lookup, insert) == trace;
    assert trace == [GetSession] + ([Store(WriteLoading(true))] + [SelectProfile(userId)]);
    WritesAppend([GetSession], [Store(WriteLoading(true))] + [SelectProfile(userId)]);
    WritesAppend([Store(WriteLoading(true))], [SelectProfile(userId)]);
  }

  /** `SIGNED_OUT` while mounted clears the profile, stops loading and then
      redirects to `/login`, whatever the store held. */
  lemma SignedOutClears(s: UserState, life: Lifetime, sessionUser: Option<string>, lookup: Response, insert: Response)
    requires Mounted(life, 0)
    ensures HandleAuthEvent(life, SignedOut, sessionUser, lookup, insert)
            == [Store(WriteProfile(None)), Store(WriteLoading(false)), RouterReplace("/login")]
    ensures Final(s, HandleAuthEvent(life, SignedOut, sessionUser, lookup, insert)) == Ready(Anonymous)
  {
    var settle := [Store(WriteProfile(None)), Store(WriteLoading(false))];
    assert HandleAuthEvent(life, SignedOut, sessionUser, lookup, insert) == settle + [RouterReplace("/login")];
    FinalAppend(s, settle, [RouterReplace("/login")]);
    FinalSettle(s, None);
    FinalOne(UserState(None, false), RouterReplace("/login"));
  }

  /** `SIGNED_IN` with a user while mounted runs the profile fetch for that user. */
  lemma SignedInFetches(life: Lifetime, userId: string, lookup: Response, insert: Response)
    requires Mounted(life, 0)
    ensures HandleAuthEvent(life, SignedIn, Some(userId), lookup, insert) == FetchProfile(life, userId, lookup, insert)
  {
  }
}
