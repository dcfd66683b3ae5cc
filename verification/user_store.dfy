/** The process-wide user store: a record of the signed-in profile (or none)
    and a loading flag, changed only through two setters that each replace one
    field and keep the other. */
module UserStore {
  import opened Types

  datatype UserState = UserState(profile: Option<Profile>, isLoading: bool)

  /** The store before any session check: no profile, still loading. */
  function Initial(): (s: UserState)
    ensures s.profile == None && s.isLoading
  {
    UserState(None, true)
  }

  /** `setProfile(p)`: replaces the profile; the loading flag is untouched. */
  function SetProfile(s: UserState, p: Option<Profile>): (r: UserState)
    ensures r.profile == p && r.isLoading == s.isLoading
  {
    s.(profile := p)
  }

  /** `setIsLoading(b)`: replaces the loading flag; the profile is untouched. */
  function SetIsLoading(s: UserState, b: bool): (r: UserState)
    ensures r.isLoading == b && r.profile == s.profile
  {
    s.(isLoading := b)
  }

  /** Each setter is idempotent: setting the same value again changes nothing. */
  lemma SettersIdempotent(s: UserState, p: Option<Profile>, b: bool)
    ensures SetProfile(SetProfile(s, p), p) == SetProfile(s, p)
    ensures SetIsLoading(SetIsLoading(s, b), b) == SetIsLoading(s, b)
  {
  }

  /** One call of a setter, as recorded in a trace of store writes. */
  datatype StoreWrite = WriteProfile(p: Option<Profile>) | WriteLoading(b: bool)

  function Apply(s: UserState, w: StoreWrite): UserState
  {
    match w
    case WriteProfile(p) => SetProfile(s, p)
    case WriteLoading(b) => SetIsLoading(s, b)
  }

  /** The store after the writes `ws`, applied in order from `s`. */
  function Run(s: UserState, ws: seq<StoreWrite>): UserState
    decreases |ws|
  {
    if ws == [] then s else Run(Apply(s, ws[0]), ws[1..])
  }

  /** Reference reading of a trace: the profile left by the LAST profile write,
      or `p0` when there is none. */
  function LastProfile(ws: seq<StoreWrite>, p0: Option<Profile>): Option<Profile>
    decreases |ws|
  {
    if ws == [] then p0
    else if ws[|ws| - 1].WriteProfile? then ws[|ws| - 1].p
    else LastProfile(ws[..|ws| - 1], p0)
  }

  /** Reference reading of a trace: the flag left by the LAST loading write,
      or `b0` when there is none. */
  function LastLoading(ws: seq<StoreWrite>, b0: bool): bool
    decreases |ws|
  {
    if ws == [] then b0
    else if ws[|ws| - 1].WriteLoading? then ws[|ws| - 1].b
    else LastLoading(ws[..|ws| - 1], b0)
  }

  /** Running a trace in two pieces is running it in one. */
  lemma {:induction false} RunAppend(s: UserState, a: seq<StoreWrite>, b: seq<StoreWrite>)
    ensures Run(s, a + b) == Run(Run(s, a), b)
    decreases |a|
  {
    if a == [] {
      assert a + b == b;
    } else {
      assert (a + b)[0] == a[0];
      assert (a + b)[1..] == a[1..] + b;
      RunAppend(Apply(s, a[0]), a[1..], b);
    }
  }

  /** Last write wins, field by field: folding a trace over the store leaves in
      each field the value of the last write to that field, and the starting
      value when the trace never writes it. */
  lemma {:induction false} RunIsLastWrite(s: UserState, ws: seq<StoreWrite>)
    ensures Run(s, ws) == UserState(LastProfile(ws, s.profile), LastLoading(ws, s.isLoading))
    decreases |ws|
  {
    if ws != [] {
      var init := ws[..|ws| - 1];
      assert ws == init + [ws[|ws| - 1]];
      RunAppend(s, init, [ws[|ws| - 1]]);
      RunIsLastWrite(s, init);
    }
  }

  /** A write that touches neither field's final value: after any trace, writing
      the value already held again changes nothing. */
  lemma RewriteIsNoOp(s: UserState, ws: seq<StoreWrite>)
    ensures Run(s, ws + [WriteProfile(Run(s, ws).profile)]) == Run(s, ws)
    ensures Run(s, ws + [WriteLoading(Run(s, ws).isLoading)]) == Run(s, ws)
  {
    RunAppend(s, ws, [WriteProfile(Run(s, ws).profile)]);
    RunAppend(s, ws, [WriteLoading(Run(s, ws).isLoading)]);
  }
}
