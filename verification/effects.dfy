/** What the authentication client code does to the outside world, in order:
    store writes, calls to the identity provider and the `profiles` table, and
    navigation. Async calls appear as the effect that issues them; their
    outcomes are inputs of the functions that build the traces. */
module Effects {
  import opened Types
  import opened UserStore

  /** The row the self-heal path inserts into `profiles`. */
  datatype ProfileDraft = ProfileDraft(id: string, fullName: string, role: Role)

  datatype Effect =
    | Store(w: StoreWrite)              // setProfile / setIsLoading
    | GetSession                        // auth.getSession()
    | SelectProfile(userId: string)     // from('profiles').select('*').eq('id', userId).single()
    | InsertProfile(row: ProfileDraft)  // from('profiles').insert(row).select().single()
    | SignOut                           // auth.signOut()
    | RouterReplace(path: string)       // router.replace(path)
    | HardNavigate(path: string)        // window.location.href = path

  /** The store writes of a trace, in order, with every other effect dropped. */
  function Writes(trace: seq<Effect>): (ws: seq<StoreWrite>)
    ensures |ws| <= |trace|
    ensures forall w :: w in ws <==> Store(w) in trace
    decreases |trace|
  {
    if trace == [] then []
    else
      assert trace == [trace[0]] + trace[1..];
      (if trace[0].Store? then [trace[0].w] else []) + Writes(trace[1..])
  }

  lemma {:induction false} WritesAppend(a: seq<Effect>, b: seq<Effect>)
    ensures Writes(a + b) == Writes(a) + Writes(b)
    decreases |a|
  {
    if a == [] {
      assert a + b == b;
    } else {
      assert (a + b)[0] == a[0];
      assert (a + b)[1..] == a[1..] + b;
      WritesAppend(a[1..], b);
    }
  }

  /** The store after a trace's writes have been applied from `s`. */
  function Final(s: UserState, trace: seq<Effect>): UserState
  {
    Run(s, Writes(trace))
  }

  /** Folding a trace in two pieces is folding it in one. */
  lemma FinalAppend(s: UserState, a: seq<Effect>, b: seq<Effect>)
    ensures Final(s, a + b) == Final(Final(s, a), b)
  {
    WritesAppend(a, b);
    RunAppend(s, Writes(a), Writes(b));
  }

  /** Folding a one-effect trace: a store write is applied, anything else is not. */
  lemma FinalOne(s: UserState, e: Effect)
    ensures Final(s, [e]) == if e.Store? then Apply(s, e.w) else s
  {
    assert [e][1..] == [];
    assert Writes([e]) == (if e.Store? then [e.w] else []) + Writes([]);
    if e.Store? {
      assert [e.w][1..] == [];
      assert Run(s, [e.w]) == Run(Apply(s, e.w), []);
    }
  }

  /** Folding a trace one effect at a time from the front. */
  lemma FinalCons(s: UserState, e: Effect, t: seq<Effect>)
    ensures Final(s, [e] + t) == Final(if e.Store? then Apply(s, e.w) else s, t)
  {
    FinalAppend(s, [e], t);
    FinalOne(s, e);
  }

  /** The two writes every terminal transition performs: after them the store
      holds `p` and is no longer loading, whatever it held before. */
  lemma FinalSettle(s: UserState, p: Option<Profile>)
    ensures Final(s, [Store(WriteProfile(p)), Store(WriteLoading(false))]) == UserState(p, false)
  {
    assert [Store(WriteProfile(p)), Store(WriteLoading(false))] == [Store(WriteProfile(p))] + [Store(WriteLoading(false))];
    FinalCons(s, Store(WriteProfile(p)), [Store(WriteLoading(false))]);
    FinalOne(SetProfile(s, p), Store(WriteLoading(false)));
  }
}
