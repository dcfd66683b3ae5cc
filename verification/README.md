# Client authentication bootstrap of the ISP customer portal, in Dafny

This project models the client-side core of an ISP support and billing portal:

- the **auth provider**. It resolves the identity-provider session, looks up the user's
  `profiles` row, and inserts a default `customer` profile when the lookup reports a
  missing row ("self-heal"). On any other outcome it falls back to anonymous. It also
  reacts to `SIGNED_IN` and `SIGNED_OUT` auth events.
- the process-wide **user store** `{profile, isLoading}`, which the provider writes through
  two setters.
- three pieces of presentation logic that sit next to it:
  - the **sidebar**: the menu for each role, the rule that highlights the current link, and
    the footer label;
  - the **navbar**: the avatar letter, the display name, and the order of the sign-out steps;
  - the **payment dialog**: the submit guard, the storage path of the proof, the pending
    payment row, and how the dialog's own state ends on each path.

Every awaited call becomes an outcome value that the model takes as input:

- the session: a user id, none, or a thrown exception;
- a query: `data` and `error`, or a thrown exception;
- an upload or insert: success, or an error message.

Each flow is a pure function that returns the **trace of effects** it performs:

- store writes;
- calls to the identity provider, the `profiles` table and storage;
- navigation.

Folding a trace's store writes over the store record (`Effects.Final`) gives the state that
readers see afterwards.

The `mounted` flag, which discards stale responses, is a `Lifetime`. It records before which
resumed await the effect's cleanup ran. A check that runs after `k` awaits reads
`Mounted(life, k)`. The flag is read only where the code reads it: on entry to
`fetchProfile`, after the lookup, in the `catch`, in the `finally`, and in the
session-less branch and the event handler. It is **not** read between the self-heal insert
settling and `setProfile`.

Modules: `Types` (records and roles), `Strings` (`includes`, `split`/`pop`, ASCII
`toUpperCase`), `UserStore`, `Effects`, `AuthProvider`, `Sidebar`, `Navbar`,
`PaymentDialog`.

Behaviour of the code that the model keeps:

- The self-heal insert treats every failure alike. A duplicate-key failure leaves the profile
  `null`, and the row that may have been created concurrently is not re-fetched.
- The only guard against stale results is the component's `mounted` flag. It is not read
  between the self-heal insert returning and `setProfile`. `AuthProvider.InsertNotRechecked`
  shows the consequence: when the insert returns without throwing but the component has
  unmounted in the meantime, the profile is still written (the returned row, or `null` when
  the insert reports an error), while `isLoading` stays `true`. When the insert throws, the
  `catch` does read the flag and nothing is written (`AuthProvider.InsertThrownWhileUnmounted`).
- A terminal transition is two separate writes, `profile` then `isLoading`.

## Model

| member | source | states |
|---|---|---|
| Types.RoleName | src/types/index.ts:1 | the stored role text is `admin` exactly for admins and `customer` exactly for customers |
| UserStore.Initial | src/lib/store/user.ts:12-13 | the store starts with no profile and `isLoading` true |
| UserStore.SetProfile | src/lib/store/user.ts:14 | `setProfile` replaces the profile and leaves `isLoading` as it was |
| UserStore.SetIsLoading | src/lib/store/user.ts:15 | `setIsLoading` replaces the flag and leaves the profile as it was |
| UserStore.SettersIdempotent | src/lib/store/user.ts:14-15 | applying either setter twice with the same value equals applying it once |
| UserStore.RunIsLastWrite | src/lib/store/user.ts:14-15 | after any sequence of setter calls, each field holds the value of the last write to that field, or its starting value if nothing wrote it |
| UserStore.RewriteIsNoOp | src/lib/store/user.ts:14-15 | after any trace, writing back the value a field already holds changes nothing |
| Strings.Includes | src/components/providers/AuthProvider.tsx:58 | `includes` is true exactly when the needle occurs at some offset of the text |
| Strings.SplitSingle | src/components/billing/PaymentDialog.tsx:51 | `split` yields one piece exactly when the separator is absent, and that piece is the whole text |
| Strings.SplitLast | src/components/billing/PaymentDialog.tsx:51 | the piece `pop` returns has no separator, is a suffix of the text, and is the whole text or preceded by the separator |
| Strings.JoinSplit | src/components/billing/PaymentDialog.tsx:51 | joining the pieces of `split` with the same separator gives back the text, so no characters are lost |
| Strings.ToLowerToUpper | src/components/ui/Sidebar.tsx:67 | upper-casing a lower-case ASCII name loses nothing: lower-casing restores it |
| AuthProvider.MountedEarlier | src/components/providers/AuthProvider.tsx:107-110 | once a `mounted` check reads false, every later check does too |
| AuthProvider.IsMissingRow | src/components/providers/AuthProvider.tsx:58 | an error counts as a missing row exactly when it is present and its code is `PGRST116` or its details contain `0 rows` at some offset; a missing error never does |
| AuthProvider.DefaultRow | src/components/providers/AuthProvider.tsx:62-66 | the self-heal row has the looked-up id, `full_name` "Customer" and role customer |
| AuthProvider.InitializeAuth | src/components/providers/AuthProvider.tsx:17-39 | the bootstrap starts with the session check, and looks a profile up, for that user only, exactly when the session resolves with a user; how the store ends is stated by InitializeAuthSettles and NoSessionIsAnonymous |
| AuthProvider.FetchProfile | src/components/providers/AuthProvider.tsx:41-50 | when mounted, a fetch first sets `isLoading` true and then issues the lookup; when not mounted, the lookup is its first effect; the lookup for the given user is the only profile query it makes |
| AuthProvider.HandleAuthEvent | src/components/providers/AuthProvider.tsx:91-105 | an unmounted provider ignores every event; `SIGNED_IN` without a session user has no effect; events other than `SIGNED_IN` and `SIGNED_OUT` have no effect |
| AuthProvider.FetchProfileSettles | src/components/providers/AuthProvider.tsx:41-87 | a fetch still mounted at its last check ends with `isLoading` false. The profile is the looked-up row; or, after a missing-row lookup, the inserted row when the insert returns one; otherwise null. This holds whatever the store held before, including when the lookup or insert throws |
| AuthProvider.FetchProfileStale | src/components/providers/AuthProvider.tsx:43-52 | when unmounted by the time the lookup settles, the fetch performs nothing after issuing the lookup, and in particular no store write |
| AuthProvider.SelfHealExactly | src/components/providers/AuthProvider.tsx:58-68 | the insert is attempted if and only if the fetch is mounted after the lookup and the error has code `PGRST116` or details including `0 rows`; the only row ever inserted is the default row |
| AuthProvider.FoundProfileIsKept | src/components/providers/AuthProvider.tsx:54-55 | a lookup with data and no error sets that profile, ends loading and attempts no insert |
| AuthProvider.InsertNotRechecked | src/components/providers/AuthProvider.tsx:70-86 | when the insert returns without throwing and the component unmounted while it was pending, the profile is still written (the returned row, or null when the insert reports an error), but `isLoading` is left true |
| AuthProvider.InsertThrownWhileUnmounted | src/components/providers/AuthProvider.tsx:81-86 | when the insert throws and the component unmounted while it was pending, the `catch` and the `finally` write nothing: the profile is what it was and `isLoading` stays true |
| AuthProvider.InitializeAuthSettles | src/components/providers/AuthProvider.tsx:17-39 | every path of the bootstrap that is mounted at its last check ends with `isLoading` false, in the terminal state the session and the lookup outcomes select |
| AuthProvider.NoSessionIsAnonymous | src/components/providers/AuthProvider.tsx:22-37 | with no session user, or a throwing session check, a mounted bootstrap does exactly three things: the session check, `profile := null`, then `isLoading := false`; in particular no profile lookup happens |
| AuthProvider.InitializeAuthStale | src/components/providers/AuthProvider.tsx:17-43 | when the component unmounted before the session check settled, the bootstrap writes nothing to the store: after the session check it only issues the lookup for a session user, and otherwise does nothing |
| AuthProvider.InitializeAuthLookupStale | src/components/providers/AuthProvider.tsx:20-52 | the fetch counts the session check among its awaits: when the component unmounts while the lookup is pending, the only store write of the bootstrap is the fetch's initial `isLoading := true` |
| AuthProvider.SignedOutClears | src/components/providers/AuthProvider.tsx:97-103 | `SIGNED_OUT` while mounted clears the profile, stops loading, then redirects to `/login`, whatever the store held |
| AuthProvider.SignedInFetches | src/components/providers/AuthProvider.tsx:93-96 | `SIGNED_IN` with a user while mounted runs the profile fetch for that user |
| Sidebar.LinksFor | src/components/ui/Sidebar.tsx:21-34 | admins get four links and customers three; a link is under `/admin/` exactly when the role is admin; no href repeats |
| Sidebar.MenuTables | src/components/ui/Sidebar.tsx:21-32 | the two menus entry by entry, with href and label, in display order |
| Sidebar.ActiveLinks | src/components/ui/Sidebar.tsx:44-46 | the highlighted links are exactly the menu links whose href equals the path, and there are none exactly when no href equals it |
| Sidebar.AtMostOneActive | src/components/ui/Sidebar.tsx:46 | in a menu without repeated hrefs at most one link is highlighted |
| Sidebar.SidebarHighlight | src/components/ui/Sidebar.tsx:34-46 | for either role and any path, at most one link is highlighted, and one is highlighted exactly when the path is one of the menu's hrefs |
| Sidebar.SubpageNotActive | src/components/ui/Sidebar.tsx:46 | matching is exact: `/dashboard/tickets/x` highlights no customer link |
| Sidebar.FooterLabel | src/components/ui/Sidebar.tsx:67 | the footer is the role name in capital ASCII letters, whose lower-casing gives back the role name, followed by ` Portal` |
| Sidebar.FooterLabelSpelling | src/components/ui/Sidebar.tsx:67 | the footers read `ADMIN Portal` and `CUSTOMER Portal` |
| Navbar.AvatarInitial | src/components/ui/Navbar.tsx:36 | the avatar is one character: the first of `full_name` when that is present and non-empty, otherwise `U` |
| Navbar.DisplayName | src/components/ui/Navbar.tsx:39 | the shown name is `full_name` when present and non-empty, otherwise `User`; it is never empty |
| Navbar.AvatarMatchesName | src/components/ui/Navbar.tsx:36-39 | the avatar letter is always the first letter of the displayed name, fallbacks included |
| Navbar.HandleSignOut | src/components/ui/Navbar.tsx:18-25 | sign-out clears the store profile first, then calls the provider's `signOut`, and navigates to `/login` last, and only when `signOut` did not throw |
| Navbar.SignOutKeepsLoading | src/components/ui/Navbar.tsx:18-24 | sign-out leaves no profile and leaves `isLoading` as it was |
| PaymentDialog.Extension | src/components/billing/PaymentDialog.tsx:51 | the extension contains no `.` and is a suffix of the file name |
| PaymentDialog.ExtensionIsLastSegment | src/components/billing/PaymentDialog.tsx:51 | the extension is the text after the last `.` of the file name, or the whole name when it has no `.` |
| PaymentDialog.StoragePath | src/components/billing/PaymentDialog.tsx:52 | the storage path is the profile id, `/`, the fresh id, `.`, then the extension, each at its own position |
| PaymentDialog.StoragePathFreshId | src/components/billing/PaymentDialog.tsx:52 | for one owner and extension, two storage paths are equal exactly when their fresh ids are, so a fresh id never reuses an object path |
| PaymentDialog.StoragePathKeepsExtension | src/components/billing/PaymentDialog.tsx:51-52 | the extension of the storage path is the extension of the uploaded file's name |
| PaymentDialog.StoragePathOwnerFolder | src/components/billing/PaymentDialog.tsx:52 | for an id without `/`, the first segment of the path is the owner's id |
| PaymentDialog.PaymentFor | src/components/billing/PaymentDialog.tsx:67-75 | the payment row belongs to the profile, is `pending`, and carries the given proof URL, the entered amount text and the submission timestamp |
| PaymentDialog.FailureText | src/components/billing/PaymentDialog.tsx:87 | the failure toast is the error's message when it is non-empty, otherwise a non-empty default |
| PaymentDialog.CanSubmit | src/components/billing/PaymentDialog.tsx:42 | the submission is refused exactly when the amount text is empty, no file is chosen or there is no profile; RejectedSubmitChangesNothing states what a refused submission does |
| PaymentDialog.HandleSubmit | src/components/billing/PaymentDialog.tsx:40-91 | a submission missing the amount, the file or the profile only shows the missing-fields error. Any other submission starts by setting loading and ends by clearing it |
| PaymentDialog.RejectedSubmitChangesNothing | src/components/billing/PaymentDialog.tsx:42-45 | a rejected submission uploads nothing, inserts nothing and leaves the dialog state, loading included, unchanged |
| PaymentDialog.AcceptedSubmitUploadsThenInserts | src/components/billing/PaymentDialog.tsx:51-77 | the proof goes to the owner's path, and a payment row is inserted if and only if the upload succeeded. That row is the owner's, `pending`, with the public URL of the same path, the amount text the user entered and the submission timestamp |
| PaymentDialog.AcceptedSubmitSettles | src/components/billing/PaymentDialog.tsx:79-90 | every accepted submission ends with loading off. `onSuccess` runs if and only if both calls succeed, and then the dialog is closed and amount and file are cleared; otherwise only loading has changed |

## Left out

- Supabase, router and browser calls are not executed. `getSession`, the `profiles`
  select/insert, storage upload, `signOut`, `router.replace` and `window.location` appear only
  as effects in a trace. Their results are input outcomes.
- The `error` returned by `getSession` is never read by the code, so the session outcome
  leaves it out.
- React rendering is left out: JSX, hooks, the `useEffect` dependency list, icons, CSS
  classes, dialogs as widgets, and the text of `console` logging.
- Toasts are kept only as effects that carry their text.
- Real interleaving of `initializeAuth` with the `onAuthStateChange` callback is concurrency.
  Each flow is modelled on its own, with its own `Lifetime`. The `SIGNED_OUT` event that
  `signOut` triggers in the provider is not chained to the navbar's trace.
- Subscription teardown (`unsubscribe`) is not modelled beyond the `mounted` flag it sits
  next to.
- `parseFloat(amount)` (floating point) and `new Date().toISOString()` (the clock) are not
  modelled. The row carries the amount text and a timestamp parameter instead.
- `uuidv4()` is randomness. The fresh id is a parameter.
- `getPublicUrl` is a parameter function from path to URL.
- `onSuccess` is assumed to return normally. If it threw, the code would show an error toast
  after the state resets; that path is not modelled.
- `toUpperCase` is modelled for ASCII only. The role names it is applied to are ASCII.
- Route guarding and redirect-by-role are not part of this model. They live in the dashboard
  layout, which is outside the modelled core.
- `src/types/index.ts` supplies only datatypes. Ticket and payment records other than the
  inserted row are not modelled.
- Navbar.AvatarInitial: takes the first Unicode scalar of the name, while the code takes the
  first UTF-16 code unit. For a name starting outside the Basic Multilingual Plane the code
  renders a lone surrogate and the model the whole character.
- PaymentDialog.AcceptedSubmitSettles: the dialog state is folded from its value at submit time.
  While a submission is pending only the submit button is disabled, so the user may still edit
  the amount or file, or close the dialog; such edits are not modelled.
