# Identity-verification registry

A model of the decentralized identity-verification registry: a state machine with a single owner principal. Users ask to be verified. The owner approves or rejects pending requests, optionally giving an approval an expiry block height. The owner assigns tiers to verified users and appends actions to an audit log. The repository holds this logic as two mock registries inside its test files. The model combines both into one `Registry` class with the union of their state: pending requests, verified users, per-user expiry, per-user tier, the history log and its counter, and the owner.

Files:

- `identity_types.dfy` (module `IdentityTypes`): principals, the error kinds with both of the mocks' encodings (100/101/102 and `ERR_…` names), responses, and history entries.
- `registry_spec.dfy` (module `RegistrySpec`): the registry state as a value, one pure function per operation, and the invariant of reachable states. Each function's contract gives the error precedence (authorization, then existence), the all-or-nothing behaviour, and what changes for the user concerned and for nobody else.
- `registry_runs.dfy` (module `RegistryRuns`): sequences of calls. It proves that every state reachable from a reset satisfies the invariant, that the log is append-only and numbers the owner's log calls 0, 1, 2, … in call order, and the properties that relate several calls.
- `registry.dfy` (module `IdentityRegistry`): the `Registry` class. Its methods update the fields in place, as the mocks do. Each method's postcondition equates the response and the new state with the matching `RegistrySpec` function applied to the old state, and keeps `Valid()`.

Caller identity and the current block height are explicit parameters. The second mock's default sender `'owner'` and the height 10 it hard-codes become arguments. The one-year window of 31536000 blocks is the constant `EXPIRY_WINDOW`.

Expiry is visible in two predicates:

- `IsVerified` is the raw verified flag. Both mocks' `isVerified` return this flag, and both `requestVerification` and `setUserTier` test it.
- `IsVerifiedAt(user, height)` is the height-aware reading: verified, and `height` below the recorded expiry. A user approved through the first mock's `approveVerification` has no expiry and never lapses.

Neither mock consults the height-aware predicate. `LapsedUserKeepsRawStatus` states the consequence: after its expiry a user cannot request again, yet can still be given a tier. A stricter policy would refuse a tier, and allow a new request, once the user's verification has lapsed. Neither mock implements it. The model follows the code and leaves the choice open. Neither mock writes a history entry on approval, and the model does not either.

The queries `isVerified` (tests/decentralized-identity-verification-system.test.ts:42-44, tests/decentralized-identity-verification-system2.test.ts:24-26) and `hasPendingRequest` (tests/decentralized-identity-verification-system.test.ts:46-48) are the predicates `State.IsVerified` and `State.HasPendingRequest`. The class predicates `Registry.IsVerified`, `Registry.HasPendingRequest` and `Registry.IsVerifiedAt` read the fields directly, and each is proved to agree with its `State` counterpart. As functions they cannot change state. In the model every unknown user gets `false`, because there is no entry to read; for names that JavaScript objects inherit, see "## Left out".

## Model

| member | source | states |
|---|---|---|
| `RegistrySpec.Init` | tests/decentralized-identity-verification-system2.test.ts:12-21 | after a reset nothing is pending, verified or tiered, the log is empty with counter 0, and the invariant holds |
| `RegistrySpec.State.IsVerified` | tests/decentralized-identity-verification-system.test.ts:42-44 | the raw verified flag: membership in the verified set, whatever the expiry; false for every user never approved (the same read as tests/decentralized-identity-verification-system2.test.ts:24-26) |
| `RegistrySpec.State.HasPendingRequest` | tests/decentralized-identity-verification-system.test.ts:46-48 | membership in the pending set; false for every user who never requested |
| `RegistrySpec.State.IsVerifiedAt` | tests/decentralized-identity-verification-system2.test.ts:24-37 | height-aware verification, which no mock query offers: it implies the raw flag, and holds below the recorded expiry or always when none is recorded |
| `RegistrySpec.RequestVerification` | tests/decentralized-identity-verification-system.test.ts:11-17 | fails with AlreadyVerified iff the raw verified flag is set, and then changes nothing; otherwise succeeds and the user is pending and still not verified; no other user's request changes and nothing but the request set changes |
| `RegistrySpec.ApproveVerification` | tests/decentralized-identity-verification-system.test.ts:19-29 | Unauthorized iff the sender is not the owner (whether or not a request exists), NotFound iff the owner approves a user with no request, success iff both hold; a failure leaves the state unchanged; success moves the user from pending to verified; other users, expiry, tiers and the log are untouched |
| `RegistrySpec.ApproveVerificationWithExpiry` | tests/decentralized-identity-verification-system2.test.ts:28-37 | the same error precedence and all-or-nothing behaviour as approval; success records expiry `height + 31536000`, so the user is verified at exactly the heights below it; other users' requests, flags and expiries and the tiers and log are untouched |
| `RegistrySpec.RejectVerification` | tests/decentralized-identity-verification-system.test.ts:31-40 | the same checks in the same order as approval; success removes only the user's pending request, and the verified set never changes |
| `RegistrySpec.SetUserTier` | tests/decentralized-identity-verification-system2.test.ts:39-45 | Unauthorized iff the sender is not the owner (even for a verified user), NotFound iff the owner names a user whose raw flag is unset, and then the state is unchanged; success sets the user's tier and changes nothing else |
| `RegistrySpec.LogVerificationAction` | tests/decentralized-identity-verification-system2.test.ts:47-53 | fails only for a non-owner, adding no entry and not advancing the counter; an owner call for any user, known or not, appends `(counter, user, action)` and advances the counter by exactly one, changing nothing else |
| `RegistryRuns.Run` | tests/decentralized-identity-verification-system.test.ts:11-40 | over any sequence of calls of either mock (these and tests/decentralized-identity-verification-system2.test.ts:28-53) the owner is fixed, no verification or tier is withdrawn, the log is only extended and the counter never decreases |
| `RegistryRuns.StepKeepsInvariant` | tests/decentralized-identity-verification-system.test.ts:11-40 | every call preserves the invariant: no user is both pending and verified, expiry and tier exist only for verified users, and the log is numbered consecutively up to the counter |
| `RegistryRuns.RunKeepsInvariant` | tests/decentralized-identity-verification-system.test.ts:11-40 | any sequence of calls of either mock (these and tests/decentralized-identity-verification-system2.test.ts:28-53) preserves the invariant |
| `RegistryRuns.ReachableStatesAreValid` | tests/decentralized-identity-verification-system2.test.ts:12-53 | every state reachable from a reset satisfies the invariant, so a user is in at most one of pending and verified |
| `RegistryRuns.RunHistory` | tests/decentralized-identity-verification-system2.test.ts:47-53 | over any sequence of calls the log grows by exactly the owner's log calls, in call order, numbered on from the counter; refused log calls and all other calls add nothing |
| `RegistryRuns.NumberedAt` | tests/decentralized-identity-verification-system2.test.ts:50-51 | entry i of a block of log entries numbered from k is the i-th (user, action) pair with index k + i |
| `RegistryRuns.LogsNumberedInCallOrder` | tests/decentralized-identity-verification-system2.test.ts:102-120 | after a reset, N owner log calls, interleaved with any others (refused log calls included), leave exactly N entries with counter N, the i-th being `(i, user, action)` of the i-th owner log call |
| `RegistryRuns.RequestThenPending` | tests/decentralized-identity-verification-system.test.ts:67-71 | a request by an unverified user succeeds, after which the user is pending and not verified at any height |
| `RegistryRuns.RepeatedRequestIsIdempotent` | tests/decentralized-identity-verification-system.test.ts:11-17 | in a valid state, requesting again while pending succeeds and leaves the state exactly as it was |
| `RegistryRuns.SecondApprovalNotFound` | tests/decentralized-identity-verification-system2.test.ts:28-37 | after a successful approval by either variant, a second approval of the same user by either variant fails with NotFound and changes nothing |
| `RegistryRuns.RejectedUserNotVerified` | tests/decentralized-identity-verification-system.test.ts:94-99 | in a valid state, a rejected user is not verified at any height afterwards |
| `RegistryRuns.ApprovalWithoutExpiryNeverLapses` | tests/decentralized-identity-verification-system.test.ts:19-29 | in a valid state, a user approved without an expiry is verified at every height |
| `RegistryRuns.VerifiedUntilExpiry` | tests/decentralized-identity-verification-system2.test.ts:28-37 | from a valid state, after an approval at height h and any later calls, the user is verified at exactly the heights below h + 31536000: no later call moves or removes the recorded expiry |
| `RegistryRuns.LapsedUserKeepsRawStatus` | tests/decentralized-identity-verification-system2.test.ts:39-45 | a user past its expiry is not verified at that height, yet a new request is refused with AlreadyVerified and the owner can still set its tier, because both read the raw flag |
| `RegistryRuns.ExpiryScenario` | tests/decentralized-identity-verification-system2.test.ts:57-63 | request, then approval at height 10: the user is verified and no longer pending, the expiry is 31536010, and the user is verified at 10 and not at 31536010 |
| `IdentityRegistry.Registry.constructor` | tests/decentralized-identity-verification-system2.test.ts:12-21 | a new registry is the reset state for its owner and is valid |
| `IdentityRegistry.Registry.IsVerified` | tests/decentralized-identity-verification-system.test.ts:42-44 | reading the verified field agrees with `RegistrySpec.State.IsVerified` on the registry's state |
| `IdentityRegistry.Registry.HasPendingRequest` | tests/decentralized-identity-verification-system.test.ts:46-48 | reading the request field agrees with `RegistrySpec.State.HasPendingRequest` on the registry's state |
| `IdentityRegistry.Registry.IsVerifiedAt` | tests/decentralized-identity-verification-system2.test.ts:24-37 | reading the verified and expiry fields agrees with `RegistrySpec.State.IsVerifiedAt` on the registry's state |
| `IdentityRegistry.Registry.RequestVerification` | tests/decentralized-identity-verification-system.test.ts:11-17 | the in-place update returns what `RegistrySpec.RequestVerification` returns, leaves the state it gives, and keeps the invariant |
| `IdentityRegistry.Registry.ApproveVerification` | tests/decentralized-identity-verification-system.test.ts:19-29 | the in-place update agrees with `RegistrySpec.ApproveVerification` and keeps the invariant |
| `IdentityRegistry.Registry.ApproveVerificationWithExpiry` | tests/decentralized-identity-verification-system2.test.ts:28-37 | the in-place update agrees with `RegistrySpec.ApproveVerificationWithExpiry` and keeps the invariant |
| `IdentityRegistry.Registry.RejectVerification` | tests/decentralized-identity-verification-system.test.ts:31-40 | the in-place update agrees with `RegistrySpec.RejectVerification` and keeps the invariant |
| `IdentityRegistry.Registry.SetUserTier` | tests/decentralized-identity-verification-system2.test.ts:39-45 | the in-place update agrees with `RegistrySpec.SetUserTier` and keeps the invariant |
| `IdentityRegistry.Registry.LogVerificationAction` | tests/decentralized-identity-verification-system2.test.ts:47-53 | the in-place append and increment agree with `RegistrySpec.LogVerificationAction` and keep the log numbered |

## Left out

- The vitest harness (`describe`, `it`, `expect`) and the tests' direct writes into the mocks' state are not modelled. The `beforeEach` reset is the class constructor and `RegistrySpec.Init`.
- The two mocks hard-code different owners. The owner is a constructor parameter instead.
- The history key string `index:user:action` is not built. Each entry is a structured `HistoryEntry(index, user, action)` in an ordered sequence. The keys are distinct because the index before the first `:` is distinct, so no stored entry is ever overwritten and a sequence holds the same entries.
- JavaScript truthiness (`|| false`) and `any`-typed maps are not modelled. Membership in typed sets and maps takes their place. As a result, names inherited from `Object.prototype` (`"constructor"`, `"toString"`, `"__proto__"`, …) behave differently: the mocks read a truthy inherited value for them, so `requestVerification("constructor")` returns error 101 and `approveVerification(owner, "toString")` succeeds with no request. The model treats such names like any other user and returns `Ok` and `Fail(NotFound)` respectively.
- The two mocks' response shapes (`{ value: true }` / `{ error: n }` and `{ ok, error }`) and error encodings become one `Response` and one `Error` datatype. `Code` and `Name` give the two encodings back. The second mock has no name for "already verified", so `ERR_ALREADY_VERIFIED` is supplied for it.
- JavaScript numbers are not modelled as doubles. Heights, tiers, actions and the history counter are unbounded integers, so behaviour beyond 2^53 is not captured.
- Neither mock stores a block height in history entries or lets the caller choose an approval duration, and the model does neither.
- The mocks have no height-aware query. The model supplies `IsVerifiedAt`, and no operation consults it: the request and tier checks read the raw flag, as the mocks do.
- Ledger, consensus, signature checks and persistence are not modelled. The caller and the block height are trusted inputs.
