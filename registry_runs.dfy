/** Sequences of calls against the registry, and what holds across them:
    every reachable state satisfies the invariant, the log is append-only
    and numbers the owner's log calls in call order, verification is never
    withdrawn, and the scenarios the two mocks walk through. */
module RegistryRuns {
  import opened IdentityTypes
  import opened RegistrySpec

  /** One call, with its caller and block height made explicit. */
  datatype Call =
    | Request(user: Principal)
    | Approve(sender: Principal, user: Principal)
    | ApproveWithExpiry(sender: Principal, user: Principal, height: nat)
    | Reject(sender: Principal, user: Principal)
    | SetTier(sender: Principal, user: Principal, tier: int)
    | Log(sender: Principal, user: Principal, action: int)

  function Apply(s: State, c: Call): (o: Outcome)
  {
    match c
    case Request(u) => RequestVerification(s, u)
    case Approve(a, u) => ApproveVerification(s, a, u)
    case ApproveWithExpiry(a, u, h) => ApproveVerificationWithExpiry(s, a, u, h)
    case Reject(a, u) => RejectVerification(s, a, u)
    case SetTier(a, u, t) => SetUserTier(s, a, u, t)
    case Log(a, u, x) => LogVerificationAction(s, a, u, x)
  }

  /** The state after performing `calls` in order, starting from `s`. No call
      changes the owner, withdraws a verification or a tier, or rewrites
      the log, so the log only grows. */
  function Run(s: State, calls: seq<Call>): (t: State)
    ensures t.owner == s.owner
    ensures s.verified <= t.verified
    ensures s.tiers.Keys <= t.tiers.Keys
    ensures s.history <= t.history
    ensures s.historyIndex <= t.historyIndex
    decreases |calls|
  {
    if calls == [] then s else Run(Apply(s, calls[0]).next, calls[1..])
  }

  /** The (user, action) pairs of the log calls made by `owner`, in order;
      log calls by anyone else are dropped. */
  function OwnerLogs(owner: Principal, calls: seq<Call>): (logs: seq<(Principal, int)>)
    decreases |calls|
  {
    if calls == [] then []
    else
      var rest := OwnerLogs(owner, calls[1..]);
      match calls[0]
      case Log(a, u, x) => if a == owner then [(u, x)] + rest else rest
      case _ => rest
  }

  /** Log entries for `pairs`, numbered from `start`. */
  function Numbered(start: nat, pairs: seq<(Principal, int)>): (r: seq<HistoryEntry>)
    ensures |r| == |pairs|
    decreases |pairs|
  {
    if pairs == [] then []
    else [HistoryEntry(start, pairs[0].0, pairs[0].1)] + Numbered(start + 1, pairs[1..])
  }

  /** Every single call keeps the invariant. */
  lemma StepKeepsInvariant(s: State, c: Call)
    requires Invariant(s)
    ensures Invariant(Apply(s, c).next)
  {
  }

  lemma {:induction false} RunKeepsInvariant(s: State, calls: seq<Call>)
    requires Invariant(s)
    ensures Invariant(Run(s, calls))
    decreases |calls|
  {
    if calls != [] {
      StepKeepsInvariant(s, calls[0]);
      RunKeepsInvariant(Apply(s, calls[0]).next, calls[1..]);
    }
  }

  /** Whatever calls are made after a reset, no user is both pending and
      verified, expiry and tiers exist only for verified users, and the log
      is numbered 0, 1, 2, ... with the counter equal to its length. */
  lemma ReachableStatesAreValid(owner: Principal, calls: seq<Call>)
    ensures Invariant(Run(Init(owner), calls))
  {
    RunKeepsInvariant(Init(owner), calls);
  }

  /** Over any run the log grows by exactly one entry per log call of the
      owner, numbered on from the counter, in call order; every other call,
      including a refused log call, adds nothing and leaves the counter. */
  lemma {:induction false} RunHistory(s: State, calls: seq<Call>)
    ensures Run(s, calls).history == s.history + Numbered(s.historyIndex, OwnerLogs(s.owner, calls))
    ensures Run(s, calls).historyIndex == s.historyIndex + |OwnerLogs(s.owner, calls)|
    decreases |calls|
  {
    if calls == [] {
      assert s.history + [] == s.history;
    } else {
      var c := calls[0];
      var t := Apply(s, c).next;
      var rest := OwnerLogs(s.owner, calls[1..]);
      RunHistory(t, calls[1..]);
      assert t.owner == s.owner;
      if c.Log? && c.sender == s.owner {
        var e := HistoryEntry(s.historyIndex, c.user, c.action);
        assert OwnerLogs(s.owner, calls) == [(c.user, c.action)] + rest;
        assert Numbered(s.historyIndex, [(c.user, c.action)] + rest) == [e] + Numbered(s.historyIndex + 1, rest);
        assert t.history == s.history + [e] && t.historyIndex == s.historyIndex + 1;
      } else {
        assert OwnerLogs(s.owner, calls) == rest;
        assert t.history == s.history && t.historyIndex == s.historyIndex;
      }
    }
  }

  /** Entry i of a numbered block is the i-th pair, numbered start + i. */
  lemma {:induction false} NumberedAt(start: nat, pairs: seq<(Principal, int)>, i: nat)
    requires i < |pairs|
    ensures Numbered(start, pairs)[i] == HistoryEntry(start + i, pairs[i].0, pairs[i].1)
    decreases |pairs|
  {
    if i > 0 {
      NumberedAt(start + 1, pairs[1..], i - 1);
    }
  }

  /** After a reset, N log calls by the owner give entries 0 .. N-1 holding
      their users and actions in call order, whatever else was called
      in between. */
  lemma LogsNumberedInCallOrder(owner: Principal, calls: seq<Call>)
    ensures
      var s := Run(Init(owner), calls);
      var logs := OwnerLogs(owner, calls);
      |s.history| == s.historyIndex == |logs| &&
      forall i :: 0 <= i < |logs| ==> s.history[i] == HistoryEntry(i, logs[i].0, logs[i].1)
  {
    RunHistory(Init(owner), calls);
    var logs := OwnerLogs(owner, calls);
    forall i | 0 <= i < |logs|
      ensures Run(Init(owner), calls).history[i] == HistoryEntry(i, logs[i].0, logs[i].1)
    {
      NumberedAt(0, logs, i);
    }
  }

  /** A user who just requested is pending and not verified at any height. */
  lemma RequestThenPending(s: State, user: Principal)
    requires !s.IsVerified(user)
    ensures RequestVerification(s, user).response == Ok
    ensures RequestVerification(s, user).next.HasPendingRequest(user)
    ensures forall h: nat :: !RequestVerification(s, user).next.IsVerifiedAt(user, h)
  {
  }

  /** Requesting again while pending succeeds and changes nothing. */
  lemma RepeatedRequestIsIdempotent(s: State, user: Principal)
    requires Invariant(s) && s.HasPendingRequest(user)
    ensures RequestVerification(s, user) == Outcome(Ok, s)
  {
  }

  /** A second approval without a new request is refused with NotFound,
      whichever variant made the first approval and whichever makes the
      second. */
  lemma SecondApprovalNotFound(s: State, user: Principal, height: nat, later: nat)
    ensures ApproveVerificationWithExpiry(s, s.owner, user, height).response == Ok ==>
      var t := ApproveVerificationWithExpiry(s, s.owner, user, height).next;
      ApproveVerificationWithExpiry(t, s.owner, user, later) == Outcome(Fail(NotFound), t) &&
      ApproveVerification(t, s.owner, user) == Outcome(Fail(NotFound), t)
    ensures ApproveVerification(s, s.owner, user).response == Ok ==>
      var t := ApproveVerification(s, s.owner, user).next;
      ApproveVerificationWithExpiry(t, s.owner, user, later) == Outcome(Fail(NotFound), t) &&
      ApproveVerification(t, s.owner, user) == Outcome(Fail(NotFound), t)
  {
  }

  /** A rejected user is not verified at any height afterwards. */
  lemma RejectedUserNotVerified(s: State, user: Principal)
    requires Invariant(s)
    requires RejectVerification(s, s.owner, user).response == Ok
    ensures forall h: nat :: !RejectVerification(s, s.owner, user).next.IsVerifiedAt(user, h)
  {
  }

  /** An approval without expiry, from a valid state, never lapses. */
  lemma ApprovalWithoutExpiryNeverLapses(s: State, user: Principal)
    requires Invariant(s)
    requires ApproveVerification(s, s.owner, user).response == Ok
    ensures forall h: nat :: ApproveVerification(s, s.owner, user).next.IsVerifiedAt(user, h)
  {
  }

  /** In a valid state, no call moves or removes a verified user's expiry:
      such a user has no pending request, so no approval can touch it. */
  lemma {:induction false} ExpiryStable(s: State, user: Principal, calls: seq<Call>)
    requires Invariant(s) && s.IsVerified(user) && user in s.expiry
    ensures var t := Run(s, calls); t.IsVerified(user) && user in t.expiry && t.expiry[user] == s.expiry[user]
    decreases |calls|
  {
    if calls != [] {
      StepKeepsInvariant(s, calls[0]);
      ExpiryStable(Apply(s, calls[0]).next, user, calls[1..]);
    }
  }

  /** After an approval at `height`, whatever calls follow, the user is
      verified at exactly the heights below height + EXPIRY_WINDOW. */
  lemma VerifiedUntilExpiry(s: State, user: Principal, height: nat, calls: seq<Call>, h: nat)
    requires Invariant(s)
    requires ApproveVerificationWithExpiry(s, s.owner, user, height).response == Ok
    ensures Run(ApproveVerificationWithExpiry(s, s.owner, user, height).next, calls).IsVerifiedAt(user, h)
        <==> h < height + EXPIRY_WINDOW
  {
    var t := ApproveVerificationWithExpiry(s, s.owner, user, height).next;
    StepKeepsInvariant(s, ApproveWithExpiry(s.owner, user, height));
    ExpiryStable(t, user, calls);
  }

  /** A lapsed user is still refused a new request (the request test reads
      the raw flag) and can still be given a tier (so does the tier test). */
  lemma LapsedUserKeepsRawStatus(s: State, user: Principal, h: nat, tier: int)
    requires s.IsVerified(user) && user in s.expiry && h >= s.expiry[user]
    ensures !s.IsVerifiedAt(user, h)
    ensures RequestVerification(s, user).response == Fail(AlreadyVerified)
    ensures SetUserTier(s, s.owner, user, tier).response == Ok
  {
  }

  /** The second mock's walk-through: request, approval at height 10, then
      the expiry is 31536010; verified at 10, lapsed at 31536010. */
  lemma ExpiryScenario(owner: Principal, user: Principal)
    ensures
      var s := Run(Init(owner), [Request(user), ApproveWithExpiry(owner, user, 10)]);
      s.IsVerified(user) && !s.HasPendingRequest(user) &&
      user in s.expiry && s.expiry[user] == 31536010 &&
      s.IsVerifiedAt(user, 10) && !s.IsVerifiedAt(user, 31536010)
  {
    var s0 := Init(owner);
    var s1 := Apply(s0, Request(user)).next;
    var s2 := Apply(s1, ApproveWithExpiry(owner, user, 10)).next;
    assert Run(s1, [ApproveWithExpiry(owner, user, 10)]) == Run(s2, []);
    assert [Request(user), ApproveWithExpiry(owner, user, 10)][1..] == [ApproveWithExpiry(owner, user, 10)];
  }
}
