/** The registry as a value: its state and one pure function per operation.
    Every operation checks authorization first, then existence, and either
    commits or returns the state it was given. */
module RegistrySpec {
  import opened IdentityTypes

  /** Length of the validity window granted by an approval with expiry:
      one year of blocks. */
  const EXPIRY_WINDOW: nat := 31536000

  datatype State = State(
    owner: Principal,
    requests: set<Principal>,
    verified: set<Principal>,
    expiry: map<Principal, nat>,
    tiers: map<Principal, int>,
    history: seq<HistoryEntry>,
    historyIndex: nat)
  {
    /** The raw verified flag; it ignores expiry. */
    predicate IsVerified(user: Principal)
    {
      user in verified
    }

    predicate HasPendingRequest(user: Principal)
    {
      user in requests
    }

    /** Verified and not lapsed at `height`. A verified user without a
        recorded expiry (approved without one) never lapses. */
    predicate IsVerifiedAt(user: Principal, height: nat)
      ensures IsVerifiedAt(user, height) ==> IsVerified(user)
    {
      user in verified && (user in expiry ==> height < expiry[user])
    }
  }

  /** What a call returns together with the state it leaves. */
  datatype Outcome = Outcome(response: Response, next: State)

  /** The history log numbers its entries 0, 1, 2, ... and the counter is
      the number of entries. */
  ghost predicate HistoryNumbered(history: seq<HistoryEntry>, historyIndex: nat)
  {
    |history| == historyIndex &&
    forall i :: 0 <= i < |history| ==> history[i].index == i
  }

  /** What every reachable state satisfies: no user is both pending and
      verified, expiry and tier are recorded only for verified users, and
      the log is numbered consecutively. */
  ghost predicate Invariant(s: State)
  {
    s.requests !! s.verified &&
    s.expiry.Keys <= s.verified &&
    s.tiers.Keys <= s.verified &&
    HistoryNumbered(s.history, s.historyIndex)
  }

  /** The state after a reset: nothing pending, verified, tiered or logged. */
  function Init(owner: Principal): (s: State)
    ensures s.owner == owner && Invariant(s)
    ensures forall u :: !s.IsVerified(u) && !s.HasPendingRequest(u) && u !in s.tiers
    ensures s.history == [] && s.historyIndex == 0
  {
    State(owner, {}, {}, map[], map[], [], 0)
  }

  /** A user asks to be verified. Refused only for a user whose raw verified
      flag is set; asking again while pending changes nothing. */
  function RequestVerification(s: State, user: Principal): (o: Outcome)
    ensures o.response == Fail(AlreadyVerified) <==> s.IsVerified(user)
    ensures o.response == Ok <==> !s.IsVerified(user)
    ensures o.response.Fail? ==> o.next == s
    ensures o.response.Ok? ==> o.next.HasPendingRequest(user) && !o.next.IsVerified(user)
    ensures o.next.requests - {user} == s.requests - {user}
    ensures o.next.(requests := s.requests) == s
  {
    if user in s.verified then Outcome(Fail(AlreadyVerified), s)
    else Outcome(Ok, s.(requests := s.requests + {user}))
  }

  /** The owner approves a pending request (first mock: no expiry recorded). */
  function ApproveVerification(s: State, sender: Principal, user: Principal): (o: Outcome)
    ensures o.response == Fail(Unauthorized) <==> sender != s.owner
    ensures o.response == Fail(NotFound) <==> sender == s.owner && !s.HasPendingRequest(user)
    ensures o.response == Ok <==> sender == s.owner && s.HasPendingRequest(user)
    ensures o.response.Fail? ==> o.next == s
    ensures o.response.Ok? ==> o.next.IsVerified(user) && !o.next.HasPendingRequest(user)
    ensures o.next.requests - {user} == s.requests - {user}
    ensures o.next.verified - {user} == s.verified - {user}
    ensures o.next.(requests := s.requests, verified := s.verified) == s
  {
    if sender != s.owner then Outcome(Fail(Unauthorized), s)
    else if user !in s.requests then Outcome(Fail(NotFound), s)
    else Outcome(Ok, s.(requests := s.requests - {user}, verified := s.verified + {user}))
  }

  /** The owner approves a pending request at block `height`; the approval
      lapses EXPIRY_WINDOW blocks later (second mock). */
  function ApproveVerificationWithExpiry(s: State, sender: Principal, user: Principal, height: nat): (o: Outcome)
    ensures o.response == Fail(Unauthorized) <==> sender != s.owner
    ensures o.response == Fail(NotFound) <==> sender == s.owner && !s.HasPendingRequest(user)
    ensures o.response == Ok <==> sender == s.owner && s.HasPendingRequest(user)
    ensures o.response.Fail? ==> o.next == s
    ensures o.response.Ok? ==>
      o.next.IsVerified(user) && !o.next.HasPendingRequest(user) &&
      user in o.next.expiry && o.next.expiry[user] == height + EXPIRY_WINDOW &&
      forall h: nat :: o.next.IsVerifiedAt(user, h) <==> h < height + EXPIRY_WINDOW
    ensures o.next.requests - {user} == s.requests - {user}
    ensures o.next.verified - {user} == s.verified - {user}
    ensures o.next.expiry - {user} == s.expiry - {user}
    ensures o.next.(requests := s.requests, verified := s.verified, expiry := s.expiry) == s
  {
    if sender != s.owner then Outcome(Fail(Unauthorized), s)
    else if user !in s.requests then Outcome(Fail(NotFound), s)
    else Outcome(Ok, s.(requests := s.requests - {user},
                        expiry := s.expiry[user := height + EXPIRY_WINDOW],
                        verified := s.verified + {user}))
  }

  /** The owner discards a pending request; nothing becomes verified. */
  function RejectVerification(s: State, sender: Principal, user: Principal): (o: Outcome)
    ensures o.response == Fail(Unauthorized) <==> sender != s.owner
    ensures o.response == Fail(NotFound) <==> sender == s.owner && !s.HasPendingRequest(user)
    ensures o.response == Ok <==> sender == s.owner && s.HasPendingRequest(user)
    ensures o.response.Fail? ==> o.next == s
    ensures o.response.Ok? ==> !o.next.HasPendingRequest(user)
    ensures o.next.verified == s.verified
    ensures o.next.requests - {user} == s.requests - {user}
    ensures o.next.(requests := s.requests) == s
  {
    if sender != s.owner then Outcome(Fail(Unauthorized), s)
    else if user !in s.requests then Outcome(Fail(NotFound), s)
    else Outcome(Ok, s.(requests := s.requests - {user}))
  }

  /** The owner assigns a tier to a user whose raw verified flag is set. */
  function SetUserTier(s: State, sender: Principal, user: Principal, tier: int): (o: Outcome)
    ensures o.response == Fail(Unauthorized) <==> sender != s.owner
    ensures o.response == Fail(NotFound) <==> sender == s.owner && !s.IsVerified(user)
    ensures o.response == Ok <==> sender == s.owner && s.IsVerified(user)
    ensures o.response.Fail? ==> o.next == s
    ensures o.response.Ok? ==> o.next.tiers == s.tiers[user := tier]
    ensures o.next.(tiers := s.tiers) == s
  {
    if sender != s.owner then Outcome(Fail(Unauthorized), s)
    else if user !in s.verified then Outcome(Fail(NotFound), s)
    else Outcome(Ok, s.(tiers := s.tiers[user := tier]))
  }

  /** The owner appends an entry to the audit log; `user` need not be known. */
  function LogVerificationAction(s: State, sender: Principal, user: Principal, action: int): (o: Outcome)
    ensures o.response == Fail(Unauthorized) <==> sender != s.owner
    ensures o.response == Ok <==> sender == s.owner
    ensures o.response.Fail? ==> o.next == s
    ensures o.response.Ok? ==>
      o.next.history == s.history + [HistoryEntry(s.historyIndex, user, action)] &&
      o.next.historyIndex == s.historyIndex + 1
    ensures o.next.(history := s.history, historyIndex := s.historyIndex) == s
  {
    if sender != s.owner then Outcome(Fail(Unauthorized), s)
    else Outcome(Ok, s.(history := s.history + [HistoryEntry(s.historyIndex, user, action)],
                        historyIndex := s.historyIndex + 1))
  }
}
