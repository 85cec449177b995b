/** The registry object. Its fields are the mocks' state, updated in place;
    each method's contract ties its response and the new state to the
    matching function of RegistrySpec, and keeps the invariant. */
module IdentityRegistry {
  import opened IdentityTypes
  import opened RegistrySpec

  class Registry {
    /** The single administrator, fixed when the registry is created. */
    const owner: Principal
    var verificationRequests: set<Principal>
    var verifiedUsers: set<Principal>
    var verificationExpiry: map<Principal, nat>
    var userTiers: map<Principal, int>
    var verificationHistory: seq<HistoryEntry>
    var historyIndex: nat

    /** The registry's state as a value. */
    function Snapshot(): (s: State)
      reads this
    {
      State(owner, verificationRequests, verifiedUsers, verificationExpiry,
            userTiers, verificationHistory, historyIndex)
    }

    ghost predicate Valid()
      reads this
    {
      Invariant(Snapshot())
    }

    /** A fresh registry, as after the mocks' reset. */
    constructor (owner: Principal)
      ensures Valid()
      ensures Snapshot() == Init(owner)
    {
      this.owner := owner;
      verificationRequests := {};
      verifiedUsers := {};
      verificationExpiry := map[];
      userTiers := map[];
      verificationHistory := [];
      historyIndex := 0;
    }

    /** The raw flag, read from the field; an unknown user reads false. */
    predicate IsVerified(user: Principal)
      reads this
      ensures IsVerified(user) <==> Snapshot().IsVerified(user)
    {
      user in verifiedUsers
    }

    predicate HasPendingRequest(user: Principal)
      reads this
      ensures HasPendingRequest(user) <==> Snapshot().HasPendingRequest(user)
    {
      user in verificationRequests
    }

    /** Verified and not lapsed at `height`, read from the fields. */
    predicate IsVerifiedAt(user: Principal, height: nat)
      reads this
      ensures IsVerifiedAt(user, height) <==> Snapshot().IsVerifiedAt(user, height)
    {
      user in verifiedUsers &&
      (user in verificationExpiry ==> height < verificationExpiry[user])
    }

    method RequestVerification(user: Principal) returns (r: Response)
      requires Valid()
      modifies this
      ensures Valid()
      ensures Outcome(r, Snapshot()) == RegistrySpec.RequestVerification(old(Snapshot()), user)
    {
      if user in verifiedUsers {
        return Fail(AlreadyVerified);
      }
      verificationRequests := verificationRequests + {user};
      r := Ok;
    }

    method ApproveVerification(sender: Principal, user: Principal) returns (r: Response)
      requires Valid()
      modifies this
      ensures Valid()
      ensures Outcome(r, Snapshot()) == RegistrySpec.ApproveVerification(old(Snapshot()), sender, user)
    {
      if sender != owner {
        return Fail(Unauthorized);
      }
      if user !in verificationRequests {
        return Fail(NotFound);
      }
      verificationRequests := verificationRequests - {user};
      verifiedUsers := verifiedUsers + {user};
      r := Ok;
    }

    method ApproveVerificationWithExpiry(sender: Principal, user: Principal, height: nat) returns (r: Response)
      requires Valid()
      modifies this
      ensures Valid()
      ensures Outcome(r, Snapshot()) == RegistrySpec.ApproveVerificationWithExpiry(old(Snapshot()), sender, user, height)
    {
      if sender != owner {
        return Fail(Unauthorized);
      }
      if user !in verificationRequests {
        return Fail(NotFound);
      }
      verificationRequests := verificationRequests - {user};
      verificationExpiry := verificationExpiry[user := height + EXPIRY_WINDOW];
      verifiedUsers := verifiedUsers + {user};
      r := Ok;
    }

    method RejectVerification(sender: Principal, user: Principal) returns (r: Response)
      requires Valid()
      modifies this
      ensures Valid()
      ensures Outcome(r, Snapshot()) == RegistrySpec.RejectVerification(old(Snapshot()), sender, user)
    {
      if sender != owner {
        return Fail(Unauthorized);
      }
      if user !in verificationRequests {
        return Fail(NotFound);
      }
      verificationRequests := verificationRequests - {user};
      r := Ok;
    }

    method SetUserTier(sender: Principal, user: Principal, tier: int) returns (r: Response)
      requires Valid()
      modifies this
      ensures Valid()
      ensures Outcome(r, Snapshot()) == RegistrySpec.SetUserTier(old(Snapshot()), sender, user, tier)
    {
      if sender != owner {
        return Fail(Unauthorized);
      }
      if !IsVerified(user) {
        return Fail(NotFound);
      }
      userTiers := userTiers[user := tier];
      r := Ok;
    }

    method LogVerificationAction(sender: Principal, user: Principal, action: int) returns (r: Response)
      requires Valid()
      modifies this
      ensures Valid()
      ensures Outcome(r, Snapshot()) == RegistrySpec.LogVerificationAction(old(Snapshot()), sender, user, action)
    {
      if sender != owner {
        return Fail(Unauthorized);
      }
      verificationHistory := verificationHistory + [HistoryEntry(historyIndex, user, action)];
      historyIndex := historyIndex + 1;
      r := Ok;
    }
  }
}
