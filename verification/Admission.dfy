/** The connect admission rule (crates/manager-core/src/connection_service.rs). */
module Admission {
  import opened Wrappers

  datatype StartOrigin = User | Startup | Automatic

  datatype OwnershipState = Healthy | StartingReservation | Stopping | RecoveryRequired

  datatype ConnectionOwner = ConnectionOwner(profile: string, instance: Option<string>, state: OwnershipState)

  datatype ConnectFacts = ConnectFacts(
    profile: string,
    profileExists: bool,
    shuttingDown: bool,
    repositoryRecoveryRequired: bool,
    repositoryRestoring: bool,
    profileMutating: bool,
    orphanedRecovery: bool,
    owners: seq<ConnectionOwner>)

  datatype ErrorCode =
    InvalidInput | ShuttingDown | Recovery | ProfileBusy | ProfileNotFound | NetworkConflict

  datatype ConnectDecision = Reserve | Reuse(id: string)

  /** C0 and C1 control characters. */
  predicate IsControl(c: char) {
    c < ' ' || '\U{7f}' <= c <= '\U{9f}'
  }

  /** The length in bytes of the UTF-8 form. */
  function Utf8Length(s: string): nat {
    if s == "" then 0
    else
      (if s[0] < '\U{80}' then 1 else if s[0] < '\U{800}' then 2 else if s[0] < '\U{10000}' then 3 else 4)
      + Utf8Length(s[1..])
  }

  predicate ValidIdentity(profile: string) {
    profile != "" && Utf8Length(profile) <= 128 && forall i :: 0 <= i < |profile| ==> !IsControl(profile[i])
  }

  /** The owners of one profile, in order. */
  function OwnersOf(owners: seq<ConnectionOwner>, profile: string): seq<ConnectionOwner> {
    if owners == [] then []
    else (if owners[0].profile == profile then [owners[0]] else []) + OwnersOf(owners[1..], profile)
  }

  function Admit(facts: ConnectFacts, origin: StartOrigin): Result<ConnectDecision, ErrorCode> {
    var current := OwnersOf(facts.owners, facts.profile);
    if !ValidIdentity(facts.profile) then Failure(InvalidInput)
    else if facts.shuttingDown then Failure(ShuttingDown)
    else if facts.repositoryRecoveryRequired then Failure(Recovery)
    else if facts.repositoryRestoring || facts.profileMutating then Failure(ProfileBusy)
    else if !facts.profileExists then Failure(ProfileNotFound)
    else if facts.orphanedRecovery || (exists o :: o in facts.owners && o.state == RecoveryRequired) then
      Failure(Recovery)
    else if |current| > 1 then Failure(Recovery)
    else if |current| == 1 && current[0].state == Stopping then Failure(ProfileBusy)
    else if exists o :: o in facts.owners && o.profile != facts.profile then Failure(NetworkConflict)
    else if |current| == 1 then
      if current[0].state == Healthy && origin == User && current[0].instance.Some?
         && current[0].instance.value != "" then
        Success(Reuse(current[0].instance.value))
      else Failure(ProfileBusy)
    else Success(Reserve)
  }

  lemma {:induction false} OwnersOfMembers(owners: seq<ConnectionOwner>, profile: string)
    ensures forall o :: o in OwnersOf(owners, profile) <==> o in owners && o.profile == profile
    ensures |OwnersOf(owners, profile)| <= |owners|
  {
    if owners != [] {
      OwnersOfMembers(owners[1..], profile);
      assert owners == [owners[0]] + owners[1..];
    }
  }

  /** No gate of the repository, the shutdown or the machine stands in the way. */
  predicate Open(facts: ConnectFacts) {
    && ValidIdentity(facts.profile) && facts.profileExists
    && !facts.shuttingDown && !facts.repositoryRecoveryRequired
    && !facts.repositoryRestoring && !facts.profileMutating && !facts.orphanedRecovery
  }

  /** A new connection is reserved exactly when every gate is open and nobody owns the
    * network: one owner of any profile, in any state, is enough to prevent it.
    */
  lemma ReservedExactlyWithoutOwners(facts: ConnectFacts, origin: StartOrigin)
    ensures Admit(facts, origin) == Success(Reserve) <==> Open(facts) && facts.owners == []
  {
    OwnersOfMembers(facts.owners, facts.profile);
    if facts.owners != [] {
      assert facts.owners[0] in facts.owners;
      if |OwnersOf(facts.owners, facts.profile)| == 0 {
        assert facts.owners[0].profile != facts.profile;
      }
    }
  }

  /** A connection is reused exactly when its own healthy, published owner is the only
    * one and the user asks.
    */
  lemma ReusedExactlyWhenHealthy(facts: ConnectFacts, origin: StartOrigin, id: string)
    ensures Admit(facts, origin) == Success(Reuse(id))
       <==> && Open(facts) && origin == User && id != ""
            && facts.owners == [ConnectionOwner(facts.profile, Some(id), Healthy)]
  {
    var owners := facts.owners;
    var mine := OwnersOf(owners, facts.profile);
    OwnersOfMembers(owners, facts.profile);
    if Admit(facts, origin) == Success(Reuse(id)) {
      assert forall o :: o in owners ==> o.profile == facts.profile;
      AllMine(owners, facts.profile);
      assert owners == mine == [mine[0]];
      assert mine[0] in mine;
    } else if owners == [ConnectionOwner(facts.profile, Some(id), Healthy)] {
      assert owners[1..] == [];
      assert mine == owners;
    }
  }

  lemma {:induction false} AllMine(owners: seq<ConnectionOwner>, profile: string)
    requires forall o :: o in owners ==> o.profile == profile
    ensures OwnersOf(owners, profile) == owners
  {
    if owners != [] {
      AllMine(owners[1..], profile);
      assert owners[0] in owners;
    }
  }
}
