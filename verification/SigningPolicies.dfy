/** Signing policies by reward epoch (client/finalizer/signing_policy_storage.go). */
module SigningPolicies {
  import opened Prelude
  import opened VoterSets

  /** A `uint24` on chain. */
  type RewardEpochId = x: int | 0 <= x < 0x100_0000

  datatype SigningPolicy = SigningPolicy(
    rewardEpochId: RewardEpochId,
    startVotingRoundId: Uint32,
    threshold: Uint16,
    seed: nat,
    rawBytes: Bytes,
    voters: VoterSet)

  /** Reward epochs are consecutive and starting rounds never decrease. */
  ghost predicate Ordered(list: seq<SigningPolicy>) {
    forall i, j :: 0 <= i < j < |list| ==>
      && list[j].rewardEpochId - list[i].rewardEpochId == j - i
      && list[i].startVotingRoundId <= list[j].startVotingRoundId
  }

  /** How many leading policies start before `round`: the index `sort.Find` returns. */
  function StartedBefore(list: seq<SigningPolicy>, round: Uint32): (n: nat)
    ensures n <= |list|
    ensures forall i :: 0 <= i < n ==> list[i].startVotingRoundId < round
    ensures n < |list| ==> list[n].startVotingRoundId >= round
  {
    if list == [] || list[0].startVotingRoundId >= round then 0 else 1 + StartedBefore(list[1..], round)
  }

  lemma StartedBeforeIs(list: seq<SigningPolicy>, round: Uint32, n: nat)
    requires n <= |list| && (forall i :: 0 <= i < n ==> list[i].startVotingRoundId < round)
    requires n < |list| ==> list[n].startVotingRoundId >= round
    ensures StartedBefore(list, round) == n
  {
    hide StartedBefore;
  }

  /** `findByVotingRoundId` on values: an exact start wins, otherwise the policy before. */
  function Lookup(list: seq<SigningPolicy>, round: Uint32): Option<SigningPolicy> {
    var i := StartedBefore(list, round);
    if i < |list| && list[i].startVotingRoundId == round then Some(list[i])
    else if i == 0 then None
    else Some(list[i - 1])
  }

  /** Lookup fails exactly when every policy starts later; otherwise it finds one with the greatest start. */
  lemma {:induction false} LookupIsGreatestStart(list: seq<SigningPolicy>, round: Uint32)
    requires Ordered(list)
    ensures Lookup(list, round).None? <==> forall p :: p in list ==> round < p.startVotingRoundId
    ensures Lookup(list, round).None? <==> list == [] || round < list[0].startVotingRoundId
    ensures Lookup(list, round).Some? ==>
              var sp := Lookup(list, round).value;
              && sp in list && sp.startVotingRoundId <= round
              && forall p :: p in list && p.startVotingRoundId <= round ==>
                   p.startVotingRoundId <= sp.startVotingRoundId
  {
    var i := StartedBefore(list, round);
    if i > 0 {
      assert list[0].startVotingRoundId < round;
      assert list[i - 1] in list;
    }
    if list != [] {
      assert list[0] in list;
    }
  }

  /** Policy `i` is the one in force: the first that starts with the round, or else the last that starts before it. */
  ghost predicate InForceAt(list: seq<SigningPolicy>, round: Uint32, i: nat)
    requires i < |list|
  {
    if list[i].startVotingRoundId == round
    then forall j :: 0 <= j < i ==> list[j].startVotingRoundId < round
    else list[i].startVotingRoundId < round && forall j :: i < j < |list| ==> round < list[j].startVotingRoundId
  }

  /** Among policies with equal starts, lookup takes the first on an exact start and the last otherwise. */
  lemma {:induction false} LookupBreaksTies(list: seq<SigningPolicy>, round: Uint32)
    requires Ordered(list) && Lookup(list, round).Some?
    ensures exists i: nat :: i < |list| && list[i] == Lookup(list, round).value && InForceAt(list, round, i)
  {
    hide StartedBefore;
    var n := StartedBefore(list, round);
    var i := if n < |list| && list[n].startVotingRoundId == round then n else n - 1;
    if n < |list| && i != n {
      assert forall j :: n <= j < |list| ==> list[n].startVotingRoundId <= list[j].startVotingRoundId;
    }
    assert InForceAt(list, round, i);
  }

  function CanAdd(list: seq<SigningPolicy>, sp: SigningPolicy): bool {
    list == [] ||
    (var last := list[|list| - 1];
     last.rewardEpochId == sp.rewardEpochId - 1 && last.startVotingRoundId <= sp.startVotingRoundId)
  }

  function Added(list: seq<SigningPolicy>, sp: SigningPolicy): seq<SigningPolicy> {
    if CanAdd(list, sp) then list + [sp] else list
  }

  /** The length of the longest prefix starting at or before `round`. */
  function Expired(list: seq<SigningPolicy>, round: Uint32): (n: nat)
    ensures n <= |list|
    ensures forall i :: 0 <= i < n ==> list[i].startVotingRoundId <= round
    ensures n < |list| ==> round < list[n].startVotingRoundId
  {
    if list == [] || round < list[0].startVotingRoundId then 0 else 1 + Expired(list[1..], round)
  }

  lemma ExpiredIs(list: seq<SigningPolicy>, round: Uint32, n: nat)
    requires n <= |list| && (forall i :: 0 <= i < n ==> list[i].startVotingRoundId <= round)
    requires n < |list| ==> round < list[n].startVotingRoundId
    ensures Expired(list, round) == n
  {
    hide Expired;
  }

  class SigningPolicyStorage {
    var spList: seq<SigningPolicy>

    ghost predicate Valid()
      reads this
    {
      Ordered(spList)
    }

    constructor ()
      ensures Valid() && spList == []
    {
      spList := [];
    }

    /** `sort.Find`, then the exact hit or the policy before it. */
    method FindByVotingRoundId(votingRoundId: Uint32) returns (r: Option<SigningPolicy>)
      requires Valid()
      ensures r == Lookup(spList, votingRoundId)
    {
      hide StartedBefore;
      var i, j := 0, |spList|;
      while i < j
        invariant 0 <= i <= j <= |spList|
        invariant forall h :: 0 <= h < i ==> spList[h].startVotingRoundId < votingRoundId
        invariant forall h :: j <= h < |spList| ==> votingRoundId <= spList[h].startVotingRoundId
      {
        var h := (i + j) / 2;
        if votingRoundId > spList[h].startVotingRoundId {
          i := h + 1;
        } else {
          j := h;
        }
      }
      StartedBeforeIs(spList, votingRoundId, i);
      if i < |spList| && spList[i].startVotingRoundId == votingRoundId {
        return Some(spList[i]);
      }
      if i == 0 {
        return None;
      }
      return Some(spList[i - 1]);
    }

    method Add(sp: SigningPolicy) returns (ok: bool)
      requires Valid()
      modifies this
      ensures Valid()
      ensures ok <==> Ordered(old(spList) + [sp])
      ensures spList == if ok then old(spList) + [sp] else old(spList)
      ensures spList == Added(old(spList), sp)
    {
      CanAddExactly(spList, sp);
      if |spList| > 0 {
        if spList[|spList| - 1].rewardEpochId != sp.rewardEpochId - 1 {
          return false;
        }
        if sp.startVotingRoundId < spList[|spList| - 1].startVotingRoundId {
          return false;
        }
      }
      AddOrdered(spList, sp);
      spList := spList + [sp];
      return true;
    }

    /** Also tells whether the policy found is the last one. */
    method GetForVotingRound(votingRoundId: Uint32) returns (r: Option<SigningPolicy>, last: bool)
      requires Valid()
      ensures r == Lookup(spList, votingRoundId)
      ensures last <==> r.Some? && r.value == spList[|spList| - 1]
    {
      r := FindByVotingRoundId(votingRoundId);
      if r.None? {
        return r, false;
      }
      LookupIsGreatestStart(spList, votingRoundId);
      last := r.value.rewardEpochId == spList[|spList| - 1].rewardEpochId;
      ghost var k :| 0 <= k < |spList| && spList[k] == r.value;
    }

    method First() returns (r: Option<SigningPolicy>)
      ensures r == if spList == [] then None else Some(spList[0])
    {
      return if |spList| == 0 then None else Some(spList[0]);
    }

    /** Removes the policies starting at or before the round, oldest first, and returns their reward epochs. */
    method RemoveByVotingRound(votingRoundId: Uint32) returns (removed: seq<Uint32>)
      requires Valid()
      modifies this
      ensures Valid()
      ensures spList == old(spList)[Expired(old(spList), votingRoundId)..]
      ensures |removed| == Expired(old(spList), votingRoundId)
      ensures forall i :: 0 <= i < |removed| ==> removed[i] == old(spList)[i].rewardEpochId
    {
      hide Expired;
      removed := [];
      while |spList| > 0 && spList[0].startVotingRoundId <= votingRoundId
        invariant |removed| <= |old(spList)| && spList == old(spList)[|removed|..]
        invariant forall i :: 0 <= i < |removed| ==> removed[i] == old(spList)[i].rewardEpochId
        invariant forall i :: 0 <= i < |removed| ==> old(spList)[i].startVotingRoundId <= votingRoundId
        decreases |spList|
      {
        removed := removed + [spList[0].rewardEpochId];
        spList := spList[1..];
      }
      ExpiredIs(old(spList), votingRoundId, |removed|);
    }
  }

  /** A policy is accepted exactly when the list stays ordered with it. */
  lemma CanAddExactly(list: seq<SigningPolicy>, sp: SigningPolicy)
    requires Ordered(list)
    ensures CanAdd(list, sp) <==> Ordered(list + [sp])
  {
    if CanAdd(list, sp) {
      AddOrdered(list, sp);
    }
    if Ordered(list + [sp]) && list != [] {
      var list' := list + [sp];
      assert list'[|list|].rewardEpochId - list'[|list| - 1].rewardEpochId == 1;
    }
  }

  lemma AddOrdered(list: seq<SigningPolicy>, sp: SigningPolicy)
    requires Ordered(list)
    ensures Ordered(Added(list, sp))
  {
    var list' := Added(list, sp);
    forall i, j | 0 <= i < j < |list'|
      ensures list'[j].rewardEpochId - list'[i].rewardEpochId == j - i
      ensures list'[i].startVotingRoundId <= list'[j].startVotingRoundId
    {
      if j == |list| && i < |list| - 1 {
        assert list[|list| - 1].rewardEpochId - list[i].rewardEpochId == |list| - 1 - i;
      }
    }
  }

  // ---------- All runs ----------

  datatype Change = AddPolicy(sp: SigningPolicy) | RemoveBefore(round: Uint32)

  function AfterChange(list: seq<SigningPolicy>, c: Change): seq<SigningPolicy> {
    match c
    case AddPolicy(sp) => Added(list, sp)
    case RemoveBefore(round) => list[Expired(list, round)..]
  }

  function Changed(list: seq<SigningPolicy>, cs: seq<Change>): seq<SigningPolicy> {
    if cs == [] then list else AfterChange(Changed(list, cs[..|cs| - 1]), cs[|cs| - 1])
  }

  /** Every run of additions and removals from the empty list keeps the list ordered. */
  lemma {:induction false} AlwaysOrdered(cs: seq<Change>)
    ensures Ordered(Changed([], cs))
  {
    if cs != [] {
      AlwaysOrdered(cs[..|cs| - 1]);
      var list := Changed([], cs[..|cs| - 1]);
      match cs[|cs| - 1]
      case AddPolicy(sp) => AddOrdered(list, sp);
      case RemoveBefore(round) =>
    }
  }

  /** Removal changes no lookup at or above the first remaining start, and empties all below it. */
  lemma {:induction false} RemovalKeepsLookups(list: seq<SigningPolicy>, round: Uint32, r: Uint32)
    requires Ordered(list)
    ensures var rest := list[Expired(list, round)..];
            Lookup(rest, r) ==
              if rest != [] && rest[0].startVotingRoundId <= r then Lookup(list, r) else None
  {
    hide StartedBefore, Expired;
    var n := Expired(list, round);
    var rest := list[n..];
    if rest != [] && rest[0].startVotingRoundId <= r {
      var i := StartedBefore(rest, r);
      assert forall j :: n <= j < n + i ==> list[j] == rest[j - n];
      assert n + i < |list| ==> list[n + i] == rest[i];
      StartedBeforeIs(list, r, n + i);
    } else {
      StartedBeforeIs(rest, r, 0);
    }
  }

  /** A new policy changes no lookup below its start. */
  lemma AddKeepsEarlierLookups(list: seq<SigningPolicy>, sp: SigningPolicy, r: Uint32)
    requires Ordered(list) && r < sp.startVotingRoundId
    ensures Lookup(Added(list, sp), r) == Lookup(list, r)
  {
    hide StartedBefore;
    if CanAdd(list, sp) {
      StartedBeforeIs(list + [sp], r, StartedBefore(list, r));
    }
  }
}
