/** Processing of submitted items (client/finalizer/finalizer_client.go). */
module Finalizer {
  import opened Prelude
  import opened SigningPolicies
  import opened Payloads
  import opened Submissions
  import opened SubmissionRuns
  import opened FinalizerQueue

  /** What the clock says when an item is looked at: the current voting round, and whether the last reward epoch is over. */
  datatype Clock = Clock(currentRound: Uint32, late: bool)

  datatype Verdict = Skip | Reject | Store(sp: SigningPolicy, threshold: Uint16)

  function SixtyPercent(sp: SigningPolicy): (w: Uint16)
    ensures 100 * w <= 60 * sp.voters.totalWeight as int < 100 * (w + 1)
  {
    sp.voters.totalWeight as int * 60 / 100
  }

  /** `signingPolicyData`: the policy's threshold, or 60% once the last policy's epoch is over. */
  function ThresholdFor(list: seq<SigningPolicy>, sp: SigningPolicy, late: bool): Uint16 {
    if late && list != [] && sp.rewardEpochId == list[|list| - 1].rewardEpochId then SixtyPercent(sp) else sp.threshold
  }

  /** The item's round is neither before the starting round nor in the future. */
  predicate InTime(start: Uint32, round: Uint32, clock: Clock) {
    start <= round <= clock.currentRound
  }

  /** What becomes of an item: dropped, stored under a policy, or the whole submission rejected. */
  function Classify(start: Uint32, list: seq<SigningPolicy>, round: Uint32, clock: Clock): Verdict {
    if !InTime(start, round, clock) then Skip
    else
      match Lookup(list, round)
      case Some(sp) => Store(sp, ThresholdFor(list, sp, clock.late))
      case None => if list != [] && round < list[0].startVotingRoundId then Skip else Reject
  }

  /** Storage and queue, with the history of storage operations, of queued items and of the items they were queued for. */
  datatype Pipe = Pipe(
    storage: Storage,
    queue: seq<QueueItem>,
    ops: seq<Op>,
    enqueued: seq<QueueItem>,
    reporters: seq<SubmitterPayloadItem>)

  const EMPTY_PIPE := Pipe(map[], [], [], [], [])

  ghost predicate GoodPolicies(list: seq<SigningPolicy>) {
    Ordered(list) && forall i :: 0 <= i < |list| ==> GoodPolicy(list[i])
  }

  function QueueItemFor(item: SubmitterPayloadItem, sp: SigningPolicy): QueueItem {
    QueueItem(sp.seed, item.votingRoundId, item.protocolId, item.payload.messageHash)
  }

  function StoreItem(s: Pipe, item: SubmitterPayloadItem, sp: SigningPolicy, threshold: Uint16): Pipe
    requires AllShaped(s.storage) && GoodPolicy(sp)
  {
    var reports := Reports(s.storage, item.payload, sp, threshold);
    var q := if reports then [QueueItemFor(item, sp)] else [];
    Pipe(Stored(s.storage, item.payload, sp, threshold), s.queue + q,
         s.ops + [Add(item.payload, sp, threshold)], s.enqueued + q, s.reporters + if reports then [item] else [])
  }

  lemma ClassifiedPolicyIsGood(start: Uint32, list: seq<SigningPolicy>, round: Uint32, clock: Clock)
    requires GoodPolicies(list)
    ensures var v := Classify(start, list, round, clock);
            v.Store? ==> GoodPolicy(v.sp) && v.sp in list
  {
    LookupIsGreatestStart(list, round);
  }

  /** Items `i..` of a submission, in order; the result tells whether the submission was accepted. */
  function Processed(
    start: Uint32, list: seq<SigningPolicy>, s: Pipe, items: seq<SubmitterPayloadItem>, i: nat, clock: nat -> Clock)
    : (r: (Pipe, bool))
    requires GoodPolicies(list) && AllShaped(s.storage) && i <= |items|
    ensures AllShaped(r.0.storage)
    decreases |items| - i
  {
    if i == |items| then (s, true)
    else
      ClassifiedPolicyIsGood(start, list, items[i].votingRoundId, clock(i));
      match Classify(start, list, items[i].votingRoundId, clock(i))
      case Skip => Processed(start, list, s, items, i + 1, clock)
      case Reject => (s, false)
      case Store(sp, threshold) =>
        StoredShaped(s.storage, items[i].payload, sp, threshold);
        Processed(start, list, StoreItem(s, items[i], sp, threshold), items, i + 1, clock)
  }

  lemma StoredShaped(s: Storage, p: SignedPayload, sp: SigningPolicy, threshold: Uint16)
    requires AllShaped(s) && GoodPolicy(sp)
    ensures AllShaped(Stored(s, p, sp, threshold))
  {
    hide WithPayload;
    WithPayloadShaped(MessageFor(s, KeyOf(p), sp), p, threshold);
  }

  lemma ProcessedStep(
    start: Uint32, list: seq<SigningPolicy>, s: Pipe, items: seq<SubmitterPayloadItem>, i: nat, clock: nat -> Clock)
    requires GoodPolicies(list) && AllShaped(s.storage) && i <= |items|
    ensures i == |items| ==> Processed(start, list, s, items, i, clock) == (s, true)
    ensures i < |items| ==>
              match Classify(start, list, items[i].votingRoundId, clock(i))
              case Skip => Processed(start, list, s, items, i, clock) == Processed(start, list, s, items, i + 1, clock)
              case Reject => Processed(start, list, s, items, i, clock) == (s, false)
              case Store(sp, threshold) =>
                && GoodPolicy(sp)
                && AllShaped(StoreItem(s, items[i], sp, threshold).storage)
                && Processed(start, list, s, items, i, clock)
                   == Processed(start, list, StoreItem(s, items[i], sp, threshold), items, i + 1, clock)
  {
    hide GoodPolicy, Classify, StoreItem;
    if i < |items| {
      ClassifiedPolicyIsGood(start, list, items[i].votingRoundId, clock(i));
      match Classify(start, list, items[i].votingRoundId, clock(i))
      case Skip =>
      case Reject =>
      case Store(sp, threshold) => StoreItemShaped(s, items[i], sp, threshold);
    }
  }

  /** The threshold in force: the policy's own, or 60% of its weight, rounded down, for the last policy once it is late. */
  ghost predicate InForce(list: seq<SigningPolicy>, sp: SigningPolicy, late: bool, threshold: Uint16) {
    if list != [] && sp.rewardEpochId == list[|list| - 1].rewardEpochId && late
    then 100 * threshold <= 60 * sp.voters.totalWeight as int < 100 * (threshold + 1)
    else threshold == sp.threshold
  }

  /**
   * An item is stored exactly when its round is neither before the start, nor in the future, nor
   * before the oldest policy; it is rejected exactly when the first two hold and there is no policy.
   */
  lemma ClassifiedExactly(start: Uint32, list: seq<SigningPolicy>, round: Uint32, clock: Clock)
    requires Ordered(list)
    ensures var v := Classify(start, list, round, clock);
            && (v.Store? <==> start <= round <= clock.currentRound && list != [] && list[0].startVotingRoundId <= round)
            && (v.Reject? <==> start <= round <= clock.currentRound && list == [])
            && (v.Store? ==> Lookup(list, round) == Some(v.sp) && InForce(list, v.sp, clock.late, v.threshold))
  {
    hide Lookup;
    LookupIsGreatestStart(list, round);
  }

  /**
   * A retry is requested exactly when the policy list is empty and some item is in time, and then
   * nothing at all was stored or queued.
   */
  lemma {:induction false} RetryExactlyWhenNeeded(
    start: Uint32, list: seq<SigningPolicy>, s: Pipe, items: seq<SubmitterPayloadItem>, i: nat, clock: nat -> Clock)
    requires GoodPolicies(list) && AllShaped(s.storage) && i <= |items|
    ensures !Processed(start, list, s, items, i, clock).1
            <==> list == [] && exists j :: i <= j < |items| && start <= items[j].votingRoundId <= clock(j).currentRound
    ensures !Processed(start, list, s, items, i, clock).1 ==> Processed(start, list, s, items, i, clock).0 == s
    decreases |items| - i
  {
    hide Classify, StoreItem;
    if i < |items| {
      var round := items[i].votingRoundId;
      ClassifiedExactly(start, list, round, clock(i));
      ClassifiedPolicyIsGood(start, list, round, clock(i));
      match Classify(start, list, round, clock(i))
      case Skip => RetryExactlyWhenNeeded(start, list, s, items, i + 1, clock);
      case Reject => assert start <= items[i].votingRoundId <= clock(i).currentRound;
      case Store(sp, threshold) =>
        StoreItemShaped(s, items[i], sp, threshold);
        RetryExactlyWhenNeeded(start, list, StoreItem(s, items[i], sp, threshold), items, i + 1, clock);
    }
  }

  lemma StoreItemShaped(s: Pipe, item: SubmitterPayloadItem, sp: SigningPolicy, threshold: Uint16)
    requires AllShaped(s.storage) && GoodPolicy(sp)
    ensures AllShaped(StoreItem(s, item, sp, threshold).storage)
  {
    StoredShaped(s.storage, item.payload, sp, threshold);
  }

  /** The addition an item makes, if it is in time and under a policy. */
  ghost function AdditionOf(list: seq<SigningPolicy>, start: Uint32, item: SubmitterPayloadItem, clock: Clock): seq<Op>
    requires Ordered(list)
  {
    var round := item.votingRoundId;
    LookupIsGreatestStart(list, round);
    if start <= round <= clock.currentRound && list != [] && list[0].startVotingRoundId <= round
    then var sp := Lookup(list, round).value; [Add(item.payload, sp, ThresholdFor(list, sp, clock.late))]
    else []
  }

  /** The additions of items `i..`, in order. */
  ghost function Additions(
    start: Uint32, list: seq<SigningPolicy>, items: seq<SubmitterPayloadItem>, i: nat, clock: nat -> Clock): seq<Op>
    requires Ordered(list) && i <= |items|
    decreases |items| - i
  {
    if i == |items| then []
    else AdditionOf(list, start, items[i], clock(i)) + Additions(start, list, items, i + 1, clock)
  }

  lemma AdditionIs(list: seq<SigningPolicy>, start: Uint32, item: SubmitterPayloadItem, clock: Clock)
    requires Ordered(list)
    ensures match Classify(start, list, item.votingRoundId, clock)
            case Store(sp, threshold) => AdditionOf(list, start, item, clock) == [Add(item.payload, sp, threshold)]
            case Skip => AdditionOf(list, start, item, clock) == []
            case Reject => AdditionOf(list, start, item, clock) == []
  {
    hide Lookup, ThresholdFor;
    LookupIsGreatestStart(list, item.votingRoundId);
  }

  lemma StoreItemOps(s: Pipe, item: SubmitterPayloadItem, sp: SigningPolicy, threshold: Uint16)
    requires AllShaped(s.storage) && GoodPolicy(sp)
    ensures StoreItem(s, item, sp, threshold).ops == s.ops + [Add(item.payload, sp, threshold)]
  {
  }

  /** What an accepted submission adds to storage is exactly its items in time and under a policy. */
  lemma {:induction false} ProcessedAddsExactly(
    start: Uint32, list: seq<SigningPolicy>, s: Pipe, items: seq<SubmitterPayloadItem>, i: nat, clock: nat -> Clock)
    requires GoodPolicies(list) && Ordered(list) && AllShaped(s.storage) && i <= |items|
    requires Processed(start, list, s, items, i, clock).1
    ensures Processed(start, list, s, items, i, clock).0.ops == s.ops + Additions(start, list, items, i, clock)
    decreases |items| - i
  {
    hide GoodPolicies, Ordered, AllShaped, GoodPolicy, Processed, Classify, StoreItem, AdditionOf;
    ProcessedStep(start, list, s, items, i, clock);
    if i < |items| {
      AdditionIs(list, start, items[i], clock(i));
      match Classify(start, list, items[i].votingRoundId, clock(i))
      case Skip => ProcessedAddsExactly(start, list, s, items, i + 1, clock);
      case Reject =>
      case Store(sp, threshold) =>
        StoreItemOps(s, items[i], sp, threshold);
        ProcessedAddsExactly(start, list, StoreItem(s, items[i], sp, threshold), items, i + 1, clock);
    }
  }

  /**
   * A submission is accepted unless there is no policy and one of its items is in time. If accepted,
   * it adds exactly its items in time and under a policy; otherwise it changes nothing.
   */
  ghost predicate Accounted(
    start: Uint32, list: seq<SigningPolicy>, s: Pipe, items: seq<SubmitterPayloadItem>, clock: nat -> Clock,
    s': Pipe, ok: bool)
  {
    && (!ok <==> list == [] && exists i :: 0 <= i < |items| && start <= items[i].votingRoundId <= clock(i).currentRound)
    && (!ok ==> s' == s)
    && (ok ==> Ordered(list) && s'.ops == s.ops + Additions(start, list, items, 0, clock))
  }

  lemma {:induction false} WholeSubmission(
    start: Uint32, list: seq<SigningPolicy>, s: Pipe, items: seq<SubmitterPayloadItem>, clock: nat -> Clock)
    requires GoodPolicies(list) && AllShaped(s.storage)
    ensures var (s', ok) := Processed(start, list, s, items, 0, clock);
            Accounted(start, list, s, items, clock, s', ok)
  {
    hide Processed, Additions, AllShaped, GoodPolicy;
    RetryExactlyWhenNeeded(start, list, s, items, 0, clock);
    if Processed(start, list, s, items, 0, clock).1 {
      ProcessedAddsExactly(start, list, s, items, 0, clock);
    }
  }

  /** Each item in time and under a policy is among the additions. */
  lemma {:induction false} AdditionIsMade(
    start: Uint32, list: seq<SigningPolicy>, items: seq<SubmitterPayloadItem>, i: nat, clock: nat -> Clock, k: nat)
    requires Ordered(list) && i <= k < |items|
    requires start <= items[k].votingRoundId <= clock(k).currentRound
    requires list != [] && list[0].startVotingRoundId <= items[k].votingRoundId
    ensures exists op :: op in Additions(start, list, items, i, clock) && op.Add? && op.p == items[k].payload
    decreases |items| - i
  {
    hide Lookup, ThresholdFor;
    if i < k {
      AdditionIsMade(start, list, items, i + 1, clock, k);
      var op :| op in Additions(start, list, items, i + 1, clock) && op.Add? && op.p == items[k].payload;
      assert op in Additions(start, list, items, i, clock);
    } else {
      var op := AdditionOf(list, start, items[i], clock(i))[0];
      assert op in Additions(start, list, items, i, clock);
    }
  }

  /** The rounds a cleanup removes from storage: the removed policies' reward epochs. */
  function RemovedIds(list: seq<SigningPolicy>, round: Uint32): seq<Uint32> {
    seq(Expired(list, round), i requires 0 <= i < Expired(list, round) => list[i].rewardEpochId as Uint32)
  }

  // ---------- The mutable client ----------

  class FinalizerClient {
    const startingVotingRound: Uint32
    const signingPolicyStorage: SigningPolicyStorage
    const submissionStorage: SubmissionStorage
    const queue: Queue
    ghost var ops: seq<Op>
    ghost var enqueued: seq<QueueItem>
    ghost var reporters: seq<SubmitterPayloadItem>

    ghost predicate Valid()
      reads this, signingPolicyStorage, submissionStorage, submissionStorage.objects.Values
    {
      submissionStorage.Valid() && GoodPolicies(signingPolicyStorage.spList)
    }

    ghost function Value(): Pipe
      reads this, submissionStorage, queue
    {
      Pipe(submissionStorage.contents, queue.queue, ops, enqueued, reporters)
    }

    constructor (start: Uint32)
      ensures Valid() && startingVotingRound == start
      ensures signingPolicyStorage.spList == [] && Value() == EMPTY_PIPE
    {
      startingVotingRound := start;
      signingPolicyStorage := new SigningPolicyStorage();
      submissionStorage := new SubmissionStorage();
      queue := new Queue();
      ops, enqueued, reporters := [], [], [];
    }

    method SigningPolicyData(votingRoundId: Uint32, late: bool) returns (r: Option<(SigningPolicy, Uint16)>)
      requires Valid()
      ensures r == match Lookup(signingPolicyStorage.spList, votingRoundId)
                   case None => None
                   case Some(sp) => Some((sp, ThresholdFor(signingPolicyStorage.spList, sp, late)))
      ensures r.Some? ==> InForce(signingPolicyStorage.spList, r.value.0, late, r.value.1)
    {
      var sp, last := signingPolicyStorage.GetForVotingRound(votingRoundId);
      if sp.None? {
        return None;
      }
      LookupIsGreatestStart(signingPolicyStorage.spList, votingRoundId);
      SameEpoch(signingPolicyStorage.spList, sp.value);
      if !last || !late {
        return Some((sp.value, sp.value.threshold));
      }
      return Some((sp.value, SixtyPercent(sp.value)));
    }

    /** Stores one item under its policy and queues it if it reaches the threshold. */
    method StorePayload(item: SubmitterPayloadItem, sp: SigningPolicy, threshold: Uint16)
      requires Valid() && GoodPolicy(sp)
      modifies this, submissionStorage, submissionStorage.objects.Values, queue
      ensures Valid() && fresh(submissionStorage.objects.Values - old(submissionStorage.objects.Values))
      ensures Value() == StoreItem(old(Value()), item, sp, threshold)
      ensures queue.queue == old(queue.queue) +
                if old(Reports(submissionStorage.contents, item.payload, sp, threshold))
                then [QueueItem(sp.seed, item.votingRoundId, item.protocolId, item.payload.messageHash)]
                else []
    {
      hide Stored, GoodPolicy, GoodPolicies, AllShaped, Linked, Separate, Values;
      ghost var reports := Reports(submissionStorage.contents, item.payload, sp, threshold);
      StrangersReportNothing(submissionStorage.contents, item.payload, sp, threshold);
      ops := ops + [Add(item.payload, sp, threshold)];
      enqueued := enqueued + if reports then [QueueItemFor(item, sp)] else [];
      reporters := reporters + if reports then [item] else [];
      var addResult := submissionStorage.Add(item.payload, sp, threshold);
      if addResult.Ok? && addResult.value {
        queue.Add(QueueItemFor(item, sp));
      }
    }

    /** Drops expired policies, and the rounds numbered like their reward epochs. */
    method RewardEpochCleanup(cleanupVotingRoundId: int)
      requires Valid()
      modifies this, signingPolicyStorage, submissionStorage
      ensures Valid()
      ensures cleanupVotingRoundId < 0 ==>
                signingPolicyStorage.spList == old(signingPolicyStorage.spList) && Value() == old(Value())
      ensures cleanupVotingRoundId >= 0 ==>
                var list := old(signingPolicyStorage.spList);
                var round := cleanupVotingRoundId % 0x1_0000_0000;
                var ids := RemovedIds(list, round);
                && signingPolicyStorage.spList == list[Expired(list, round)..]
                && Value() == old(Value()).(storage := Without(old(Value()).storage, ids),
                                            ops := old(ops) + [Remove(ids)])
    {
      hide GoodPolicies, Linked, Separate, Values, AllShaped, Without;
      if cleanupVotingRoundId < 0 {
        return;
      }
      ghost var list := signingPolicyStorage.spList;
      var round: Uint32 := cleanupVotingRoundId % 0x1_0000_0000;
      PoliciesOrdered(list);
      OrderedAfterRemoval(list, round);
      var removedEpochIds := signingPolicyStorage.RemoveByVotingRound(round);
      submissionStorage.RemoveVotingRoundIds(removedEpochIds);
      assert removedEpochIds == RemovedIds(list, round);
      ops := ops + [Remove(removedEpochIds)];
    }

    /** One item of a submission. */
    method ProcessItem(item: SubmitterPayloadItem, clock: Clock) returns (ok: bool)
      requires Valid()
      modifies this, submissionStorage, submissionStorage.objects.Values, queue
      ensures Valid() && fresh(submissionStorage.objects.Values - old(submissionStorage.objects.Values))
      ensures match Classify(startingVotingRound, signingPolicyStorage.spList, item.votingRoundId, clock)
              case Skip => ok && Value() == old(Value())
              case Reject => !ok && Value() == old(Value())
              case Store(sp, threshold) => ok && GoodPolicy(sp) && Value() == StoreItem(old(Value()), item, sp, threshold)
    {
      hide GoodPolicies, GoodPolicy, StoreItem, InForce, Reports, ThresholdFor, AllShaped;
      var round := item.votingRoundId;
      ClassifiedPolicyIsGood(startingVotingRound, signingPolicyStorage.spList, round, clock);
      if !InTime(startingVotingRound, round, clock) {
        return true;
      }
      var data := SigningPolicyData(round, clock.late);
      if data.None? {
        var first := signingPolicyStorage.First();
        return first.Some? && round < first.value.startVotingRoundId;
      }
      StorePayload(item, data.value.0, data.value.1);
      ok := true;
    }

    method ProcessSubmissionData(items: seq<SubmitterPayloadItem>, clock: nat -> Clock) returns (ok: bool)
      requires Valid()
      modifies this, submissionStorage, submissionStorage.objects.Values, queue
      ensures Valid() && fresh(submissionStorage.objects.Values - old(submissionStorage.objects.Values))
      ensures (Value(), ok) == Processed(startingVotingRound, signingPolicyStorage.spList, old(Value()), items, 0, clock)
      ensures Accounted(startingVotingRound, signingPolicyStorage.spList, old(Value()), items, clock, Value(), ok)
    {
      hide GoodPolicies, GoodPolicy, StoreItem, Accounted, Processed, Classify, AllShaped, Linked, Separate, Values;
      ghost var list := signingPolicyStorage.spList;
      WholeSubmission(startingVotingRound, list, Value(), items, clock);
      for i := 0 to |items|
        invariant Valid() && signingPolicyStorage.spList == list
        invariant fresh(submissionStorage.objects.Values - old(submissionStorage.objects.Values))
        invariant Processed(startingVotingRound, list, old(Value()), items, 0, clock)
                  == Processed(startingVotingRound, list, Value(), items, i, clock)
      {
        ProcessedStep(startingVotingRound, list, Value(), items, i, clock);
        var accepted := ProcessItem(items[i], clock(i));
        if !accepted {
          return false;
        }
      }
      ProcessedStep(startingVotingRound, list, Value(), items, |items|, clock);
      return true;
    }
  }

  lemma PoliciesOrdered(list: seq<SigningPolicy>)
    requires GoodPolicies(list)
    ensures Ordered(list)
  {
  }

  lemma OrderedAfterRemoval(list: seq<SigningPolicy>, round: Uint32)
    requires GoodPolicies(list)
    ensures GoodPolicies(list[Expired(list, round)..])
  {
  }

  lemma SameEpoch(list: seq<SigningPolicy>, sp: SigningPolicy)
    requires Ordered(list) && sp in list
    ensures sp == list[|list| - 1] <==> sp.rewardEpochId == list[|list| - 1].rewardEpochId
  {
    var k :| 0 <= k < |list| && list[k] == sp;
  }

  /** A signer outside the policy changes no message, so reports nothing. */
  lemma StrangersReportNothing(s: Storage, p: SignedPayload, sp: SigningPolicy, threshold: Uint16)
    requires AllShaped(s) && GoodPolicy(sp)
    ensures p.signer !in MessageFor(s, KeyOf(p), sp).policy.voters.voters ==> !Reports(s, p, sp, threshold)
    ensures Stored(s, p, sp, threshold)[KeyOf(p)].policy == MessageFor(s, KeyOf(p), sp).policy
  {
  }
}
