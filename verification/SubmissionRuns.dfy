/** What every run of the submission storage keeps (client/finalizer/submission_storage.go). */
module SubmissionRuns {
  import opened Prelude
  import opened Weights
  import opened SigningPolicies
  import opened Payloads
  import opened Submissions

  function Filled(m: Message): set<nat> {
    set i | 0 <= i < |m.payload| && m.payload[i].Some?
  }

  /** Slot `i` holds a payload stored under the right key, signed by the voter with index `i`. */
  ghost predicate GoodSlot(k: Key, m: Message, i: nat)
    requires i < |m.payload| && m.payload[i].Some?
  {
    var p := m.payload[i].value;
    p.index == i && m.policy.voters.VoterIndex(p.signer) == i && KeyOf(p) == k
  }

  /** The weight is exactly that of the filled slots, each of them good. */
  ghost predicate GoodMessage(k: Key, m: Message) {
    && Shaped(m)
    && m.weight == WeightOf(m.policy.voters.weights, Filled(m))
    && forall i :: i in Filled(m) ==> GoodSlot(k, m, i)
  }

  ghost predicate GoodStorage(s: Storage) {
    forall k :: k in s ==> GoodMessage(k, s[k])
  }

  /** The slot a payload would fill, if any. */
  function SlotOf(sp: SigningPolicy, p: SignedPayload): set<nat> {
    var i := sp.voters.VoterIndex(p.signer);
    if i < 0 then {} else {i}
  }

  lemma FilledStep(m: Message, p: SignedPayload, threshold: Uint16)
    requires Shaped(m)
    ensures Filled(WithPayload(m, p, threshold)) == Filled(m) + SlotOf(m.policy, p)
  {
  }

  lemma NewMessageGood(k: Key, sp: SigningPolicy)
    requires GoodPolicy(sp)
    ensures GoodMessage(k, NewMessage(sp)) && Filled(NewMessage(sp)) == {} && NewMessage(sp).policy == sp
  {
    assert Filled(NewMessage(sp)) == {};
    EmptyWeight(sp.voters.weights, |sp.voters.weights|);
  }

  lemma WithPayloadGood(k: Key, m: Message, p: SignedPayload, threshold: Uint16)
    requires GoodMessage(k, m) && KeyOf(p) == k
    ensures GoodMessage(k, WithPayload(m, p, threshold))
  {
    hide GoodPolicy, WeightOf;
    FilledStep(m, p, threshold);
    WithPayloadShaped(m, p, threshold);
    var i := m.policy.voters.VoterIndex(p.signer);
    if i >= 0 && m.payload[i].None? {
      SlotWeight(m, i);
      var m' := WithPayload(m, p, threshold);
      forall j | j in Filled(m')
        ensures GoodSlot(k, m', j)
      {
        assert j == i || (j in Filled(m) && GoodSlot(k, m, j));
      }
    }
  }

  /** Filling one more slot adds its weight, within 16 bits. */
  lemma SlotWeight(m: Message, i: nat)
    requires Shaped(m) && i < |m.payload| && m.payload[i].None?
    ensures WeightOf(m.policy.voters.weights, Filled(m) + {i}) ==
              WeightOf(m.policy.voters.weights, Filled(m)) + m.policy.voters.weights[i] <= 65535
  {
    InsertWeight(m.policy.voters.weights, Filled(m), i);
  }

  // ---------- Runs ----------

  datatype Op =
    | Add(p: SignedPayload, sp: SigningPolicy, threshold: Uint16)
    | Remove(rounds: seq<Uint32>)

  ghost predicate GoodOps(ops: seq<Op>) {
    forall i :: 0 <= i < |ops| && ops[i].Add? ==> GoodPolicy(ops[i].sp)
  }

  function Apply(s: Storage, op: Op): (s': Storage)
    requires AllShaped(s) && (op.Add? ==> GoodPolicy(op.sp))
    ensures AllShaped(s')
  {
    match op
    case Add(p, sp, threshold) => Stored(s, p, sp, threshold)
    case Remove(rounds) => Without(s, rounds)
  }

  /** The storage after a sequence of additions and removals, from empty. */
  ghost function Run(ops: seq<Op>): (s: Storage)
    requires GoodOps(ops)
    ensures AllShaped(s)
  {
    if ops == [] then map[] else Apply(Run(ops[..|ops| - 1]), ops[|ops| - 1])
  }

  /** In every reachable state weights are exact and every filled slot is its voter's. */
  lemma {:induction false} ReachableIsGood(ops: seq<Op>)
    requires GoodOps(ops)
    ensures GoodStorage(Run(ops))
  {
    if ops != [] {
      hide GoodMessage, WithPayload, NewMessage, GoodPolicy;
      ReachableIsGood(ops[..|ops| - 1]);
      var s, op := Run(ops[..|ops| - 1]), ops[|ops| - 1];
      if op.Add? {
        NewMessageGood(KeyOf(op.p), op.sp);
        WithPayloadGood(KeyOf(op.p), MessageFor(s, KeyOf(op.p), op.sp), op.p, op.threshold);
      }
    }
  }

  /** No removal in the run concerns the key's round. */
  ghost predicate Kept(ops: seq<Op>, k: Key) {
    forall i :: 0 <= i < |ops| && ops[i].Remove? ==> k.votingRoundId !in ops[i].rounds
  }

  ghost predicate Concerns(op: Op, k: Key) {
    op.Add? && KeyOf(op.p) == k
  }

  /** A step changes the message at `k` only by an addition for `k`. */
  lemma StepAt(s: Storage, op: Op, k: Key)
    requires AllShaped(s) && (op.Add? ==> GoodPolicy(op.sp))
    requires op.Remove? ==> k.votingRoundId !in op.rounds
    ensures Concerns(op, k) ==> k in Apply(s, op) && Apply(s, op)[k] == WithPayload(MessageFor(s, k, op.sp), op.p, op.threshold)
    ensures !Concerns(op, k) ==> (k in Apply(s, op) <==> k in s) && (k in s ==> Apply(s, op)[k] == s[k])
  {
  }

  // ---------- The threshold is reported at most once ----------

  ghost function ReportCount(ops: seq<Op>, k: Key): nat
    requires GoodOps(ops)
  {
    if ops == [] then 0
    else
      var front, op := ops[..|ops| - 1], ops[|ops| - 1];
      ReportCount(front, k) +
      if Concerns(op, k) && Reports(Run(front), op.p, op.sp, op.threshold) then 1 else 0
  }

  ghost predicate Latched(s: Storage, k: Key) {
    k in s && s[k].reached
  }

  /** Over any additions with any thresholds, reports for a kept key are its latch: none or one. */
  lemma {:induction false} ReportedAtMostOnce(ops: seq<Op>, k: Key)
    requires GoodOps(ops) && Kept(ops, k)
    ensures ReportCount(ops, k) == if Latched(Run(ops), k) then 1 else 0
  {
    if ops != [] {
      hide GoodPolicy, NewMessage;
      var front, op := ops[..|ops| - 1], ops[|ops| - 1];
      ReportedAtMostOnce(front, k);
      StepAt(Run(front), op, k);
      if op.Add? {
        FreshIsUnlatched(op.sp);
      }
    }
  }

  lemma FreshIsUnlatched(sp: SigningPolicy)
    ensures !NewMessage(sp).reached
  {
  }

  /**
   * The addition that reports is exactly the one that fills a new slot of an unlatched message
   * and brings the weight of its filled slots above the threshold.
   */
  lemma ReportsExactlyAtThreshold(s: Storage, p: SignedPayload, sp: SigningPolicy, threshold: Uint16)
    requires AllShaped(s) && GoodStorage(s) && GoodPolicy(sp)
    ensures var m := MessageFor(s, KeyOf(p), sp);
            var slot := SlotOf(m.policy, p);
            Reports(s, p, sp, threshold) <==>
              && !m.reached
              && slot != {} && slot !! Filled(m)
              && WeightOf(m.policy.voters.weights, Filled(m) + slot) > threshold
  {
    hide GoodPolicy, WeightOf;
    NewMessageGood(KeyOf(p), sp);
    var m := MessageFor(s, KeyOf(p), sp);
    WithPayloadGood(KeyOf(p), m, p, threshold);
    FilledStep(m, p, threshold);
  }

  ghost predicate ThresholdsAtLeast(ops: seq<Op>, k: Key, t: nat) {
    forall i :: 0 <= i < |ops| && Concerns(ops[i], k) ==> ops[i].threshold >= t
  }

  lemma LatchStep(k: Key, m: Message, p: SignedPayload, threshold: Uint16, t: nat)
    requires GoodMessage(k, m) && KeyOf(p) == k && threshold >= t && (m.reached ==> m.weight > t)
    ensures WithPayload(m, p, threshold).reached ==> WithPayload(m, p, threshold).weight > t
  {
    hide WeightOf;
    var i := m.policy.voters.VoterIndex(p.signer);
    if i >= 0 && m.payload[i].None? {
      SlotWeight(m, i);
    }
  }

  /** A latched message weighs more than the least threshold it was ever judged by. */
  lemma {:induction false} LatchedIsAbove(ops: seq<Op>, k: Key, t: nat)
    requires GoodOps(ops) && Kept(ops, k) && ThresholdsAtLeast(ops, k, t)
    ensures Latched(Run(ops), k) ==> Run(ops)[k].weight > t
  {
    hide GoodPolicy, NewMessage, WithPayload, GoodMessage, Apply;
    if ops != [] {
      var front, op := ops[..|ops| - 1], ops[|ops| - 1];
      LatchedIsAbove(front, k, t);
      StepAt(Run(front), op, k);
      if Concerns(op, k) {
        ReachableIsGood(front);
        NewMessageGood(k, op.sp);
        FreshIsUnlatched(op.sp);
        LatchStep(k, MessageFor(Run(front), k, op.sp), op.p, op.threshold, t);
      }
    }
  }

  /** A kept message only grows: same policy, filled slots keep their payloads, the latch stays set. */
  ghost predicate Extends(s: Storage, s': Storage, k: Key) {
    k in s ==>
      && k in s'
      && s'[k].policy == s[k].policy
      && |s'[k].payload| == |s[k].payload|
      && (forall i :: i in Filled(s[k]) ==> s'[k].payload[i] == s[k].payload[i])
      && (s[k].reached ==> s'[k].reached)
  }

  lemma StepExtends(s: Storage, op: Op, k: Key)
    requires AllShaped(s) && (op.Add? ==> GoodPolicy(op.sp))
    requires op.Remove? ==> k.votingRoundId !in op.rounds
    ensures Extends(s, Apply(s, op), k)
  {
    StepAt(s, op, k);
  }

  lemma ExtendsTransitive(s: Storage, s': Storage, s'': Storage, k: Key)
    requires Extends(s, s', k) && Extends(s', s'', k)
    ensures Extends(s, s'', k)
  {
    if k in s {
      assert forall i :: i in Filled(s[k]) ==> i in Filled(s'[k]);
    }
  }

  /** From any point of a run on, a message whose round is not removed only grows. */
  lemma {:induction false} OnlyGrows(ops: seq<Op>, n: nat, k: Key)
    requires GoodOps(ops) && n <= |ops|
    requires forall i :: n <= i < |ops| && ops[i].Remove? ==> k.votingRoundId !in ops[i].rounds
    ensures Extends(Run(ops[..n]), Run(ops), k)
    decreases |ops|
  {
    hide GoodPolicy, Extends, Apply;
    if n == |ops| {
      assert ops[..n] == ops;
      ExtendsReflexive(Run(ops), k);
    } else {
      var front := ops[..|ops| - 1];
      assert front[..n] == ops[..n];
      OnlyGrows(front, n, k);
      StepExtends(Run(front), ops[|ops| - 1], k);
      ExtendsTransitive(Run(front[..n]), Run(front), Run(ops), k);
    }
  }

  lemma ExtendsReflexive(s: Storage, k: Key)
    ensures Extends(s, s, k)
  {
  }

  /** From an addition on, as long as its round is not removed, its signer's slot is filled. */
  lemma {:induction false} AddedStaysStored(ops: seq<Op>, n: nat, k: Key)
    requires GoodOps(ops) && n < |ops| && Concerns(ops[n], k)
    requires forall i :: n < i < |ops| && ops[i].Remove? ==> k.votingRoundId !in ops[i].rounds
    ensures k in Run(ops)
    ensures SlotOf(Run(ops)[k].policy, ops[n].p) <= Filled(Run(ops)[k])
  {
    hide GoodPolicy, WithPayload, NewMessage, Apply, Filled, SlotOf;
    assert ops[..n + 1][..n] == ops[..n];
    var s, op := Run(ops[..n]), ops[n];
    assert Run(ops[..n + 1]) == Apply(s, op);
    StepAt(s, op, k);
    ShapedMessageFor(s, k, op.sp);
    FilledStep(MessageFor(s, k, op.sp), op.p, op.threshold);
    KeepsPolicy(MessageFor(s, k, op.sp), op.p, op.threshold);
    OnlyGrows(ops, n + 1, k);
    FilledGrows(Run(ops[..n + 1]), Run(ops), k);
  }

  lemma ShapedMessageFor(s: Storage, k: Key, sp: SigningPolicy)
    requires AllShaped(s) && GoodPolicy(sp)
    ensures Shaped(MessageFor(s, k, sp))
  {
  }

  lemma FilledGrows(s: Storage, s': Storage, k: Key)
    requires Extends(s, s', k) && k in s
    ensures k in s' && s'[k].policy == s[k].policy && Filled(s[k]) <= Filled(s'[k])
  {
    forall i | i in Filled(s[k])
      ensures i in Filled(s'[k])
    {
      assert s'[k].payload[i] == s[k].payload[i];
    }
  }

  // ---------- The stored view depends only on what was added ----------

  /** What a sequence of additions brings to one key: the policy of the first, and all payloads. */
  datatype Contribution = Contribution(first: Option<SigningPolicy>, payloads: set<SignedPayload>) {
    /** This contribution followed by another. */
    ghost function Then(next: Contribution): Contribution {
      Contribution(if first.Some? then first else next.first, payloads + next.payloads)
    }

    ghost predicate Proper() {
      first.Some? <==> payloads != {}
    }
  }

  const NOTHING := Contribution(None, {})

  lemma ThenAssociative(a: Contribution, b: Contribution, c: Contribution)
    ensures a.Then(b).Then(c) == a.Then(b.Then(c))
  {
    assert a.payloads + b.payloads + c.payloads == a.payloads + (b.payloads + c.payloads);
  }

  lemma ThenNothing(a: Contribution)
    ensures a.Then(NOTHING) == a && NOTHING.Then(a) == a
  {
    assert a.payloads + {} == a.payloads && {} + a.payloads == a.payloads;
  }

  ghost function OfOp(op: Op, k: Key): Contribution {
    if Concerns(op, k) then Contribution(Some(op.sp), {op.p}) else NOTHING
  }

  ghost function OfOps(ops: seq<Op>, k: Key): (c: Contribution)
    ensures c.Proper()
  {
    if ops == [] then NOTHING else OfOps(ops[..|ops| - 1], k).Then(OfOp(ops[|ops| - 1], k))
  }

  lemma {:induction false} OfConcat(a: seq<Op>, b: seq<Op>, k: Key)
    ensures OfOps(a + b, k) == OfOps(a, k).Then(OfOps(b, k))
  {
    if b == [] {
      assert a + b == a;
      ThenNothing(OfOps(a, k));
    } else {
      var front, op := b[..|b| - 1], b[|b| - 1];
      assert (a + b)[..|a + b| - 1] == a + front;
      OfConcat(a, front, k);
      ThenAssociative(OfOps(a, k), OfOps(front, k), OfOp(op, k));
    }
  }

  lemma OfAppend(ops: seq<Op>, op: Op, k: Key)
    ensures OfOps(ops + [op], k) == OfOps(ops, k).Then(OfOp(op, k))
  {
    assert (ops + [op])[..|ops|] == ops;
  }

  /** The slots these payloads are due under `sp`. */
  ghost function Due(ps: set<SignedPayload>, sp: SigningPolicy): set<nat> {
    set p | p in ps && sp.voters.VoterIndex(p.signer) >= 0 :: sp.voters.VoterIndex(p.signer)
  }

  lemma DueStep(ps: set<SignedPayload>, p: SignedPayload, sp: SigningPolicy)
    ensures Due(ps + {p}, sp) == Due(ps, sp) + SlotOf(sp, p)
  {
  }

  /** The message stored for `k` as a function of a contribution alone. */
  ghost predicate ViewIs(s: Storage, k: Key, c: Contribution) {
    && (k in s <==> c.first.Some?)
    && (k in s ==>
          && s[k].policy == c.first.value
          && Filled(s[k]) == Due(c.payloads, c.first.value)
          && s[k].weight == WeightOf(c.first.value.voters.weights, Due(c.payloads, c.first.value)))
  }

  /** The slots filled for a kept key, ignoring weight. */
  ghost predicate SlotsAre(s: Storage, k: Key, c: Contribution) {
    && (k in s <==> c.first.Some?)
    && (k in s ==> s[k].policy == c.first.value && Filled(s[k]) == Due(c.payloads, c.first.value))
  }

  lemma SlotsStep(s: Storage, op: Op, k: Key, c: Contribution)
    requires AllShaped(s) && (op.Add? ==> GoodPolicy(op.sp))
    requires op.Remove? ==> k.votingRoundId !in op.rounds
    requires c.Proper() && SlotsAre(s, k, c)
    ensures SlotsAre(Apply(s, op), k, c.Then(OfOp(op, k)))
  {
    hide WithPayload, NewMessage, GoodPolicy, Filled, Due, SlotOf, Apply;
    StepAt(s, op, k);
    if Concerns(op, k) {
      NewMessageGood(k, op.sp);
      NothingDue(op.sp);
      var m := MessageFor(s, k, op.sp);
      FilledStep(m, op.p, op.threshold);
      KeepsPolicy(m, op.p, op.threshold);
      DueStep(c.payloads, op.p, m.policy);
    } else {
      ThenNothing(c);
    }
  }

  lemma NothingDue(sp: SigningPolicy)
    ensures Due({}, sp) == {}
  {
  }

  lemma KeepsPolicy(m: Message, p: SignedPayload, threshold: Uint16)
    requires Shaped(m)
    ensures WithPayload(m, p, threshold).policy == m.policy
  {
  }

  lemma {:induction false} SlotsDependOnContribution(ops: seq<Op>, k: Key)
    requires GoodOps(ops) && Kept(ops, k)
    ensures SlotsAre(Run(ops), k, OfOps(ops, k))
  {
    if ops != [] {
      hide SlotsAre, Apply, OfOp;
      SlotsDependOnContribution(ops[..|ops| - 1], k);
      SlotsStep(Run(ops[..|ops| - 1]), ops[|ops| - 1], k, OfOps(ops[..|ops| - 1], k));
    }
  }

  /**
   * Order, repetition and thresholds do not matter: slots and weight follow from the set of
   * payloads added for the key and from the policy of the first.
   */
  lemma {:induction false} ViewDependsOnSet(ops: seq<Op>, k: Key)
    requires GoodOps(ops) && Kept(ops, k)
    ensures ViewIs(Run(ops), k, OfOps(ops, k))
  {
    SlotsDependOnContribution(ops, k);
    ReachableIsGood(ops);
  }

  /** Whatever is stored was added. */
  lemma {:induction false} StoredWasAdded(ops: seq<Op>, k: Key)
    requires GoodOps(ops) && k in Run(ops)
    ensures exists i :: 0 <= i < |ops| && Concerns(ops[i], k)
  {
    hide GoodPolicy, WithPayload, NewMessage;
    var front, op := ops[..|ops| - 1], ops[|ops| - 1];
    if Concerns(op, k) {
      assert Concerns(ops[|ops| - 1], k);
    } else {
      StoredWasAdded(front, k);
      var i :| 0 <= i < |front| && Concerns(front[i], k);
      assert ops[i] == front[i];
    }
  }

  // ---------- Authenticity ----------

  ghost predicate AuthenticMessage(c: Crypto, m: Message) {
    forall i :: 0 <= i < |m.payload| && m.payload[i].Some? ==> Authentic(c, m.payload[i].value)
  }

  ghost predicate AuthenticStorage(c: Crypto, s: Storage) {
    forall k :: k in s ==> AuthenticMessage(c, s[k])
  }

  lemma AuthenticStep(c: Crypto, m: Message, p: SignedPayload, threshold: Uint16)
    requires Shaped(m) && AuthenticMessage(c, m) && Authentic(c, p)
    ensures AuthenticMessage(c, WithPayload(m, p, threshold))
  {
  }

  /** Authentic payloads stay authentic in storage. */
  lemma {:induction false} StoredIsAuthentic(c: Crypto, ops: seq<Op>)
    requires GoodOps(ops)
    requires forall i :: 0 <= i < |ops| && ops[i].Add? ==> Authentic(c, ops[i].p)
    ensures AuthenticStorage(c, Run(ops))
  {
    if ops != [] {
      StoredIsAuthentic(c, ops[..|ops| - 1]);
      var s, op := Run(ops[..|ops| - 1]), ops[|ops| - 1];
      hide Authentic, GoodPolicy, WithPayload, AuthenticMessage;
      if op.Add? {
        NewIsAuthentic(c, op.sp);
        AuthenticStep(c, MessageFor(s, KeyOf(op.p), op.sp), op.p, op.threshold);
      }
    }
  }

  lemma NewIsAuthentic(c: Crypto, sp: SigningPolicy)
    ensures AuthenticMessage(c, NewMessage(sp))
  {
  }
}
