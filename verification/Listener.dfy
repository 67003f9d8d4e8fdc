/** The transaction listener and all its runs (client/finalizer/submission_utils.go). */
module Listener {
  import opened Prelude
  import opened SigningPolicies
  import opened Payloads
  import opened Submissions
  import opened SubmissionRuns
  import opened FinalizerQueue
  import opened Finalizer

  /** A `submitSignatures` transaction in the indexer database. */
  datatype Tx = Tx(id: nat, timestamp: int, input: Bytes)

  /** The items of a transaction; an undecodable one has none. */
  function ItemsOf(c: Crypto, tx: Tx): seq<SubmitterPayloadItem> {
    var r := Decoded(c, tx.input);
    if r.Ok? then r.value else []
  }

  /**
   * The items handed over are the whole list whose encoding follows the selector, if there is one,
   * and none otherwise.
   */
  lemma ItemsExactly(c: Crypto, tx: Tx)
    ensures forall items :: |tx.input| >= 4 && tx.input[4..] == ItemsBytes(items) && AllWellFormed(c, items) ==>
              ItemsOf(c, tx) == items
    ensures (forall items :: !(|tx.input| >= 4 && tx.input[4..] == ItemsBytes(items) && AllWellFormed(c, items))) ==>
              ItemsOf(c, tx) == []
  {
    hide ItemsBytes, AllWellFormed;
    if |tx.input| < 4 {
      ShortInputsAreEmpty(c, tx.input);
    } else {
      assert tx.input == tx.input[..4] + tx.input[4..];
      forall items | tx.input[4..] == ItemsBytes(items) && AllWellFormed(c, items)
        ensures ItemsOf(c, tx) == items
      {
        DecodesExactly(c, tx.input, items);
      }
      if Decoded(c, tx.input).Ok? {
        DecodesExactly(c, tx.input, ItemsOf(c, tx));
        assert tx.input[4..] == ItemsBytes(ItemsOf(c, tx));
      }
    }
  }

  /** The range cursor, the pipeline it feeds, and the transactions passed without rejection. */
  datatype Front = Front(cursor: int, pipe: Pipe, handled: seq<Tx>)

  /** Transactions `j..` of a batch: stop at the first rejection, and move the cursor to one second before each one passed. */
  function Delivered(
    start: Uint32, c: Crypto, list: seq<SigningPolicy>, f: Front, batch: seq<Tx>, j: nat, clock: nat -> (nat -> Clock))
    : (r: Front)
    requires GoodPolicies(list) && AllShaped(f.pipe.storage) && j <= |batch|
    ensures AllShaped(r.pipe.storage)
    decreases |batch| - j
  {
    if j == |batch| then f
    else
      var (pipe, ok) := Processed(start, list, f.pipe, ItemsOf(c, batch[j]), 0, clock(j));
      if !ok then f.(pipe := pipe)
      else
        Delivered(start, c, list, Front(batch[j].timestamp - 1, pipe, f.handled + [batch[j]]), batch, j + 1, clock)
  }

  /** A transaction is rejected exactly when no policy is known and one of its items is in time. */
  ghost predicate Rejected(start: Uint32, c: Crypto, list: seq<SigningPolicy>, tx: Tx, clock: nat -> Clock) {
    list == [] && exists i ::
      0 <= i < |ItemsOf(c, tx)| && start <= ItemsOf(c, tx)[i].votingRoundId <= clock(i).currentRound
  }

  class SubmissionListener {
    const crypto: Crypto
    const client: FinalizerClient
    var eventRangeStart: int
    ghost var handled: seq<Tx>

    ghost predicate Valid()
      reads this, client, client.signingPolicyStorage, client.submissionStorage,
            client.submissionStorage.objects.Values
    {
      client.Valid()
    }

    ghost function Value(): Front
      reads this, client, client.submissionStorage, client.queue
    {
      Front(eventRangeStart, client.Value(), handled)
    }

    constructor (c: Crypto, processor: FinalizerClient, startTime: int)
      requires processor.Valid()
      ensures Valid() && Value() == Front(startTime, processor.Value(), [])
      ensures client == processor && crypto == c
    {
      crypto, client, eventRangeStart, handled := c, processor, startTime, [];
    }

    /** One transaction of a batch. */
    method Handle(tx: Tx, clock: nat -> Clock) returns (ok: bool)
      requires Valid()
      modifies this, client, client.submissionStorage, client.submissionStorage.objects.Values, client.queue
      ensures Valid()
      ensures fresh(client.submissionStorage.objects.Values - old(client.submissionStorage.objects.Values))
      ensures var (pipe, accepted) := Processed(client.startingVotingRound, client.signingPolicyStorage.spList,
                                                old(client.Value()), ItemsOf(crypto, tx), 0, clock);
              && ok == accepted
              && Value() == if ok then Front(tx.timestamp - 1, pipe, old(handled) + [tx])
                            else old(Value()).(pipe := pipe)
    {
      hide Processed, GoodPolicies, AllShaped, Decoded, Linked, Separate, Values;
      NothingToProcess(client.startingVotingRound, client.signingPolicyStorage.spList, client.Value(), clock);
      var payload := DecodeSubmitterPayload(crypto, tx.input);
      var items := if payload.Ok? then payload.value else [];
      if |items| > 0 {
        ok := client.ProcessSubmissionData(items, clock);
        if !ok {
          return;
        }
      }
      eventRangeStart := tx.timestamp - 1;
      handled := handled + [tx];
      ok := true;
    }

    /** One tick over the fetched batch. */
    method Tick(batch: seq<Tx>, clock: nat -> (nat -> Clock))
      requires Valid()
      modifies this, client, client.submissionStorage, client.submissionStorage.objects.Values, client.queue
      ensures Valid()
      ensures Value() == Delivered(client.startingVotingRound, crypto, client.signingPolicyStorage.spList,
                                   old(Value()), batch, 0, clock)
    {
      hide Processed, GoodPolicies, AllShaped, ItemsOf, Delivered, Linked, Separate, Values;
      ghost var start, list := client.startingVotingRound, client.signingPolicyStorage.spList;
      for j := 0 to |batch|
        invariant Valid() && client.signingPolicyStorage.spList == list
        invariant fresh(client.submissionStorage.objects.Values - old(client.submissionStorage.objects.Values))
        invariant Delivered(start, crypto, list, old(Value()), batch, 0, clock)
                  == Delivered(start, crypto, list, Value(), batch, j, clock)
      {
        DeliveredStep(start, crypto, list, Value(), batch, j, clock);
        var ok := Handle(batch[j], clock(j));
        if !ok {
          return;
        }
      }
      DeliveredStep(start, crypto, list, Value(), batch, |batch|, clock);
    }
  }

  lemma DeliveredStep(
    start: Uint32, c: Crypto, list: seq<SigningPolicy>, f: Front, batch: seq<Tx>, j: nat, clock: nat -> (nat -> Clock))
    requires GoodPolicies(list) && AllShaped(f.pipe.storage) && j <= |batch|
    ensures j == |batch| ==> Delivered(start, c, list, f, batch, j, clock) == f
    ensures j < |batch| ==>
              var (pipe, ok) := Processed(start, list, f.pipe, ItemsOf(c, batch[j]), 0, clock(j));
              Delivered(start, c, list, f, batch, j, clock) ==
                if !ok then f.(pipe := pipe)
                else Delivered(start, c, list, Front(batch[j].timestamp - 1, pipe, f.handled + [batch[j]]), batch, j + 1, clock)
  {
    hide Processed, GoodPolicies, AllShaped, ItemsOf;
  }

  lemma NothingToProcess(start: Uint32, list: seq<SigningPolicy>, pipe: Pipe, clock: nat -> Clock)
    requires GoodPolicies(list) && AllShaped(pipe.storage)
    ensures Processed(start, list, pipe, [], 0, clock) == (pipe, true)
  {
  }

  // ---------- What one tick does ----------

  /** The first transaction at or after `j` that is rejected. */
  ghost function FirstRejected(
    start: Uint32, c: Crypto, list: seq<SigningPolicy>, batch: seq<Tx>, j: nat, clock: nat -> (nat -> Clock)): (n: nat)
    requires j <= |batch|
    ensures j <= n <= |batch|
    ensures forall l :: j <= l < n ==> !Rejected(start, c, list, batch[l], clock(l))
    ensures n < |batch| ==> Rejected(start, c, list, batch[n], clock(n))
    decreases |batch| - j
  {
    if j == |batch| || Rejected(start, c, list, batch[j], clock(j)) then j
    else FirstRejected(start, c, list, batch, j + 1, clock)
  }

  lemma ProcessedRejects(
    start: Uint32, c: Crypto, list: seq<SigningPolicy>, pipe: Pipe, tx: Tx, clock: nat -> Clock)
    requires GoodPolicies(list) && AllShaped(pipe.storage)
    ensures var r := Processed(start, list, pipe, ItemsOf(c, tx), 0, clock);
            (!r.1 <==> Rejected(start, c, list, tx, clock)) && (!r.1 ==> r.0 == pipe)
  {
    RetryExactlyWhenNeeded(start, list, pipe, ItemsOf(c, tx), 0, clock);
  }

  /** A tick passes the transactions before the first rejected one and leaves the cursor just before the last of them. */
  lemma {:induction false} TickPasses(
    start: Uint32, c: Crypto, list: seq<SigningPolicy>, f: Front, batch: seq<Tx>, j: nat, clock: nat -> (nat -> Clock))
    requires GoodPolicies(list) && AllShaped(f.pipe.storage) && j <= |batch|
    ensures var n := FirstRejected(start, c, list, batch, j, clock);
            var r := Delivered(start, c, list, f, batch, j, clock);
            && r.handled == f.handled + batch[j..n]
            && r.cursor == if n == j then f.cursor else batch[n - 1].timestamp - 1
    decreases |batch| - j
  {
    hide Processed, Rejected, GoodPolicies, AllShaped, ItemsOf;
    if j < |batch| {
      ProcessedRejects(start, c, list, f.pipe, batch[j], clock(j));
      var (pipe, ok) := Processed(start, list, f.pipe, ItemsOf(c, batch[j]), 0, clock(j));
      if ok {
        var f' := Front(batch[j].timestamp - 1, pipe, f.handled + [batch[j]]);
        TickPasses(start, c, list, f', batch, j + 1, clock);
        var n := FirstRejected(start, c, list, batch, j, clock);
        assert [batch[j]] + batch[j + 1..n] == batch[j..n];
      }
    }
  }

  // ---------- Runs ----------

  /** The transactions with timestamp in (from, to], in timestamp order; ties come in any order. */
  ghost predicate IsFetch(db: seq<Tx>, from: int, to: int, batch: seq<Tx>) {
    && (forall tx :: tx in batch <==> tx in db && from < tx.timestamp <= to)
    && InOrder(batch)
  }

  ghost predicate InOrder(txs: seq<Tx>) {
    forall i, j :: 0 <= i < j < |txs| ==> txs[i].timestamp <= txs[j].timestamp
  }

  datatype Config = Config(start: Uint32, crypto: Crypto, startTime: int)

  datatype System = System(db: seq<Tx>, policies: seq<SigningPolicy>, front: Front)

  /** The indexer appends, a policy arrives, old policies are cleaned up, a tick fetches a batch, the queue is popped. */
  datatype Event =
    | Append(txs: seq<Tx>)
    | NewPolicy(sp: SigningPolicy)
    | Cleanup(round: Uint32)
    | Tick(now: int, batch: seq<Tx>, clock: nat -> (nat -> Clock))
    | Pop

  ghost predicate Enabled(s: System, e: Event) {
    match e
    case Append(txs) => InOrder(s.db + txs)
    case NewPolicy(sp) => GoodPolicy(sp)
    case Tick(now, batch, _) => IsFetch(s.db, s.front.cursor, now, batch)
    case Cleanup(_) => true
    case Pop => true
  }

  ghost predicate IsSuffix<T>(s: seq<T>, t: seq<T>) {
    |s| <= |t| && s == t[|t| - |s|..]
  }

  ghost predicate AuthenticOps(c: Crypto, ops: seq<Op>) {
    forall i :: 0 <= i < |ops| && ops[i].Add? ==> Authentic(c, ops[i].p)
  }

  /** The key a queued item names: the ids around the message. */
  function OuterKey(item: SubmitterPayloadItem): Key {
    Key(item.votingRoundId, item.protocolId, item.payload.messageHash)
  }

  /** Each queued item names the outer key of the item it was queued for. */
  ghost predicate Matched(enqueued: seq<QueueItem>, reporters: seq<SubmitterPayloadItem>) {
    |enqueued| == |reporters| && forall j :: 0 <= j < |enqueued| ==> ItemKey(enqueued[j]) == OuterKey(reporters[j])
  }

  /**
   * Storage is what its history of authentic additions makes of it; the queue is what is left of
   * all queued items, each queued for an authentic payload.
   */
  ghost predicate PipeSound(c: Crypto, p: Pipe) {
    && GoodOps(p.ops)
    && AuthenticOps(c, p.ops)
    && p.storage == Run(p.ops)
    && IsSuffix(p.queue, p.enqueued)
    && Matched(p.enqueued, p.reporters)
    && forall j :: 0 <= j < |p.reporters| ==> Authentic(c, p.reporters[j].payload)
  }

  ghost predicate Sound(g: Config, s: System) {
    GoodPolicies(s.policies) && PipeSound(g.crypto, s.front.pipe)
  }

  ghost function Next(g: Config, s: System, e: Event): System
    requires Sound(g, s)
  {
    var pipe := s.front.pipe;
    match e
    case Append(txs) => s.(db := s.db + txs)
    case NewPolicy(sp) => s.(policies := Added(s.policies, sp))
    case Cleanup(round) =>
      var ids := RemovedIds(s.policies, round);
      s.(policies := s.policies[Expired(s.policies, round)..],
         front := s.front.(pipe := pipe.(storage := Without(pipe.storage, ids), ops := pipe.ops + [Remove(ids)])))
    case Tick(_, batch, clock) =>
      s.(front := Delivered(g.start, g.crypto, s.policies, s.front, batch, 0, clock))
    case Pop => s.(front := s.front.(pipe := pipe.(queue := if pipe.queue == [] then [] else pipe.queue[1..])))
  }
}
