/**
 * The finalizer from indexed transaction to queued item, over all runs: ticks, rejections and
 * retries, overlapping ranges, policies arriving and expiring, and queue pops
 * (client/finalizer/submission_utils.go, finalizer_client.go, submission_storage.go).
 */
module Pipeline {
  import opened Prelude
  import opened Weights
  import opened SigningPolicies
  import opened Payloads
  import opened Submissions
  import opened SubmissionRuns
  import opened FinalizerQueue
  import opened Finalizer
  import opened Listener
  import Quorum
  import Relay

  // ---------- Every step keeps the pipeline sound ----------

  lemma RunAppend(ops: seq<Op>, op: Op)
    requires GoodOps(ops) && (op.Add? ==> GoodPolicy(op.sp))
    ensures GoodOps(ops + [op]) && Run(ops + [op]) == Apply(Run(ops), op)
  {
    hide GoodPolicy, Apply;
    assert (ops + [op])[..|ops|] == ops;
  }

  lemma StoreItemSound(c: Crypto, p: Pipe, item: SubmitterPayloadItem, sp: SigningPolicy, threshold: Uint16)
    requires PipeSound(c, p) && GoodPolicy(sp) && Authentic(c, item.payload)
    ensures PipeSound(c, StoreItem(p, item, sp, threshold))
  {
    hide GoodPolicy, Authentic, Stored, Reports, Run;
    RunAppend(p.ops, Add(item.payload, sp, threshold));
  }

  lemma {:induction false} ProcessedSound(
    c: Crypto, start: Uint32, list: seq<SigningPolicy>, p: Pipe, items: seq<SubmitterPayloadItem>, i: nat,
    clock: nat -> Clock)
    requires GoodPolicies(list) && PipeSound(c, p) && AllWellFormed(c, items) && i <= |items|
    ensures PipeSound(c, Processed(start, list, p, items, i, clock).0)
    decreases |items| - i
  {
    hide Classify, StoreItem, Authentic;
    if i < |items| {
      ClassifiedPolicyIsGood(start, list, items[i].votingRoundId, clock(i));
      match Classify(start, list, items[i].votingRoundId, clock(i))
      case Skip => ProcessedSound(c, start, list, p, items, i + 1, clock);
      case Reject =>
      case Store(sp, threshold) =>
        StoreItemSound(c, p, items[i], sp, threshold);
        ProcessedSound(c, start, list, StoreItem(p, items[i], sp, threshold), items, i + 1, clock);
    }
  }

  lemma ItemsAreWellFormed(c: Crypto, tx: Tx)
    ensures AllWellFormed(c, ItemsOf(c, tx))
  {
    if Decoded(c, tx.input).Ok? && |tx.input| >= 4 {
      DecodesExactly(c, tx.input, ItemsOf(c, tx));
    } else if |tx.input| < 4 {
      ShortInputsAreEmpty(c, tx.input);
    }
  }

  lemma {:induction false} DeliveredSound(
    c: Crypto, start: Uint32, list: seq<SigningPolicy>, f: Front, batch: seq<Tx>, j: nat, clock: nat -> (nat -> Clock))
    requires GoodPolicies(list) && PipeSound(c, f.pipe) && j <= |batch|
    ensures PipeSound(c, Delivered(start, c, list, f, batch, j, clock).pipe)
    decreases |batch| - j
  {
    hide Processed, ItemsOf, GoodPolicies, AllWellFormed;
    if j < |batch| {
      ItemsAreWellFormed(c, batch[j]);
      ProcessedSound(c, start, list, f.pipe, ItemsOf(c, batch[j]), 0, clock(j));
      var (pipe, ok) := Processed(start, list, f.pipe, ItemsOf(c, batch[j]), 0, clock(j));
      if ok {
        DeliveredSound(c, start, list, Front(batch[j].timestamp - 1, pipe, f.handled + [batch[j]]), batch, j + 1, clock);
      }
    }
  }

  lemma AddPolicySound(list: seq<SigningPolicy>, sp: SigningPolicy)
    requires GoodPolicies(list) && GoodPolicy(sp)
    ensures GoodPolicies(Added(list, sp))
  {
    hide GoodPolicy;
    AddOrdered(list, sp);
  }

  lemma NextSound(g: Config, s: System, e: Event)
    requires Sound(g, s) && Enabled(s, e)
    ensures Sound(g, Next(g, s, e))
  {
    hide GoodPolicies, GoodPolicy, Delivered, Run, Without, Authentic;
    match e
    case Append(_) =>
    case NewPolicy(sp) => AddPolicySound(s.policies, sp);
    case Cleanup(round) =>
      OrderedAfterRemoval(s.policies, round);
      RunAppend(s.front.pipe.ops, Remove(RemovedIds(s.policies, round)));
    case Tick(_, batch, clock) => DeliveredSound(g.crypto, g.start, s.policies, s.front, batch, 0, clock);
    case Pop =>
  }

  // ---------- Runs ----------

  ghost function Initial(g: Config): System {
    System([], [], Front(g.startTime, EMPTY_PIPE, []))
  }

  ghost predicate Possible(g: Config, es: seq<Event>)
    decreases |es|, 0
  {
    es == [] ||
    (Possible(g, es[..|es| - 1]) && Enabled(After(g, es[..|es| - 1]), es[|es| - 1]))
  }

  /** The system after a run of events. */
  ghost function After(g: Config, es: seq<Event>): (s: System)
    requires Possible(g, es)
    ensures Sound(g, s)
    decreases |es|, 1
  {
    if es == [] then Initial(g)
    else
      var s := After(g, es[..|es| - 1]);
      NextSound(g, s, es[|es| - 1]);
      Next(g, s, es[|es| - 1])
  }

  // ---------- The listener loses nothing ----------

  /** Every visible transaction after the start and up to the cursor was passed; the cursor is just before a visible one. */
  ghost predicate Complete(g: Config, s: System) {
    && g.startTime <= s.front.cursor
    && InOrder(s.db)
    && (s.front.cursor == g.startTime || exists tx :: tx in s.db && s.front.cursor == tx.timestamp - 1)
    && (forall tx :: tx in s.db && g.startTime < tx.timestamp <= s.front.cursor ==> tx in s.front.handled)
  }

  lemma AppendComplete(g: Config, s: System, txs: seq<Tx>)
    requires Complete(g, s) && InOrder(s.db + txs)
    ensures Complete(g, s.(db := s.db + txs))
  {
    var db := s.db + txs;
    if s.front.cursor != g.startTime {
      var last :| last in s.db && s.front.cursor == last.timestamp - 1;
      assert last in db;
      var i :| 0 <= i < |s.db| && s.db[i] == last;
      forall j | 0 <= j < |txs|
        ensures s.front.cursor < txs[j].timestamp
      {
        assert db[i] == last && db[|s.db| + j] == txs[j];
      }
    }
  }

  lemma FetchedBefore(db: seq<Tx>, cursor: int, now: int, batch: seq<Tx>, n: nat)
    requires IsFetch(db, cursor, now, batch) && 0 < n <= |batch|
    ensures batch[n - 1] in db && cursor < batch[n - 1].timestamp
    ensures forall tx :: tx in db && cursor < tx.timestamp < batch[n - 1].timestamp ==> tx in batch[..n]
  {
    assert batch[n - 1] in batch;
    forall tx | tx in db && cursor < tx.timestamp < batch[n - 1].timestamp
      ensures tx in batch[..n]
    {
      assert tx in batch;
      var l :| 0 <= l < |batch| && batch[l] == tx;
      assert l < n;
      assert batch[..n][l] == tx;
    }
  }

  /** A tick moves the cursor forward only, and past nothing it has not passed on. */
  lemma {:induction false} TickComplete(
    g: Config, db: seq<Tx>, list: seq<SigningPolicy>, f: Front, now: int, batch: seq<Tx>, clock: nat -> (nat -> Clock))
    requires GoodPolicies(list) && AllShaped(f.pipe.storage)
    requires Complete(g, System(db, list, f)) && IsFetch(db, f.cursor, now, batch)
    ensures var f' := Delivered(g.start, g.crypto, list, f, batch, 0, clock);
            f.cursor <= f'.cursor && Complete(g, System(db, list, f'))
  {
    hide GoodPolicies, AllShaped, Delivered, FirstRejected, IsFetch, InOrder;
    TickPasses(g.start, g.crypto, list, f, batch, 0, clock);
    var n := FirstRejected(g.start, g.crypto, list, batch, 0, clock);
    var f' := Delivered(g.start, g.crypto, list, f, batch, 0, clock);
    if n > 0 {
      FetchedBefore(db, f.cursor, now, batch, n);
    } else {
      assert f'.handled == f.handled;
    }
  }

  /** At every point of every run the listener has passed on everything up to its cursor. */
  lemma {:induction false} LosesNothing(g: Config, es: seq<Event>)
    requires Possible(g, es)
    ensures Complete(g, After(g, es))
  {
    hide GoodPolicies, Delivered, Run, IsFetch, PipeSound, AllShaped;
    if es != [] {
      var front := es[..|es| - 1];
      LosesNothing(g, front);
      var s := After(g, front);
      match es[|es| - 1]
      case Append(txs) => AppendComplete(g, s, txs);
      case Tick(now, batch, clock) =>
        SoundIsShaped(g, s);
        TickComplete(g, s.db, s.policies, s.front, now, batch, clock);
      case NewPolicy(_) =>
      case Cleanup(_) =>
      case Pop =>
    }
  }

  lemma SoundIsShaped(g: Config, s: System)
    requires Sound(g, s)
    ensures GoodPolicies(s.policies) && AllShaped(s.front.pipe.storage)
  {
  }

  /** The cursor never moves back, whatever happens next. */
  lemma {:induction false} CursorNeverMovesBack(g: Config, es: seq<Event>)
    requires Possible(g, es) && es != []
    ensures Possible(g, es[..|es| - 1])
    ensures After(g, es[..|es| - 1]).front.cursor <= After(g, es).front.cursor
  {
    hide GoodPolicies, Delivered, Run, IsFetch, PipeSound, AllShaped, Complete;
    var s, e := After(g, es[..|es| - 1]), es[|es| - 1];
    LosesNothing(g, es[..|es| - 1]);
    if e.Tick? {
      SoundIsShaped(g, s);
      TickComplete(g, s.db, s.policies, s.front, e.now, e.batch, e.clock);
    }
  }

  /** A transaction a tick rejects, and every later one of its batch, stays ahead of the cursor. */
  lemma RejectedStaysAhead(g: Config, s: System, e: Event, l: nat)
    requires Sound(g, s) && e.Tick? && Enabled(s, e) && l < |e.batch|
    requires FirstRejected(g.start, g.crypto, s.policies, e.batch, 0, e.clock) <= l
    ensures Next(g, s, e).front.cursor < e.batch[l].timestamp
  {
    hide GoodPolicies, Delivered, Run, PipeSound, AllShaped, FirstRejected;
    SoundIsShaped(g, s);
    TickPasses(g.start, g.crypto, s.policies, s.front, e.batch, 0, e.clock);
    var n := FirstRejected(g.start, g.crypto, s.policies, e.batch, 0, e.clock);
    assert e.batch[l] in e.batch;
    if n > 0 {
      assert e.batch[n - 1].timestamp <= e.batch[l].timestamp;
    }
  }

  /** A transaction that was ever fetched stays visible. */
  lemma {:induction false} FetchedStaysVisible(g: Config, es: seq<Event>, i: nat, tx: Tx)
    requires Possible(g, es) && i < |es| && es[i].Tick? && tx in es[i].batch
    ensures tx in After(g, es).db && g.startTime < tx.timestamp
  {
    hide GoodPolicies, Delivered, Run, PipeSound, AllShaped;
    var front := es[..|es| - 1];
    if i < |front| {
      assert front[i] == es[i];
      FetchedStaysVisible(g, front, i, tx);
    } else {
      LosesNothing(g, front);
    }
  }

  /**
   * A transaction fetched at any point of any run, rejected or not, has been passed on by the end
   * of the run, or else every fetch that reaches its timestamp returns it again.
   */
  lemma {:induction false} RejectedIsFetchedAgain(g: Config, es: seq<Event>, i: nat, tx: Tx)
    requires Possible(g, es) && i < |es| && es[i].Tick? && tx in es[i].batch
    ensures var s := After(g, es);
            || tx in s.front.handled
            || forall now, batch :: IsFetch(s.db, s.front.cursor, now, batch) && tx.timestamp <= now ==> tx in batch
  {
    hide Possible, Run, PipeSound;
    FetchedStaysVisible(g, es, i, tx);
    LosesNothing(g, es);
  }

  // ---------- Each message is queued at most once ----------

  /** How many queue items were made for the message stored under `k`. */
  ghost function ReporterCount(reporters: seq<SubmitterPayloadItem>, k: Key): nat {
    if reporters == [] then 0
    else
      ReporterCount(reporters[..|reporters| - 1], k) +
      if KeyOf(reporters[|reporters| - 1].payload) == k then 1 else 0
  }

  lemma ReporterCountAppend(reporters: seq<SubmitterPayloadItem>, item: SubmitterPayloadItem, k: Key)
    ensures ReporterCount(reporters + [item], k) == ReporterCount(reporters, k) + if KeyOf(item.payload) == k then 1 else 0
  {
    assert (reporters + [item])[..|reporters|] == reporters;
  }

  lemma ReportCountAppend(ops: seq<Op>, op: Op, k: Key)
    requires GoodOps(ops) && (op.Add? ==> GoodPolicy(op.sp))
    ensures GoodOps(ops + [op])
    ensures ReportCount(ops + [op], k) == ReportCount(ops, k) +
              if Concerns(op, k) && Reports(Run(ops), op.p, op.sp, op.threshold) then 1 else 0
  {
    hide GoodPolicy, Reports, Run;
    assert (ops + [op])[..|ops|] == ops;
  }

  /** Queue items match the storage's reports, message by message. */
  ghost predicate Counted(p: Pipe, k: Key) {
    GoodOps(p.ops) && ReporterCount(p.reporters, k) == ReportCount(p.ops, k)
  }

  lemma StoreItemCounted(
    c: Crypto, p: Pipe, item: SubmitterPayloadItem, sp: SigningPolicy, threshold: Uint16, k: Key)
    requires PipeSound(c, p) && GoodPolicy(sp) && Counted(p, k)
    ensures Counted(StoreItem(p, item, sp, threshold), k)
  {
    hide GoodPolicy, Stored, Reports, Run, ReporterCount, ReportCount, Authentic, Matched;
    ReportCountAppend(p.ops, Add(item.payload, sp, threshold), k);
    ReporterCountAppend(p.reporters, item, k);
    assert p.reporters + [] == p.reporters;
  }

  lemma {:induction false} ProcessedCounted(
    c: Crypto, start: Uint32, list: seq<SigningPolicy>, p: Pipe, items: seq<SubmitterPayloadItem>, i: nat,
    clock: nat -> Clock, k: Key)
    requires GoodPolicies(list) && PipeSound(c, p) && AllWellFormed(c, items) && i <= |items| && Counted(p, k)
    ensures Counted(Processed(start, list, p, items, i, clock).0, k)
    decreases |items| - i
  {
    hide Classify, StoreItem, Authentic, Counted, Matched;
    if i < |items| {
      ClassifiedPolicyIsGood(start, list, items[i].votingRoundId, clock(i));
      match Classify(start, list, items[i].votingRoundId, clock(i))
      case Skip => ProcessedCounted(c, start, list, p, items, i + 1, clock, k);
      case Reject =>
      case Store(sp, threshold) =>
        StoreItemSound(c, p, items[i], sp, threshold);
        StoreItemCounted(c, p, items[i], sp, threshold, k);
        ProcessedCounted(c, start, list, StoreItem(p, items[i], sp, threshold), items, i + 1, clock, k);
    }
  }

  lemma {:induction false} DeliveredCounted(
    c: Crypto, start: Uint32, list: seq<SigningPolicy>, f: Front, batch: seq<Tx>, j: nat,
    clock: nat -> (nat -> Clock), k: Key)
    requires GoodPolicies(list) && PipeSound(c, f.pipe) && j <= |batch| && Counted(f.pipe, k)
    ensures Counted(Delivered(start, c, list, f, batch, j, clock).pipe, k)
    decreases |batch| - j
  {
    hide Processed, ItemsOf, GoodPolicies, AllWellFormed, Counted, Matched, Authentic;
    if j < |batch| {
      ItemsAreWellFormed(c, batch[j]);
      ProcessedSound(c, start, list, f.pipe, ItemsOf(c, batch[j]), 0, clock(j));
      ProcessedCounted(c, start, list, f.pipe, ItemsOf(c, batch[j]), 0, clock(j), k);
      var (pipe, ok) := Processed(start, list, f.pipe, ItemsOf(c, batch[j]), 0, clock(j));
      if ok {
        var f' := Front(batch[j].timestamp - 1, pipe, f.handled + [batch[j]]);
        DeliveredCounted(c, start, list, f', batch, j + 1, clock, k);
      }
    }
  }

  lemma {:induction false} AlwaysCounted(g: Config, es: seq<Event>, k: Key)
    requires Possible(g, es)
    ensures Counted(After(g, es).front.pipe, k)
  {
    hide GoodPolicies, Delivered, Run, IsFetch, ReportCount, ReporterCount, GoodPolicy, Authentic, Matched;
    if es == [] {
      NothingCounted(k);
    } else {
      AlwaysCounted(g, es[..|es| - 1], k);
      var s := After(g, es[..|es| - 1]);
      match es[|es| - 1]
      case Tick(_, batch, clock) => DeliveredCounted(g.crypto, g.start, s.policies, s.front, batch, 0, clock, k);
      case Cleanup(round) => ReportCountAppend(s.front.pipe.ops, Remove(RemovedIds(s.policies, round)), k);
      case Append(_) =>
      case NewPolicy(_) =>
      case Pop =>
    }
  }

  lemma NothingCounted(k: Key)
    ensures ReporterCount([], k) == 0 && ReportCount([], k) == 0
  {
  }

  /**
   * Exactly-once enqueueing: over any run, however often transactions are fetched again, a message
   * whose round is never removed is queued at most once, and exactly when its threshold was reached.
   */
  lemma QueuedAtMostOnce(g: Config, es: seq<Event>, k: Key)
    requires Possible(g, es) && Kept(After(g, es).front.pipe.ops, k)
    ensures var pipe := After(g, es).front.pipe;
            && Matched(pipe.enqueued, pipe.reporters)
            && ReporterCount(pipe.reporters, k) == if Latched(pipe.storage, k) then 1 else 0
  {
    hide Matched;
    AlwaysCounted(g, es, k);
    ReportedAtMostOnce(After(g, es).front.pipe.ops, k);
  }

  // ---------- What the queue itself shows: hashes ----------

  ghost predicate Collides(c: Crypto, p: SignedPayload, q: SignedPayload) {
    p.rawMessage != q.rawMessage && c.MessageHash(p.rawMessage) == c.MessageHash(q.rawMessage)
  }

  /** Two different messages with one hash were stored in the run. */
  ghost predicate CollisionIn(c: Crypto, p: Pipe) {
    exists i, j ::
      0 <= i < |p.ops| && p.ops[i].Add? && 0 <= j < |p.reporters| && Collides(c, p.ops[i].p, p.reporters[j].payload)
  }

  lemma SameHashSameKey(c: Crypto, p: SignedPayload, q: SignedPayload)
    requires Authentic(c, p) && Authentic(c, q) && p.messageHash == q.messageHash
    ensures KeyOf(p) == KeyOf(q) || Collides(c, p, q)
  {
    SameHashSameMessage(c, p, q);
  }

  ghost function HashCount(q: seq<QueueItem>, hash: Hash): nat {
    if q == [] then 0 else HashCount(q[..|q| - 1], hash) + if q[|q| - 1].messageHash == hash then 1 else 0
  }

  lemma {:induction false} HashCountIsReporterCount(
    c: Crypto, enqueued: seq<QueueItem>, reporters: seq<SubmitterPayloadItem>, p: SignedPayload)
    requires Matched(enqueued, reporters) && Authentic(c, p)
    requires forall j :: 0 <= j < |reporters| ==>
               Authentic(c, reporters[j].payload) && !Collides(c, p, reporters[j].payload)
    ensures HashCount(enqueued, p.messageHash) == ReporterCount(reporters, KeyOf(p))
  {
    hide Authentic, Collides;
    if enqueued != [] {
      var n := |enqueued| - 1;
      HashCountIsReporterCount(c, enqueued[..n], reporters[..n], p);
      assert ItemKey(enqueued[n]) == OuterKey(reporters[n]);
      if enqueued[n].messageHash == p.messageHash {
        SameHashSameKey(c, p, reporters[n].payload);
      }
    }
  }

  /**
   * Whatever ids their items carry, the queue items with the hash of a stored message number one if
   * it reached its threshold and none otherwise, up to a hash collision.
   */
  lemma {:induction false} HashQueuedAtMostOnce(g: Config, es: seq<Event>, k: Key)
    requires Possible(g, es) && k in After(g, es).front.pipe.storage && Kept(After(g, es).front.pipe.ops, k)
    ensures var pipe := After(g, es).front.pipe;
            || HashCount(pipe.enqueued, k.messageHash) == (if Latched(pipe.storage, k) then 1 else 0)
            || CollisionIn(g.crypto, pipe)
  {
    hide Possible, Run, HashCount, ReporterCount, Authentic, Collides, Matched, GoodPolicy;
    var pipe := After(g, es).front.pipe;
    QueuedAtMostOnce(g, es, k);
    StoredWasAdded(pipe.ops, k);
    var i :| 0 <= i < |pipe.ops| && Concerns(pipe.ops[i], k);
    if !CollisionIn(g.crypto, pipe) {
      HashCountIsReporterCount(g.crypto, pipe.enqueued, pipe.reporters, pipe.ops[i].p);
    }
  }

  // ---------- Whether a queued item finds its message ----------

  /** The ids around a message equal the ids inside it. */
  predicate IdsAgree(item: SubmitterPayloadItem) {
    && item.protocolId == item.payload.message.protocolId
    && item.votingRoundId == item.payload.message.votingRoundId
  }

  lemma {:induction false} ReporterIsCounted(reporters: seq<SubmitterPayloadItem>, j: nat)
    requires j < |reporters|
    ensures ReporterCount(reporters, KeyOf(reporters[j].payload)) >= 1
  {
    if j < |reporters| - 1 {
      ReporterIsCounted(reporters[..|reporters| - 1], j);
    }
  }

  /** The message a queue item was made for is in storage, latched, and no other queue item was made for it. */
  lemma {:induction false} ReporterIsLatched(g: Config, es: seq<Event>, j: nat)
    requires Possible(g, es) && j < |After(g, es).front.pipe.reporters|
    requires Kept(After(g, es).front.pipe.ops, KeyOf(After(g, es).front.pipe.reporters[j].payload))
    ensures var pipe := After(g, es).front.pipe;
            var k := KeyOf(pipe.reporters[j].payload);
            Latched(pipe.storage, k) && ReporterCount(pipe.reporters, k) == 1
  {
    hide Possible, Run, ReporterCount, Sound;
    var pipe := After(g, es).front.pipe;
    ReporterIsCounted(pipe.reporters, j);
    QueuedAtMostOnce(g, es, KeyOf(pipe.reporters[j].payload));
  }

  /** A key that is in storage but is not the key of a message with its hash betrays a collision. */
  lemma {:induction false} ForeignKeyCollides(c: Crypto, p: Pipe, j: nat, k: Key)
    requires PipeSound(c, p) && j < |p.reporters| && k in p.storage
    requires k.messageHash == p.reporters[j].payload.messageHash && k != KeyOf(p.reporters[j].payload)
    ensures CollisionIn(c, p)
  {
    hide Run, Authentic, Collides, Matched, GoodPolicy;
    StoredWasAdded(p.ops, k);
    var i :| 0 <= i < |p.ops| && Concerns(p.ops[i], k);
    SameHashSameKey(c, p.ops[i].p, p.reporters[j].payload);
  }

  /**
   * The consumer looks a queued item up under the ids around the message. Up to a hash collision
   * it finds a message exactly when those ids agree with the ids inside.
   */
  lemma {:induction false} QueuedKeyIsFound(g: Config, es: seq<Event>, j: nat)
    requires Possible(g, es) && j < |After(g, es).front.pipe.reporters|
    requires Kept(After(g, es).front.pipe.ops, KeyOf(After(g, es).front.pipe.reporters[j].payload))
    ensures var pipe := After(g, es).front.pipe;
            && |pipe.enqueued| == |pipe.reporters|
            && (IdsAgree(pipe.reporters[j]) ==> ItemKey(pipe.enqueued[j]) in pipe.storage)
            && (!IdsAgree(pipe.reporters[j]) ==>
                  ItemKey(pipe.enqueued[j]) !in pipe.storage || CollisionIn(g.crypto, pipe))
  {
    hide Possible, Run, ReporterCount, CollisionIn, Authentic;
    var pipe := After(g, es).front.pipe;
    ReporterIsLatched(g, es, j);
    if ItemKey(pipe.enqueued[j]) in pipe.storage && !IdsAgree(pipe.reporters[j]) {
      ForeignKeyCollides(g.crypto, pipe, j, ItemKey(pipe.enqueued[j]));
    }
  }

  /**
   * A message whose threshold was reached by an item with other ids around it is stranded: it is
   * latched, its one queue item names a key that is not in storage, and no further one will come.
   */
  lemma {:induction false} MislabelledIsStranded(g: Config, es: seq<Event>, j: nat)
    requires Possible(g, es) && j < |After(g, es).front.pipe.reporters|
    requires Kept(After(g, es).front.pipe.ops, KeyOf(After(g, es).front.pipe.reporters[j].payload))
    requires !IdsAgree(After(g, es).front.pipe.reporters[j])
    ensures var pipe := After(g, es).front.pipe;
            var k := KeyOf(pipe.reporters[j].payload);
            && Latched(pipe.storage, k) && ReporterCount(pipe.reporters, k) == 1
            && |pipe.enqueued| == |pipe.reporters|
            && (|| CollisionIn(g.crypto, pipe)
                || (ItemKey(pipe.enqueued[j]) !in pipe.storage && HashCount(pipe.enqueued, k.messageHash) == 1))
  {
    hide Possible, Run, ReporterCount, CollisionIn, HashCount, Sound;
    ReporterIsLatched(g, es, j);
    QueuedKeyIsFound(g, es, j);
    HashQueuedAtMostOnce(g, es, KeyOf(After(g, es).front.pipe.reporters[j].payload));
  }

  /** The run in which a policy arrives and one transaction is indexed and fetched. */
  ghost function OneTransaction(sp: SigningPolicy, tx: Tx, clock: nat -> (nat -> Clock)): seq<Event> {
    [NewPolicy(sp), Append([tx]), Tick(tx.timestamp, [tx], clock)]
  }

  lemma {:induction false} OneTransactionRuns(g: Config, sp: SigningPolicy, tx: Tx, clock: nat -> (nat -> Clock))
    requires GoodPolicy(sp) && g.startTime < tx.timestamp
    ensures Possible(g, OneTransaction(sp, tx, clock)) && GoodPolicies([sp])
    ensures After(g, OneTransaction(sp, tx, clock)).front ==
              Delivered(g.start, g.crypto, [sp], Front(g.startTime, EMPTY_PIPE, []), [tx], 0, clock)
  {
    hide GoodPolicy, Delivered, PipeSound;
    var es := OneTransaction(sp, tx, clock);
    assert es[..2] == [NewPolicy(sp), Append([tx])] && es[..2][..1] == [NewPolicy(sp)] && es[..2][..1][..0] == [];
    assert Possible(g, es[..2][..1]) && After(g, es[..2][..1]) == Initial(g).(policies := [sp]);
    assert Possible(g, es[..2]) && After(g, es[..2]) == Initial(g).(policies := [sp], db := [tx]);
  }

  lemma HeavySignerReports(item: SubmitterPayloadItem, sp: SigningPolicy, threshold: Uint16)
    requires GoodPolicy(sp) && sp.voters.VoterIndex(item.payload.signer) >= 0
    requires sp.voters.weights[sp.voters.VoterIndex(item.payload.signer)] > threshold
    ensures var p := StoreItem(EMPTY_PIPE, item, sp, threshold);
            && p.queue == [QueueItemFor(item, sp)]
            && p.storage.Keys == {KeyOf(item.payload)}
            && Latched(p.storage, KeyOf(item.payload))
  {
  }

  lemma OneItemProcessed(start: Uint32, sp: SigningPolicy, item: SubmitterPayloadItem, clock: nat -> Clock)
    requires GoodPolicies([sp]) && GoodPolicy(sp)
    requires start <= item.votingRoundId <= clock(0).currentRound && sp.startVotingRoundId <= item.votingRoundId
    ensures Processed(start, [sp], EMPTY_PIPE, [item], 0, clock) ==
              (StoreItem(EMPTY_PIPE, item, sp, ThresholdFor([sp], sp, clock(0).late)), true)
  {
    hide StoreItem, GoodPolicy, Lookup, ThresholdFor;
    LookupIsGreatestStart([sp], item.votingRoundId);
    assert sp in [sp];
  }

  lemma OneTransactionDelivered(g: Config, sp: SigningPolicy, tx: Tx, clock: nat -> (nat -> Clock))
    requires GoodPolicies([sp]) && Processed(g.start, [sp], EMPTY_PIPE, ItemsOf(g.crypto, tx), 0, clock(0)).1
    ensures Delivered(g.start, g.crypto, [sp], Front(g.startTime, EMPTY_PIPE, []), [tx], 0, clock).pipe ==
              Processed(g.start, [sp], EMPTY_PIPE, ItemsOf(g.crypto, tx), 0, clock(0)).0
  {
    hide Processed, ItemsOf, GoodPolicies;
  }

  lemma OneItemDecoded(c: Crypto, tx: Tx, item: SubmitterPayloadItem)
    requires |tx.input| >= 4 && tx.input[4..] == ItemBytes(item) && WellFormed(c, item.payload)
    ensures ItemsOf(c, tx) == [item]
  {
    hide ItemBytes, WellFormed, ItemsOf;
    assert ItemsBytes([item]) == ItemBytes(item) + [] == ItemBytes(item);
    ItemsExactly(c, tx);
  }

  /**
   * Such runs exist for every transaction with one item, in time and signed by a voter heavier than
   * the threshold, whose ids differ from those inside the message.
   */
  lemma {:induction false} MislabelledRun(
    g: Config, sp: SigningPolicy, tx: Tx, item: SubmitterPayloadItem, clock: nat -> (nat -> Clock))
    requires GoodPolicy(sp) && g.startTime < tx.timestamp && !IdsAgree(item)
    requires |tx.input| >= 4 && tx.input[4..] == ItemBytes(item) && WellFormed(g.crypto, item.payload)
    requires g.start <= item.votingRoundId <= clock(0)(0).currentRound && sp.startVotingRoundId <= item.votingRoundId
    requires sp.voters.VoterIndex(item.payload.signer) >= 0
    requires sp.voters.weights[sp.voters.VoterIndex(item.payload.signer)] > ThresholdFor([sp], sp, clock(0)(0).late)
    ensures var es := OneTransaction(sp, tx, clock);
            && Possible(g, es)
            && var pipe := After(g, es).front.pipe;
            && pipe.queue == [QueueItemFor(item, sp)]
            && Latched(pipe.storage, KeyOf(item.payload))
            && ItemKey(pipe.queue[0]) !in pipe.storage
  {
    hide Possible, PipeSound, GoodPolicy, GoodPolicies, StoreItem, Processed, Delivered, ItemsOf, Sound, OneTransaction,
      Latched, ItemBytes, WellFormed;
    OneItemDecoded(g.crypto, tx, item);
    OneTransactionRuns(g, sp, tx, clock);
    OneItemProcessed(g.start, sp, item, clock(0));
    OneTransactionDelivered(g, sp, tx, clock);
    HeavySignerReports(item, sp, ThresholdFor([sp], sp, clock(0)(0).late));
  }

  // ---------- Quorum safety, end to end ----------

  /**
   * A queued item whose ids agree is never in vain: its message is in storage, and if no addition
   * for it was judged by a threshold below the policy's, the stored weight exceeds the policy's threshold.
   */
  lemma {:induction false} QueuedItemHasQuorum(g: Config, es: seq<Event>, j: nat)
    requires Possible(g, es) && j < |After(g, es).front.pipe.reporters|
    requires IdsAgree(After(g, es).front.pipe.reporters[j])
    requires Kept(After(g, es).front.pipe.ops, OuterKey(After(g, es).front.pipe.reporters[j]))
    ensures var pipe := After(g, es).front.pipe;
            && |pipe.enqueued| == |pipe.reporters|
            && var k := ItemKey(pipe.enqueued[j]);
            && k in pipe.storage
            && (ThresholdsAtLeast(pipe.ops, k, pipe.storage[k].policy.threshold) ==>
                  pipe.storage[k].weight > pipe.storage[k].policy.threshold)
  {
    hide Possible, Run, ReporterCount, GoodPolicy, Authentic;
    var pipe := After(g, es).front.pipe;
    ReporterIsLatched(g, es, j);
    var k := ItemKey(pipe.enqueued[j]);
    if ThresholdsAtLeast(pipe.ops, k, pipe.storage[k].policy.threshold) {
      LatchedIsAbove(pipe.ops, k, pipe.storage[k].policy.threshold);
    }
  }

  /** What a relay call must offer: different voters above the threshold, each with a valid signature on its message. */
  ghost predicate SafeQuorum(c: Crypto, m: Message, selected: seq<SignedPayload>) {
    && selected != []
    && Quorum.FromSlots(m, selected)
    && WeightOf(m.policy.voters.weights, Quorum.Chosen(m, selected)) > m.policy.threshold
    && (forall j :: 0 <= j < |selected| ==> SignedBy(c, m.policy, selected[0].rawMessage, selected[j]))
    && (forall i, j :: 0 <= i < j < |selected| ==> selected[i].signer != selected[j].signer)
    && |Relay.RelayBytes(selected)| == 2 + 67 * |selected|
  }

  /**
   * In every reachable state, for every stored key whose weight exceeds its policy's threshold,
   * any selection `processItem` can make is a safe quorum.
   */
  lemma {:induction false} RelayedQuorumIsSafe(g: Config, es: seq<Event>, k: Key, selected: seq<SignedPayload>)
    requires Possible(g, es) && k in After(g, es).front.pipe.storage
    ensures var m := After(g, es).front.pipe.storage[k];
            (m.policy.voters.Positive() && m.weight > m.policy.threshold
             && Quorum.Selection(m, m.policy.threshold, selected)) ==> SafeQuorum(g.crypto, m, selected)
  {
    hide Run, Possible, GoodMessage, AuthenticMessage, SignedBy;
    var pipe := After(g, es).front.pipe;
    var m := pipe.storage[k];
    ReachableIsGood(pipe.ops);
    StoredIsAuthentic(g.crypto, pipe.ops);
    if m.policy.voters.Positive() && m.weight > m.policy.threshold
       && Quorum.Selection(m, m.policy.threshold, selected) {
      QuorumSafety(g.crypto, k, m, selected);
    }
  }

  /** The same of the bytes: in every reachable state the call made of such a selection is a safe call. */
  lemma {:induction false} RelayedCallIsSafe(
    g: Config, es: seq<Event>, k: Key, relaySelector: Bytes, selected: seq<SignedPayload>)
    requires Possible(g, es) && k in After(g, es).front.pipe.storage && selected != []
    ensures var m := After(g, es).front.pipe.storage[k];
            (m.policy.voters.Positive() && m.weight > m.policy.threshold
             && Quorum.Selection(m, m.policy.threshold, selected)) ==>
              SafeCall(g.crypto, relaySelector, m.policy, RelayCall(relaySelector, m.policy, selected), |selected|)
  {
    hide Run, Possible, GoodMessage, AuthenticMessage, SafeCall, RelayCall;
    var pipe := After(g, es).front.pipe;
    var m := pipe.storage[k];
    ReachableIsGood(pipe.ops);
    StoredIsAuthentic(g.crypto, pipe.ops);
    if m.policy.voters.Positive() && m.weight > m.policy.threshold
       && Quorum.Selection(m, m.policy.threshold, selected) {
      CallIsSafe(g.crypto, k, m, relaySelector, selected);
    }
  }
}
