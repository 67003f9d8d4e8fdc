/**
 * From the writer to the storage: what a submitter signed and sent is stored by every finalizer whose
 * listener passes the transaction on (client/protocol/submitter.go, client/finalizer/submission_utils.go,
 * finalizer_client.go, submission_storage.go).
 */
module Delivery {
  import opened Prelude
  import opened SigningPolicies
  import opened Payloads
  import opened Submissions
  import opened SubmissionRuns
  import opened FinalizerQueue
  import opened Finalizer
  import opened Listener
  import opened Pipeline
  import Submitter

  // ---------- Additions stay in the history ----------

  lemma {:induction false} ProcessedOpsGrow(
    start: Uint32, list: seq<SigningPolicy>, s: Pipe, items: seq<SubmitterPayloadItem>, clock: nat -> Clock)
    requires GoodPolicies(list) && AllShaped(s.storage)
    ensures s.ops <= Processed(start, list, s, items, 0, clock).0.ops
  {
    hide Processed, Additions, GoodPolicies, AllShaped;
    WholeSubmission(start, list, s, items, clock);
  }

  lemma {:induction false} DeliveredOpsGrow(
    start: Uint32, c: Crypto, list: seq<SigningPolicy>, f: Front, batch: seq<Tx>, j: nat, clock: nat -> (nat -> Clock))
    requires GoodPolicies(list) && AllShaped(f.pipe.storage) && j <= |batch|
    ensures f.pipe.ops <= Delivered(start, c, list, f, batch, j, clock).pipe.ops
    decreases |batch| - j
  {
    hide Processed, GoodPolicies, AllShaped, ItemsOf;
    if j < |batch| {
      ProcessedOpsGrow(start, list, f.pipe, ItemsOf(c, batch[j]), clock(j));
      var (pipe, ok) := Processed(start, list, f.pipe, ItemsOf(c, batch[j]), 0, clock(j));
      if ok {
        DeliveredOpsGrow(start, c, list, Front(batch[j].timestamp - 1, pipe, f.handled + [batch[j]]), batch, j + 1, clock);
      }
    }
  }

  /** The addition is in the history at or after position `from`. */
  ghost predicate AddedSince(ops: seq<Op>, from: nat, op: Op) {
    exists n :: from <= n < |ops| && ops[n] == op
  }

  lemma AddedByProcessing(
    start: Uint32, c: Crypto, list: seq<SigningPolicy>, s: Pipe, tx: Tx, clock: nat -> Clock, op: Op)
    requires GoodPolicies(list) && AllShaped(s.storage) && Ordered(list)
    requires Processed(start, list, s, ItemsOf(c, tx), 0, clock).1
    requires op in Additions(start, list, ItemsOf(c, tx), 0, clock)
    ensures AddedSince(Processed(start, list, s, ItemsOf(c, tx), 0, clock).0.ops, |s.ops|, op)
  {
    hide Processed, Additions, GoodPolicies, AllShaped, ItemsOf;
    ProcessedAddsExactly(start, list, s, ItemsOf(c, tx), 0, clock);
    var adds := Additions(start, list, ItemsOf(c, tx), 0, clock);
    var n :| 0 <= n < |adds| && adds[n] == op;
    assert (s.ops + adds)[|s.ops| + n] == op;
  }

  lemma StillAdded(ops: seq<Op>, ops': seq<Op>, from: nat, from': nat, op: Op)
    requires ops <= ops' && from' <= from && AddedSince(ops, from, op)
    ensures AddedSince(ops', from', op)
  {
    var n :| from <= n < |ops| && ops[n] == op;
    assert ops'[n] == op;
  }

  /** A tick adds what is due of every transaction it passes on. */
  lemma {:induction false} DeliveredAdds(
    start: Uint32, c: Crypto, list: seq<SigningPolicy>, f: Front, batch: seq<Tx>, j: nat, clock: nat -> (nat -> Clock),
    b: nat, op: Op)
    requires GoodPolicies(list) && Ordered(list) && AllShaped(f.pipe.storage)
    requires j <= b < |batch| && b < FirstRejected(start, c, list, batch, j, clock)
    requires op in Additions(start, list, ItemsOf(c, batch[b]), 0, clock(b))
    ensures AddedSince(Delivered(start, c, list, f, batch, j, clock).pipe.ops, |f.pipe.ops|, op)
    decreases |batch| - j
  {
    hide Processed, Additions, GoodPolicies, AllShaped, ItemsOf, Rejected, AddedSince, Ordered;
    ProcessedRejects(start, c, list, f.pipe, batch[j], clock(j));
    ProcessedOpsGrow(start, list, f.pipe, ItemsOf(c, batch[j]), clock(j));
    var (pipe, ok) := Processed(start, list, f.pipe, ItemsOf(c, batch[j]), 0, clock(j));
    var f' := Front(batch[j].timestamp - 1, pipe, f.handled + [batch[j]]);
    var ops' := Delivered(start, c, list, f', batch, j + 1, clock).pipe.ops;
    if b == j {
      AddedByProcessing(start, c, list, f.pipe, batch[j], clock(j), op);
      DeliveredOpsGrow(start, c, list, f', batch, j + 1, clock);
      StillAdded(pipe.ops, ops', |f.pipe.ops|, |f.pipe.ops|, op);
    } else {
      DeliveredAdds(start, c, list, f', batch, j + 1, clock, b, op);
      StillAdded(ops', ops', |pipe.ops|, |f.pipe.ops|, op);
    }
  }

  lemma {:induction false} NextOpsGrow(g: Config, s: System, e: Event)
    requires Sound(g, s)
    ensures s.front.pipe.ops <= Next(g, s, e).front.pipe.ops
  {
    hide GoodPolicies, Delivered, Run, PipeSound, AllShaped;
    SoundIsShaped(g, s);
    if e.Tick? {
      DeliveredOpsGrow(g.start, g.crypto, s.policies, s.front, e.batch, 0, e.clock);
    }
  }

  /** Each beginning of a run is a run, and its history stays. */
  lemma {:induction false} RunPrefix(g: Config, es: seq<Event>, n: nat)
    requires Possible(g, es) && n <= |es|
    ensures Possible(g, es[..n])
    ensures After(g, es[..n]).front.pipe.ops <= After(g, es).front.pipe.ops
    decreases |es|
  {
    hide Sound, Next, Enabled;
    if n == |es| {
      assert es[..n] == es;
    } else {
      var front := es[..|es| - 1];
      assert front[..n] == es[..n];
      RunPrefix(g, front, n);
      NextOpsGrow(g, After(g, front), es[|es| - 1]);
    }
  }

  // ---------- Items passed on are stored ----------

  /** In event `t` of the run the listener passes on transaction `b` of its batch. */
  ghost predicate PassesOn(g: Config, es: seq<Event>, t: nat, b: nat)
    requires Possible(g, es) && t < |es|
  {
    RunPrefix(g, es, t);
    && es[t].Tick? && b < |es[t].batch|
    && b < FirstRejected(g.start, g.crypto, After(g, es[..t]).policies, es[t].batch, 0, es[t].clock)
  }

  /** In event `t` the round is neither before the start nor in the future nor before the oldest policy. */
  ghost predicate Accepts(g: Config, es: seq<Event>, t: nat, round: Uint32, clock: Clock)
    requires Possible(g, es) && t < |es|
  {
    RunPrefix(g, es, t);
    var list := After(g, es[..t]).policies;
    g.start <= round <= clock.currentRound && list != [] && list[0].startVotingRoundId <= round
  }

  /** From event `t` on no cleanup removes the round. */
  ghost predicate KeptSince(g: Config, es: seq<Event>, t: nat, round: Uint32)
    requires Possible(g, es) && t < |es|
  {
    RunPrefix(g, es, t);
    var ops := After(g, es).front.pipe.ops;
    forall i :: |After(g, es[..t]).front.pipe.ops| <= i < |ops| && ops[i].Remove? ==> round !in ops[i].rounds
  }

  lemma {:induction false} PassedItemIsAdded(g: Config, es: seq<Event>, t: nat, b: nat, k: nat)
    requires Possible(g, es) && t < |es| && PassesOn(g, es, t, b)
    requires k < |ItemsOf(g.crypto, es[t].batch[b])|
    requires Accepts(g, es, t, ItemsOf(g.crypto, es[t].batch[b])[k].votingRoundId, es[t].clock(b)(k))
    ensures Possible(g, es[..t])
    ensures exists op: Op :: && op.Add? && op.p == ItemsOf(g.crypto, es[t].batch[b])[k].payload
                         && AddedSince(After(g, es).front.pipe.ops, |After(g, es[..t]).front.pipe.ops|, op)
  {
    hide Run, PipeSound, GoodPolicies, AllShaped, ItemsOf, Additions, FirstRejected, Delivered, Enabled, AddedSince, Ordered;
    RunPrefix(g, es, t);
    RunPrefix(g, es, t + 1);
    var s, e := After(g, es[..t]), es[t];
    assert es[..t + 1][..t] == es[..t];
    SoundIsShaped(g, s);
    PoliciesOrdered(s.policies);
    var items := ItemsOf(g.crypto, e.batch[b]);
    AdditionIsMade(g.start, s.policies, items, 0, e.clock(b), k);
    var op :| op in Additions(g.start, s.policies, items, 0, e.clock(b)) && op.Add? && op.p == items[k].payload;
    DeliveredAdds(g.start, g.crypto, s.policies, s.front, e.batch, 0, e.clock, b, op);
    var from := |s.front.pipe.ops|;
    StillAdded(After(g, es[..t + 1]).front.pipe.ops, After(g, es).front.pipe.ops, from, from, op);
  }

  /** If the address is a voter's, that voter's slot holds a payload signed by it. */
  ghost predicate Holds(m: Message, a: Address) {
    var i := m.policy.voters.VoterIndex(a);
    i >= 0 ==> i < |m.payload| && m.payload[i].Some? && m.payload[i].value.signer == a
  }

  lemma FilledHolds(k: Key, m: Message, p: SignedPayload)
    requires GoodMessage(k, m) && SlotOf(m.policy, p) <= Filled(m)
    ensures Holds(m, p.signer)
  {
    var i := m.policy.voters.VoterIndex(p.signer);
    if i >= 0 {
      assert i in SlotOf(m.policy, p);
      SlotSigner(k, m, i);
      VoterAt(m, p.signer);
    }
  }

  lemma VoterAt(m: Message, a: Address)
    requires GoodPolicy(m.policy) && m.policy.voters.VoterIndex(a) >= 0
    ensures var i := m.policy.voters.VoterIndex(a);
            i < |m.policy.voters.voters| && m.policy.voters.voters[i] == a
  {
  }

  /**
   * Every item of a transaction passed on at any point of any run, in time and under a policy, has
   * its message in storage from then on, with the signer's slot filled, until its round is removed.
   */
  lemma {:induction false} PassedItemIsStored(g: Config, es: seq<Event>, t: nat, b: nat, k: nat)
    requires Possible(g, es) && t < |es| && PassesOn(g, es, t, b)
    requires k < |ItemsOf(g.crypto, es[t].batch[b])|
    requires Accepts(g, es, t, ItemsOf(g.crypto, es[t].batch[b])[k].votingRoundId, es[t].clock(b)(k))
    requires KeptSince(g, es, t, ItemsOf(g.crypto, es[t].batch[b])[k].payload.message.votingRoundId)
    ensures var p := ItemsOf(g.crypto, es[t].batch[b])[k].payload;
            var storage := After(g, es).front.pipe.storage;
            KeyOf(p) in storage && Holds(storage[KeyOf(p)], p.signer)
  {
    hide Possible, Run, GoodPolicy, Authentic, ItemsOf, FirstRejected, Accepts, GoodMessage, SlotOf, Filled, Holds, Matched;
    PassedItemIsAdded(g, es, t, b, k);
    var p := ItemsOf(g.crypto, es[t].batch[b])[k].payload;
    var ops, from := After(g, es).front.pipe.ops, |After(g, es[..t]).front.pipe.ops|;
    var op: Op :| op.Add? && op.p == p && AddedSince(ops, from, op);
    var n :| from <= n < |ops| && ops[n] == op;
    AddedStaysStored(ops, n, KeyOf(p));
    ReachableIsGood(ops);
    FilledHolds(KeyOf(p), Run(ops)[KeyOf(p)], p);
  }

  // ---------- What was sent is stored ----------

  /** The key under which a signed message is stored, read from its bytes. */
  ghost predicate KeyOfBytes(c: Crypto, data: Bytes, k: Key)
    requires |data| == 38
  {
    && k.protocolId == data[0]
    && k.votingRoundId == data[1] as int * 0x100_0000 + data[2] as int * 0x1_0000 + data[3] as int * 0x100 + data[4]
    && k.messageHash == c.textHash(c.keccak(data))
  }

  lemma AuthenticKey(c: Crypto, p: SignedPayload)
    requires Authentic(c, p)
    ensures |p.rawMessage| == 38 && KeyOfBytes(c, p.rawMessage, KeyOf(p))
  {
    hide MessageBytes;
    MessageLayout(p.message);
  }

  /** The items of a sent transaction as the listener sees them. */
  lemma {:induction false} SentItems(
    c: Crypto, currentEpoch: int, selector: Bytes, subProtocols: seq<Byte>, sent: Submitter.Tx, tx: Tx, k: nat)
    requires |selector| == 4 && Submitter.GoodTx(c, currentEpoch, selector, subProtocols, sent)
    requires forall l :: 0 <= l < |sent.entries| ==> Submitter.Recovers(c, sent.entries[l].key)
    requires Submitter.AllQualityOk(sent.entries) && tx.input == sent.payload && k < |sent.entries|
    ensures |ItemsOf(c, tx)| == |sent.entries|
    ensures var item := ItemsOf(c, tx)[k];
            && item.votingRoundId == (currentEpoch - 1) % 0x1_0000_0000
            && item.payload.signer == sent.entries[k].key.address
            && |sent.entries[k].response.data| == 38
            && KeyOfBytes(c, sent.entries[k].response.data, KeyOf(item.payload))
  {
    hide Decoded, Submitter.EntriesBytes, Submitter.SignatureOf, Submitter.Recovers, Authentic, KeyOfBytes, KeyOf;
    Submitter.SentTxDecodes(c, currentEpoch, selector, subProtocols, sent);
    ItemsAreWellFormed(c, tx);
    assert WellFormed(c, ItemsOf(c, tx)[k].payload);
    AuthenticKey(c, ItemsOf(c, tx)[k].payload);
  }

  /**
   * From writer to storage: every sub-protocol in a transaction a submitter sent, once a listener has
   * passed the transaction on with its round in time and under a policy, has its message in storage
   * and the signature in the slot of its signer, until the message's round is removed.
   */
  lemma {:induction false} SentIsStored(
    g: Config, es: seq<Event>, t: nat, b: nat, currentEpoch: int, selector: Bytes, subProtocols: seq<Byte>,
    sent: Submitter.Tx, k: nat, key: Key)
    requires |selector| == 4 && Submitter.GoodTx(g.crypto, currentEpoch, selector, subProtocols, sent)
    requires forall l :: 0 <= l < |sent.entries| ==> Submitter.Recovers(g.crypto, sent.entries[l].key)
    requires Submitter.AllQualityOk(sent.entries) && k < |sent.entries|
    requires KeyOfBytes(g.crypto, sent.entries[k].response.data, key)
    requires Possible(g, es) && t < |es| && PassesOn(g, es, t, b) && es[t].batch[b].input == sent.payload
    requires Accepts(g, es, t, (currentEpoch - 1) % 0x1_0000_0000, es[t].clock(b)(k))
    requires KeptSince(g, es, t, key.votingRoundId)
    ensures var storage := After(g, es).front.pipe.storage;
            key in storage && Holds(storage[key], sent.entries[k].key.address)
  {
    hide Possible, After, ItemsOf, FirstRejected, Accepts, Holds, KeptSince, KeyOfBytes,
      Submitter.EntriesBytes, Submitter.SignatureOf, Submitter.Recovers, Submitter.GoodTx;
    SentItems(g.crypto, currentEpoch, selector, subProtocols, sent, es[t].batch[b], k);
    OneKey(g.crypto, sent.entries[k].response.data, key, KeyOf(ItemsOf(g.crypto, es[t].batch[b])[k].payload));
    PassedItemIsStored(g, es, t, b, k);
  }

  lemma OneKey(c: Crypto, data: Bytes, k: Key, k': Key)
    requires |data| == 38 && KeyOfBytes(c, data, k) && KeyOfBytes(c, data, k')
    ensures k == k'
  {
  }
}
