/** The finalizer's queue and the relay call made for an item (client/finalizer/finalizer_queue.go, relay_utils.go). */
module FinalizerQueue {
  import opened Prelude
  import opened Weights
  import opened Encoding
  import opened Buffers
  import opened VoterSets
  import opened SigningPolicies
  import opened Payloads
  import opened Submissions
  import opened SubmissionRuns
  import opened Relay
  import opened Quorum

  datatype QueueItem = QueueItem(seed: nat, votingRoundId: Uint32, protocolId: Byte, messageHash: Hash)

  function ItemKey(item: QueueItem): Key {
    Key(item.votingRoundId, item.protocolId, item.messageHash)
  }

  class Queue {
    var queue: seq<QueueItem>

    constructor ()
      ensures queue == []
    {
      queue := [];
    }

    method Add(item: QueueItem)
      modifies this
      ensures queue == old(queue) + [item]
    {
      queue := queue + [item];
    }

    method Pop() returns (item: Option<QueueItem>)
      modifies this
      ensures old(queue) == [] ==> item.None? && queue == []
      ensures old(queue) != [] ==> item == Some(old(queue)[0]) && queue == old(queue)[1..]
    {
      if |queue| == 0 {
        return None;
      }
      item := Some(queue[0]);
      queue := queue[1..];
    }
  }

  // ---------- The relay call ----------

  /** Selector, signing policy, message, signature list. */
  function RelayCall(relaySelector: Bytes, sp: SigningPolicy, ps: seq<SignedPayload>): Bytes
    requires ps != []
  {
    relaySelector + sp.rawBytes + ps[0].rawMessage + RelayBytes(ps)
  }

  /** The transaction `SubmitPayloads` sends, if any. */
  method SubmitPayloads(relaySelector: Bytes, payloads: seq<SignedPayload>, sp: SigningPolicy) returns (tx: Option<Bytes>)
    ensures tx.Some? <==> payloads != [] && |payloads| <= 65535 && IncreasingIndex(payloads, |payloads|)
    ensures tx.Some? ==> tx.value == RelayCall(relaySelector, sp, payloads)
  {
    hide RelayBytes, IncreasingIndex;
    if |payloads| == 0 {
      return None;
    }
    var buffer := new Buffer();
    buffer.Write(relaySelector);
    buffer.Write(sp.rawBytes);
    buffer.Write(payloads[0].rawMessage);
    var signatures := EncodeForRelay(payloads);
    if signatures.Err? {
      return None;
    }
    buffer.Write(signatures.value);
    assert [] + relaySelector == relaySelector;
    return Some(buffer.bytes);
  }

  /** What the relay contract reads from a call: the message, the count, and each 67-byte record. */
  ghost function CalledMessage(b: Bytes, at: nat): Bytes
    requires at + 40 <= |b|
  {
    b[at..at + 38]
  }

  ghost function CalledIndex(b: Bytes, at: nat, j: nat): nat
    requires at + 40 + 67 * j + 67 <= |b|
  {
    var r := at + 40 + 67 * j;
    b[r + 65] as int * 0x100 + b[r + 66]
  }

  /** Record `j`: a signature by the voter with the record's index on the hash of the called message, V - 27 last. */
  ghost predicate CalledSignature(c: Crypto, sp: SigningPolicy, b: Bytes, at: nat, j: nat)
    requires at + 40 + 67 * j + 67 <= |b|
  {
    var r, i := at + 40 + 67 * j, CalledIndex(b, at, j);
    var signature: Bytes := b[r + 1..r + 33] + b[r + 33..r + 65] + [(b[r] as int - 27) % 0x100];
    && i < |sp.voters.voters|
    && c.recover(c.textHash(c.keccak(CalledMessage(b, at))), signature) == Some(sp.voters.voters[i])
  }

  /**
   * The bytes of a safe call: selector, the policy's bytes, a 38-byte message, the number of records, and
   * records in strictly increasing order of voter, each with that voter's signature on the message,
   * by voters whose weight exceeds the policy's threshold.
   */
  ghost predicate SafeCall(c: Crypto, relaySelector: Bytes, sp: SigningPolicy, b: Bytes, n: nat) {
    var p := |relaySelector|;
    var at := p + |sp.rawBytes|;
    && n > 0 && |b| == at + 40 + 67 * n
    && b[..p] == relaySelector
    && b[p..at] == sp.rawBytes
    && b[at + 38] as int * 0x100 + b[at + 39] == n
    && (forall j :: 0 <= j < n ==> CalledSignature(c, sp, b, at, j))
    && (forall i, j :: 0 <= i < j < n ==> CalledIndex(b, at, i) < CalledIndex(b, at, j))
    && WeightOf(sp.voters.weights, CalledIndices(b, at, n)) > sp.threshold
  }

  ghost function CalledIndices(b: Bytes, at: nat, n: nat): set<nat>
    requires at + 40 + 67 * n <= |b|
  {
    set j | 0 <= j < n :: CalledIndex(b, at, j)
  }

  /** Relays the best selection of the stored signatures; sends nothing when there are none. */
  method ProcessItem(ghost c: Crypto, storage: SubmissionStorage, item: Option<QueueItem>, relaySelector: Bytes)
    returns (tx: Option<Bytes>, selected: seq<SignedPayload>)
    requires storage.Valid() && GoodStorage(storage.contents)
    ensures item.None? || ItemKey(item.value) !in storage.contents ==> tx.None? && selected == []
    ensures item.Some? && ItemKey(item.value) in storage.contents ==>
              var m := storage.contents[ItemKey(item.value)];
              && Selection(m, m.policy.threshold, selected)
              && (m.policy.voters.Positive() ==> (tx.Some? <==> Filled(m) != {}))
              && (tx.Some? ==> selected != [] && tx.value == RelayCall(relaySelector, m.policy, selected))
              && (AuthenticMessage(c, m) && m.policy.voters.Positive() && m.weight > m.policy.threshold ==>
                    tx.Some? && SafeCall(c, relaySelector, m.policy, tx.value, |selected|))
  {
    hide GoodMessage, Selection, RelayCall, SafeCall, AuthenticMessage;
    if item.None? {
      return None, [];
    }
    var data := storage.Get(item.value.votingRoundId, item.value.protocolId, item.value.messageHash);
    if data == null {
      return None, [];
    }
    ghost var k := ItemKey(item.value);
    ghost var m := storage.contents[k];
    CopyIsGood(k, m);
    selected := SelectPayloads(k, data.Value());
    tx := SubmitPayloads(relaySelector, selected, data.signingPolicy);
    CopySelection(m, m.policy.threshold, selected);
    SelectionFits(k, m, selected);
    if AuthenticMessage(c, m) && m.policy.voters.Positive() && m.weight > m.policy.threshold {
      CallIsSafe(c, k, m, relaySelector, selected);
    }
  }

  /** A snapshot differs from the stored message only in the latch. */
  lemma CopyIsGood(k: Key, m: Message)
    requires GoodMessage(k, m)
    ensures GoodMessage(k, m.(reached := false))
  {
    assert Filled(m.(reached := false)) == Filled(m);
    forall i | i in Filled(m)
      ensures GoodSlot(k, m.(reached := false), i)
    {
      assert GoodSlot(k, m, i);
    }
  }

  lemma CopySelection(m: Message, threshold: Uint16, selected: seq<SignedPayload>)
    requires Selection(m.(reached := false), threshold, selected)
    ensures Selection(m, threshold, selected)
  {
    hide WeightOf;
    assert Filled(m.(reached := false)) == Filled(m);
    assert IndexList(m.(reached := false), selected) == IndexList(m, selected);
  }

  // ---------- Quorum safety ----------

  lemma SelectionFits(k: Key, m: Message, selected: seq<SignedPayload>)
    requires GoodMessage(k, m) && Selection(m, m.policy.threshold, selected)
    ensures IncreasingIndex(selected, |selected|)
    ensures selected == [] <==> Filled(m) == {}
    ensures m.policy.voters.Positive() ==>
              |selected| <= 65535 && forall j :: 0 <= j < |selected| ==> 0 <= selected[j].index < 65535
  {
    hide WeightOf, GoodPolicy;
    var ws := m.policy.voters.weights;
    PolicyBounds(m);
    assert selected == [] ==> Chosen(m, selected) == {};
    Quorum.EmptySelection(m, selected);
    if m.policy.voters.Positive() {
      PositiveCount(ws, |ws|);
      Quorum.AtMostAllSlots(m, selected);
    }
  }

  /** What the relay contract checks of a signature: it is the named voter's, on this very message. */
  ghost predicate SignedBy(c: Crypto, sp: SigningPolicy, rawMessage: Bytes, p: SignedPayload) {
    && 0 <= p.index < |sp.voters.voters|
    && p.index < 65535
    && c.recover(c.MessageHash(rawMessage), TransformSignature(p.signature)) == Some(sp.voters.voters[p.index])
  }

  lemma SlotSigner(k: Key, m: Message, i: nat)
    requires GoodMessage(k, m) && i in Filled(m)
    ensures var p := m.payload[i].value;
            p.index == i && KeyOf(p) == k && i < |m.policy.voters.voters| && p.signer == m.policy.voters.voters[i]
  {
    assert GoodSlot(k, m, i);
    var a := m.payload[i].value.signer;
    assert a in m.policy.voters.voterDataMap;
    assert IsFirst(m.policy.voters.voters, a, m.policy.voters.voterDataMap[a].index);
  }

  lemma DifferentSigners(k: Key, m: Message, i: nat, j: nat)
    requires GoodMessage(k, m) && i in Filled(m) && j in Filled(m) && i != j
    ensures m.payload[i].value.signer != m.payload[j].value.signer
  {
    assert GoodSlot(k, m, i) && GoodSlot(k, m, j);
  }

  /**
   * Quorum safety: when the stored weight exceeds the policy threshold, the relay call carries
   * the message of the first payload, with signatures on it by different voters whose weight
   * exceeds the threshold, and its signature list has 2 + 67 bytes per signature.
   */
  lemma QuorumSafety(c: Crypto, k: Key, m: Message, selected: seq<SignedPayload>)
    requires GoodMessage(k, m) && AuthenticMessage(c, m) && m.policy.voters.Positive()
    requires Selection(m, m.policy.threshold, selected) && m.weight > m.policy.threshold
    ensures selected != [] && IncreasingIndex(selected, |selected|)
    ensures WeightOf(m.policy.voters.weights, Chosen(m, selected)) > m.policy.threshold
    ensures forall j :: 0 <= j < |selected| ==> SignedBy(c, m.policy, selected[0].rawMessage, selected[j])
    ensures forall i, j :: 0 <= i < j < |selected| ==> selected[i].signer != selected[j].signer
    ensures |selected| <= 65535 && |RelayBytes(selected)| == 2 + 67 * |selected|
  {
    SelectionFits(k, m, selected);
    FilledNonEmpty(m);
    forall j | 0 <= j < |selected|
      ensures SignedBy(c, m.policy, selected[0].rawMessage, selected[j])
    {
      SelectedSigns(c, k, m, selected, j);
    }
    forall i, j | 0 <= i < j < |selected|
      ensures selected[i].signer != selected[j].signer
    {
      DifferentSigners(k, m, selected[i].index, selected[j].index);
    }
  }

  lemma FilledNonEmpty(m: Message)
    requires m.weight == WeightOf(m.policy.voters.weights, Filled(m)) && m.weight > 0
    ensures Filled(m) != {}
  {
    EmptyWeight(m.policy.voters.weights, |m.policy.voters.weights|);
  }

  lemma SelectedSigns(c: Crypto, k: Key, m: Message, selected: seq<SignedPayload>, j: nat)
    requires GoodMessage(k, m) && AuthenticMessage(c, m) && m.policy.voters.Positive()
    requires Selection(m, m.policy.threshold, selected) && j < |selected|
    ensures SignedBy(c, m.policy, selected[0].rawMessage, selected[j])
  {
    hide WeightOf, GoodPolicy;
    SelectionFits(k, m, selected);
    SlotSigner(k, m, selected[j].index);
    SlotSigner(k, m, selected[0].index);
    assert Authentic(c, selected[j]) && Authentic(c, selected[0]);
  }

  lemma CallSlices(relaySelector: Bytes, sp: SigningPolicy, ps: seq<SignedPayload>)
    requires ps != [] && |ps[0].rawMessage| == 38 && |ps| <= 65535
    ensures var b := RelayCall(relaySelector, sp, ps);
            var p := |relaySelector|;
            var at := p + |sp.rawBytes|;
            && |b| == at + 40 + 67 * |ps|
            && b[..p] == relaySelector && b[p..at] == sp.rawBytes && b[at..at + 38] == ps[0].rawMessage
            && b[at + 38..] == RelayBytes(ps)
            && b[at + 38] as int * 0x100 + b[at + 39] == |ps|
  {
    hide Records, BytesToUint16;
    var b := RelayCall(relaySelector, sp, ps);
    var at := |relaySelector| + |sp.rawBytes|;
    assert b == relaySelector + sp.rawBytes + ps[0].rawMessage + RelayBytes(ps);
    var size := Uint16ToBytes(|ps|);
    assert RelayBytes(ps)[0] == size[0] && RelayBytes(ps)[1] == size[1];
    assert b[at + 38] == b[at + 38..][0] && b[at + 39] == b[at + 38..][1];
  }

  /** Record `j` of the call holds the signature and the index of payload `j`. */
  lemma CallRecord(relaySelector: Bytes, sp: SigningPolicy, ps: seq<SignedPayload>, j: nat)
    requires ps != [] && |ps[0].rawMessage| == 38 && |ps| <= 65535 && j < |ps| && 0 <= ps[j].index <= 65535
    ensures var b := RelayCall(relaySelector, sp, ps);
            var at := |relaySelector| + |sp.rawBytes|;
            var r := at + 40 + 67 * j;
            && |b| == at + 40 + 67 * |ps|
            && b[r..r + 65] == ps[j].signature
            && CalledIndex(b, at, j) == ps[j].index
  {
    hide RelayCall, RelayBytes;
    CallSlices(relaySelector, sp, ps);
    RecordIndex(ps, j);
    RelayLayout(ps, j);
    var b := RelayCall(relaySelector, sp, ps);
    var at := |relaySelector| + |sp.rawBytes|;
    var rest := b[at + 38..];
    var r := at + 40 + 67 * j;
    assert b[r..r + 65] == rest[2 + 67 * j..2 + 67 * j + 65];
    assert b[r + 65] == rest[2 + 67 * j + 65] && b[r + 66] == rest[2 + 67 * j + 66];
  }

  lemma RecordIndex(ps: seq<SignedPayload>, j: nat)
    requires |ps| <= 65535 && j < |ps| && 0 <= ps[j].index <= 65535
    ensures |RelayBytes(ps)| == 2 + 67 * |ps|
    ensures RelayBytes(ps)[2 + 67 * j + 65] as int * 0x100 + RelayBytes(ps)[2 + 67 * j + 66] == ps[j].index
  {
    hide Records, BytesToUint16;
    RecordAt(ps, |ps|, j);
    var b, r := RelayBytes(ps), Record(ps[j]);
    var index := Uint16ToBytes(ps[j].index);
    assert b[2..] == Records(ps, |ps|);
    assert b[2 + 67 * j..2 + 67 * j + 67] == r;
    assert b[2 + 67 * j + 65] == r[65] == index[0] && b[2 + 67 * j + 66] == r[66] == index[1];
  }

  /** Record `j` carries the signature of the voter it names. */
  lemma RecordIsSigned(c: Crypto, relaySelector: Bytes, sp: SigningPolicy, ps: seq<SignedPayload>, j: nat)
    requires ps != [] && |ps[0].rawMessage| == 38 && |ps| <= 65535 && j < |ps|
    requires SignedBy(c, sp, ps[0].rawMessage, ps[j])
    ensures var b := RelayCall(relaySelector, sp, ps);
            var at := |relaySelector| + |sp.rawBytes|;
            && |b| == at + 40 + 67 * |ps|
            && CalledIndex(b, at, j) == ps[j].index
            && CalledSignature(c, sp, b, at, j)
  {
    hide RelayCall, RelayBytes, CalledIndex;
    CallSlices(relaySelector, sp, ps);
    CallRecord(relaySelector, sp, ps, j);
    var b := RelayCall(relaySelector, sp, ps);
    var r := |relaySelector| + |sp.rawBytes| + 40 + 67 * j;
    var s := b[r..r + 65];
    assert b[r + 1..r + 33] == s[1..33] && b[r + 33..r + 65] == s[33..65] && b[r] == s[0];
  }

  lemma MessageIs38(c: Crypto, k: Key, m: Message, p: SignedPayload)
    requires GoodMessage(k, m) && AuthenticMessage(c, m)
    requires 0 <= p.index < |m.payload| && m.payload[p.index] == Some(p)
    ensures |p.rawMessage| == 38
  {
    assert Authentic(c, p);
  }

  /** Quorum safety of the bytes sent: a selection from a message above its threshold makes a safe call. */
  lemma {:induction false} CallIsSafe(
    c: Crypto, k: Key, m: Message, relaySelector: Bytes, selected: seq<SignedPayload>)
    requires GoodMessage(k, m) && AuthenticMessage(c, m) && m.policy.voters.Positive()
    requires Selection(m, m.policy.threshold, selected) && m.weight > m.policy.threshold
    ensures selected != []
    ensures SafeCall(c, relaySelector, m.policy, RelayCall(relaySelector, m.policy, selected), |selected|)
  {
    hide GoodMessage, AuthenticMessage, WeightOf, RelayCall, RelayBytes, SignedBy, CalledSignature, CalledIndex;
    QuorumSafety(c, k, m, selected);
    SelectionFits(k, m, selected);
    MessageIs38(c, k, m, selected[0]);
    CallSlices(relaySelector, m.policy, selected);
    var b := RelayCall(relaySelector, m.policy, selected);
    var at := |relaySelector| + |m.policy.rawBytes|;
    forall j | 0 <= j < |selected|
      ensures CalledSignature(c, m.policy, b, at, j) && CalledIndex(b, at, j) == selected[j].index
    {
      RecordIsSigned(c, relaySelector, m.policy, selected, j);
    }
    CalledIsChosen(m, selected, b, at);
  }

  lemma CalledIsChosen(m: Message, selected: seq<SignedPayload>, b: Bytes, at: nat)
    requires FromSlots(m, selected) && at + 40 + 67 * |selected| <= |b|
    requires forall j :: 0 <= j < |selected| ==> CalledIndex(b, at, j) == selected[j].index
    ensures CalledIndices(b, at, |selected|) == Chosen(m, selected)
  {
    hide CalledIndex, Chosen;
    forall i: nat
      ensures i in CalledIndices(b, at, |selected|) <==> i in Chosen(m, selected)
    {
      ChosenIn(m, selected, i);
      if j :| 0 <= j < |selected| && selected[j].index == i {
        assert CalledIndex(b, at, j) == i;
      }
    }
  }

  /** All payloads stored for a key carry one message, or exhibit two messages with one hash. */
  lemma OneMessagePerKey(c: Crypto, k: Key, m: Message, i: nat, j: nat)
    requires GoodMessage(k, m) && AuthenticMessage(c, m) && i in Filled(m) && j in Filled(m)
    ensures var p := m.payload[i].value;
            var q := m.payload[j].value;
            (p.rawMessage == q.rawMessage && p.message == q.message)
            || (p.rawMessage != q.rawMessage && c.MessageHash(p.rawMessage) == c.MessageHash(q.rawMessage))
  {
    SlotSigner(k, m, i);
    SlotSigner(k, m, j);
    SameHashSameMessage(c, m.payload[i].value, m.payload[j].value);
  }
}
