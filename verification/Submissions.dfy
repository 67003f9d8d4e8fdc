/** Signatures collected per message (client/finalizer/submission_storage.go). */
module Submissions {
  import opened Prelude
  import opened SigningPolicies
  import opened Payloads

  datatype Key = Key(votingRoundId: Uint32, protocolId: Byte, messageHash: Hash)

  /** Storage is keyed by the ids inside the signed message. */
  function KeyOf(p: SignedPayload): Key {
    Key(p.message.votingRoundId, p.message.protocolId, p.messageHash)
  }

  /** The value of a `messageData`: one slot per voter. */
  datatype Message = Message(
    payload: seq<Option<SignedPayload>>,
    weight: Uint16,
    policy: SigningPolicy,
    reached: bool)

  type Storage = map<Key, Message>

  ghost predicate GoodPolicy(sp: SigningPolicy) {
    sp.voters.Valid() && sp.voters.Indexed()
  }

  ghost predicate Shaped(m: Message) {
    GoodPolicy(m.policy) && |m.payload| == m.policy.voters.Count()
  }

  function NewMessage(sp: SigningPolicy): Message {
    Message(seq(sp.voters.Count(), _ => None), 0, sp, false)
  }

  /** Fills the signer's slot once; strangers and repeats change nothing; `reached` is a latch. */
  function WithPayload(m: Message, p: SignedPayload, threshold: Uint16): Message
    requires Shaped(m)
  {
    var i := m.policy.voters.VoterIndex(p.signer);
    if i < 0 || m.payload[i].Some? then m
    else
      var weight := Add16(m.weight, m.policy.voters.VoterWeight(i));
      Message(m.payload[i := Some(p.(index := i))], weight, m.policy, m.reached || weight > threshold)
  }

  function MessageFor(s: Storage, k: Key, sp: SigningPolicy): Message {
    if k in s then s[k] else NewMessage(sp)
  }

  ghost predicate AllShaped(s: Storage) {
    forall k :: k in s ==> Shaped(s[k])
  }

  lemma ShapedAt(s: Storage, k: Key)
    requires AllShaped(s) && k in s
    ensures Shaped(s[k])
  {
  }

  lemma ShapedInsert(s: Storage, k: Key, m: Message)
    requires AllShaped(s) && Shaped(m)
    ensures AllShaped(s[k := m])
  {
  }

  lemma WithPayloadShaped(m: Message, p: SignedPayload, threshold: Uint16)
    requires Shaped(m)
    ensures Shaped(WithPayload(m, p, threshold))
  {
  }

  function Stored(s: Storage, p: SignedPayload, sp: SigningPolicy, threshold: Uint16): Storage
    requires AllShaped(s) && GoodPolicy(sp)
  {
    s[KeyOf(p) := WithPayload(MessageFor(s, KeyOf(p), sp), p, threshold)]
  }

  /** Whether this addition is the one that reaches the threshold. */
  predicate Reports(s: Storage, p: SignedPayload, sp: SigningPolicy, threshold: Uint16)
    requires AllShaped(s) && GoodPolicy(sp)
  {
    !MessageFor(s, KeyOf(p), sp).reached && Stored(s, p, sp, threshold)[KeyOf(p)].reached
  }

  function Without(s: Storage, rounds: seq<Uint32>): Storage {
    map k | k in s && k.votingRoundId !in rounds :: s[k]
  }

  // ---------- The mutable storage ----------

  class MessageData {
    var payload: seq<Option<SignedPayload>>
    var weight: Uint16
    var thresholdReached: bool
    const signingPolicy: SigningPolicy

    function Value(): Message
      reads this
    {
      Message(payload, weight, signingPolicy, thresholdReached)
    }

    constructor (sp: SigningPolicy)
      ensures Value() == NewMessage(sp)
    {
      payload := seq(sp.voters.Count(), _ => None);
      weight := 0;
      thresholdReached := false;
      signingPolicy := sp;
    }

    method AddPayload(p: SignedPayload, threshold: Uint16) returns (ok: bool)
      requires Shaped(Value())
      modifies this
      ensures Value() == WithPayload(old(Value()), p, threshold)
      ensures ok <==> p.signer in signingPolicy.voters.voters
    {
      var voterIndex := signingPolicy.voters.VoterIndex(p.signer);
      if voterIndex < 0 {
        return false;
      }
      if payload[voterIndex].Some? {
        return true;
      }
      payload := payload[voterIndex := Some(p.(index := voterIndex))];
      weight := Add16(weight, signingPolicy.voters.VoterWeight(voterIndex));
      if !thresholdReached {
        thresholdReached := weight > threshold;
      }
      return true;
    }

    /** The copy does not carry the latch. */
    method Copy() returns (c: MessageData)
      ensures fresh(c) && c.Value() == Value().(reached := false)
    {
      c := new MessageData(signingPolicy);
      c.payload := payload;
      c.weight := weight;
    }
  }

  datatype VotingRoundKey = VotingRoundKey(protocolId: Byte, messageHash: Hash)

  type VotingRounds = map<Uint32, map<VotingRoundKey, MessageData>>

  predicate Has(vr: VotingRounds, k: Key) {
    k.votingRoundId in vr && VotingRoundKey(k.protocolId, k.messageHash) in vr[k.votingRoundId]
  }

  function Inserted(vr: VotingRounds, k: Key, m: MessageData): VotingRounds {
    var item: map<VotingRoundKey, MessageData> := if k.votingRoundId in vr then vr[k.votingRoundId] else map[];
    vr[k.votingRoundId := item[VotingRoundKey(k.protocolId, k.messageHash) := m]]
  }

  /** The flat map `objects` says the same as the two-level one. */
  ghost predicate Linked(vr: VotingRounds, objects: map<Key, MessageData>) {
    forall k: Key :: (k in objects <==> Has(vr, k)) &&
      (k in objects ==> vr[k.votingRoundId][VotingRoundKey(k.protocolId, k.messageHash)] == objects[k])
  }

  lemma InsertLinked(vr: VotingRounds, objects: map<Key, MessageData>, k: Key, m: MessageData)
    requires Linked(vr, objects)
    ensures Linked(Inserted(vr, k, m), objects[k := m])
  {
  }

  function ObjectsWithout(objects: map<Key, MessageData>, id: Uint32): map<Key, MessageData> {
    map k | k in objects && k.votingRoundId != id :: objects[k]
  }

  lemma RemoveLinked(vr: VotingRounds, objects: map<Key, MessageData>, id: Uint32)
    requires Linked(vr, objects)
    ensures Linked(vr - {id}, ObjectsWithout(objects, id))
  {
  }

  lemma WithoutExactly(s: Storage, rounds: seq<Uint32>)
    ensures forall k :: k in Without(s, rounds) <==> k in s && k.votingRoundId !in rounds
    ensures forall k :: k in Without(s, rounds) ==> Without(s, rounds)[k] == s[k]
  {
  }

  lemma NothingRemoved(s: Storage)
    ensures Without(s, []) == s
  {
  }

  lemma WithoutOneMore(s: Storage, rounds: seq<Uint32>, id: Uint32)
    ensures Without(Without(s, rounds), [id]) == Without(s, rounds + [id])
  {
  }

  /** Different keys hold different objects. */
  ghost predicate Separate(objects: map<Key, MessageData>) {
    forall k, l :: k in objects && l in objects && objects[k] == objects[l] ==> k == l
  }

  /** The objects at these keys have the given values. */
  ghost predicate Values(objects: map<Key, MessageData>, contents: Storage, except: set<Key>)
    reads objects.Values
  {
    && objects.Keys == contents.Keys
    && forall k :: k in objects && k !in except ==> objects[k].Value() == contents[k]
  }

  lemma InsertSeparate(objects: map<Key, MessageData>, k: Key, m: MessageData)
    requires Separate(objects) && m !in objects.Values
    ensures Separate(objects[k := m])
  {
    forall l | l in objects
      ensures objects[l] != m
    {
      assert objects[l] in objects.Values;
    }
  }

  lemma Weaken(objects: map<Key, MessageData>, contents: Storage, except: set<Key>)
    requires Values(objects, contents, {})
    ensures Values(objects, contents, except)
  {
  }

  lemma ValueAt(objects: map<Key, MessageData>, contents: Storage, k: Key)
    requires Values(objects, contents, {}) && k in objects
    ensures k in contents && objects[k].Value() == contents[k]
  {
  }

  lemma SameKeys(objects: map<Key, MessageData>, contents: Storage)
    requires Values(objects, contents, {})
    ensures objects.Keys == contents.Keys
  {
  }

  lemma StoredAfterLocating(s: Storage, located: Storage, p: SignedPayload, sp: SigningPolicy, threshold: Uint16)
    requires AllShaped(s) && GoodPolicy(sp) && AllShaped(located)
    requires located == s || located == s[KeyOf(p) := NewMessage(sp)]
    requires KeyOf(p) in located && located[KeyOf(p)] == MessageFor(s, KeyOf(p), sp)
    ensures located[KeyOf(p) := WithPayload(located[KeyOf(p)], p, threshold)] == Stored(s, p, sp, threshold)
  {
    hide WithPayload, GoodPolicy;
  }

  lemma AfterUpdate(objects: map<Key, MessageData>, contents: Storage, k: Key)
    requires objects.Keys == contents.Keys
    requires forall l :: l in objects && l != k ==> objects[l].Value() == contents[l]
    ensures Values(objects, contents, {k})
  {
  }

  lemma InsertValues(objects: map<Key, MessageData>, contents: Storage, k: Key, m: MessageData)
    requires Values(objects, contents, {k})
    ensures Values(objects[k := m], contents[k := m.Value()], {})
  {
  }

  lemma RemoveTied(objects: map<Key, MessageData>, contents: Storage, id: Uint32)
    requires Separate(objects) && Values(objects, contents, {}) && AllShaped(contents)
    ensures Separate(ObjectsWithout(objects, id))
    ensures Values(ObjectsWithout(objects, id), Without(contents, [id]), {})
    ensures AllShaped(Without(contents, [id])) && ObjectsWithout(objects, id).Values <= objects.Values
  {
    hide Shaped;
    assert ObjectsWithout(objects, id).Keys == Without(contents, [id]).Keys;
  }

  class SubmissionStorage {
    var vrMap: VotingRounds
    ghost var objects: map<Key, MessageData>
    ghost var contents: Storage

    /** `contents` is the value of the stored messages, whose objects are all different. */
    ghost predicate Valid()
      reads this, objects.Values
    {
      && Linked(vrMap, objects)
      && Separate(objects) && Values(objects, contents, {})
      && AllShaped(contents)
    }

    constructor ()
      ensures Valid() && contents == map[] && objects == map[]
    {
      vrMap := map[];
      objects := map[];
      contents := map[];
    }

    /** The message stored under a key, created for `sp` if there is none. */
    method Locate(k: Key, sp: SigningPolicy) returns (message: MessageData)
      requires Valid() && GoodPolicy(sp)
      modifies this
      ensures Valid() && k in objects && objects[k] == message
      ensures k in old(objects) ==> objects == old(objects) && contents == old(contents)
      ensures k !in old(objects) ==>
                && fresh(message) && objects == old(objects)[k := message]
                && contents == old(contents)[k := NewMessage(sp)]
    {
      hide Linked, Separate, Values, AllShaped, GoodPolicy, Inserted;
      LinkedAt(vrMap, objects, k);
      var key := VotingRoundKey(k.protocolId, k.messageHash);
      if k.votingRoundId in vrMap && key in vrMap[k.votingRoundId] {
        message := vrMap[k.votingRoundId][key];
      } else {
        message := new MessageData(sp);
        InsertLinked(vrMap, objects, k, message);
        InsertSeparate(objects, k, message);
        Weaken(objects, contents, {k});
        InsertValues(objects, contents, k, message);
        assert Shaped(NewMessage(sp));
        ShapedInsert(contents, k, NewMessage(sp));
        vrMap := Inserted(vrMap, k, message);
        objects, contents := objects[k := message], contents[k := NewMessage(sp)];
      }
    }

    /** Adds a payload to the message already stored under `k`. */
    method AddTo(k: Key, message: MessageData, p: SignedPayload, threshold: Uint16) returns (ok: bool)
      requires Valid() && k in objects && objects[k] == message
      modifies this`contents, message
      ensures Valid() && contents == old(contents)[k := WithPayload(old(contents)[k], p, threshold)]
      ensures ok <==> p.signer in contents[k].policy.voters.voters
    {
      hide Linked, AllShaped, Shaped, WithPayload;
      ShapedAt(contents, k);
      WithPayloadShaped(contents[k], p, threshold);
      ok := message.AddPayload(p, threshold);
      forall l | l in objects && l != k
        ensures objects[l].Value() == contents[l]
      {
        assert old(objects[l].Value()) == contents[l] && objects[l] != message;
      }
      hide Separate, Values;
      AfterUpdate(objects, contents, k);
      ShapedInsert(contents, k, message.Value());
      InsertValues(objects, contents, k, message);
      assert objects[k := message] == objects;
      contents := contents[k := message.Value()];
    }

    method Add(p: SignedPayload, sp: SigningPolicy, threshold: Uint16) returns (r: Result<bool, string>)
      requires Valid() && GoodPolicy(sp)
      modifies this, objects.Values
      ensures Valid() && fresh(objects.Values - old(objects.Values))
      ensures contents == Stored(old(contents), p, sp, threshold)
      ensures r.Ok? <==> p.signer in contents[KeyOf(p)].policy.voters.voters
      ensures r.Ok? ==> r.value == Reports(old(contents), p, sp, threshold)
    {
      hide Linked, Separate, Values, AllShaped, WithPayload, GoodPolicy, NewMessage, Stored;
      var k := KeyOf(p);
      SameKeys(objects, contents);
      var message := Locate(k, sp);
      ValueAt(objects, contents, k);
      var thresholdAlreadyReached := message.thresholdReached;
      assert contents[k] == MessageFor(old(contents), k, sp);
      ghost var located := contents;
      var ok := AddTo(k, message, p, threshold);
      StoredAfterLocating(old(contents), located, p, sp, threshold);
      ValueAt(objects, contents, k);
      if !ok {
        return Err("signer is not a registered voter in the current reward epoch");
      }
      return Ok(!thresholdAlreadyReached && message.thresholdReached);
    }

    method Get(votingRoundId: Uint32, protocolId: Byte, messageHash: Hash) returns (m: MessageData?)
      requires Valid()
      ensures var k := Key(votingRoundId, protocolId, messageHash);
              if k in contents then m != null && fresh(m) && m.Value() == contents[k].(reached := false)
              else m == null
    {
      LinkedAt(vrMap, objects, Key(votingRoundId, protocolId, messageHash));
      m := null;
      if votingRoundId in vrMap {
        var key := VotingRoundKey(protocolId, messageHash);
        if key in vrMap[votingRoundId] {
          m := vrMap[votingRoundId][key].Copy();
        }
      }
    }

    method RemoveVotingRoundIds(votingRoundIds: seq<Uint32>)
      requires Valid()
      modifies this
      ensures Valid() && objects.Values <= old(objects.Values)
      ensures contents == Without(old(contents), votingRoundIds)
      ensures forall k :: k in contents <==> k in old(contents) && k.votingRoundId !in votingRoundIds
      ensures forall k :: k in contents ==> contents[k] == old(contents)[k]
    {
      hide Linked, Separate, Values, AllShaped, Without, ObjectsWithout;
      WithoutExactly(contents, votingRoundIds);
      NothingRemoved(contents);
      for i := 0 to |votingRoundIds|
        invariant Valid() && objects.Values <= old(objects.Values)
        invariant contents == Without(old(contents), votingRoundIds[..i])
      {
        var id := votingRoundIds[i];
        assert votingRoundIds[..i + 1] == votingRoundIds[..i] + [id];
        WithoutOneMore(old(contents), votingRoundIds[..i], id);
        RemoveLinked(vrMap, objects, id);
        RemoveTied(objects, contents, id);
        vrMap := vrMap - {id};
        objects, contents := ObjectsWithout(objects, id), Without(contents, [id]);
      }
      assert votingRoundIds[..|votingRoundIds|] == votingRoundIds;
    }
  }

  lemma LinkedAt(vr: VotingRounds, objects: map<Key, MessageData>, k: Key)
    requires Linked(vr, objects)
    ensures k in objects <==> Has(vr, k)
    ensures k in objects ==> vr[k.votingRoundId][VotingRoundKey(k.protocolId, k.messageHash)] == objects[k]
  {
  }
}
