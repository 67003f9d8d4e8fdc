/** Printing and resending of signed protocol data (client/protocol/submitter.go). */
module Submitter {
  import opened Prelude
  import opened Encoding
  import opened Buffers
  import opened Payloads

  datatype SubProtocolResponse = SubProtocolResponse(status: string, data: Bytes, additionalData: Bytes)

  /** `SignatureSubmitterDataVerifier`: 38 message bytes, and a payload length that fits 16 bits. */
  predicate Verified(r: SubProtocolResponse) {
    r.status == "OK" && |r.data| == 38 && |r.additionalData| <= MAX_UINT16 - 104
  }

  /** A private key: its address, and what signing a hash yields (None is a signing error). */
  datatype SignerKey = SignerKey(address: Address, sign: Hash -> Option<Signature>)

  /** The one assumption about the curve: recovering from a produced signature yields the signer. */
  ghost predicate Recovers(c: Crypto, key: SignerKey) {
    forall h: Hash :: key.sign(h).Some? ==> c.recover(h, key.sign(h).value) == Some(key.address)
  }

  /** From [R || S || V] to [V + 27 || R || S], the byte addition wrapping. */
  function WireSignature(signature: Signature): Signature {
    [(signature[64] as int + 27) % 0x100] + signature[0..32] + signature[32..64]
  }

  lemma SignaturePieces(s: Signature)
    ensures s == s[0..32] + s[32..64] + [s[64]]
    ensures s == [s[0]] + s[1..33] + s[33..65]
  {
  }

  lemma WirePieces(s: Signature)
    ensures var w := WireSignature(s);
            w[0] == (s[64] as int + 27) % 0x100 && w[1..33] == s[0..32] && w[33..65] == s[32..64]
  {
  }

  lemma TransformedPieces(s: Signature)
    ensures var t := TransformSignature(s);
            t[0..32] == s[1..33] && t[32..64] == s[33..65] && t[64] == (s[0] as int - 27) % 0x100
  {
  }

  /** The reshuffle is undone by the reader, for every byte V. */
  lemma {:induction false} SignatureRoundTrip(s: Signature)
    ensures TransformSignature(WireSignature(s)) == s
    ensures WireSignature(TransformSignature(s)) == s
  {
    hide WireSignature, TransformSignature;
    SignaturePieces(s);
    WirePieces(s);
    TransformedPieces(s);
    var w, t := WireSignature(s), TransformSignature(s);
    TransformedPieces(w);
    WirePieces(t);
    SignaturePieces(TransformSignature(w));
    SignaturePieces(WireSignature(t));
  }

  // ---------- WritePayload ----------

  /** One protocol's contribution to a transaction. */
  datatype Entry = Entry(protocolId: Byte, response: SubProtocolResponse, key: SignerKey)

  ghost function SignatureOf(c: Crypto, e: Entry): Option<Signature> {
    e.key.sign(c.MessageHash(e.response.data))
  }

  /** The bytes of an entry: header with truncated round and length, type 0, message, V, R, S, extra data. */
  ghost function EntryBytes(c: Crypto, currentEpoch: int, e: Entry): Bytes
    requires SignatureOf(c, e).Some?
  {
    [e.protocolId] + Uint32ToBytes((currentEpoch - 1) % 0x1_0000_0000)
    + Uint16ToBytes((104 + |e.response.additionalData|) % 0x1_0000)
    + ([0] + e.response.data + WireSignature(SignatureOf(c, e).value) + e.response.additionalData)
  }

  /** Type byte 0, message, V, R and S. */
  method WriteSigned(buffer: Buffer, data: Bytes, signature: Signature)
    modifies buffer
    ensures buffer.bytes == old(buffer.bytes) + ([0] + data + WireSignature(signature))
  {
    ghost var start := buffer.bytes;
    buffer.WriteByte(0);
    buffer.Write(data);
    assert buffer.bytes == start + ([0] + data);
    ghost var v: Bytes := [(signature[64] as int + 27) % 0x100];
    buffer.WriteByte((signature[64] as int + 27) % 0x100);
    buffer.Write(signature[0..32]);
    buffer.Write(signature[32..64]);
    assert buffer.bytes == start + ([0] + data) + (v + signature[0..32] + signature[32..64]);
  }

  method WritePayload(c: Crypto, buffer: Buffer, currentEpoch: int, data: SubProtocolResponse, protocolID: Byte, key: SignerKey)
    returns (ok: bool)
    modifies buffer
    ensures ok <==> SignatureOf(c, Entry(protocolID, data, key)).Some?
    ensures buffer.bytes == old(buffer.bytes) +
              if ok then EntryBytes(c, currentEpoch, Entry(protocolID, data, key)) else []
  {
    hide Uint32ToBytes, Uint16ToBytes, WireSignature;
    var signature := key.sign(c.MessageHash(data.data));
    if signature.None? {
      return false;
    }
    var epochBytes := Uint32ToBytes((currentEpoch - 1) % 0x1_0000_0000);
    var lengthBytes := Uint16ToBytes((104 + |data.additionalData|) % 0x1_0000);
    ghost var start := buffer.bytes;
    buffer.WriteByte(protocolID);
    buffer.Write(epochBytes);
    buffer.Write(lengthBytes);
    assert buffer.bytes == start + ([protocolID] + epochBytes + lengthBytes);
    ghost var header := [protocolID] + epochBytes + lengthBytes;
    ghost var signed := [0] + data.data + WireSignature(signature.value);
    WriteSigned(buffer, data.data, signature.value);
    buffer.Write(data.additionalData);
    Reassociate(start, header, signed, data.additionalData);
    ok := true;
  }

  /** Where the fields of a written entry are: protocol, round, length, type, message, V, R, S, extra data. */
  lemma EntryLayout(c: Crypto, currentEpoch: int, e: Entry)
    requires SignatureOf(c, e).Some? && |e.response.data| == 38
    ensures e.key.sign(c.textHash(c.keccak(e.response.data))).Some?
    ensures var b := EntryBytes(c, currentEpoch, e);
            var sig := e.key.sign(c.textHash(c.keccak(e.response.data))).value;
            && |b| == 111 + |e.response.additionalData|
            && b[0] == e.protocolId
            && b[1] as int * 0x100_0000 + b[2] as int * 0x1_0000 + b[3] as int * 0x100 + b[4]
               == (currentEpoch - 1) % 0x1_0000_0000
            && b[5] as int * 0x100 + b[6] == (|b| - 7) % 0x1_0000
            && b[7] == 0
            && b[8..46] == e.response.data
            && b[46] == (sig[64] as int + 27) % 0x100
            && b[47..79] == sig[..32]
            && b[79..111] == sig[32..64]
            && b[111..] == e.response.additionalData
  {
    hide BytesToUint32, BytesToUint16;
    var b := EntryBytes(c, currentEpoch, e);
    var r := Uint32ToBytes((currentEpoch - 1) % 0x1_0000_0000);
    var n := Uint16ToBytes((104 + |e.response.additionalData|) % 0x1_0000);
    assert b[1] == r[0] && b[2] == r[1] && b[3] == r[2] && b[4] == r[3];
    assert b[5] == n[0] && b[6] == n[1];
  }

  /** A response is accepted exactly if it is marked OK, is a message, and its entry's length fits the length field. */
  lemma VerifiedExactly(c: Crypto, currentEpoch: int, e: Entry)
    requires SignatureOf(c, e).Some?
    ensures Verified(e.response) <==>
              e.response.status == "OK" && |e.response.data| == 38 && |EntryBytes(c, currentEpoch, e)| - 7 <= 65535
  {
  }

  // ---------- Round trip ----------

  /** A response the verifier accepted and the key could sign. */
  ghost predicate Sendable(c: Crypto, e: Entry) {
    Verified(e.response) && SignatureOf(c, e).Some? && Recovers(c, e.key)
  }

  /** The random-quality byte of the message is one the decoder accepts; the verifier does not check it. */
  predicate QualityOk(e: Entry)
    requires Verified(e.response)
  {
    e.response.data[5] == 0 || e.response.data[5] == 1
  }

  /** The item the finalizer should see for an entry. */
  ghost function ItemFor(c: Crypto, currentEpoch: int, e: Entry): SubmitterPayloadItem
    requires Sendable(c, e) && QualityOk(e)
  {
    SubmitterPayloadItem(
      e.protocolId,
      (currentEpoch - 1) % 0x1_0000_0000,
      SignedPayload(0, DecodeSubmittedPayload(e.response.data).value, e.response.data,
                    WireSignature(SignatureOf(c, e).value), e.response.additionalData,
                    e.key.address, c.MessageHash(e.response.data), -1))
  }

  lemma EntryIsItem(c: Crypto, currentEpoch: int, e: Entry)
    requires Sendable(c, e) && QualityOk(e)
    ensures WellFormed(c, ItemFor(c, currentEpoch, e).payload)
    ensures EntryBytes(c, currentEpoch, e) == ItemBytes(ItemFor(c, currentEpoch, e))
  {
    hide Uint32ToBytes, Uint16ToBytes, MessageBytes;
    MessageCodec(e.response.data, DecodeSubmittedPayload(e.response.data).value);
    SignatureRoundTrip(SignatureOf(c, e).value);
  }

  lemma BadEntryRejected(c: Crypto, currentEpoch: int, m: Bytes, i: nat, e: Entry, rest: Bytes)
    requires i <= |m| && Sendable(c, e) && !QualityOk(e) && m[i..] == EntryBytes(c, currentEpoch, e) + rest
    ensures i < |m| && DecodeItem(c, m, i) == Err(InvalidRandomQualityScore(e.response.data[5]))
  {
    hide Uint32ToBytes;
    var b := EntryBytes(c, currentEpoch, e);
    var payload := [0] + e.response.data + WireSignature(SignatureOf(c, e).value) + e.response.additionalData;
    assert b[5..7] == Uint16ToBytes(|payload|) && b[7..] == payload;
    assert m[i + 5..i + 7] == b[5..7];
    assert m[i + 7..i + 7 + |payload|] == b[7..];
    assert payload[1..39] == e.response.data;
  }

  ghost function EntriesBytes(c: Crypto, currentEpoch: int, es: seq<Entry>): Bytes
    requires forall k :: 0 <= k < |es| ==> SignatureOf(c, es[k]).Some?
  {
    if es == [] then [] else EntryBytes(c, currentEpoch, es[0]) + EntriesBytes(c, currentEpoch, es[1..])
  }

  lemma {:induction false} AppendEntry(c: Crypto, currentEpoch: int, es: seq<Entry>, e: Entry)
    requires SignatureOf(c, e).Some? && forall k :: 0 <= k < |es| ==> SignatureOf(c, es[k]).Some?
    ensures EntriesBytes(c, currentEpoch, es + [e]) == EntriesBytes(c, currentEpoch, es) + EntryBytes(c, currentEpoch, e)
  {
    hide EntryBytes, SignatureOf;
    if es == [] {
      assert [e][1..] == [];
    } else {
      AppendEntry(c, currentEpoch, es[1..], e);
      assert (es + [e])[1..] == es[1..] + [e];
    }
  }

  ghost predicate AllSendable(c: Crypto, es: seq<Entry>) {
    forall k :: 0 <= k < |es| ==> Sendable(c, es[k])
  }

  ghost predicate AllQualityOk(es: seq<Entry>)
    requires forall k :: 0 <= k < |es| ==> Verified(es[k].response)
  {
    forall k :: 0 <= k < |es| ==> QualityOk(es[k])
  }

  ghost function ItemsFor(c: Crypto, currentEpoch: int, es: seq<Entry>): seq<SubmitterPayloadItem>
    requires AllSendable(c, es) && AllQualityOk(es)
  {
    seq(|es|, k requires 0 <= k < |es| => ItemFor(c, currentEpoch, es[k]))
  }

  lemma {:induction false} EntriesFrom(c: Crypto, currentEpoch: int, m: Bytes, i: nat, es: seq<Entry>)
    requires i <= |m| && AllSendable(c, es) && m[i..] == EntriesBytes(c, currentEpoch, es)
    ensures AllQualityOk(es) ==> DecodeFrom(c, m, i) == Ok(ItemsFor(c, currentEpoch, es))
    ensures !AllQualityOk(es) ==> DecodeFrom(c, m, i).Err?
    decreases |es|
  {
    hide EntryBytes, DecodeItem, ItemFor, WellFormed, ItemBytes, PayloadBytes, SignatureOf, Recovers, QualityOk;
    if es != [] {
      var rest := EntriesBytes(c, currentEpoch, es[1..]);
      if QualityOk(es[0]) {
        EntryIsItem(c, currentEpoch, es[0]);
        var item := ItemFor(c, currentEpoch, es[0]);
        DecodeItemBackward(c, m, i, item, rest);
        EntriesFrom(c, currentEpoch, m, i + 7 + |PayloadBytes(item.payload)|, es[1..]);
        if AllQualityOk(es[1..]) {
          assert ItemsFor(c, currentEpoch, es) == [item] + ItemsFor(c, currentEpoch, es[1..]);
        }
      } else {
        BadEntryRejected(c, currentEpoch, m, i, es[0], rest);
      }
    }
  }

  /**
   * Printing then parsing returns the same items in order -- protocol, round `currentEpoch - 1`
   * truncated to 32 bits, original signature and extra data -- exactly when every random-quality
   * byte is 0 or 1; a single other byte, which the verifier lets through, rejects the transaction.
   */
  lemma RoundTrip(c: Crypto, currentEpoch: int, selector: Bytes, es: seq<Entry>)
    requires |selector| == 4 && AllSendable(c, es)
    ensures Decoded(c, selector + EntriesBytes(c, currentEpoch, es)).Ok? <==> AllQualityOk(es)
    ensures AllQualityOk(es) ==>
              Decoded(c, selector + EntriesBytes(c, currentEpoch, es)) == Ok(ItemsFor(c, currentEpoch, es))
  {
    EntriesFrom(c, currentEpoch, selector + EntriesBytes(c, currentEpoch, es), 4, es);
  }

  /** The item seen by the reader carries the original R || S || V signature. */
  lemma {:induction false} OriginalSignature(c: Crypto, currentEpoch: int, e: Entry)
    requires Sendable(c, e) && QualityOk(e)
    ensures TransformSignature(ItemFor(c, currentEpoch, e).payload.signature) == SignatureOf(c, e).value
  {
    SignatureRoundTrip(SignatureOf(c, e).value);
  }

  // ---------- RunEpoch ----------

  /** Everything outside the program's control in one run: fetches, signing and submissions, by round. */
  datatype Outcomes = Outcomes(
    fetch: (nat, nat) -> Option<SubProtocolResponse>,
    key: (nat, nat) -> SignerKey,
    submit: nat -> bool)

  /** A submitted transaction: which sub-protocols (by position) contributed which entries. */
  datatype Tx = Tx(indices: seq<nat>, entries: seq<Entry>, payload: Bytes)

  function IndexSet(tx: Tx): set<nat> {
    set k | k in tx.indices
  }

  /** Positions increase, each entry is its sub-protocol's verified data, and the bytes are the printed entries. */
  ghost predicate GoodTx(c: Crypto, currentEpoch: int, selector: Bytes, subProtocols: seq<Byte>, tx: Tx) {
    && |tx.indices| == |tx.entries|
    && (forall k, l :: 0 <= k < l < |tx.indices| ==> tx.indices[k] < tx.indices[l])
    && (forall k :: 0 <= k < |tx.entries| ==>
          && tx.indices[k] < |subProtocols|
          && tx.entries[k].protocolId == subProtocols[tx.indices[k]]
          && Verified(tx.entries[k].response)
          && SignatureOf(c, tx.entries[k]).Some?)
    && tx.payload == selector + EntriesBytes(c, currentEpoch, tx.entries)
  }

  /** Every sub-protocol is either still to send or in exactly one successful transaction. */
  ghost predicate Partition(n: nat, toSend: set<nat>, sent: seq<Tx>) {
    && (forall i: nat :: i in toSend ==> i < n)
    && (forall k :: 0 <= k < |sent| ==> IndexSet(sent[k]) !! toSend && forall i :: i in IndexSet(sent[k]) ==> i < n)
    && (forall k, l :: 0 <= k < l < |sent| ==> IndexSet(sent[k]) !! IndexSet(sent[l]))
    && (forall i: nat :: i < n && i !in toSend ==> exists k :: 0 <= k < |sent| && i in IndexSet(sent[k]))
  }

  /** The state of a run between rounds. */
  ghost predicate Conserved(
    c: Crypto, currentEpoch: int, selector: Bytes, subProtocols: seq<Byte>, toSend: set<nat>, sent: seq<Tx>)
  {
    && Partition(|subProtocols|, toSend, sent)
    && forall k :: 0 <= k < |sent| ==>
         IndexSet(sent[k]) != {} && GoodTx(c, currentEpoch, selector, subProtocols, sent[k])
  }

  /** No data, unverified data, or data that could not be signed. */
  ghost predicate Failed(c: Crypto, subProtocols: seq<Byte>, out: Outcomes, round: nat, i: nat)
    requires i < |subProtocols|
  {
    var r := out.fetch(round, i);
    r.None? || !Verified(r.value) || SignatureOf(c, Entry(subProtocols[i], r.value, out.key(round, i))).None?
  }

  /** The sub-protocols left after `rounds` rounds: a round clears those that did not fail, if its submission succeeds. */
  ghost function Pending(c: Crypto, subProtocols: seq<Byte>, out: Outcomes, rounds: nat): (p: set<nat>)
    ensures forall i :: i in p ==> i < |subProtocols|
  {
    if rounds == 0 then Interval(0, |subProtocols|)
    else
      var before := Pending(c, subProtocols, out, rounds - 1);
      if out.submit(rounds - 1) then set i | i in before && Failed(c, subProtocols, out, rounds - 1, i) else before
  }

  lemma PendingStep(
    c: Crypto, subProtocols: seq<Byte>, out: Outcomes, round: nat, before: set<nat>, remaining: set<nat>)
    requires before == Pending(c, subProtocols, out, round) && remaining <= before
    requires forall i :: i in before ==> (i in remaining <==> Failed(c, subProtocols, out, round, i))
    ensures Pending(c, subProtocols, out, round + 1) == if out.submit(round) then remaining else before
  {
  }

  /** The entries of a transaction are what was fetched for its sub-protocols in this round, with the round's keys. */
  ghost predicate FromRound(subProtocols: seq<Byte>, out: Outcomes, round: nat, tx: Tx) {
    && |tx.indices| == |tx.entries|
    && forall k :: 0 <= k < |tx.entries| ==>
         && tx.indices[k] < |subProtocols|
         && out.fetch(round, tx.indices[k]).Some?
         && tx.entries[k] == Entry(subProtocols[tx.indices[k]], out.fetch(round, tx.indices[k]).value,
                                   out.key(round, tx.indices[k]))
  }

  lemma ExtendFromRound(
    subProtocols: seq<Byte>, out: Outcomes, round: nat, tx: Tx, i: nat, payload: Bytes)
    requires FromRound(subProtocols, out, round, tx) && i < |subProtocols| && out.fetch(round, i).Some?
    ensures var e := Entry(subProtocols[i], out.fetch(round, i).value, out.key(round, i));
            FromRound(subProtocols, out, round, Tx(tx.indices + [i], tx.entries + [e], payload))
  {
  }

  /** A sub-protocol's data arrived, passed the verifier and could be signed. */
  lemma FailedExactly(c: Crypto, subProtocols: seq<Byte>, out: Outcomes, round: nat, i: nat)
    requires i < |subProtocols|
    ensures !Failed(c, subProtocols, out, round, i) <==>
              && out.fetch(round, i).Some?
              && var r := out.fetch(round, i).value;
              && r.status == "OK" && |r.data| == 38 && 104 + |r.additionalData| <= 65535
              && out.key(round, i).sign(c.textHash(c.keccak(r.data))).Some?
  {
  }

  lemma ExtendTx(
    c: Crypto, currentEpoch: int, selector: Bytes, subProtocols: seq<Byte>, tx: Tx, i: nat, e: Entry, payload: Bytes)
    requires GoodTx(c, currentEpoch, selector, subProtocols, tx)
    requires i < |subProtocols| && (forall j :: j in IndexSet(tx) ==> j < i)
    requires e.protocolId == subProtocols[i] && Verified(e.response) && SignatureOf(c, e).Some?
    requires payload == tx.payload + EntryBytes(c, currentEpoch, e)
    ensures var tx' := Tx(tx.indices + [i], tx.entries + [e], payload);
            GoodTx(c, currentEpoch, selector, subProtocols, tx') && IndexSet(tx') == IndexSet(tx) + {i}
  {
    hide Verified, SignatureOf, EntryBytes, EntriesBytes;
    AppendEntry(c, currentEpoch, tx.entries, e);
    assert forall k :: 0 <= k < |tx.indices| ==> tx.indices[k] in IndexSet(tx);
    assert payload == selector + (EntriesBytes(c, currentEpoch, tx.entries) + EntryBytes(c, currentEpoch, e));
  }

  lemma EmptyTx(c: Crypto, currentEpoch: int, selector: Bytes, subProtocols: seq<Byte>)
    ensures var tx := Tx([], [], selector);
            GoodTx(c, currentEpoch, selector, subProtocols, tx) && IndexSet(tx) == {}
  {
  }

  lemma EmptyFromRound(subProtocols: seq<Byte>, out: Outcomes, round: nat, selector: Bytes)
    ensures FromRound(subProtocols, out, round, Tx([], [], selector))
  {
  }

  /** One round: print every pending protocol whose data arrives and can be signed. */
  method CollectRound(
    c: Crypto, currentEpoch: int, selector: Bytes, subProtocols: seq<Byte>, out: Outcomes, round: nat, toSend: set<nat>)
    returns (remaining: set<nat>, tx: Tx)
    requires forall i: nat :: i in toSend ==> i < |subProtocols|
    ensures GoodTx(c, currentEpoch, selector, subProtocols, tx)
    ensures IndexSet(tx) <= toSend && remaining == toSend - IndexSet(tx)
    ensures forall i :: i in toSend ==> (i in remaining <==> Failed(c, subProtocols, out, round, i))
    ensures FromRound(subProtocols, out, round, tx)
  {
    hide GoodTx, IndexSet, Verified, SignatureOf, EntryBytes, FromRound;
    var buffer := new Buffer();
    buffer.Write(selector);
    assert buffer.bytes == selector;
    remaining := toSend;
    tx := Tx([], [], buffer.bytes);
    EmptyTx(c, currentEpoch, selector, subProtocols);
    EmptyFromRound(subProtocols, out, round, selector);
    for i := 0 to |subProtocols|
      invariant tx.payload == buffer.bytes && GoodTx(c, currentEpoch, selector, subProtocols, tx)
      invariant IndexSet(tx) <= toSend && remaining == toSend - IndexSet(tx)
      invariant FromRound(subProtocols, out, round, tx)
      invariant forall j :: j in IndexSet(tx) ==> j < i
      invariant forall j :: j in toSend && j < i ==> (j in remaining <==> Failed(c, subProtocols, out, round, j))
    {
      if i !in remaining {
        continue;
      }
      var data := out.fetch(round, i);
      if data.None? || !Verified(data.value) {
        continue;
      }
      var entry := Entry(subProtocols[i], data.value, out.key(round, i));
      var ok := WritePayload(c, buffer, currentEpoch, data.value, subProtocols[i], out.key(round, i));
      if ok {
        ExtendTx(c, currentEpoch, selector, subProtocols, tx, i, entry, buffer.bytes);
        ExtendFromRound(subProtocols, out, round, tx, i, buffer.bytes);
        tx := Tx(tx.indices + [i], tx.entries + [entry], buffer.bytes);
        remaining := remaining - {i};
      } else {
        assert buffer.bytes == tx.payload + [];
      }
    }
  }

  lemma FewerAfterRemoval(a: set<nat>, b: set<nat>)
    requires b <= a
    ensures |a - b| < |a| <==> b != {}
  {
    assert a == (a - b) + b;
  }

  /** One round of fetching, printing and submitting; a failed submission restores the pending set. */
  method SendRound(
    c: Crypto, currentEpoch: int, selector: Bytes, subProtocols: seq<Byte>, out: Outcomes, round: nat,
    pending: set<nat>, sofar: seq<Tx>)
    returns (protocolsToSend: set<nat>, sent: seq<Tx>)
    requires Conserved(c, currentEpoch, selector, subProtocols, pending, sofar)
    requires pending == Pending(c, subProtocols, out, round)
    ensures Conserved(c, currentEpoch, selector, subProtocols, protocolsToSend, sent)
    ensures protocolsToSend == Pending(c, subProtocols, out, round + 1)
    ensures sofar <= sent && |sent| <= |sofar| + 1
    ensures |sent| > |sofar| ==> out.submit(round) && FromRound(subProtocols, out, round, sent[|sofar|])
  {
    hide Conserved, IndexSet, GoodTx, Failed, Pending, FromRound;
    var tx;
    protocolsToSend, tx := CollectRound(c, currentEpoch, selector, subProtocols, out, round, pending);
    PendingStep(c, subProtocols, out, round, pending, protocolsToSend);
    FewerAfterRemoval(pending, IndexSet(tx));
    sent := sofar;
    if |pending| > |protocolsToSend| {
      if out.submit(round) {
        AddSent(c, currentEpoch, selector, subProtocols, pending, sofar, tx);
        sent := sofar + [tx];
      } else {
        protocolsToSend := pending;
      }
    } else {
      assert protocolsToSend == pending;
    }
  }

  lemma StartConserved(
    c: Crypto, currentEpoch: int, selector: Bytes, subProtocols: seq<Byte>, out: Outcomes, toSend: set<nat>)
    requires forall j: nat :: j in toSend <==> j < |subProtocols|
    ensures Conserved(c, currentEpoch, selector, subProtocols, toSend, [])
    ensures toSend == Pending(c, subProtocols, out, 0)
  {
  }

  /** The transaction was submitted successfully in one of the first rounds, with what that round fetched. */
  ghost predicate SentWithin(subProtocols: seq<Byte>, out: Outcomes, rounds: nat, tx: Tx) {
    exists round: nat :: round < rounds && out.submit(round) && FromRound(subProtocols, out, round, tx)
  }

  ghost predicate SentInRounds(subProtocols: seq<Byte>, out: Outcomes, rounds: nat, sent: seq<Tx>) {
    forall k :: 0 <= k < |sent| ==> SentWithin(subProtocols, out, rounds, sent[k])
  }

  lemma OneMoreRound(subProtocols: seq<Byte>, out: Outcomes, round: nat, sofar: seq<Tx>, sent: seq<Tx>)
    requires SentInRounds(subProtocols, out, round, sofar) && sofar <= sent && |sent| <= |sofar| + 1
    requires |sent| > |sofar| ==> out.submit(round) && FromRound(subProtocols, out, round, sent[|sofar|])
    ensures SentInRounds(subProtocols, out, round + 1, sent)
  {
    hide FromRound;
    forall k | 0 <= k < |sent|
      ensures SentWithin(subProtocols, out, round + 1, sent[k])
    {
      if k < |sofar| {
        assert sofar[k] == sent[k];
        var r: nat :| r < round && out.submit(r) && FromRound(subProtocols, out, r, sofar[k]);
      }
    }
  }

  /**
   * Conservation over any pattern of outcomes: at most `maxRounds` rounds, ending early only when
   * nothing is left, and the sub-protocols in successful transactions and those left partition all.
   */
  method RunEpoch(
    c: Crypto, currentEpoch: int, selector: Bytes, subProtocols: seq<Byte>, maxRounds: int, out: Outcomes)
    returns (protocolsToSend: set<nat>, sent: seq<Tx>, rounds: nat)
    ensures Conserved(c, currentEpoch, selector, subProtocols, protocolsToSend, sent)
    ensures protocolsToSend == Pending(c, subProtocols, out, rounds)
    ensures rounds <= (if maxRounds < 0 then 0 else maxRounds)
    ensures rounds < maxRounds ==> protocolsToSend == {}
    ensures |sent| <= rounds
    ensures SentInRounds(subProtocols, out, rounds, sent)
  {
    protocolsToSend := {};
    for i := 0 to |subProtocols|
      invariant forall j: nat :: j in protocolsToSend <==> j < i
    {
      protocolsToSend := protocolsToSend + {i};
    }
    sent, rounds := [], 0;
    StartConserved(c, currentEpoch, selector, subProtocols, out, protocolsToSend);
    hide Conserved, Pending, FromRound;
    while rounds < maxRounds && |protocolsToSend| > 0
      invariant Conserved(c, currentEpoch, selector, subProtocols, protocolsToSend, sent)
      invariant protocolsToSend == Pending(c, subProtocols, out, rounds)
      invariant rounds <= (if maxRounds < 0 then 0 else maxRounds)
      invariant |sent| <= rounds
      invariant SentInRounds(subProtocols, out, rounds, sent)
    {
      ghost var sofar := sent;
      protocolsToSend, sent :=
        SendRound(c, currentEpoch, selector, subProtocols, out, rounds, protocolsToSend, sent);
      OneMoreRound(subProtocols, out, rounds, sofar, sent);
      rounds := rounds + 1;
    }
  }

  lemma AddToPartition(n: nat, toSend: set<nat>, sent: seq<Tx>, tx: Tx)
    requires Partition(n, toSend, sent) && IndexSet(tx) <= toSend
    ensures Partition(n, toSend - IndexSet(tx), sent + [tx])
  {
    var sent' := sent + [tx];
    forall i: nat | i < n && i !in toSend - IndexSet(tx)
      ensures exists k :: 0 <= k < |sent'| && i in IndexSet(sent'[k])
    {
      if i in IndexSet(tx) {
        assert sent'[|sent|] == tx;
      } else {
        var k :| 0 <= k < |sent| && i in IndexSet(sent[k]);
        assert sent'[k] == sent[k];
      }
    }
  }

  lemma {:induction false} AddSent(
    c: Crypto, currentEpoch: int, selector: Bytes, subProtocols: seq<Byte>, toSend: set<nat>, sent: seq<Tx>, tx: Tx)
    requires Conserved(c, currentEpoch, selector, subProtocols, toSend, sent)
    requires GoodTx(c, currentEpoch, selector, subProtocols, tx) && IndexSet(tx) != {} && IndexSet(tx) <= toSend
    ensures Conserved(c, currentEpoch, selector, subProtocols, toSend - IndexSet(tx), sent + [tx])
  {
    hide GoodTx;
    AddToPartition(|subProtocols|, toSend, sent, tx);
  }

  /** What a successful transaction means to the finalizer: one item per contributing sub-protocol. */
  lemma SentTxDecodes(c: Crypto, currentEpoch: int, selector: Bytes, subProtocols: seq<Byte>, tx: Tx)
    requires |selector| == 4 && GoodTx(c, currentEpoch, selector, subProtocols, tx)
    requires forall k :: 0 <= k < |tx.entries| ==> Recovers(c, tx.entries[k].key)
    ensures Decoded(c, tx.payload).Ok? <==> AllQualityOk(tx.entries)
    ensures AllQualityOk(tx.entries) ==>
              var items := Decoded(c, tx.payload).value;
              |items| == |tx.indices| &&
              forall k :: 0 <= k < |items| ==>
                && items[k].protocolId == subProtocols[tx.indices[k]]
                && items[k].votingRoundId == (currentEpoch - 1) % 0x1_0000_0000
                && items[k].payload.rawMessage == tx.entries[k].response.data
                && items[k].payload.signer == tx.entries[k].key.address
  {
    RoundTrip(c, currentEpoch, selector, tx.entries);
  }
}
