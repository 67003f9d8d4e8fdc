/** The `submitSignatures` wire format as the finalizer reads it (client/finalizer/finalizer_utils.go). */
module Payloads {
  import opened Prelude
  import opened Encoding

  /** Keccak-256, the EIP-191 text hash and public-key recovery, left uninterpreted. */
  datatype Crypto = Crypto(
    keccak: Bytes -> Hash,
    textHash: Hash -> Hash,
    recover: (Hash, Signature) -> Option<Address>)
  {
    function MessageHash(rawMessage: Bytes): Hash {
      textHash(keccak(rawMessage))
    }
  }

  datatype SubmittedPayload = SubmittedPayload(
    protocolId: Byte,
    votingRoundId: Uint32,
    randomQualityScore: bool,
    merkleRoot: Hash)

  datatype SignedPayload = SignedPayload(
    typeId: Byte,
    message: SubmittedPayload,
    rawMessage: Bytes,
    signature: Signature,
    additionalData: Bytes,
    signer: Address,
    messageHash: Hash,
    index: int)

  datatype SubmitterPayloadItem = SubmitterPayloadItem(
    protocolId: Byte,
    votingRoundId: Uint32,
    payload: SignedPayload)

  datatype DecodeError =
    | InvalidLength(at: nat, length: nat)
    | PayloadTooShort
    | InvalidRandomQualityScore(value: Byte)
    | InvalidSignature

  // ---------- Decoding ----------

  /** From [V || R || S] to [R || S || V - 27], the byte subtraction wrapping. */
  function TransformSignature(signature: Signature): Signature {
    signature[1..33] + signature[33..65] + [(signature[0] as int - 27) % 0x100]
  }

  function DecodeSubmittedPayload(payload: Bytes): Result<SubmittedPayload, DecodeError> {
    if |payload| < 38 then Err(PayloadTooShort)
    else if payload[5] != 0 && payload[5] != 1 then Err(InvalidRandomQualityScore(payload[5]))
    else Ok(SubmittedPayload(payload[0], BytesToUint32(payload[1..5]), payload[5] == 1, payload[6..38]))
  }

  function DecodeSignedPayload(c: Crypto, payload: Bytes): Result<SignedPayload, DecodeError> {
    if |payload| < 104 then Err(PayloadTooShort)
    else
      var rawMessage := payload[1..39];
      var message := DecodeSubmittedPayload(rawMessage);
      if message.Err? then Err(message.error)
      else
        var signature: Signature := payload[39..104];
        var messageHash := c.MessageHash(rawMessage);
        var signer := c.recover(messageHash, TransformSignature(signature));
        if signer.None? then Err(InvalidSignature)
        else Ok(SignedPayload(payload[0], message.value, rawMessage, signature, payload[104..],
                              signer.value, messageHash, -1))
  }

  /** One item at cursor `i`, with the cursor after it. */
  function DecodeItem(c: Crypto, message: Bytes, i: nat): (r: Result<(SubmitterPayloadItem, nat), DecodeError>)
    requires i < |message|
    ensures r.Ok? ==> i < r.value.1 <= |message|
  {
    if |message| - i < 7 then Err(InvalidLength(i, |message|))
    else
      var length := BytesToUint16(message[i + 5..i + 7]);
      if |message| - (i + 7) < length then Err(PayloadTooShort)
      else
        var payload := DecodeSignedPayload(c, message[i + 7..i + 7 + length]);
        if payload.Err? then Err(payload.error)
        else Ok((SubmitterPayloadItem(message[i], BytesToUint32(message[i + 1..i + 5]), payload.value), i + 7 + length))
  }

  /** All items from cursor `i` on; one bad item rejects the message. */
  function DecodeFrom(c: Crypto, message: Bytes, i: nat): Result<seq<SubmitterPayloadItem>, DecodeError>
    decreases |message| - i
  {
    if i >= |message| then Ok([])
    else
      var item := DecodeItem(c, message, i);
      if item.Err? then Err(item.error) else Prepend([item.value.0], DecodeFrom(c, message, item.value.1))
  }

  function Prepend<T, E>(front: seq<T>, r: Result<seq<T>, E>): Result<seq<T>, E> {
    if r.Err? then r else Ok(front + r.value)
  }

  /** What the finalizer makes of a transaction input: a 4-byte selector, then items. */
  function Decoded(c: Crypto, message: Bytes): Result<seq<SubmitterPayloadItem>, DecodeError> {
    DecodeFrom(c, message, 4)
  }

  /** The decoding loop stays in bounds and ends on every byte string. */
  method DecodeSubmitterPayload(c: Crypto, message: Bytes) returns (r: Result<seq<SubmitterPayloadItem>, DecodeError>)
    ensures r == Decoded(c, message)
  {
    hide DecodeItem;
    if |message| == 0 {
      return Ok([]);
    }
    var messages: seq<SubmitterPayloadItem> := [];
    var i := 4;
    PrependNothing(Decoded(c, message));
    while i < |message|
      invariant Decoded(c, message) == Prepend(messages, DecodeFrom(c, message, i))
    {
      var item := DecodeItem(c, message, i);
      if item.Err? {
        return Err(item.error);
      }
      Regroup(messages, item.value.0, DecodeFrom(c, message, item.value.1));
      messages := messages + [item.value.0];
      i := item.value.1;
    }
    assert messages + [] == messages;
    r := Ok(messages);
  }

  lemma PrependNothing<T, E>(r: Result<seq<T>, E>)
    ensures Prepend([], r) == r
  {
    if r.Ok? {
      assert [] + r.value == r.value;
    }
  }

  lemma Regroup<T, E>(front: seq<T>, x: T, r: Result<seq<T>, E>)
    ensures Prepend(front, Prepend([x], r)) == Prepend(front + [x], r)
  {
    if r.Ok? {
      assert front + ([x] + r.value) == front + [x] + r.value;
    }
  }

  // ---------- Encoding, and the two directions ----------

  function MessageBytes(m: SubmittedPayload): Bytes {
    [m.protocolId] + Uint32ToBytes(m.votingRoundId) + [if m.randomQualityScore then 1 else 0] + m.merkleRoot
  }

  function PayloadBytes(p: SignedPayload): Bytes {
    [p.typeId] + p.rawMessage + p.signature + p.additionalData
  }

  function ItemBytes(item: SubmitterPayloadItem): Bytes {
    var payload := PayloadBytes(item.payload);
    [item.protocolId] + Uint32ToBytes(item.votingRoundId) + Uint16ToBytes(|payload| % 0x1_0000) + payload
  }

  function ItemsBytes(items: seq<SubmitterPayloadItem>): Bytes {
    if items == [] then [] else ItemBytes(items[0]) + ItemsBytes(items[1..])
  }

  /** The signature is the recovered signer's, on the hash of exactly these 38 message bytes. */
  ghost predicate Authentic(c: Crypto, p: SignedPayload) {
    && p.rawMessage == MessageBytes(p.message)
    && p.messageHash == c.MessageHash(p.rawMessage)
    && c.recover(p.messageHash, TransformSignature(p.signature)) == Some(p.signer)
  }

  ghost predicate WellFormed(c: Crypto, p: SignedPayload) {
    Authentic(c, p) && p.index == -1 && |PayloadBytes(p)| <= 65535
  }

  ghost predicate AllWellFormed(c: Crypto, items: seq<SubmitterPayloadItem>) {
    forall k :: 0 <= k < |items| ==> WellFormed(c, items[k].payload)
  }

  /** Where the fields of a message are: protocol, round, quality, root. */
  lemma MessageLayout(m: SubmittedPayload)
    ensures var b := MessageBytes(m);
            && |b| == 38
            && b[0] == m.protocolId
            && b[1] as int * 0x100_0000 + b[2] as int * 0x1_0000 + b[3] as int * 0x100 + b[4] == m.votingRoundId
            && b[5] == (if m.randomQualityScore then 1 else 0)
            && b[6..38] == m.merkleRoot
  {
    hide BytesToUint32;
    var b, r := MessageBytes(m), Uint32ToBytes(m.votingRoundId);
    assert b[1] == r[0] && b[2] == r[1] && b[3] == r[2] && b[4] == r[3];
  }

  lemma PayloadLayout(p: SignedPayload)
    requires |p.rawMessage| == 38
    ensures var b := PayloadBytes(p);
            && |b| == 104 + |p.additionalData|
            && b[0] == p.typeId && b[1..39] == p.rawMessage && b[39..104] == p.signature && b[104..] == p.additionalData
  {
  }

  /** Where the fields of an item are: protocol, round, length, type, message, V, R and S, extra data. */
  lemma {:induction false} ItemLayout(c: Crypto, item: SubmitterPayloadItem)
    requires WellFormed(c, item.payload)
    ensures var b, p := ItemBytes(item), item.payload;
            && |b| == 111 + |p.additionalData|
            && b[0] == item.protocolId
            && b[1] as int * 0x100_0000 + b[2] as int * 0x1_0000 + b[3] as int * 0x100 + b[4] == item.votingRoundId
            && b[5] as int * 0x100 + b[6] == |b| - 7
            && b[7] == p.typeId
            && b[8..46] == p.rawMessage
            && b[46..111] == p.signature
            && b[111..] == p.additionalData
  {
    hide BytesToUint32, BytesToUint16, MessageBytes, PayloadBytes, Uint32ToBytes, Uint16ToBytes;
    MessageLayout(item.payload.message);
    PayloadLayout(item.payload);
    var b, payload := ItemBytes(item), PayloadBytes(item.payload);
    var r, n := Uint32ToBytes(item.votingRoundId), Uint16ToBytes(|payload|);
    assert b == [item.protocolId] + r + n + payload;
    assert b[1] == r[0] && b[2] == r[1] && b[3] == r[2] && b[4] == r[3];
    assert b[5] == n[0] && b[6] == n[1];
    assert b[7..] == payload;
    assert b[8..46] == payload[1..39] && b[46..111] == payload[39..104] && b[111..] == payload[104..];
  }

  /** An item's signature, as R, S and V - 27, recovers to its signer on the text hash of the Keccak hash of its message. */
  lemma {:induction false} ItemIsSigned(c: Crypto, item: SubmitterPayloadItem)
    requires WellFormed(c, item.payload)
    ensures var b, p := ItemBytes(item), item.payload;
            && |b| >= 111
            && p.messageHash == c.textHash(c.keccak(b[8..46]))
            && c.recover(p.messageHash, b[47..79] + b[79..111] + [(b[46] as int - 27) % 0x100]) == Some(p.signer)
  {
    hide ItemBytes, MessageBytes, PayloadBytes;
    ItemLayout(c, item);
    var b, s := ItemBytes(item), item.payload.signature;
    assert b[47..79] == b[46..111][1..33] && b[79..111] == b[46..111][33..65] && b[46] == b[46..111][0];
  }

  /** The 38-byte message decodes exactly to what it encodes. */
  lemma MessageCodec(b: Bytes, m: SubmittedPayload)
    requires |b| == 38
    ensures DecodeSubmittedPayload(b) == Ok(m) <==> b == MessageBytes(m)
  {
    if DecodeSubmittedPayload(b) == Ok(m) {
      Uint32Canonical(b[1..5]);
      assert b == [b[0]] + b[1..5] + [b[5]] + b[6..38];
    }
    if b == MessageBytes(m) {
      assert b[1..5] == Uint32ToBytes(m.votingRoundId);
      assert b[6..38] == m.merkleRoot;
    }
  }

  lemma PayloadCodec(c: Crypto, b: Bytes, p: SignedPayload)
    ensures DecodeSignedPayload(c, b) == Ok(p) <==> Authentic(c, p) && p.index == -1 && b == PayloadBytes(p)
  {
    if DecodeSignedPayload(c, b) == Ok(p) {
      MessageCodec(b[1..39], p.message);
      assert b == [b[0]] + b[1..39] + b[39..104] + b[104..];
    }
    if Authentic(c, p) && p.index == -1 && b == PayloadBytes(p) {
      assert b[1..39] == p.rawMessage;
      MessageCodec(b[1..39], p.message);
      assert b[39..104] == p.signature;
      assert b[104..] == p.additionalData;
    }
  }

  lemma ItemSlices(b: Bytes, item: SubmitterPayloadItem, rest: Bytes)
    requires b == ItemBytes(item) + rest
    ensures var n := |PayloadBytes(item.payload)|;
            && |b| >= 7 + n
            && b[0] == item.protocolId
            && b[1..5] == Uint32ToBytes(item.votingRoundId)
            && b[5..7] == Uint16ToBytes(n % 0x1_0000)
            && b[7..7 + n] == PayloadBytes(item.payload)
            && b[7 + n..] == rest
  {
  }

  lemma {:induction false} DecodeItemForward(c: Crypto, m: Bytes, i: nat, item: SubmitterPayloadItem, next: nat)
    requires i < |m| && DecodeItem(c, m, i) == Ok((item, next))
    ensures WellFormed(c, item.payload) && m[i..] == ItemBytes(item) + m[next..]
  {
    hide DecodeSignedPayload, Authentic, PayloadBytes, Uint32ToBytes, Uint16ToBytes;
    var payload := m[i + 7..next];
    PayloadCodec(c, payload, item.payload);
    Uint32Canonical(m[i + 1..i + 5]);
    Uint16Canonical(m[i + 5..i + 7]);
    assert m[i..] == [m[i]] + m[i + 1..i + 5] + m[i + 5..i + 7] + payload + m[next..];
  }

  lemma DecodeItemBackward(c: Crypto, m: Bytes, i: nat, item: SubmitterPayloadItem, rest: Bytes)
    requires i <= |m| && WellFormed(c, item.payload) && m[i..] == ItemBytes(item) + rest
    ensures i < |m|
    ensures var next := i + 7 + |PayloadBytes(item.payload)|;
            next <= |m| && m[next..] == rest && DecodeItem(c, m, i) == Ok((item, next))
  {
    hide DecodeSignedPayload, Authentic, PayloadBytes, Uint32ToBytes, Uint16ToBytes, ItemBytes;
    var b := m[i..];
    var n := |PayloadBytes(item.payload)|;
    ItemSlices(b, item, rest);
    assert m[i + 1..i + 5] == b[1..5] && m[i + 5..i + 7] == b[5..7];
    assert m[i + 7..i + 7 + n] == b[7..7 + n] && m[i + 7 + n..] == b[7 + n..];
    PayloadCodec(c, m[i + 7..i + 7 + n], item.payload);
  }

  lemma {:induction false} DecodeFromCanonical(c: Crypto, m: Bytes, i: nat, items: seq<SubmitterPayloadItem>)
    requires i <= |m| && DecodeFrom(c, m, i) == Ok(items)
    ensures AllWellFormed(c, items) && m[i..] == ItemsBytes(items)
    decreases |m| - i
  {
    if i < |m| {
      var (item, next) := DecodeItem(c, m, i).value;
      DecodeItemForward(c, m, i, item, next);
      DecodeFromCanonical(c, m, next, items[1..]);
      assert items == [item] + items[1..];
    }
  }

  lemma {:induction false} DecodeFromComplete(c: Crypto, m: Bytes, i: nat, items: seq<SubmitterPayloadItem>)
    requires i <= |m| && AllWellFormed(c, items) && m[i..] == ItemsBytes(items)
    ensures DecodeFrom(c, m, i) == Ok(items)
    decreases |items|
  {
    hide DecodeItem, PayloadBytes, ItemBytes, WellFormed;
    if items != [] {
      DecodeItemBackward(c, m, i, items[0], ItemsBytes(items[1..]));
      DecodeFromComplete(c, m, i + 7 + |PayloadBytes(items[0].payload)|, items[1..]);
      assert items == [items[0]] + items[1..];
    }
  }

  /**
   * Decoder and encoder are inverse: an input with a selector is accepted with result `items`
   * exactly when it is that selector followed by the encoding of `items`, all of them authentic.
   */
  lemma DecodesExactly(c: Crypto, m: Bytes, items: seq<SubmitterPayloadItem>)
    requires |m| >= 4
    ensures Decoded(c, m) == Ok(items) <==> AllWellFormed(c, items) && m == m[..4] + ItemsBytes(items)
  {
    if Decoded(c, m) == Ok(items) {
      DecodeFromCanonical(c, m, 4, items);
      assert m == m[..4] + m[4..];
    }
    if AllWellFormed(c, items) && m == m[..4] + ItemsBytes(items) {
      assert m[4..] == ItemsBytes(items);
      DecodeFromComplete(c, m, 4, items);
    }
  }

  /** Inputs shorter than a selector carry no items and are not errors. */
  lemma {:induction false} ShortInputsAreEmpty(c: Crypto, m: Bytes)
    requires |m| <= 4
    ensures Decoded(c, m) == Ok([])
  {
  }

  /** Two authentic payloads with one message hash carry the same 38 bytes, or their hash collides. */
  lemma SameHashSameMessage(c: Crypto, p: SignedPayload, q: SignedPayload)
    requires Authentic(c, p) && Authentic(c, q) && p.messageHash == q.messageHash
    ensures (p.rawMessage == q.rawMessage && p.message == q.message)
            || (p.rawMessage != q.rawMessage && c.MessageHash(p.rawMessage) == c.MessageHash(q.rawMessage))
  {
    if p.rawMessage == q.rawMessage {
      MessageCodec(p.rawMessage, p.message);
      MessageCodec(q.rawMessage, q.message);
    }
  }
}
