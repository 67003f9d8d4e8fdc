/** The relay contract's signature list (client/finalizer/finalizer_utils.go). */
module Relay {
  import opened Prelude
  import opened Encoding
  import opened Buffers
  import opened Payloads

  datatype RelayError = TooManyPayloads | IndexNotSet | NotSortedByIndex

  /** The first `n` indices are set and strictly increase. */
  ghost predicate IncreasingIndex(ps: seq<SignedPayload>, n: nat)
    requires n <= |ps|
  {
    && (forall k :: 0 <= k < n ==> ps[k].index >= 0)
    && (forall k, l :: 0 <= k < l < n ==> ps[k].index < ps[l].index)
  }

  function Record(p: SignedPayload): (r: Bytes)
    ensures |r| == 67
  {
    p.signature + Uint16ToBytes(p.index % 0x1_0000)
  }

  /** Signature then index, for each of the first `n` payloads in turn. */
  function Records(ps: seq<SignedPayload>, n: nat): (r: Bytes)
    requires n <= |ps|
    ensures |r| == 67 * n
  {
    if n == 0 then [] else Records(ps, n - 1) + Record(ps[n - 1])
  }

  function RelayBytes(ps: seq<SignedPayload>): Bytes {
    Uint16ToBytes(|ps| % 0x1_0000) + Records(ps, |ps|)
  }

  lemma NoneIncreasing(ps: seq<SignedPayload>)
    ensures IncreasingIndex(ps, 0)
  {
  }

  lemma OneMoreIndex(ps: seq<SignedPayload>, k: nat)
    requires k < |ps| && IncreasingIndex(ps, k)
    ensures IncreasingIndex(ps, k + 1) <==> ps[k].index >= 0 && (k > 0 ==> ps[k - 1].index < ps[k].index)
    ensures !IncreasingIndex(ps, k + 1) ==> !IncreasingIndex(ps, |ps|)
  {
  }

  /** Succeeds exactly on at most 65535 payloads with strictly increasing non-negative indices. */
  method EncodeForRelay(payloads: seq<SignedPayload>) returns (r: Result<Bytes, RelayError>)
    ensures r.Ok? <==> |payloads| <= 65535 && IncreasingIndex(payloads, |payloads|)
    ensures r.Ok? ==> r.value == RelayBytes(payloads)
    ensures |payloads| > 65535 ==> r == Err(TooManyPayloads)
  {
    hide Uint16ToBytes, IncreasingIndex;
    var buffer := new Buffer();
    if |payloads| > 65535 {
      return Err(TooManyPayloads);
    }
    var size := Uint16ToBytes(|payloads|);
    buffer.Write(size);
    assert buffer.bytes == size;
    var prevIndex := -1;
    assert IncreasingIndex(payloads, 0) by {
      NoneIncreasing(payloads);
    }
    for k := 0 to |payloads|
      invariant IncreasingIndex(payloads, k)
      invariant prevIndex == if k == 0 then -1 else payloads[k - 1].index
      invariant buffer.bytes == size + Records(payloads, k)
    {
      var payload := payloads[k];
      OneMoreIndex(payloads, k);
      if payload.index < 0 {
        return Err(IndexNotSet);
      }
      if prevIndex >= payload.index {
        return Err(NotSortedByIndex);
      }
      buffer.Write(payload.signature);
      buffer.Write(Uint16ToBytes(payload.index % 0x1_0000));
      Reassociate(size, Records(payloads, k), payload.signature, Uint16ToBytes(payload.index % 0x1_0000));
      prevIndex := payload.index;
    }
    return Ok(buffer.bytes);
  }

  lemma {:induction false} RecordAt(ps: seq<SignedPayload>, n: nat, k: nat)
    requires k < n <= |ps|
    ensures Records(ps, n)[67 * k..67 * k + 67] == Record(ps[k])
  {
    hide Record;
    if k < n - 1 {
      RecordAt(ps, n - 1, k);
    }
  }

  /** The reader of the contract recovers the count, every signature and every 16-bit index. */
  lemma RelayLayout(ps: seq<SignedPayload>, k: nat)
    requires |ps| <= 65535 && k < |ps| && 0 <= ps[k].index <= 65535
    ensures |RelayBytes(ps)| == 2 + 67 * |ps|
    ensures BytesToUint16(RelayBytes(ps)[..2]) == |ps|
    ensures RelayBytes(ps)[2 + 67 * k..2 + 67 * k + 65] == ps[k].signature
    ensures BytesToUint16(RelayBytes(ps)[2 + 67 * k + 65..2 + 67 * k + 67]) == ps[k].index
  {
    hide Records, Uint16ToBytes, BytesToUint16;
    RecordAt(ps, |ps|, k);
    var b, r := RelayBytes(ps), Record(ps[k]);
    assert b[..2] == Uint16ToBytes(|ps|) && b[2..] == Records(ps, |ps|);
    assert b[2 + 67 * k..2 + 67 * k + 67] == r;
    assert b[2 + 67 * k..2 + 67 * k + 65] == r[..65];
    assert b[2 + 67 * k + 65..2 + 67 * k + 67] == r[65..];
  }
}
