/** Merkle trees in heap layout, with sorted pairs (utils/merkle/merkle.go). */
module Merkle {
  import opened Prelude
  import opened Encoding
  import opened HexOrder
  import opened Sorting

  type Keccak = Bytes -> Hash

  datatype Error = EmptyTree | InvalidIndex | HashNotFound

  /** The 64 bytes hashed for a pair: the smaller hash first. */
  function PairBytes(x: Hash, y: Hash): (b: Bytes)
    ensures |b| == 64
  {
    if HexLe(x, y) then x + y else y + x
  }

  function SortedHashPair(k: Keccak, x: Hash, y: Hash): Hash {
    k(PairBytes(x, y))
  }

  lemma PairBytesSymmetric(x: Hash, y: Hash)
    ensures PairBytes(x, y) == PairBytes(y, x)
  {
    HexTotal(x, y);
    if HexLe(x, y) && HexLe(y, x) {
      HexAntisymmetric(x, y);
    }
  }

  /** The hashed bytes determine the unordered pair. */
  lemma PairBytesInjective(x: Hash, y: Hash, u: Hash, v: Hash)
    requires PairBytes(x, y) == PairBytes(u, v)
    ensures (x == u && y == v) || (x == v && y == u)
  {
    var b := PairBytes(x, y);
    assert b[..32] == (if HexLe(x, y) then x else y) && b[32..] == (if HexLe(x, y) then y else x);
    assert b[..32] == (if HexLe(u, v) then u else v) && b[32..] == (if HexLe(u, v) then v else u);
  }

  /** The first half of the hashed bytes is the smaller number. */
  lemma PairInOrder(x: Hash, y: Hash)
    ensures var b := PairBytes(x, y);
            && HexLe(b[..32], b[32..])
            && BigEndian(b, 32) <= BigEndian(b[32..], 32)
            && (BigEndian(x, 32) <= BigEndian(y, 32) ==> b == x + y)
            && (BigEndian(y, 32) <= BigEndian(x, 32) ==> b == y + x)
  {
    hide BigEndian, HexLe;
    var b := PairBytes(x, y);
    HexTotal(x, y);
    HexIsNumeric(x, y);
    HexIsNumeric(y, x);
    assert (b[..32] == x && b[32..] == y) || (b[..32] == y && b[32..] == x);
    SamePrefix(b, b[..32], 32);
    if HexLe(x, y) && HexLe(y, x) {
      HexAntisymmetric(x, y);
    }
  }

  // ---------- The tree ----------

  function HashCount(t: seq<Hash>): nat {
    if |t| == 0 then 0 else (|t| + 1) / 2
  }

  function Left(i: nat): nat {
    2 * i + 1
  }

  function Right(i: nat): nat {
    2 * i + 2
  }

  /** A heap-shaped tree: an odd number of nodes, each inner node the pair hash of its children. */
  ghost predicate WellFormed(k: Keccak, t: seq<Hash>) {
    && |t| % 2 == 1
    && forall i {:trigger Left(i)} :: 0 <= i < HashCount(t) - 1 ==> t[i] == SortedHashPair(k, t[Left(i)], t[Right(i)])
  }

  function SortedHashes(t: seq<Hash>): seq<Hash>
    requires |t| == 0 || |t| % 2 == 1
  {
    if |t| == 0 then [] else t[HashCount(t) - 1..]
  }

  ghost function Mapped(k: Keccak, hashes: seq<Hash>): seq<Hash> {
    seq(|hashes|, i requires 0 <= i < |hashes| => k(hashes[i]))
  }

  /** A node over two children hashes them with the smaller number first. */
  ghost predicate NodeOver(k: Keccak, node: Hash, l: Hash, r: Hash) {
    && (BigEndian(l, 32) <= BigEndian(r, 32) ==> node == k(l + r))
    && (BigEndian(r, 32) <= BigEndian(l, 32) ==> node == k(r + l))
  }

  lemma InnerNodes(k: Keccak, t: seq<Hash>)
    requires WellFormed(k, t)
    ensures forall i :: 0 <= i < HashCount(t) - 1 ==> NodeOver(k, t[i], t[2 * i + 1], t[2 * i + 2])
  {
    hide PairBytes, BigEndian;
    forall i | 0 <= i < HashCount(t) - 1
      ensures NodeOver(k, t[i], t[2 * i + 1], t[2 * i + 2])
    {
      assert t[i] == SortedHashPair(k, t[Left(i)], t[Right(i)]);
      PairInOrder(t[2 * i + 1], t[2 * i + 2]);
    }
  }

  method MapSingleHash(k: Keccak, hashes: seq<Hash>) returns (output: seq<Hash>)
    ensures output == Mapped(k, hashes)
  {
    output := [];
    for i := 0 to |hashes|
      invariant |output| == i
      invariant forall j :: 0 <= j < i ==> output[j] == k(hashes[j])
    {
      output := output + [k(hashes[i])];
    }
  }

  ghost predicate Sorted(s: seq<Hash>) {
    forall i, j :: 0 <= i < j < |s| ==> HexLe(s[i], s[j])
  }

  method SortHashes(hashes: seq<Hash>) returns (r: seq<Hash>)
    ensures Sorted(r) && multiset(r) == multiset(hashes)
  {
    var le := (x: Hash, y: Hash) => HexLe(x, y);
    forall x: Hash, y: Hash
      ensures le(x, y) || le(y, x)
    {
      HexTotal(x, y);
    }
    forall x: Hash, y: Hash, z: Hash | le(x, y) && le(y, z)
      ensures le(x, z)
    {
      HexTransitive(x, y, z);
    }
    r := Sort(hashes, le);
  }

  /** Lays the sorted leaves out behind n-1 inner nodes and fills those from the back. */
  method FillTree(k: Keccak, leaves: seq<Hash>) returns (t: seq<Hash>)
    requires |leaves| >= 1
    ensures WellFormed(k, t) && HashCount(t) == |leaves| && SortedHashes(t) == leaves
  {
    hide SortedHashPair;
    var n := |leaves|;
    var tree := new Hash[2 * n - 1](_ => leaves[0]);
    for i := 0 to n
      invariant forall j :: 0 <= j < i ==> tree[n - 1 + j] == leaves[j]
    {
      tree[n - 1 + i] := leaves[i];
    }
    for i := n - 1 downto 0
      invariant forall j :: 0 <= j < n ==> tree[n - 1 + j] == leaves[j]
      invariant forall j {:trigger Left(j)} ::
                  i <= j < n - 1 ==> tree[j] == SortedHashPair(k, tree[Left(j)], tree[Right(j)])
    {
      tree[i] := SortedHashPair(k, tree[Left(i)], tree[Right(i)]);
    }
    t := tree[..];
    assert forall j {:trigger leaves[j]} :: 0 <= j < n ==> t[n - 1..][j] == leaves[j];
  }

  /** Without initial hashing the caller's slice is left sorted; with it, the slice is untouched. */
  method Build(k: Keccak, hashes: array<Hash>, initialHash: bool) returns (t: seq<Hash>)
    requires hashes.Length >= 1
    modifies hashes
    ensures WellFormed(k, t) && HashCount(t) == hashes.Length && Sorted(SortedHashes(t))
    ensures forall i :: 0 <= i < hashes.Length - 1 ==> NodeOver(k, t[i], t[2 * i + 1], t[2 * i + 2])
    ensures initialHash ==>
              && hashes[..] == old(hashes[..])
              && multiset(SortedHashes(t)) == multiset(Mapped(k, hashes[..]))
    ensures !initialHash ==>
              && hashes[..] == SortedHashes(t)
              && multiset(SortedHashes(t)) == multiset(old(hashes[..]))
  {
    var source := hashes[..];
    if initialHash {
      source := MapSingleHash(k, hashes[..]);
    }
    var leaves := SortHashes(source);
    SameLength(leaves, source);
    t := FillTree(k, leaves);
    InnerNodes(k, t);
    if !initialHash {
      for i := 0 to hashes.Length
        invariant forall j :: 0 <= j < i ==> hashes[j] == leaves[j]
      {
        hashes[i] := leaves[i];
      }
      assert hashes[..] == leaves;
    }
  }

  lemma SameLength(a: seq<Hash>, b: seq<Hash>)
    requires multiset(a) == multiset(b)
    ensures |a| == |b|
  {
    assert |multiset(a)| == |multiset(b)|;
  }

  method Root(t: seq<Hash>) returns (r: Result<Hash, Error>)
    ensures r == if |t| == 0 then Err(EmptyTree) else Ok(t[0])
  {
    if |t| == 0 {
      return Err(EmptyTree);
    }
    return Ok(t[0]);
  }

  // ---------- Proofs ----------

  function Parent(pos: nat): nat
    requires pos > 0
  {
    (pos - 1) / 2
  }

  function Sibling(pos: nat): nat
    requires pos > 0
  {
    pos + 2 * (pos % 2) - 1
  }

  /** The siblings on the way from a node to the root. */
  function ProofAt(t: seq<Hash>, pos: nat): seq<Hash>
    requires pos < |t| && |t| % 2 == 1
  {
    if pos == 0 then [] else [t[Sibling(pos)]] + ProofAt(t, Parent(pos))
  }

  /** The running hash of verification. */
  function Fold(k: Keccak, hash: Hash, proof: seq<Hash>): Hash
    decreases |proof|
  {
    if proof == [] then hash else Fold(k, SortedHashPair(k, proof[0], hash), proof[1..])
  }

  method GetProof(t: seq<Hash>, i: int) returns (r: Result<seq<Hash>, Error>)
    requires |t| == 0 || |t| % 2 == 1
    ensures r.Err? <==> !(0 <= i < HashCount(t))
    ensures r.Err? ==> r.error == InvalidIndex
    ensures r.Ok? ==> r.value == ProofAt(t, HashCount(t) - 1 + i)
  {
    var numLeaves := HashCount(t);
    if numLeaves == 0 || i < 0 || i >= numLeaves {
      return Err(InvalidIndex);
    }
    var proof: seq<Hash> := [];
    var pos := |t| - numLeaves + i;
    ghost var start := pos;
    while pos > 0
      invariant 0 <= pos < |t|
      invariant proof + ProofAt(t, pos) == ProofAt(t, start)
    {
      assert proof + [t[Sibling(pos)]] + ProofAt(t, Parent(pos)) == proof + ProofAt(t, pos);
      proof := proof + [t[Sibling(pos)]];
      pos := Parent(pos);
    }
    assert proof + [] == proof;
    return Ok(proof);
  }

  /** `sort.Search` over the leaves for the first one not below `hash`. */
  method BinarySearch(t: seq<Hash>, hash: Hash) returns (r: Result<nat, Error>)
    requires |t| == 0 || (|t| % 2 == 1 && Sorted(SortedHashes(t)))
    ensures r.Ok? <==> hash in SortedHashes(t)
    ensures r.Ok? ==> r.value < HashCount(t) && SortedHashes(t)[r.value] == hash
    ensures r.Err? ==> r.error == HashNotFound
  {
    hide HexLe;
    var leaves := SortedHashes(t);
    var lo, hi := 0, |leaves|;
    while lo < hi
      invariant 0 <= lo <= hi <= |leaves|
      invariant forall j :: 0 <= j < lo ==> !HexLe(hash, leaves[j])
      invariant forall j :: hi <= j < |leaves| ==> HexLe(hash, leaves[j])
    {
      var mid := (lo + hi) / 2;
      if HexLe(hash, leaves[mid]) {
        forall j | mid <= j < |leaves|
          ensures HexLe(hash, leaves[j])
        {
          if mid < j {
            HexTransitive(hash, leaves[mid], leaves[j]);
          }
        }
        hi := mid;
      } else {
        forall j | 0 <= j <= mid
          ensures !HexLe(hash, leaves[j])
        {
          if j < mid && HexLe(hash, leaves[j]) {
            HexTransitive(hash, leaves[j], leaves[mid]);
          }
        }
        lo := mid + 1;
      }
    }
    if lo < |leaves| && leaves[lo] == hash {
      return Ok(lo);
    }
    NotThere(leaves, hash, lo);
    return Err(HashNotFound);
  }

  lemma NotThere(leaves: seq<Hash>, hash: Hash, lo: nat)
    requires Sorted(leaves) && lo <= |leaves|
    requires forall j :: 0 <= j < lo ==> !HexLe(hash, leaves[j])
    requires lo < |leaves| ==> HexLe(hash, leaves[lo]) && leaves[lo] != hash
    ensures hash !in leaves
  {
    hide HexLe;
    HexTotal(hash, hash);
    if hash in leaves {
      var j :| 0 <= j < |leaves| && leaves[j] == hash;
      HexAntisymmetric(hash, leaves[lo]);
      assert false;
    }
  }

  method GetProofFromHash(t: seq<Hash>, hash: Hash) returns (r: Result<seq<Hash>, Error>)
    requires |t| == 0 || (|t| % 2 == 1 && Sorted(SortedHashes(t)))
    ensures r.Ok? <==> hash in SortedHashes(t)
    ensures r.Ok? ==> exists pos :: HashCount(t) - 1 <= pos < |t| && t[pos] == hash && r.value == ProofAt(t, pos)
    ensures r.Err? ==> r.error == HashNotFound
  {
    var i := BinarySearch(t, hash);
    if i.Err? {
      return Err(i.error);
    }
    assert t[HashCount(t) - 1 + i.value] == hash;
    r := GetProof(t, i.value);
  }

  method VerifyProof(k: Keccak, leaf: Hash, proof: seq<Hash>, root: Hash) returns (ok: bool)
    ensures ok <==> Fold(k, leaf, proof) == root
  {
    var hash := leaf;
    for j := 0 to |proof|
      invariant Fold(k, leaf, proof) == Fold(k, hash, proof[j..])
    {
      hash := SortedHashPair(k, proof[j], hash);
    }
    ok := hash == root;
  }

  // ---------- Completeness ----------

  /** Every node is provable: its siblings lead from its value to the root. */
  lemma {:induction false} ProofComplete(k: Keccak, t: seq<Hash>, pos: nat)
    requires WellFormed(k, t) && pos < |t|
    ensures Fold(k, t[pos], ProofAt(t, pos)) == t[0]
  {
    if pos > 0 {
      var up := Parent(pos);
      PairBytesSymmetric(t[Sibling(pos)], t[pos]);
      assert pos == Left(up) || pos == Right(up);
      assert t[up] == SortedHashPair(k, t[Sibling(pos)], t[pos]);
      ProofComplete(k, t, up);
      assert ProofAt(t, pos)[1..] == ProofAt(t, up);
    }
  }

  /**
   * The whole round trip: build a tree, ask for the proof of a hash by value, and check it against
   * the root. It succeeds for exactly the hashes the tree was built from.
   */
  method ProveAndVerify(k: Keccak, hashes: array<Hash>, initialHash: bool, hash: Hash) returns (ok: bool)
    requires hashes.Length >= 1
    modifies hashes
    ensures ok <==> hash in (if initialHash then Mapped(k, old(hashes[..])) else old(hashes[..]))
  {
    hide WellFormed, Sorted, ProofAt, Fold;
    ghost var source := if initialHash then Mapped(k, hashes[..]) else hashes[..];
    var t := Build(k, hashes, initialHash);
    TreeIsOdd(k, t);
    SameMembers(SortedHashes(t), source, hash);
    var root := Root(t);
    var proof := GetProofFromHash(t, hash);
    if proof.Err? {
      return false;
    }
    ghost var pos :| HashCount(t) - 1 <= pos < |t| && t[pos] == hash && proof.value == ProofAt(t, pos);
    ProofComplete(k, t, pos);
    ok := VerifyProof(k, hash, proof.value, root.value);
  }

  lemma TreeIsOdd(k: Keccak, t: seq<Hash>)
    requires WellFormed(k, t)
    ensures |t| % 2 == 1
  {
  }

  lemma SameMembers(a: seq<Hash>, b: seq<Hash>, hash: Hash)
    requires multiset(a) == multiset(b)
    ensures hash in a <==> hash in b
  {
    assert hash in a <==> hash in multiset(a);
    assert hash in b <==> hash in multiset(b);
  }

  function Pow2(n: nat): nat {
    if n == 0 then 1 else 2 * Pow2(n - 1)
  }

  /** The proof of position p has the length of p + 1 in binary, less one. */
  lemma {:induction false} ProofLength(t: seq<Hash>, pos: nat)
    requires pos < |t| && |t| % 2 == 1
    ensures Pow2(|ProofAt(t, pos)|) <= pos + 1 < Pow2(|ProofAt(t, pos)| + 1)
  {
    if pos > 0 {
      ProofLength(t, Parent(pos));
    }
  }

  // ---------- Soundness ----------

  /** Why a proof was accepted: it proves a node, or a leaf is itself a pair hash, or Keccak collides. */
  datatype Verdict =
    | Member(pos: nat)
    | LeafIsPair(pos: nat, x: Hash, y: Hash)
    | Collision(m1: Bytes, m2: Bytes)

  /** Walks an accepted proof down from node `r`, computing the reason. */
  function Explain(k: Keccak, t: seq<Hash>, v: Hash, proof: seq<Hash>, r: nat): Verdict
    requires r < |t| && |t| % 2 == 1
    decreases |proof|
  {
    if proof == [] then Member(r)
    else
      var rest, p := proof[..|proof| - 1], proof[|proof| - 1];
      var h := Fold(k, v, rest);
      if r >= HashCount(t) - 1 then LeafIsPair(r, p, h)
      else if h == t[Left(r)] && p == t[Right(r)] then Explain(k, t, v, rest, Left(r))
      else if h == t[Right(r)] && p == t[Left(r)] then Explain(k, t, v, rest, Right(r))
      else Collision(PairBytes(p, h), PairBytes(t[Left(r)], t[Right(r)]))
  }

  ghost predicate Justified(k: Keccak, t: seq<Hash>, v: Hash, proof: seq<Hash>, verdict: Verdict)
    requires |t| % 2 == 1
  {
    match verdict
    case Member(pos) => pos < |t| && t[pos] == v && ProofAt(t, pos) == proof
    case LeafIsPair(pos, x, y) => HashCount(t) - 1 <= pos < |t| && t[pos] == SortedHashPair(k, x, y)
    case Collision(m1, m2) => |m1| == |m2| == 64 && m1 != m2 && k(m1) == k(m2)
  }

  lemma {:induction false} FoldLast(k: Keccak, v: Hash, proof: seq<Hash>)
    requires proof != []
    ensures Fold(k, v, proof) == SortedHashPair(k, proof[|proof| - 1], Fold(k, v, proof[..|proof| - 1]))
    decreases |proof|
  {
    hide SortedHashPair;
    if |proof| > 1 {
      FoldLast(k, SortedHashPair(k, proof[0], v), proof[1..]);
      assert proof[1..][..|proof| - 2] == proof[..|proof| - 1][1..];
    }
  }

  /** Two pairs with one hash are the same unordered pair, or their bytes collide. */
  lemma PairCollision(k: Keccak, x: Hash, y: Hash, u: Hash, v: Hash)
    requires SortedHashPair(k, x, y) == SortedHashPair(k, u, v)
    ensures (x == u && y == v) || (x == v && y == u)
            || (PairBytes(x, y) != PairBytes(u, v) && k(PairBytes(x, y)) == k(PairBytes(u, v)))
  {
    if PairBytes(x, y) == PairBytes(u, v) {
      PairBytesInjective(x, y, u, v);
    }
  }

  lemma {:induction false} ExplainJustified(k: Keccak, t: seq<Hash>, v: Hash, proof: seq<Hash>, r: nat)
    requires WellFormed(k, t) && r < |t| && Fold(k, v, proof) == t[r]
    ensures Justified(k, t, v, proof + ProofAt(t, r), Explain(k, t, v, proof, r))
    decreases |proof|
  {
    hide SortedHashPair, PairBytes;
    if proof == [] {
      assert [] + ProofAt(t, r) == ProofAt(t, r);
    } else {
      hide Fold;
      var rest, p := proof[..|proof| - 1], proof[|proof| - 1];
      var h := Fold(k, v, rest);
      FoldLast(k, v, proof);
      if r < HashCount(t) - 1 {
        var a, b := t[Left(r)], t[Right(r)];
        PairCollision(k, p, h, a, b);
        if h == a && p == b {
          Descend(t, rest, p, r, Left(r));
          ExplainJustified(k, t, v, rest, Left(r));
        } else if h == b && p == a {
          Descend(t, rest, p, r, Right(r));
          ExplainJustified(k, t, v, rest, Right(r));
        }
      }
    }
  }

  lemma Descend(t: seq<Hash>, rest: seq<Hash>, p: Hash, r: nat, child: nat)
    requires |t| % 2 == 1 && 0 < child < |t| && Parent(child) == r && t[Sibling(child)] == p
    ensures rest + ProofAt(t, child) == rest + [p] + ProofAt(t, r)
  {
    assert rest + ([p] + ProofAt(t, r)) == rest + [p] + ProofAt(t, r);
  }

  /** Every accepted proof is sound up to collisions, and the evidence is computed from the proof. */
  lemma {:induction false} VerifySound(k: Keccak, t: seq<Hash>, v: Hash, proof: seq<Hash>)
    requires WellFormed(k, t) && Fold(k, v, proof) == t[0]
    ensures Justified(k, t, v, proof, Explain(k, t, v, proof, 0))
  {
    ExplainJustified(k, t, v, proof, 0);
    assert proof + ProofAt(t, 0) == proof;
  }

  /**
   * What an accepted proof of `k(w)` shows about a tree built with initial hashing from
   * `originals`: None means `w` is one of them; otherwise two different inputs with one hash.
   */
  function Evidence(k: Keccak, t: seq<Hash>, originals: seq<Hash>, w: Hash, proof: seq<Hash>): Option<(Bytes, Bytes)>
    requires WellFormedShape(t, originals)
  {
    match Explain(k, t, k(w), proof, 0)
    case Collision(m1, m2) => Some((m1, m2))
    case LeafIsPair(pos, x, y) =>
      (match Find(k, originals, t[if pos < |t| then pos else 0])
       case Some(o) => Some((o, PairBytes(x, y)))
       case None => None)
    case Member(pos) =>
      if pos < HashCount(t) - 1 then Some((w, PairBytes(t[Left(pos)], t[Right(pos)])))
      else
        (match Find(k, originals, k(w))
         case Some(o) => if o == w then None else Some((o, w))
         case None => None)
  }

  predicate WellFormedShape(t: seq<Hash>, originals: seq<Hash>) {
    |originals| >= 1 && |t| == 2 * |originals| - 1
  }

  /** An original with the given hash. */
  function Find(k: Keccak, originals: seq<Hash>, h: Hash): (r: Option<Hash>)
    ensures r.Some? ==> r.value in originals && k(r.value) == h
    ensures r.None? ==> forall o :: o in originals ==> k(o) != h
  {
    if originals == [] then None
    else if k(originals[0]) == h then Some(originals[0])
    else Find(k, originals[1..], h)
  }

  /** With initial hashing, an accepted proof of `k(w)` means `w` was put in, or exhibits a collision. */
  lemma {:induction false} InitialHashSound(k: Keccak, t: seq<Hash>, originals: seq<Hash>, w: Hash, proof: seq<Hash>)
    requires WellFormedShape(t, originals) && WellFormed(k, t)
    requires multiset(SortedHashes(t)) == multiset(Mapped(k, originals))
    requires Fold(k, k(w), proof) == t[0]
    ensures var e := Evidence(k, t, originals, w, proof);
            if e.None? then w in originals
            else e.value.0 != e.value.1 && k(e.value.0) == k(e.value.1)
  {
    hide Fold, PairBytes, Explain;
    VerifySound(k, t, k(w), proof);
    match Explain(k, t, k(w), proof, 0)
    case Collision(_, _) =>
    case LeafIsPair(pos, x, y) =>
      LeafHasOriginal(k, t, originals, pos);
    case Member(pos) =>
      if pos >= HashCount(t) - 1 {
        LeafHasOriginal(k, t, originals, pos);
      } else {
        assert Left(pos) < |t|;
      }
  }

  lemma LeafHasOriginal(k: Keccak, t: seq<Hash>, originals: seq<Hash>, pos: nat)
    requires |t| % 2 == 1 && HashCount(t) - 1 <= pos < |t|
    requires multiset(SortedHashes(t)) == multiset(Mapped(k, originals))
    ensures Find(k, originals, t[pos]).Some?
  {
    assert t[pos] == SortedHashes(t)[pos - (HashCount(t) - 1)];
    assert t[pos] in multiset(Mapped(k, originals));
    var i :| 0 <= i < |originals| && Mapped(k, originals)[i] == t[pos];
    assert k(originals[i]) == t[pos];
  }

  /** Conversely every original's hash is a leaf, so `GetProofFromHash` finds it a proof. */
  lemma OriginalIsLeaf(k: Keccak, t: seq<Hash>, originals: seq<Hash>, w: Hash)
    requires |t| % 2 == 1 && w in originals
    requires multiset(SortedHashes(t)) == multiset(Mapped(k, originals))
    ensures k(w) in SortedHashes(t)
  {
    var i :| 0 <= i < |originals| && originals[i] == w;
    assert Mapped(k, originals)[i] == k(w);
    assert k(w) in multiset(SortedHashes(t));
  }
}
