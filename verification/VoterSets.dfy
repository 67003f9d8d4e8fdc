/** Weighted voter sets and their sampling (client/shared/voters/voter_set.go). */
module VoterSets {
  import opened Prelude
  import opened Encoding
  import opened Weights
  import opened Bisection

  datatype VoterData = VoterData(index: nat, weight: Uint16)

  datatype VoterSet = VoterSet(
    voters: seq<Address>,
    weights: seq<Uint16>,
    totalWeight: Uint16,
    thresholds: seq<Uint16>,
    voterDataMap: map<Address, VoterData>)
  {
    /** As many weights as voters, and a sum of weights that fits 16 bits. */
    ghost predicate Valid() {
      |voters| == |weights| && totalWeight == Total(weights)
    }

    /** Each threshold is the weight of the voters before it. */
    ghost predicate Searchable() {
      |thresholds| == |weights| && forall i :: 0 <= i < |weights| ==> thresholds[i] == Prefix(weights, i)
    }

    /** The map holds exactly the listed addresses, each with its first position and that weight. */
    ghost predicate Indexed() {
      |voters| <= |weights| && Indexes(voters, weights, voterDataMap)
    }

    ghost predicate Positive() {
      forall i :: 0 <= i < |weights| ==> weights[i] > 0
    }

    function VoterIndex(address: Address): int {
      if address in voterDataMap then voterDataMap[address].index else -1
    }

    function VoterWeight(index: nat): Uint16
      requires index < |weights|
    {
      weights[index]
    }

    function Count(): nat {
      |voters|
    }
  }

  ghost predicate IsFirst(voters: seq<Address>, a: Address, i: nat) {
    i < |voters| && voters[i] == a && forall j :: 0 <= j < i ==> voters[j] != a
  }

  ghost predicate Indexes(voters: seq<Address>, weights: seq<Uint16>, m: map<Address, VoterData>)
    requires |voters| <= |weights|
  {
    && (forall a :: a in m <==> a in voters)
    && (forall a :: a in m ==> IsFirst(voters, a, m[a].index) && m[a].weight == weights[m[a].index])
  }

  lemma WrapSum(x: nat, w: Uint16)
    ensures Add16(x % 0x1_0000, w) == (x + w) % 0x1_0000
  {
  }

  /** Running sums in `uint16`: each threshold is the weight before that voter. */
  method SumWeights(weights: seq<Uint16>) returns (thresholds: seq<Uint16>, totalWeight: Uint16)
    ensures |thresholds| == |weights|
    ensures forall i :: 0 <= i < |weights| ==> thresholds[i] == Prefix(weights, i) % 0x1_0000
    ensures totalWeight == Total(weights) % 0x1_0000
  {
    thresholds, totalWeight := [], 0;
    for i := 0 to |weights|
      invariant |thresholds| == i
      invariant totalWeight == Prefix(weights, i) % 0x1_0000
      invariant forall j :: 0 <= j < i ==> thresholds[j] == Prefix(weights, j) % 0x1_0000
    {
      WrapSum(Prefix(weights, i), weights[i]);
      thresholds := thresholds + [totalWeight];
      totalWeight := Add16(totalWeight, weights[i]);
    }
  }

  /** The first position of every address. */
  method IndexVoters(voters: seq<Address>, weights: seq<Uint16>) returns (vMap: map<Address, VoterData>)
    requires |voters| <= |weights|
    ensures Indexes(voters, weights, vMap)
  {
    vMap := map[];
    for i := 0 to |voters|
      invariant Indexes(voters[..i], weights, vMap)
    {
      assert voters[..i + 1] == voters[..i] + [voters[i]];
      if voters[i] !in vMap {
        vMap := vMap[voters[i] := VoterData(i, weights[i])];
      }
    }
    assert voters[..|voters|] == voters;
  }

  /** The set is valid and searchable exactly when the 16-bit sums did not wrap. */
  method NewVoterSet(voters: seq<Address>, weights: seq<Uint16>) returns (vs: VoterSet)
    requires |voters| <= |weights|
    ensures vs.voters == voters && vs.weights == weights && |vs.thresholds| == |weights|
    ensures forall i :: 0 <= i < |weights| ==> vs.thresholds[i] == Prefix(weights, i) % 0x1_0000
    ensures vs.totalWeight == Total(weights) % 0x1_0000
    ensures vs.Indexed()
    ensures |voters| == |weights| ==> (vs.Valid() && vs.Searchable() <==> Total(weights) <= 65535)
  {
    var thresholds, totalWeight := SumWeights(weights);
    var vMap := IndexVoters(voters, weights);
    vs := VoterSet(voters, weights, totalWeight, thresholds, vMap);
    forall i | 0 <= i < |weights|
      ensures Prefix(weights, i) <= Total(weights)
    {
      PrefixMonotone(weights, i, |weights|);
    }
  }

  // ---------- Weight-proportional choice ----------

  /** The voter owning unit `v` of the first `n` voters' weight, laid out side by side. */
  function OwnerBelow(ws: seq<Uint16>, n: nat, v: nat): (i: nat)
    requires n <= |ws| && v < Prefix(ws, n)
    ensures i < n && Prefix(ws, i) <= v < Prefix(ws, i) + ws[i]
  {
    if Prefix(ws, n - 1) <= v then n - 1 else OwnerBelow(ws, n - 1, v)
  }

  function Owner(ws: seq<Uint16>, v: nat): nat
    requires v < Total(ws)
  {
    OwnerBelow(ws, |ws|, v)
  }

  lemma OwnerUnique(ws: seq<Uint16>, v: nat, i: nat)
    requires i < |ws| && Prefix(ws, i) <= v < Prefix(ws, i) + ws[i]
    ensures v < Total(ws) && Owner(ws, v) == i
  {
    PrefixMonotone(ws, i + 1, |ws|);
    var j := Owner(ws, v);
    if j < i {
      PrefixMonotone(ws, j + 1, i);
    } else if i < j {
      PrefixMonotone(ws, i + 1, j);
    }
  }

  /** Voter `i` owns `weights[i]` of the values below the total. */
  lemma OwnedCount(ws: seq<Uint16>, i: nat)
    requires i < |ws|
    ensures |set v: nat | v < Total(ws) && Owner(ws, v) == i| == ws[i]
  {
    var lo := Prefix(ws, i);
    var owned := set v: nat | v < Total(ws) && Owner(ws, v) == i;
    forall v: nat
      ensures v in owned <==> lo <= v < lo + ws[i]
    {
      if lo <= v < lo + ws[i] {
        OwnerUnique(ws, v, i);
      }
    }
    assert owned == Interval(lo, lo + ws[i]);
  }

  lemma ThresholdsAscending(vs: VoterSet)
    requires vs.Searchable()
    ensures Ascending(vs.thresholds) && (|vs.weights| > 0 ==> vs.thresholds[0] == 0)
  {
    forall i, j | 0 <= i <= j < |vs.thresholds|
      ensures vs.thresholds[i] <= vs.thresholds[j]
    {
      PrefixMonotone(vs.weights, i, j);
    }
  }

  /** The index searched for is within the set and its threshold is at most the value. */
  lemma SearchedInSet(vs: VoterSet, value: Uint16)
    requires vs.Valid() && vs.Searchable() && |vs.voters| > 0
    ensures Brackets(vs.thresholds, value, Searched(vs.thresholds, value))
  {
    ThresholdsAscending(vs);
    SearchedBrackets(vs.thresholds, value);
  }

  /** The owner of a unit of weight is found exactly when the index found has weight. */
  lemma SearchFindsOwner(vs: VoterSet, value: Uint16)
    requires vs.Valid() && vs.Searchable() && value < vs.totalWeight
    ensures |vs.voters| > 0
    ensures var r := Searched(vs.thresholds, value);
            0 <= r < |vs.voters| && (r == Owner(vs.weights, value) <==> vs.weights[r] > 0)
  {
    hide Owner, Searched;
    SearchedInSet(vs, value);
    var r := Searched(vs.thresholds, value);
    if vs.weights[r] > 0 {
      if r < |vs.voters| - 1 {
        assert vs.thresholds[r + 1] == vs.thresholds[r] as int + vs.weights[r];
      }
      OwnerUnique(vs.weights, value, r);
    } else {
      OwnerHasWeight(vs.weights, value);
    }
  }

  lemma OwnerHasWeight(ws: seq<Uint16>, v: nat)
    requires v < Total(ws)
    ensures Owner(ws, v) < |ws| && ws[Owner(ws, v)] > 0
  {
  }

  /** Selection is exactly weight-proportional: of the values below the total, `weights[i]` select voter `i`. */
  lemma ExactlyProportional(vs: VoterSet, i: nat)
    requires vs.Valid() && vs.Searchable() && vs.Positive() && i < |vs.voters|
    ensures |set v: nat | v < vs.totalWeight && Searched(vs.thresholds, v) == i| == vs.weights[i]
  {
    hide Owner, Searched;
    OwnedCount(vs.weights, i);
    forall v: nat | v < vs.totalWeight
      ensures Searched(vs.thresholds, v) == Owner(vs.weights, v)
    {
      SearchFindsOwner(vs, v);
    }
    assert (set v: nat | v < vs.totalWeight && Searched(vs.thresholds, v) == i)
        == (set v: nat | v < Total(vs.weights) && Owner(vs.weights, v) == i);
  }

  /**
   * Exactly which voters can be drawn: one with weight is selected by some value below the total
   * if and only if it has at least two units or the search keeps its promise for its threshold.
   */
  lemma DrawableExactly(vs: VoterSet, i: nat)
    requires vs.Valid() && vs.Searchable() && i < |vs.voters| && vs.weights[i] > 0
    ensures (exists v: nat :: v < vs.totalWeight && Searched(vs.thresholds, v) == i)
            <==> (vs.weights[i] >= 2 || KeepsPromise(vs.thresholds, vs.thresholds[i]))
  {
    hide Searched, KeepsPromise, Owner;
    var t := vs.thresholds[i];
    OwnerUnique(vs.weights, t, i);
    ThresholdsAscending(vs);
    HighestExactlyWhen(vs.thresholds, t);
    if i < |vs.voters| - 1 {
      NextThreshold(vs, i);
    }
    SearchedInSet(vs, t);
    if vs.weights[i] >= 2 {
      OwnerUnique(vs.weights, t as int + 1, i);
      SearchedInSet(vs, t + 1);
      assert Searched(vs.thresholds, t + 1) == i;
    } else if KeepsPromise(vs.thresholds, t) {
      assert Searched(vs.thresholds, t) == i;
    } else if v: nat :| v < vs.totalWeight && Searched(vs.thresholds, v) == i {
      SearchFindsOwner(vs, v);
      OwnerInterval(vs.weights, v);
      assert false;
    }
  }

  lemma OwnerInterval(ws: seq<Uint16>, v: nat)
    requires v < Total(ws)
    ensures var i := Owner(ws, v);
            i < |ws| && Prefix(ws, i) <= v < Prefix(ws, i) + ws[i]
  {
  }

  lemma NextThreshold(vs: VoterSet, i: nat)
    requires vs.Searchable() && i < |vs.weights| - 1
    ensures vs.thresholds[i + 1] == vs.thresholds[i] as int + vs.weights[i]
  {
  }

  /** With the weights 1, 0, 0, 1, 1 the value 1 yields index 2, though index 3 has the same threshold. */
  lemma WeightlessVotersMislead()
    ensures var ws: seq<Uint16> := [1, 0, 0, 1, 1];
            var ts: seq<Uint16> := [0, 1, 1, 1, 2];
            && (forall i :: 0 <= i < |ts| ==> ts[i] == Prefix(ws, i))
            && Searched(ts, 1) == 2 && ts[3] <= 1
  {
    var ws: seq<Uint16> := [1, 0, 0, 1, 1];
    assert Prefix(ws, 1) == 1;
    assert Prefix(ws, 2) == 1;
    assert Prefix(ws, 3) == 1;
    assert Prefix(ws, 4) == 2;
  }

  /**
   * The documented promise is the highest index whose threshold is at most `value`. It is kept
   * exactly when `KeepsPromise`, which depends on where equal thresholds lie; equivalently, when
   * the index found is the last one or has weight.
   */
  method BinarySearch(vs: VoterSet, value: Uint16) returns (r: nat)
    requires vs.Valid() && vs.Searchable() && |vs.voters| > 0
    requires value <= vs.totalWeight
    ensures r < |vs.voters| && vs.thresholds[r] <= value
    ensures IsHighest(vs.thresholds, value, r) <==> KeepsPromise(vs.thresholds, value)
    ensures IsHighest(vs.thresholds, value, r) <==> r == |vs.voters| - 1 || vs.weights[r] > 0
    ensures r == Searched(vs.thresholds, value)
    ensures value < vs.totalWeight ==> (r == Owner(vs.weights, value) <==> vs.weights[r] > 0)
  {
    hide Owner, Prefix, KeepsPromise, IsHighest, Ascending;
    ThresholdsAscending(vs);
    var n := |vs.thresholds|;
    var left, right := 0, n - 1;
    if vs.thresholds[right] <= value {
      r := right;
    } else {
      r := n;
      while left < right
        invariant 0 <= left <= right < n
        invariant value < vs.thresholds[right]
        invariant left > 0 ==> vs.thresholds[left - 1] < value
        invariant r == n
        invariant SearchBetween(vs.thresholds, left, right, value) == Searched(vs.thresholds, value)
      {
        var mid := (left + right) / 2;
        if vs.thresholds[mid] < value {
          left := mid + 1;
        } else if vs.thresholds[mid] > value {
          right := mid;
        } else {
          r := mid;
          break;
        }
      }
      if r == n {
        assert left > 0;
        r := left - 1;
      }
    }
    FoundIndex(vs, value);
  }

  lemma FoundIndex(vs: VoterSet, value: Uint16)
    requires vs.Valid() && vs.Searchable() && |vs.voters| > 0 && value <= vs.totalWeight
    ensures var r := Searched(vs.thresholds, value);
            && 0 <= r < |vs.voters| && vs.thresholds[r] <= value
            && (IsHighest(vs.thresholds, value, r) <==> KeepsPromise(vs.thresholds, value))
            && (IsHighest(vs.thresholds, value, r) <==> r == |vs.voters| - 1 || vs.weights[r] > 0)
            && (value < vs.totalWeight ==> (r == Owner(vs.weights, value) <==> vs.weights[r] > 0))
  {
    hide Owner, Searched, KeepsPromise;
    ThresholdsAscending(vs);
    SearchedInSet(vs, value);
    HighestExactlyWhen(vs.thresholds, value);
    var r := Searched(vs.thresholds, value);
    if r < |vs.voters| - 1 {
      NextThreshold(vs, r);
    }
    if value < vs.totalWeight {
      SearchFindsOwner(vs, value);
    }
  }

  // ---------- Hash-chain sampling ----------

  /** Valid, searchable and, once anything is drawn, with some weight to draw from. */
  ghost predicate Drawable(vs: VoterSet, n: nat) {
    vs.Valid() && vs.Searchable() && (n == 0 || vs.totalWeight > 0)
  }

  ghost function DrawIndex(vs: VoterSet, randomNumber: Hash): (i: nat)
    requires Drawable(vs, 1)
    ensures i < |vs.voters|
  {
    SearchedInSet(vs, BigEndian(randomNumber, 32) % vs.totalWeight);
    Searched(vs.thresholds, BigEndian(randomNumber, 32) % vs.totalWeight)
  }

  method SelectVoterIndex(vs: VoterSet, randomNumber: Hash) returns (r: nat)
    requires vs.Valid() && vs.Searchable() && vs.totalWeight > 0
    ensures r == DrawIndex(vs, randomNumber)
    ensures var value := BigEndian(randomNumber, 32) % vs.totalWeight;
            && r < |vs.voters| && vs.thresholds[r] <= value
            && (vs.weights[r] > 0 ==> value < vs.thresholds[r] as int + vs.weights[r])
  {
    hide BigEndian;
    var value: Uint16 := BigEndian(randomNumber, 32) % vs.totalWeight;
    r := BinarySearch(vs, value);
    OwnerInterval(vs.weights, value);
  }

  /** Element `n` of the chain seed, H(seed), H(H(seed)), ... */
  function ChainAt(keccak: Bytes -> Hash, seed: Hash, n: nat): Hash {
    if n == 0 then seed else keccak(ChainAt(keccak, seed, n - 1))
  }

  ghost function Chain(keccak: Bytes -> Hash, seed: Hash, n: nat): seq<Hash> {
    seq(n, i requires 0 <= i < n => ChainAt(keccak, seed, i))
  }

  method RandomNumberSequence(keccak: Bytes -> Hash, initialSeed: Hash, length: nat) returns (sequence: seq<Hash>)
    ensures |sequence| == length && (length > 0 ==> sequence[0] == initialSeed)
    ensures forall i :: 0 < i < length ==> sequence[i] == keccak(sequence[i - 1])
    ensures sequence == Chain(keccak, initialSeed, length)
  {
    sequence := [];
    var currentSeed := initialSeed;
    for i := 0 to length
      invariant currentSeed == ChainAt(keccak, initialSeed, i)
      invariant sequence == Chain(keccak, initialSeed, i)
    {
      sequence := sequence + [currentSeed];
      currentSeed := keccak(currentSeed);
    }
  }

  /** The voters picked so far: their addresses, indices and accumulated weight. */
  datatype Sample = Sample(addresses: set<Address>, picks: set<nat>, weight: nat)

  /** A draw counts only if its address is new. */
  ghost function WithDraw(vs: VoterSet, s: Sample, draw: Hash): Sample
    requires Drawable(vs, 1)
  {
    var i := DrawIndex(vs, draw);
    if vs.voters[i] in s.addresses then s
    else Sample(s.addresses + {vs.voters[i]}, s.picks + {i}, s.weight + vs.weights[i])
  }

  /** The sample after the first `n` draws of the chain. */
  ghost function SampleAfter(vs: VoterSet, keccak: Bytes -> Hash, seed: Hash, n: nat): Sample
    requires Drawable(vs, n)
  {
    if n == 0 then Sample({}, {}, 0)
    else WithDraw(vs, SampleAfter(vs, keccak, seed, n - 1), ChainAt(keccak, seed, n - 1))
  }

  ghost function FoldSample(vs: VoterSet, draws: seq<Hash>): Sample
    requires Drawable(vs, 1)
  {
    if draws == [] then Sample({}, {}, 0)
    else WithDraw(vs, FoldSample(vs, draws[..|draws| - 1]), draws[|draws| - 1])
  }

  /** A run is a fold over a prefix of `RandomNumberSequence`. */
  lemma {:induction false} SampleFoldsTheSequence(vs: VoterSet, keccak: Bytes -> Hash, seed: Hash, n: nat)
    requires Drawable(vs, 1)
    ensures SampleAfter(vs, keccak, seed, n) == FoldSample(vs, Chain(keccak, seed, n))
  {
    hide WithDraw;
    if n > 0 {
      SampleFoldsTheSequence(vs, keccak, seed, n - 1);
      assert Chain(keccak, seed, n)[..n - 1] == Chain(keccak, seed, n - 1);
    }
  }

  /** The addresses are those of the picked voters, no two alike, and the weight is theirs. */
  ghost predicate Exact(vs: VoterSet, s: Sample) {
    && (forall i :: i in s.picks ==> i < |vs.voters| && vs.voters[i] in s.addresses)
    && (forall a :: a in s.addresses ==> exists i :: i in s.picks && i < |vs.voters| && vs.voters[i] == a)
    && (forall i, j :: i in s.picks && j in s.picks && i < j < |vs.voters| ==> vs.voters[i] != vs.voters[j])
    && s.weight == WeightOf(vs.weights, s.picks)
  }

  lemma WithDrawExact(vs: VoterSet, s: Sample, draw: Hash)
    requires Drawable(vs, 1) && Exact(vs, s)
    ensures Exact(vs, WithDraw(vs, s, draw))
  {
    hide WeightOf, DrawIndex;
    var i := DrawIndex(vs, draw);
    if vs.voters[i] !in s.addresses {
      InsertWeight(vs.weights, s.picks, i);
      var s' := WithDraw(vs, s, draw);
      assert i in s'.picks;
      forall a | a in s.addresses
        ensures exists j :: j in s'.picks && j < |vs.voters| && vs.voters[j] == a
      {
        var j :| j in s.picks && j < |vs.voters| && vs.voters[j] == a;
        assert j in s'.picks;
      }
    }
  }

  /** At every point the accumulated weight is that of the distinct voters picked, within the total. */
  lemma {:induction false} SampleIsExact(vs: VoterSet, keccak: Bytes -> Hash, seed: Hash, n: nat)
    requires Drawable(vs, n)
    ensures Exact(vs, SampleAfter(vs, keccak, seed, n))
    ensures SampleAfter(vs, keccak, seed, n).weight <= vs.totalWeight
  {
    if n == 0 {
      EmptyWeight(vs.weights, |vs.weights|);
    } else {
      SampleIsExact(vs, keccak, seed, n - 1);
      WithDrawExact(vs, SampleAfter(vs, keccak, seed, n - 1), ChainAt(keccak, seed, n - 1));
    }
    var picks := SampleAfter(vs, keccak, seed, n).picks;
    SumOnMonotone(vs.weights, picks, picks, |vs.weights|);
  }

  lemma {:induction false} SampleGrows(vs: VoterSet, keccak: Bytes -> Hash, seed: Hash, m: nat, n: nat)
    requires Drawable(vs, n) && m <= n
    ensures SampleAfter(vs, keccak, seed, m).addresses <= SampleAfter(vs, keccak, seed, n).addresses
    ensures SampleAfter(vs, keccak, seed, m).weight <= SampleAfter(vs, keccak, seed, n).weight
    decreases n
  {
    hide DrawIndex;
    if m < n {
      SampleGrows(vs, keccak, seed, m, n - 1);
    }
  }

  /** `n` draws of the chain reach the threshold weight, and one fewer does not. */
  ghost predicate StopsAt(vs: VoterSet, keccak: Bytes -> Hash, seed: Hash, thresholdWeight: nat, n: nat)
    requires Drawable(vs, 0)
  {
    && (n == 0 || vs.totalWeight > 0)
    && SampleAfter(vs, keccak, seed, n).weight >= thresholdWeight
    && (n == 0 || SampleAfter(vs, keccak, seed, n - 1).weight < thresholdWeight)
  }

  lemma NoDraws(vs: VoterSet, keccak: Bytes -> Hash, seed: Hash)
    requires Drawable(vs, 0)
    ensures ChainAt(keccak, seed, 0) == seed && SampleAfter(vs, keccak, seed, 0) == Sample({}, {}, 0)
  {
  }

  lemma {:induction false} NextDraw(vs: VoterSet, keccak: Bytes -> Hash, seed: Hash, n: nat)
    requires Drawable(vs, 1)
    ensures ChainAt(keccak, seed, n + 1) == keccak(ChainAt(keccak, seed, n))
    ensures SampleAfter(vs, keccak, seed, n + 1) == WithDraw(vs, SampleAfter(vs, keccak, seed, n), ChainAt(keccak, seed, n))
    ensures SampleAfter(vs, keccak, seed, n + 1).weight <= vs.totalWeight
  {
    SampleIsExact(vs, keccak, seed, n + 1);
  }

  /** The sampling loop has ended within `draws` draws. */
  ghost predicate StopsWithin(vs: VoterSet, keccak: Bytes -> Hash, seed: Hash, thresholdWeight: nat, draws: nat)
    requires Drawable(vs, 0)
  {
    exists n: nat :: n <= draws && StopsAt(vs, keccak, seed, thresholdWeight, n)
  }

  lemma {:induction false} NotYet(vs: VoterSet, keccak: Bytes -> Hash, seed: Hash, thresholdWeight: nat, draws: nat)
    requires Drawable(vs, draws) && SampleAfter(vs, keccak, seed, draws).weight < thresholdWeight
    ensures !StopsWithin(vs, keccak, seed, thresholdWeight, draws)
  {
    hide SampleAfter;
    forall n: nat | n <= draws
      ensures !StopsAt(vs, keccak, seed, thresholdWeight, n)
    {
      SampleGrows(vs, keccak, seed, n, draws);
    }
  }

  /** The first `draws` rounds of the sampling loop, on every seed. */
  method SampleUntil(vs: VoterSet, keccak: Bytes -> Hash, randomSeed: Hash, thresholdWeight: Uint16, draws: nat)
    returns (selectedVoters: set<Address>, done: bool)
    requires Drawable(vs, 0) && thresholdWeight <= vs.totalWeight
    ensures done <==> StopsWithin(vs, keccak, randomSeed, thresholdWeight, draws)
    ensures done ==> exists n: nat ::
              && StopsAt(vs, keccak, randomSeed, thresholdWeight, n)
              && selectedVoters == SampleAfter(vs, keccak, randomSeed, n).addresses
    ensures !done ==> vs.totalWeight > 0 && selectedVoters == SampleAfter(vs, keccak, randomSeed, draws).addresses
  {
    hide SampleAfter, ChainAt, DrawIndex;
    var n: nat := 0;
    NoDraws(vs, keccak, randomSeed);
    selectedVoters := {};
    var selectedWeight: Uint16 := 0;
    var currentSeed := randomSeed;
    while selectedWeight < thresholdWeight && n < draws
      invariant n <= draws
      invariant n == 0 || (vs.totalWeight > 0 && SampleAfter(vs, keccak, randomSeed, n - 1).weight < thresholdWeight)
      invariant currentSeed == ChainAt(keccak, randomSeed, n)
      invariant selectedVoters == SampleAfter(vs, keccak, randomSeed, n).addresses
      invariant selectedWeight == SampleAfter(vs, keccak, randomSeed, n).weight
    {
      NextDraw(vs, keccak, randomSeed, n);
      var index := SelectVoterIndex(vs, currentSeed);
      if vs.voters[index] !in selectedVoters {
        selectedVoters := selectedVoters + {vs.voters[index]};
        selectedWeight := Add16(selectedWeight, vs.weights[index]);
      }
      currentSeed := keccak(currentSeed);
      n := n + 1;
    }
    done := selectedWeight >= thresholdWeight;
    if done {
      assert StopsAt(vs, keccak, randomSeed, thresholdWeight, n);
    } else {
      NotYet(vs, keccak, randomSeed, thresholdWeight, draws);
    }
  }

  lemma BipsMonotone(total: Uint16, b1: Uint16, b2: Uint16)
    requires b1 <= b2
    ensures total as int * b1 as int / 10000 <= total as int * b2 as int / 10000
  {
    assert total as int * b1 as int <= total as int * b2 as int;
  }

  function ThresholdWeight(vs: VoterSet, thresholdBIPS: Uint16): (w: Uint16)
    requires thresholdBIPS <= 5000
    ensures 10000 * w <= vs.totalWeight as int * thresholdBIPS as int < 10000 * (w + 1)
    ensures 2 * w <= vs.totalWeight as int
  {
    BipsMonotone(vs.totalWeight, thresholdBIPS, 5000);
    vs.totalWeight as int * thresholdBIPS as int / 10000
  }

  /**
   * Rejects thresholds above 5000 BIPS; otherwise samples up to that share of the total weight.
   * `None` if the loop has not ended within `draws` draws.
   */
  method RandomSelectThresholdWeightVoters(
    vs: VoterSet, keccak: Bytes -> Hash, randomSeed: Hash, thresholdBIPS: Uint16, draws: nat)
    returns (r: Option<Result<set<Address>, string>>)
    requires Drawable(vs, 0)
    ensures r.Some? && r.value.Err? <==> thresholdBIPS > 5000
    ensures r.None? <==>
              thresholdBIPS <= 5000 && !StopsWithin(vs, keccak, randomSeed, ThresholdWeight(vs, thresholdBIPS), draws)
    ensures r.Some? && r.value.Ok? ==> exists n: nat ::
              && StopsAt(vs, keccak, randomSeed, ThresholdWeight(vs, thresholdBIPS), n)
              && r.value.value == SampleAfter(vs, keccak, randomSeed, n).addresses
  {
    hide StopsAt, StopsWithin;
    if thresholdBIPS > 5000 {
      return Some(Err("Threshold must be between 0 and 5000 BIPS"));
    }
    var selected, done := SampleUntil(vs, keccak, randomSeed, ThresholdWeight(vs, thresholdBIPS), draws);
    r := if done then Some(Ok(selected)) else None;
  }

  /**
   * On exit the picked voters weigh at least the threshold weight, at most the total (so 16 bits
   * never wrapped), and below the threshold weight without the voter drawn last.
   */
  lemma {:induction false} SampleWeight(vs: VoterSet, keccak: Bytes -> Hash, seed: Hash, thresholdWeight: nat, n: nat)
    requires Drawable(vs, 0) && StopsAt(vs, keccak, seed, thresholdWeight, n) && thresholdWeight > 0
    ensures n > 0 && vs.totalWeight > 0
    ensures var s := SampleAfter(vs, keccak, seed, n);
            var last := DrawIndex(vs, ChainAt(keccak, seed, n - 1));
            && thresholdWeight <= WeightOf(vs.weights, s.picks) <= vs.totalWeight
            && last in s.picks
            && WeightOf(vs.weights, s.picks - {last}) < thresholdWeight
  {
    hide WeightOf, DrawIndex;
    SampleIsExact(vs, keccak, seed, n);
    SampleIsExact(vs, keccak, seed, n - 1);
    var before := SampleAfter(vs, keccak, seed, n - 1);
    var last := DrawIndex(vs, ChainAt(keccak, seed, n - 1));
    assert last !in before.picks;
    assert before.picks + {last} - {last} == before.picks;
  }

  /** A lower threshold weight is reached no later. */
  lemma {:induction false} EarlierStop(vs: VoterSet, keccak: Bytes -> Hash, seed: Hash, w1: nat, w2: nat, n1: nat, n2: nat)
    requires Drawable(vs, 0) && w1 <= w2
    requires StopsAt(vs, keccak, seed, w1, n1) && StopsAt(vs, keccak, seed, w2, n2)
    ensures n1 <= n2
  {
    if n2 < n1 {
      SampleGrows(vs, keccak, seed, n2, n1 - 1);
    }
  }

  /** A lower selection threshold stops no later and selects a subset of the voters a higher one selects. */
  lemma {:induction false} LowerThresholdSelectsSubset(vs: VoterSet, keccak: Bytes -> Hash, seed: Hash, b1: Uint16, b2: Uint16)
    requires Drawable(vs, 0) && b1 <= b2 <= 5000
    ensures forall n1: nat, n2: nat ::
              StopsAt(vs, keccak, seed, ThresholdWeight(vs, b1), n1) &&
              StopsAt(vs, keccak, seed, ThresholdWeight(vs, b2), n2) ==>
                && n1 <= n2
                && SampleAfter(vs, keccak, seed, n1).addresses <= SampleAfter(vs, keccak, seed, n2).addresses
  {
    BipsMonotone(vs.totalWeight, b1, b2);
    var w1, w2 := ThresholdWeight(vs, b1), ThresholdWeight(vs, b2);
    forall n1: nat, n2: nat | StopsAt(vs, keccak, seed, w1, n1) && StopsAt(vs, keccak, seed, w2, n2)
      ensures n1 <= n2
      ensures SampleAfter(vs, keccak, seed, n1).addresses <= SampleAfter(vs, keccak, seed, n2).addresses
    {
      EarlierStop(vs, keccak, seed, w1, w2, n1, n2);
      SampleGrows(vs, keccak, seed, n1, n2);
    }
  }

  /** Drawing `v` would add weight to the sample. */
  ghost predicate Progress(vs: VoterSet, s: Sample, v: nat)
    requires Drawable(vs, 1) && v < vs.totalWeight
  {
    SearchedInSet(vs, v);
    var i := Searched(vs.thresholds, v);
    vs.weights[i] > 0 && vs.voters[i] !in s.addresses
  }

  /** Some value selects this voter, who has weight. */
  ghost predicate CanBeDrawn(vs: VoterSet, i: nat)
    requires vs.Valid() && vs.Searchable() && i < |vs.voters|
  {
    vs.weights[i] >= 2 || (vs.weights[i] == 1 && KeepsPromise(vs.thresholds, vs.thresholds[i]))
  }

  /**
   * A draw can make progress exactly when there is a voter who can be drawn and whose address is new.
   * With distinct addresses that is so as long as the loop runs, if every voter with weight can be drawn.
   */
  lemma {:induction false} SomeDrawMakesProgress(
    vs: VoterSet, keccak: Bytes -> Hash, seed: Hash, n: nat, thresholdWeight: nat)
    requires Drawable(vs, 1)
    ensures var s := SampleAfter(vs, keccak, seed, n);
            && ((exists v: nat :: v < vs.totalWeight && Progress(vs, s, v)) <==>
                (exists i: nat :: i < |vs.voters| && CanBeDrawn(vs, i) && vs.voters[i] !in s.addresses))
            && ((&& s.weight < thresholdWeight <= vs.totalWeight
                 && (forall i, j :: 0 <= i < j < |vs.voters| ==> vs.voters[i] != vs.voters[j])
                 && (forall i :: 0 <= i < |vs.voters| && vs.weights[i] > 0 ==> CanBeDrawn(vs, i))) ==>
                exists v: nat :: v < vs.totalWeight && Progress(vs, s, v))
  {
    hide SampleAfter, CanBeDrawn;
    var s := SampleAfter(vs, keccak, seed, n);
    ProgressExactly(vs, s);
    SampleIsExact(vs, keccak, seed, n);
    if s.weight < thresholdWeight <= vs.totalWeight {
      var i := Unpicked(vs.weights, s.picks, |vs.weights|);
      assert (forall i, j :: 0 <= i < j < |vs.voters| ==> vs.voters[i] != vs.voters[j]) ==> vs.voters[i] !in s.addresses;
    }
  }

  lemma ProgressExactly(vs: VoterSet, s: Sample)
    requires Drawable(vs, 1)
    ensures (exists v: nat :: v < vs.totalWeight && Progress(vs, s, v)) <==>
            (exists i: nat :: i < |vs.voters| && CanBeDrawn(vs, i) && vs.voters[i] !in s.addresses)
  {
    hide KeepsPromise, Searched;
    if v: nat :| v < vs.totalWeight && Progress(vs, s, v) {
      SearchedInSet(vs, v);
      var i := Searched(vs.thresholds, v);
      DrawableExactly(vs, i);
      assert CanBeDrawn(vs, i);
    }
    if i: nat :| i < |vs.voters| && CanBeDrawn(vs, i) && vs.voters[i] !in s.addresses {
      DrawableExactly(vs, i);
      var v: nat :| v < vs.totalWeight && Searched(vs.thresholds, v) == i;
      assert Progress(vs, s, v);
    }
  }

  /** A draw adds weight exactly if its number makes progress, and then its voter with that voter's weight. */
  lemma {:induction false} DrawAddsWeight(vs: VoterSet, keccak: Bytes -> Hash, seed: Hash, n: nat)
    requires Drawable(vs, 1)
    ensures var s, s' := SampleAfter(vs, keccak, seed, n), SampleAfter(vs, keccak, seed, n + 1);
            var v := BigEndian(ChainAt(keccak, seed, n), 32) % vs.totalWeight;
            var i := Searched(vs.thresholds, v);
            && 0 <= i < |vs.voters|
            && (s'.weight > s.weight <==> Progress(vs, s, v))
            && (vs.voters[i] !in s.addresses ==>
                  s'.addresses == s.addresses + {vs.voters[i]} && s'.weight == s.weight + vs.weights[i])
            && (vs.voters[i] in s.addresses ==> s' == s)
  {
    hide BigEndian, Searched;
    NextDraw(vs, keccak, seed, n);
    SearchedInSet(vs, BigEndian(ChainAt(keccak, seed, n), 32) % vs.totalWeight);
  }

  /** Once no draw can make progress, the loop never ends, whatever the hash chain yields. */
  lemma {:induction false} NeverEnds(
    vs: VoterSet, keccak: Bytes -> Hash, seed: Hash, n: nat, m: nat, thresholdWeight: nat)
    requires Drawable(vs, 1) && SampleAfter(vs, keccak, seed, n).weight < thresholdWeight && n <= m
    requires forall v: nat :: v < vs.totalWeight ==> !Progress(vs, SampleAfter(vs, keccak, seed, n), v)
    ensures SampleAfter(vs, keccak, seed, m).weight == SampleAfter(vs, keccak, seed, n).weight
    ensures !StopsWithin(vs, keccak, seed, thresholdWeight, m)
    decreases m
  {
    if n < m {
      hide Searched, StopsWithin, StopsAt;
      NeverEnds(vs, keccak, seed, n, m - 1, thresholdWeight);
      SampleGrows(vs, keccak, seed, n, m - 1);
      var draw := ChainAt(keccak, seed, m - 1);
      var v := BigEndian(draw, 32) % vs.totalWeight;
      assert !Progress(vs, SampleAfter(vs, keccak, seed, n), v);
      assert DrawIndex(vs, draw) == Searched(vs.thresholds, v);
    }
    NotYet(vs, keccak, seed, thresholdWeight, m);
  }

  lemma {:induction false} Unpicked(ws: seq<Uint16>, picks: set<nat>, n: nat) returns (i: nat)
    requires n <= |ws| && SumOn(ws, picks, n) < Prefix(ws, n)
    ensures i < n && i !in picks && ws[i] > 0
  {
    if n - 1 !in picks && ws[n - 1] > 0 {
      i := n - 1;
    } else {
      i := Unpicked(ws, picks, n - 1);
    }
  }
}
