/** Choosing the signatures to relay (client/finalizer/finalizer_queue.go, `processItem`). */
module Quorum {
  import opened Prelude
  import opened Weights
  import opened Sorting
  import opened Payloads
  import opened Submissions
  import opened SubmissionRuns
  import opened Greedy
  import opened Relay

  /** Each payload sits in the slot its index names. */
  ghost predicate FromSlots(m: Message, ps: seq<SignedPayload>) {
    forall j :: 0 <= j < |ps| ==> 0 <= ps[j].index < |m.payload| && m.payload[ps[j].index] == Some(ps[j])
  }

  ghost predicate Different(ps: seq<SignedPayload>) {
    forall i, j :: 0 <= i < j < |ps| ==> ps[i].index != ps[j].index
  }

  ghost function IndexList(m: Message, ps: seq<SignedPayload>): seq<nat>
    requires FromSlots(m, ps)
  {
    seq(|ps|, j requires 0 <= j < |ps| => ps[j].index)
  }

  /** The set of voter indices of a list of payloads. */
  ghost function Chosen(m: Message, ps: seq<SignedPayload>): set<nat>
    requires FromSlots(m, ps)
  {
    Elems(IndexList(m, ps))
  }

  lemma ChosenIn(m: Message, ps: seq<SignedPayload>, i: nat)
    requires FromSlots(m, ps)
    ensures i in Chosen(m, ps) <==> exists j :: 0 <= j < |ps| && ps[j].index == i
    ensures i in Chosen(m, ps) ==> i in Filled(m)
  {
    var s := IndexList(m, ps);
    if j :| 0 <= j < |ps| && ps[j].index == i {
      assert s[j] == i;
    }
    if i in Chosen(m, ps) {
      var j :| 0 <= j < |s| && s[j] == i;
      assert ps[j].index == i;
    }
  }

  // ---------- Permutations keep what matters ----------

  lemma {:induction false} OnceEach(ps: seq<SignedPayload>, p: SignedPayload)
    requires Different(ps)
    ensures multiset(ps)[p] <= 1
  {
    if ps != [] {
      var front, x := ps[..|ps| - 1], ps[|ps| - 1];
      assert ps == front + [x];
      OnceEach(front, p);
      assert forall j :: 0 <= j < |front| ==> front[j] == ps[j];
      assert x !in front;
    }
  }

  lemma Twice(ps: seq<SignedPayload>, i: nat, j: nat)
    requires i < j < |ps| && ps[i] == ps[j]
    ensures multiset(ps)[ps[i]] >= 2
  {
    assert ps == ps[..j] + [ps[j]] + ps[j + 1..];
    assert ps[i] in ps[..j];
  }

  lemma Permuted(m: Message, ps: seq<SignedPayload>, qs: seq<SignedPayload>)
    requires FromSlots(m, ps) && Different(ps) && multiset(ps) == multiset(qs)
    ensures FromSlots(m, qs) && Different(qs) && Chosen(m, qs) == Chosen(m, ps) && |qs| == |ps|
  {
    forall j | 0 <= j < |qs|
      ensures 0 <= qs[j].index < |m.payload| && m.payload[qs[j].index] == Some(qs[j])
    {
      assert qs[j] in multiset(ps);
    }
    forall i, j | 0 <= i < j < |qs|
      ensures qs[i].index != qs[j].index
    {
      if qs[i].index == qs[j].index {
        Twice(qs, i, j);
        OnceEach(ps, qs[i]);
      }
    }
    forall i: nat
      ensures i in Chosen(m, qs) <==> i in Chosen(m, ps)
    {
      ChosenIn(m, ps, i);
      ChosenIn(m, qs, i);
      if j :| 0 <= j < |ps| && ps[j].index == i {
        assert ps[j] in multiset(qs);
      }
      if j :| 0 <= j < |qs| && qs[j].index == i {
        assert qs[j] in multiset(ps);
      }
    }
    assert |multiset(ps)| == |multiset(qs)|;
  }

  // ---------- The steps of processItem ----------

  /** The filled slots, in voter order. */
  method CollectPayloads(ghost k: Key, m: Message) returns (ps: seq<SignedPayload>)
    requires GoodMessage(k, m)
    ensures FromSlots(m, ps) && Different(ps) && Chosen(m, ps) == Filled(m)
  {
    ps := [];
    for i := 0 to |m.payload|
      invariant FromSlots(m, ps) && Different(ps)
      invariant forall j :: 0 <= j < |ps| ==> ps[j].index < i
      invariant forall l :: 0 <= l < i && m.payload[l].Some? ==> m.payload[l].value in ps
    {
      if m.payload[i].Some? {
        assert i in Filled(m) && GoodSlot(k, m, i);
        ps := ps + [m.payload[i].value];
      }
    }
    forall i: nat
      ensures i in Chosen(m, ps) <==> i in Filled(m)
    {
      ChosenIn(m, ps, i);
      if i in Filled(m) {
        assert GoodSlot(k, m, i) && m.payload[i].value in ps;
        var j :| 0 <= j < |ps| && ps[j] == m.payload[i].value;
      }
    }
  }

  function WeightAt(ws: seq<Uint16>, i: int): Uint16 {
    if 0 <= i < |ws| then ws[i] else 0
  }

  /** Decreasing by weight, ties in any order. */
  method SortByWeight(ws: seq<Uint16>, ps: seq<SignedPayload>) returns (r: seq<SignedPayload>)
    ensures multiset(r) == multiset(ps)
    ensures forall i, j :: 0 <= i < j < |r| ==> WeightAt(ws, r[i].index) >= WeightAt(ws, r[j].index)
  {
    r := Sort(ps, (p: SignedPayload, q: SignedPayload) => WeightAt(ws, p.index) >= WeightAt(ws, q.index));
  }

  method SortByIndex(ps: seq<SignedPayload>) returns (r: seq<SignedPayload>)
    ensures multiset(r) == multiset(ps)
    ensures forall i, j :: 0 <= i < j < |r| ==> r[i].index <= r[j].index
  {
    r := Sort(ps, (p: SignedPayload, q: SignedPayload) => p.index <= q.index);
  }

  lemma PolicyBounds(m: Message)
    requires Shaped(m)
    ensures |m.policy.voters.weights| == |m.payload| && Total(m.policy.voters.weights) <= 65535
  {
  }

  /** The running weight never wraps. */
  lemma NextWeight(m: Message, ps: seq<SignedPayload>, i: nat)
    requires Shaped(m) && FromSlots(m, ps) && Different(ps) && i < |ps|
    ensures |m.policy.voters.weights| == |m.payload| && Indices(m.policy.voters.weights, IndexList(m, ps))
    ensures var ws := m.policy.voters.weights;
            var s := IndexList(m, ps);
            ListWeight(ws, s, i + 1) == ListWeight(ws, s, i) + ws[ps[i].index] <= 65535
  {
    hide GoodPolicy, WeightOf;
    PolicyBounds(m);
    ListWeightIsSetWeight(m.policy.voters.weights, IndexList(m, ps), i + 1);
  }

  /** Takes payloads until the running 16-bit weight exceeds the threshold. */
  method Cut(m: Message, ps: seq<SignedPayload>, threshold: Uint16) returns (selected: seq<SignedPayload>)
    requires Shaped(m) && FromSlots(m, ps) && Different(ps)
    requires |m.policy.voters.weights| == |m.payload| && Indices(m.policy.voters.weights, IndexList(m, ps))
    ensures CutAt(m.policy.voters.weights, IndexList(m, ps), threshold, |selected|)
    ensures selected == ps[..|selected|]
  {
    hide Shaped, Different, IndexList, Indices;
    var ws := m.policy.voters.weights;
    ghost var s := IndexList(m, ps);
    assert |s| == |ps| by {
      IndexListLength(m, ps);
    }
    var weight: Uint16 := 0;
    selected := [];
    for i := 0 to |ps|
      invariant selected == ps[..i]
      invariant weight == ListWeight(ws, s, i) <= threshold
      invariant i > 0 ==> ListWeight(ws, s, i - 1) <= threshold
    {
      NextWeight(m, ps, i);
      weight := Add16(weight, ws[ps[i].index]);
      selected := selected + [ps[i]];
      if weight > threshold {
        break;
      }
    }
  }

  lemma IndexListLength(m: Message, ps: seq<SignedPayload>)
    requires FromSlots(m, ps)
    ensures |IndexList(m, ps)| == |ps|
  {
  }

  // ---------- The selection ----------

  /**
   * The payloads handed to the relay: stored ones, strictly increasing by voter index; above the
   * threshold if all stored ones together are, otherwise all of them; and no smaller set of stored
   * signatures exceeds the threshold.
   */
  ghost predicate Selection(m: Message, threshold: Uint16, selected: seq<SignedPayload>) {
    var ws := m.policy.voters.weights;
    && IncreasingIndex(selected, |selected|)
    && |ws| == |m.payload|
    && FromSlots(m, selected)
    && |Chosen(m, selected)| == |selected|
    && (WeightOf(ws, Chosen(m, selected)) > threshold <==> WeightOf(ws, Filled(m)) > threshold)
    && (WeightOf(ws, Chosen(m, selected)) <= threshold ==> Chosen(m, selected) == Filled(m))
    && (forall t: set<nat> :: t <= Filled(m) && |t| < |selected| ==> WeightOf(ws, t) <= threshold)
  }

  lemma PrefixOfList(m: Message, ps: seq<SignedPayload>, n: nat)
    requires FromSlots(m, ps) && Different(ps) && n <= |ps|
    ensures FromSlots(m, ps[..n]) && Different(ps[..n])
    ensures Chosen(m, ps[..n]) == Elems(IndexList(m, ps)[..n])
    ensures |Chosen(m, ps[..n])| == n
  {
    assert IndexList(m, ps[..n]) == IndexList(m, ps)[..n];
    ElemsCount(IndexList(m, ps)[..n]);
  }

  /** A heaviest-first list of all stored payloads, cut where the loop cuts it, is a best selection. */
  lemma CutIsSelection(m: Message, ps: seq<SignedPayload>, n: nat, selected: seq<SignedPayload>)
    requires Shaped(m) && FromSlots(m, ps) && Different(ps) && Chosen(m, ps) == Filled(m)
    requires var ws := m.policy.voters.weights;
             && Indices(ws, IndexList(m, ps)) && HeaviestFirst(ws, IndexList(m, ps))
             && CutAt(ws, IndexList(m, ps), m.policy.threshold, n)
    requires multiset(selected) == multiset(ps[..n])
    requires forall i, j :: 0 <= i < j < |selected| ==> selected[i].index <= selected[j].index
    ensures Selection(m, m.policy.threshold, selected)
  {
    hide GoodPolicy, WeightOf, Filled;
    PolicyBounds(m);
    var ws, s, threshold := m.policy.voters.weights, IndexList(m, ps), m.policy.threshold;
    PrefixOfList(m, ps, n);
    Permuted(m, ps[..n], selected);
    ListWeightIsSetWeight(ws, s, n);
    CutReaches(ws, s, threshold, n);
    assert n == |s| ==> s[..n] == s;
    forall t: set<nat> | t <= Filled(m) && |t| < |selected|
      ensures WeightOf(ws, t) <= threshold
    {
      GreedyOptimal(ws, s, threshold, n, t);
    }
  }

  /** Filter, sort by weight, cut, sort by index. */
  method SelectPayloads(ghost k: Key, m: Message) returns (selected: seq<SignedPayload>)
    requires GoodMessage(k, m)
    ensures Selection(m, m.policy.threshold, selected)
  {
    hide GoodPolicy, Selection;
    var ws := m.policy.voters.weights;
    PolicyBounds(m);
    var payloads := CollectPayloads(k, m);
    var sorted := SortByWeight(ws, payloads);
    Permuted(m, payloads, sorted);
    SortedHeaviestFirst(m, sorted);
    var cut := Cut(m, sorted, m.policy.threshold);
    selected := SortByIndex(cut);
    CutIsSelection(m, sorted, |cut|, selected);
  }

  lemma SortedHeaviestFirst(m: Message, ps: seq<SignedPayload>)
    requires |m.policy.voters.weights| == |m.payload| && FromSlots(m, ps) && Different(ps)
    requires var ws := m.policy.voters.weights;
             forall i, j :: 0 <= i < j < |ps| ==> WeightAt(ws, ps[i].index) >= WeightAt(ws, ps[j].index)
    ensures Indices(m.policy.voters.weights, IndexList(m, ps))
    ensures HeaviestFirst(m.policy.voters.weights, IndexList(m, ps))
  {
  }

  lemma {:induction false} BoundedSet(t: set<nat>, n: nat)
    requires forall i :: i in t ==> i < n
    ensures |t| <= n
  {
    if n == 0 {
      assert t == {};
    } else {
      BoundedSet(t - {n - 1}, n - 1);
    }
  }

  /** No more payloads are selected than there are slots. */
  lemma AtMostAllSlots(m: Message, selected: seq<SignedPayload>)
    requires FromSlots(m, selected) && |Chosen(m, selected)| == |selected|
    ensures |selected| <= |m.payload|
  {
    forall i | i in Chosen(m, selected)
      ensures i < |m.payload|
    {
      ChosenIn(m, selected, i);
    }
    BoundedSet(Chosen(m, selected), |m.payload|);
  }

  /** Nothing is selected exactly when nothing is stored. */
  lemma EmptySelection(m: Message, selected: seq<SignedPayload>)
    requires Selection(m, m.policy.threshold, selected)
    ensures selected == [] <==> Filled(m) == {}
  {
    var ws := m.policy.voters.weights;
    EmptySetWeight(ws);
    if selected == [] {
      assert Chosen(m, selected) == {};
    } else {
      ChosenIn(m, selected, selected[0].index);
    }
  }
}
