/** Taking the heaviest voters first until a threshold is passed. */
module Greedy {
  import opened Prelude
  import opened Weights

  ghost predicate Indices(ws: seq<Uint16>, s: seq<nat>) {
    && (forall j :: 0 <= j < |s| ==> s[j] < |ws|)
    && (forall i, j :: 0 <= i < j < |s| ==> s[i] != s[j])
  }

  ghost predicate HeaviestFirst(ws: seq<Uint16>, s: seq<nat>)
    requires Indices(ws, s)
  {
    forall i, j :: 0 <= i < j < |s| ==> ws[s[i]] >= ws[s[j]]
  }

  ghost function Elems(s: seq<nat>): set<nat> {
    set x | x in s
  }

  /** The weight of the first `n` indices of the list. */
  ghost function ListWeight(ws: seq<Uint16>, s: seq<nat>, n: nat): nat
    requires Indices(ws, s) && n <= |s|
  {
    if n == 0 then 0 else ListWeight(ws, s, n - 1) + ws[s[n - 1]]
  }

  /** A list of different indices weighs what its set weighs, so at most the total. */
  lemma {:induction false} ListWeightIsSetWeight(ws: seq<Uint16>, s: seq<nat>, n: nat)
    requires Indices(ws, s) && n <= |s|
    ensures ListWeight(ws, s, n) == WeightOf(ws, Elems(s[..n])) <= Total(ws)
  {
    if n == 0 {
      assert Elems(s[..0]) == {};
      EmptyWeight(ws, |ws|);
    } else {
      hide WeightOf;
      ListWeightIsSetWeight(ws, s, n - 1);
      assert s[..n] == s[..n - 1] + [s[n - 1]];
      assert Elems(s[..n]) == Elems(s[..n - 1]) + {s[n - 1]};
      InsertWeight(ws, Elems(s[..n - 1]), s[n - 1]);
    }
  }

  lemma {:induction false} ElemsCount(s: seq<nat>)
    requires forall i, j :: 0 <= i < j < |s| ==> s[i] != s[j]
    ensures |Elems(s)| == |s|
  {
    if s != [] {
      var front := s[..|s| - 1];
      ElemsCount(front);
      assert s == front + [s[|s| - 1]];
      assert Elems(s) == Elems(front) + {s[|s| - 1]};
    }
  }

  lemma {:induction false} ListWeightPrefix(ws: seq<Uint16>, s: seq<nat>, m: nat, n: nat)
    requires Indices(ws, s) && n <= m <= |s| && Indices(ws, s[..m])
    ensures ListWeight(ws, s[..m], n) == ListWeight(ws, s, n)
  {
    if n > 0 {
      ListWeightPrefix(ws, s, m, n - 1);
    }
  }

  lemma {:induction false} ListWeightMonotone(ws: seq<Uint16>, s: seq<nat>, m: nat, n: nat)
    requires Indices(ws, s) && m <= n <= |s|
    ensures ListWeight(ws, s, m) <= ListWeight(ws, s, n)
    decreases n
  {
    if m < n {
      ListWeightMonotone(ws, s, m, n - 1);
    }
  }

  lemma DropLast(ws: seq<Uint16>, s: seq<nat>)
    requires Indices(ws, s) && HeaviestFirst(ws, s) && s != []
    ensures var front := s[..|s| - 1];
            Indices(ws, front) && HeaviestFirst(ws, front) && Elems(s) == Elems(front) + {s[|s| - 1]}
  {
    assert s == s[..|s| - 1] + [s[|s| - 1]];
  }

  /** Adding the lightest listed index to a set costs no more than the next place in the list. */
  lemma {:induction false} LightestLast(ws: seq<Uint16>, s: seq<nat>, t: set<nat>)
    requires Indices(ws, s) && HeaviestFirst(ws, s) && s != [] && s[|s| - 1] !in t && Indices(ws, s[..|s| - 1])
    requires |t| < |s| && WeightOf(ws, t) <= ListWeight(ws, s[..|s| - 1], |t|)
    ensures WeightOf(ws, t + {s[|s| - 1]}) <= ListWeight(ws, s, |t| + 1)
  {
    hide WeightOf;
    InsertWeight(ws, t, s[|s| - 1]);
    ListWeightPrefix(ws, s, |s| - 1, |t|);
    assert ws[s[|t|]] >= ws[s[|s| - 1]];
  }

  /** No set of `n` listed indices outweighs the first `n` of a heaviest-first list. */
  lemma {:induction false} FirstAreHeaviest(ws: seq<Uint16>, s: seq<nat>, t: set<nat>)
    requires Indices(ws, s) && HeaviestFirst(ws, s) && t <= Elems(s)
    ensures |t| <= |s| && WeightOf(ws, t) <= ListWeight(ws, s, |t|)
  {
    hide WeightOf, Indices, HeaviestFirst, Elems, ListWeight;
    if s == [] {
      NothingListed(ws, s, t);
    } else {
      var front, x := s[..|s| - 1], s[|s| - 1];
      DropLast(ws, s);
      if x !in t {
        FirstAreHeaviest(ws, front, t);
        ListWeightPrefix(ws, s, |s| - 1, |t|);
      } else {
        FirstAreHeaviest(ws, front, t - {x});
        LightestLast(ws, s, t - {x});
        PutBack(t, x);
      }
    }
  }

  lemma NothingListed(ws: seq<Uint16>, s: seq<nat>, t: set<nat>)
    requires s == [] && t <= Elems(s)
    ensures |t| == 0 && WeightOf(ws, t) == ListWeight(ws, s, 0)
  {
    assert t == {};
    EmptySetWeight(ws);
  }

  lemma PutBack(t: set<nat>, x: nat)
    requires x in t
    ensures (t - {x}) + {x} == t && |t| == |t - {x}| + 1
  {
  }

  lemma EmptySetWeight(ws: seq<Uint16>)
    ensures WeightOf(ws, {}) == 0
  {
    EmptyWeight(ws, |ws|);
  }

  /** Where the greedy loop stops: the first prefix above the threshold, or the whole list. */
  ghost predicate CutAt(ws: seq<Uint16>, s: seq<nat>, threshold: nat, n: nat)
    requires Indices(ws, s)
  {
    && n <= |s|
    && (n > 0 ==> ListWeight(ws, s, n - 1) <= threshold)
    && (n < |s| ==> ListWeight(ws, s, n) > threshold)
  }

  /** Greedy is optimal: nothing smaller than the chosen prefix exceeds the threshold. */
  lemma GreedyOptimal(ws: seq<Uint16>, s: seq<nat>, threshold: nat, n: nat, t: set<nat>)
    requires Indices(ws, s) && HeaviestFirst(ws, s) && CutAt(ws, s, threshold, n) && t <= Elems(s)
    ensures |t| < n ==> WeightOf(ws, t) <= threshold
    ensures ListWeight(ws, s, n) <= threshold ==> WeightOf(ws, t) <= threshold
  {
    FirstAreHeaviest(ws, s, t);
    if |t| < n {
      ListWeightMonotone(ws, s, |t|, n - 1);
    }
    if ListWeight(ws, s, n) <= threshold {
      ListWeightMonotone(ws, s, |t|, n);
    }
  }

  /** The chosen prefix exceeds the threshold exactly when all listed indices together do. */
  lemma CutReaches(ws: seq<Uint16>, s: seq<nat>, threshold: nat, n: nat)
    requires Indices(ws, s) && CutAt(ws, s, threshold, n)
    ensures ListWeight(ws, s, n) > threshold <==> WeightOf(ws, Elems(s)) > threshold
    ensures ListWeight(ws, s, n) <= threshold ==> n == |s|
  {
    ListWeightIsSetWeight(ws, s, |s|);
    assert s[..|s|] == s;
    ListWeightMonotone(ws, s, n, |s|);
  }
}
