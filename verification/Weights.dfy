/** Sums of voter weights over prefixes and over sets of voter indices. */
module Weights {
  import opened Prelude

  /** The summed weight of the indices of `t` that are below `n`. */
  function SumOn(ws: seq<Uint16>, t: set<nat>, n: nat): nat
    requires n <= |ws|
  {
    if n == 0 then 0 else SumOn(ws, t, n - 1) + if n - 1 in t then ws[n - 1] else 0
  }

  /** The summed weight of the first `n` voters. */
  function Prefix(ws: seq<Uint16>, n: nat): nat
    requires n <= |ws|
  {
    if n == 0 then 0 else Prefix(ws, n - 1) + ws[n - 1]
  }

  function Total(ws: seq<Uint16>): nat {
    Prefix(ws, |ws|)
  }

  /** The summed weight of a set of voter indices. */
  function WeightOf(ws: seq<Uint16>, t: set<nat>): nat {
    SumOn(ws, t, |ws|)
  }

  lemma {:induction false} PrefixMonotone(ws: seq<Uint16>, i: nat, j: nat)
    requires i <= j <= |ws|
    ensures Prefix(ws, i) <= Prefix(ws, j)
    decreases j
  {
    if i < j {
      PrefixMonotone(ws, i, j - 1);
    }
  }

  lemma {:induction false} SumOnInsert(ws: seq<Uint16>, t: set<nat>, x: nat, n: nat)
    requires n <= |ws| && x !in t
    ensures SumOn(ws, t + {x}, n) == SumOn(ws, t, n) + if x < n then ws[x] else 0
  {
    if n > 0 {
      SumOnInsert(ws, t, x, n - 1);
    }
  }

  /** Weight is monotone in the set and never exceeds the total. */
  lemma {:induction false} SumOnMonotone(ws: seq<Uint16>, t: set<nat>, u: set<nat>, n: nat)
    requires n <= |ws| && t <= u
    ensures SumOn(ws, t, n) <= SumOn(ws, u, n) <= Prefix(ws, n)
  {
    if n > 0 {
      SumOnMonotone(ws, t, u, n - 1);
    }
  }

  lemma InsertWeight(ws: seq<Uint16>, t: set<nat>, x: nat)
    requires x < |ws| && x !in t
    ensures WeightOf(ws, t + {x}) == WeightOf(ws, t) + ws[x] <= Total(ws)
  {
    SumOnInsert(ws, t, x, |ws|);
    SumOnMonotone(ws, t + {x}, t + {x}, |ws|);
  }

  lemma {:induction false} EmptyWeight(ws: seq<Uint16>, n: nat)
    requires n <= |ws|
    ensures SumOn(ws, {}, n) == 0
  {
    if n > 0 {
      EmptyWeight(ws, n - 1);
    }
  }

  /** Positive weights: there are at most as many voters as units of weight. */
  lemma {:induction false} PositiveCount(ws: seq<Uint16>, n: nat)
    requires n <= |ws|
    requires forall i :: 0 <= i < |ws| ==> ws[i] > 0
    ensures n <= Prefix(ws, n)
  {
    if n > 0 {
      PositiveCount(ws, n - 1);
    }
  }
}
