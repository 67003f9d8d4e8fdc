/** The hand-written binary search over running sums (client/shared/voters/voter_set.go, `BinarySearch`). */
module Bisection {
  import opened Prelude

  ghost predicate Ascending(ts: seq<Uint16>) {
    forall i, j :: 0 <= i <= j < |ts| ==> ts[i] <= ts[j]
  }

  /** The loop of the search, as a function of its bounds. */
  function SearchBetween(ts: seq<Uint16>, left: nat, right: nat, value: Uint16): int
    requires left <= right < |ts|
    decreases right - left
  {
    if left == right then left - 1
    else
      var mid := (left + right) / 2;
      if ts[mid] < value then SearchBetween(ts, mid + 1, right, value)
      else if ts[mid] > value then SearchBetween(ts, left, mid, value)
      else mid
  }

  function Searched(ts: seq<Uint16>, value: Uint16): int
    requires |ts| > 0
  {
    if ts[|ts| - 1] <= value then |ts| - 1 else SearchBetween(ts, 0, |ts| - 1, value)
  }

  /** What the search is documented to return. */
  ghost predicate IsHighest(ts: seq<Uint16>, value: Uint16, r: int) {
    0 <= r < |ts| && ts[r] <= value && forall j :: r < j < |ts| ==> value < ts[j]
  }

  /** The value lies at the index found, or between it and the next one. */
  ghost predicate Brackets(ts: seq<Uint16>, value: Uint16, r: int) {
    0 <= r < |ts| && ts[r] <= value && (r < |ts| - 1 ==> ts[r] == value || value < ts[r + 1])
  }

  lemma {:induction false} SearchBetweenBrackets(ts: seq<Uint16>, left: nat, right: nat, value: Uint16)
    requires left <= right < |ts| && value < ts[right]
    requires if left == 0 then ts[0] <= value else ts[left - 1] < value
    ensures Brackets(ts, value, SearchBetween(ts, left, right, value))
    decreases right - left
  {
    if left < right {
      var mid := (left + right) / 2;
      if ts[mid] < value {
        SearchBetweenBrackets(ts, mid + 1, right, value);
      } else if ts[mid] > value {
        SearchBetweenBrackets(ts, left, mid, value);
      }
    }
  }

  lemma SearchedBrackets(ts: seq<Uint16>, value: Uint16)
    requires |ts| > 0 && ts[0] <= value
    ensures Brackets(ts, value, Searched(ts, value))
  {
    if value < ts[|ts| - 1] {
      SearchBetweenBrackets(ts, 0, |ts| - 1, value);
    }
  }

  // ---------- When the documented promise holds ----------

  /** The thresholds equal to `value` are exactly those at `a..b`. */
  ghost predicate IsRun(ts: seq<Uint16>, value: Uint16, a: nat, b: nat) {
    && a <= b < |ts|
    && (forall i :: 0 <= i < a ==> ts[i] < value)
    && (forall i :: a <= i <= b ==> ts[i] == value)
    && (forall i :: b < i < |ts| ==> value < ts[i])
  }

  /** The first midpoint of bisecting `left..right` that falls into `a..b`: positions only. */
  function FirstMidpoint(left: nat, right: nat, a: nat, b: nat): (m: nat)
    requires left <= a <= b < right
    ensures a <= m <= b
    decreases right - left
  {
    var mid := (left + right) / 2;
    if mid < a then FirstMidpoint(mid + 1, right, a, b)
    else if mid > b then FirstMidpoint(left, mid, a, b)
    else mid
  }

  lemma {:induction false} SearchHitsMidpoint(
    ts: seq<Uint16>, value: Uint16, left: nat, right: nat, a: nat, b: nat)
    requires IsRun(ts, value, a, b) && left <= a <= b < right < |ts|
    ensures SearchBetween(ts, left, right, value) == FirstMidpoint(left, right, a, b)
    decreases right - left
  {
    var mid := (left + right) / 2;
    if mid < a {
      SearchHitsMidpoint(ts, value, mid + 1, right, a, b);
    } else if mid > b {
      SearchHitsMidpoint(ts, value, left, mid, a, b);
    }
  }

  /** The run of equal thresholds around an index. */
  lemma RunAround(ts: seq<Uint16>, r: nat) returns (a: nat, b: nat)
    requires Ascending(ts) && r < |ts|
    ensures a <= r <= b && IsRun(ts, ts[r], a, b)
  {
    a, b := r, r;
    while a > 0 && ts[a - 1] == ts[r]
      invariant a <= r && forall i :: a <= i <= r ==> ts[i] == ts[r]
    {
      a := a - 1;
    }
    while b < |ts| - 1 && ts[b + 1] == ts[r]
      invariant r <= b < |ts| && forall i :: r <= i <= b ==> ts[i] == ts[r]
    {
      b := b + 1;
    }
  }

  /**
   * Whether the search keeps its promise for `value`, decided by positions: a run of equal
   * thresholds that ends before the last one must be hit first at its last position.
   */
  ghost predicate KeepsPromise(ts: seq<Uint16>, value: Uint16) {
    forall a: nat, b: nat :: IsRun(ts, value, a, b) && b < |ts| - 1 ==> FirstMidpoint(0, |ts| - 1, a, b) == b
  }

  /** The search returns the highest index with a threshold at most `value` exactly when it keeps its promise. */
  lemma HighestExactlyWhen(ts: seq<Uint16>, value: Uint16)
    requires Ascending(ts) && |ts| > 0 && ts[0] <= value
    ensures IsHighest(ts, value, Searched(ts, value)) <==> KeepsPromise(ts, value)
  {
    var r, n := Searched(ts, value), |ts|;
    SearchedBrackets(ts, value);
    if value < ts[n - 1] {
      if ts[r] == value {
        var a, b := RunAround(ts, r);
        SearchHitsMidpoint(ts, value, 0, n - 1, a, b);
        forall a': nat, b': nat | IsRun(ts, value, a', b')
          ensures a' == a && b' == b
        {
          RunUnique(ts, value, a, b, a', b');
        }
        assert ts[b] == value && b < n - 1;
        assert IsHighest(ts, value, r) <==> r == b;
        assert KeepsPromise(ts, value) <==> FirstMidpoint(0, n - 1, a, b) == b;
      } else {
        forall a: nat, b: nat | IsRun(ts, value, a, b)
          ensures false
        {
          RunTouches(ts, value, a, b, r);
        }
      }
    }
  }

  lemma RunTouches(ts: seq<Uint16>, value: Uint16, a: nat, b: nat, r: nat)
    requires Ascending(ts) && IsRun(ts, value, a, b) && r < |ts| - 1 && ts[r] <= value < ts[r + 1]
    ensures ts[r] == value
  {
    assert ts[a] == value;
  }

  lemma RunUnique(ts: seq<Uint16>, value: Uint16, a: nat, b: nat, a': nat, b': nat)
    requires IsRun(ts, value, a, b) && IsRun(ts, value, a', b')
    ensures a == a' && b == b'
  {
    assert ts[a] == value && ts[b] == value && ts[a'] == value && ts[b'] == value;
  }

  /** From the last threshold on the promise always holds. */
  lemma LastAlwaysKept(ts: seq<Uint16>, value: Uint16)
    requires |ts| > 0 && ts[|ts| - 1] <= value
    ensures KeepsPromise(ts, value)
  {
  }
}
