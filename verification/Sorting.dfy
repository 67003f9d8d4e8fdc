/** The library sorts (`sort.Slice`, `slices.SortFunc`): an ordered permutation, ties in any order. */
module Sorting {

  ghost predicate TotalPreorder<T(!new)>(le: (T, T) -> bool) {
    && (forall x, y :: le(x, y) || le(y, x))
    && (forall x, y, z :: le(x, y) && le(y, z) ==> le(x, z))
  }

  ghost predicate Ordered<T>(s: seq<T>, le: (T, T) -> bool) {
    forall i, j :: 0 <= i < j < |s| ==> le(s[i], s[j])
  }

  lemma OrderedSplice<T>(s: seq<T>, k: nat, x: T, le: (T, T) -> bool)
    requires k <= |s| && Ordered(s, le)
    requires forall i :: 0 <= i < k ==> le(s[i], x)
    requires forall i :: k <= i < |s| ==> le(x, s[i])
    ensures Ordered(s[..k] + [x] + s[k..], le)
  {
  }

  /** Inserts `x` into an ordered sequence. */
  method Insert<T(!new)>(s: seq<T>, x: T, le: (T, T) -> bool) returns (r: seq<T>)
    requires TotalPreorder(le) && Ordered(s, le)
    ensures Ordered(r, le)
    ensures multiset(r) == multiset(s) + multiset{x}
  {
    var k := |s|;
    while k > 0 && !le(s[k - 1], x)
      invariant 0 <= k <= |s|
      invariant forall i :: k <= i < |s| ==> le(x, s[i])
    {
      k := k - 1;
    }
    forall i | 0 <= i < k
      ensures le(s[i], x)
    {
      assert i == k - 1 || le(s[i], s[k - 1]);
    }
    OrderedSplice(s, k, x, le);
    r := s[..k] + [x] + s[k..];
    assert s == s[..k] + s[k..];
  }

  method Sort<T(!new)>(s: seq<T>, le: (T, T) -> bool) returns (r: seq<T>)
    requires TotalPreorder(le)
    ensures Ordered(r, le)
    ensures multiset(r) == multiset(s)
  {
    r := [];
    for k := 0 to |s|
      invariant Ordered(r, le)
      invariant multiset(r) == multiset(s[..k])
    {
      r := Insert(r, s[k], le);
      assert s[..k + 1] == s[..k] + [s[k]];
    }
    assert s[..|s|] == s;
  }
}
