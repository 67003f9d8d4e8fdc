/**
 * At-least-once delivery is harmless: what a run stores depends only on the set of transactions
 * the listener passed on (client/finalizer/submission_utils.go, finalizer_client.go, submission_storage.go).
 */
module Redelivery {
  import opened Prelude
  import opened SigningPolicies
  import opened Payloads
  import opened Submissions
  import opened SubmissionRuns
  import opened Finalizer
  import opened Listener
  import opened Pipeline

  /** What becomes of each item of a transaction: the policy it is stored under, if any. */
  type Fates = nat -> Option<SigningPolicy>

  /** The items for `k` that are not rejected meet their fates. */
  ghost predicate SteadyItems(
    start: Uint32, list: seq<SigningPolicy>, items: seq<SubmitterPayloadItem>, clock: nat -> Clock, fates: Fates, k: Key)
  {
    forall i :: 0 <= i < |items| && KeyOf(items[i].payload) == k ==>
      match Classify(start, list, items[i].votingRoundId, clock(i))
      case Reject => true
      case Skip => fates(i).None?
      case Store(sp, _) => fates(i) == Some(sp)
  }

  /** Throughout the run an item for `k` meets the same fate each time its transaction is fetched. */
  ghost predicate Steady(g: Config, es: seq<Event>, fate: Tx -> Fates, k: Key)
    requires Possible(g, es)
  {
    es == [] ||
    (var front, e := es[..|es| - 1], es[|es| - 1];
     && Steady(g, front, fate, k)
     && (e.Tick? ==> forall j :: 0 <= j < |e.batch| ==>
           SteadyItems(g.start, After(g, front).policies, ItemsOf(g.crypto, e.batch[j]), e.clock(j), fate(e.batch[j]), k)))
  }

  // ---------- What is due to be stored for a key ----------

  ghost predicate IsDue(fates: Fates, k: Key, items: seq<SubmitterPayloadItem>, i: nat)
    requires i < |items|
  {
    KeyOf(items[i].payload) == k && fates(i).Some?
  }

  ghost function OfItem(fates: Fates, k: Key, items: seq<SubmitterPayloadItem>, i: nat): Contribution
    requires i < |items|
  {
    if IsDue(fates, k, items, i) then Contribution(fates(i), {items[i].payload}) else NOTHING
  }

  /** What the first `n` items bring to `k`. */
  ghost function OfItems(fates: Fates, k: Key, items: seq<SubmitterPayloadItem>, n: nat): (r: Contribution)
    requires n <= |items|
    ensures r.Proper()
  {
    if n == 0 then NOTHING else OfItems(fates, k, items, n - 1).Then(OfItem(fates, k, items, n - 1))
  }

  ghost function OfTx(c: Crypto, fate: Tx -> Fates, k: Key, tx: Tx): (r: Contribution)
    ensures r.Proper()
  {
    OfItems(fate(tx), k, ItemsOf(c, tx), |ItemsOf(c, tx)|)
  }

  ghost function OfTxs(c: Crypto, fate: Tx -> Fates, k: Key, txs: seq<Tx>): (r: Contribution)
    ensures r.Proper()
  {
    if txs == [] then NOTHING else OfTxs(c, fate, k, txs[..|txs| - 1]).Then(OfTx(c, fate, k, txs[|txs| - 1]))
  }

  lemma OfTxsAppend(c: Crypto, fate: Tx -> Fates, k: Key, txs: seq<Tx>, tx: Tx)
    ensures OfTxs(c, fate, k, txs + [tx]) == OfTxs(c, fate, k, txs).Then(OfTx(c, fate, k, tx))
  {
    assert (txs + [tx])[..|txs|] == txs;
  }

  // ---------- A run stores exactly what is due ----------

  lemma {:induction false} ProcessedStoresDue(
    start: Uint32, list: seq<SigningPolicy>, p: Pipe, items: seq<SubmitterPayloadItem>, i: nat,
    clock: nat -> Clock, fates: Fates, k: Key, before: Contribution)
    requires GoodPolicies(list) && AllShaped(p.storage) && i <= |items| && SteadyItems(start, list, items, clock, fates, k)
    requires OfOps(p.ops, k) == before.Then(OfItems(fates, k, items, i))
    requires Processed(start, list, p, items, i, clock).1
    ensures OfOps(Processed(start, list, p, items, i, clock).0.ops, k) == before.Then(OfItems(fates, k, items, |items|))
    decreases |items| - i
  {
    hide Classify, OfOps, GoodPolicy, Stored, Reports, AllShaped;
    if i < |items| {
      ClassifiedPolicyIsGood(start, list, items[i].votingRoundId, clock(i));
      ThenAssociative(before, OfItems(fates, k, items, i), OfItem(fates, k, items, i));
      match Classify(start, list, items[i].votingRoundId, clock(i))
      case Skip =>
        ThenNothing(before.Then(OfItems(fates, k, items, i)));
        ProcessedStoresDue(start, list, p, items, i + 1, clock, fates, k, before);
      case Reject =>
      case Store(sp, threshold) =>
        StoreItemShaped(p, items[i], sp, threshold);
        OfAppend(p.ops, Add(items[i].payload, sp, threshold), k);
        ProcessedStoresDue(start, list, StoreItem(p, items[i], sp, threshold), items, i + 1, clock, fates, k, before);
    }
  }

  /** What was added for the key so far is what was due in the transactions passed so far. */
  ghost predicate Faithful(c: Crypto, fate: Tx -> Fates, k: Key, f: Front) {
    OfOps(f.pipe.ops, k) == OfTxs(c, fate, k, f.handled)
  }

  lemma PassFaithful(
    c: Crypto, start: Uint32, list: seq<SigningPolicy>, f: Front, tx: Tx, clock: nat -> Clock,
    fate: Tx -> Fates, k: Key)
    requires GoodPolicies(list) && AllShaped(f.pipe.storage) && Faithful(c, fate, k, f)
    requires SteadyItems(start, list, ItemsOf(c, tx), clock, fate(tx), k)
    requires Processed(start, list, f.pipe, ItemsOf(c, tx), 0, clock).1
    ensures var pipe := Processed(start, list, f.pipe, ItemsOf(c, tx), 0, clock).0;
            Faithful(c, fate, k, Front(tx.timestamp - 1, pipe, f.handled + [tx]))
  {
    hide Processed, ItemsOf, GoodPolicies, AllShaped, SteadyItems, OfOps, OfTxs;
    ThenNothing(OfOps(f.pipe.ops, k));
    ProcessedStoresDue(start, list, f.pipe, ItemsOf(c, tx), 0, clock, fate(tx), k, OfOps(f.pipe.ops, k));
    OfTxsAppend(c, fate, k, f.handled, tx);
  }

  lemma {:induction false} DeliveredFaithful(
    c: Crypto, start: Uint32, list: seq<SigningPolicy>, f: Front, batch: seq<Tx>, j: nat,
    clock: nat -> (nat -> Clock), fate: Tx -> Fates, k: Key)
    requires GoodPolicies(list) && AllShaped(f.pipe.storage) && j <= |batch| && Faithful(c, fate, k, f)
    requires forall l :: 0 <= l < |batch| ==> SteadyItems(start, list, ItemsOf(c, batch[l]), clock(l), fate(batch[l]), k)
    ensures Faithful(c, fate, k, Delivered(start, c, list, f, batch, j, clock))
    decreases |batch| - j
  {
    hide Processed, ItemsOf, GoodPolicies, AllShaped, SteadyItems, OfOps, OfTxs;
    if j < |batch| {
      ProcessedRejects(start, c, list, f.pipe, batch[j], clock(j));
      var (pipe, ok) := Processed(start, list, f.pipe, ItemsOf(c, batch[j]), 0, clock(j));
      if ok {
        PassFaithful(c, start, list, f, batch[j], clock(j), fate, k);
        var f' := Front(batch[j].timestamp - 1, pipe, f.handled + [batch[j]]);
        DeliveredFaithful(c, start, list, f', batch, j + 1, clock, fate, k);
      }
    }
  }

  lemma {:induction false} AlwaysFaithful(g: Config, es: seq<Event>, fate: Tx -> Fates, k: Key)
    requires Possible(g, es) && Steady(g, es, fate, k)
    ensures Faithful(g.crypto, fate, k, After(g, es).front)
  {
    hide GoodPolicies, Delivered, Run, IsFetch, SteadyItems, PipeSound, AllShaped, GoodPolicy;
    if es != [] {
      AlwaysFaithful(g, es[..|es| - 1], fate, k);
      hide OfOps, OfTxs;
      var s := After(g, es[..|es| - 1]);
      match es[|es| - 1]
      case Tick(_, batch, clock) =>
        SoundIsShaped(g, s);
        DeliveredFaithful(g.crypto, g.start, s.policies, s.front, batch, 0, clock, fate, k);
      case Cleanup(round) =>
        OfAppend(s.front.pipe.ops, Remove(RemovedIds(s.policies, round)), k);
        ThenNothing(OfOps(s.front.pipe.ops, k));
      case Append(_) =>
      case NewPolicy(_) =>
      case Pop =>
    }
  }

  /**
   * After any run the message stored for a key whose round was not removed is determined by the
   * transactions passed on: its policy is that of the first item due for it, and its filled slots
   * are those of the voters who signed an item due for it.
   */
  lemma {:induction false} StoresExactlyTheDue(g: Config, es: seq<Event>, fate: Tx -> Fates, k: Key)
    requires Possible(g, es) && Steady(g, es, fate, k) && Kept(After(g, es).front.pipe.ops, k)
    ensures var f := After(g, es).front;
            ViewIs(f.pipe.storage, k, OfTxs(g.crypto, fate, k, f.handled))
  {
    hide Possible, Steady, Run, GoodPolicy, ViewIs, OfOps, OfTxs;
    AlwaysFaithful(g, es, fate, k);
    ViewDependsOnSet(After(g, es).front.pipe.ops, k);
  }

  // ---------- Repetition does not matter ----------

  /** `a` already has what `b` brings. */
  ghost predicate Covers(a: Contribution, b: Contribution) {
    b.payloads <= a.payloads && (a.first.Some? || b.first.None?)
  }

  lemma Absorbed(a: Contribution, b: Contribution)
    requires Covers(a, b)
    ensures a.Then(b) == a
  {
    assert a.payloads + b.payloads == a.payloads;
  }

  lemma {:induction false} AlreadyDue(c: Crypto, fate: Tx -> Fates, k: Key, txs: seq<Tx>, tx: Tx)
    requires tx in txs
    ensures Covers(OfTxs(c, fate, k, txs), OfTx(c, fate, k, tx))
  {
    hide OfTx;
    var front, last := txs[..|txs| - 1], txs[|txs| - 1];
    assert txs == front + [last];
    if tx in front {
      AlreadyDue(c, fate, k, front, tx);
    }
  }

  /** The first occurrences, in order. */
  ghost function Once(txs: seq<Tx>): (r: seq<Tx>)
    ensures forall tx :: tx in r <==> tx in txs
    ensures forall i, j :: 0 <= i < j < |r| ==> r[i] != r[j]
  {
    if txs == [] then []
    else
      var front, last := txs[..|txs| - 1], txs[|txs| - 1];
      assert txs == front + [last];
      if last in front then Once(front) else Once(front) + [last]
  }

  lemma {:induction false} DueOnce(c: Crypto, fate: Tx -> Fates, k: Key, txs: seq<Tx>)
    ensures OfTxs(c, fate, k, Once(txs)) == OfTxs(c, fate, k, txs)
  {
    hide OfTx;
    if txs != [] {
      var front, last := txs[..|txs| - 1], txs[|txs| - 1];
      DueOnce(c, fate, k, front);
      if last in front {
        AlreadyDue(c, fate, k, front, last);
        Absorbed(OfTxs(c, fate, k, front), OfTx(c, fate, k, last));
      } else {
        OfTxsAppend(c, fate, k, Once(front), last);
      }
    }
  }

  // ---------- Order does not matter under one policy ----------

  /** All items due for `k` in these transactions name the policy `sp`. */
  ghost predicate OnePolicy(c: Crypto, fate: Tx -> Fates, k: Key, txs: seq<Tx>, sp: SigningPolicy) {
    forall tx, i :: tx in txs && 0 <= i < |ItemsOf(c, tx)| && IsDue(fate(tx), k, ItemsOf(c, tx), i) ==>
      fate(tx)(i) == Some(sp)
  }

  lemma {:induction false} ItemsUnderOnePolicy(
    fates: Fates, k: Key, items: seq<SubmitterPayloadItem>, n: nat, sp: SigningPolicy)
    requires n <= |items| && forall i :: 0 <= i < |items| && IsDue(fates, k, items, i) ==> fates(i) == Some(sp)
    ensures OfItems(fates, k, items, n).first in {None, Some(sp)}
  {
    if n > 0 {
      ItemsUnderOnePolicy(fates, k, items, n - 1, sp);
    }
  }

  lemma {:induction false} TxsUnderOnePolicy(c: Crypto, fate: Tx -> Fates, k: Key, txs: seq<Tx>, sp: SigningPolicy)
    requires OnePolicy(c, fate, k, txs, sp)
    ensures OfTxs(c, fate, k, txs).first in {None, Some(sp)}
  {
    if txs != [] {
      hide ItemsOf, IsDue;
      var front, last := txs[..|txs| - 1], txs[|txs| - 1];
      assert last in txs && forall tx :: tx in front ==> tx in txs;
      TxsUnderOnePolicy(c, fate, k, front, sp);
      ItemsUnderOnePolicy(fate(last), k, ItemsOf(c, last), |ItemsOf(c, last)|, sp);
    }
  }

  lemma {:induction false} DueIn(c: Crypto, fate: Tx -> Fates, k: Key, txs: seq<Tx>, p: SignedPayload)
    ensures p in OfTxs(c, fate, k, txs).payloads <==> exists tx :: tx in txs && p in OfTx(c, fate, k, tx).payloads
  {
    hide OfTx;
    if txs != [] {
      var front, last := txs[..|txs| - 1], txs[|txs| - 1];
      DueIn(c, fate, k, front, p);
      assert txs == front + [last];
    }
  }

  /** Under one policy only the set of transactions matters. */
  lemma {:induction false} DueDependsOnSet(
    c: Crypto, fate: Tx -> Fates, k: Key, txs: seq<Tx>, txs': seq<Tx>, sp: SigningPolicy)
    requires (forall tx :: tx in txs <==> tx in txs') && OnePolicy(c, fate, k, txs, sp)
    ensures OfTxs(c, fate, k, txs) == OfTxs(c, fate, k, txs')
  {
    hide OfTxs, OfTx, ItemsOf, IsDue;
    TxsUnderOnePolicy(c, fate, k, txs, sp);
    TxsUnderOnePolicy(c, fate, k, txs', sp);
    var due, due' := OfTxs(c, fate, k, txs), OfTxs(c, fate, k, txs');
    forall p: SignedPayload
      ensures p in due.payloads <==> p in due'.payloads
    {
      DueIn(c, fate, k, txs, p);
      DueIn(c, fate, k, txs', p);
    }
    assert due.payloads == due'.payloads;
  }

  // ---------- The main result ----------

  ghost predicate GoodFates(fate: Tx -> Fates) {
    forall tx: Tx, i: nat :: fate(tx)(i).Some? ==> GoodPolicy(fate(tx)(i).value)
  }

  /** The additions of the first `n` items, each under its fate. */
  ghost function ItemOps(fates: Fates, items: seq<SubmitterPayloadItem>, n: nat): (ops: seq<Op>)
    requires n <= |items| && forall i: nat :: fates(i).Some? ==> GoodPolicy(fates(i).value)
    ensures GoodOps(ops) && forall i :: 0 <= i < |ops| ==> ops[i].Add?
  {
    if n == 0 then []
    else
      ItemOps(fates, items, n - 1) +
      if fates(n - 1).Some?
      then [Add(items[n - 1].payload, fates(n - 1).value, fates(n - 1).value.threshold)]
      else []
  }

  /** Hands the items of each transaction to the storage, in order. */
  ghost function HandedOver(c: Crypto, fate: Tx -> Fates, txs: seq<Tx>): (ops: seq<Op>)
    requires GoodFates(fate)
    ensures GoodOps(ops) && forall i :: 0 <= i < |ops| ==> ops[i].Add?
  {
    if txs == [] then []
    else
      var tx := txs[|txs| - 1];
      HandedOver(c, fate, txs[..|txs| - 1]) + ItemOps(fate(tx), ItemsOf(c, tx), |ItemsOf(c, tx)|)
  }

  lemma {:induction false} ItemOpsAdd(fates: Fates, items: seq<SubmitterPayloadItem>, n: nat, k: Key)
    requires n <= |items| && forall i: nat :: fates(i).Some? ==> GoodPolicy(fates(i).value)
    ensures OfOps(ItemOps(fates, items, n), k) == OfItems(fates, k, items, n)
  {
    if n > 0 {
      hide OfOps, GoodPolicy;
      ItemOpsAdd(fates, items, n - 1, k);
      var ops := ItemOps(fates, items, n - 1);
      if fates(n - 1).Some? {
        OfAppend(ops, Add(items[n - 1].payload, fates(n - 1).value, fates(n - 1).value.threshold), k);
      } else {
        assert ItemOps(fates, items, n) == ops;
        ThenNothing(OfOps(ops, k));
      }
    }
  }

  lemma {:induction false} HandedOverAdds(c: Crypto, fate: Tx -> Fates, txs: seq<Tx>, k: Key)
    requires GoodFates(fate)
    ensures OfOps(HandedOver(c, fate, txs), k) == OfTxs(c, fate, k, txs)
  {
    if txs != [] {
      hide OfOps, GoodPolicy, ItemOps, ItemsOf;
      var front, last := txs[..|txs| - 1], txs[|txs| - 1];
      HandedOverAdds(c, fate, front, k);
      var items := ItemsOf(c, last);
      ItemOpsAdd(fate(last), items, |items|, k);
      OfConcat(HandedOver(c, fate, front), ItemOps(fate(last), items, |items|), k);
    }
  }

  /** Two storages agree on a key: presence, policy, filled slots and weight. */
  ghost predicate SameView(s: Storage, t: Storage, k: Key) {
    && (k in s <==> k in t)
    && (k in s ==> s[k].policy == t[k].policy && Filled(s[k]) == Filled(t[k]) && s[k].weight == t[k].weight)
  }

  lemma OneView(s: Storage, t: Storage, k: Key, c: Contribution)
    requires ViewIs(s, k, c) && ViewIs(t, k, c)
    ensures SameView(s, t, k)
  {
    hide Filled, Due;
  }

  lemma {:induction false} HandedOverView(c: Crypto, fate: Tx -> Fates, txs: seq<Tx>, k: Key)
    requires GoodFates(fate)
    ensures ViewIs(Run(HandedOver(c, fate, txs)), k, OfTxs(c, fate, k, txs))
  {
    hide Run, ViewIs, OfOps, OfTxs, HandedOver, GoodFates;
    HandedOverAdds(c, fate, txs, k);
    ViewDependsOnSet(HandedOver(c, fate, txs), k);
  }

  /**
   * Redelivery is harmless: after any run -- ticks, rejections, retries, overlapping ranges --
   * a key whose round was not removed has the same policy, filled slots and weight as if each
   * transaction passed on had been handed to the storage exactly once, when it was first passed on.
   */
  lemma {:induction false} RedeliveryIsHarmless(g: Config, es: seq<Event>, fate: Tx -> Fates, k: Key)
    requires Possible(g, es) && Steady(g, es, fate, k) && GoodFates(fate) && Kept(After(g, es).front.pipe.ops, k)
    ensures var f := After(g, es).front;
            SameView(f.pipe.storage, Run(HandedOver(g.crypto, fate, Once(f.handled))), k)
  {
    hide Possible, Steady, Run, GoodPolicy, ViewIs, OfTxs, HandedOver, GoodFates, Once, SameView, Kept;
    var f := After(g, es).front;
    StoresExactlyTheDue(g, es, fate, k);
    DueOnce(g.crypto, fate, k, f.handled);
    HandedOverView(g.crypto, fate, Once(f.handled), k);
    OneView(f.pipe.storage, Run(HandedOver(g.crypto, fate, Once(f.handled))), k, OfTxs(g.crypto, fate, k, f.handled));
  }

  /** If in addition the items due for the key name one policy, the order of the transactions is harmless too. */
  lemma {:induction false} ReorderingIsHarmless(
    g: Config, es: seq<Event>, fate: Tx -> Fates, k: Key, txs: seq<Tx>, sp: SigningPolicy)
    requires Possible(g, es) && Steady(g, es, fate, k) && GoodFates(fate) && Kept(After(g, es).front.pipe.ops, k)
    requires (forall tx :: tx in txs <==> tx in After(g, es).front.handled) && OnePolicy(g.crypto, fate, k, txs, sp)
    ensures SameView(After(g, es).front.pipe.storage, Run(HandedOver(g.crypto, fate, txs)), k)
  {
    hide Possible, Steady, Run, GoodPolicy, ViewIs, OfTxs, HandedOver, GoodFates, OnePolicy, SameView, Kept;
    var f := After(g, es).front;
    StoresExactlyTheDue(g, es, fate, k);
    DueDependsOnSet(g.crypto, fate, k, txs, f.handled, sp);
    HandedOverView(g.crypto, fate, txs, k);
    OneView(f.pipe.storage, Run(HandedOver(g.crypto, fate, txs)), k, OfTxs(g.crypto, fate, k, f.handled));
  }
}
