/** Subscriptions and the merging of the several subscriptions one client may hold
    on filters matching the same topic. */
module Subscriptions {
  import opened Options

  datatype Subscription = Subscription(
    filter: string,
    identifier: int,
    identifiers: Option<map<string, int>>,
    retainHandling: nat,
    qos: nat,
    retainAsPublished: bool,
    noLocal: bool,
    fwdRetainedFlag: bool)
  {
    /** Merges `n` into this subscription, keeping the highest qos, every positive
        identifier and no-local. */
    function Merge(n: Subscription): (r: Subscription)
    {
      var ids := if identifiers.None? then map[filter := identifier] else identifiers.value;
      this.(identifiers := Some(if n.identifier > 0 then ids[n.filter := n.identifier] else ids),
            qos := if n.qos > qos then n.qos else qos,
            noLocal := noLocal || n.noLocal)
    }
  }

  /** `r` is what delivery to a client should use when exactly the subscriptions `m`
      of that client match: one of them, with the highest qos of all, no-local if any
      has it, and exactly their positive identifiers. */
  ghost predicate IsMerge(r: Subscription, m: set<Subscription>) {
    OneOf(r, m) && HighestQos(r, m) && NoLocalOfAny(r, m) && IdentifiersOfAll(r, m)
  }

  ghost predicate OneOf(r: Subscription, m: set<Subscription>) {
    exists s :: s in m && r == s.(qos := r.qos, noLocal := r.noLocal, identifiers := r.identifiers)
  }

  ghost predicate HighestQos(r: Subscription, m: set<Subscription>) {
    && (forall s :: s in m ==> s.qos <= r.qos)
    && (exists s :: s in m && s.qos == r.qos)
  }

  ghost predicate NoLocalOfAny(r: Subscription, m: set<Subscription>) {
    r.noLocal <==> exists s :: s in m && s.noLocal
  }

  ghost predicate IdentifiersOfAll(r: Subscription, m: set<Subscription>) {
    && r.identifiers.Some?
    && (forall s :: s in m && s.identifier > 0 ==>
          s.filter in r.identifiers.value && r.identifiers.value[s.filter] == s.identifier)
    && (forall f :: f in r.identifiers.value && r.identifiers.value[f] > 0 ==>
          exists s :: s in m && s.filter == f && s.identifier == r.identifiers.value[f])
  }

  lemma MergeFirst(x: Subscription)
    requires x.identifiers.None?
    ensures IsMerge(x.Merge(x), {x})
  {
  }

  /** Merging one more subscription, or one already merged, in any order. */
  lemma MergeNext(r: Subscription, m: set<Subscription>, x: Subscription)
    requires IsMerge(r, m)
    requires forall s :: s in m && s.filter == x.filter ==> s == x
    ensures IsMerge(r.Merge(x), m + {x})
  {
    hide OneOf, HighestQos, NoLocalOfAny, IdentifiersOfAll, Subscription.Merge;
    AloneIsHighest(x);
    MergeBase(r, m, x, {x});
    assert x in {x};
    MergeIdentifiers(r, m, x, {x});
  }

  lemma AloneIsHighest(x: Subscription)
    ensures HighestQos(x, {x}) && NoLocalOfAny(x, {x})
  {
  }

  /** All but the identifiers: merging the record of `p` into the record of `m`. */
  lemma MergeBase(r: Subscription, m: set<Subscription>, x: Subscription, p: set<Subscription>)
    requires OneOf(r, m) && HighestQos(r, m) && NoLocalOfAny(r, m)
    requires HighestQos(x, p) && NoLocalOfAny(x, p)
    ensures var r' := r.Merge(x);
            OneOf(r', m + p) && HighestQos(r', m + p) && NoLocalOfAny(r', m + p)
  {
  }

  /** The identifiers of `p` are carried over when only the filter of `x` has one. */
  lemma MergeIdentifiers(r: Subscription, m: set<Subscription>, x: Subscription, p: set<Subscription>)
    requires IdentifiersOfAll(r, m)
    requires exists b :: b in p && b.filter == x.filter && b.identifier == x.identifier
    requires forall s, y :: s in m && y in p && s.filter == y.filter ==> s == y
    requires forall y, z :: y in p && z in p && y.filter == z.filter ==> y == z
    requires forall y :: y in p && y.identifier > 0 ==> y.filter == x.filter
    ensures IdentifiersOfAll(r.Merge(x), m + p)
  {
  }
}
