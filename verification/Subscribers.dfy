/** The subscribers matching a topic, and the choice of one member per share group. */
module Subscribers {
  import opened Options
  import opened Subscriptions

  type Shared = map<string, map<string, Subscription>>

  /** Every shared filter has members, whose subscriptions carry that filter. */
  ghost predicate WellListed(shared: Shared) {
    && (forall f :: f in shared ==> shared[f] != map[])
    && (forall f, c :: f in shared && c in shared[f] ==>
          shared[f][c].filter == f && shared[f][c].identifiers.None?)
  }

  /** The subscriptions for which a client was chosen. */
  ghost function PickedFor(shared: Shared, pick: map<string, string>, c: string): (m: set<Subscription>) {
    set f | f in pick && pick[f] == c && f in shared && c in shared[f] :: shared[f][c]
  }

  ghost predicate SelectedOk(shared: Shared, pick: map<string, string>, selected: map<string, Subscription>,
                             c: string)
  {
    var m := PickedFor(shared, pick, c);
    && (c in selected <==> m != {})
    && (c in selected ==> IsMerge(selected[c], m))
  }

  lemma PickStep(shared: Shared, pick: map<string, string>, selected: map<string, Subscription>,
                 f: string, client: string, c: string)
    requires WellListed(shared) && f in shared && client in shared[f] && f !in pick
    requires SelectedOk(shared, pick, selected, c)
    ensures var s := shared[f][client];
            SelectedOk(shared, pick[f := client],
                       selected[client := (if client in selected then selected[client] else s).Merge(s)], c)
  {
    hide IsMerge, Subscription.Merge;
    var s, m := shared[f][client], PickedFor(shared, pick, c);
    if c == client {
      assert PickedFor(shared, pick[f := client], c) == m + {s};
      if c in selected {
        MergeNext(selected[c], m, s);
      } else {
        MergeFirst(s);
        assert m + {s} == {s};
      }
    } else {
      assert PickedFor(shared, pick[f := client], c) == m;
    }
  }

  class Matched {
    var shared: Shared
    var sharedSelected: map<string, Subscription>
    var subscriptions: map<string, Subscription>

    constructor ()
      ensures shared == map[] && sharedSelected == map[] && subscriptions == map[]
    {
      shared, sharedSelected, subscriptions := map[], map[], map[];
    }

    /** Chooses one member of every shared filter. */
    method SelectShared() returns (ghost pick: map<string, string>)
      requires WellListed(shared)
      modifies this`sharedSelected
      ensures pick.Keys == shared.Keys && forall f :: f in pick ==> pick[f] in shared[f]
      ensures forall c :: SelectedOk(shared, pick, sharedSelected, c)
    {
      hide SelectedOk;
      sharedSelected, pick := map[], map[];
      var todo := shared.Keys;
      forall c ensures SelectedOk(shared, map[], map[], c) { NothingPicked(shared, c); }
      while todo != {}
        invariant todo <= shared.Keys && pick.Keys == shared.Keys - todo
        invariant forall f :: f in pick ==> pick[f] in shared[f]
        invariant forall c :: SelectedOk(shared, pick, sharedSelected, c)
      {
        var f :| f in todo;
        var subs := shared[f];
        var client :| client in subs;
        var sub := subs[client];
        var cls := if client in sharedSelected then sharedSelected[client] else sub;
        ghost var pick0, selected0 := pick, sharedSelected;
        sharedSelected := sharedSelected[client := cls.Merge(sub)];
        pick := pick[f := client];
        forall c
          ensures SelectedOk(shared, pick, sharedSelected, c)
        {
          PickStep(shared, pick0, selected0, f, client, c);
        }
        todo := todo - {f};
      }
    }

    /** Merges the chosen members into the plain subscribers. */
    method MergeSharedSelected()
      modifies this`subscriptions
      ensures subscriptions.Keys == old(subscriptions).Keys + sharedSelected.Keys
      ensures forall c :: c in subscriptions ==>
                subscriptions[c] == MergedWith(old(subscriptions), sharedSelected, c)
    {
      var todo := sharedSelected.Keys;
      while todo != {}
        invariant todo <= sharedSelected.Keys
        invariant subscriptions.Keys == old(subscriptions).Keys + (sharedSelected.Keys - todo)
        invariant forall c :: c in subscriptions ==>
                    subscriptions[c] == if c in todo then old(subscriptions)[c]
                                        else MergedWith(old(subscriptions), sharedSelected, c)
      {
        var client :| client in todo;
        var sub := sharedSelected[client];
        var cls := if client in subscriptions then subscriptions[client] else sub;
        subscriptions := subscriptions[client := cls.Merge(sub)];
        todo := todo - {client};
      }
    }
  }

  lemma NothingPicked(shared: Shared, c: string)
    ensures SelectedOk(shared, map[], map[], c)
  {
  }

  function MergedWith(plain: map<string, Subscription>, selected: map<string, Subscription>,
                      c: string): (s: Subscription)
    requires c in plain || c in selected
  {
    if c !in selected then plain[c]
    else if c in plain then plain[c].Merge(selected[c])
    else selected[c].Merge(selected[c])
  }

  /** A client chosen for several share groups while also holding a plain match keeps
      every positive identifier exactly when at most the filter its chosen record
      stands under has one. */
  lemma MergedIdentifiers(plain: Subscription, m: set<Subscription>, chosen: Subscription, p: set<Subscription>)
    requires IsMerge(plain, m) && IsMerge(chosen, p)
    requires forall s, x :: s in m && x in p ==> s.filter != x.filter
    requires forall x, y :: x in p && y in p && x.filter == y.filter ==> x == y
    ensures IsMerge(plain.Merge(chosen), m + p) <==>
            forall x :: x in p && x.identifier > 0 ==> x.filter == chosen.filter
  {
    hide OneOf, HighestQos, NoLocalOfAny, IdentifiersOfAll, Subscription.Merge;
    BaseOf(chosen, p);
    MergeBase(plain, m, chosen, p);
    if forall x :: x in p && x.identifier > 0 ==> x.filter == chosen.filter {
      MergeIdentifiers(plain, m, chosen, p);
    } else {
      var x :| x in p && x.identifier > 0 && x.filter != chosen.filter;
      LostIdentifier(plain, m, chosen, p, x);
    }
  }

  lemma BaseOf(r: Subscription, m: set<Subscription>)
    requires OneOf(r, m)
    ensures exists s :: s in m && s.filter == r.filter && s.identifier == r.identifier
  {
  }

  lemma LostIdentifier(plain: Subscription, m: set<Subscription>, chosen: Subscription, p: set<Subscription>,
                       x: Subscription)
    requires IdentifiersOfAll(plain, m)
    requires x in p && x.identifier > 0 && x.filter != chosen.filter
    requires forall s :: s in m ==> s.filter != x.filter
    ensures !IdentifiersOfAll(plain.Merge(chosen), m + p)
  {
  }

  /** Such a client: matching "a" plainly and chosen for two groups, whose second identifier
      is lost. */
  lemma IdentifierLost()
    ensures var plain := Subscription("a", 0, None, 0, 0, false, false, false);
            var first := plain.(filter := "$share/g/a", identifier := 1);
            var second := plain.(filter := "$share/h/a", identifier := 2);
            var merged := plain.Merge(plain).Merge(first.Merge(first).Merge(second));
            && merged.identifiers.Some?
            && first.filter in merged.identifiers.value && second.filter !in merged.identifiers.value
  {
    var f, g := "$share/g/a", "$share/h/a";
    assert |"a"| != |f| == |g| && f[7] != g[7];
  }

  /** What a client is served with: the merge of everything that matches it plainly and
      everything it was chosen for, but for identifiers that may be lost. */
  lemma MergedDelivers(plain: map<string, Subscription>, selected: map<string, Subscription>, c: string,
                       m: set<Subscription>, p: set<Subscription>)
    requires c in plain || c in selected
    requires if c in plain then IsMerge(plain[c], m) else m == {}
    requires if c in selected then IsMerge(selected[c], p) else p == {}
    requires forall x, y :: x in p && y in p && x.filter == y.filter ==> x == y
    ensures var r := MergedWith(plain, selected, c);
            && OneOf(r, m + p) && HighestQos(r, m + p) && NoLocalOfAny(r, m + p)
            && (c !in plain || c !in selected ==> IdentifiersOfAll(r, m + p))
  {
    hide OneOf, HighestQos, NoLocalOfAny, IdentifiersOfAll, Subscription.Merge;
    if c !in selected {
      assert m + p == m;
    } else if c in plain {
      MergeBase(plain[c], m, selected[c], p);
    } else {
      assert m + p == p && p + p == p;
      MergeBase(selected[c], p, selected[c], p);
      MergedAgain(selected[c], p);
    }
  }

  lemma MergedAgain(r: Subscription, p: set<Subscription>)
    requires OneOf(r, p) && IdentifiersOfAll(r, p)
    requires forall x, y :: x in p && y in p && x.filter == y.filter ==> x == y
    ensures IdentifiersOfAll(r.Merge(r), p)
  {
  }
}
