/** The local topic trie of the broker. */
module TopicsIndex {
  import opened Levels
  import opened Matching
  import opened Options
  import opened PathTree
  import opened Subscribers
  import opened Subscriptions
  import opened TopicTables
  import opened TopicWalks

  class TopicsIndex {
    const tree: Tree<Particle>
    var retained: map<string, Message>
    ghost var table: Table

    ghost predicate Valid()
      reads this, tree, tree.repr
    {
      && tree.Valid()
      && Holds(tree.cells, table)
      && Filed(table)
      && AllFullGroups(tree.cells)
      && HoldsRetained(tree.cells, retained)
      && NoDeadLeaves(tree.cells)
    }

    constructor ()
      ensures Valid() && fresh(tree) && fresh(tree.repr)
      ensures table == map[] && retained == map[]
    {
      tree := new Tree<Particle>(EMPTY);
      retained := map[];
      table := map[];
    }

    /** Adds or replaces a client's subscription; the count is of the clients on the
        same filter (and group). */
    method Subscribe(client: string, subscription: Subscription) returns (isNew: bool, count: nat)
      requires Valid() && subscription.identifiers.None?
      modifies this, tree, tree.repr
      ensures Valid() && fresh(tree.repr - old(tree.repr)) && retained == old(retained)
      ensures var e := EntryOf(client, subscription.filter);
              && table == old(table)[e := subscription]
              && isNew == (e !in old(table))
              && count == |Peers(table, e.place, e.group)|
      ensures IsValidFilter(subscription.filter, false) ==>
                OnlyChanged(old(table), table, client, subscription.filter, Some(subscription))
    {
      hide Tree.Valid, Grown, Filed, Holds, HoldsRetained, NoDeadLeaves, NoDeadLeavesBut, AllFullGroups;
      hide Peers, PathFrom, Walk, IsSharedFilter, Live, OnlyChanged, IsValidFilter;
      if IsValidFilter(subscription.filter, false) { PutChanges(table, client, subscription); }
      var filter := subscription.filter;
      ghost var e := EntryOf(client, filter);
      var prefix, _ := IsolateParticle(filter, 0);
      WholePath(filter);
      PutFiled(table, client, subscription);
      var n, v, w;
      if EqualFold(prefix, SHARE_PREFIX) {
        var group, _ := IsolateParticle(filter, 1);
        n := tree.Set(filter, 2, EMPTY);
        v := n.value;
        var members := if group in v.shared then v.shared[group] else map[];
        isNew := client !in members;
        members := members[client := subscription];
        w := v.(shared := v.shared[group := members]);
        count := |members|;
      } else {
        n := tree.Set(filter, 0, EMPTY);
        v := n.value;
        isNew := client !in v.subscriptions;
        w := v.(subscriptions := v.subscriptions[client := subscription]);
        count := |w.subscriptions|;
      }
      GrownHolds(old(tree.cells), tree.cells, n.place, table, retained);
      PutHolds(tree.cells, table, e, subscription);
      StoreNeeded(tree.cells, n.place, w);
      RetainedKept(tree.cells, retained, n.place, w);
      tree.Store(n, w);
      table := table[e := subscription];
      CountPeers(tree.cells, table, e.place, e.group);
    }

    method IsEmpty(n: Node<Particle>) returns (empty: bool)
      requires tree.Valid() && n in tree.repr && AllFullGroups(tree.cells)
      ensures empty <==> !Live(tree.cells[n.place]) && !HasChild(tree.cells, n.place)
    {
      tree.RootOnTop(n);
      var shared := SharedLen(n.value.shared, n.place);
      NoSharedEntries(n.value, n.place);
      empty := n.value.retainPath == "" && |n.children| + |n.value.subscriptions| + shared == 0;
    }

    /** Removes a node that holds nothing, and then every ancestor this leaves empty. */
    method Trim(start: Node<Particle>)
      requires tree.Valid() && start in tree.repr
      requires NoDeadLeavesBut(tree.cells, start.place) && AllFullGroups(tree.cells)
      modifies tree, tree.repr
      ensures tree.Valid() && tree.repr <= old(tree.repr)
      ensures NoDeadLeaves(tree.cells) && Dropped(old(tree.cells), tree.cells)
    {
      hide Tree.Valid, HasChild, Live, NoDeadLeavesBut, AllFullGroups, Dropped, NoDeadLeaves;
      DroppedNone(tree.cells);
      var n := start;
      var empty := IsEmpty(n);
      tree.RootOnTop(n);
      while n.parent != null && empty
        invariant tree.Valid() && n in tree.repr && tree.repr <= old(tree.repr)
        invariant n.place in tree.cells && (n.parent == null <==> n.place == Top)
        invariant n.parent != null ==> n.parent in tree.repr
        invariant n.parent != null && empty ==> n.children == map[]
        invariant empty <==> !Live(tree.cells[n.place]) && !HasChild(tree.cells, n.place)
        invariant NoDeadLeavesBut(tree.cells, n.place) && AllFullGroups(tree.cells)
        invariant Dropped(old(tree.cells), tree.cells)
        decreases n.place.Depth()
      {
        DropLeaf(old(tree.cells), tree.cells, n.place);
        var p := n.parent;
        tree.RemoveLeaf(n);
        n := p;
        empty := IsEmpty(n);
        tree.RootOnTop(n);
      }
      Kept(tree.cells, n.place);
    }

    /** Removes a client's subscription. `found` says that the trie has the filter's
        place, which is so whenever the subscription is there. */
    method Unsubscribe(filter: string, client: string) returns (found: bool, count: nat)
      requires Valid()
      modifies this, tree, tree.repr
      ensures Valid() && tree.repr <= old(tree.repr) && retained == old(retained)
      ensures var e := EntryOf(client, filter);
              && table == old(table) - {e}
              && found == (e.place in old(tree.cells))
              && (e in old(table) ==> found)
              && count == (if !found then 0
                           else if e.group.None? then |Peers(table, e.place, None)|
                           else |SharedPeers(table, e.place)|)
      ensures IsValidFilter(filter, false) ==> OnlyChanged(old(table), table, client, filter, None)
    {
      hide Tree.Valid, Filed, Holds, HoldsRetained, NoDeadLeaves, NoDeadLeavesBut, AllFullGroups;
      hide Peers, SharedPeers, SharedEntries, PathFrom, Walk, IsSharedFilter, Live, OnlyChanged, IsValidFilter;
      if IsValidFilter(filter, false) { CutChanges(table, client, filter); }
      ghost var e := EntryOf(client, filter);
      WholePath(filter);
      var prefix, _ := IsolateParticle(filter, 0);
      var shareSub := EqualFold(prefix, SHARE_PREFIX);
      var n := tree.Seek(filter, if shareSub then 2 else 0);
      HoldsOnlyPlaces(tree.cells, table, e);
      if n == null {
        return false, 0;
      }
      var v := n.value;
      if shareSub {
        var group, _ := IsolateParticle(filter, 1);
        var members := if group in v.shared then v.shared[group] - {client} else map[];
        var w := v.(shared := if members == map[] then v.shared - {group} else v.shared[group := members]);
        count := SharedLen(w.shared, n.place);
        CutAndTrim(n, w, e);
      } else {
        var w := v.(subscriptions := v.subscriptions - {client});
        count := |w.subscriptions|;
        CutAndTrim(n, w, e);
      }
      found := true;
    }

    /** Takes an entry out of its node and prunes what that leaves empty. */
    method CutAndTrim(n: Node<Particle>, w: Particle, ghost e: Entry)
      requires Valid() && n in tree.repr && e.place == n.place && w == Cut(n.value, e)
      modifies this, tree, tree.repr
      ensures Valid() && tree.repr <= old(tree.repr) && retained == old(retained)
      ensures table == old(table) - {e}
      ensures e.group.None? ==> |w.subscriptions| == |Peers(table, e.place, None)|
      ensures e.group.Some? ==> SharedEntries(w.shared, w.shared.Keys, e.place) == SharedPeers(table, e.place)
    {
      hide Tree.Valid, Filed, Holds, HoldsRetained, NoDeadLeaves, NoDeadLeavesBut, AllFullGroups;
      hide Peers, SharedPeers, SharedEntries, Live, Dropped;
      tree.RootOnTop(n);
      ghost var cells0 := tree.cells;
      CutFiled(table, e);
      CutHolds(cells0, table, e);
      AllNeeded(cells0, n.place);
      StoreNeeded(cells0, n.place, w);
      RetainedKept(cells0, retained, n.place, w);
      tree.Store(n, w);
      table := table - {e};
      if e.group.None? {
        CountPeers(tree.cells, table, e.place, None);
      } else {
        CountSharedPeers(tree.cells, table, e.place);
      }
      ghost var cells1 := tree.cells;
      Trim(n);
      DroppedHolds(cells1, tree.cells, table, retained);
    }

    /** Keeps, replaces or (for an empty payload) removes the retained message of a topic. */
    method RetainMessage(message: Message) returns (out: int)
      requires Valid() && message.topic != ""
      modifies this, tree, tree.repr
      ensures Valid() && fresh(tree.repr - old(tree.repr)) && table == old(table)
      ensures message.payload != [] ==> out == 1 && retained == old(retained)[message.topic := message]
      ensures message.payload == [] ==> retained == old(retained) - {message.topic}
      ensures message.payload == [] ==>
                out == if && message.topic in old(retained)
                          && old(retained)[message.topic].payload != []
                          && old(retained)[message.topic].retain
                       then -1 else 0
    {
      hide Tree.Valid, Filed, Holds, HoldsRetained, NoDeadLeavesBut, AllFullGroups;
      hide PathFrom, Walk, Dropped;
      var t := message.topic;
      var n := tree.Set(t, 0, EMPTY);
      GrownHolds(old(tree.cells), tree.cells, n.place, table, retained);
      ghost var cells0 := tree.cells;
      var v := n.value;
      if |message.payload| > 0 {
        RetainPathHolds(cells0, table, n.place, t);
        SetRetained(cells0, retained, t, message);
        StoreNeeded(cells0, n.place, v.(retainPath := t));
        tree.Store(n, v.(retainPath := t));
        retained := retained[t := message];
        return 1;
      }
      out := if t in retained && |retained[t].payload| > 0 && retained[t].retain then -1 else 0;
      RetainPathHolds(cells0, table, n.place, "");
      ClearRetained(cells0, retained, t);
      StoreNeeded(cells0, n.place, v.(retainPath := ""));
      tree.Store(n, v.(retainPath := ""));
      retained := retained - {t};
      ghost var cells1 := tree.cells;
      Trim(n);
      DroppedHolds(cells1, tree.cells, table, retained);
    }

    /** The expiry sweep drops messages and leaves their paths in the trie. */
    method ExpireRetained(topic: string)
      requires Valid()
      modifies this`retained
      ensures Valid() && retained == old(retained) - {topic}
    {
      retained := retained - {topic};
    }

    /** Merges in the plain subscriptions of one node, clients in any order. */
    method GatherSubscriptions(topic: string, n: Node<Particle>, subs: Matched, ghost places: set<Place>)
      requires Valid() && n in tree.repr && topic != ""
      requires Collected(table, places, topic, subs.subscriptions)
      modifies subs`subscriptions
      ensures Collected(table, places + {n.place}, topic, subs.subscriptions)
    {
      hide Tree.Valid, ClientOk, HoldsRetained, NoDeadLeaves, AllFullGroups, Filed, Hidden;
      tree.RootOnTop(n);
      ghost var p := n.place;
      var all := n.value.subscriptions;
      var todo := all.Keys;
      forall c
        ensures c in all <==> Entry(c, None, p) in table
        ensures c in all ==> all[c] == table[Entry(c, None, p)]
        ensures c !in all ==> ClientOk(table, places + {p}, topic, subs.subscriptions, c)
      {
        assert Stored(tree.cells, Entry(c, None, p)) <==> Entry(c, None, p) in table;
        if c !in all { UntouchedClient(table, places, p, topic, subs.subscriptions, c); }
      }
      while todo != {}
        invariant todo <= all.Keys
        invariant forall c :: c in todo ==> ClientOk(table, places, topic, subs.subscriptions, c)
        invariant forall c :: c !in todo ==> ClientOk(table, places + {p}, topic, subs.subscriptions, c)
      {
        var client :| client in todo;
        var sub := all[client];
        ghost var before := subs.subscriptions;
        if Hidden(topic, sub) {
          UntouchedClient(table, places, p, topic, before, client);
        } else {
          GatherStep(table, places, p, topic, before, client);
          var cls := if client in subs.subscriptions then subs.subscriptions[client] else sub;
          subs.subscriptions := subs.subscriptions[client := cls.Merge(sub)];
          forall c | c != client
            ensures c in todo ==> ClientOk(table, places, topic, subs.subscriptions, c)
            ensures c !in todo ==> ClientOk(table, places + {p}, topic, subs.subscriptions, c)
          {
            OtherClient(table, if c in todo then places else places + {p}, topic, before, subs.subscriptions, c);
          }
        }
        todo := todo - {client};
      }
    }

    /** Lists the shared subscriptions of one node under their full filter texts. */
    method GatherSharedSubscriptions(n: Node<Particle>, subs: Matched, ghost places: set<Place>)
      requires Valid() && n in tree.repr
      requires CollectedEntries(table, SharedAt(table, places), subs.shared)
      modifies subs`shared
      ensures CollectedEntries(table, SharedAt(table, places + {n.place}), subs.shared)
    {
      hide Tree.Valid, CollectedEntries, SharedAt, HoldsRetained, NoDeadLeaves, AllFullGroups, Filed;
      tree.RootOnTop(n);
      ghost var p, before := n.place, SharedAt(table, places);
      SharedAtMore(tree.cells, table, places, p);
      var all := n.value.shared;
      var todo := all.Keys;
      NoGroups(all, p, before);
      while todo != {}
        invariant todo <= all.Keys
        invariant CollectedEntries(table, before + SharedEntries(all, all.Keys - todo, p), subs.shared)
      {
        var g :| g in todo;
        ghost var done := all.Keys - todo;
        var shares := all[g];
        var clients := shares.Keys;
        NoClients(before + SharedEntries(all, done, p), g, p);
        while clients != {}
          invariant clients <= shares.Keys
          invariant CollectedEntries(table, before + SharedEntries(all, done, p)
                                            + EntriesFor(shares.Keys - clients, Some(g), p), subs.shared)
        {
          var client :| client in clients;
          var sub := shares[client];
          ghost var e := Entry(client, Some(g), p);
          assert Stored(tree.cells, e);
          SharedStep(table, before + SharedEntries(all, done, p) + EntriesFor(shares.Keys - clients, Some(g), p),
                     subs.shared, e);
          MoreClients(before + SharedEntries(all, done, p), shares.Keys - clients, client, g, p);
          assert shares.Keys - (clients - {client}) == shares.Keys - clients + {client};
          var members := if sub.filter in subs.shared then subs.shared[sub.filter] else map[];
          subs.shared := subs.shared[sub.filter := members[client := sub]];
          clients := clients - {client};
        }
        assert shares.Keys - {} == shares.Keys;
        MoreGroups(before, all, done, g, p);
        assert all.Keys - (todo - {g}) == done + {g};
        todo := todo - {g};
      }
      assert all.Keys - {} == all.Keys;
    }

    /** Gathers at every node below `n` whose path matches the topic from level `d` on. */
    method ScanSubscribers(topic: string, d: nat, n: Node<Particle>, subs: Matched, ghost places: set<Place>)
      requires Valid() && n in tree.repr && topic != ""
      requires Collected(table, places, topic, subs.subscriptions)
      requires CollectedEntries(table, SharedAt(table, places), subs.shared)
      modifies subs`subscriptions, subs`shared
      ensures var more := Gathered(tree.cells, n.place, PathFrom(topic, d));
              && Collected(table, places + more, topic, subs.subscriptions)
              && CollectedEntries(table, SharedAt(table, places + more), subs.shared)
      decreases |PathFrom(topic, d)|
    {
      hide Tree.Valid, Holds, Collected, CollectedEntries, SharedAt, HoldsRetained, NoDeadLeaves;
      hide AllFullGroups, Filed, PathFrom;
      ghost var cells, t, p := tree.cells, PathFrom(topic, d), n.place;
      var key, hasNext := IsolateParticle(topic, d);
      PathStep(topic, d);
      ghost var seen := places;
      var partKeys := [key, "+"];
      for i := 0 to 2
        invariant Collected(table, seen, topic, subs.subscriptions)
        invariant CollectedEntries(table, SharedAt(table, seen), subs.shared)
        invariant seen == places + (if i > 0 then GatheredUnder(cells, p, t, key) else {})
                                 + (if i > 1 then GatheredUnder(cells, p, t, "+") else {})
      {
        var partKey := partKeys[i];
        tree.ChildAt(n, partKey);
        if partKey in n.children {
          var particle := n.children[partKey];
          if hasNext {
            ScanSubscribers(topic, d + 1, particle, subs, seen);
            seen := seen + Gathered(cells, particle.place, PathFrom(topic, d + 1));
          } else {
            GatherSubscriptions(topic, particle, subs, seen);
            GatherSharedSubscriptions(particle, subs, seen);
            seen := seen + {particle.place};
            tree.ChildAt(particle, "#");
            if "#" in particle.children && partKey != "+" {
              var wild := particle.children["#"];
              GatherSubscriptions(topic, wild, subs, seen);
              GatherSharedSubscriptions(wild, subs, seen);
              seen := seen + {wild.place};
            }
          }
        }
      }
      tree.ChildAt(n, "#");
      if "#" in n.children {
        var particle := n.children["#"];
        GatherSubscriptions(topic, particle, subs, seen);
        GatherSharedSubscriptions(particle, subs, seen);
        seen := seen + {particle.place};
      }
      assert seen == places + Gathered(cells, p, t);
    }

    /** The clients with matching filters: plain ones each with one merged subscription,
        shared ones listed under their filter. */
    method Subscribers(topic: string) returns (subs: Matched)
      requires Valid()
      ensures fresh(subs) && subs.sharedSelected == map[] && WellListed(subs.shared)
      ensures topic == "" ==> subs.subscriptions == map[] && subs.shared == map[]
      ensures topic != "" ==> SubscribersExact(table, topic, subs.subscriptions)
      ensures topic != "" ==> CollectedEntries(table, MatchingShared(table, topic), subs.shared)
    {
      hide HoldsRetained, NoDeadLeaves, AllFullGroups, LocalMatch, PathFrom, Split, Gathered, EntryOf, MatchingShared;
      subs := new Matched();
      if |topic| == 0 { return; }
      ghost var t := Split(topic);
      WholePath(topic);
      NothingCollected(table, topic);
      ScanSubscribers(topic, 0, tree.root, subs, {});
      ghost var places := Gathered(tree.cells, Top, t);
      assert {} + places == places;
      tree.AllUpwardsClosed();
      CollectedIsExact(tree.cells, table, topic, subs.subscriptions);
      SharedIsExact(tree.cells, table, topic);
      ListedWell(table, MatchingShared(table, topic), subs.shared);
    }

    /** Appends the retained messages below `n` that match the filter from level `d` on. */
    method ScanMessages(filter: string, d: nat, n: Node<Particle>, pks: seq<Message>, ghost bound: nat)
      returns (r: seq<Message>)
      requires Valid() && n in tree.repr
      requires n.place.Depth() == d && ('+' in filter || '#' in filter || d == 0)
      requires forall p :: p in tree.cells ==> p.Depth() <= bound
      ensures pks <= r
      ensures Lists(r[|pks|..], retained, Wanted(retained, n.place.Levels(), PathFrom(filter, d), d == 0))
      decreases bound - d, 2
    {
      hide Tree.Valid, Holds, Wanted, NoDeadLeaves, AllFullGroups, Filed, PathFrom;
      hide HoldsRetained, Place.Levels, Split, Lists;
      NoEmptyTopic(tree.cells, retained);
      ghost var at, f := n.place.Levels(), PathFrom(filter, d);
      WholePath(filter);
      LevelsOfTop(n.place);
      if |filter| == 0 || |retained| == 0 {
        NothingRetained(retained, at, f, filter, d == 0);
        ListsOne(retained, "");
        assert pks[|pks|..] == [];
        return pks;
      }
      if '#' !in filter && '+' !in filter {
        WantedLiteral(retained, filter);
        OwnTopic(tree.cells, retained, filter);
        ListsOne(retained, filter);
        r := if filter in retained then pks + [retained[filter]] else pks;
        assert r[|pks|..] == if filter in retained then [retained[filter]] else [];
        return;
      }
      var key, hasNext := IsolateParticle(filter, d);
      if key == "+" || key == "#" {
        r := ScanWildcard(filter, d, n, key, hasNext, pks, bound);
      } else {
        r := ScanLiteral(filter, d, n, key, hasNext, pks, bound);
      }
    }

    /** A literal level of the filter. */
    method ScanLiteral(filter: string, d: nat, n: Node<Particle>, key: string, hasNext: bool,
                       pks: seq<Message>, ghost bound: nat)
      returns (r: seq<Message>)
      requires Valid() && n in tree.repr
      requires n.place.Depth() == d && ('+' in filter || '#' in filter)
      requires key == PathFrom(filter, d)[0] && hasNext == (|PathFrom(filter, d)| > 1)
      requires key != "+" && key != "#"
      requires forall p :: p in tree.cells ==> p.Depth() <= bound
      ensures pks <= r
      ensures Lists(r[|pks|..], retained, Wanted(retained, n.place.Levels(), PathFrom(filter, d), d == 0))
      decreases bound - d, 0
    {
      hide Tree.Valid, Holds, Wanted, WantedUnder, NoDeadLeaves, AllFullGroups, Filed, PathFrom;
      hide HoldsRetained, Place.Levels, Split, Lists, UpClosed, Own;
      NoEmptyTopic(tree.cells, retained);
      ghost var at, f := n.place.Levels(), PathFrom(filter, d);
      tree.AllUpwardsClosed();
      PathStep(filter, d);
      tree.ChildAt(n, key);
      WantedLiteralChild(tree.cells, retained, n.place, f, d == 0);
      r := pks;
      if key !in n.children {
        ListsOne(retained, "");
        assert r[|pks|..] == [];
        return;
      }
      var particle := n.children[key];
      tree.RootOnTop(particle);
      WantedChild(retained, at, f, d == 0, key);
      LevelsBelow(n.place, key);
      if hasNext {
        DepthBelow(n.place, key);
        r := ScanMessages(filter, d + 1, particle, pks, bound);
        return;
      }
      var path := particle.value.retainPath;
      OwnMessage(tree.cells, retained, particle.place, at, key);
      ListsOne(retained, path);
      if path in retained {
        r := r + [retained[path]];
      }
      assert r[|pks|..] == if path in retained then [retained[path]] else [];
    }

    /** A wildcard level of the filter, the children in any order. */
    method ScanWildcard(filter: string, d: nat, n: Node<Particle>, key: string, hasNext: bool,
                        pks: seq<Message>, ghost bound: nat)
      returns (r: seq<Message>)
      requires Valid() && n in tree.repr
      requires n.place.Depth() == d && ('+' in filter || '#' in filter)
      requires key == PathFrom(filter, d)[0] && hasNext == (|PathFrom(filter, d)| > 1)
      requires key == "+" || key == "#"
      requires forall p :: p in tree.cells ==> p.Depth() <= bound
      ensures pks <= r
      ensures Lists(r[|pks|..], retained, Wanted(retained, n.place.Levels(), PathFrom(filter, d), d == 0))
      decreases bound - d, 1
    {
      hide Tree.Valid, Holds, Wanted, WantedUnder, NoDeadLeaves, AllFullGroups, Filed, PathFrom;
      hide HoldsRetained, Place.Levels, Split, Lists, UpClosed, Own;
      NoEmptyTopic(tree.cells, retained);
      ghost var at, f := n.place.Levels(), PathFrom(filter, d);
      r := pks;
      var todo := n.children.Keys;
      ghost var found: seq<Message> := [];
      NoKeys(retained, at, f, d == 0, n.children.Keys);
      ListsOne(retained, "");
      while todo != {}
        invariant todo <= n.children.Keys
        invariant r == pks + found
        invariant Lists(found, retained, WantedUnder(retained, at, f, d == 0, n.children.Keys - todo))
      {
        var k :| k in todo;
        ghost var done, r0 := n.children.Keys - todo, r;
        tree.ChildAt(n, k);
        r := ScanAdjacent(filter, d, n, key, hasNext, n.children[k], r, bound);
        WantedMore(retained, at, f, d == 0, done, k);
        ListsBoth(found, r[|r0|..], retained, WantedUnder(retained, at, f, d == 0, done),
                  WantedUnder(retained, at, f, d == 0, {k}));
        found := found + r[|r0|..];
        todo := todo - {k};
        assert n.children.Keys - todo == done + {k};
      }
      assert n.children.Keys - {} == n.children.Keys;
      tree.ChildrenAt(n);
      tree.AllUpwardsClosed();
      WantedAllThere(tree.cells, retained, n.place, f, d == 0, n.children.Keys);
      assert r[|pks|..] == found;
    }

    /** One child met by a wildcard level. */
    method ScanAdjacent(filter: string, d: nat, n: Node<Particle>, key: string, hasNext: bool,
                        adjacent: Node<Particle>, pks: seq<Message>, ghost bound: nat)
      returns (r: seq<Message>)
      requires Valid() && n in tree.repr && adjacent in tree.repr
      requires adjacent.place.Below? && adjacent.place.up == n.place
      requires n.place.Depth() == d && ('+' in filter || '#' in filter)
      requires key == PathFrom(filter, d)[0] && hasNext == (|PathFrom(filter, d)| > 1)
      requires key == "+" || key == "#"
      requires forall p :: p in tree.cells ==> p.Depth() <= bound
      ensures pks <= r
      ensures Lists(r[|pks|..], retained,
                    WantedUnder(retained, n.place.Levels(), PathFrom(filter, d), d == 0, {adjacent.place.key}))
      decreases bound - d, 0
    {
      hide Tree.Valid, Holds, Wanted, WantedUnder, NoDeadLeaves, AllFullGroups, Filed, PathFrom;
      hide HoldsRetained, Place.Levels, Split, Lists, Own;
      NoEmptyTopic(tree.cells, retained);
      ghost var at, f, k := n.place.Levels(), PathFrom(filter, d), adjacent.place.key;
      r := pks;
      tree.RootOnTop(adjacent);
      tree.KeyOfNode(adjacent);
      ListsOne(retained, "");
      assert pks[|pks|..] == [];
      if d == 0 && adjacent.key == SYS_PREFIX {
        NothingWanted(retained, at, f, d == 0, k);
        return;
      }
      WantedChild(retained, at, f, d == 0, k);
      LevelsBelow(n.place, k);
      DepthBelow(n.place, k);
      var path := adjacent.value.retainPath;
      OwnMessage(tree.cells, retained, adjacent.place, at, k);
      ListsOne(retained, path);
      if !hasNext {
        if path != "" {
          if path in retained {
            r := r + [retained[path]];
          }
        }
        assert r[|pks|..] == if path in retained then [retained[path]] else [];
      }
      if hasNext || key == "#" {
        PathStep(filter, d);
        ghost var r0 := r;
        r := ScanMessages(filter, d + 1, adjacent, r, bound);
        if !hasNext {
          ListsBoth(r0[|pks|..], r[|r0|..], retained, Own(retained, at + [k]), Wanted(retained, at + [k], f, false));
          assert r[|pks|..] == r0[|pks|..] + r[|r0|..];
        }
      }
    }

    /** The retained messages that a filter matches, each once. */
    method Messages(filter: string) returns (r: seq<Message>)
      requires Valid()
      ensures Lists(r, retained, set t | t in retained && RetainMatch(Split(filter), Split(t), true))
    {
      ghost var bound := DepthBound(tree.cells.Keys);
      r := ScanMessages(filter, 0, tree.root, [], bound);
      WholePath(filter);
      assert r[0..] == r;
      assert forall t :: Split(t)[0..] == Split(t);
      assert Wanted(retained, [], Split(filter), true)
          == set t | t in retained && RetainMatch(Split(filter), Split(t), true);
    }
  }

  /** What the walk lists is what the choice of share members expects. */
  lemma ListedWell(table: Table, entries: set<Entry>, shared: Shared)
    requires CollectedEntries(table, entries, shared) && Filed(table)
    ensures WellListed(shared)
  {
  }
}
