/** How a publish reaches the other nodes: when the cluster hook fires, with which record
    of the shared filters, and to which nodes the packet is then sent. */
module Relay {
  import ClusterTables
  import Levels
  import opened Options
  import Store
  import opened Subscribers
  import opened Subscriptions

  const SHARE := "$share"                   // what the server takes for a shared filter here

  const SHARE_PREFIX := ClusterTables.SHARE // what the cluster takes for one

  const SYS_PREFIX := Levels.SYS_PREFIX

  // ----- delivery to local clients and the record of shared filters

  /** A connected client is served under this filter. */
  predicate Served(subs: map<string, Subscription>, present: set<string>, c: string, f: string) {
    c in subs && c in present && subs[c].filter == f
  }

  ghost predicate AnyServed(subs: map<string, Subscription>, present: set<string>, f: string) {
    exists c :: Served(subs, present, c, f)
  }

  ghost predicate Chosen(selected: map<string, Subscription>, f: string) {
    exists c :: c in selected && selected[c].filter == f
  }

  /** What the record says of a filter once the clients have been served: it has the
      filters of the chosen share members and every filter served that starts like a share.
      A filter is marked delivered only if some client under it was reached, and left
      unmarked only if there was none or one of them failed. */
  ghost predicate Reported(record: map<string, bool>, selected: map<string, Subscription>,
                           subs: map<string, Subscription>, present: set<string>, failing: set<string>, f: string)
  {
    && (f in record <==> Chosen(selected, f) || (SHARE <= f && AnyServed(subs, present, f)))
    && (f in record && record[f] ==> exists c :: Served(subs, present, c, f) && c !in failing)
    && (f in record && !record[f] && SHARE <= f && AnyServed(subs, present, f) ==>
          exists c :: Served(subs, present, c, f) && c in failing)
  }

  ghost predicate IsRecord(record: map<string, bool>, selected: map<string, Subscription>,
                           subs: map<string, Subscription>, present: set<string>, failing: set<string>)
  {
    forall f :: Reported(record, selected, subs, present, failing, f)
  }

  lemma ReportedNext(record: map<string, bool>, selected: map<string, Subscription>, subs: map<string, Subscription>,
                     present: set<string>, failing: set<string>, f: string, c: string, sub: Subscription)
    requires Reported(record, selected, subs, present, failing, f) && c !in subs
    ensures var next := if c in present && SHARE <= sub.filter then record[sub.filter := c !in failing] else record;
            Reported(next, selected, subs[c := sub], present, failing, f)
  {
    var more := subs[c := sub];
    forall d
      ensures Served(more, present, d, f) <==>
              Served(subs, present, d, f) || (d == c && c in present && f == sub.filter)
    {
    }
    if c in present && f == sub.filter { assert Served(more, present, c, f); }
  }

  /** Serves the clients in whatever order they come. */
  method Deliver(selected: map<string, Subscription>, subs: map<string, Subscription>, present: set<string>,
                 failing: set<string>)
    returns (record: map<string, bool>)
    ensures IsRecord(record, selected, subs, present, failing)
  {
    record := map[];
    var todo := selected.Keys;
    while todo != {}
      invariant todo <= selected.Keys && forall f :: f in record ==> !record[f]
      invariant forall f :: f in record <==> Chosen(selected - todo, f)
    {
      var c :| c in todo;
      record := record[selected[c].filter := false];
      forall f ensures f in record <==> Chosen(selected - (todo - {c}), f) { ChosenNext(selected, todo, c, f); }
      todo := todo - {c};
    }
    assert selected - {} == selected;
    todo := subs.Keys;
    while todo != {}
      invariant todo <= subs.Keys
      invariant forall f :: Reported(record, selected, subs - todo, present, failing, f)
    {
      var c :| c in todo;
      ghost var was := record;
      if c in present && SHARE <= subs[c].filter {
        record := record[subs[c].filter := c !in failing];
      }
      assert subs - (todo - {c}) == (subs - todo)[c := subs[c]];
      forall f ensures Reported(record, selected, subs - (todo - {c}), present, failing, f) {
        ReportedNext(was, selected, subs - todo, present, failing, f, c, subs[c]);
      }
      todo := todo - {c};
    }
    assert subs - {} == subs;
  }

  lemma ChosenNext(selected: map<string, Subscription>, todo: set<string>, c: string, f: string)
    requires c in todo && todo <= selected.Keys
    ensures Chosen(selected - (todo - {c}), f) <==> Chosen(selected - todo, f) || f == selected[c].filter
  {
    var less, more := selected - todo, selected - (todo - {c});
    assert more == less[c := selected[c]];
    assert c in more && more[c].filter == selected[c].filter;
    if d :| d in less && less[d].filter == f { assert d in more && more[d].filter == f; }
  }

  // ----- the cluster hook

  /** A client is served under a filter that starts like a shared one. */
  ghost predicate LooksShared(subs: map<string, Subscription>, present: set<string>) {
    exists c :: c in subs && c in present && SHARE <= subs[c].filter
  }

  /** The calls for a topic without shared subscribers. */
  ghost function Calls(topic: string, subs: map<string, Subscription>, present: set<string>): (n: nat) {
    (if SYS_PREFIX <= topic then 0 else 1) + (if LooksShared(subs, present) then 1 else 0)
  }

  lemma SomeoneSelected(shared: Shared, pick: map<string, string>, selected: map<string, Subscription>)
    requires shared != map[] && pick.Keys == shared.Keys && forall f :: f in pick ==> pick[f] in shared[f]
    requires forall c :: SelectedOk(shared, pick, selected, c)
    ensures selected != map[]
  {
    var f :| f in shared;
    var c := pick[f];
    assert shared[f][c] in PickedFor(shared, pick, c);
    assert SelectedOk(shared, pick, selected, c);
  }

  /** The records with which the cluster hook is called for one publish. A packet that came
      from another node is never passed on. Where the topic has shared subscribers the hook
      is called once; where it has none it is called once up front unless the topic is a
      system topic, and once more at the end if some client was served under a filter that
      merely starts like a shared one. */
  method PublishToSubscribers(m: Matched, topic: string, ignore: bool, local: bool, present: set<string>,
                              failing: set<string>)
    returns (fired: seq<map<string, bool>>)
    requires WellListed(m.shared) && m.sharedSelected == map[]
    modifies m
    ensures m.shared == old(m.shared) && (m.shared == map[] ==> m.subscriptions == old(m.subscriptions))
    ensures |fired| == if ignore || !local then 0
                       else if m.shared != map[] then 1
                       else Calls(topic, m.subscriptions, present)
    ensures fired != [] && (m.shared != map[] || LooksShared(m.subscriptions, present)) ==>
              IsRecord(fired[|fired| - 1], m.sharedSelected, m.subscriptions, present, failing)
    ensures fired != [] && m.shared == map[] && !(SYS_PREFIX <= topic) ==> fired[0] == map[]
  {
    hide IsRecord, WellListed, SelectedOk;
    fired := [];
    if ignore {
      return;
    }
    if m.shared != map[] {
      ghost var pick := m.SelectShared();
      SomeoneSelected(m.shared, pick, m.sharedSelected);
      m.MergeSharedSelected();
    } else if !(SYS_PREFIX <= topic) && local {
      fired := [map[]];
    }
    var record := Deliver(m.sharedSelected, m.subscriptions, present, failing);
    RecordEmpty(record, m.sharedSelected, m.subscriptions, present, failing);
    if record != map[] && local {
      fired := fired + [record];
    }
  }

  lemma RecordEmpty(record: map<string, bool>, selected: map<string, Subscription>, subs: map<string, Subscription>,
                    present: set<string>, failing: set<string>)
    requires IsRecord(record, selected, subs, present, failing)
    ensures record == map[] <==> selected == map[] && !LooksShared(subs, present)
  {
    if c :| c in selected {
      assert Reported(record, selected, subs, present, failing, selected[c].filter);
      assert Chosen(selected, selected[c].filter);
    }
    if c :| c in subs && c in present && SHARE <= subs[c].filter {
      assert Reported(record, selected, subs, present, failing, subs[c].filter);
      assert Served(subs, present, c, subs[c].filter);
    }
    if f :| f in record {
      assert Reported(record, selected, subs, present, failing, f);
    }
  }

  // ----- fan-out to the nodes

  function Nodes(store: Store.Lists, filter: string): (nodes: seq<string>) {
    if filter in store then store[filter] else []
  }

  /** A share group is served by the cluster when no local member has been reached and the
      local node is not among its nodes. */
  predicate NeedsNode(store: Store.Lists, record: map<string, bool>, self: string, filter: string) {
    && Nodes(store, filter) != []
    && !(filter in record && record[filter])
    && self !in Nodes(store, filter)
  }

  /** The nodes for one filter; the random choice for a share group is a parameter. */
  method PickNodes(store: Store.Lists, record: map<string, bool>, self: string, filter: string, choice: nat)
    returns (nodes: seq<string>)
    ensures !(SHARE_PREFIX <= filter) ==> nodes == Nodes(store, filter)
    ensures SHARE_PREFIX <= filter && !NeedsNode(store, record, self, filter) ==> nodes == []
    ensures SHARE_PREFIX <= filter && NeedsNode(store, record, self, filter) ==>
              nodes == [Nodes(store, filter)[choice % |Nodes(store, filter)|]]
  {
    var found := Nodes(store, filter);
    if found == [] {
      return [];
    }
    if SHARE_PREFIX <= filter {
      if filter in record && record[filter] {
        return [];
      }
      for i := 0 to |found|
        invariant self !in found[..i]
      {
        if found[i] == self {
          return [];
        }
      }
      return [found[choice % |found|]];
    }
    return found;
  }

  /** The filter asks for the packet to be sent to the node. */
  predicate Sends(store: Store.Lists, record: map<string, bool>, self: string, choice: string -> nat,
                  filter: string, node: string)
  {
    && node != self
    && if SHARE_PREFIX <= filter then
         NeedsNode(store, record, self, filter) && node == Nodes(store, filter)[choice(filter) % |Nodes(store, filter)|]
       else node in Nodes(store, filter)
  }

  /** Why a node may be sent to: it is another node that the filter is registered for and, if
      the filter is shared, no local client has been served and the local node has none. */
  predicate MaySend(store: Store.Lists, record: map<string, bool>, self: string, filter: string, node: string) {
    && node != self && filter in store && node in store[filter]
    && (SHARE_PREFIX <= filter ==> !(filter in record && record[filter]) && self !in store[filter])
  }

  method Deduplicate(scanned: seq<string>) returns (filters: seq<string>)
    ensures Store.Distinct(filters) && forall f :: f in filters <==> f in scanned
  {
    filters := [];
    for i := 0 to |scanned|
      invariant Store.Distinct(filters) && forall f :: f in filters <==> f in scanned[..i]
    {
      if scanned[i] !in filters {
        filters := filters + [scanned[i]];
      }
    }
    assert scanned[..|scanned|] == scanned;
  }

  /** The nodes the packet is sent to, in order: each at most once, never the local node,
      and exactly those that some matching filter asks for. */
  method ProcessOutboundPublish(scanned: seq<string>, store: Store.Lists, record: map<string, bool>, self: string,
                                choice: string -> nat)
    returns (sent: seq<string>)
    ensures Store.Distinct(sent) && self !in sent
    ensures forall n :: n in sent <==> exists f :: f in scanned && Sends(store, record, self, choice, f, n)
    ensures forall n :: n in sent ==> exists f :: f in scanned && MaySend(store, record, self, f, n)
    ensures forall f, n :: f in scanned && !(SHARE_PREFIX <= f) && n in Nodes(store, f) && n != self ==> n in sent
  {
    var filters := Deduplicate(scanned);
    sent := [];
    for i := 0 to |filters|
      invariant Store.Distinct(sent) && self !in sent
      invariant forall n :: n in sent <==> exists k :: 0 <= k < i && Sends(store, record, self, choice, filters[k], n)
    {
      var nodes := PickNodes(store, record, self, filters[i], choice(filters[i]));
      ghost var before := sent;
      for j := 0 to |nodes|
        invariant Store.Distinct(sent) && self !in sent
        invariant forall n :: n in sent <==> n in before || (n in nodes[..j] && n != self)
      {
        if nodes[j] != self && nodes[j] !in sent {
          sent := sent + [nodes[j]];
        }
      }
      forall n ensures n in sent <==> exists k :: 0 <= k < i + 1 && Sends(store, record, self, choice, filters[k], n) {
        assert nodes[..|nodes|] == nodes;
        assert n in nodes && n != self <==> Sends(store, record, self, choice, filters[i], n);
      }
    }
    forall n | n in sent
      ensures exists f :: f in scanned && MaySend(store, record, self, f, n)
    {
      var f :| f in scanned && Sends(store, record, self, choice, f, n);
      assert MaySend(store, record, self, f, n);
    }
    forall f, n | f in scanned && !(SHARE_PREFIX <= f) && n in Nodes(store, f) && n != self
      ensures n in sent
    {
      assert Sends(store, record, self, choice, f, n);
    }
  }

  // ----- one publish

  /** All copies that one publish sends to other nodes. The local node gets none, a packet
      that came from another node is not sent on, and no node gets two copies unless the
      hook is called twice: for a topic without shared subscribers, outside the system
      topics, that was served under a plain filter starting like a shared one. */
  method RelayPublish(m: Matched, topic: string, ignore: bool, local: bool, present: set<string>, failing: set<string>,
                      scanned: seq<string>, store: Store.Lists, self: string, choice: string -> nat)
    returns (copies: seq<string>)
    requires WellListed(m.shared) && m.sharedSelected == map[]
    modifies m
    ensures self !in copies
    ensures ignore || !local ==> copies == []
    ensures m.shared != map[] || SYS_PREFIX <= topic || !LooksShared(m.subscriptions, present) ==>
            Store.Distinct(copies)
    ensures local && !ignore && m.shared == map[] && !(SYS_PREFIX <= topic) ==>
              forall n, f :: f in scanned && Sends(store, map[], self, choice, f, n) ==> n in copies
    ensures local && !ignore && m.shared == map[] && !(SYS_PREFIX <= topic) && LooksShared(m.subscriptions, present) ==>
              forall n, f :: f in scanned && !(SHARE_PREFIX <= f) && n in Nodes(store, f) && n != self ==>
                multiset(copies)[n] == 2
  {
    var fired := PublishToSubscribers(m, topic, ignore, local, present, failing);
    copies := [];
    if |fired| > 0 {
      copies := ProcessOutboundPublish(scanned, store, fired[0], self, choice);
    }
    if |fired| > 1 {
      var more := ProcessOutboundPublish(scanned, store, fired[1], self, choice);
      forall n, f | f in scanned && !(SHARE_PREFIX <= f) && n in Nodes(store, f) && n != self
        ensures multiset(copies + more)[n] == 2
      {
        assert Sends(store, fired[0], self, choice, f, n) && Sends(store, fired[1], self, choice, f, n);
        OnceEach(copies, n);
        OnceEach(more, n);
        assert multiset(copies + more) == multiset(copies) + multiset(more);
      }
      copies := copies + more;
    }
  }

  lemma {:induction false} OnceEach(list: seq<string>, n: string)
    requires Store.Distinct(list)
    ensures multiset(list)[n] == if n in list then 1 else 0
    decreases |list|
  {
    if list != [] {
      assert list == [list[0]] + list[1..];
      assert multiset(list) == multiset{list[0]} + multiset(list[1..]);
      OnceEach(list[1..], n);
    }
  }

  /** Such a publish: one client served under the plain filter "$sharebox". */
  method HookFiresTwice() returns (fired: seq<map<string, bool>>)
    ensures |fired| == 2 && fired[0] == map[]
  {
    var m := new Matched();
    m.subscriptions := map["c" := Subscription("$sharebox", 0, None, 0, 0, false, false, false)];
    assert "c" in m.subscriptions && SHARE <= m.subscriptions["c"].filter;
    fired := PublishToSubscribers(m, "$sharebox", false, true, {"c"}, {});
    assert LooksShared(m.subscriptions, {"c"});
    assert SYS_PREFIX[1] != "$sharebox"[1];
  }
}
