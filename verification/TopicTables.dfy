/** How the local topic trie represents a flat table of subscriptions and a flat map of
    retained messages, and what each change of the trie does to them. */
module TopicTables {
  import opened Levels
  import opened Options
  import opened PathTree
  import opened Subscriptions

  /** What one trie node holds. Shared subscriptions are keyed on group, then client. */
  datatype Particle = Particle(
    subscriptions: map<string, Subscription>,
    shared: map<string, map<string, Subscription>>,
    retainPath: string)

  const EMPTY := Particle(map[], map[], "")

  type Cells = map<Place, Particle>

  datatype Message = Message(topic: string, payload: seq<int>, retain: bool)

  /** What identifies a subscription: the client, the share group if there is one, and
      the place of the filter, a shared filter being placed without its first two levels. */
  datatype Entry = Entry(client: string, group: Option<string>, place: Place)

  type Table = map<Entry, Subscription>

  function EntryOf(client: string, filter: string): (e: Entry) {
    if IsSharedFilter(filter)
    then Entry(client, Some(PathFrom(filter, 1)[0]), Walk(Top, PathFrom(filter, 2)))
    else Entry(client, None, PlaceOf(filter))
  }

  /** Two filters of one client are one subscription when they are the same text, or shared
      filters that differ at most in the letter case of the prefix. */
  predicate SameSubscription(c: string, f: string, d: string, g: string) {
    c == d && (f == g || (IsSharedFilter(f) && IsSharedFilter(g) && Split(f)[1..] == Split(g)[1..]))
  }

  /** Entries tell valid filters apart by client, share group and remaining levels. */
  lemma EntriesApart(c: string, f: string, d: string, g: string)
    requires IsValidFilter(f, false) && IsValidFilter(g, false)
    ensures EntryOf(c, f) == EntryOf(d, g) <==> SameSubscription(c, f, d, g)
  {
    hide Split, IsSharedFilter, Walk, IndexOf, EqualFold;
    WholePath(f);
    WholePath(g);
    if SameSubscription(c, f, d, g) && f != g {
      assert Split(f)[2..] == Split(f)[1..][1..] && Split(f)[1] == Split(f)[1..][0];
      assert Split(g)[2..] == Split(g)[1..][1..] && Split(g)[1] == Split(g)[1..][0];
    }
    if EntryOf(c, f) == EntryOf(d, g) {
      if IsSharedFilter(f) {
        WalkInjective(Top, PathFrom(f, 2), PathFrom(g, 2));
        assert Split(f)[1..] == [Split(f)[1]] + Split(f)[2..] && Split(g)[1..] == [Split(g)[1]] + Split(g)[2..];
      } else {
        PlaceOfInjective(f, g);
      }
    }
  }

  /** What the table has for a client and a filter. */
  function Held(table: Table, client: string, filter: string): (s: Option<Subscription>) {
    if EntryOf(client, filter) in table then Some(table[EntryOf(client, filter)]) else None
  }

  /** Of all clients and valid filters, only what is held for one subscription has changed. */
  ghost predicate OnlyChanged(before: Table, after: Table, client: string, filter: string, now: Option<Subscription>) {
    forall d, g :: IsValidFilter(g, false) ==>
      Held(after, d, g) == if SameSubscription(client, filter, d, g) then now else Held(before, d, g)
  }

  lemma PutChanges(table: Table, client: string, s: Subscription)
    requires IsValidFilter(s.filter, false)
    ensures OnlyChanged(table, table[EntryOf(client, s.filter) := s], client, s.filter, Some(s))
  {
    hide EntryOf, IsValidFilter, SameSubscription;
    forall d, g | IsValidFilter(g, false)
      ensures EntryOf(client, s.filter) == EntryOf(d, g) <==> SameSubscription(client, s.filter, d, g)
    {
      EntriesApart(client, s.filter, d, g);
    }
  }

  lemma CutChanges(table: Table, client: string, filter: string)
    requires IsValidFilter(filter, false)
    ensures OnlyChanged(table, table - {EntryOf(client, filter)}, client, filter, None)
  {
    hide EntryOf, IsValidFilter, SameSubscription;
    forall d, g | IsValidFilter(g, false)
      ensures EntryOf(client, filter) == EntryOf(d, g) <==> SameSubscription(client, filter, d, g)
    {
      EntriesApart(client, filter, d, g);
    }
  }

  // ----- how the trie represents the flat tables

  predicate Stored(cells: Cells, e: Entry) {
    && e.place in cells
    && (match e.group
        case None => e.client in cells[e.place].subscriptions
        case Some(g) => g in cells[e.place].shared && e.client in cells[e.place].shared[g])
  }

  function StoredAt(cells: Cells, e: Entry): (s: Subscription)
    requires Stored(cells, e)
  {
    match e.group
    case None => cells[e.place].subscriptions[e.client]
    case Some(g) => cells[e.place].shared[g][e.client]
  }

  /** The trie stores exactly the table. */
  ghost predicate Holds(cells: Cells, table: Table) {
    && (forall e :: e in table <==> Stored(cells, e))
    && (forall e :: e in table ==> StoredAt(cells, e) == table[e])
  }

  /** Every subscription of the table stands under its own entry. */
  ghost predicate Filed(table: Table) {
    forall e :: e in table ==>
      EntryOf(e.client, table[e].filter) == e && table[e].identifiers.None?
  }

  predicate FullGroups(v: Particle) {
    forall g :: g in v.shared ==> v.shared[g] != map[]
  }

  ghost predicate AllFullGroups(cells: Cells) {
    forall p :: p in cells ==> FullGroups(cells[p])
  }

  /** Every retained message has its path in the trie, and none is under the empty topic.
      A path may outlive its message. */
  ghost predicate HoldsRetained(cells: Cells, retained: map<string, Message>) {
    && "" !in retained
    && (forall t :: t in retained ==> retained[t].topic == t)
    && (forall t :: t in retained ==> PlaceOf(t) in cells && cells[PlaceOf(t)].retainPath == t)
    && (forall p :: p in cells && cells[p].retainPath != "" ==> PlaceOf(cells[p].retainPath) == p)
  }

  lemma NoEmptyTopic(cells: Cells, retained: map<string, Message>)
    requires HoldsRetained(cells, retained)
    ensures "" !in retained
  {
  }

  predicate Live(v: Particle) {
    v.subscriptions != map[] || v.shared != map[] || v.retainPath != ""
  }

  /** A childless node other than the root holds something. */
  ghost predicate Needed(cells: Cells, p: Place) {
    p == Top || HasChild(cells, p) || (p in cells && Live(cells[p]))
  }

  ghost predicate NoDeadLeaves(cells: Cells) {
    forall p :: p in cells ==> Needed(cells, p)
  }

  ghost predicate NoDeadLeavesBut(cells: Cells, end: Place) {
    forall p :: p in cells && p != end ==> Needed(cells, p)
  }

  // ----- what growing the trie and changing one node do to the tables

  lemma GrownHolds(before: Cells, after: Cells, end: Place, table: Table, retained: map<string, Message>)
    requires Grown(before, after, end, EMPTY) && NoDeadLeaves(before)
    requires Holds(before, table) && HoldsRetained(before, retained) && AllFullGroups(before)
    ensures Holds(after, table) && HoldsRetained(after, retained) && AllFullGroups(after)
    ensures NoDeadLeavesBut(after, end)
  {
  }

  lemma StoreNeeded(before: Cells, p: Place, v: Particle)
    requires p in before && NoDeadLeavesBut(before, p)
    ensures NoDeadLeavesBut(before[p := v], p)
    ensures Live(v) ==> NoDeadLeaves(before[p := v])
  {
  }

  function Put(v: Particle, e: Entry, s: Subscription): (w: Particle) {
    match e.group
    case None => v.(subscriptions := v.subscriptions[e.client := s])
    case Some(g) =>
      var members := if g in v.shared then v.shared[g] else map[];
      v.(shared := v.shared[g := members[e.client := s]])
  }

  function Cut(v: Particle, e: Entry): (w: Particle) {
    match e.group
    case None => v.(subscriptions := v.subscriptions - {e.client})
    case Some(g) =>
      var members := if g in v.shared then v.shared[g] - {e.client} else map[];
      v.(shared := if members == map[] then v.shared - {g} else v.shared[g := members])
  }

  lemma PutHolds(cells: Cells, table: Table, e: Entry, s: Subscription)
    requires Holds(cells, table) && e.place in cells && AllFullGroups(cells)
    ensures Holds(cells[e.place := Put(cells[e.place], e, s)], table[e := s])
    ensures AllFullGroups(cells[e.place := Put(cells[e.place], e, s)])
    ensures Live(Put(cells[e.place], e, s)) && (e in table <==> Stored(cells, e))
  {
    var after := cells[e.place := Put(cells[e.place], e, s)];
    forall d
      ensures d in table[e := s] <==> Stored(after, d)
      ensures d in table[e := s] ==> StoredAt(after, d) == table[e := s][d]
    {
      assert d in table <==> Stored(cells, d);
    }
    var v := after[e.place];
    assert e.client in (match e.group case None => v.subscriptions case Some(g) => v.shared[g]);
  }

  lemma PutFiled(table: Table, client: string, s: Subscription)
    requires Filed(table) && s.identifiers.None?
    ensures Filed(table[EntryOf(client, s.filter) := s])
    ensures EntryOf(client, s.filter).client == client
  {
  }

  lemma CutFiled(table: Table, e: Entry)
    requires Filed(table)
    ensures Filed(table - {e})
  {
  }

  lemma HoldsOnlyPlaces(cells: Cells, table: Table, e: Entry)
    requires Holds(cells, table)
    ensures e in table ==> e.place in cells
    ensures e !in table ==> table - {e} == table
  {
  }

  lemma AllNeeded(cells: Cells, p: Place)
    requires NoDeadLeaves(cells)
    ensures NoDeadLeavesBut(cells, p)
  {
  }

  lemma CutHolds(cells: Cells, table: Table, e: Entry)
    requires Holds(cells, table) && e.place in cells && AllFullGroups(cells)
    ensures Holds(cells[e.place := Cut(cells[e.place], e)], table - {e})
    ensures AllFullGroups(cells[e.place := Cut(cells[e.place], e)])
  {
    var after := cells[e.place := Cut(cells[e.place], e)];
    forall d
      ensures d in table - {e} <==> Stored(after, d)
      ensures d in table - {e} ==> StoredAt(after, d) == table[d]
    {
      assert d in table <==> Stored(cells, d);
      if d != e && d.place == e.place && d.group == e.group && d.group.Some? && Stored(cells, d) {
        assert d.client in cells[d.place].shared[d.group.value] - {e.client};
      }
    }
  }

  lemma RetainedKept(cells: Cells, retained: map<string, Message>, p: Place, v: Particle)
    requires HoldsRetained(cells, retained) && p in cells && v.retainPath == cells[p].retainPath
    ensures HoldsRetained(cells[p := v], retained)
  {
  }

  lemma SetRetained(cells: Cells, retained: map<string, Message>, t: string, message: Message)
    requires HoldsRetained(cells, retained) && PlaceOf(t) in cells && message.topic == t && t != ""
    ensures var p := PlaceOf(t);
            HoldsRetained(cells[p := cells[p].(retainPath := t)], retained[t := message])
  {
    OnlyTextAt(t);
    hide PlaceOf;
  }

  lemma ClearRetained(cells: Cells, retained: map<string, Message>, t: string)
    requires HoldsRetained(cells, retained) && PlaceOf(t) in cells
    ensures var p := PlaceOf(t);
            HoldsRetained(cells[p := cells[p].(retainPath := "")], retained - {t})
  {
    OnlyTextAt(t);
    hide PlaceOf;
  }

  lemma RetainPathHolds(cells: Cells, table: Table, p: Place, path: string)
    requires Holds(cells, table) && p in cells && AllFullGroups(cells)
    ensures Holds(cells[p := cells[p].(retainPath := path)], table)
    ensures AllFullGroups(cells[p := cells[p].(retainPath := path)])
  {
    var after := cells[p := cells[p].(retainPath := path)];
    forall d
      ensures d in table <==> Stored(after, d)
      ensures d in table ==> StoredAt(after, d) == table[d]
    {
      assert d in table <==> Stored(cells, d);
    }
  }

  /** Nothing the tables need is lost when places holding nothing are dropped. */
  lemma DroppedHolds(before: Cells, after: Cells, table: Table, retained: map<string, Message>)
    requires Holds(before, table) && HoldsRetained(before, retained) && AllFullGroups(before)
    requires Dropped(before, after)
    ensures Holds(after, table) && HoldsRetained(after, retained) && AllFullGroups(after)
  {
    hide PlaceOf;
    forall e
      ensures e in table <==> Stored(after, e)
      ensures e in table ==> StoredAt(after, e) == table[e]
    {
      assert e in table <==> Stored(before, e);
    }
  }

  ghost predicate Dropped(before: Cells, after: Cells) {
    && (forall p :: p in after ==> p in before && after[p] == before[p])
    && (forall p :: p in before && Live(before[p]) ==> p in after)
  }

  lemma DroppedNone(cells: Cells)
    ensures Dropped(cells, cells)
  {
  }

  lemma Kept(cells: Cells, p: Place)
    requires NoDeadLeavesBut(cells, p) && p in cells && (p == Top || Live(cells[p]) || HasChild(cells, p))
    ensures NoDeadLeaves(cells)
  {
  }

  lemma DropLeaf(start: Cells, before: Cells, p: Place)
    requires p.Below? && p in before && !Live(before[p]) && !HasChild(before, p)
    requires NoDeadLeavesBut(before, p) && Dropped(start, before) && AllFullGroups(before)
    ensures NoDeadLeavesBut(before - {p}, p.up) && AllFullGroups(before - {p})
    ensures Dropped(start, before - {p})
  {
  }

  // ----- counting

  /** The subscriptions that share a filter (and group) with an entry. */
  ghost function Peers(table: Table, place: Place, group: Option<string>): set<Entry> {
    set d | d in table && d.place == place && d.group == group
  }

  /** The peers of a filter are the clients that hold it. */
  lemma PeersHold(table: Table, client: string, filter: string, c: string)
    ensures var e := EntryOf(client, filter);
            Entry(c, e.group, e.place) in Peers(table, e.place, e.group) <==> Held(table, c, filter).Some?
  {
  }

  ghost function SharedPeers(table: Table, place: Place): set<Entry> {
    set d | d in table && d.place == place && d.group.Some?
  }

  ghost function EntriesFor(clients: set<string>, group: Option<string>, place: Place): set<Entry> {
    set c | c in clients :: Entry(c, group, place)
  }

  lemma {:induction false} CountEntries(clients: set<string>, group: Option<string>, place: Place)
    ensures |EntriesFor(clients, group, place)| == |clients|
    decreases |clients|
  {
    if clients == {} {
      assert EntriesFor(clients, group, place) == {};
    } else {
      var c :| c in clients;
      CountEntries(clients - {c}, group, place);
      assert EntriesFor(clients, group, place)
          == EntriesFor(clients - {c}, group, place) + {Entry(c, group, place)};
    }
  }

  lemma CountPeers(cells: Cells, table: Table, place: Place, group: Option<string>)
    requires Holds(cells, table) && place in cells
    requires group.Some? ==> group.value in cells[place].shared
    ensures |Peers(table, place, group)|
         == if group.None? then |cells[place].subscriptions| else |cells[place].shared[group.value]|
  {
    var clients := if group.None? then cells[place].subscriptions.Keys else cells[place].shared[group.value].Keys;
    forall e
      ensures e in Peers(table, place, group) <==> e in EntriesFor(clients, group, place)
    {
      assert e in table <==> Stored(cells, e);
    }
    assert Peers(table, place, group) == EntriesFor(clients, group, place);
    CountEntries(clients, group, place);
  }

  /** The number of shared subscriptions of a node across all its groups. */
  method SharedLen(shared: map<string, map<string, Subscription>>, ghost place: Place) returns (n: nat)
    ensures n == |SharedEntries(shared, shared.Keys, place)|
  {
    n := 0;
    var todo := shared.Keys;
    assert SharedEntries(shared, {}, place) == {};
    while todo != {}
      invariant todo <= shared.Keys
      invariant n == |SharedEntries(shared, shared.Keys - todo, place)|
    {
      var g :| g in todo;
      OneMoreGroup(shared, shared.Keys - todo, g, place);
      assert shared.Keys - (todo - {g}) == shared.Keys - todo + {g};
      n := n + |shared[g]|;
      todo := todo - {g};
    }
    assert shared.Keys - {} == shared.Keys;
  }

  lemma OneMoreGroup(shared: map<string, map<string, Subscription>>, done: set<string>, g: string, place: Place)
    requires g in shared && g !in done
    ensures |SharedEntries(shared, done + {g}, place)| == |SharedEntries(shared, done, place)| + |shared[g]|
  {
    CountEntries(shared[g].Keys, Some(g), place);
    var before, more := SharedEntries(shared, done, place), EntriesFor(shared[g].Keys, Some(g), place);
    assert SharedEntries(shared, done + {g}, place) == before + more;
    assert before !! more;
  }

  ghost function SharedEntries(shared: map<string, map<string, Subscription>>, groups: set<string>,
                               place: Place): set<Entry>
  {
    set g, c | g in groups && g in shared && c in shared[g] :: Entry(c, Some(g), place)
  }

  lemma CountSharedPeers(cells: Cells, table: Table, place: Place)
    requires Holds(cells, table) && place in cells
    ensures SharedPeers(table, place) == SharedEntries(cells[place].shared, cells[place].shared.Keys, place)
  {
  }

  lemma NoSharedEntries(v: Particle, place: Place)
    requires FullGroups(v)
    ensures |SharedEntries(v.shared, v.shared.Keys, place)| == 0 <==> v.shared == map[]
  {
    if v.shared != map[] {
      var g :| g in v.shared;
      var c :| c in v.shared[g];
      assert Entry(c, Some(g), place) in SharedEntries(v.shared, v.shared.Keys, place);
    }
  }

  // ----- which places are there

  predicate AtOrBelow(q: Place, p: Place) {
    q == p || (q.Below? && AtOrBelow(q.up, p))
  }

  /** A place is in the trie exactly when something is held at or below it. This is
      what `Unsubscribe` reports, rather than that the client was subscribed. */
  lemma PlaceThere(cells: Cells, p: Place)
    requires UpClosed(cells) && NoDeadLeaves(cells) && p != Top
    ensures p in cells <==> exists q :: q in cells && AtOrBelow(q, p) && Live(cells[q])
  {
    if p in cells {
      var bound := DepthBound(cells.Keys);
      var q := LiveBelow(cells, p, bound);
    } else {
      forall q | q in cells && AtOrBelow(q, p)
        ensures false
      {
        UpToPlace(cells, q, p);
      }
    }
  }

  lemma {:induction false} UpToPlace(cells: Cells, q: Place, p: Place)
    requires UpClosed(cells) && q in cells && AtOrBelow(q, p)
    ensures p in cells
  {
    if q != p { UpToPlace(cells, q.up, p); }
  }

  lemma {:induction false} LiveBelow(cells: Cells, p: Place, bound: nat) returns (q: Place)
    requires NoDeadLeaves(cells) && p in cells && p != Top
    requires forall r :: r in cells ==> r.Depth() <= bound
    ensures q in cells && AtOrBelow(q, p) && Live(cells[q])
    decreases bound - p.Depth()
  {
    assert Needed(cells, p);
    q := p;
    if !Live(cells[p]) {
      var k :| Below(p, k) in cells;
      q := LiveBelow(cells, Below(p, k), bound);
      BelowTransitive(q, Below(p, k), p);
    }
  }

  lemma {:induction false} BelowTransitive(q: Place, r: Place, p: Place)
    requires AtOrBelow(q, r) && AtOrBelow(r, p)
    ensures AtOrBelow(q, p)
    decreases q
  {
    if q != r { BelowTransitive(q.up, r, p); }
  }
}
