/** What the walks over the local topic trie collect, stated over the flat tables. */
module TopicWalks {
  import opened Levels
  import opened Matching
  import opened Options
  import opened PathTree
  import opened Subscriptions
  import opened TopicTables

  // ----- what a walk along a topic gathers

  /** The places at which the subscription walk gathers, below `p`, for the topic levels `t`. */
  ghost function Gathered(cells: Cells, p: Place, t: Path): (places: set<Place>)
    requires |t| >= 1
    decreases |t|
  {
    There(cells, Below(p, "#"))
    + GatheredUnder(cells, p, t, t[0])
    + GatheredUnder(cells, p, t, "+")
  }

  ghost function GatheredUnder(cells: Cells, p: Place, t: Path, k: string): (places: set<Place>)
    requires |t| >= 1
    decreases |t|, 0
  {
    if Below(p, k) !in cells then {}
    else if |t| > 1 then Gathered(cells, Below(p, k), t[1..])
    else {Below(p, k)} + (if k != "+" then There(cells, Below(Below(p, k), "#")) else {})
  }

  /** The walk gathers at a filter's place exactly when the filter matches. */
  lemma {:induction false} GatheredExact(cells: Cells, p: Place, f: Path, t: Path)
    requires |t| >= 1 && UpClosed(cells)
    ensures Walk(p, f) in Gathered(cells, p, t) <==> Walk(p, f) in cells && LocalMatch(f, t)
    decreases |t|
  {
    WalkOne(p, "#");
    if Walk(p, f) == Walk(p, ["#"]) { WalkInjective(p, f, ["#"]); }
    GatheredUnderExact(cells, p, f, t, t[0]);
    GatheredUnderExact(cells, p, f, t, "+");
  }

  lemma {:induction false} GatheredUnderExact(cells: Cells, p: Place, f: Path, t: Path, k: string)
    requires |t| >= 1 && UpClosed(cells) && (k == "+" || k == t[0])
    ensures Walk(p, f) in GatheredUnder(cells, p, t, k) <==>
            && Walk(p, f) in cells && |f| >= 1 && f[0] == k
            && (if |t| > 1 then LocalMatch(f[1..], t[1..])
                else |f| == 1 || (f == [k, "#"] && k != "+"))
    decreases |t|, 0
  {
    if |f| >= 1 && f[0] == k {
      if Walk(p, f) in cells { WalkDown(cells, Below(p, k), f[1..]); }
      if |t| > 1 {
        GatheredExact(cells, Below(p, k), f[1..], t[1..]);
      } else {
        WalkOne(p, k);
        WalkTwo(p, k, "#");
        if |f| == 1 { assert f == [k]; }
        if Walk(p, f) == Walk(p, [k]) { WalkInjective(p, f, [k]); }
        if Walk(p, f) == Walk(p, [k, "#"]) { WalkInjective(p, f, [k, "#"]); }
      }
    } else if Below(p, k) in cells {
      NotUnder(cells, p, f, t, k);
    }
  }

  /** What is gathered under a child is at or below that child. */
  lemma {:induction false} NotUnder(cells: Cells, p: Place, f: Path, t: Path, k: string)
    requires |t| >= 1 && !(|f| >= 1 && f[0] == k) && Below(p, k) in cells
    ensures Walk(p, f) !in GatheredUnder(cells, p, t, k)
  {
    WalkLevels(p, f);
    forall q | q in GatheredUnder(cells, p, t, k)
      ensures q.Levels() != p.Levels() + f
    {
      UnderPrefix(cells, p, t, k, q);
      assert q.Levels()[|p.Levels()|] == k;
    }
  }

  lemma {:induction false} UnderPrefix(cells: Cells, p: Place, t: Path, k: string, q: Place)
    requires |t| >= 1 && q in GatheredUnder(cells, p, t, k)
    ensures p.Levels() + [k] <= q.Levels()
    decreases |t|
  {
    if |t| > 1 {
      var c := Below(p, k);
      if q in GatheredUnder(cells, c, t[1..], t[1]) {
        UnderPrefix(cells, c, t[1..], t[1], q);
      } else if q in GatheredUnder(cells, c, t[1..], "+") {
        UnderPrefix(cells, c, t[1..], "+", q);
      }
    }
  }

  // ----- gathering subscriptions

  /** A subscription whose filter starts with a wildcard is passed over for '$' topics. */
  predicate Hidden(topic: string, s: Subscription)
    requires topic != ""
  {
    |s.filter| > 0 && topic[0] == '$' && (s.filter[0] == '+' || s.filter[0] == '#')
  }

  /** A client's plain subscriptions at the given places, for this topic. */
  ghost function ClientSubs(table: Table, places: set<Place>, topic: string, c: string): (m: set<Subscription>)
    requires topic != ""
  {
    set e | e in table && e.client == c && e.group.None? && e.place in places
            && !Hidden(topic, table[e]) :: table[e]
  }

  ghost predicate ClientOk(table: Table, places: set<Place>, topic: string,
                           result: map<string, Subscription>, c: string)
    requires topic != ""
  {
    var m := ClientSubs(table, places, topic, c);
    && (c in result <==> m != {})
    && (c in result ==> IsMerge(result[c], m))
  }

  /** `result` merges, client by client, the plain subscriptions at the given places. */
  ghost predicate Collected(table: Table, places: set<Place>, topic: string, result: map<string, Subscription>)
    requires topic != ""
  {
    forall c :: ClientOk(table, places, topic, result, c)
  }

  lemma ClientSubsSame(table: Table, places: set<Place>, p: Place, topic: string, c: string)
    requires topic != ""
    requires Entry(c, None, p) !in table || Hidden(topic, table[Entry(c, None, p)])
    ensures ClientSubs(table, places + {p}, topic, c) == ClientSubs(table, places, topic, c)
  {
  }

  lemma ClientSubsMore(table: Table, places: set<Place>, p: Place, topic: string, c: string)
    requires topic != ""
    requires Entry(c, None, p) in table && !Hidden(topic, table[Entry(c, None, p)])
    ensures ClientSubs(table, places + {p}, topic, c)
         == ClientSubs(table, places, topic, c) + {table[Entry(c, None, p)]}
  {
  }

  /** Merging in the subscription of one client at one more place. */
  lemma GatherStep(table: Table, places: set<Place>, p: Place, topic: string,
                   result: map<string, Subscription>, c: string)
    requires topic != "" && Filed(table) && ClientOk(table, places, topic, result, c)
    requires Entry(c, None, p) in table && !Hidden(topic, table[Entry(c, None, p)])
    ensures var s := table[Entry(c, None, p)];
            ClientOk(table, places + {p}, topic,
                     result[c := (if c in result then result[c] else s).Merge(s)], c)
  {
    var e := Entry(c, None, p);
    var s := table[e];
    var m := ClientSubs(table, places, topic, c);
    ClientSubsMore(table, places, p, topic, c);
    if c in result {
      forall x | x in m && x.filter == s.filter
        ensures x == s
      {
        var d :| d in table && d.client == c && d.group.None? && d.place in places
                && !Hidden(topic, table[d]) && x == table[d];
        assert d == EntryOf(c, x.filter) == e;
      }
      MergeNext(result[c], m, s);
    } else {
      MergeFirst(s);
      assert m + {s} == {s};
    }
  }

  lemma UntouchedClient(table: Table, places: set<Place>, p: Place, topic: string,
                        result: map<string, Subscription>, c: string)
    requires topic != "" && ClientOk(table, places, topic, result, c)
    requires Entry(c, None, p) !in table || Hidden(topic, table[Entry(c, None, p)])
    ensures ClientOk(table, places + {p}, topic, result, c)
  {
    ClientSubsSame(table, places, p, topic, c);
  }

  lemma OtherClient(table: Table, places: set<Place>, topic: string,
                    before: map<string, Subscription>, after: map<string, Subscription>, c: string)
    requires topic != "" && ClientOk(table, places, topic, before, c)
    requires c in before <==> c in after
    requires c in before ==> before[c] == after[c]
    ensures ClientOk(table, places, topic, after, c)
  {
  }

  // ----- gathering shared subscriptions

  /** `shared` lists, by full filter text, exactly the given shared subscriptions. */
  ghost predicate CollectedEntries(table: Table, entries: set<Entry>, shared: map<string, map<string, Subscription>>) {
    && (forall f :: f in shared ==> shared[f] != map[])
    && (forall f, c :: (f in shared && c in shared[f]) <==>
          EntryOf(c, f) in entries && EntryOf(c, f) in table && table[EntryOf(c, f)].filter == f)
    && (forall f, c :: f in shared && c in shared[f] ==> shared[f][c] == table[EntryOf(c, f)])
  }

  ghost function SharedAt(table: Table, places: set<Place>): (entries: set<Entry>) {
    set e | e in table && e.group.Some? && e.place in places
  }

  lemma SharedStep(table: Table, entries: set<Entry>, shared: map<string, map<string, Subscription>>, e: Entry)
    requires CollectedEntries(table, entries, shared) && Filed(table) && e in table
    ensures var s := table[e];
            var members := if s.filter in shared then shared[s.filter] else map[];
            CollectedEntries(table, entries + {e}, shared[s.filter := members[e.client := s]])
  {
    hide EntryOf;
    var s := table[e];
    assert EntryOf(e.client, s.filter) == e;
    var members := if s.filter in shared then shared[s.filter] else map[];
    var after := shared[s.filter := members[e.client := s]];
    forall f, c
      ensures (f in after && c in after[f]) <==>
              EntryOf(c, f) in entries + {e} && EntryOf(c, f) in table && table[EntryOf(c, f)].filter == f
      ensures f in after && c in after[f] ==> after[f][c] == table[EntryOf(c, f)]
    {
      ClientOfEntry(c, f);
      if EntryOf(c, f) == e { assert c == e.client; }
    }
    assert e.client in after[s.filter];
  }

  lemma ClientOfEntry(c: string, f: string)
    ensures EntryOf(c, f).client == c
  {
  }

  lemma SharedAtMore(cells: Cells, table: Table, places: set<Place>, p: Place)
    requires Holds(cells, table) && p in cells
    ensures SharedAt(table, places + {p})
         == SharedAt(table, places) + SharedEntries(cells[p].shared, cells[p].shared.Keys, p)
  {
  }

  lemma NoGroups(shared: map<string, map<string, Subscription>>, p: Place, before: set<Entry>)
    ensures before + SharedEntries(shared, shared.Keys - shared.Keys, p) == before
  {
  }

  lemma NoClients(before: set<Entry>, g: string, p: Place)
    ensures forall s: set<string> :: before + EntriesFor(s - s, Some(g), p) == before
  {
  }

  lemma MoreClients(before: set<Entry>, done: set<string>, c: string, g: string, p: Place)
    ensures before + EntriesFor(done, Some(g), p) + {Entry(c, Some(g), p)}
         == before + EntriesFor(done + {c}, Some(g), p)
  {
  }

  lemma MoreGroups(before: set<Entry>, shared: map<string, map<string, Subscription>>, done: set<string>, g: string,
                   p: Place)
    requires g in shared
    ensures before + SharedEntries(shared, done, p) + EntriesFor(shared[g].Keys, Some(g), p)
         == before + SharedEntries(shared, done + {g}, p)
  {
  }

  // ----- the walk against the flat table

  /** Whether a plain filter is delivered a topic: the local match and section 4.7.2. */
  predicate FilterMatches(filter: string, topic: string) {
    LocalMatch(Split(filter), Split(topic)) && DollarRule(Split(filter), Split(topic))
  }

  /** A client's plain subscriptions whose filters match the topic. */
  ghost function MatchingSubs(table: Table, topic: string, c: string): (m: set<Subscription>) {
    set e | e in table && e.client == c && e.group.None? && FilterMatches(table[e].filter, topic) :: table[e]
  }

  ghost function MatchingShared(table: Table, topic: string): (entries: set<Entry>) {
    set e | e in table && e.group.Some? && LocalMatch(PathFrom(table[e].filter, 2), Split(topic))
  }

  /** Exactly the clients with a matching filter are there, each with the merge of
      exactly its matching subscriptions. */
  ghost predicate SubscribersExact(table: Table, topic: string, result: map<string, Subscription>) {
    forall c :: ClientExact(table, topic, result, c)
  }

  ghost predicate ClientExact(table: Table, topic: string, result: map<string, Subscription>, c: string) {
    var m := MatchingSubs(table, topic, c);
    && (c in result <==> m != {})
    && (c in result ==> IsMerge(result[c], m))
  }

  lemma NothingCollected(table: Table, topic: string)
    requires topic != ""
    ensures Collected(table, {}, topic, map[])
    ensures CollectedEntries(table, SharedAt(table, {}), map[])
  {
  }

  /** Passing over a subscription by its first character is the rule of section 4.7.2. */
  lemma HiddenByDollarRule(topic: string, s: Subscription)
    requires topic != "" && LocalMatch(Split(s.filter), Split(topic))
    ensures Hidden(topic, s) <==> !DollarRule(Split(s.filter), Split(topic))
  {
    DollarText(topic);
    var f, t := Split(s.filter), Split(topic);
    if topic[0] == '$' && s.filter != "" {
      FirstLevelStart(s.filter, '+');
      FirstLevelStart(s.filter, '#');
      assert f[0] == t[0] || f[0] == "+" || f[0] == "#";
    }
  }

  lemma PlainPlaceMatches(cells: Cells, table: Table, topic: string, e: Entry)
    requires topic != "" && UpClosed(cells) && Holds(cells, table) && Filed(table)
    requires e in table && e.group.None?
    ensures e.place in Gathered(cells, Top, Split(topic)) && !Hidden(topic, table[e])
       <==> FilterMatches(table[e].filter, topic)
  {
    var f := table[e].filter;
    assert Stored(cells, e);
    assert EntryOf(e.client, f) == e;
    WholePath(f);
    GatheredExact(cells, Top, Split(f), Split(topic));
    if LocalMatch(Split(f), Split(topic)) { HiddenByDollarRule(topic, table[e]); }
  }

  lemma CollectedIsExact(cells: Cells, table: Table, topic: string, result: map<string, Subscription>)
    requires topic != "" && UpClosed(cells) && Holds(cells, table) && Filed(table)
    requires Collected(table, Gathered(cells, Top, Split(topic)), topic, result)
    ensures SubscribersExact(table, topic, result)
  {
    hide Split, EntryOf, FilterMatches, Gathered, Hidden, IsMerge;
    var places := Gathered(cells, Top, Split(topic));
    forall c
      ensures ClientExact(table, topic, result, c)
    {
      assert ClientOk(table, places, topic, result, c);
      SameSubs(cells, table, topic, c);
    }
  }

  lemma SameSubs(cells: Cells, table: Table, topic: string, c: string)
    requires topic != "" && UpClosed(cells) && Holds(cells, table) && Filed(table)
    ensures ClientSubs(table, Gathered(cells, Top, Split(topic)), topic, c) == MatchingSubs(table, topic, c)
  {
    hide Split, EntryOf, FilterMatches, Gathered, Hidden;
    forall e | e in table && e.group.None?
      ensures e.place in Gathered(cells, Top, Split(topic)) && !Hidden(topic, table[e])
         <==> FilterMatches(table[e].filter, topic)
    {
      PlainPlaceMatches(cells, table, topic, e);
    }
  }

  lemma SharedIsExact(cells: Cells, table: Table, topic: string)
    requires topic != "" && UpClosed(cells) && Holds(cells, table) && Filed(table)
    ensures SharedAt(table, Gathered(cells, Top, Split(topic))) == MatchingShared(table, topic)
  {
    forall e | e in table && e.group.Some?
      ensures e.place in Gathered(cells, Top, Split(topic))
         <==> LocalMatch(PathFrom(table[e].filter, 2), Split(topic))
    {
      assert Stored(cells, e);
      assert EntryOf(e.client, table[e].filter) == e;
      GatheredExact(cells, Top, PathFrom(table[e].filter, 2), Split(topic));
    }
  }

  // ----- collecting retained messages

  type Retained = map<string, Message>

  /** The retained topics that lie below the path `at` and match `f` from there on. */
  ghost function Wanted(retained: Retained, at: Path, f: Path, top: bool): (topics: set<string>)
    requires |f| >= 1
  {
    set t | t in retained && |Split(t)| > |at| && Split(t)[..|at|] == at && RetainMatch(f, Split(t)[|at|..], top)
  }

  ghost function Own(retained: Retained, l: Path): (topics: set<string>) {
    set t | t in retained && Split(t) == l
  }

  /** Those among them whose next level is one of `keys`. */
  ghost function WantedUnder(retained: Retained, at: Path, f: Path, top: bool, keys: set<string>): (topics: set<string>)
    requires |f| >= 1
  {
    set t | t in Wanted(retained, at, f, top) && Split(t)[|at|] in keys
  }

  /** The given messages are those of the given topics, each once. */
  ghost predicate Lists(messages: seq<Message>, retained: Retained, topics: set<string>) {
    && (forall i :: 0 <= i < |messages| ==>
          messages[i].topic in topics && messages[i].topic in retained && retained[messages[i].topic] == messages[i])
    && (forall i, j :: 0 <= i < j < |messages| ==> messages[i].topic != messages[j].topic)
    && (forall t :: t in topics ==> t in retained && retained[t] in messages)
  }

  lemma ListsOne(retained: Retained, t: string)
    requires t in retained ==> retained[t].topic == t
    ensures Lists(if t in retained then [retained[t]] else [], retained, if t in retained then {t} else {})
  {
  }

  lemma ListsBoth(a: seq<Message>, b: seq<Message>, retained: Retained, x: set<string>, y: set<string>)
    requires Lists(a, retained, x) && Lists(b, retained, y) && x !! y
    ensures Lists(a + b, retained, x + y)
  {
  }

  /** What one child contributes: its own message at the end of the filter, and what
      lies below it while the filter goes on or has met '#'. */
  lemma WantedChild(retained: Retained, at: Path, f: Path, top: bool, k: string)
    requires |f| >= 1 && (f[0] == "+" || f[0] == "#" || f[0] == k)
    requires !(top && k == SYS_PREFIX && (f[0] == "+" || f[0] == "#"))
    ensures |f| > 1 ==>
              WantedUnder(retained, at, f, top, {k}) == Wanted(retained, at + [k], f[1..], false)
    ensures f == ["#"] ==>
              && WantedUnder(retained, at, f, top, {k})
                 == Own(retained, at + [k]) + Wanted(retained, at + [k], f, false)
              && Own(retained, at + [k]) !! Wanted(retained, at + [k], f, false)
    ensures |f| == 1 && f[0] != "#" ==>
              WantedUnder(retained, at, f, top, {k}) == Own(retained, at + [k])
  {
    var rest := if |f| > 1 then f[1..] else f;
    forall t | t in retained
      ensures t in WantedUnder(retained, at, f, top, {k}) <==>
              || (|f| == 1 && Split(t) == at + [k])
              || ((|f| > 1 || f[0] == "#") && t in Wanted(retained, at + [k], rest, false))
    {
      WantedStep(Split(t), at, f, top, k);
    }
  }

  lemma WantedStep(l: Path, at: Path, f: Path, top: bool, k: string)
    requires |f| >= 1 && (f[0] == "+" || f[0] == "#" || f[0] == k)
    requires !(top && k == SYS_PREFIX && (f[0] == "+" || f[0] == "#"))
    ensures var rest := if |f| > 1 then f[1..] else f;
            (|l| > |at| && l[..|at|] == at && RetainMatch(f, l[|at|..], top) && l[|at|] == k) <==>
            || (|f| == 1 && l == at + [k])
            || ((|f| > 1 || f[0] == "#") && |l| > |at| + 1 && l[..|at| + 1] == at + [k]
                && RetainMatch(rest, l[|at| + 1..], false))
  {
  }

  lemma WantedMore(retained: Retained, at: Path, f: Path, top: bool, done: set<string>, k: string)
    requires |f| >= 1 && k !in done
    ensures WantedUnder(retained, at, f, top, done + {k})
         == WantedUnder(retained, at, f, top, done) + WantedUnder(retained, at, f, top, {k})
    ensures WantedUnder(retained, at, f, top, done) !! WantedUnder(retained, at, f, top, {k})
  {
  }

  /** Nothing is wanted under the system tree from a leading wildcard, nor off a literal level. */
  lemma NothingWanted(retained: Retained, at: Path, f: Path, top: bool, k: string)
    requires |f| >= 1
    requires if f[0] == "+" || f[0] == "#" then top && k == SYS_PREFIX else k != f[0]
    ensures WantedUnder(retained, at, f, top, {k}) == {}
  {
  }

  lemma OwnMessage(cells: Cells, retained: Retained, p: Place, at: Path, k: string)
    requires HoldsRetained(cells, retained)
    requires p.Below? && p in cells && p.Levels() == at + [k]
    ensures var path := cells[p].retainPath;
            && Own(retained, at + [k]) == (if path in retained then {path} else {})
            && (path in retained ==> retained[path].topic == path)
  {
    var path := cells[p].retainPath;
    forall t | t in retained && Split(t) == at + [k]
      ensures t == path
    {
      PlaceOfLevels(t);
      LevelsInjective(PlaceOf(t), p);
    }
    if path in retained { PlaceOfLevels(path); }
  }

  lemma OwnTopic(cells: Cells, retained: Retained, t: string)
    requires HoldsRetained(cells, retained)
    ensures t in retained ==> retained[t].topic == t
  {
  }

  /** All wanted topics are under children that are there. */
  lemma WantedAllThere(cells: Cells, retained: Retained, p: Place, f: Path, top: bool, keys: set<string>)
    requires |f| >= 1 && HoldsRetained(cells, retained) && UpClosed(cells)
    requires forall k :: Below(p, k) in cells ==> k in keys
    ensures WantedUnder(retained, p.Levels(), f, top, keys) == Wanted(retained, p.Levels(), f, top)
  {
    forall t | t in Wanted(retained, p.Levels(), f, top)
      ensures Split(t)[|p.Levels()|] in keys
    {
      TopicThere(cells, retained, p, t);
    }
  }

  lemma WantedLiteral(retained: Retained, filter: string)
    requires '+' !in filter && '#' !in filter
    ensures Wanted(retained, [], Split(filter), true) == (if filter in retained then {filter} else {})
  {
    WildcardFreeText(filter);
    forall t | t in retained
      ensures t in Wanted(retained, [], Split(filter), true) <==> t == filter
    {
      assert Split(t)[0..] == Split(t);
      RetainMatchLiteral(Split(filter), Split(t), true);
      if Split(t) == Split(filter) { SplitInjective(t, filter); }
    }
  }

  lemma NothingRetained(retained: Retained, at: Path, f: Path, filter: string, top: bool)
    requires |f| >= 1 && "" !in retained
    requires retained == map[] || (filter == "" && at == [] && f == Split(filter))
    ensures Wanted(retained, at, f, top) == {}
  {
  }

  lemma NoKeys(retained: Retained, at: Path, f: Path, top: bool, keys: set<string>)
    requires |f| >= 1
    ensures WantedUnder(retained, at, f, top, keys - keys) == {}
  {
  }

  /** A literal level wants only what lies under the child of that name. */
  lemma WantedLiteralChild(cells: Cells, retained: Retained, p: Place, f: Path, top: bool)
    requires |f| >= 1 && HoldsRetained(cells, retained) && UpClosed(cells)
    requires f[0] != "+" && f[0] != "#"
    ensures Wanted(retained, p.Levels(), f, top) == WantedUnder(retained, p.Levels(), f, top, {f[0]})
    ensures Below(p, f[0]) !in cells ==> Wanted(retained, p.Levels(), f, top) == {}
  {
    if Below(p, f[0]) !in cells {
      forall t | t in Wanted(retained, p.Levels(), f, top)
        ensures false
      {
        TopicThere(cells, retained, p, t);
      }
    }
  }

  lemma TopicThere(cells: Cells, retained: Retained, p: Place, t: string)
    requires HoldsRetained(cells, retained) && UpClosed(cells) && t in retained
    requires |Split(t)| > |p.Levels()| && Split(t)[..|p.Levels()|] == p.Levels()
    ensures Below(p, Split(t)[|p.Levels()|]) in cells
  {
    hide Split, Place.Levels, Place.Depth, UpClosed;
    var l, i := Split(t), |p.Levels()|;
    PlaceOfLevels(t);
    WholePath(t);
    WalkLevels(p, l[i..]);
    LevelsInjective(PlaceOf(t), Walk(p, l[i..]));
    WalkDown(cells, Below(p, l[i]), l[i..][1..]);
  }

  lemma LevelsOfTop(p: Place)
    ensures p.Depth() == 0 ==> p.Levels() == []
  {
  }

  lemma LevelsBelow(p: Place, k: string)
    ensures Below(p, k).Levels() == p.Levels() + [k]
  {
  }

  // ----- the results by section 4.7

  /** A client's plain subscriptions that match by section 4.7, but for the parent match
      of a filter ending in '+/#'. */
  ghost function SpecSubs(table: Table, topic: string, c: string): (m: set<Subscription>) {
    set e | e in table && e.client == c && e.group.None?
            && SpecMatch(Split(table[e].filter), Split(topic)) && DollarRule(Split(table[e].filter), Split(topic))
            && !PlusParent(Split(table[e].filter), Split(topic)) :: table[e]
  }

  lemma SubscribersBySpec(table: Table, topic: string, result: map<string, Subscription>, c: string)
    requires SubscribersExact(table, topic, result) && WildcardFree(Split(topic))
    requires forall e :: e in table && e.group.None? ==> IsValidFilter(table[e].filter, false)
    ensures c in result <==> SpecSubs(table, topic, c) != {}
    ensures c in result ==> IsMerge(result[c], SpecSubs(table, topic, c))
  {
    hide IsMerge, Split, LocalMatch, SpecMatch, PlusParent, IsValidFilter;
    forall e | e in table && e.group.None?
      ensures FilterMatches(table[e].filter, topic) <==>
              && SpecMatch(Split(table[e].filter), Split(topic)) && DollarRule(Split(table[e].filter), Split(topic))
              && !PlusParent(Split(table[e].filter), Split(topic))
    {
      ValidFilterHashLast(table[e].filter);
      LocalMatchExact(Split(table[e].filter), Split(topic));
    }
    assert MatchingSubs(table, topic, c) == SpecSubs(table, topic, c);
    assert ClientExact(table, topic, result, c);
  }

  /** The shared entries that match, without the rule for '$' topics. */
  lemma SharedBySpec(table: Table, topic: string, e: Entry)
    requires WildcardFree(Split(topic)) && Filed(table)
    requires e in table && e.group.Some? && IsValidFilter(table[e].filter, false)
    ensures e in MatchingShared(table, topic) <==>
            && SpecMatch(PathFrom(table[e].filter, 2), Split(topic))
            && !PlusParent(PathFrom(table[e].filter, 2), Split(topic))
  {
    var filter := table[e].filter;
    assert EntryOf(e.client, filter) == e;
    ValidFilterHashLast(filter);
    LocalMatchExact(PathFrom(filter, 2), Split(topic));
  }

  /** For a valid filter: '#' stands for one or more levels, and a leading wildcard passes
      over "$SYS". */
  lemma MessagesBySpec(filter: string, t: string)
    requires IsValidFilter(filter, false)
    ensures var f, l := Split(filter), Split(t);
            RetainMatch(f, l, true) <==>
              && SpecMatch(f, l) && !(EndsInHash(f) && |l| == |f| - 1)
              && !(TopWildcard(f) && l[0] == SYS_PREFIX)
  {
    ValidFilterHashLast(filter);
    RetainMatchExact(Split(filter), Split(t), true);
  }
}
