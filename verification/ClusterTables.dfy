/** The routing trie of the cluster layer against the multiset of filters registered
    in it: shared filter names, leaf counts, and what a walk along a topic reports. */
module ClusterTables {
  import opened Levels
  import opened Matching
  import opened PathTree

  const SHARE := "$share/"

  // ----- shared filter names

  predicate HasPrefix(s: string, prefix: string) {
    |s| >= |prefix| && s[..|prefix|] == prefix
  }

  /** A registration: the group with its trailing separator ("" if there is none), and
      the filter without the share prefix and group. */
  datatype Reg = Reg(group: string, filter: string)

  function ConvertSharedFilter(src: string): (r: Reg) {
    if HasPrefix(src, SHARE) then
      var end := IndexOf(src[|SHARE|..], '/');
      Reg(src[|SHARE|..|SHARE| + end + 1], src[|SHARE| + end + 1..])
    else
      Reg("", src)
  }

  /** The name a registration is reported under. */
  function Name(r: Reg): (s: string) {
    if r.group == "" then r.filter else SHARE + r.group + r.filter
  }

  /** A filter is reported under its own text, unless it has the share prefix and no
      separator after the group. */
  lemma NameRestores(src: string)
    ensures Name(ConvertSharedFilter(src)) == src <==>
            !(HasPrefix(src, SHARE) && '/' !in src[|SHARE|..])
  {
    if HasPrefix(src, SHARE) {
      var rest := src[|SHARE|..];
      var end := IndexOf(rest, '/');
      assert src == SHARE + rest;
      if end >= 0 {
        assert src == SHARE + src[|SHARE|..|SHARE| + end + 1] + src[|SHARE| + end + 1..];
      } else {
        assert |Name(ConvertSharedFilter(src))| < |src|;
      }
    }
  }

  method RestoreShareFilter(filter: string, sharedGroups: seq<string>) returns (names: seq<string>)
    ensures names == seq(|sharedGroups|, i requires 0 <= i < |sharedGroups| => SHARE + sharedGroups[i] + filter)
  {
    names := [];
    for i := 0 to |sharedGroups|
      invariant |names| == i
      invariant forall k :: 0 <= k < i ==> names[k] == SHARE + sharedGroups[k] + filter
    {
      names := names + [SHARE + sharedGroups[i] + filter];
    }
  }

  // ----- leaves

  datatype Leaf = Leaf(filter: string, count: nat, sharedGroups: seq<string>)

  const EMPTY := Leaf("", 0, [])

  type Leaves = map<Place, Leaf>

  /** A leaf's count is its unshared registrations plus its shared groups. */
  ghost predicate LeafCounts(v: Leaf, regs: multiset<Reg>) {
    && "" !in v.sharedGroups
    && (v.count == 0 ==> v.sharedGroups == [])
    && (v.count > 0 ==>
          && v.count == |v.sharedGroups| + regs[Reg("", v.filter)]
          && forall g :: g != "" ==> multiset(v.sharedGroups)[g] == regs[Reg(g, v.filter)])
  }

  ghost predicate Counted(cells: Leaves, regs: multiset<Reg>) {
    && (forall r :: r in regs ==> OnLeaf(cells, r))
    && (forall p :: p in cells ==> LeafCounts(cells[p], regs))
  }

  ghost predicate OnLeaf(cells: Leaves, r: Reg) {
    var p := PlaceOf(r.filter);
    p in cells && cells[p].count > 0 && cells[p].filter == r.filter
  }

  /** A leaf with registrations stands at the place of its filter. */
  ghost predicate Placed(cells: Leaves) {
    forall p :: p in cells && cells[p].count > 0 ==> PlaceOf(cells[p].filter) == p
  }

  ghost predicate Used(cells: Leaves, p: Place) {
    p == Top || HasChild(cells, p) || (p in cells && cells[p].count > 0)
  }

  /** No leaf without registrations and children remains. */
  ghost predicate NoOrphans(cells: Leaves) {
    forall p :: p in cells ==> Used(cells, p)
  }

  ghost predicate NoOrphansBut(cells: Leaves, end: Place) {
    forall p :: p in cells && p != end ==> Used(cells, p)
  }

  lemma GrownUsed(before: Leaves, after: Leaves, end: Place)
    requires Grown(before, after, end, EMPTY) && NoOrphans(before)
    ensures NoOrphansBut(after, end)
  {
  }

  lemma GrownCounted(before: Leaves, after: Leaves, end: Place, regs: multiset<Reg>)
    requires Grown(before, after, end, EMPTY)
    ensures Placed(before) ==> Placed(after)
    ensures Counted(before, regs) ==> Counted(after, regs)
  {
  }

  lemma StoreUsed(before: Leaves, p: Place, v: Leaf)
    requires p in before && NoOrphansBut(before, p)
    ensures NoOrphansBut(before[p := v], p)
    ensures v.count > 0 ==> NoOrphans(before[p := v])
  {
  }

  function Register(v: Leaf, r: Reg): (w: Leaf) {
    Leaf(r.filter, v.count + 1, if r.group != "" then v.sharedGroups + [r.group] else v.sharedGroups)
  }

  lemma RegisterCounted(cells: Leaves, regs: multiset<Reg>, r: Reg)
    requires Placed(cells) && PlaceOf(r.filter) in cells
    ensures var p := PlaceOf(r.filter);
            var after := cells[p := Register(cells[p], r)];
            Placed(after) && (Counted(cells, regs) ==> Counted(after, regs + multiset{r}))
  {
    OnlyTextAt(r.filter);
    hide PlaceOf;
    var p := PlaceOf(r.filter);
    var after, more := cells[p := Register(cells[p], r)], regs + multiset{r};
    if Counted(cells, regs) {
      forall x | x in more
        ensures OnLeaf(after, x)
      {
        if x != r { assert x in regs && OnLeaf(cells, x); }
      }
      assert LeafCounts(cells[p], regs);
      RegisterLeaf(cells[p], regs, r);
      forall q | q in after
        ensures LeafCounts(after[q], more)
      {
        if q != p { OtherLeaf(cells[q], regs, r); }
      }
    }
  }

  lemma RegisterLeaf(v: Leaf, regs: multiset<Reg>, r: Reg)
    requires LeafCounts(v, regs)
    requires v.count > 0 ==> v.filter == r.filter
    requires v.count == 0 ==> forall g :: Reg(g, r.filter) !in regs
    ensures LeafCounts(Register(v, r), regs + multiset{r})
  {
  }

  /** Removes the first occurrence of a group, if there is one. */
  method RemoveGroup(groups: seq<string>, group: string) returns (r: seq<string>)
    ensures multiset(r) == multiset(groups) - multiset{group}
    ensures group !in groups ==> r == groups
  {
    for i := 0 to |groups|
      invariant group !in groups[..i]
    {
      if groups[i] == group {
        assert groups == groups[..i] + [group] + groups[i + 1..];
        return groups[..i] + groups[i + 1..];
      }
    }
    assert groups[..|groups|] == groups;
    return groups;
  }

  /** What unregistering makes of a leaf. */
  ghost predicate Unregistered(v: Leaf, w: Leaf, r: Reg) {
    && w.filter == v.filter
    && w.count == (if v.count > 0 then v.count - 1 else 0)
    && (r.group == "" ==> w.sharedGroups == v.sharedGroups)
    && (r.group != "" ==> multiset(w.sharedGroups) == multiset(v.sharedGroups) - multiset{r.group})
    && (r.group !in v.sharedGroups ==> w.sharedGroups == v.sharedGroups)
  }

  /** The count of a leaf is wrong, or registrations are left without a leaf. */
  ghost predicate Broken(cells: Leaves, regs: multiset<Reg>, p: Place) {
    if p in cells && cells[p].count > 0 then !LeafCounts(cells[p], regs)
    else exists x :: x in regs && PlaceOf(x.filter) == p
  }

  lemma BrokenNotCounted(cells: Leaves, regs: multiset<Reg>, p: Place)
    requires Broken(cells, regs, p)
    ensures !Counted(cells, regs)
  {
  }

  /** Unregistering keeps the counts right when the filter was registered, and when
      nothing at all is registered on the same leaf; otherwise it breaks them. */
  lemma UnregisterCounted(cells: Leaves, regs: multiset<Reg>, r: Reg, w: Leaf)
    requires Placed(cells) && Counted(cells, regs) && PlaceOf(r.filter) in cells
    requires Unregistered(cells[PlaceOf(r.filter)], w, r)
    ensures var p := PlaceOf(r.filter);
            if r in regs || cells[p].count == 0 then Counted(cells[p := w], regs - multiset{r})
            else Broken(cells[p := w], regs - multiset{r}, p)
  {
    hide PlaceOf;
    var p := PlaceOf(r.filter);
    assert LeafCounts(cells[p], regs);
    if r in regs {
      UnregisterKnown(cells, regs, r, w);
    } else {
      assert regs - multiset{r} == regs;
      if cells[p].count == 0 {
        UnregisterIdle(cells, regs, p, w, r);
      } else {
        OnlyTextAt(r.filter);
        assert cells[p].filter == r.filter;
        var x := SomeOnLeaf(cells[p], regs);
        if w.count > 0 { UnregisterStranger(cells[p], regs, r, w); }
      }
    }
  }

  lemma UnregisterIdle(cells: Leaves, regs: multiset<Reg>, p: Place, w: Leaf, r: Reg)
    requires Counted(cells, regs) && p in cells && cells[p].count == 0 && Unregistered(cells[p], w, r)
    ensures Counted(cells[p := w], regs)
  {
  }

  lemma UnregisterKnown(cells: Leaves, regs: multiset<Reg>, r: Reg, w: Leaf)
    requires Placed(cells) && Counted(cells, regs) && r in regs
    requires PlaceOf(r.filter) in cells && Unregistered(cells[PlaceOf(r.filter)], w, r)
    ensures Counted(cells[PlaceOf(r.filter) := w], regs - multiset{r})
  {
    hide PlaceOf, LeafCounts;
    var p := PlaceOf(r.filter);
    var after, fewer := cells[p := w], regs - multiset{r};
    assert OnLeaf(cells, r);
    UnregisterLeaf(cells[p], regs, r, w);
    forall x | x in fewer
      ensures OnLeaf(after, x)
    {
      assert x in regs && OnLeaf(cells, x);
      if PlaceOf(x.filter) == p { TwoOnLeaf(cells[p], regs, r, x); }
    }
    forall q | q in after
      ensures LeafCounts(after[q], fewer)
    {
      if q != p { OtherLeaf(cells[q], regs, r); }
    }
  }

  lemma OtherLeaf(v: Leaf, regs: multiset<Reg>, r: Reg)
    requires LeafCounts(v, regs) && (v.count > 0 ==> v.filter != r.filter)
    ensures LeafCounts(v, regs - multiset{r}) && LeafCounts(v, regs + multiset{r})
  {
  }

  lemma UnregisterLeaf(v: Leaf, regs: multiset<Reg>, r: Reg, w: Leaf)
    requires LeafCounts(v, regs) && Unregistered(v, w, r)
    requires v.count > 0 && v.filter == r.filter && r in regs
    ensures LeafCounts(w, regs - multiset{r})
  {
    var fewer := regs - multiset{r};
    GroupsLen(v.sharedGroups);
    GroupsLen(w.sharedGroups);
    if r.group != "" { assert multiset(v.sharedGroups)[r.group] > 0; }
    forall g | g != ""
      ensures multiset(w.sharedGroups)[g] == fewer[Reg(g, w.filter)]
    {
      assert multiset(v.sharedGroups)[g] == regs[Reg(g, v.filter)];
    }
    assert forall g :: g in w.sharedGroups ==> g in multiset(w.sharedGroups);
  }

  lemma GroupsLen(s: seq<string>)
    ensures |multiset(s)| == |s|
  {
  }

  lemma TwoOnLeaf(v: Leaf, regs: multiset<Reg>, r: Reg, x: Reg)
    requires LeafCounts(v, regs) && v.count > 0
    requires v.filter == r.filter == x.filter && r in regs && x in regs - multiset{r}
    ensures v.count > 1
  {
  }

  lemma SomeOnLeaf(v: Leaf, regs: multiset<Reg>) returns (x: Reg)
    requires LeafCounts(v, regs) && v.count > 0
    ensures x in regs && x.filter == v.filter
  {
    if v.sharedGroups == [] {
      x := Reg("", v.filter);
    } else {
      var g := v.sharedGroups[0];
      assert g in v.sharedGroups && g in multiset(v.sharedGroups);
      x := Reg(g, v.filter);
    }
  }

  lemma UnregisterStranger(v: Leaf, regs: multiset<Reg>, r: Reg, w: Leaf)
    requires LeafCounts(v, regs) && Unregistered(v, w, r) && v.count > 0
    requires v.filter == r.filter && r !in regs && w.count > 0
    ensures !LeafCounts(w, regs)
  {
  }

  lemma DropUsed(before: Leaves, p: Place)
    requires p.Below? && p in before && before[p].count == 0 && !HasChild(before, p) && NoOrphansBut(before, p)
    ensures NoOrphansBut(before - {p}, p.up)
  {
  }

  lemma DropCounted(before: Leaves, p: Place, regs: multiset<Reg>, q: Place)
    requires p in before && before[p].count == 0
    ensures Placed(before) ==> Placed(before - {p})
    ensures Counted(before, regs) ==> Counted(before - {p}, regs)
    ensures Broken(before, regs, q) ==> Broken(before - {p}, regs, q)
  {
    hide PlaceOf;
    var after := before - {p};
    if Counted(before, regs) {
      forall r | r in regs ensures OnLeaf(after, r) { assert OnLeaf(before, r); }
    }
  }

  /** Only leaves without registrations are gone, and no other leaf has changed. */
  ghost predicate Pruned(before: Leaves, after: Leaves) {
    && (forall p :: p in after ==> p in before && after[p] == before[p])
    && (forall p :: p in before && before[p].count > 0 ==> p in after)
  }

  lemma PrunedNone(cells: Leaves)
    ensures Pruned(cells, cells)
  {
  }

  lemma PrunedMore(before: Leaves, after: Leaves, p: Place)
    requires Pruned(before, after) && p in after && after[p].count == 0
    ensures Pruned(before, after - {p})
  {
  }

  lemma NotRegistered(cells: Leaves, regs: multiset<Reg>, r: Reg)
    requires PlaceOf(r.filter) !in cells
    ensures Counted(cells, regs) ==> Counted(cells, regs - multiset{r})
  {
    hide PlaceOf;
    if Counted(cells, regs) {
      assert !OnLeaf(cells, r);
      assert regs - multiset{r} == regs;
    }
  }

  lemma AllUsed(cells: Leaves, p: Place)
    requires NoOrphans(cells)
    ensures NoOrphansBut(cells, p)
  {
  }

  lemma RootUsed(cells: Leaves)
    requires NoOrphansBut(cells, Top)
    ensures NoOrphans(cells)
  {
  }

  lemma StillUsed(cells: Leaves, p: Place, q: Place)
    requires NoOrphansBut(cells, p) && p in cells && (cells[p].count > 0 || HasChild(cells, p))
    ensures NoOrphansBut(cells, q)
  {
  }

  lemma StorePlaced(cells: Leaves, p: Place, w: Leaf)
    requires Placed(cells) && p in cells && w.filter == cells[p].filter
    requires w.count > 0 ==> cells[p].count > 0
    ensures Placed(cells[p := w])
  {
  }

  // ----- what a walk along a topic reports

  /** The leaves the routing walk reads for the topic levels `t` below `p`. */
  ghost function Scanned(cells: Leaves, p: Place, t: Path, top: bool): (places: set<Place>)
    requires |t| >= 1
    decreases |t|
  {
    if t[0] == "#" && Below(p, "#") in cells then ScannedHash(cells, p, t)
    else
      ScannedUnder(cells, p, t, t[0])
      + (if top && DollarTopic(t) then {}
         else ScannedUnder(cells, p, t, "+") + ScannedHash(cells, p, t))
  }

  ghost function ScannedUnder(cells: Leaves, p: Place, t: Path, k: string): (places: set<Place>)
    requires |t| >= 1
    decreases |t|, 0
  {
    if Below(p, k) !in cells then {}
    else if |t| > 1 then Scanned(cells, Below(p, k), t[1..], false)
    else {Below(p, k)} + There(cells, Below(Below(p, k), "#"))
  }

  ghost function ScannedHash(cells: Leaves, p: Place, t: Path): (places: set<Place>)
    requires |t| >= 1
  {
    if Below(p, "#") !in cells then {}
    else {Below(p, "#")} + (if |t| == 1 then There(cells, Below(Below(p, "#"), "#")) else {})
  }

  predicate HashFree(t: Path) {
    forall i :: 0 <= i < |t| ==> t[i] != "#"
  }

  /** The walk reads a filter's leaf exactly when the filter matches. */
  lemma {:induction false} ScannedExact(cells: Leaves, p: Place, f: Path, t: Path, top: bool)
    requires |t| >= 1 && HashFree(t) && UpClosed(cells)
    ensures Walk(p, f) in Scanned(cells, p, t, top) <==> Walk(p, f) in cells && ClusterMatch(f, t, top)
    decreases |t|
  {
    ScannedUnderExact(cells, p, f, t, t[0]);
    ScannedUnderExact(cells, p, f, t, "+");
    WalkOne(p, "#");
    WalkTwo(p, "#", "#");
    if Walk(p, f) == Walk(p, ["#"]) { WalkInjective(p, f, ["#"]); }
    if Walk(p, f) == Walk(p, ["#", "#"]) { WalkInjective(p, f, ["#", "#"]); }
    if f == ["#", "#"] && Walk(p, f) in cells { WalkDown(cells, Below(p, "#"), f[1..]); }
  }

  lemma {:induction false} ScannedUnderExact(cells: Leaves, p: Place, f: Path, t: Path, k: string)
    requires |t| >= 1 && HashFree(t) && UpClosed(cells)
    ensures Walk(p, f) in ScannedUnder(cells, p, t, k) <==>
            && Walk(p, f) in cells && |f| >= 1 && f[0] == k
            && (if |t| > 1 then ClusterMatch(f[1..], t[1..], false) else |f| == 1 || f == [k, "#"])
    decreases |t|, 0
  {
    if |f| >= 1 && f[0] == k {
      if Walk(p, f) in cells { WalkDown(cells, Below(p, k), f[1..]); }
      if |t| > 1 {
        ScannedExact(cells, Below(p, k), f[1..], t[1..], false);
      } else {
        WalkOne(p, k);
        WalkTwo(p, k, "#");
        if |f| == 1 { assert f == [k]; }
        if Walk(p, f) == Walk(p, [k]) { WalkInjective(p, f, [k]); }
        if Walk(p, f) == Walk(p, [k, "#"]) { WalkInjective(p, f, [k, "#"]); }
      }
    } else {
      WalkLevels(p, f);
      assert (p.Levels() + [k])[|p.Levels()|] == k;
      if Walk(p, f) in ScannedUnder(cells, p, t, k) { ScannedPrefix(cells, p, t, k, Walk(p, f)); }
    }
  }

  lemma {:induction false} ScannedPrefix(cells: Leaves, p: Place, t: Path, k: string, q: Place)
    requires |t| >= 1 && q in ScannedUnder(cells, p, t, k)
    ensures p.Levels() + [k] <= q.Levels()
    decreases |t|
  {
    if |t| > 1 {
      var c := Below(p, k);
      if q in ScannedUnder(cells, c, t[1..], t[1]) {
        ScannedPrefix(cells, c, t[1..], t[1], q);
      } else if q in ScannedUnder(cells, c, t[1..], "+") {
        ScannedPrefix(cells, c, t[1..], "+", q);
      }
    }
  }

  /** The names a leaf is reported under. */
  function NamesOf(v: Leaf): (names: set<string>) {
    (if v.count > |v.sharedGroups| then {v.filter} else {})
    + (set g | g in v.sharedGroups :: SHARE + g + v.filter)
  }

  ghost function Names(cells: Leaves, places: set<Place>): (names: set<string>) {
    set q, x | q in places && q in cells && x in NamesOf(cells[q]) :: x
  }

  ghost predicate Spells(list: seq<string>, names: set<string>) {
    forall x :: x in list <==> x in names
  }

  lemma SpellsBoth(a: seq<string>, b: seq<string>, x: set<string>, y: set<string>)
    requires Spells(a, x) && Spells(b, y)
    ensures Spells(a + b, x + y)
  {
  }

  lemma NamesMore(cells: Leaves, x: set<Place>, y: set<Place>)
    ensures Names(cells, x + y) == Names(cells, x) + Names(cells, y)
  {
  }

  lemma NamesOne(cells: Leaves, q: Place)
    requires q in cells
    ensures Names(cells, {q}) == NamesOf(cells[q])
  {
  }

  /** The names of the live registrations whose filters match the topic. */
  ghost function MatchingNames(regs: multiset<Reg>, topic: string): (names: set<string>) {
    set r | r in regs && ClusterMatch(Split(r.filter), Split(topic), true) :: Name(r)
  }

  /** For a wildcard-free topic and filters with '#' at the end only, these are the
      registrations matching by section 4.7, each under its original text. */
  lemma NamesBySpec(regs: multiset<Reg>, sources: set<string>, topic: string)
    requires forall r :: r in regs <==> exists src :: src in sources && ConvertSharedFilter(src) == r
    requires forall src :: src in sources ==>
               HashLast(Split(ConvertSharedFilter(src).filter)) && (HasPrefix(src, SHARE) ==> '/' in src[|SHARE|..])
    requires WildcardFree(Split(topic))
    ensures MatchingNames(regs, topic) == set src | src in sources && SourceMatches(src, topic)
  {
    hide ConvertSharedFilter, Split, ClusterMatch, SpecMatch, HasPrefix;
    forall src | src in sources
      ensures Name(ConvertSharedFilter(src)) == src
      ensures ClusterMatch(Split(ConvertSharedFilter(src).filter), Split(topic), true) <==> SourceMatches(src, topic)
    {
      NameRestores(src);
      ClusterMatchExact(Split(ConvertSharedFilter(src).filter), Split(topic), true);
    }
  }

  /** Section 4.7 on a registered text, a shared one taken without prefix and group. */
  predicate SourceMatches(src: string, topic: string) {
    var f := Split(ConvertSharedFilter(src).filter);
    SpecMatch(f, Split(topic)) && DollarRule(f, Split(topic))
  }

  /** Names of scanned leaves are names of matching registrations, and the other way. */
  lemma NamesExact(cells: Leaves, regs: multiset<Reg>, topic: string)
    requires UpClosed(cells) && Counted(cells, regs) && Placed(cells) && HashFree(Split(topic))
    ensures Names(cells, Scanned(cells, Top, Split(topic), true)) == MatchingNames(regs, topic)
  {
    hide PlaceOf, Scanned, Split, ClusterMatch, NamesOf, Name, LeafCounts, HashFree;
    var places := Scanned(cells, Top, Split(topic), true);
    forall x | x in Names(cells, places)
      ensures x in MatchingNames(regs, topic)
    {
      var q :| q in places && q in cells && x in NamesOf(cells[q]);
      var r := RegOfName(cells[q], regs, x);
      assert OnLeaf(cells, r);
      MatchAtPlace(cells, r.filter, topic);
      SamePlace(cells, q, r);
    }
    forall x | x in MatchingNames(regs, topic)
      ensures x in Names(cells, places)
    {
      var r :| r in regs && ClusterMatch(Split(r.filter), Split(topic), true) && Name(r) == x;
      assert OnLeaf(cells, r);
      MatchAtPlace(cells, r.filter, topic);
      NameOfReg(cells[PlaceOf(r.filter)], regs, r);
    }
  }

  lemma SamePlace(cells: Leaves, q: Place, r: Reg)
    requires Placed(cells) && q in cells && cells[q].count > 0 && cells[q].filter == r.filter
    ensures PlaceOf(r.filter) == q
  {
  }

  lemma MatchAtPlace(cells: Leaves, filter: string, topic: string)
    requires UpClosed(cells) && HashFree(Split(topic))
    ensures PlaceOf(filter) in Scanned(cells, Top, Split(topic), true) <==>
            PlaceOf(filter) in cells && ClusterMatch(Split(filter), Split(topic), true)
  {
    WholePath(filter);
    ScannedExact(cells, Top, Split(filter), Split(topic), true);
  }

  lemma RegOfName(v: Leaf, regs: multiset<Reg>, x: string) returns (r: Reg)
    requires LeafCounts(v, regs) && x in NamesOf(v)
    ensures r in regs && r.filter == v.filter && Name(r) == x && v.count > 0
  {
    if v.count > |v.sharedGroups| && x == v.filter {
      r := Reg("", v.filter);
    } else {
      var g :| g in v.sharedGroups && x == SHARE + g + v.filter;
      assert g in multiset(v.sharedGroups);
      r := Reg(g, v.filter);
    }
  }

  lemma NameOfReg(v: Leaf, regs: multiset<Reg>, r: Reg)
    requires LeafCounts(v, regs) && v.count > 0 && r in regs && r.filter == v.filter
    ensures Name(r) in NamesOf(v)
  {
  }

  /** The names of a leaf's share groups, in order. */
  function GroupNames(v: Leaf): (names: seq<string>) {
    seq(|v.sharedGroups|, i requires 0 <= i < |v.sharedGroups| => SHARE + v.sharedGroups[i] + v.filter)
  }

  lemma SpellsNames(v: Leaf, groups: seq<string>)
    requires groups == GroupNames(v)
    ensures Spells((if v.count > |v.sharedGroups| then [v.filter] else []) + groups, NamesOf(v))
  {
    forall x | x in (set g | g in v.sharedGroups :: SHARE + g + v.filter)
      ensures x in groups
    {
      var g :| g in v.sharedGroups && x == SHARE + g + v.filter;
      var i :| 0 <= i < |v.sharedGroups| && v.sharedGroups[i] == g;
      assert groups[i] == x;
    }
    forall x | x in groups
      ensures x in (set g | g in v.sharedGroups :: SHARE + g + v.filter)
    {
      var i :| 0 <= i < |groups| && groups[i] == x;
      assert v.sharedGroups[i] in v.sharedGroups;
    }
  }

  lemma NamesNone(cells: Leaves)
    ensures Spells([], Names(cells, {}))
  {
  }

  /** A scanned leaf without a filter text has nothing to report. */
  lemma UnnamedLeaf(cells: Leaves, regs: multiset<Reg>, p: Place, k: string, topic: string, d: nat)
    requires Counted(cells, regs) && Placed(cells) && Below(p, k) in cells
    requires topic != "" && p.Depth() == d
    requires k == "#" || k == "+" || (|PathFrom(topic, d)| == 1 && k == PathFrom(topic, d)[0])
    ensures cells[Below(p, k)].filter == "" ==> Names(cells, {Below(p, k)}) == {}
  {
  }
}
