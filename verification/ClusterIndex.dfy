/** The routing trie of the cluster layer. */
module ClusterIndex {
  import opened Levels
  import opened Matching
  import opened PathTree
  import opened ClusterTables

  class Index {
    const tree: Tree<Leaf>
    ghost var regs: multiset<Reg>

    /** Well-formed, without orphans, every used leaf at its filter's place. */
    ghost predicate Valid()
      reads this, tree, tree.repr
    {
      tree.Valid() && NoOrphans(tree.cells) && Placed(tree.cells)
    }

    /** The leaf counts agree with what is registered. */
    ghost predicate Balanced()
      reads this, tree
    {
      Counted(tree.cells, regs)
    }

    constructor ()
      ensures Valid() && Balanced() && fresh(tree) && fresh(tree.repr)
      ensures regs == multiset{}
    {
      tree := new Tree<Leaf>(EMPTY);
      regs := multiset{};
    }

    /** Registers a filter. */
    method Subscribe(filter: string) returns (ok: bool)
      requires Valid()
      modifies this, tree, tree.repr
      ensures Valid() && fresh(tree.repr - old(tree.repr)) && ok
      ensures regs == old(regs) + multiset{ConvertSharedFilter(filter)}
      ensures old(Balanced()) ==> Balanced()
    {
      hide Tree.Valid, Grown, NoOrphans, NoOrphansBut, Placed, Counted, Walk, PathFrom;
      var r := ConvertSharedFilter(filter);
      var n := tree.Set(r.filter, 0, EMPTY);
      GrownUsed(old(tree.cells), tree.cells, n.place);
      GrownCounted(old(tree.cells), tree.cells, n.place, regs);
      RegisterCounted(tree.cells, regs, r);
      var v := Leaf(r.filter, n.value.count + 1, n.value.sharedGroups);
      if r.group != "" {
        v := v.(sharedGroups := v.sharedGroups + [r.group]);
      }
      StoreUsed(tree.cells, n.place, v);
      tree.Store(n, v);
      regs := regs + multiset{r};
      ok := n.value.count > 0;
    }

    /** Takes one registration of a filter back. The counts stay right exactly when the
        filter was registered or nothing at all is registered on the same leaf. */
    method Unsubscribe(filter: string) returns (found: bool)
      requires Valid()
      modifies this, tree, tree.repr
      ensures Valid() && tree.repr <= old(tree.repr)
      ensures regs == old(regs) - multiset{ConvertSharedFilter(filter)}
      ensures var r := ConvertSharedFilter(filter);
              var p := PlaceOf(r.filter);
              && found == (p in old(tree.cells))
              && (!found ==> tree.cells == old(tree.cells))
              && (found ==> exists w :: Unregistered(old(tree.cells)[p], w, r)
                                        && Pruned(old(tree.cells)[p := w], tree.cells))
              && (old(Balanced()) ==>
                    (Balanced() <==>
                       r in old(regs) || p !in old(tree.cells) || old(tree.cells)[p].count == 0))
    {
      hide Tree.Valid, NoOrphans, NoOrphansBut, Placed, Counted, Walk, PathFrom, Broken, Pruned, Unregistered;
      var r := ConvertSharedFilter(filter);
      var e := tree.Seek(r.filter, 0);
      if e == null {
        NotRegistered(tree.cells, regs, r);
        regs := regs - multiset{r};
        return false;
      }
      ghost var p, good := e.place, r in regs || tree.cells[e.place].count == 0;
      Release(e, r);
      ghost var w := tree.cells[p];
      if old(Balanced()) && !good { BrokenNotCounted(tree.cells, regs, p); }
      Climb(e, p);
      if old(Balanced()) && !good { BrokenNotCounted(tree.cells, regs, p); }
      found := true;
    }

    /** Takes a registration off its leaf. */
    method Release(e: Node<Leaf>, r: Reg)
      requires Valid() && e in tree.repr && e.place == PlaceOf(r.filter)
      modifies this`regs, tree`cells, e`value
      ensures tree.Valid() && e in tree.repr && NoOrphansBut(tree.cells, e.place) && Placed(tree.cells)
      ensures e.place in old(tree.cells) && e.place in tree.cells
      ensures tree.cells == old(tree.cells)[e.place := tree.cells[e.place]]
      ensures Unregistered(old(tree.cells)[e.place], tree.cells[e.place], r)
      ensures regs == old(regs) - multiset{r}
      ensures old(Balanced()) ==>
                if r in old(regs) || old(tree.cells)[e.place].count == 0 then Balanced()
                else Broken(tree.cells, regs, e.place)
    {
      hide Tree.Valid, NoOrphans, NoOrphansBut, Placed, Counted, PlaceOf, Broken;
      tree.RootOnTop(e);
      var v := e.value;
      var w := v.(count := if v.count > 0 then v.count - 1 else 0);
      if r.group != "" {
        var groups := RemoveGroup(v.sharedGroups, r.group);
        w := w.(sharedGroups := groups);
      }
      if Counted(tree.cells, regs) { UnregisterCounted(tree.cells, regs, r, w); }
      AllUsed(tree.cells, e.place);
      StoreUsed(tree.cells, e.place, w);
      StorePlaced(tree.cells, e.place, w);
      tree.Store(e, w);
      regs := regs - multiset{r};
    }

    /** Steps up to the root, deleting every leaf found empty on the way. */
    method Climb(leaf: Node<Leaf>, ghost p: Place)
      requires tree.Valid() && leaf in tree.repr && NoOrphansBut(tree.cells, leaf.place) && Placed(tree.cells)
      modifies tree, tree.repr
      ensures Valid() && tree.repr <= old(tree.repr) && Pruned(old(tree.cells), tree.cells)
      ensures old(Balanced()) ==> Balanced()
      ensures old(Broken(tree.cells, regs, p)) ==> Broken(tree.cells, regs, p)
    {
      hide Tree.Valid, NoOrphans, NoOrphansBut, Placed, Counted, Broken, HasChild, Pruned;
      PrunedNone(tree.cells);
      var e := leaf;
      tree.RootOnTop(e);
      while e.parent != null
        invariant tree.Valid() && e in tree.repr && tree.repr <= old(tree.repr)
        invariant e.parent == null ==> e.place == Top
        invariant NoOrphansBut(tree.cells, e.place) && Placed(tree.cells)
        invariant Pruned(old(tree.cells), tree.cells)
        invariant old(Balanced()) ==> Counted(tree.cells, regs)
        invariant old(Broken(tree.cells, regs, p)) ==> Broken(tree.cells, regs, p)
        decreases e.place.Depth()
      {
        tree.RootOnTop(e);
        tree.UpOfNode(e);
        var orphaned := e.value.count == 0 && |e.children| == 0;
        var child := e;
        e := e.parent;
        if orphaned {
          DropUsed(tree.cells, child.place);
          PrunedMore(old(tree.cells), tree.cells, child.place);
          DropCounted(tree.cells, child.place, regs, p);
          tree.RemoveLeaf(child);
        } else {
          StillUsed(tree.cells, child.place, e.place);
        }
        tree.RootOnTop(e);
      }
      RootUsed(tree.cells);
    }

    /** Appends the names of one leaf. */
    method Report(n: Node<Leaf>, filters: seq<string>, ghost base: seq<string>, ghost seen: set<Place>)
      returns (r: seq<string>)
      requires tree.Valid() && n in tree.repr
      requires base <= filters && Spells(filters[|base|..], Names(tree.cells, seen))
      ensures filters <= r
      ensures base <= r && Spells(r[|base|..], Names(tree.cells, seen + {n.place}))
    {
      hide Tree.Valid, Names, NamesOf, Spells;
      tree.RootOnTop(n);
      r := filters;
      ghost var v := n.value;
      if n.value.count > |n.value.sharedGroups| {
        r := r + [n.value.filter];
      }
      if |n.value.sharedGroups| > 0 {
        var groups := RestoreShareFilter(n.value.filter, n.value.sharedGroups);
        r := r + groups;
      }
      ghost var groups := GroupNames(v);
      ghost var added := (if v.count > |v.sharedGroups| then [v.filter] else []) + groups;
      assert r == filters + added;
      SpellsNames(v, groups);
      SpellsBoth(filters[|base|..], added, Names(tree.cells, seen), NamesOf(v));
      assert r[|base|..] == filters[|base|..] + added;
      NamesMore(tree.cells, seen, {n.place});
      NamesOne(tree.cells, n.place);
    }

    /** Appends the names of a matching leaf and, at the end of the topic, of its '#' child. */
    method ReportMatch(child: Node<Leaf>, hasNext: bool, filters: seq<string>, ghost base: seq<string>,
                       ghost seen: set<Place>)
      returns (r: seq<string>)
      requires tree.Valid() && child in tree.repr && child.place in tree.cells
      requires tree.cells[child.place].filter == "" ==> Names(tree.cells, {child.place}) == {}
      requires base <= filters && Spells(filters[|base|..], Names(tree.cells, seen))
      ensures base <= r
      ensures Spells(r[|base|..],
                     Names(tree.cells, seen + {child.place}
                                       + (if hasNext then {} else There(tree.cells, Below(child.place, "#")))))
    {
      hide Tree.Valid, Names, NamesOf, Spells;
      tree.RootOnTop(child);
      r := filters;
      if child.value.filter != "" {
        r := Report(child, r, base, seen);
      } else {
        NamesMore(tree.cells, seen, {child.place});
        assert Names(tree.cells, seen) + {} == Names(tree.cells, seen);
      }
      ghost var now := seen + {child.place};
      assert now + {} == now;
      if !hasNext {
        tree.ChildAt(child, "#");
        if "#" in child.children {
          r := Report(child.children["#"], r, base, now);
        }
      }
    }

    /** Appends the names of the leaves below `n` that match the topic from level `d` on. */
    method ScanLeaf(topic: string, d: nat, n: Node<Leaf>, filters: seq<string>, ghost base: seq<string>,
                    ghost before: set<Place>)
      returns (r: seq<string>)
      requires Valid() && Balanced() && n in tree.repr && n.place.Depth() == d
      requires topic != ""
      requires base <= filters && Spells(filters[|base|..], Names(tree.cells, before))
      ensures base <= r
      ensures Spells(r[|base|..], Names(tree.cells, before + Scanned(tree.cells, n.place, PathFrom(topic, d), d == 0)))
      decreases |PathFrom(topic, d)|
    {
      hide Tree.Valid, Names, NamesOf, Spells, NoOrphans, Placed, Counted, PathFrom, Split, Place.Depth;
      r := filters;
      var part, hasNext := IsolateParticle(topic, d);
      PathStep(topic, d);
      ghost var cells, t, p, seen := tree.cells, PathFrom(topic, d), n.place, before;
      var particles := [part, "+", "#"];
      var i := 0;
      while i < 3
        invariant 0 <= i <= 3
        invariant base <= r && Spells(r[|base|..], Names(cells, seen))
        invariant i > 0 && part == "#" ==> Below(p, "#") !in cells
        invariant seen == before + (if i > 0 then ScannedUnder(cells, p, t, part) else {})
                                 + (if i > 1 && !(d == 0 && DollarTopic(t)) then ScannedUnder(cells, p, t, "+") else {})
                                 + (if i > 2 && !(d == 0 && DollarTopic(t)) then ScannedHash(cells, p, t) else {})
      {
        var particle := particles[i];
        i := i + 1;
        if d == 0 && |part| > 0 && part[0] == '$' && (particle == "+" || particle == "#") {
          continue;
        }
        tree.ChildAt(n, particle);
        if particle in n.children {
          var child := n.children[particle];
          if !hasNext || particle == "#" {
            UnnamedLeaf(cells, regs, p, particle, topic, d);
            r := ReportMatch(child, hasNext, r, base, seen);
            seen := seen + {child.place} + (if hasNext then {} else There(cells, Below(child.place, "#")));
          }
          if particle == "#" {
            assert seen == before + Scanned(cells, p, t, d == 0);
            return;
          } else if hasNext {
            DepthBelow(p, particle);
            r := ScanLeaf(topic, d + 1, child, r, base, seen);
            seen := seen + Scanned(cells, child.place, PathFrom(topic, d + 1), false);
          }
        }
      }
      assert seen == before + Scanned(cells, p, t, d == 0);
    }

    /** Lists exactly the names of the live filters matching a topic. */
    method Scan(topic: string, filters: seq<string>) returns (r: seq<string>)
      requires Valid() && Balanced()
      ensures filters <= r
      ensures topic == "" ==> r == filters
      ensures topic != "" ==> Spells(r[|filters|..], Names(tree.cells, Scanned(tree.cells, Top, Split(topic), true)))
      ensures topic != "" && HashFree(Split(topic)) ==> Spells(r[|filters|..], MatchingNames(regs, topic))
    {
      hide NoOrphans, Names, Scanned, MatchingNames, Split, PathFrom;
      if |topic| == 0 { return filters; }
      assert filters[|filters|..] == [];
      NamesNone(tree.cells);
      r := ScanLeaf(topic, 0, tree.root, filters, filters, {});
      WholePath(topic);
      ghost var places := Scanned(tree.cells, Top, Split(topic), true);
      assert {} + places == places;
      tree.AllUpwardsClosed();
      if HashFree(Split(topic)) { NamesExact(tree.cells, regs, topic); }
    }
  }
}
