/** A mutable tree of keyed nodes with parent pointers, as both topic tries are
    built. The tree is described by ghost maps from places: which node stands at a
    place and what that node holds. */
module PathTree {
  import opened Levels

  /** A place in the tree: the root, or below another place under a key. */
  datatype Place = Top | Below(up: Place, key: string) {
    function Depth(): (n: nat) {
      if Top? then 0 else up.Depth() + 1
    }

    function Levels(): (p: Path)
      ensures |p| == Depth()
    {
      if Top? then [] else up.Levels() + [key]
    }
  }

  /** The place reached from `p` by the given levels. */
  function Walk(p: Place, levels: Path): (q: Place)
    decreases |levels|
  {
    if levels == [] then p else Walk(Below(p, levels[0]), levels[1..])
  }

  lemma {:induction false} WalkLevels(p: Place, levels: Path)
    ensures Walk(p, levels).Levels() == p.Levels() + levels
    decreases |levels|
  {
    if levels != [] {
      WalkLevels(Below(p, levels[0]), levels[1..]);
      assert levels == [levels[0]] + levels[1..];
    }
  }

  lemma {:induction false} DepthBound(places: set<Place>) returns (bound: nat)
    ensures forall p :: p in places ==> p.Depth() <= bound
    decreases |places|
  {
    if places == {} {
      bound := 0;
    } else {
      var p :| p in places;
      bound := DepthBound(places - {p});
      if p.Depth() > bound { bound := p.Depth(); }
    }
  }

  ghost predicate UpClosed<V>(cells: map<Place, V>) {
    forall p :: p in cells && p.Below? ==> p.up in cells
  }

  /** Where a topic or filter is kept. */
  function PlaceOf(filter: string): (p: Place) {
    Walk(Top, PathFrom(filter, 0))
  }

  lemma PlaceOfLevels(filter: string)
    ensures PlaceOf(filter).Levels() == Split(filter)
  {
    WalkLevels(Top, Split(filter));
    assert Top.Levels() + Split(filter) == Split(filter);
  }

  /** Filters are told apart by their places. */
  lemma PlaceOfInjective(f: string, g: string)
    requires PlaceOf(f) == PlaceOf(g)
    ensures f == g
  {
    PlaceOfLevels(f);
    PlaceOfLevels(g);
    SplitInjective(f, g);
  }

  lemma OnlyTextAt(t: string)
    ensures forall u :: PlaceOf(u) == PlaceOf(t) ==> u == t
  {
    forall u | PlaceOf(u) == PlaceOf(t)
      ensures u == t
    {
      PlaceOfInjective(u, t);
    }
  }

  lemma DepthBelow(p: Place, k: string)
    ensures Below(p, k).Depth() == p.Depth() + 1
  {
  }

  lemma WalkOne(p: Place, k: string)
    ensures Walk(p, [k]) == Below(p, k)
  {
  }

  lemma WalkTwo(p: Place, k: string, j: string)
    ensures Walk(p, [k, j]) == Below(Below(p, k), j)
  {
    assert [k, j][1..] == [j];
    WalkOne(Below(p, k), j);
  }

  lemma {:induction false} LevelsInjective(p: Place, q: Place)
    requires p.Levels() == q.Levels()
    ensures p == q
    decreases p
  {
    if p.Below? {
      assert p.up.Levels() == p.Levels()[..|p.Levels()| - 1];
      assert q.up.Levels() == q.Levels()[..|q.Levels()| - 1];
      assert p.key == p.Levels()[|p.Levels()| - 1] && q.key == q.Levels()[|q.Levels()| - 1];
      LevelsInjective(p.up, q.up);
    }
  }

  function There<V>(cells: map<Place, V>, p: Place): (places: set<Place>) {
    if p in cells then {p} else {}
  }

  lemma {:induction false} WalkDown<V>(cells: map<Place, V>, p: Place, f: Path)
    requires UpClosed(cells) && Walk(p, f) in cells
    ensures p in cells
    decreases |f|
  {
    if f != [] { WalkDown(cells, Below(p, f[0]), f[1..]); }
  }

  lemma WalkInjective(p: Place, f: Path, g: Path)
    requires Walk(p, f) == Walk(p, g)
    ensures f == g
  {
    WalkLevels(p, f);
    WalkLevels(p, g);
    assert f == (p.Levels() + f)[|p.Levels()|..] && g == (p.Levels() + g)[|p.Levels()|..];
  }

  ghost predicate HasChild<V>(cells: map<Place, V>, p: Place) {
    exists k :: Below(p, k) in cells
  }

  /** One step of a walk along a text. */
  lemma WalkStep(p: Place, topic: string, d: nat)
    ensures var rest := PathFrom(topic, d);
            if |rest| > 1 then
              |PathFrom(topic, d + 1)| < |rest| &&
              Walk(p, rest) == Walk(Below(p, rest[0]), PathFrom(topic, d + 1))
            else Walk(p, rest) == Below(p, rest[0])
  {
  }

  /** Nothing changed but that empty places were added, none of them a loose end but `end`. */
  ghost predicate Grown<V>(before: map<Place, V>, after: map<Place, V>, end: Place, empty: V) {
    && end in after
    && (forall p :: p in before ==> p in after && after[p] == before[p])
    && (forall p :: p in after && p !in before ==>
          after[p] == empty && p != Top && (p == end || HasChild(after, p)))
  }

  lemma GrownStep<V>(before: map<Place, V>, after: map<Place, V>, end: Place, k: string, empty: V)
    requires Grown(before, after, end, empty) && Below(end, k) in after
    ensures Grown(before, after, Below(end, k), empty)
  {
  }

  lemma GrownNew<V>(before: map<Place, V>, after: map<Place, V>, end: Place, k: string, empty: V)
    requires Grown(before, after, end, empty) && Below(end, k) !in after
    ensures Grown(before, after[Below(end, k) := empty], Below(end, k), empty)
  {
  }

  class Node<V> {
    var key: string
    var parent: Node?<V>
    var children: map<string, Node<V>>
    var value: V
    ghost const place: Place

    constructor (key: string, parent: Node?<V>, value: V, ghost place: Place)
      ensures this.key == key && this.parent == parent && this.value == value
      ensures this.children == map[] && this.place == place
    {
      this.key, this.parent, this.value := key, parent, value;
      this.children := map[];
      this.place := place;
    }

    /** A node hangs under the node one level up and knows exactly the nodes one level down. */
    ghost predicate Linked(at: map<Place, Node<V>>)
      reads this
    {
      UpLinked(place, parent, key, at) && DownLinked(place, children, at)
    }
  }

  ghost predicate UpLinked<V>(place: Place, parent: Node?<V>, key: string, at: map<Place, Node<V>>) {
    && (place.Top? ==> parent == null)
    && (place.Below? ==> place.up in at && parent == at[place.up] && key == place.key)
  }

  ghost predicate DownLinked<V>(place: Place, children: map<string, Node<V>>, at: map<Place, Node<V>>) {
    && (forall k :: k in children ==> Below(place, k) in at && children[k] == at[Below(place, k)])
    && (forall k :: Below(place, k) in at ==> k in children)
  }

  /** Adding a node leaves the links of the others alone, but for its parent's, which gains
      a child; and the new node has no links down. */
  lemma LinkedWith<V>(c: Node<V>, at: map<Place, Node<V>>, place: Place, children: map<string, Node<V>>)
    requires c.place !in at && c.place.Below? && DownLinked(place, children, at)
    ensures place != c.place.up ==> DownLinked(place, children, at[c.place := c])
    ensures place == c.place.up ==> DownLinked(place, children[c.place.key := c], at[c.place := c])
  {
  }

  lemma LeafLinked<V>(c: Node<V>, at: map<Place, Node<V>>)
    requires c.place !in at && forall k :: Below(c.place, k) !in at
    ensures DownLinked(c.place, map[], at[c.place := c])
  {
  }

  lemma UpLinkedWith<V>(c: Node<V>, at: map<Place, Node<V>>, place: Place, parent: Node?<V>, key: string)
    requires c.place !in at && UpLinked(place, parent, key, at)
    ensures UpLinked(place, parent, key, at[c.place := c])
  {
  }

  class Tree<V> {
    const root: Node<V>
    ghost var at: map<Place, Node<V>>
    ghost var cells: map<Place, V>
    ghost var repr: set<Node<V>>

    /** One node for every place that has a cell. */
    ghost predicate Placed()
      reads this, repr
    {
      && Top in at && at[Top] == root
      && (forall p :: p in at ==> at[p] in repr && at[p].place == p)
      && (forall n :: n in repr ==> n.place in at && at[n.place] == n)
      && at.Keys == cells.Keys
      && (forall p :: p in at ==> at[p].value == cells[p])
    }

    ghost predicate Valid()
      reads this, repr
    {
      && Placed()
      && (forall n {:trigger n.Linked(at)} :: n in repr ==> n.Linked(at))
    }

    constructor (value: V)
      ensures Valid() && fresh(repr)
      ensures cells == map[Top := value]
    {
      root := new Node("", null, value, Top);
      new;
      at := map[Top := root];
      cells := map[Top := value];
      repr := {root};
    }

    /** Adds a new child under `n`. */
    method AddChild(n: Node<V>, k: string, value: V) returns (c: Node<V>)
      requires Valid() && n in repr && k !in n.children
      modifies this, n
      ensures Valid() && fresh(c) && repr == old(repr) + {c}
      ensures c.place == Below(n.place, k) && c.value == value
      ensures c.place !in old(cells)
      ensures cells == old(cells)[c.place := value]
    {
      hide UpLinked, DownLinked;
      NotThere(n, k);
      assert n.Linked(at);
      c := new Node(k, n, value, Below(n.place, k));
      ghost var children := n.children;
      n.children := n.children[k := c];
      forall m | m in repr && m != n ensures m.Linked(at) { assert old(m.Linked(at)); }
      Register(c, n, children);
    }

    /** Enters a node that its parent already points to. */
    ghost method Register(c: Node<V>, n: Node<V>, children: map<string, Node<V>>)
      requires Placed() && n in repr && c !in repr && c.place == Below(n.place, c.key) && c.place !in at
      requires forall m {:trigger m.Linked(at)} :: m in repr && m != n ==> m.Linked(at)
      requires UpLinked(n.place, n.parent, n.key, at) && DownLinked(n.place, children, at)
      requires c.parent == n && c.children == map[] && n.children == children[c.key := c]
      modifies this
      ensures Valid() && repr == old(repr) + {c} && cells == old(cells)[c.place := c.value]
    {
      hide UpLinked, DownLinked;
      ghost var at0 := at;
      NoneBelow(c, n, children);
      LeafLinked(c, at0);
      Enter(c);
      NewUpLinked(c, n, c.key, at);
      UpLinkedWith(c, at0, n.place, n.parent, n.key);
      LinkedWith(c, at0, n.place, children);
      forall m | m in repr && m != c && m != n ensures m.Linked(at) {
        assert m.Linked(at0);
        UpLinkedWith(c, at0, m.place, m.parent, m.key);
        LinkedWith(c, at0, m.place, m.children);
      }
    }

    ghost method Enter(c: Node<V>)
      requires Placed() && c !in repr && c.place !in at
      modifies this
      ensures Placed() && at == old(at)[c.place := c]
      ensures cells == old(cells)[c.place := c.value] && repr == old(repr) + {c}
    {
      at, cells, repr := at[c.place := c], cells[c.place := c.value], repr + {c};
    }

    lemma NoneBelow(c: Node<V>, n: Node<V>, children: map<string, Node<V>>)
      requires Placed() && n in repr && c.place !in at && c.place.Below? && c.place.up == n.place
      requires forall m {:trigger m.Linked(at)} :: m in repr && m != n ==> m.Linked(at)
      ensures forall k :: Below(c.place, k) !in at
    {
      forall k ensures Below(c.place, k) !in at {
        if Below(c.place, k) in at { UpThere(Below(c.place, k), n); }
      }
    }

    lemma UpThere(p: Place, n: Node<V>)
      requires Placed() && p in at && p.Below? && at[p] != n
      requires forall m {:trigger m.Linked(at)} :: m in repr && m != n ==> m.Linked(at)
      ensures p.up in at
    {
      assert at[p].Linked(at);
    }

    /** Cuts a childless node off its parent. */
    method RemoveLeaf(c: Node<V>)
      requires Valid() && c in repr && c.parent != null && c.children == map[]
      modifies this, c.parent
      ensures Valid() && repr == old(repr) - {c}
      ensures c.place.Below? && old(c.parent) in repr && old(c.parent).place == c.place.up
      ensures cells == old(cells) - {c.place}
    {
      ghost var at0 := at;
      assert c.Linked(at);
      var n := c.parent;
      assert n.Linked(at);
      n.children := n.children - {c.key};
      at := at - {c.place};
      cells := cells - {c.place};
      repr := repr - {c};
      forall m | m in repr
        ensures m.Linked(at)
      {
        if m != n {
          assert m.Linked(at0);
          LinkedWithout(m, at0, c);
        }
      }
    }

    /** Replaces what a node holds. */
    method Store(n: Node<V>, value: V)
      requires Valid() && n in repr
      modifies this`cells, n`value
      ensures Valid() && n.value == value
      ensures cells == old(cells)[n.place := value]
    {
      n.value := value;
      cells := cells[n.place := value];
      forall m | m in repr
        ensures m.Linked(at)
      {
        assert old(m.Linked(at));
      }
    }

    /** Walks to the node for `topic` from level `d` on, making the nodes that are missing. */
    method Set(topic: string, d: nat, empty: V) returns (n: Node<V>)
      requires Valid()
      modifies this, repr
      ensures Valid() && n in repr && fresh(repr - old(repr))
      ensures n.place == Walk(Top, PathFrom(topic, d)) && n.place != Top
      ensures Grown(old(cells), cells, n.place, empty)
      ensures n.place in cells && n.value == cells[n.place]
    {
      hide PathFrom, Walk;
      var i, hasNext := d, true;
      n := root;
      while hasNext
        invariant Valid() && n in repr && fresh(repr - old(repr)) && i >= d
        invariant hasNext ==> Walk(n.place, PathFrom(topic, i)) == Walk(Top, PathFrom(topic, d))
        invariant !hasNext ==> n.place == Walk(Top, PathFrom(topic, d)) && n.place != Top
        invariant Grown(old(cells), cells, n.place, empty)
        decreases if hasNext then |PathFrom(topic, i)| else 0
      {
        var key;
        key, hasNext := IsolateParticle(topic, i);
        WalkStep(n.place, topic, i);
        i := i + 1;
        assert n.Linked(at);
        if key in n.children {
          GrownStep(old(cells), cells, n.place, key, empty);
          n := n.children[key];
        } else {
          GrownNew(old(cells), cells, n.place, key, empty);
          n := AddChild(n, key, empty);
        }
      }
    }

    /** Walks to the node for `topic` from level `d` on, if it is there. */
    method Seek(topic: string, d: nat) returns (n: Node?<V>)
      requires Valid()
      ensures n == null <==> Walk(Top, PathFrom(topic, d)) !in cells
      ensures n != null ==> n in repr && n.place == Walk(Top, PathFrom(topic, d)) && n.place != Top
      ensures n != null ==> n.place in cells && n.value == cells[n.place]
    {
      hide PathFrom, Walk;
      var i, hasNext := d, true;
      var m := root;
      while hasNext
        invariant m in repr && i >= d
        invariant hasNext ==> Walk(m.place, PathFrom(topic, i)) == Walk(Top, PathFrom(topic, d))
        invariant !hasNext ==> m.place == Walk(Top, PathFrom(topic, d)) && m.place != Top
        decreases if hasNext then |PathFrom(topic, i)| else 0
      {
        var key;
        key, hasNext := IsolateParticle(topic, i);
        WalkStep(m.place, topic, i);
        i := i + 1;
        assert m.Linked(at);
        if key !in m.children {
          if hasNext { WalkMissing(Below(m.place, key), PathFrom(topic, i)); }
          return null;
        }
        m := m.children[key];
      }
      n := m;
    }

    lemma {:induction false} WalkMissing(p: Place, levels: Path)
      requires Valid() && p !in at
      ensures Walk(p, levels) !in at
      decreases |levels|
    {
      if levels != [] {
        NothingBelow(p);
        WalkMissing(Below(p, levels[0]), levels[1..]);
      }
    }

    lemma NotThere(n: Node<V>, k: string)
      requires Valid() && n in repr && k !in n.children
      ensures Below(n.place, k) !in at
    {
      assert n.Linked(at);
    }

    static lemma NewUpLinked(c: Node<V>, n: Node<V>, k: string, nodes: map<Place, Node<V>>)
      requires c.place == Below(n.place, k) && c.parent == n && c.key == k && n.place in nodes && nodes[n.place] == n
      ensures UpLinked(c.place, c.parent, c.key, nodes)
    {
    }

    static lemma LinkedWithout(m: Node<V>, nodes: map<Place, Node<V>>, c: Node<V>)
      requires m.Linked(nodes) && c.place.Below? && c.place.up != m.place
      requires c.place in nodes && nodes[c.place] == c && forall k :: Below(c.place, k) !in nodes
      requires m.place != c.place && m.place in nodes
      ensures m.Linked(nodes - {c.place})
    {
    }

    /** Places are closed upwards, so nothing is below a place that is not there. */
    lemma NothingBelow(p: Place)
      requires Valid() && p !in at
      ensures forall k :: Below(p, k) !in at
    {
      forall k ensures Below(p, k) !in at {
        if Below(p, k) in at { UpwardsClosed(Below(p, k)); }
      }
    }

    /** What the pointers of a node say about the places. */
    lemma RootOnTop(n: Node<V>)
      requires Valid() && n in repr
      ensures n.place in cells && n.value == cells[n.place]
      ensures n.parent == null <==> n.place == Top
      ensures n.parent != null ==> n.parent in repr
      ensures n.children == map[] <==> !HasChild(cells, n.place)
    {
      assert n.Linked(at);
      if n.children != map[] {
        var k :| k in n.children;
        assert Below(n.place, k) in cells;
      }
    }

    /** A node's child under a key is the node one level down, if there is one. */
    lemma ChildAt(n: Node<V>, k: string)
      requires Valid() && n in repr
      ensures k in n.children <==> Below(n.place, k) in cells
      ensures k in n.children ==> n.children[k] in repr && n.children[k].place == Below(n.place, k)
    {
      assert n.Linked(at);
    }

    lemma ChildrenAt(n: Node<V>)
      requires Valid() && n in repr
      ensures forall k :: k in n.children <==> Below(n.place, k) in cells
    {
      assert n.Linked(at);
    }

    lemma UpOfNode(n: Node<V>)
      requires Valid() && n in repr && n.parent != null
      ensures n.place.Below? && n.parent.place == n.place.up
    {
      assert n.Linked(at);
    }

    lemma KeyOfNode(n: Node<V>)
      requires Valid() && n in repr && n.place.Below?
      ensures n.key == n.place.key
    {
      assert n.Linked(at);
    }

    lemma AllUpwardsClosed()
      requires Valid()
      ensures UpClosed(cells)
    {
      forall p | p in cells && p.Below?
        ensures p.up in cells
      {
        UpwardsClosed(p);
      }
    }

    lemma UpwardsClosed(p: Place)
      requires Valid() && p in at && p.Below?
      ensures p.up in at
    {
      assert at[p].Linked(at);
    }
  }
}
