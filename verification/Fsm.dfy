/** The state machine that the replicated log drives, and why a snapshot may be written
    from the live store while later entries are being applied. */
module Fsm {
  import opened Options
  import opened Store

  datatype Kind = Subscribe | Unsubscribe | Other

  datatype Message = Message(kind: Kind, node: string, filter: string)

  /** A log entry is a message, or bytes that do not decode to one. */
  type Entry = Option<Message>

  function Applied(lists: Lists, entry: Entry): (r: Lists) {
    match entry
    case Some(Message(Subscribe, node, filter)) => Added(lists, filter, node)
    case Some(Message(Unsubscribe, node, filter)) => Deleted(lists, filter, node)
    case _ => lists
  }

  function Replay(lists: Lists, log: seq<Entry>): (r: Lists)
    decreases |log|
  {
    if log == [] then lists else Replay(Applied(lists, log[0]), log[1..])
  }

  class Fsm {
    const kv: KV

    constructor ()
      ensures kv.Valid() && kv.lists == map[] && fresh(kv) && fresh(kv.Arrays())
    {
      kv := new KV();
    }

    /** Applies a committed entry. The listener is told exactly of the entries that bring a
        filter in or take one away. */
    method Apply(entry: Entry) returns (deliverable: bool)
      requires kv.Valid()
      modifies kv, kv.Arrays()
      ensures kv.Valid() && fresh(kv.Arrays() - old(kv.Arrays()))
      ensures kv.lists == Applied(old(kv.lists), entry)
      ensures deliverable <==> kv.lists.Keys != old(kv.lists.Keys)
    {
      deliverable := false;
      match entry
      case Some(Message(Subscribe, node, filter)) =>
        deliverable := kv.Add(filter, node);
        assert filter in kv.lists.Keys;
      case Some(Message(Unsubscribe, node, filter)) =>
        deliverable := kv.Del(filter, node);
      case _ =>
    }
  }

  // ----- one pair of the relation under the log

  /** Whether the entry decides if the node is listed for the filter. */
  predicate Touches(entry: Entry, filter: string, node: string) {
    match entry
    case Some(Message(Subscribe, n, f)) => f == filter && n == node
    case Some(Message(Unsubscribe, n, f)) => f == filter && (n == "" || n == node)
    case _ => false
  }

  predicate Outcome(log: seq<Entry>, filter: string, node: string, held: bool) {
    if log == [] then held
    else if !Touches(log[0], filter, node) then Outcome(log[1..], filter, node, held)
    else Outcome(log[1..], filter, node, log[0].value.kind == Subscribe)
  }

  lemma {:induction false} ReplayOutcome(lists: Lists, log: seq<Entry>, filter: string, node: string)
    requires WellKept(lists)
    ensures WellKept(Replay(lists, log))
    ensures Holds(Replay(lists, log), filter, node) <==> Outcome(log, filter, node, Holds(lists, filter, node))
    decreases |log|
  {
    if log != [] {
      if log[0].Some? {
        AddedIs(lists, log[0].value.filter, log[0].value.node);
        DeletedIs(lists, log[0].value.filter, log[0].value.node);
      }
      ReplayOutcome(Applied(lists, log[0]), log[1..], filter, node);
    }
  }

  lemma {:induction false} ReplaySplit(lists: Lists, log: seq<Entry>, more: seq<Entry>)
    ensures Replay(lists, log + more) == Replay(Replay(lists, log), more)
    decreases |log|
  {
    if log == [] {
      assert log + more == more;
    } else {
      assert (log + more)[1..] == log[1..] + more;
      ReplaySplit(Applied(lists, log[0]), log[1..], more);
    }
  }

  /** What a stretch of the log makes of a pair either ignores what was there before or
      keeps it. */
  lemma {:induction false} DecidesOrKeeps(log: seq<Entry>, filter: string, node: string)
    ensures Outcome(log, filter, node, true) == Outcome(log, filter, node, false)
         || (Outcome(log, filter, node, true) && !Outcome(log, filter, node, false))
    decreases |log|
  {
    if log != [] { DecidesOrKeeps(log[1..], filter, node); }
  }

  /** Applying a stretch of the log a second time changes no pair. */
  lemma ReplayTwice(lists: Lists, log: seq<Entry>, filter: string, node: string)
    requires WellKept(lists)
    ensures Holds(Replay(Replay(lists, log), log), filter, node) <==> Holds(Replay(lists, log), filter, node)
  {
    ReplayOutcome(lists, log, filter, node);
    ReplayOutcome(Replay(lists, log), log, filter, node);
    DecidesOrKeeps(log, filter, node);
  }

  lemma SameRelation(a: Lists, b: Lists)
    requires WellKept(a) && WellKept(b) && forall filter, node :: Holds(a, filter, node) <==> Holds(b, filter, node)
    ensures a.Keys == b.Keys
  {
    forall key ensures key in a <==> key in b {
      if key in a { assert Holds(a, key, a[key][0]); }
      if key in b { assert Holds(b, key, b[key][0]); }
    }
  }

  /** A snapshot labelled i that was written after j entries had been applied, restored and
      followed by the log after i, gives the same filters and the same nodes for each as
      applying the whole log once. */
  lemma FuzzySnapshot(start: Lists, log: seq<Entry>, i: nat, j: nat)
    requires WellKept(start) && i <= j <= |log|
    ensures var restored := Replay(Replay(start, log[..j]), log[i..]);
            var full := Replay(start, log);
            && (forall filter, node :: Holds(restored, filter, node) <==> Holds(full, filter, node))
            && restored.Keys == full.Keys
  {
    var before, twice, after := Replay(start, log[..i]), log[i..j], log[j..];
    var once := Replay(before, twice);
    var restored, full := Replay(Replay(start, log[..j]), log[i..]), Replay(start, log);
    assert log[..j] == log[..i] + twice && log[i..] == twice + after && log == log[..j] + after;
    ReplaySplit(start, log[..i], twice);
    ReplaySplit(start, log[..j], after);
    ReplaySplit(once, twice, after);
    forall filter, node
      ensures WellKept(restored) && WellKept(full) && (Holds(restored, filter, node) <==> Holds(full, filter, node))
    {
      ReplayOutcome(start, log[..i], filter, node);
      ReplayTwice(before, twice, filter, node);
      ReplayOutcome(before, twice, filter, node);
      ReplayOutcome(once, twice, filter, node);
      ReplayOutcome(once, after, filter, node);
      ReplayOutcome(Replay(once, twice), after, filter, node);
    }
    assert WellKept(restored) && WellKept(full) by { assert Holds(full, "", "") == Holds(restored, "", ""); }
    SameRelation(restored, full);
  }

  /** The order within a list is not restored. */
  lemma OrderNotRestored()
    ensures var log := [Some(Message(Subscribe, "a", "f")), Some(Message(Unsubscribe, "a", "f")),
                        Some(Message(Subscribe, "a", "f")), Some(Message(Subscribe, "b", "f"))];
            && Replay(map[], log) == map["f" := ["a", "b"]]
            && Replay(Replay(map[], log[..4]), log[1..]) == map["f" := ["b", "a"]]
  {
    var subA, unsubA, subB: Entry := Some(Message(Subscribe, "a", "f")), Some(Message(Unsubscribe, "a", "f")),
                                     Some(Message(Subscribe, "b", "f"));
    var log := [subA, unsubA, subA, subB];
    assert log[..4] == log && log[1..] == [unsubA, subA, subB] && log[1..][1..] == [subA, subB];
    assert log[1..][1..][1..] == [subB] && log[1..][1..][1..][1..] == [];
    assert "a"[0] != "b"[0];
    assert Without(["a"], "a") == [] && Without(["a", "b"], "a") == ["b"];
    var both := map["f" := ["a", "b"]];
    assert Replay(map[], log) == Replay(map["f" := ["a"]], [unsubA, subA, subB]);
    assert Applied(map["f" := ["a"]], unsubA) == map[];
    assert Replay(map["f" := ["a"]], [unsubA, subA, subB]) == Replay(map[], [subA, subB]);
    assert Applied(map["f" := ["a"]], subB) == both by { assert ["a"] + ["b"] == ["a", "b"]; }
    assert Applied(both, unsubA) == map["f" := ["b"]];
    assert Applied(map["f" := ["b"]], subA) == map["f" := ["b", "a"]] by { assert ["b"] + ["a"] == ["b", "a"]; }
  }
}
