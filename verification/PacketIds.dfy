/** Packet identifiers for messages to a client (section 2.2.1). */
module PacketIds {

  /** How far `i` is from the cursor `c`, going up from it and round after `max`. */
  function Distance(c: nat, i: nat, max: nat): (d: int) {
    if i > c then i - c - 1 else i + max - c - 1
  }

  predicate IsFree(i: nat, used: set<nat>, max: nat) {
    1 <= i <= max && i !in used
  }

  /** `i` is the first free identifier after the cursor in cyclic order. */
  ghost predicate IsNext(c: nat, i: nat, used: set<nat>, max: nat) {
    && IsFree(i, used, max)
    && forall j :: IsFree(j, used, max) ==> Distance(c, i, max) <= Distance(c, j, max)
  }

  class Allocator {
    const maximum: nat
    var packetID: nat

    constructor (maximum: nat)
      ensures this.maximum == maximum && packetID == 0
    {
      this.maximum, packetID := maximum, 0;
    }

    /** Moves the cursor to the next free identifier; fails if there is none. */
    method NextPacketID(used: set<nat>) returns (found: bool, i: nat)
      requires packetID <= maximum
      modifies this
      ensures found ==> IsNext(old(packetID), i, used, maximum) && packetID == i
      ensures !found ==> i == 0 && packetID == old(packetID) && forall j :: !IsFree(j, used, maximum)
    {
      i := packetID;
      var started, overflowed := i, false;
      while true
        invariant i <= maximum && started == packetID == old(packetID)
        invariant !overflowed ==> started <= i && forall j :: started < j <= i ==> j in used
        invariant overflowed ==> i <= started && forall j :: 1 <= j <= maximum && (j <= i || j > started) ==> j in used
        decreases if overflowed then started - i else maximum - i + started + 1, !overflowed
      {
        if overflowed && i == started {
          return false, 0;
        }
        if i >= maximum {
          overflowed := true;
          i := 0;
          continue;
        }
        i := i + 1;
        if i !in used {
          packetID := i;
          return true, i;
        }
      }
    }
  }

  ghost function Free(used: set<nat>, max: nat): (ids: set<nat>) {
    set i: nat | 1 <= i <= max && i !in used
  }

  function Cursor(ids: seq<nat>, c: nat, t: nat): (r: nat)
    requires t <= |ids|
  {
    if t == 0 then c else ids[t - 1]
  }

  /** The identifiers that calls in a row give while nothing is stored in between. */
  ghost predicate InARow(ids: seq<nat>, c: nat, used: set<nat>, max: nat) {
    && (forall t :: 0 <= t < |ids| ==> IsFree(ids[t], used, max))
    && (forall t :: 0 <= t < |ids| ==> IsNext(Cursor(ids, c, t), ids[t], used, max))
  }

  /** As many calls in a row as there are free identifiers give distinct ones. */
  lemma DistinctInARow(ids: seq<nat>, c: nat, used: set<nat>, max: nat)
    requires c <= max && InARow(ids, c, used, max) && |ids| <= |Free(used, max)|
    ensures forall i, j :: 0 <= i < j < |ids| ==> ids[i] != ids[j]
  {
    if ids != [] {
      GoingRound(ids, c, used, max);
      hide IsNext, IsFree;
    }
  }

  /** The identifiers taken are the free ones up to the last, in cyclic order. */
  ghost predicate Round(ids: seq<nat>, c: nat, used: set<nat>, max: nat)
    requires ids != []
  {
    && (forall i, j :: 0 <= i < j < |ids| ==> Distance(c, ids[i], max) < Distance(c, ids[j], max))
    && (forall i :: IsFree(i, used, max) ==>
          (i in Taken(ids) <==> Distance(c, i, max) <= Distance(c, ids[|ids| - 1], max)))
    && |Taken(ids)| == |ids|
  }

  /** Calls in a row take the free identifiers in their cyclic order, leaving none out. */
  lemma {:induction false} GoingRound(ids: seq<nat>, c: nat, used: set<nat>, max: nat)
    requires c <= max && ids != [] && InARow(ids, c, used, max) && |ids| <= |Free(used, max)|
    ensures Round(ids, c, used, max)
    decreases |ids|
  {
    hide IsNext, Round, IsFree;
    var n := |ids|;
    var last := ids[n - 1];
    assert IsNext(Cursor(ids, c, n - 1), last, used, max);
    if n == 1 {
      assert ids == [last];
      FirstOfRound(last, c, used, max);
    } else {
      var before := ids[..n - 1];
      forall t | 0 <= t < |before|
        ensures IsFree(before[t], used, max) && IsNext(Cursor(before, c, t), before[t], used, max)
      {
        assert before[t] == ids[t] && Cursor(before, c, t) == Cursor(ids, c, t);
      }
      GoingRound(before, c, used, max);
      assert ids == before + [last];
      NextOfRound(before, last, c, used, max);
    }
  }

  lemma FirstOfRound(last: nat, c: nat, used: set<nat>, max: nat)
    requires c <= max && IsFree(last, used, max) && IsNext(c, last, used, max)
    ensures Round([last], c, used, max)
  {
    assert Taken([last]) == {last};
    forall i | IsFree(i, used, max)
      ensures i in Taken([last]) <==> Distance(c, i, max) <= Distance(c, last, max)
    {
      Further(c, last, last, i, max);
    }
  }

  lemma NextOfRound(before: seq<nat>, last: nat, c: nat, used: set<nat>, max: nat)
    requires c <= max && before != [] && |before| < |Free(used, max)|
    requires forall t :: 0 <= t < |before| ==> IsFree(before[t], used, max)
    requires Round(before, c, used, max) && IsFree(last, used, max)
    requires IsNext(before[|before| - 1], last, used, max)
    ensures forall t :: 0 <= t < |before + [last]| ==> IsFree((before + [last])[t], used, max)
    ensures Round(before + [last], c, used, max)
  {
    var ids, a := before + [last], before[|before| - 1];
    assert Taken(before) <= Free(used, max);
    var y := Missing(Taken(before), Free(used, max));
    assert IsFree(y, used, max);
    Further(c, a, last, y, max);
    assert Distance(c, a, max) < Distance(c, last, max);
    assert Taken(ids) == Taken(before) + {last};
    forall i | IsFree(i, used, max)
      ensures i in Taken(ids) <==> Distance(c, i, max) <= Distance(c, last, max)
    {
      Further(c, a, last, i, max);
    }
  }

  ghost function Taken(ids: seq<nat>): (s: set<nat>) {
    set i | i in ids
  }

  lemma Missing(s: set<nat>, t: set<nat>) returns (y: nat)
    requires s <= t && |s| < |t|
    ensures y in t && y !in s
  {
    assert t == s + (t - s);
    y :| y in t - s;
  }

  /** Distances from a later point `a` of the round are those from `c`, shifted. */
  lemma Further(c: nat, a: nat, x: nat, y: nat, max: nat)
    requires c <= max && 1 <= a <= max && 1 <= x <= max && 1 <= y <= max
    ensures Distance(a, x, max) <= Distance(a, y, max) && Distance(c, y, max) > Distance(c, a, max) ==>
              Distance(c, a, max) < Distance(c, x, max) <= Distance(c, y, max)
    ensures Distance(c, x, max) == Distance(c, y, max) ==> x == y
  {
  }
}
