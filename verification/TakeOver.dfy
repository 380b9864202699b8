/** Session establishment for one client identifier as an interleaving of atomic steps
    (section 3.1.4): connects holding the identifier's lock, acknowledgement failures,
    disconnects, clean-ups and expiry sweeps. Connections are numbered. */
module TakeOver {
  import opened Options

  /** Where a connection is in establishing and ending its session. */
  datatype Phase =
    | Arrived                               // about to take the lock
    | Locked                                // holds the lock
    | Found(existing: Option<nat>)          // has looked the identifier up
    | Disconnected(former: nat)             // has stopped the client it found
    | Removed(former: nat)                  // has deleted the entry
    | Inherited                             // done with the old session
    | Added                                 // has registered itself
    | Acking                                // has released the lock
    | Live                                  // has sent CONNACK
    | Unacked                               // could not send CONNACK
    | Withdrawn                             // has taken its entry back
    | Ended                                 // has left its read loop
    | Cleaning                              // has decided to clean up
    | Gone

  datatype State = State(
    clients: Option<nat>,                   // the entry of the identifier in the clients map
    lock: Option<nat>,                      // who holds the identifier's stripe
    phase: map<nat, Phase>,
    stopped: set<nat>,
    takenOver: set<nat>,
    snapshot: set<nat>,                     // clients the sweep has seen in the map
    doomed: set<nat>)                       // clients the sweep has found expired

  const INIT := State(None, None, map[], {}, {}, {}, {})

  datatype Action =
    | Arrive(c: nat) | Lock(c: nat) | Get(c: nat) | Disconnect(c: nat) | Remove(c: nat) | Mark(c: nat)
    | Skip(c: nat) | Add(c: nat) | Unlock(c: nat)
    | Connack(c: nat, ok: bool) | Withdraw(c: nat) | Return(c: nat)
    | Stop(c: nat) | AbortResend(c: nat) | ReadEnd(c: nat)
    | Expire(c: nat, expires: bool) | Clean(c: nat)
    | SweepSee(c: nat) | SweepDecide(c: nat) | SweepDelete(c: nat)

  predicate In(s: State, c: nat, p: Phase) {
    c in s.phase && s.phase[c] == p
  }

  predicate Enabled(s: State, a: Action) {
    match a
    case Arrive(c) => c !in s.phase
    case Lock(c) => In(s, c, Arrived) && s.lock == None
    case Get(c) => In(s, c, Locked)
    case Disconnect(c) => c in s.phase && s.phase[c].Found? && s.phase[c].existing.Some?
    case Remove(c) => c in s.phase && s.phase[c].Disconnected?
    case Mark(c) => c in s.phase && s.phase[c].Removed?
    case Skip(c) => In(s, c, Found(None))
    case Add(c) => In(s, c, Inherited)
    case Unlock(c) => In(s, c, Added)
    case Connack(c, _) => In(s, c, Acking)
    case Withdraw(c) => In(s, c, Unacked)
    case Return(c) => In(s, c, Withdrawn)
    case Stop(c) => c in s.phase
    case AbortResend(c) => In(s, c, Live)
    case ReadEnd(c) => In(s, c, Live)
    case Expire(c, _) => In(s, c, Ended)
    case Clean(c) => In(s, c, Cleaning)
    case SweepSee(c) => s.clients == Some(c)
    case SweepDecide(c) => c in s.snapshot && c in s.stopped
    case SweepDelete(c) => c in s.doomed
  }

  /** Removes the entry only if it still is this client's. */
  function DropOwn(s: State, c: nat): (t: State) {
    if s.clients == Some(c) then s.(clients := None) else s
  }

  function To(s: State, c: nat, p: Phase): (t: State) {
    s.(phase := s.phase[c := p])
  }

  function Halt(s: State, c: nat): (t: State) {
    s.(stopped := s.stopped + {c})
  }

  function Do(s: State, a: Action): (t: State)
    requires Enabled(s, a)
  {
    match a
    case Arrive(c) => To(s, c, Arrived)
    case Lock(c) => To(s, c, Locked).(lock := Some(c))
    case Get(c) => To(s, c, Found(s.clients))
    case Disconnect(c) => var x := s.phase[c].existing.value; Halt(To(s, c, Disconnected(x)), x)
    case Remove(c) => To(s, c, Removed(s.phase[c].former)).(clients := None)
    case Mark(c) => To(s, c, Inherited).(takenOver := s.takenOver + {s.phase[c].former})
    case Skip(c) => To(s, c, Inherited)
    case Add(c) => To(s, c, Added).(clients := Some(c))
    case Unlock(c) => To(s, c, Acking).(lock := None)
    case Connack(c, ok) => To(s, c, if ok then Live else Unacked)
    case Withdraw(c) => To(DropOwn(s, c), c, Withdrawn)
    case Return(c) => Halt(To(s, c, Gone), c)
    case Stop(c) => Halt(s, c)
    case AbortResend(c) => Halt(To(s, c, Gone), c)
    case ReadEnd(c) => Halt(To(s, c, Ended), c)
    case Expire(c, expires) => To(s, c, if expires && c !in s.takenOver then Cleaning else Gone)
    case Clean(c) => To(DropOwn(s, c), c, Gone)
    case SweepSee(c) => s.(snapshot := s.snapshot + {c})
    case SweepDecide(c) => s.(doomed := s.doomed + {c})
    case SweepDelete(c) => DropOwn(s, c)
  }

  // ----- the invariant

  predicate UnderLock(p: Phase) {
    p.Locked? || p.Found? || p.Disconnected? || p.Removed? || p.Inherited? || p.Added?
  }

  /** Registered, released the lock, and not stopped. */
  predicate Active(s: State, c: nat) {
    (In(s, c, Acking) || In(s, c, Live)) && c !in s.stopped
  }

  /** The lock is held exactly by the connection that is in the critical section. */
  ghost predicate LockHeld(s: State) {
    && (s.lock.Some? ==> s.lock.value in s.phase && UnderLock(s.phase[s.lock.value]))
    && (forall c :: c in s.phase && UnderLock(s.phase[c]) ==> s.lock == Some(c))
  }

  /** An active client has the entry, and no take-over has got past looking it up. */
  ghost predicate ActiveRegistered(s: State) {
    forall c: nat :: Active(s, c) ==>
      && s.clients == Some(c)
      && (s.lock.Some? ==> In(s, s.lock.value, Locked) || In(s, s.lock.value, Found(Some(c))))
  }

  ghost predicate AddedRegistered(s: State) {
    forall c: nat :: In(s, c, Added) && c !in s.stopped ==> s.clients == Some(c)
  }

  /** Whoever may be cleaned away by the sweep or by its own end is stopped. */
  ghost predicate CleanupsAreStale(s: State) {
    && s.doomed <= s.stopped
    && (forall c: nat :: In(s, c, Ended) || In(s, c, Cleaning) || In(s, c, Gone) ==> c in s.stopped)
  }

  ghost predicate Inv(s: State) {
    LockHeld(s) && ActiveRegistered(s) && AddedRegistered(s) && CleanupsAreStale(s)
  }

  lemma InitInv()
    ensures Inv(INIT)
  {
  }

  lemma LockStep(s: State, a: Action)
    requires Inv(s) && Enabled(s, a)
    ensures LockHeld(Do(s, a))
  {
    PhaseStep(s, a);
    hide Do, Enabled;
  }

  /** A step moves only its own connection, and only Lock and Unlock move one into or out
      of the critical section. */
  lemma PhaseStep(s: State, a: Action)
    requires Enabled(s, a)
    ensures var t := Do(s, a);
            && (a.SweepSee? || a.SweepDecide? || a.SweepDelete? || a.Stop? ==> t.phase == s.phase)
            && (!(a.SweepSee? || a.SweepDecide? || a.SweepDelete? || a.Stop?) ==>
                  && a.c in t.phase && t.phase == s.phase[a.c := t.phase[a.c]]
                  && ((a.c in s.phase && UnderLock(s.phase[a.c])) == UnderLock(t.phase[a.c]) || a.Lock? || a.Unlock?))
            && (a.Lock? ==> s.lock == None && UnderLock(t.phase[a.c]))
            && (a.Unlock? ==> a.c in s.phase && UnderLock(s.phase[a.c]) && !UnderLock(t.phase[a.c]))
            && t.lock == if a.Lock? then Some(a.c) else if a.Unlock? then None else s.lock
  {
  }

  lemma StaleStep(s: State, a: Action)
    requires Inv(s) && Enabled(s, a)
    ensures CleanupsAreStale(Do(s, a))
  {
  }

  lemma ActiveStep(s: State, a: Action)
    requires Inv(s) && Enabled(s, a)
    ensures ActiveRegistered(Do(s, a))
  {
    LockStep(s, a);
    var t := Do(s, a);
    forall c: nat | Active(t, c)
      ensures t.clients == Some(c)
      ensures t.lock.Some? ==> In(t, t.lock.value, Locked) || In(t, t.lock.value, Found(Some(c)))
    {
      if !Active(s, c) { assert a == Unlock(c); }
    }
  }

  lemma AddedStep(s: State, a: Action)
    requires Inv(s) && Enabled(s, a)
    ensures AddedRegistered(Do(s, a))
  {
  }

  ghost predicate IsRun(s: State, actions: seq<Action>)
    decreases |actions|
  {
    actions != [] ==> Enabled(s, actions[0]) && IsRun(Do(s, actions[0]), actions[1..])
  }

  ghost function After(s: State, actions: seq<Action>): (t: State)
    requires IsRun(s, actions)
    decreases |actions|
  {
    if actions == [] then s else After(Do(s, actions[0]), actions[1..])
  }

  lemma {:induction false} RunInv(s: State, actions: seq<Action>)
    requires Inv(s) && IsRun(s, actions)
    ensures Inv(After(s, actions))
    decreases |actions|
  {
    if actions != [] {
      LockStep(s, actions[0]);
      StaleStep(s, actions[0]);
      ActiveStep(s, actions[0]);
      AddedStep(s, actions[0]);
      RunInv(Do(s, actions[0]), actions[1..]);
    }
  }

  /** In every interleaving, a client past CONNACK that is not stopped is the one in the
      clients map, whether or not the lock is free; so there is at most one. */
  lemma LiveIsRegistered(actions: seq<Action>, c: nat)
    requires IsRun(INIT, actions)
    ensures var s := After(INIT, actions);
            In(s, c, Live) && c !in s.stopped ==> s.clients == Some(c)
  {
    InitInv();
    RunInv(INIT, actions);
  }

  /** Outside a take-over, an entry is only ever removed by the client it belongs to or
      by the sweep, and only when that client is stopped or could not be acknowledged. */
  lemma NoStaleCleanup(actions: seq<Action>, a: Action, d: nat)
    requires IsRun(INIT, actions) && Enabled(After(INIT, actions), a)
    ensures var s := After(INIT, actions);
            var t := Do(s, a);
            s.clients == Some(d) && t.clients != Some(d) && !a.Add? && !a.Remove? ==>
              && a.c == d && (a.Withdraw? || a.Clean? || a.SweepDelete?)
              && (d in s.stopped || In(s, d, Unacked))
  {
    InitInv();
    RunInv(INIT, actions);
  }

  /** A take-over deletes or overwrites an entry only when the client it belongs to is
      stopped, failed to be acknowledged or is gone; the lock makes the unconditional
      delete safe. */
  lemma TakeOverRemovesNoActive(actions: seq<Action>, a: Action, d: nat)
    requires IsRun(INIT, actions) && Enabled(After(INIT, actions), a) && (a.Remove? || a.Add?)
    ensures After(INIT, actions).clients == Some(d) ==> !Active(After(INIT, actions), d)
  {
    InitInv();
    RunInv(INIT, actions);
  }

  // ----- what must happen

  /** A client whose CONNACK goes out is live and, unless stopped by then, in the map; one
      whose CONNACK fails is neither, and does not stay in the map. */
  lemma Acknowledged(actions: seq<Action>, c: nat)
    requires IsRun(INIT, actions) && In(After(INIT, actions), c, Acking)
    ensures var s := Do(After(INIT, actions), Connack(c, true));
            In(s, c, Live) && (c !in s.stopped ==> s.clients == Some(c))
    ensures var s := Do(After(INIT, actions), Connack(c, false));
            && In(s, c, Unacked) && Enabled(s, Withdraw(c))
            && Do(s, Withdraw(c)).clients != Some(c) && In(Do(s, Withdraw(c)), c, Withdrawn)
  {
    InitInv();
    RunInv(INIT, actions);
    assert Enabled(After(INIT, actions), Connack(c, true));
  }

  /** A clean-up that goes through leaves the map without its client. */
  lemma CleanedUp(s: State, a: Action)
    requires Enabled(s, a) && (a.Withdraw? || a.Clean? || a.SweepDelete?)
    ensures Do(s, a).clients == if s.clients == Some(a.c) then None else s.clients
  {
  }

  /** A client whose session expires with its connection is cleaned up, unless another has
      taken the session over. */
  lemma EndOfSession(s: State, c: nat, expires: bool)
    requires In(s, c, Live)
    ensures var ended := Do(s, ReadEnd(c));
            && c in ended.stopped && Enabled(ended, Expire(c, expires))
            && var t := Do(ended, Expire(c, expires));
               if expires && c !in s.takenOver then
                 Enabled(t, Clean(c)) && Do(t, Clean(c)).clients != Some(c) && In(Do(t, Clean(c)), c, Gone)
               else In(t, c, Gone) && t.clients == s.clients
  {
  }

  /** A sweep with nobody in between removes a client that is stopped. */
  lemma SweptAway(s: State, c: nat)
    requires s.clients == Some(c) && c in s.stopped
    ensures IsRun(s, [SweepSee(c), SweepDecide(c), SweepDelete(c)])
    ensures After(s, [SweepSee(c), SweepDecide(c), SweepDelete(c)]).clients == None
  {
    var s1 := Do(s, SweepSee(c));
    var s2 := Do(s1, SweepDecide(c));
    var s3 := Do(s2, SweepDelete(c));
    assert IsRun(s3, []) && After(s3, []) == s3;
    hide IsRun, After;
    Then(s2, SweepDelete(c), []);
    Then(s1, SweepDecide(c), [SweepDelete(c)] + []);
    Then(s, SweepSee(c), [SweepDecide(c)] + ([SweepDelete(c)] + []));
    assert [SweepSee(c), SweepDecide(c), SweepDelete(c)]
        == [SweepSee(c)] + ([SweepDecide(c)] + ([SweepDelete(c)] + []));
  }

  /** A connection that gives up is stopped. */
  lemma GivenUp(s: State, a: Action)
    requires Enabled(s, a) && (a.Return? || a.AbortResend? || a.ReadEnd? || a.Stop?)
    ensures a.c in Do(s, a).stopped && (a.Return? || a.AbortResend? ==> In(Do(s, a), a.c, Gone))
  {
  }

  /** The steps of a connect with nobody in between. */
  function Connect(s: State, c: nat): (actions: seq<Action>) {
    [Lock(c), Get(c)] + (if s.clients.Some? then [Disconnect(c), Remove(c), Mark(c)] else [Skip(c)])
    + [Add(c), Unlock(c), Connack(c, true)]
  }

  /** From every state with the lock free, a connect can go through. The new client is then
      live and in the map, and whoever was in the map is stopped and marked as taken over. */
  lemma ConnectGoesThrough(s: State, c: nat)
    requires s.lock == None && In(s, c, Arrived) && s.clients != Some(c)
    ensures IsRun(s, Connect(s, c))
    ensures var t := After(s, Connect(s, c));
            && In(t, c, Live) && t.clients == Some(c) && t.lock == None
            && t.stopped == s.stopped + (if s.clients.Some? then {s.clients.value} else {})
            && t.takenOver == s.takenOver + (if s.clients.Some? then {s.clients.value} else {})
  {
    hide IsRun, After;
    var locked := Do(s, Lock(c));
    var found := Do(locked, Get(c));
    var last := [Add(c), Unlock(c), Connack(c, true)];
    var x := if s.clients.Some? then {s.clients.value} else {};
    var taken := if s.clients.Some? then [Disconnect(c), Remove(c), Mark(c)] else [Skip(c)];
    var ready := found.(clients := None, phase := found.phase[c := Inherited], stopped := s.stopped + x,
                        takenOver := s.takenOver + x);
    Registers(ready, c);
    if s.clients.Some? {
      Displaces(found, c, last);
    } else {
      assert Do(found, Skip(c)) == ready;
      Then(found, Skip(c), last);
    }
    Then(locked, Get(c), taken + last);
    Then(s, Lock(c), [Get(c)] + (taken + last));
    assert Connect(s, c) == [Lock(c)] + ([Get(c)] + (taken + last));
  }

  lemma Displaces(s: State, c: nat, rest: seq<Action>)
    requires c in s.phase && s.phase[c].Found? && s.phase[c].existing.Some?
    requires var x := {s.phase[c].existing.value};
             IsRun(s.(clients := None, phase := s.phase[c := Inherited], stopped := s.stopped + x,
                      takenOver := s.takenOver + x), rest)
    ensures var x, all := {s.phase[c].existing.value}, [Disconnect(c), Remove(c), Mark(c)] + rest;
            && IsRun(s, all)
            && After(s, all) == After(s.(clients := None, phase := s.phase[c := Inherited], stopped := s.stopped + x,
                                         takenOver := s.takenOver + x), rest)
  {
    hide IsRun, After;
    var s1 := Do(s, Disconnect(c));
    var s2 := Do(s1, Remove(c));
    var x := {s.phase[c].existing.value};
    assert Do(s2, Mark(c)) == s.(clients := None, phase := s.phase[c := Inherited], stopped := s.stopped + x,
                                 takenOver := s.takenOver + x);
    Then(s2, Mark(c), rest);
    Then(s1, Remove(c), [Mark(c)] + rest);
    Then(s, Disconnect(c), [Remove(c)] + ([Mark(c)] + rest));
    assert [Disconnect(c), Remove(c), Mark(c)] + rest == [Disconnect(c)] + ([Remove(c)] + ([Mark(c)] + rest));
  }

  lemma Registers(s: State, c: nat)
    requires In(s, c, Inherited)
    ensures var actions := [Add(c), Unlock(c), Connack(c, true)];
            && IsRun(s, actions)
            && After(s, actions) == s.(clients := Some(c), lock := None, phase := s.phase[c := Live])
  {
    var s1 := Do(s, Add(c));
    var s2 := Do(s1, Unlock(c));
    var s3 := Do(s2, Connack(c, true));
    assert s3 == s.(clients := Some(c), lock := None, phase := s.phase[c := Live]);
    assert IsRun(s3, []) && After(s3, []) == s3;
    hide IsRun, After;
    Then(s2, Connack(c, true), []);
    Then(s1, Unlock(c), [Connack(c, true)] + []);
    Then(s, Add(c), [Unlock(c)] + ([Connack(c, true)] + []));
    assert [Add(c), Unlock(c), Connack(c, true)] == [Add(c)] + ([Unlock(c)] + ([Connack(c, true)] + []));
  }

  lemma Then(s: State, a: Action, rest: seq<Action>)
    requires Enabled(s, a) && IsRun(Do(s, a), rest)
    ensures IsRun(s, [a] + rest) && After(s, [a] + rest) == After(Do(s, a), rest)
  {
    assert ([a] + rest)[1..] == rest;
  }

  // ----- the clients map

  /** The map of clients by identifier. Each method acts on one identifier's entry as the
      step of the same name does and leaves every other identifier alone. */
  class Clients {
    var internal: map<string, nat>

    constructor ()
      ensures internal == map[]
    {
      internal := map[];
    }

    function Entry(id: string): (e: Option<nat>)
      reads this
    {
      if id in internal then Some(internal[id]) else None
    }

    method Add(id: string, c: nat)
      modifies this
      ensures Entry(id) == Some(c)
      ensures forall other :: other != id ==> Entry(other) == old(Entry(other))
    {
      internal := internal[id := c];
    }

    method Delete(id: string)
      modifies this
      ensures Entry(id) == None
      ensures forall other :: other != id ==> Entry(other) == old(Entry(other))
    {
      internal := internal - {id};
    }

    method CompareAndDelete(id: string, c: nat) returns (deleted: bool)
      modifies this
      ensures deleted <==> old(Entry(id)) == Some(c)
      ensures Entry(id) == if deleted then None else old(Entry(id))
      ensures forall other :: other != id ==> Entry(other) == old(Entry(other))
    {
      deleted := id in internal && internal[id] == c;
      if deleted { internal := internal - {id}; }
    }
  }
}
