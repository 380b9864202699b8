/** How a peer hands committed log entries to the store: batches may overlap what has been
    applied, indexes are unsigned 64-bit words that wrap around, and snapshots replace the
    store. */
module Peer {
  import opened Options

  const WORD := 0x1_0000_0000_0000_0000

  type uint64 = x: int | 0 <= x < WORD

  function Wrap(x: int): (r: uint64) {
    x % WORD
  }

  type Data = seq<int>

  datatype Kind = Normal | ConfChange

  datatype Entry = Entry(index: uint64, kind: Kind, data: Data)

  /** What goes to the store: the data of a batch, or the order to load the snapshot that
      has just been saved. */
  datatype Commit = Batch(data: seq<Data>) | Load(index: uint64)

  /** The committed log: entry k has index k + 1. */
  predicate IsLog(log: seq<Entry>) {
    |log| < WORD && forall k :: 0 <= k < |log| ==> log[k].index == k + 1
  }

  // ----- what the store receives

  /** The data of the entries that are passed on: normal ones that are not empty. */
  function Payloads(ents: seq<Entry>): (r: seq<Data>) {
    if ents == [] then []
    else
      var last := ents[|ents| - 1];
      Payloads(ents[..|ents| - 1]) + if last.kind == Normal && last.data != [] then [last.data] else []
  }

  /** All data that the store reflects after it has processed the commits in order; the
      snapshot of an index stands for the log up to that index. */
  ghost function Received(commits: seq<Commit>, log: seq<Entry>): (r: seq<Data>) {
    if commits == [] then []
    else
      match commits[|commits| - 1]
      case Batch(data) => Received(commits[..|commits| - 1], log) + data
      case Load(index) => Payloads(log[..if index <= |log| then index else |log|])
  }

  lemma {:induction false} PayloadsSplit(a: seq<Entry>, b: seq<Entry>)
    ensures Payloads(a + b) == Payloads(a) + Payloads(b)
    decreases |b|
  {
    if b == [] {
      assert a + b == a;
    } else {
      assert (a + b)[..|a + b| - 1] == a + b[..|b| - 1];
      PayloadsSplit(a, b[..|b| - 1]);
    }
  }

  /** The data comes from exactly the normal entries that are not empty, one by one and in
      their order; `at` gives the positions. */
  ghost predicate SentFrom(at: seq<nat>, ents: seq<Entry>, data: seq<Data>) {
    && |at| == |data|
    && (forall i, j :: 0 <= i < j < |at| ==> at[i] < at[j])
    && (forall i :: 0 <= i < |at| ==> at[i] < |ents| && ents[at[i]].kind == Normal && ents[at[i]].data != [])
    && (forall i :: 0 <= i < |at| ==> data[i] == ents[at[i]].data)
    && (forall k :: 0 <= k < |ents| && ents[k].kind == Normal && ents[k].data != [] ==> k in at)
  }

  lemma {:induction false} PayloadsSent(ents: seq<Entry>)
    ensures exists at :: SentFrom(at, ents, Payloads(ents))
    decreases |ents|
  {
    hide SentFrom;
    if ents == [] {
      NothingSent();
      assert SentFrom([], ents, Payloads(ents));
    } else {
      var n := |ents| - 1;
      PayloadsSent(ents[..n]);
      var at :| SentFrom(at, ents[..n], Payloads(ents[..n]));
      assert ents == ents[..n] + [ents[n]];
      if ents[n].kind == Normal && ents[n].data != [] {
        SentOne(at, ents[..n], Payloads(ents[..n]), ents[n]);
        assert SentFrom(at + [n], ents, Payloads(ents));
      } else {
        assert Payloads(ents[..n]) + [] == Payloads(ents[..n]);
        SentNone(at, ents[..n], Payloads(ents[..n]), ents[n]);
        assert SentFrom(at, ents, Payloads(ents));
      }
    }
  }

  lemma NothingSent()
    ensures SentFrom([], [], [])
  {
  }

  lemma SentOne(at: seq<nat>, ents: seq<Entry>, data: seq<Data>, e: Entry)
    requires SentFrom(at, ents, data) && e.kind == Normal && e.data != []
    ensures SentFrom(at + [|ents|], ents + [e], data + [e.data])
  {
    var all := at + [|ents|];
    assert all[|at|] == |ents|;
    forall k | 0 <= k < |ents| && ents[k].kind == Normal && ents[k].data != [] ensures k in all { assert k in at; }
  }

  lemma SentNone(at: seq<nat>, ents: seq<Entry>, data: seq<Data>, e: Entry)
    requires SentFrom(at, ents, data) && !(e.kind == Normal && e.data != [])
    ensures SentFrom(at, ents + [e], data)
  {
  }

  predicate Increasing(indexes: seq<int>) {
    forall i, j :: 0 <= i < j < |indexes| ==> indexes[i] < indexes[j]
  }

  /** Increasing indexes up to a bound: no index comes twice or out of order. */
  predicate InOrder(indexes: seq<int>, bound: int) {
    && Increasing(indexes)
    && (forall k :: 0 <= k < |indexes| ==> indexes[k] <= bound)
  }

  /** The last indexes published are exactly those since the last snapshot loaded. */
  predicate NoneMissed(indexes: seq<int>, loaded: int, applied: int) {
    && 0 <= applied - loaded <= |indexes|
    && forall k :: |indexes| - (applied - loaded) <= k < |indexes| ==> indexes[k] == applied - (|indexes| - 1 - k)
  }

  ghost function Indexes(ents: seq<Entry>): (r: seq<int>)
    ensures |r| == |ents| && forall k :: 0 <= k < |r| ==> r[k] == ents[k].index
  {
    seq(|ents|, k requires 0 <= k < |ents| => ents[k].index)
  }

  method Collect(ents: seq<Entry>) returns (data: seq<Data>)
    ensures data == Payloads(ents)
  {
    data := [];
    for i := 0 to |ents|
      invariant data == Payloads(ents[..i])
    {
      assert ents[..i + 1][..i] == ents[..i];
      if ents[i].kind == Normal && ents[i].data != [] {
        data := data + [ents[i].data];
      }
    }
    assert ents[..|ents|] == ents;
  }

  /** The next stretch of the log brings the store up to its end, whether or not there is
      any data to send. */
  lemma StoreNext(log: seq<Entry>, applied: nat, hi: nat, commits: seq<Commit>)
    requires IsLog(log) && applied < hi <= |log| && Received(commits, log) == Payloads(log[..applied])
    ensures var ents := log[applied..hi];
            && ents[|ents| - 1].index == hi
            && Received(commits + [Batch(Payloads(ents))], log) == Payloads(log[..hi])
            && (Payloads(ents) == [] ==> Received(commits, log) == Payloads(log[..hi]))
  {
    hide Payloads;
    var ents := log[applied..hi];
    PayloadsSplit(log[..applied], ents);
    assert log[..applied] + ents == log[..hi];
    var more := commits + [Batch(Payloads(ents))];
    assert more[..|more| - 1] == commits;
  }

  lemma OrderNext(log: seq<Entry>, applied: nat, hi: nat, published: seq<int>)
    requires IsLog(log) && applied < hi <= |log| && InOrder(published, applied)
    ensures InOrder(published + Indexes(log[applied..hi]), hi)
  {
  }

  lemma NoneMissedNext(log: seq<Entry>, applied: nat, hi: nat, published: seq<int>, loaded: int)
    requires IsLog(log) && applied < hi <= |log| && NoneMissed(published, loaded, applied)
    ensures NoneMissed(published + Indexes(log[applied..hi]), loaded, hi)
  {
  }

  // ----- what a run of turns does, told from the turns alone

  datatype Turn = Turn(snapshot: uint64, committed: seq<Entry>, stopped: bool)

  /** The stretch of the log a turn brings: entries lo + 1 to hi. */
  datatype Span = Span(lo: nat, hi: nat)

  predicate Offers(turn: Turn, span: Span, log: seq<Entry>) {
    turn.snapshot <= |log| && span.lo <= span.hi <= |log| && turn.committed == log[span.lo..span.hi]
  }

  predicate AllOffer(turns: seq<Turn>, spans: seq<Span>, log: seq<Entry>) {
    |spans| == |turns| && forall t :: 0 <= t < |turns| ==> Offers(turns[t], spans[t], log)
  }

  /** Where publishing starts once the snapshot of a turn is loaded. */
  function Base(applied: nat, turn: Turn): (base: nat) {
    if turn.snapshot == 0 then applied else turn.snapshot
  }

  predicate Publishes(applied: nat, turn: Turn, span: Span) {
    span.lo < span.hi && Base(applied, turn) < span.hi
  }

  /** A turn that a peer does not get through: a gap before its entries, or no index left. */
  predicate Gap(applied: nat, turn: Turn, span: Span) {
    span.lo < span.hi && (span.lo > Base(applied, turn) || Base(applied, turn) == WORD - 1)
  }

  /** What a stopped peer gives up: a turn that has data to send. */
  predicate GivesUp(applied: nat, turn: Turn, span: Span, log: seq<Entry>)
    requires Offers(turn, span, log)
  {
    && !Gap(applied, turn, span) && turn.stopped && Publishes(applied, turn, span)
    && Payloads(log[Base(applied, turn)..span.hi]) != []
  }

  /** The applied index after the first n turns. */
  function AppliedAfter(applied: nat, turns: seq<Turn>, spans: seq<Span>, n: nat): (r: nat)
    requires n <= |turns| == |spans|
  {
    if n == 0 then applied
    else
      var before := AppliedAfter(applied, turns, spans, n - 1);
      if Publishes(before, turns[n - 1], spans[n - 1]) then spans[n - 1].hi else Base(before, turns[n - 1])
  }

  /** The indexes that the first n turns publish, in order. */
  ghost function PublishedBy(applied: nat, turns: seq<Turn>, spans: seq<Span>, log: seq<Entry>, n: nat): (r: seq<int>)
    requires n <= |turns| && AllOffer(turns, spans, log)
  {
    if n == 0 then []
    else
      var before := AppliedAfter(applied, turns, spans, n - 1);
      PublishedBy(applied, turns, spans, log, n - 1)
      + if Publishes(before, turns[n - 1], spans[n - 1])
        then Indexes(log[Base(before, turns[n - 1])..spans[n - 1].hi]) else []
  }

  /** No snapshot of the first n turns lies behind the applied index. */
  predicate AllForward(applied: nat, turns: seq<Turn>, spans: seq<Span>, n: nat)
    requires n <= |turns| == |spans|
  {
    forall t :: 0 <= t < n ==>
      var before := AppliedAfter(applied, turns, spans, t);
      Base(before, turns[t]) >= before
  }

  /** The last index published after the first n turns, `last` being it before them. */
  function LastAfter(last: int, applied: nat, turns: seq<Turn>, spans: seq<Span>, n: nat): (r: int)
    requires n <= |turns| == |spans|
  {
    if n == 0 then last
    else if Publishes(AppliedAfter(applied, turns, spans, n - 1), turns[n - 1], spans[n - 1]) then spans[n - 1].hi
    else LastAfter(last, applied, turns, spans, n - 1)
  }

  /** No turn publishes from behind the last index published. */
  predicate NoneBehind(last: int, applied: nat, turns: seq<Turn>, spans: seq<Span>, n: nat)
    requires n <= |turns| == |spans|
  {
    forall t :: 0 <= t < n ==>
      var before := AppliedAfter(applied, turns, spans, t);
      Publishes(before, turns[t], spans[t]) ==> LastAfter(last, applied, turns, spans, t) <= Base(before, turns[t])
  }

  function Last(indexes: seq<int>): (r: int) {
    if indexes == [] then 0 else indexes[|indexes| - 1]
  }

  /** Adding a stretch keeps the order exactly when it starts behind the last index. */
  lemma OrderExact(log: seq<Entry>, base: nat, hi: nat, published: seq<int>)
    requires IsLog(log) && base < hi <= |log|
    ensures var all := published + Indexes(log[base..hi]);
            && (Increasing(all) <==> Increasing(published) && Last(published) <= base)
            && Last(all) == hi
  {
    var next := Indexes(log[base..hi]);
    forall k | 0 <= k < |next| ensures next[k] == base + k + 1 { assert log[base..hi][k] == log[base + k]; }
    var all := published + next;
    if Increasing(all) {
      forall i, j | 0 <= i < j < |published| ensures published[i] < published[j] { assert all[i] < all[j]; }
      if published != [] { assert all[|published| - 1] < all[|published|]; }
    }
  }

  /** Over every run of turns, entries are published once each and in order if and only if
      no turn publishes from behind the last index published. */
  lemma {:induction false} RunOrdered(applied: nat, turns: seq<Turn>, spans: seq<Span>, log: seq<Entry>,
                                      published: seq<int>, n: nat)
    requires IsLog(log) && AllOffer(turns, spans, log) && n <= |turns| && Increasing(published)
    ensures var all := published + PublishedBy(applied, turns, spans, log, n);
            && (Increasing(all) <==> NoneBehind(Last(published), applied, turns, spans, n))
            && LastAfter(Last(published), applied, turns, spans, n) == Last(all)
    decreases n
  {
    hide Increasing, Last, NoneBehind, PublishedBy, AppliedAfter, Indexes;
    PublishedNext(applied, turns, spans, log, published, n);
    if n == 0 {
      NoneBehindYet(Last(published), applied, turns, spans);
    } else {
      RunOrdered(applied, turns, spans, log, published, n - 1);
      NoneBehindNext(Last(published), applied, turns, spans, n);
      var before, turn, span := AppliedAfter(applied, turns, spans, n - 1), turns[n - 1], spans[n - 1];
      if Publishes(before, turn, span) {
        var sofar := published + PublishedBy(applied, turns, spans, log, n - 1);
        OrderExact(log, Base(before, turn), span.hi, sofar);
      }
    }
  }

  lemma PublishedNext(applied: nat, turns: seq<Turn>, spans: seq<Span>, log: seq<Entry>, published: seq<int>, n: nat)
    requires AllOffer(turns, spans, log) && n <= |turns|
    ensures n == 0 ==> published + PublishedBy(applied, turns, spans, log, n) == published
    ensures n > 0 ==>
              var before := AppliedAfter(applied, turns, spans, n - 1);
              var sofar := published + PublishedBy(applied, turns, spans, log, n - 1);
              published + PublishedBy(applied, turns, spans, log, n)
              == if Publishes(before, turns[n - 1], spans[n - 1])
                 then sofar + Indexes(log[Base(before, turns[n - 1])..spans[n - 1].hi]) else sofar
  {
    hide Indexes, AppliedAfter;
    if n > 0 {
      var before := AppliedAfter(applied, turns, spans, n - 1);
      var sofar := PublishedBy(applied, turns, spans, log, n - 1);
      if Publishes(before, turns[n - 1], spans[n - 1]) {
        var next := Indexes(log[Base(before, turns[n - 1])..spans[n - 1].hi]);
        assert published + (sofar + next) == published + sofar + next;
      } else {
        assert sofar + [] == sofar;
      }
    }
  }

  lemma NoneBehindYet(last: int, applied: nat, turns: seq<Turn>, spans: seq<Span>)
    requires |turns| == |spans|
    ensures NoneBehind(last, applied, turns, spans, 0)
  {
  }

  lemma NoneBehindNext(last: int, applied: nat, turns: seq<Turn>, spans: seq<Span>, n: nat)
    requires 0 < n <= |turns| == |spans|
    ensures var before := AppliedAfter(applied, turns, spans, n - 1);
            NoneBehind(last, applied, turns, spans, n) <==>
              && NoneBehind(last, applied, turns, spans, n - 1)
              && (Publishes(before, turns[n - 1], spans[n - 1]) ==>
                    LastAfter(last, applied, turns, spans, n - 1) <= Base(before, turns[n - 1]))
  {
  }

  /** Forward snapshots are enough. */
  lemma {:induction false} ForwardIsOrdered(applied: nat, turns: seq<Turn>, spans: seq<Span>, last: int, n: nat)
    requires n <= |turns| == |spans| && last <= applied && AllForward(applied, turns, spans, n)
    ensures NoneBehind(last, applied, turns, spans, n)
    ensures LastAfter(last, applied, turns, spans, n) <= AppliedAfter(applied, turns, spans, n)
    decreases n
  {
    if n > 0 { ForwardIsOrdered(applied, turns, spans, last, n - 1); }
  }

  datatype Outcome = Done | Stopped | Fatal

  class Peer {
    var appliedIndex: uint64
    var snapshotIndex: uint64
    var commitC: seq<Commit>
    ghost var published: seq<int>           // the indexes of the entries published
    ghost var loaded: uint64                // the index of the last snapshot loaded
    ghost var forward: bool                 // no snapshot so far was behind appliedIndex

    /** The store reflects the log exactly up to the applied index. Every entry since the
        last snapshot has been published, and unless a snapshot went back, none twice or
        out of order. */
    ghost predicate Valid(log: seq<Entry>)
      reads this
    {
      && IsLog(log) && appliedIndex <= |log|
      && Received(commitC, log) == Payloads(log[..appliedIndex])
      && NoneMissed(published, loaded, appliedIndex)
      && (forward ==> InOrder(published, appliedIndex))
    }

    /** So the store has got the data of exactly the normal entries up to there that are not
        empty, once each and in order. */
    lemma StoreHas(log: seq<Entry>)
      requires Valid(log)
      ensures exists at :: SentFrom(at, log[..appliedIndex], Received(commitC, log))
    {
      PayloadsSent(log[..appliedIndex]);
    }

    /** A peer starts from the newest snapshot, which the store loads first. */
    constructor (index: uint64, ghost log: seq<Entry>)
      requires IsLog(log) && index <= |log|
      ensures Valid(log) && appliedIndex == snapshotIndex == index && published == [] && forward
    {
      appliedIndex, snapshotIndex, commitC := index, index, [Load(index)];
      published, loaded, forward := [], index, true;
    }

    /** The part of a batch not yet applied, or nothing when the batch leaves a gap. */
    function EntriesToApply(ents: seq<Entry>): (r: Option<seq<Entry>>)
      reads this
    {
      if ents == [] then Some(ents)
      else if ents[0].index > Wrap(appliedIndex + 1) then None
      else
        var skip := Wrap(Wrap(appliedIndex - ents[0].index) + 1);
        if skip < |ents| then Some(ents[skip..]) else Some([])
    }

    /** Of a stretch of the log exactly the entries beyond the applied index are left,
        also when the subtraction wraps around because the batch starts right behind it.
        A stretch is refused when there is a gap before it, or when the index cannot grow. */
    lemma OnlyNewEntries(log: seq<Entry>, lo: nat, hi: nat)
      requires IsLog(log) && lo <= hi <= |log| && appliedIndex <= |log|
      ensures var r := EntriesToApply(log[lo..hi]);
              && (r.None? <==> lo < hi && (lo > appliedIndex || appliedIndex == WORD - 1))
              && (r.Some? ==>
                    r.value == if hi <= appliedIndex then []
                               else log[if lo <= appliedIndex then appliedIndex else lo..hi])
    {
      if lo < hi && lo <= appliedIndex < WORD - 1 {
        assert log[lo..hi][0].index == lo + 1;
        if appliedIndex == lo {
          assert Wrap(Wrap(appliedIndex - (lo + 1)) + 1) == 0;
        } else {
          assert Wrap(Wrap(appliedIndex - (lo + 1)) + 1) == appliedIndex - lo;
        }
      }
    }

    method PublishSnapshot(index: uint64, ghost log: seq<Entry>)
      requires Valid(log) && index <= |log|
      modifies this
      ensures Valid(log) && published == old(published)
      ensures appliedIndex == if index == 0 then old(appliedIndex) else index
      ensures snapshotIndex == if index == 0 then old(snapshotIndex) else index
      ensures forward <==> old(forward) && (index == 0 || index >= old(appliedIndex))
    {
      if index == 0 {
        return;
      }
      forward, loaded := forward && index >= appliedIndex, index;
      commitC := commitC + [Load(index)];
      snapshotIndex := index;
      appliedIndex := index;
    }

    method PublishEntries(ents: seq<Entry>, stopped: bool, ghost log: seq<Entry>, ghost hi: nat)
      returns (ok: bool)
      requires Valid(log) && hi <= |log|
      requires ents == if hi <= appliedIndex then [] else log[appliedIndex..hi]
      modifies this
      ensures Valid(log) && forward == old(forward) && snapshotIndex == old(snapshotIndex)
      ensures ok <==> !(stopped && Payloads(ents) != [])
      ensures !ok ==> appliedIndex == old(appliedIndex) && published == old(published)
      ensures ok ==> appliedIndex == if hi <= old(appliedIndex) then old(appliedIndex) else hi
      ensures ok ==> published == old(published) + Indexes(ents)
      ensures exists at :: SentFrom(at, log[..appliedIndex], Received(commitC, log))
    {
      hide Payloads, Received, InOrder, NoneMissed, Indexes, SentFrom;
      StoreHas(log);
      if ents == [] {
        NoPayloads();
        return true;
      }
      var data := Collect(ents);
      StoreNext(log, appliedIndex, hi, commitC);
      NoneMissedNext(log, appliedIndex, hi, published, loaded);
      if forward { OrderNext(log, appliedIndex, hi, published); }
      if |data| > 0 {
        if stopped {
          return false;
        }
        commitC := commitC + [Batch(data)];
      }
      published := published + Indexes(ents);
      appliedIndex := ents[|ents| - 1].index;
      StoreHas(log);
      return true;
    }

    /** One turn of the event loop, with the snapshot and the committed entries that the
        log has to offer. */
    method Ready(turn: Turn, ghost span: Span, ghost log: seq<Entry>) returns (outcome: Outcome)
      requires Valid(log) && Offers(turn, span, log)
      modifies this
      ensures Valid(log)
      ensures outcome == Fatal <==> Gap(old(appliedIndex), turn, span)
      ensures outcome == Stopped <==> GivesUp(old(appliedIndex), turn, span, log)
      ensures snapshotIndex == if turn.snapshot == 0 then old(snapshotIndex) else turn.snapshot
      ensures forward <==> old(forward) && Base(old(appliedIndex), turn) >= old(appliedIndex)
      ensures var base := Base(old(appliedIndex), turn);
              if outcome == Done && Publishes(old(appliedIndex), turn, span) then
                && appliedIndex == span.hi && published == old(published) + Indexes(log[base..span.hi])
                && (Increasing(published) <==> Increasing(old(published)) && Last(old(published)) <= base)
              else
                appliedIndex == base && published == old(published)
    {
      hide Increasing, Last, Payloads, Received, NoneMissed, InOrder;
      PublishSnapshot(turn.snapshot, log);
      OnlyNewEntries(log, span.lo, span.hi);
      var ents := EntriesToApply(turn.committed);
      if ents.None? {
        return Fatal;
      }
      ghost var hi := if span.lo < span.hi then span.hi else 0;
      if appliedIndex < hi { OrderExact(log, appliedIndex, hi, published); }
      NoPayloads();
      var ok := PublishEntries(ents.value, turn.stopped, log, hi);
      outcome := if ok then Done else Stopped;
    }

    /** The event loop over whatever stretches of the log and snapshots come, until the
        peer is stopped or finds a gap. What it has done is told from the turns: how far it
        came, which indexes it published, and that these are in order, each once, if and
        only if no turn published from behind. */
    method EventLoop(turns: seq<Turn>, ghost spans: seq<Span>, ghost log: seq<Entry>)
      returns (outcome: Outcome, ghost done: nat)
      requires Valid(log) && AllOffer(turns, spans, log)
      modifies this
      ensures Valid(log) && done <= |turns|
      ensures forall t :: 0 <= t < done ==> PassedOver(old(appliedIndex), turns, spans, log, t)
      ensures var reached := AppliedAfter(old(appliedIndex), turns, spans, done);
              match outcome
              case Done => done == |turns|
              case Fatal => done < |turns| && Gap(reached, turns[done], spans[done])
              case Stopped => done < |turns| && GivesUp(reached, turns[done], spans[done], log)
      ensures var reached := AppliedAfter(old(appliedIndex), turns, spans, done);
              appliedIndex == if outcome == Done then reached else Base(reached, turns[done])
      ensures published == old(published) + PublishedBy(old(appliedIndex), turns, spans, log, done)
      ensures forward <==>
                old(forward) && AllForward(old(appliedIndex), turns, spans, if outcome == Done then done else done + 1)
      ensures Increasing(old(published)) ==>
                (Increasing(published) <==> NoneBehind(Last(old(published)), old(appliedIndex), turns, spans, done))
      ensures exists at :: SentFrom(at, log[..appliedIndex], Received(commitC, log))
    {
      hide Increasing, Last, NoneBehind, PublishedBy, AppliedAfter, AllForward, Gap, GivesUp, Indexes, Payloads;
      hide Received;
      hide InOrder, NoneMissed, SentFrom;
      ghost var applied, published0, forward0 := appliedIndex, published, forward;
      outcome, done := Done, 0;
      NothingDone(applied, published, forward, turns, spans, log);
      for t := 0 to |turns|
        invariant outcome == Done && done == t && Valid(log)
        invariant forall k :: 0 <= k < t ==> PassedOver(applied, turns, spans, log, k)
        invariant Reached(applied, published0, forward0, turns, spans, log, t, appliedIndex, published, forward)
      {
        ghost var before, sofar, ahead := appliedIndex, published, forward;
        outcome := Ready(turns[t], spans[t], log);
        TurnDone(applied, published0, forward0, turns, spans, log, t, before, sofar, ahead);
        if outcome != Done {
          if Increasing(published0) { RunOrdered(applied, turns, spans, log, published0, done); }
          StoreHas(log);
          return;
        }
        done := t + 1;
      }
      if Increasing(published0) { RunOrdered(applied, turns, spans, log, published0, done); }
      StoreHas(log);
    }
  }

  /** The state after the first n turns, told from the turns. */
  ghost predicate Reached(applied0: nat, published0: seq<int>, forward0: bool, turns: seq<Turn>, spans: seq<Span>,
                          log: seq<Entry>, n: nat, applied: nat, published: seq<int>, forward: bool)
    requires n <= |turns| && AllOffer(turns, spans, log)
  {
    && applied == AppliedAfter(applied0, turns, spans, n)
    && published == published0 + PublishedBy(applied0, turns, spans, log, n)
    && (forward <==> forward0 && AllForward(applied0, turns, spans, n))
  }

  lemma NothingDone(applied: nat, published: seq<int>, forward: bool, turns: seq<Turn>, spans: seq<Span>,
                    log: seq<Entry>)
    requires AllOffer(turns, spans, log)
    ensures Reached(applied, published, forward, turns, spans, log, 0, applied, published, forward)
  {
    assert published + [] == published;
  }

  lemma TurnDone(applied0: nat, published0: seq<int>, forward0: bool, turns: seq<Turn>, spans: seq<Span>,
                 log: seq<Entry>, t: nat, applied: nat, published: seq<int>, forward: bool)
    requires t < |turns| && AllOffer(turns, spans, log)
    requires Reached(applied0, published0, forward0, turns, spans, log, t, applied, published, forward)
    ensures var base, hi := Base(applied, turns[t]), spans[t].hi;
            var ahead := forward && base >= applied;
            && (ahead <==> forward0 && AllForward(applied0, turns, spans, t + 1))
            && (if Publishes(applied, turns[t], spans[t]) then
                  Reached(applied0, published0, forward0, turns, spans, log, t + 1,
                          hi, published + Indexes(log[base..hi]), ahead)
                else Reached(applied0, published0, forward0, turns, spans, log, t + 1, base, published, ahead))
  {
    hide AllForward, Indexes, PublishedBy;
    ForwardNext(applied0, turns, spans, t);
    PublishedNext(applied0, turns, spans, log, published0, t + 1);
  }

  lemma ForwardNext(applied: nat, turns: seq<Turn>, spans: seq<Span>, t: nat)
    requires t < |turns| == |spans|
    ensures var before := AppliedAfter(applied, turns, spans, t);
            AllForward(applied, turns, spans, t + 1) <==>
              AllForward(applied, turns, spans, t) && Base(before, turns[t]) >= before
  {
  }

  /** The peer gets through a turn. */
  ghost predicate PassedOver(applied: nat, turns: seq<Turn>, spans: seq<Span>, log: seq<Entry>, t: nat)
    requires t < |turns| && AllOffer(turns, spans, log)
  {
    var before := AppliedAfter(applied, turns, spans, t);
    !Gap(before, turns[t], spans[t]) && !GivesUp(before, turns[t], spans[t], log)
  }

  lemma NoPayloads()
    ensures Payloads([]) == []
  {
  }

  /** A snapshot behind the last index published is loaded all the same, and entries are
      then published again. */
  method BackwardSnapshot() returns (peer: Peer)
    ensures peer.published == [1, 2, 2]
  {
    var log := [Entry(1, Normal, [7]), Entry(2, Normal, [8])];
    peer := new Peer(0, log);
    var outcome := peer.Ready(Turn(0, log[0..2], false), Span(0, 2), log);
    assert peer.published == [1, 2];
    outcome := peer.Ready(Turn(1, log[1..2], false), Span(1, 2), log);
    assert Indexes(log[1..2]) == [2];
  }
}
