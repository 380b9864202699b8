/** A session's in-flight messages and the handlers that change them, and exactly-once
    delivery of inbound QoS 2 messages over every run of handlers (section 4.3.3). */
module Qos {
  import PacketIds

  datatype Kind = PUBLISH | PUBACK | PUBREC | PUBREL | PUBCOMP

  /** An in-flight packet; a negative expiry marks it for sending at the next chance. */
  datatype Flight = Flight(kind: Kind, expiry: int)

  datatype State = State(
    inflight: map<nat, Flight>,
    receiveQuota: int, maximumReceiveQuota: int,
    sendQuota: int, maximumSendQuota: int)

  function Decreased(quota: int): (q: int) {
    if quota <= 0 then quota else quota - 1
  }

  function Increased(quota: int, maximum: int): (q: int) {
    if quota >= maximum then quota else quota + 1
  }

  /** One handler run to its end. What the model does not decide is in the event: whether
      the topic is valid, permitted and otherwise acceptable, whether the reason code is
      an error, whether the write of the answer succeeds. */
  datatype Event =
    | Publish(id: nat, qos: nat, valid: bool, permitted: bool, accepted: bool, expiry: nat, written: bool)
    | Puback(id: nat)
    | Pubrec(id: nat, error: bool, expiry: nat, written: bool)
    | Pubrel(id: nat, error: bool, expiry: nat, written: bool)
    | Pubcomp(id: nat)
    | Outbound(id: nat, expiry: nat, dropped: bool)
    | Immediate(id: nat)
    | TakeOver(receiveMaximum: nat, clientReceiveMaximum: nat, resent: set<nat>)

  /** The state after a handler, and whether it passed a message on to the subscribers. */
  function Step(s: State, e: Event): (r: (State, bool)) {
    match e
    case Publish(id, qos, valid, permitted, accepted, expiry, written) =>
      if !valid || s.receiveQuota == 0 || !permitted || Awaits(s, id) then (s, false)
      else
        var s1 := s.(inflight := s.inflight - {id});
        if !accepted then (s1, false)
        else if qos == 0 then (s1, true)
        else
          var kind := if qos == 2 then PUBREC else PUBACK;
          var s2 := s1.(receiveQuota := Decreased(s.receiveQuota), inflight := s1.inflight[id := Flight(kind, expiry)]);
          if !written then (s2, false)
          else if qos == 1 then
            (s2.(inflight := s2.inflight - {id},
                 receiveQuota := Increased(s2.receiveQuota, s2.maximumReceiveQuota)), true)
          else (s2, true)
    case Puback(id) =>
      if id !in s.inflight then (s, false)
      else (s.(inflight := s.inflight - {id}, sendQuota := Increased(s.sendQuota, s.maximumSendQuota)), false)
    case Pubrec(id, error, expiry, written) =>
      if id !in s.inflight then (s, false)
      else if error then (s.(inflight := s.inflight - {id}), false)
      else (s.(receiveQuota := Decreased(s.receiveQuota), inflight := s.inflight[id := Flight(PUBREL, expiry)]), false)
    case Pubrel(id, error, expiry, written) =>
      if id !in s.inflight then (s, false)
      else if error then (s.(inflight := s.inflight - {id}), false)
      else if !written then (s.(inflight := s.inflight[id := Flight(PUBCOMP, expiry)]), false)
      else (s.(receiveQuota := Increased(s.receiveQuota, s.maximumReceiveQuota),
               sendQuota := Increased(s.sendQuota, s.maximumSendQuota),
               inflight := s.inflight - {id}), false)
    case Pubcomp(id) =>
      (s.(receiveQuota := Increased(s.receiveQuota, s.maximumReceiveQuota),
          sendQuota := Increased(s.sendQuota, s.maximumSendQuota),
          inflight := s.inflight - {id}), false)
    case Outbound(id, expiry, dropped) =>
      var s1 := s.(inflight := s.inflight[id := Flight(PUBLISH, expiry)],
                   sendQuota := if id in s.inflight then s.sendQuota else Decreased(s.sendQuota));
      if s.sendQuota == 0 && s.maximumSendQuota > 0 then
        (s1.(inflight := s1.inflight[id := Flight(PUBLISH, -1)]), false)
      else if dropped then
        (s1.(inflight := s1.inflight - {id}, sendQuota := Increased(s1.sendQuota, s1.maximumSendQuota)), false)
      else (s1, false)
    case Immediate(id) =>
      if id in s.inflight && s.inflight[id].expiry < 0 && s.sendQuota > 0
      then (s.(inflight := s.inflight - {id}, sendQuota := Decreased(s.sendQuota)), false)
      else (s, false)
    case TakeOver(rm, crm, resent) =>
      var kept := map i | i in s.inflight && !(i in resent && s.inflight[i].kind in {PUBACK, PUBCOMP}) :: s.inflight[i];
      if s.inflight != map[] && rm == 0 then (State(kept, 0, 0, 0, 0), false)
      else (State(kept, rm, rm, crm, crm), false)
  }

  /** The broker has answered this identifier with PUBREC and waits for its PUBREL. */
  predicate Awaits(s: State, id: nat) {
    id in s.inflight && s.inflight[id].kind == PUBREC
  }

  function Run(s: State, es: seq<Event>): (r: State)
    decreases |es|
  {
    if es == [] then s else Run(Step(s, es[0]).0, es[1..])
  }

  // ----- exactly once

  predicate IsQos2(e: Event, id: nat) {
    e.Publish? && e.id == id && e.qos == 2
  }

  /** How often QoS 2 messages with this identifier are passed on to the subscribers. */
  function Deliveries(s: State, es: seq<Event>, id: nat): (n: nat)
    decreases |es|
  {
    if es == [] then 0
    else (if IsQos2(es[0], id) && Step(s, es[0]).1 then 1 else 0) + Deliveries(Step(s, es[0]).0, es[1..], id)
  }

  /** While `id` is awaited: a step that neither ends the exchange nor acknowledges it as if
      the broker had sent it, and no message to the client that overwrites the answer. */
  predicate Quiet(s: State, e: Event, id: nat) {
    Awaits(s, id) ==>
      match e
      case Puback(i) => i != id
      case Pubrec(i, _, _, _) => i != id
      case Pubrel(i, _, _, _) => i != id
      case Pubcomp(i) => i != id
      case Outbound(i, _, _) => i != id
      case _ => true
  }

  predicate QuietRun(s: State, es: seq<Event>, id: nat)
    decreases |es|
  {
    es != [] ==> Quiet(s, es[0], id) && QuietRun(Step(s, es[0]).0, es[1..], id)
  }

  /** A PUBREC is never marked for sending at the next chance. */
  predicate Timed(s: State) {
    forall i :: i in s.inflight && s.inflight[i].kind == PUBREC ==> s.inflight[i].expiry >= 0
  }

  lemma TimedStep(s: State, e: Event)
    requires Timed(s)
    ensures Timed(Step(s, e).0)
  {
  }

  /** The answer outlives exactly the quiet steps, and none of them passes the message on. */
  lemma AwaitsExact(s: State, e: Event, id: nat)
    requires Timed(s) && Awaits(s, id)
    ensures Awaits(Step(s, e).0, id) <==> Quiet(s, e, id)
    ensures !(IsQos2(e, id) && Step(s, e).1)
  {
  }

  /** Once answered with PUBREC, re-sent messages are not passed on again. */
  lemma {:induction false} NoMoreDeliveries(s: State, es: seq<Event>, id: nat)
    requires Timed(s) && Awaits(s, id) && QuietRun(s, es, id)
    ensures Deliveries(s, es, id) == 0 && Awaits(Run(s, es), id)
    decreases |es|
  {
    if es != [] {
      TimedStep(s, es[0]);
      AwaitsExact(s, es[0], id);
      hide Step, Quiet;
      NoMoreDeliveries(Step(s, es[0]).0, es[1..], id);
    }
  }

  /** A first PUBLISH that gets as far as being answered. */
  predicate Answered(s: State, e: Event, id: nat) {
    IsQos2(e, id) && e.valid && e.permitted && e.accepted && s.receiveQuota != 0 && !Awaits(s, id)
  }

  /** What the answer of the first accepted PUBLISH decides: one delivery if its PUBREC
      could be written, none at all if not. */
  function Expected(s: State, es: seq<Event>, id: nat): (n: nat)
    decreases |es|
  {
    if es == [] then 0
    else if Answered(s, es[0], id) then (if es[0].written then 1 else 0)
    else Expected(Step(s, es[0]).0, es[1..], id)
  }

  lemma AnsweredStep(s: State, e: Event, id: nat)
    requires Answered(s, e, id)
    ensures Awaits(Step(s, e).0, id) && Step(s, e).1 == e.written
  {
  }

  lemma NotAnsweredStep(s: State, e: Event, id: nat)
    requires !Answered(s, e, id)
    ensures !(IsQos2(e, id) && Step(s, e).1)
  {
  }

  /** In every run without the PUBREL, however often the message is sent and whoever takes
      the session over, it is passed on exactly as often as the first answer decides. */
  lemma {:induction false} ExactlyOnce(s: State, es: seq<Event>, id: nat)
    requires Timed(s) && QuietRun(s, es, id)
    ensures Deliveries(s, es, id) == (if Awaits(s, id) then 0 else Expected(s, es, id)) <= 1
    decreases |es|
  {
    if Awaits(s, id) {
      NoMoreDeliveries(s, es, id);
    } else if es != [] {
      var s1 := Step(s, es[0]).0;
      TimedStep(s, es[0]);
      if Answered(s, es[0], id) {
        AnsweredStep(s, es[0], id);
        hide Step, Quiet;
        NoMoreDeliveries(s1, es[1..], id);
      } else {
        NotAnsweredStep(s, es[0], id);
        OnlyAnsweredAwaits(s, es[0], id);
        hide Step, Quiet, Answered;
        ExactlyOnce(s1, es[1..], id);
      }
    }
  }

  lemma OnlyAnsweredAwaits(s: State, e: Event, id: nat)
    requires !Awaits(s, id) && !Answered(s, e, id)
    ensures !Awaits(Step(s, e).0, id)
  {
  }

  /** Were an identifier taken between its allocation and its being stored, the answer would
      be overwritten, and the message sent again would be passed on again exactly when it is
      acceptable and can be answered: the identifiers of both directions share one table. */
  lemma OverwrittenAnswer(s: State, out: Event, again: Event, id: nat)
    requires Awaits(s, id) && out.Outbound? && out.id == id && IsQos2(again, id)
    ensures var overwritten := Step(s, out).0;
            && !Awaits(overwritten, id)
            && (Step(overwritten, again).1 <==>
                  again.valid && again.permitted && again.accepted && again.written && s.receiveQuota != 0)
  {
  }

  /** So every such run delivers twice, and only the overwriting is not quiet in it. */
  lemma DeliveredTwice(s: State, send: Event, out: Event, again: Event, id: nat)
    requires Answered(s, send, id) && send.written && out.Outbound? && out.id == id
    requires IsQos2(again, id) && again.valid && again.permitted && again.accepted && again.written
    requires Decreased(s.receiveQuota) != 0
    ensures Deliveries(s, [send, out, again], id) == 2
    ensures var s1 := Step(s, send).0; Quiet(s, send, id) && !Quiet(s1, out, id) && Quiet(Step(s1, out).0, again, id)
  {
    var s1 := Step(s, send).0;
    AnsweredStep(s, send, id);
    OverwrittenAnswer(s1, out, again, id);
    var es := [send, out, again];
    assert es[1..] == [out, again] && es[1..][1..] == [again] && [again][1..] == [];
    assert Deliveries(Step(s1, out).0, [again], id) == 1;
    assert Deliveries(s1, es[1..], id) == 1;
  }

  /** Every window of every run: between any two points with only quiet steps between
      them, a message is passed on at most once. */
  lemma AtMostOncePerWindow(s: State, es: seq<Event>, i: nat, j: nat, id: nat)
    requires Timed(s) && i <= j <= |es| && QuietRun(Run(s, es[..i]), es[i..j], id)
    ensures Deliveries(Run(s, es[..i]), es[i..j], id) <= 1
  {
    TimedRun(s, es[..i]);
    ExactlyOnce(Run(s, es[..i]), es[i..j], id);
  }

  lemma {:induction false} TimedRun(s: State, es: seq<Event>)
    requires Timed(s)
    ensures Timed(Run(s, es))
    decreases |es|
  {
    if es != [] {
      TimedStep(s, es[0]);
      TimedRun(Step(s, es[0]).0, es[1..]);
    }
  }

  // ----- the handlers

  class Session {
    var inflight: map<nat, Flight>
    var receiveQuota: int
    var maximumReceiveQuota: int
    var sendQuota: int
    var maximumSendQuota: int
    const ids: PacketIds.Allocator

    ghost function View(): (s: State)
      reads this
    {
      State(inflight, receiveQuota, maximumReceiveQuota, sendQuota, maximumSendQuota)
    }

    constructor (receiveMaximum: nat, clientReceiveMaximum: nat)
      ensures View() == State(map[], receiveMaximum, receiveMaximum, clientReceiveMaximum, clientReceiveMaximum)
      ensures fresh(ids) && ids.packetID == 0 && ids.maximum == 65535
    {
      inflight := map[];
      receiveQuota, maximumReceiveQuota := receiveMaximum, receiveMaximum;
      sendQuota, maximumSendQuota := clientReceiveMaximum, clientReceiveMaximum;
      ids := new PacketIds.Allocator(65535);
    }

    method DecreaseReceiveQuota()
      modifies this`receiveQuota
      ensures receiveQuota == Decreased(old(receiveQuota))
    {
      if receiveQuota > 0 { receiveQuota := receiveQuota - 1; }
    }

    method IncreaseReceiveQuota()
      modifies this`receiveQuota
      ensures receiveQuota == Increased(old(receiveQuota), maximumReceiveQuota)
    {
      if receiveQuota < maximumReceiveQuota { receiveQuota := receiveQuota + 1; }
    }

    method DecreaseSendQuota()
      modifies this`sendQuota
      ensures sendQuota == Decreased(old(sendQuota))
    {
      if sendQuota > 0 { sendQuota := sendQuota - 1; }
    }

    method IncreaseSendQuota()
      modifies this`sendQuota
      ensures sendQuota == Increased(old(sendQuota), maximumSendQuota)
    {
      if sendQuota < maximumSendQuota { sendQuota := sendQuota + 1; }
    }

    /** A PUBLISH from the client. */
    method ProcessPublish(e: Event) returns (delivered: bool)
      requires e.Publish?
      modifies this
      ensures (View(), delivered) == Step(old(View()), e)
    {
      if !e.valid { return false; }
      if receiveQuota == 0 { return false; }
      if !e.permitted { return false; }
      if e.id in inflight {
        if inflight[e.id].kind == PUBREC { return false; }
        inflight := inflight - {e.id};
      }
      assert inflight == old(inflight) - {e.id};
      if !e.accepted { return false; }
      if e.qos == 0 { return true; }
      DecreaseReceiveQuota();
      inflight := inflight[e.id := Flight(if e.qos == 2 then PUBREC else PUBACK, e.expiry)];
      if !e.written { return false; }
      if e.qos == 1 {
        inflight := inflight - {e.id};
        IncreaseReceiveQuota();
      }
      return true;
    }

    method ProcessPuback(id: nat)
      modifies this
      ensures View() == Step(old(View()), Puback(id)).0
    {
      if id !in inflight { return; }
      inflight := inflight - {id};
      IncreaseSendQuota();
    }

    method ProcessPubrec(e: Event)
      requires e.Pubrec?
      modifies this
      ensures View() == Step(old(View()), e).0
    {
      if e.id !in inflight { return; }
      if e.error {
        inflight := inflight - {e.id};
        return;
      }
      DecreaseReceiveQuota();
      inflight := inflight[e.id := Flight(PUBREL, e.expiry)];
    }

    method ProcessPubrel(e: Event)
      requires e.Pubrel?
      modifies this
      ensures View() == Step(old(View()), e).0
    {
      if e.id !in inflight { return; }
      if e.error {
        inflight := inflight - {e.id};
        return;
      }
      inflight := inflight[e.id := Flight(PUBCOMP, e.expiry)];
      if !e.written { return; }
      IncreaseReceiveQuota();
      IncreaseSendQuota();
      inflight := inflight - {e.id};
      assert inflight == old(inflight) - {e.id};
    }

    method ProcessPubcomp(id: nat)
      modifies this
      ensures View() == Step(old(View()), Pubcomp(id)).0
    {
      IncreaseReceiveQuota();
      IncreaseSendQuota();
      inflight := inflight - {id};
    }

    /** Stores and sends a message above QoS 0 to the client under an identifier allocated
        before, which by then may be in flight. */
    method SendWith(id: nat, expiry: nat, dropped: bool)
      modifies this
      ensures View() == Step(old(View()), Outbound(id, expiry, dropped)).0
    {
      var sentQuota, isNew := sendQuota, id !in inflight;
      inflight := inflight[id := Flight(PUBLISH, expiry)];
      if isNew { DecreaseSendQuota(); }
      if sentQuota == 0 && maximumSendQuota > 0 {
        inflight := inflight[id := Flight(PUBLISH, -1)];
        return;
      }
      if dropped {
        inflight := inflight - {id};
        IncreaseSendQuota();
      }
    }

    /** A message above QoS 0 to the client, without another handler in between: it takes an
        identifier that is not in flight, so the step is quiet for every exchange that is. */
    method PublishToClient(expiry: nat, dropped: bool) returns (sent: bool, id: nat)
      requires ids.packetID <= ids.maximum
      modifies this, ids
      ensures !sent ==> View() == old(View()) && forall i :: 1 <= i <= ids.maximum ==> i in inflight
      ensures sent ==> id !in old(inflight) && View() == Step(old(View()), Outbound(id, expiry, dropped)).0
      ensures sent ==> forall i :: Quiet(old(View()), Outbound(id, expiry, dropped), i)
      ensures ids.packetID <= ids.maximum
    {
      sent, id := ids.NextPacketID(inflight.Keys);
      if !sent {
        forall i | 1 <= i <= ids.maximum
          ensures i in inflight
        {
          assert !PacketIds.IsFree(i, inflight.Keys, ids.maximum);
        }
        return;
      }
      SendWith(id, expiry, dropped);
    }

    /** A new connection inherits the session without a clean start: it starts on a copy of
        what is in flight, re-sends it, and drops the answers it could re-send. */
    method Inherit(existing: Session, receiveMaximum: nat, clientReceiveMaximum: nat, resent: set<nat>)
      requires existing != this
      requires View() == State(map[], receiveMaximum, receiveMaximum, clientReceiveMaximum, clientReceiveMaximum)
      modifies this
      ensures View() == Step(existing.View(), TakeOver(receiveMaximum, clientReceiveMaximum, resent)).0
    {
      if |existing.inflight| > 0 {
        inflight := existing.inflight;
        receiveQuota, maximumReceiveQuota, sendQuota, maximumSendQuota := 0, 0, 0, 0;
        if maximumReceiveQuota == 0 && receiveMaximum != 0 {
          receiveQuota, maximumReceiveQuota := receiveMaximum, receiveMaximum;
          sendQuota, maximumSendQuota := clientReceiveMaximum, clientReceiveMaximum;
        }
      }
      Resend(resent);
    }

    /** Sends everything in flight again and drops the answers that went out. */
    method Resend(resent: set<nat>)
      modifies this`inflight
      ensures inflight == map i | i in old(inflight)
                                && !(i in resent && old(inflight)[i].kind in {PUBACK, PUBCOMP}) :: old(inflight)[i]
    {
      var todo := inflight.Keys;
      while todo != {}
        invariant todo <= inflight.Keys <= old(inflight).Keys
        invariant forall i :: i in inflight <==>
                    i in old(inflight)
                    && (i in todo || !(i in resent && old(inflight)[i].kind in {PUBACK, PUBCOMP}))
        invariant forall i :: i in inflight ==> inflight[i] == old(inflight)[i]
      {
        var i :| i in todo;
        if i in resent && inflight[i].kind in {PUBACK, PUBCOMP} {
          inflight := inflight - {i};
        }
        todo := todo - {i};
      }
    }
  }
}
