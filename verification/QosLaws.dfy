/** What the handlers do to messages, in-flight packets and quotas, told without the step
    function: when a message is passed on, what is left in flight, and that quotas come
    back. */
module QosLaws {
  import opened Qos

  // ----- passing on

  /** A PUBLISH that the broker takes: valid, permitted and accepted, within the quota, and
      not a repetition of one that it has answered with PUBREC. */
  predicate Taken(s: State, e: Event) {
    e.Publish? && e.valid && e.permitted && e.accepted && s.receiveQuota != 0
    && !(e.id in s.inflight && s.inflight[e.id].kind == PUBREC)
  }

  /** A message of any QoS is passed on exactly when it is taken and, above QoS 0, its answer
      could be written; nothing else is passed on. */
  lemma PassedOn(s: State, e: Event)
    requires e.Publish? ==> e.qos <= 2
    ensures Step(s, e).1 <==> Taken(s, e) && (e.qos == 0 || e.written)
  {
  }

  /** How many messages of a QoS are passed on in a run. */
  function Passed(s: State, es: seq<Event>, qos: nat): (n: nat)
    decreases |es|
  {
    if es == [] then 0
    else (if es[0].Publish? && es[0].qos == qos && Step(s, es[0]).1 then 1 else 0)
         + Passed(Step(s, es[0]).0, es[1..], qos)
  }

  /** How many of them could be passed on. */
  function Passable(s: State, es: seq<Event>, qos: nat): (n: nat)
    decreases |es|
  {
    if es == [] then 0
    else (if Taken(s, es[0]) && es[0].qos == qos && (qos == 0 || es[0].written) then 1 else 0)
         + Passable(Step(s, es[0]).0, es[1..], qos)
  }

  /** In every run, every one that could be is. */
  lemma {:induction false} AllPassed(s: State, es: seq<Event>, qos: nat)
    requires qos <= 2
    ensures Passed(s, es, qos) == Passable(s, es, qos)
    decreases |es|
  {
    hide Step, Taken;
    if es != [] {
      if es[0].Publish? && es[0].qos == qos { PassedOn(s, es[0]); }
      OnlyPublish(s, es[0]);
      AllPassed(Step(s, es[0]).0, es[1..], qos);
    }
  }

  lemma OnlyPublish(s: State, e: Event)
    ensures Taken(s, e) ==> e.Publish?
  {
  }

  // ----- what is left in flight

  /** A handler changes the entry of no other identifier. */
  lemma OthersKept(s: State, e: Event, i: nat)
    requires !e.TakeOver? && i != e.id
    ensures var t := Step(s, e).0;
            (i in t.inflight <==> i in s.inflight) && (i in s.inflight ==> t.inflight[i] == s.inflight[i])
  {
  }

  /** A taken message leaves nothing at QoS 0; its PUBACK only until that is written; its
      PUBREC in any case. One that is not taken changes nothing, but for the entry that it
      replaces when it is refused last. */
  lemma AfterPublish(s: State, e: Event)
    requires e.Publish? && e.qos <= 2
    ensures var t := Step(s, e).0;
            if Taken(s, e) then
              match e.qos
              case 0 => e.id !in t.inflight
              case 1 => if e.written then e.id !in t.inflight
                        else e.id in t.inflight && t.inflight[e.id] == Flight(PUBACK, e.expiry)
              case _ => e.id in t.inflight && t.inflight[e.id] == Flight(PUBREC, e.expiry)
            else if Taken(s, e.(accepted := true)) then e.id !in t.inflight && t.receiveQuota == s.receiveQuota
            else t == s
  {
  }

  /** PUBACK and PUBCOMP end an exchange, and so does PUBREL once its PUBCOMP is written;
      PUBREC goes on to PUBREL, and an error ends it. */
  lemma AfterAnswer(s: State, e: Event)
    ensures e.Puback? || e.Pubcomp? ==> e.id !in Step(s, e).0.inflight
    ensures e.Pubrec? && e.id in s.inflight ==>
              var t := Step(s, e).0;
              if e.error then e.id !in t.inflight
              else e.id in t.inflight && t.inflight[e.id] == Flight(PUBREL, e.expiry)
    ensures e.Pubrel? && e.id in s.inflight ==>
              var t := Step(s, e).0;
              if e.error || e.written then e.id !in t.inflight
              else e.id in t.inflight && t.inflight[e.id] == Flight(PUBCOMP, e.expiry)
    ensures (e.Puback? || e.Pubrec? || e.Pubrel?) && e.id !in s.inflight ==> Step(s, e).0 == s
  {
  }

  /** A message to the client stays in flight until it is acknowledged, marked for later when
      the client can take no more; only one that is dropped at once does not. */
  lemma AfterOutbound(s: State, e: Event)
    requires e.Outbound?
    ensures var t, later := Step(s, e).0, s.sendQuota == 0 && s.maximumSendQuota > 0;
            if e.dropped && !later then e.id !in t.inflight
            else e.id in t.inflight && t.inflight[e.id] == Flight(PUBLISH, if later then -1 else e.expiry)
  {
  }

  /** A take-over keeps everything in flight but the last answers that went out again. */
  lemma AfterTakeOver(s: State, e: Event, i: nat)
    requires e.TakeOver?
    ensures var t := Step(s, e).0;
            && (i in t.inflight <==> i in s.inflight && !(i in e.resent && s.inflight[i].kind in {PUBACK, PUBCOMP}))
            && (i in t.inflight ==> t.inflight[i] == s.inflight[i])
    ensures var t, none := Step(s, e).0, s.inflight != map[] && e.receiveMaximum == 0;
            && t.receiveQuota == t.maximumReceiveQuota == (if none then 0 else e.receiveMaximum)
            && t.sendQuota == t.maximumSendQuota == if none then 0 else e.clientReceiveMaximum
  {
  }

  /** A message marked for later goes out, and leaves the table, when the quota allows. */
  lemma AfterImmediate(s: State, e: Event)
    requires e.Immediate? && e.id in s.inflight
    ensures var t, goes := Step(s, e).0, s.inflight[e.id].expiry < 0 && s.sendQuota > 0;
            && (e.id in t.inflight <==> !goes)
            && t.sendQuota == s.sendQuota - if goes then 1 else 0
  {
  }

  /** Once the exchange is over, a new message under the same identifier is passed on. */
  lemma NewMessage(s: State, rel: Event, e: Event, id: nat)
    requires Bounded(s) && s.maximumReceiveQuota > 0 && Awaits(s, id)
    requires rel.Pubrel? && rel.id == id && !rel.error && rel.written
    requires IsQos2(e, id) && e.valid && e.permitted && e.accepted && e.written
    ensures Step(Step(s, rel).0, e).1
  {
  }

  // ----- quotas

  predicate Bounded(s: State) {
    0 <= s.receiveQuota <= s.maximumReceiveQuota && 0 <= s.sendQuota <= s.maximumSendQuota
  }

  /** Quotas never leave their bounds. */
  lemma {:induction false} BoundedRun(s: State, es: seq<Event>)
    requires Bounded(s)
    ensures Bounded(Run(s, es))
    decreases |es|
  {
    if es != [] {
      BoundedStep(s, es[0]);
      hide Step;
      BoundedRun(Step(s, es[0]).0, es[1..]);
    }
  }

  lemma BoundedStep(s: State, e: Event)
    requires Bounded(s)
    ensures Bounded(Step(s, e).0)
  {
  }

  /** A QoS 1 message gives its share of the quota back at once, a QoS 2 message with its
      PUBREL. */
  lemma QuotaReturned(s: State, e: Event, rel: Event)
    requires Bounded(s) && Taken(s, e) && e.written
    requires rel.Pubrel? && rel.id == e.id && !rel.error && rel.written
    ensures e.qos <= 1 ==> Step(s, e).0.receiveQuota == s.receiveQuota
    ensures e.qos == 2 ==> Step(s, e).0.receiveQuota == s.receiveQuota - 1
    ensures e.qos == 2 ==> Step(Step(s, e).0, rel).0.receiveQuota == s.receiveQuota
  {
  }

  /** A message to the client takes a share of the send quota, which its PUBACK gives back. */
  lemma SendQuotaReturned(s: State, e: Event)
    requires Bounded(s) && s.sendQuota > 0 && e.Outbound? && e.id !in s.inflight && !e.dropped
    ensures Step(s, e).0.sendQuota == s.sendQuota - 1
    ensures Step(Step(s, e).0, Puback(e.id)).0 == s
  {
    var t := Step(s, e).0;
    assert t.inflight - {e.id} == s.inflight;
  }

  function Min(a: int, b: int): (m: int) {
    if a < b then a else b
  }

  /** What acknowledgements do to quotas, as far as those are not at their bounds: PUBACK
      raises the send quota, PUBREC lowers the receive quota, PUBREL and PUBCOMP raise both. */
  lemma AnswerQuotas(s: State, e: Event)
    requires Bounded(s) && (e.Puback? || e.Pubrec? || e.Pubrel? || e.Pubcomp?)
    requires !e.Pubcomp? ==> e.id in s.inflight
    ensures var t := Step(s, e).0;
            var up := e.Pubcomp? || (e.Pubrel? && !e.error && e.written);
            && t.sendQuota == (if e.Puback? || up then Min(s.sendQuota + 1, s.maximumSendQuota) else s.sendQuota)
            && t.receiveQuota == (if up then Min(s.receiveQuota + 1, s.maximumReceiveQuota)
                                  else if e.Pubrec? && !e.error && s.receiveQuota > 0 then s.receiveQuota - 1
                                  else s.receiveQuota)
            && t.maximumSendQuota == s.maximumSendQuota && t.maximumReceiveQuota == s.maximumReceiveQuota
  {
  }
}
