/** Topic aliases (section 3.3.2.3.4 of MQTT Version 5.0): the table a sender fills and the
    table the receiver keeps from what it is sent. */
module Aliases {
  import opened Codec

  /** The part of a PUBLISH that names the topic; alias 0 stands for no alias. */
  datatype Publish = Publish(topicName: string, alias: uint16)

  class Outbound {
    var internal: map<string, uint16>
    var cursor: uint32
    const maximum: uint16

    /** Aliases are handed out upwards from 1, within the maximum, and to one topic each. */
    ghost predicate Valid()
      reads this
    {
      && cursor <= maximum
      && (forall t :: t in internal ==> 1 <= internal[t] <= cursor)
      && (forall t, u :: t in internal && u in internal && internal[t] == internal[u] ==> t == u)
    }

    constructor (maximum: uint16)
      ensures Valid() && this.maximum == maximum && internal == map[] && cursor == 0
    {
      this.maximum := maximum;
      internal, cursor := map[], 0;
    }

    /** The alias of a topic and whether it was there before; a topic that has one keeps it,
        and with the table full a new topic gets none. */
    method Set(topic: string) returns (alias: uint16, existed: bool)
      requires Valid()
      modifies this
      ensures Valid()
      ensures alias <= maximum
      ensures existed <==> topic in old(internal)
      ensures existed ==> internal == old(internal) && alias == internal[topic]
      ensures !existed && old(cursor) < maximum ==>
                alias == old(cursor) + 1 && cursor == alias && internal == old(internal)[topic := alias]
      ensures !existed && old(cursor) >= maximum ==> alias == 0 && internal == old(internal) && cursor == old(cursor)
    {
      if maximum == 0 {
        return 0, false;
      }
      if topic in internal {
        return internal[topic], true;
      }
      var i := cursor;
      if i + 1 > maximum {
        return 0, false;
      }
      internal := internal[topic := i + 1];
      cursor := i + 1;
      return i + 1, false;
    }

    /** Names the topic of an outgoing PUBLISH: by its alias alone once the receiver has
        been told the alias. */
    method Name(topic: string) returns (pk: Publish)
      requires Valid()
      modifies this
      ensures Valid()
      ensures pk.alias <= maximum
      ensures if topic in old(internal) then internal == old(internal) && pk == Publish("", internal[topic])
              else if old(cursor) < maximum then
                pk == Publish(topic, old(cursor) + 1) && internal == old(internal)[topic := pk.alias]
              else pk == Publish(topic, 0) && internal == old(internal)
    {
      pk := Publish(topic, 0);
      if maximum > 0 {
        var alias, existed := Set(topic);
        if alias > 0 {
          pk := Publish(if existed then "" else topic, alias);
        }
      }
    }
  }

  class Inbound {
    var internal: map<uint16, string>
    const maximum: uint16

    constructor (maximum: uint16)
      ensures this.maximum == maximum && internal == map[]
    {
      this.maximum := maximum;
      internal := map[];
    }

    method Set(id: uint16, topic: string) returns (resolved: string)
      modifies this
      ensures maximum == 0 ==> resolved == topic && internal == old(internal)
      ensures maximum > 0 && topic == "" && id in old(internal) ==>
              resolved == old(internal)[id] && internal == old(internal)
      ensures maximum > 0 && !(topic == "" && id in old(internal)) ==>
              resolved == topic && internal == old(internal)[id := topic]
    {
      if maximum == 0 {
        return topic;
      }
      if id in internal && topic == "" {
        return internal[id];
      }
      internal := internal[id := topic];
      return topic;
    }

    /** The topic of an incoming PUBLISH. */
    method Resolve(pk: Publish) returns (topic: string)
      modifies this
      ensures pk.alias == 0 ==> topic == pk.topicName && internal == old(internal)
      ensures maximum > 0 && pk.alias > 0 && pk.topicName == "" && pk.alias in old(internal) ==>
                topic == old(internal)[pk.alias] && internal == old(internal)
      ensures maximum > 0 && pk.alias > 0 && !(pk.topicName == "" && pk.alias in old(internal)) ==>
                topic == pk.topicName && internal == old(internal)[pk.alias := topic]
    {
      topic := pk.topicName;
      if pk.alias > 0 {
        topic := Set(pk.alias, pk.topicName);
      }
    }
  }

  /** The receiver knows every alias the sender has given out, and no other. */
  ghost predicate Agree(sender: map<string, uint16>, receiver: map<uint16, string>) {
    && (forall t :: t in sender ==> sender[t] in receiver && receiver[sender[t]] == t)
    && (forall id :: id in receiver ==> receiver[id] in sender && sender[receiver[id]] == id)
  }

  lemma AgreeNext(sender: map<string, uint16>, receiver: map<uint16, string>, topic: string, alias: uint16)
    requires Agree(sender, receiver) && topic !in sender && forall t :: t in sender ==> sender[t] != alias
    ensures Agree(sender[topic := alias], receiver[alias := topic])
  {
  }

  /** Every message sent with an alias has the alias that the table gives its topic. */
  ghost predicate FromTable(wire: seq<Publish>, topics: seq<string>, table: map<string, uint16>)
    requires |wire| <= |topics|
  {
    forall k :: 0 <= k < |wire| && wire[k].alias > 0 ==> topics[k] in table && table[topics[k]] == wire[k].alias
  }

  lemma FromTableNext(wire: seq<Publish>, topics: seq<string>, table: map<string, uint16>, next: map<string, uint16>,
                      pk: Publish)
    requires |wire| < |topics| && FromTable(wire, topics, table)
    requires forall t :: t in table ==> t in next && next[t] == table[t]
    requires pk.alias > 0 ==> topics[|wire|] in next && next[topics[|wire|]] == pk.alias
    ensures FromTable(wire + [pk], topics, next)
  {
  }

  /** A message carries its topic, or no topic and an alias within the maximum. */
  predicate Named(pk: Publish, topic: string, maximum: uint16) {
    pk.alias <= maximum && (pk.topicName == topic || (pk.topicName == "" && pk.alias > 0))
  }

  /** One message from the sender to the receiver. */
  method Exchange(sender: Outbound, receiver: Inbound, topic: string) returns (pk: Publish, received: string)
    requires sender.Valid() && sender.maximum == receiver.maximum && Agree(sender.internal, receiver.internal)
    modifies sender, receiver
    ensures sender.Valid() && Agree(sender.internal, receiver.internal)
    ensures received == topic && Named(pk, topic, sender.maximum)
    ensures pk.alias > 0 ==> topic in sender.internal && sender.internal[topic] == pk.alias
    ensures forall t :: t in old(sender.internal) ==>
            t in sender.internal && sender.internal[t] == old(sender.internal)[t]
  {
    ghost var sent, known := sender.internal, receiver.internal;
    pk := sender.Name(topic);
    if pk.alias > 0 && topic !in sent { AgreeNext(sent, known, topic, pk.alias); }
    received := receiver.Resolve(pk);
  }

  /** Over a lossless connection that keeps the order, the receiver recovers the topic of
      every message, whatever the topics and the maximum; two messages that carry aliases
      carry the same one exactly when they have the same topic. */
  method Transfer(topics: seq<string>, maximum: uint16) returns (wire: seq<Publish>, received: seq<string>)
    ensures received == topics && |wire| == |topics|
    ensures forall i :: 0 <= i < |wire| ==> Named(wire[i], topics[i], maximum)
    ensures forall i, j :: 0 <= i < |wire| && 0 <= j < |wire| && wire[i].alias > 0 && wire[j].alias > 0 ==>
              (wire[i].alias == wire[j].alias <==> topics[i] == topics[j])
  {
    var sender := new Outbound(maximum);
    var receiver := new Inbound(maximum);
    assert Agree(sender.internal, receiver.internal);
    hide Agree, Named;
    wire, received := [], [];
    for i := 0 to |topics|
      invariant sender.Valid() && sender.maximum == receiver.maximum == maximum
      invariant Agree(sender.internal, receiver.internal)
      invariant received == topics[..i] && |wire| == i
      invariant forall k :: 0 <= k < i ==> Named(wire[k], topics[k], maximum)
      invariant FromTable(wire, topics, sender.internal)
    {
      ghost var sent := sender.internal;
      var pk, topic := Exchange(sender, receiver, topics[i]);
      FromTableNext(wire, topics, sent, sender.internal, pk);
      wire, received := wire + [pk], received + [topic];
    }
  }
}
