# Comqtt in Dafny

A model of the parts of the comqtt MQTT broker that carry its hardest promises, with proofs.
Section numbers refer to MQTT Version 5.0.

| part | modules |
|---|---|
| levels of topics and filters; three matchers against section 4.7 | `Levels`, `Matching` |
| parent-linked trie on the heap, shared by both topic indexes | `PathTree` |
| local topic index: subscriptions, share groups, retained messages | `Subscriptions`, `Subscribers`, `TopicTables`, `TopicWalks`, `TopicsIndex` |
| routing trie of the cluster, and that it covers the local one | `ClusterTables`, `ClusterIndex`, `Routing` |
| wire codec | `Codec`, `FixedHeader`, `Properties`, `PropertyLaws`, `Packets`, `Connect` |
| sessions: packet identifiers, QoS 2, take-over, topic aliases | `PacketIds`, `Qos`, `QosLaws`, `TakeOver`, `Aliases` |
| replicated store, its log and its snapshots | `Store`, `Fsm`, `Peer` |
| relaying a publish to other nodes | `Relay` |

`dafny verify dfyconfig.toml` checks the whole project.

Code that changes state is modelled by classes and loops, specified by functions on values; the
properties are then proved of those functions and as class invariants. Each trie keeps a ghost
map from places to nodes and is refined against a flat table. Map iteration is an arbitrary
choice, so results hold for every order. Interleavings (take-over) and runs of handlers (QoS 2)
are state machines over atomic steps. Topics are sequences of runes in the topic modules and
sequences of bytes in the codec.

What is an input of the model: clocks and expiry times, whether a write succeeds, hook answers
(access control is a flag, other hooks permit), the random choice of a share member or node, the
result of gob and msgpack decoding, and the committed log itself.

## What the proofs found

- The local walk leaves out the parent match of a filter ending in `+/#` (mqtt/topics.go:629);
  the routing walk has it. Shared filters are not subject to the `$` rule locally.
- `Unsubscribe` answers whether the filter's place exists in the trie, not whether the client was
  subscribed (mqtt/topics.go:437-465).
- A client chosen for several share groups while also matching plainly can lose subscription
  identifiers (mqtt/topics.go:349-358); `MergedIdentifiers` gives the exact condition.
- The local trie takes the share prefix in any letter case, the routing trie only `$share/`; a
  filter written `$SHARE/...` is not routed to (cluster/topics/trie.go:244-254).
- Taking back a routing registration that was never made makes the leaf's count wrong, exactly when
  another registration stands on the leaf (cluster/topics/trie.go:90-144).
- Non-canonical variable byte integers are accepted (mqtt/packets/codec.go:146-177), and reason
  codes 1 to 127 without properties are dropped from acknowledgements (mqtt/packets/packets.go:720-728).
- A QoS 2 message whose PUBREC could not be written is never passed on, although re-sent messages
  are then refused as duplicates (mqtt/server.go:1000-1028).
- The comment on the hook call says that it is for topics without shared subscribers; a plain filter
  that merely starts with `$share` makes it fire twice (mqtt/server.go:1088-1117).
- A snapshot behind the applied index is only logged and loaded; a turn that then publishes from
  behind the last index published hands entries out again (cluster/raft/etcd/peer.go:500-502).
- Packet identifiers are allocated and stored without a common lock (mqtt/server.go:1161-1172); an
  answer overwritten in between makes a QoS 2 message go out twice.

Each of these has a lemma with its exact condition and most a lemma at a concrete input; see the
rows below that begin with "such".

## Model

| member | source | states |
|---|---|---|
| `Levels.IsolateParticle` | mqtt/topics.go:696-715 | the d-th level of the text split at '/', and whether another follows; past the end the last level repeats; nothing for a negative depth |
| `Levels.LevelsPlain` | mqtt/topics.go:696-715 | no level holds a separator, so the levels are the text cut at every one |
| `Levels.SplitInjective` | mqtt/topics.go:696-715 | two texts with the same levels are the same text, so a trie path stands for one filter |
| `Matching.FilterValid` | mqtt/topics.go:749-787 | a filter is accepted if and only if it is not empty, has `#` nowhere but at the end and, if shared, has a wildcard-free group and something behind it |
| `Matching.TopicValid` | mqtt/topics.go:749-787 | a topic accepted for publishing is free of wildcards and not under `$SYS` |
| `Matching.LocalMatchExact` | mqtt/topics.go:610-645 | the local walk matches a filter exactly when section 4.7.1 does, except the parent match of a filter ending in `+/#` (line 629) |
| `Matching.PlusParentMissed` | mqtt/topics.go:629-629 | such a filter: `+/#` on `a` matches by section 4.7 and by the routing walk, not by the local walk |
| `Matching.RetainMatchExact` | mqtt/topics.go:547-596 | the retained walk matches exactly as section 4.7.1 with `#` standing for one or more levels and top-level wildcards skipping `$SYS` |
| `Matching.RetainMatchLiteral` | mqtt/topics.go:556-561 | for a filter without wildcards the shortcut look-up and the walk agree: only the same topic matches |
| `Matching.ClusterMatchExact` | cluster/topics/trie.go:165-221 | the routing walk is section 4.7 in full, the rule for `$` topics included |
| `Matching.ClusterCoversLocal` | cluster/topics/trie.go:165-221 | every plain filter the local walk gathers is one the routing walk reports |
| `Matching.ClusterCoversLocalShared` | mqtt/topics.go:668-682 | a shared filter the local walk gathers is reported by the routing walk exactly when the `$` rule allows it; locally shared filters are not subject to that rule |
| `Matching.TopicMatchesFilter` | mqtt/server.go:1202-1228 | the matcher for stored retained messages is section 4.7 in full, for every filter text |
| `Matching.MatchesMultiLevelWildcard` | mqtt/server.go:1234-1250 | the levels agree with the first levels of the topic, both directions, whether the final `#` is still there or already removed |
| `Matching.MatchesSingleLevelWildcard` | mqtt/server.go:1253-1263 | same number of levels and agreement at each, both directions |
| `PathTree.Tree.Set` | mqtt/topics.go:496-513 | walks to the place of the text, adding empty nodes for exactly the missing prefixes; the parent-linked tree stays well formed and all other cells keep their values |
| `PathTree.Tree.Seek` | mqtt/topics.go:516-530 | finds the node of the text exactly when the tree has its place |
| `PathTree.Tree.AddChild` | mqtt/topics.go:802-832 | a new node linked to its parent both ways; all other links and cells unchanged |
| `PathTree.Tree.RemoveLeaf` | mqtt/topics.go:533-539 | cuts exactly one childless node off and keeps the tree well formed |
| `Subscriptions.MergeNext` | mqtt/packets/packets.go:254-274 | merging one more subscription in any order keeps: one of the merged ones, highest QoS, no-local if any has it, exactly the positive identifiers |
| `Subscriptions.MergeFirst` | mqtt/packets/packets.go:254-274 | merging a subscription with itself starts that invariant |
| `Subscribers.Matched.SelectShared` | mqtt/topics.go:331-346 | one member is chosen for every shared filter, and each chosen client holds the merge of exactly the filters it was chosen for |
| `Subscribers.Matched.MergeSharedSelected` | mqtt/topics.go:349-358 | the delivery map gains exactly the chosen clients; others are untouched |
| `Subscribers.MergedDelivers` | mqtt/topics.go:349-358 | a client is served with highest QoS and no-local of everything that matches it plainly or that it was chosen for; identifiers are complete unless it is both |
| `Subscribers.IdentifierLost` | mqtt/topics.go:349-358 | such a client: chosen for two groups with identifiers 1 and 2 while matching plainly, it loses the second |
| `Subscribers.MergedIdentifiers` | mqtt/topics.go:349-358 | a client chosen for several groups while also matching plainly keeps all identifiers if and only if only the filter its chosen record stands under has one |
| `TopicsIndex.TopicsIndex.Subscribe` | mqtt/topics.go:412-433 | the flat table gains or replaces exactly one entry, and for valid filters what is held for every other client, group or filter is unchanged; says whether it was new and how many clients share the filter and group; trie stays pruned and refines table and retained map |
| `TopicsIndex.TopicsIndex.Unsubscribe` | mqtt/topics.go:437-465 | the flat table loses exactly that entry, and for valid filters nothing held for another client, group or filter; the trie is pruned; the result says the filter's place existed, which it does whenever the entry did |
| `TopicTables.EntriesApart` | mqtt/topics.go:412-465 | for valid filters two subscriptions have one entry if and only if client and text agree, or both are shared with the same group and remaining levels |
| `TopicTables.PeersHold` | mqtt/topics.go:412-433 | the peers counted are the clients that hold the filter |
| `TopicTables.PlaceThere` | mqtt/topics.go:448-451 | what Unsubscribe's answer means: the place exists exactly when some stored filter or retain path lies at or below it |
| `TopicsIndex.TopicsIndex.CutAndTrim` | mqtt/topics.go:454-463 | taking one entry out of its node and pruning keeps the refinement and leaves no dead leaf |
| `TopicsIndex.TopicsIndex.Trim` | mqtt/topics.go:533-539 | removes only nodes without children, subscriptions and retain path, leaves no dead leaf, and ends by depth |
| `TopicsIndex.TopicsIndex.IsEmpty` | mqtt/topics.go:534-534 | the sum of lengths is zero exactly when the node holds nothing and has no child |
| `TopicsIndex.TopicsIndex.RetainMessage` | mqtt/topics.go:470-493 | the retained map gains, replaces or loses exactly that topic; -1 exactly when a retained message was there; table unchanged, trie pruned |
| `TopicsIndex.TopicsIndex.ExpireRetained` | mqtt/server.go:1925-1932 | the sweep removes the message and leaves its path; the refinement admits such stale paths |
| `TopicsIndex.TopicsIndex.GatherSubscriptions` | mqtt/topics.go:648-665 | one node's clients are merged in any order, passing over leading-wildcard filters for `$` topics |
| `TopicsIndex.TopicsIndex.GatherSharedSubscriptions` | mqtt/topics.go:668-682 | one node's shared subscriptions are listed under their full filter texts, nothing lost and nothing added |
| `TopicWalks.GatheredExact` | mqtt/topics.go:610-645 | the walk gathers at a filter's place exactly when the place exists and the filter matches |
| `TopicWalks.HiddenByDollarRule` | mqtt/topics.go:650-653 | passing over a filter by its first character is the rule of section 4.7.2 |
| `TopicsIndex.TopicsIndex.ScanSubscribers` | mqtt/topics.go:610-645 | from any node, collects exactly what stands at the matching places below it, on top of what was collected before |
| `TopicsIndex.TopicsIndex.Subscribers` | mqtt/topics.go:600-607 | exactly the clients with a matching plain filter in the table, each with the merge of exactly its matching subscriptions, and exactly the matching shared subscriptions by filter and client |
| `TopicWalks.SubscribersBySpec` | mqtt/topics.go:600-645 | for valid filters and wildcard-free topics: exactly the clients with a filter matching by section 4.7 (but for `+/#` on its parent), each with the merge of exactly those |
| `TopicWalks.SharedBySpec` | mqtt/topics.go:668-682 | the same for shared entries, to which the `$` rule does not apply |
| `TopicsIndex.ListedWell` | mqtt/topics.go:668-682 | the shared listing is what SelectShared expects |
| `TopicsIndex.TopicsIndex.ScanMessages` | mqtt/topics.go:547-596 | appends, once each, exactly the wanted retained messages below a node |
| `TopicsIndex.TopicsIndex.ScanWildcard` | mqtt/topics.go:564-585 | the same for a wildcard level, children in any order |
| `TopicsIndex.TopicsIndex.ScanAdjacent` | mqtt/topics.go:565-583 | the same for one child met by a wildcard level |
| `TopicsIndex.TopicsIndex.ScanLiteral` | mqtt/topics.go:587-595 | the same for a literal level |
| `TopicsIndex.TopicsIndex.Messages` | mqtt/topics.go:542-544 | once each, exactly the retained messages the filter matches, with subscription-only nodes and stale paths in the trie |
| `TopicWalks.MessagesBySpec` | mqtt/topics.go:542-596 | for valid filters: what Messages returns is section 4.7 with `#` for one or more levels and leading wildcards passing over `$SYS` |
| `ClusterTables.NameRestores` | cluster/topics/trie.go:244-263 | a filter is reported under its own text if and only if it does not have the share prefix without a second separator |
| `ClusterTables.RestoreShareFilter` | cluster/topics/trie.go:257-263 | one full name per group, in order |
| `ClusterTables.RemoveGroup` | cluster/topics/trie.go:121-126 | removes exactly one occurrence of the group, or nothing |
| `ClusterTables.RegisterCounted` | cluster/topics/trie.go:55-87 | registering keeps every leaf's count equal to its plain registrations plus its shared groups |
| `ClusterTables.UnregisterCounted` | cluster/topics/trie.go:90-144 | taking back keeps the counts right if the registration was there or the leaf was idle, and breaks them otherwise |
| `ClusterIndex.Index.Subscribe` | cluster/topics/trie.go:37-43 | the multiset of registrations gains one; counts, placement and absence of orphans are kept; the answer is always true |
| `ClusterIndex.Index.Unsubscribe` | cluster/topics/trie.go:46-52 | the multiset loses one; one leaf gives one registration up, leaves without any are pruned and all others are unchanged; the counts stay right if and only if the filter was registered or nothing stood on its leaf |
| `ClusterIndex.Index.Release` | cluster/topics/trie.go:115-129 | one leaf's count and groups go down; exact condition for the counts to stay right |
| `ClusterIndex.Index.Climb` | cluster/topics/trie.go:108-141 | up to the root, deletes only leaves without registrations, changes no other leaf, leaves no orphan, and keeps counts right or wrong as they were |
| `ClusterTables.ScannedExact` | cluster/topics/trie.go:165-221 | the walk visits a filter's place exactly when the place exists and the routing match holds |
| `ClusterTables.NamesExact` | cluster/topics/trie.go:147-221 | the names at the visited places are exactly the names of the live matching registrations |
| `ClusterIndex.Index.ScanLeaf` | cluster/topics/trie.go:165-221 | from any leaf and for every topic, appends exactly the names at the places the walk reads below it |
| `ClusterIndex.Index.Scan` | cluster/topics/trie.go:147-162 | in a balanced trie, appends exactly the names at the places read, which for topics without a level `#` are exactly the names of the live filters matching the topic |
| `ClusterTables.NamesBySpec` | cluster/topics/trie.go:147-263 | for valid filters and wildcard-free topics these are the registered texts themselves, exactly those matching by section 4.7 |
| `Routing.PlainIsRouted` | cluster/topics/trie.go:165-221 | every valid plain filter delivered to locally is routed to |
| `Routing.SharedIsRouted` | cluster/topics/trie.go:244-254 | for topics not starting with `$`, a shared filter delivered to locally is routed to if and only if it is written with the lower-case prefix |
| `Routing.UpperPrefixNotRouted` | cluster/topics/trie.go:244-254 | such a filter: `$SHARE/g/a` is delivered topic `a` locally and not routed to |
| `Codec.BigEndian` | mqtt/packets/codec.go:107-119 | two- and four-byte integers have their most significant byte first |
| `Codec.LengthPrefixed` | mqtt/packets/codec.go:97-105 | data has its length before it and is not changed |
| `Codec.VbiGroups` | mqtt/packets/codec.go:130-144 | seven bits a byte from the lowest group on, the high bit on all bytes but the last, no needless last byte |
| `Codec.RuneExact` | mqtt/packets/codec.go:54-57 | text is well formed if and only if it is a sequence of shortest encodings of Unicode scalar values |
| `Codec.EncodeLength` | mqtt/packets/codec.go:130-144 | the loop appends the canonical variable byte integer (section 1.5.5) |
| `Codec.DecodeLength` | mqtt/packets/codec.go:146-177 | the bit-shifting loop reads what the arithmetic definition reads, with the same errors, at most five bytes, and its test against 268435455 is never taken |
| `Codec.ReadLengthBound` | mqtt/packets/codec.go:146-177 | a value that is read fits its number of bytes and never exceeds 268435455 |
| `Codec.ReadVbi` | mqtt/packets/codec.go:130-177 | reading undoes writing for every length up to 268435455 and leaves what follows alone |
| `Codec.ReadCanonical` | mqtt/packets/codec.go:146-177 | the bytes read are those that would be written if and only if there is no superfluous last zero byte |
| `Codec.NotCanonical` | mqtt/packets/codec.go:146-177 | such bytes: 128, 0 are read as zero, which is written as one byte |
| `Codec.ReadString` | mqtt/packets/codec.go:40-57 | a text written in place is read back, with the offset right behind it |
| `Codec.ReadBytes` | mqtt/packets/codec.go:59-70 | the same for binary data |
| `Codec.ReadUint16` | mqtt/packets/codec.go:22-29 | the same for two-byte integers |
| `Codec.ReadUint32` | mqtt/packets/codec.go:31-38 | the same for four-byte integers |
| `FixedHeader.EncodeHeader` | mqtt/packets/fixedheader.go:21-24 | appends the header byte and the canonical remaining length |
| `FixedHeader.HeaderRoundTrip` | mqtt/packets/fixedheader.go:27-63 | a header is read back from its byte if and only if its flags are allowed for its type |
| `Properties.Encode` | mqtt/packets/properties.go:213-377 | the encoder's conditions, order and size checks produce the encoding of exactly the item list of the property set |
| `Properties.Decode` | mqtt/packets/properties.go:380-502 | the decoding loop equals the recursive reader on every byte string, type and start; each round moves on and the size stays within the buffer |
| `Properties.PropertiesRoundTrip` | mqtt/packets/properties.go:213-502 | for every packet type, receiver restriction and property set within the limits, reading what was written gives the normal form, uses exactly the bytes written and leaves the payload |
| `Properties.NormaliseWritten` | mqtt/packets/properties.go:213-377 | the normal form is what is written: encoding it again gives the same bytes |
| `PropertyLaws.CarriersExact` | mqtt/packets/properties.go:60-88 | the validity table, property number by property number |
| `PropertyLaws.OrderIs` | mqtt/packets/properties.go:213-377 | all 27 properties are written in the order of their numbers |
| `PropertyLaws.KindsAre` | mqtt/packets/properties.go:404-494 | how the value of each property is written |
| `PropertyLaws.NothingLost` | mqtt/packets/properties.go:213-377 | a receiver without restrictions gets exactly the fields that say something and that the packet may carry, with their values, all user properties and the positive identifiers |
| `PropertyLaws.Restricted` | mqtt/packets/properties.go:213-377 | problem information is taken away exactly from a receiver that wants none or when it does not fit, response properties exactly from one that may not have them, and nothing else is |
| `PropertyLaws.PositiveParts` | mqtt/packets/properties.go:246-253 | identifiers are kept one by one and in order |
| `PropertyLaws.ReadAdmissible` | mqtt/packets/properties.go:397-500 | whatever the bytes, only properties the packet may carry are read, each of its kind and within the limits; the first other one is refused with its error |
| `PropertyLaws.SectionAdmissible` | mqtt/packets/properties.go:380-502 | so every property section that is read leaves an admissible record |
| `Packets.PublishLayout` | mqtt/packets/packets.go:619-644 | where topic, packet id, properties and payload stand in the body (section 3.3) |
| `Packets.PublishRoundTrip` | mqtt/packets/packets.go:619-676 | a PUBLISH body is read back: topic, packet id above QoS 0, payload, normal properties in version 5 |
| `Packets.RelayRoundTrip` | cluster/agent.go:346-394 | a relayed PUBLISH arrives with topic, payload, QoS, dup, retain, packet id and normal properties, cut off exactly behind the fixed header |
| `Packets.AckRoundTrip` | mqtt/packets/packets.go:712-760 | an acknowledgement is read back; its reason code if and only if it is 0, an error, or accompanied by properties in version 5 |
| `Packets.AckLayout` | mqtt/packets/packets.go:712-733 | where packet id, reason code and properties stand (sections 3.4 to 3.7) |
| `Packets.ReasonLost` | mqtt/packets/packets.go:712-760 | such a code: 16 without properties comes back as 0, for every packet id and receiver |
| `Packets.OptionsRoundTrip` | mqtt/packets/packets.go:277-303 | subscription options are read back from their byte |
| `Packets.OptionsRefused` | mqtt/packets/packets.go:294-303 | options with a reserved bit and filters with QoS 3 are refused |
| `Packets.SubscribeLayout` | mqtt/packets/packets.go:900-935 | where packet id, properties and filters stand (section 3.8) |
| `Packets.FilterLayout` | mqtt/packets/packets.go:911-918 | each filter with its length before it and its options behind it |
| `Packets.SubscribeDecode` | mqtt/packets/packets.go:937-995 | the loop equals the recursive reader on every byte string and each round moves on |
| `Packets.SubscribeRoundTrip` | mqtt/packets/packets.go:900-995 | filters come back in order with their options and the packet's identifier |
| `Packets.SubscribePacketRoundTrip` | mqtt/packets/packets.go:900-935 | the packet as sent: its fixed header is read back with the length of exactly the bytes that follow, and those are the body |
| `Connect.ConnectLayout` | mqtt/packets/packets.go:306-345 | where protocol name, version, flag bits, keep-alive, properties and client identifier stand (section 3.1.2) |
| `Connect.WillLayout` | mqtt/packets/packets.go:335-345 | where will properties, topic and payload stand |
| `Connect.CredentialsLayout` | mqtt/packets/packets.go:347-353 | user name before password, each only when announced |
| `Connect.PayloadOrder` | mqtt/packets/packets.go:333-353 | will, user name and password come behind the client identifier |
| `Connect.FirstErrors` | mqtt/packets/packets.go:361-370 | too few bytes are refused with the error of the first part |
| `Connect.NoUsername` | mqtt/packets/packets.go:426-429 | a body that announces a user name and ends before it is refused as such |
| `Connect.FlagsRoundTrip` | mqtt/packets/packets.go:312-385 | the connect flags are read back from their byte, the reserved bit clear |
| `Connect.ReadWill` | mqtt/packets/packets.go:330-415 | the will section is read back in place, with its own property section in normal form |
| `Connect.ReadCredentials` | mqtt/packets/packets.go:342-440 | user name and password are read back as announced |
| `Connect.ConnectRoundTrip` | mqtt/packets/packets.go:306-445 | a CONNECT is read back with everything its flags announce and both property sections in normal form |
| `PacketIds.Allocator.NextPacketID` | mqtt/clients.go:302-328 | ends; gives the first free identifier in cyclic order after the cursor; fails exactly when all of 1..maximum are in use |
| `PacketIds.DistinctInARow` | mqtt/server.go:1160-1175 | as many calls in a row as there are free identifiers give distinct ones, though nothing is stored between them |
| `PacketIds.GoingRound` | mqtt/clients.go:302-328 | calls in a row take the free identifiers in their cyclic order, leaving none out |
| `Qos.ExactlyOnce` | mqtt/server.go:912-1028 | in every run of handlers without the PUBREL, take-overs included, a QoS 2 message is passed on exactly as often as its first answer decides: once if the PUBREC was written, else never |
| `Qos.NoMoreDeliveries` | mqtt/server.go:940-951 | once answered with PUBREC, no re-sent message is passed on, and the answer stays in flight |
| `Qos.AwaitsExact` | mqtt/server.go:940-951 | a step keeps the answer in flight if and only if it is quiet for that identifier: the run condition is exact |
| `Qos.AtMostOncePerWindow` | mqtt/server.go:912-1028 | at most once in every stretch of every run whose steps are quiet |
| `Qos.OverwrittenAnswer` | mqtt/server.go:1160-1175 | whenever an outgoing message takes an awaited identifier, the message sent again is passed on again if and only if it is acceptable and answered |
| `Qos.DeliveredTwice` | mqtt/server.go:1160-1175 | every run of an answered message, such an overwriting and the message again delivers twice, and only the overwriting is not quiet |
| `QosLaws.PassedOn` | mqtt/server.go:912-1028 | a message of any QoS is passed on if and only if it is valid, permitted, accepted, within the quota, not one answered with PUBREC, and its answer, above QoS 0, was written |
| `QosLaws.AllPassed` | mqtt/server.go:912-1028 | in every run, as many messages of each QoS are passed on as could be |
| `QosLaws.OthersKept` | mqtt/server.go:912-1440 | no handler changes the entry of another identifier |
| `QosLaws.AfterPublish` | mqtt/server.go:940-1025 | what a PUBLISH leaves in flight, for each QoS, answered or not, and when refused |
| `QosLaws.AfterAnswer` | mqtt/server.go:1361-1438 | what each acknowledgement leaves in flight |
| `QosLaws.AnswerQuotas` | mqtt/server.go:1361-1438 | what each acknowledgement does to both quotas |
| `QosLaws.AfterOutbound` | mqtt/server.go:1160-1197 | what a message to the client leaves in flight, sent, marked for later or dropped |
| `QosLaws.AfterImmediate` | mqtt/server.go:773-782 | a message marked for later goes out and leaves the table when the quota allows |
| `QosLaws.AfterTakeOver` | mqtt/server.go:578-587 | what a take-over keeps in flight, and the quotas it starts with |
| `QosLaws.NewMessage` | mqtt/server.go:1396-1425 | after the PUBREL a new message under the same identifier is passed on |
| `QosLaws.BoundedRun` | mqtt/inflight.go:133-176 | quotas stay within 0 and their maximum over every run |
| `QosLaws.QuotaReturned` | mqtt/server.go:1000-1022 | a QoS 1 message gives its share of the receive quota back at once, a QoS 2 message with its PUBREL |
| `QosLaws.SendQuotaReturned` | mqtt/server.go:1361-1373 | the PUBACK of a message to the client restores the session as it was before the message |
| `Qos.Session.ProcessPublish` | mqtt/server.go:912-1028 | the handler is the step of the state machine: early returns, in-flight table, quota, and whether the message is passed on |
| `Qos.Session.ProcessPuback` | mqtt/server.go:1361-1373 | likewise for PUBACK |
| `Qos.Session.ProcessPubrec` | mqtt/server.go:1376-1393 | likewise for PUBREC |
| `Qos.Session.ProcessPubrel` | mqtt/server.go:1396-1425 | likewise for PUBREL |
| `Qos.Session.ProcessPubcomp` | mqtt/server.go:1428-1438 | likewise for PUBCOMP |
| `Qos.Session.SendWith` | mqtt/server.go:1169-1197 | storing and sending under an identifier allocated before, in flight by then or not, is the step |
| `Qos.Session.PublishToClient` | mqtt/server.go:1160-1197 | with no handler between allocation and storing, the identifier is not in flight and the step is quiet for all; not sent exactly when none is free |
| `Qos.Session.Inherit` | mqtt/server.go:571-590 | a take-over without clean start continues on a copy of what was in flight, with the quotas reset as the code does |
| `Qos.Session.Resend` | mqtt/clients.go:331-356 | re-sending drops exactly the PUBACKs and PUBCOMPs that went out |
| `TakeOver.LiveIsRegistered` | mqtt/server.go:459-472 | in every interleaving of connects, CONNACK failures, disconnects, clean-ups and sweeps, a client past CONNACK and not stopped is the one in the map, so there is at most one |
| `TakeOver.NoStaleCleanup` | mqtt/server.go:497-501 | outside a take-over an entry is removed only by its own client or the sweep, and only if that client is stopped or could not be acknowledged |
| `TakeOver.TakeOverRemovesNoActive` | mqtt/server.go:571-577 | the unconditional delete and the add of a take-over never hit a client that is still active |
| `TakeOver.Acknowledged` | mqtt/server.go:466-472 | after every run, a CONNACK that goes out makes the client live and, unless stopped, the one in the map; one that fails leads out of the map |
| `TakeOver.CleanedUp` | mqtt/clients.go:99-107 | withdrawal, clean-up and sweep remove the entry exactly when it still is that client's |
| `TakeOver.EndOfSession` | mqtt/server.go:486-501 | a session that ends with its connection is cleaned up if and only if it was not taken over |
| `TakeOver.SweptAway` | mqtt/server.go:1903-1921 | a sweep removes a stopped client |
| `TakeOver.GivenUp` | mqtt/server.go:472-489 | a connection that gives up is stopped |
| `TakeOver.ConnectGoesThrough` | mqtt/server.go:459-476 | from every state with the lock free a connect can go through: the new client is live and in the map, and exactly the one that was there is stopped and marked as taken over |
| `TakeOver.RunInv` | mqtt/server.go:459-506 | the invariant behind both: lock, registration of active clients, staleness of whatever may be cleaned up |
| `TakeOver.ActiveStep` | mqtt/server.go:459-506 | each atomic step keeps every active client registered and no take-over past its look-up |
| `TakeOver.StaleStep` | mqtt/server.go:1903-1921 | each step keeps every client open to clean-up stopped |
| `TakeOver.Clients.Add` | mqtt/clients.go:57-61 | sets one identifier's entry; other identifiers untouched |
| `TakeOver.Clients.Delete` | mqtt/clients.go:91-95 | removes one identifier's entry, whoever holds it |
| `TakeOver.Clients.CompareAndDelete` | mqtt/clients.go:99-107 | deletes exactly when the map still holds that client; other identifiers untouched |
| `Store.RemoveWhileRanging` | cluster/raft/base.go:96-103 | shifting the array while ranging over it, whose last element is then seen twice, removes exactly one value from a list without duplicates |
| `Store.Append` | cluster/raft/base.go:82-82 | Go's append, in place or in a copy, appends one value |
| `Store.KV.Add` | cluster/raft/base.go:75-88 | adds one pair; true exactly when the key is new; lists stay free of duplicates and arrays unshared |
| `Store.KV.Del` | cluster/raft/base.go:92-110 | removes one pair, or the whole key for the empty value; true exactly when the key goes away |
| `Store.KV.DelFrom` | cluster/raft/base.go:121-131 | one turn of the loop over the keys |
| `Store.KV.DelByValue` | cluster/raft/base.go:114-134 | removes the value from every list in any key order and counts the lists that had it; nothing for the empty value |
| `Store.KV.GetAll` | cluster/raft/base.go:40-48 | a copy of all lists |
| `Store.KV.Restore` | cluster/raft/base.go:53-65 | replaces the store by the decoded lists on fresh arrays; unchanged on a decoding error |
| `Store.AddedIs` | cluster/raft/base.go:75-88 | as a set of pairs: exactly one added; keys exist if and only if their list is non-empty, no duplicates |
| `Store.DeletedIs` | cluster/raft/base.go:92-110 | as a set of pairs: exactly one, or all of the key, removed |
| `Store.PurgedIs` | cluster/raft/base.go:114-134 | as a set of pairs: exactly the pairs with the value removed |
| `Fsm.Fsm.Apply` | cluster/raft/hashicorp/fsm.go:33-57 | the store changes as the entry says; the listener is told exactly of filters coming in or going away |
| `Fsm.ReplayOutcome` | cluster/raft/hashicorp/fsm.go:33-57 | whether a pair is held after a log is decided by the last entry that touches it |
| `Fsm.ReplayTwice` | cluster/raft/hashicorp/fsm.go:33-57 | applying a stretch of the log a second time changes no pair |
| `Fsm.FuzzySnapshot` | cluster/raft/hashicorp/fsm.go:67-100 | a snapshot labelled i but written after j entries, restored and followed by the log after i, gives the same filters and nodes as one full replay |
| `Fsm.OrderNotRestored` | cluster/raft/hashicorp/fsm.go:67-100 | the order within a list may differ: a concrete log |
| `Peer.Peer.OnlyNewEntries` | cluster/raft/etcd/peer.go:479-491 | of any stretch of the log exactly the entries beyond appliedIndex are left, wrap-around included; refused exactly on a gap or when the index cannot grow |
| `Peer.Peer.PublishEntries` | cluster/raft/etcd/peer.go:513-563 | the batch brings the store up to its end; refused exactly when stopped with data to send, and then nothing changes; appliedIndex is the last entry |
| `Peer.Peer.PublishSnapshot` | cluster/raft/etcd/peer.go:493-509 | the snapshot replaces the store and sets both indexes, also when it goes back; the empty one does nothing |
| `Peer.Peer.Ready` | cluster/raft/etcd/peer.go:364-388 | one turn: exactly when it is fatal or given up, which entries are published, where the indexes end, and that order is kept if and only if publishing starts behind the last index published |
| `Peer.Peer.EventLoop` | cluster/raft/etcd/peer.go:357-398 | over any sequence of overlapping stretches and snapshots: how many turns it gets through and why it ends, appliedIndex and every index published as functions of the turns, the store reflecting the log exactly up to appliedIndex, and each entry once and in order if and only if no turn publishes from behind |
| `Peer.PayloadsSent` | cluster/raft/etcd/peer.go:518-529 | what is sent are the data of exactly the normal entries that are not empty, one by one and in order |
| `Peer.Peer.StoreHas` | cluster/raft/etcd/peer.go:513-563 | so the store has got exactly those of the log up to appliedIndex |
| `Peer.OrderExact` | cluster/raft/etcd/peer.go:513-563 | a stretch continues the order if and only if it starts at or after the last index published |
| `Peer.RunOrdered` | cluster/raft/etcd/peer.go:357-398 | over every run of turns the published indexes are increasing if and only if no turn publishes from behind the last one |
| `Peer.ForwardIsOrdered` | cluster/raft/etcd/peer.go:500-502 | snapshots that never lie behind appliedIndex are enough |
| `Peer.BackwardSnapshot` | cluster/raft/etcd/peer.go:500-502 | such a run: entry 2 is published twice after a snapshot at index 1 |
| `Relay.Deliver` | mqtt/server.go:1073-1112 | the record of shared filters: which keys it has, and when a filter is marked delivered or not, clients in any order |
| `Relay.PublishToSubscribers` | mqtt/server.go:1060-1118 | how often the cluster hook is called, exactly: never for relayed packets, once with shared subscribers, twice only for a plain filter starting with `$share` |
| `Relay.HookFiresTwice` | mqtt/server.go:1088-1117 | such a publish: topic and plain filter `$sharebox` |
| `Relay.PickNodes` | cluster/agent.go:496-522 | a plain filter's nodes as they are; for a shared filter one node, and none if the local node holds it or has delivered |
| `Relay.Deduplicate` | cluster/agent.go:452-457 | each filter once, none lost |
| `Relay.ProcessOutboundPublish` | cluster/agent.go:436-473 | each node at most once, the local node never, exactly the nodes some matching filter asks for, every node of a plain filter, and none for a shared filter delivered locally or held by the local node |
| `Relay.RelayPublish` | mqtt/server.go:1060-1118 | all copies of one publish: no node twice unless the hook is called twice, and then every plain node exactly twice; none for relayed packets |
| `Aliases.Outbound.Set` | mqtt/topics.go:84-105 | aliases count up from 1 within the maximum, are injective and stable; a full table gives none |
| `Aliases.Inbound.Set` | mqtt/topics.go:50-63 | resolves a known alias or learns one |
| `Aliases.Outbound.Name` | mqtt/server.go:1149-1158 | the topic is left out only when the receiver has been told its alias |
| `Aliases.Inbound.Resolve` | mqtt/server.go:954-959 | the topic of an incoming PUBLISH with or without alias |
| `Aliases.Exchange` | mqtt/server.go:1149-1158 | one message keeps both tables in agreement and delivers its topic |
| `Aliases.Transfer` | mqtt/topics.go:50-105 | over any lossless in-order sequence the receiver recovers every topic; equal aliases mean equal topics |

## Left out

- TopicsIndex.TopicsIndex.RetainMessage: not for the empty topic, which never gets there: PUBLISH validation and alias resolution refuse it (mqtt/packets/packets.go:696-698, mqtt/server.go:956-958). An empty retain path says that there is none, so such a message would not be found.
- TopicsIndex.TopicsIndex.Subscribe: the stored subscription has no merged identifiers yet, as decoding leaves it; sharing of the identifier map between copies is modelled by value.
- TopicsIndex.TopicsIndex.Trim: inline subscriptions are not modelled; the code does not count them either when pruning (mqtt/topics.go:534).
- ClusterIndex.Index.Scan: while the trie is balanced, whose exact condition is stated on Unsubscribe.
- Routing.PlainIsRouted: about the two walks over the same filters; that the routing trie knows every remote filter is not claimed, since only a key's first node is announced (cluster/raft/base.go:75-88).
- Relay.PublishToSubscribers: the record handed to the hook is a value; the code hands over the map it goes on filling. Wills use a hook call of their own and are left out.
- TakeOver.LiveIsRegistered: passive disconnects off and one node; connects on other nodes are left out.
- Qos.ExactlyOnce: no expiry sweep of in-flight messages within the run.
- Qos.Session.PublishToClient: about a call with no other handler between allocation and storing; with one, storing is `SendWith` for whatever identifier was allocated. No claim is made on exact send-quota accounting.
- TakeOver.NoStaleCleanup: about the clients map; that the clean-up also unsubscribes by identifier is not modelled, nor does the expiry sweep clean the trie.
- Properties.Encode: the property record is a map from property keys to values rather than a record of 37 fields.
- Packets.PublishRoundTrip: headers and bodies are written and read as values; the code assigns fields and fills buffers.
- Fsm.Fsm.Apply: notifications are told, not queued; a full channel drops them.
- Inline subscriptions, wills and their delay, `$SYS` topics, statistics and listeners: side paths whose counts differ from the main flow.
- CONNACK, SUBACK, UNSUBSCRIBE, UNSUBACK, DISCONNECT, AUTH and PING packets, and packet validation: the same readers and writers once more.
- `UnsubscribeClient`, `ClearInflights`, reading the rest of a packet from the network, ordering of in-flight messages: loops over what is modelled here.
- Storage hooks, bridges, authentication plugins, configuration, dashboards: thin wrappers over other systems.
- Raft consensus, gossip, gRPC, write-ahead log and serialisation: a committed ordered log and lossless serialisation are taken as given.
- Other topic matchers (plugins, access-control ledger): not on the delivery path.
