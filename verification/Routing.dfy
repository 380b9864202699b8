/** Whether the cluster routing walk reports what the local walk delivers. */
module Routing {
  import opened Levels
  import opened Matching
  import opened TopicWalks
  import opened ClusterTables

  /** Whether the routing trie, holding a filter, reports it for a topic. */
  predicate Routed(filter: string, topic: string) {
    ClusterMatch(Split(ConvertSharedFilter(filter).filter), Split(topic), true)
  }

  lemma SplitAt(s: string, i: nat)
    requires i < |s| && s[i] == '/' && '/' !in s[..i]
    ensures Split(s) == [s[..i]] + Split(s[i + 1..])
  {
  }

  lemma SplitPrefix(filter: string)
    requires HasPrefix(filter, SHARE)
    ensures Split(filter) == ["$share"] + Split(filter[|SHARE|..])
  {
    assert filter[..|SHARE|][..6] == filter[..6] && filter[..|SHARE|][6] == filter[6];
    assert SHARE[..6] == "$share" && SHARE[6] == '/';
    SplitAt(filter, 6);
  }

  lemma SharedPrefix(filter: string)
    requires HasPrefix(filter, SHARE)
    ensures IsSharedFilter(filter)
  {
    SplitPrefix(filter);
    hide Split;
  }

  /** Both tries take the same levels of a shared filter written with the lower prefix. */
  lemma SharedLevels(filter: string)
    requires HasPrefix(filter, SHARE) && '/' in filter[|SHARE|..]
    ensures PathFrom(filter, 2) == Split(ConvertSharedFilter(filter).filter)
  {
    hide Split;
    var rest := filter[|SHARE|..];
    var end := IndexOf(rest, '/');
    SplitPrefix(filter);
    SplitAt(rest, end);
    assert rest[end + 1..] == filter[|SHARE| + end + 1..];
    assert Split(filter) == ["$share", rest[..end]] + Split(rest[end + 1..]);
  }

  lemma PlainNotConverted(filter: string)
    requires !IsSharedFilter(filter)
    ensures ConvertSharedFilter(filter) == Reg("", filter)
  {
    if HasPrefix(filter, SHARE) { SharedPrefix(filter); }
  }

  /** Every plain filter delivered to locally is routed to by the cluster. */
  lemma PlainIsRouted(filter: string, topic: string)
    requires IsValidFilter(filter, false) && !IsSharedFilter(filter)
    requires topic != "" && '+' !in topic && '#' !in topic
    requires FilterMatches(filter, topic)
    ensures Routed(filter, topic)
  {
    PlainNotConverted(filter);
    ValidFilterHashLast(filter);
    WildcardFreeText(topic);
    ClusterCoversLocal(Split(filter), Split(topic));
  }

  /** A shared filter delivered to locally, for a topic not starting with '$', is routed
      to exactly when its prefix is written in lower case: the local trie takes the
      prefix in any case, the routing trie only as "$share/". */
  lemma SharedIsRouted(filter: string, topic: string)
    requires IsValidFilter(filter, false) && IsSharedFilter(filter)
    requires topic != "" && '+' !in topic && '#' !in topic && topic[0] != '$'
    requires LocalMatch(PathFrom(filter, 2), Split(topic))
    ensures Routed(filter, topic) <==> HasPrefix(filter, SHARE)
  {
    var f, t := Split(filter), Split(topic);
    ValidFilterHashLast(filter);
    WildcardFreeText(topic);
    DollarText(topic);
    assert HashLast(f[2..]);
    if HasPrefix(filter, SHARE) {
      SeparatorAfterGroup(filter);
      SharedLevels(filter);
      ClusterCoversLocalShared(f[2..], t);
    } else {
      SharedFirstLevel(filter);
      assert f[0] != "+" && f[0] != "#" && f[0] != t[0];
    }
  }

  lemma SharedFirstLevel(filter: string)
    requires IsSharedFilter(filter)
    ensures Split(filter)[0] != "" && Split(filter)[0][0] == '$'
  {
  }

  lemma SeparatorAfterGroup(filter: string)
    requires HasPrefix(filter, SHARE) && |Split(filter)| > 2
    ensures '/' in filter[|SHARE|..]
  {
  }

  /** Such a filter: it is delivered to locally and not routed to. */
  lemma UpperPrefixNotRouted()
    ensures var filter, topic := "$SHARE/g/a", "a";
            && IsValidFilter(filter, false) && IsSharedFilter(filter)
            && LocalMatch(PathFrom(filter, 2), Split(topic)) && !Routed(filter, topic)
  {
    var filter := "$SHARE/g/a";
    UpperPrefixLevels();
    hide Split, IndexOf;
    assert filter[..|SHARE|][1] != SHARE[1];
    assert PathFrom(filter, 2) == ["a"];
    assert '#' !in filter;
  }

  lemma UpperPrefixLevels()
    ensures Split("$SHARE/g/a") == ["$SHARE", "g", "a"] && Split("a") == ["a"]
  {
    hide Split, IndexOf;
    var filter, rest := "$SHARE/g/a", "g/a";
    SplitAt(filter, 6);
    assert filter[..6] == "$SHARE" && filter[7..] == rest;
    SplitAt(rest, 1);
    assert rest[..1] == "g" && rest[2..] == "a";
    SplitNone("a");
    assert Split(filter) == ["$SHARE"] + (["g"] + ["a"]);
  }

  lemma SplitNone(s: string)
    requires '/' !in s
    ensures Split(s) == [s]
  {
  }
}
