/** The three ways this broker decides that a filter matches a topic (the local
    trie walk, the retained-message walk, the cluster trie walk) and how each
    stands to section 4.7 of MQTT Version 5.0. Filters and topics are level
    sequences; a topic always has at least one level. */
module Matching {
  import opened Levels

  /** `f` agrees with the first levels of `t`, '+' standing for any one level. */
  predicate Agree(f: Path, t: Path) {
    |f| <= |t| && forall i :: 0 <= i < |f| ==> f[i] == "+" || f[i] == t[i]
  }

  predicate EndsInHash(f: Path) {
    f != [] && f[|f| - 1] == "#"
  }

  /** Section 4.7.1: a final '#' stands for the parent and any number of child levels. */
  predicate SpecMatch(f: Path, t: Path) {
    if EndsInHash(f) then Agree(f[..|f| - 1], t) else |f| == |t| && Agree(f, t)
  }

  predicate TopWildcard(f: Path) {
    f != [] && (f[0] == "+" || f[0] == "#")
  }

  predicate DollarTopic(t: Path) {
    t != [] && t[0] != "" && t[0][0] == '$'
  }

  /** Section 4.7.2: a leading wildcard does not match a topic beginning with '$'. */
  predicate DollarRule(f: Path, t: Path) {
    DollarTopic(t) ==> !TopWildcard(f)
  }

  /** What filter validation leaves of the '#' rule: '#' is a level only at the end. */
  predicate HashLast(f: Path) {
    forall i :: 0 <= i < |f| - 1 ==> f[i] != "#"
  }

  predicate WildcardFree(t: Path) {
    forall i :: 0 <= i < |t| ==> t[i] != "+" && t[i] != "#"
  }

  lemma ValidFilterHashLast(filter: string)
    requires IsValidFilter(filter, false)
    ensures HashLast(Split(filter))
  {
    var f := Split(filter);
    forall i | 0 <= i < |f| - 1
      ensures f[i] != "#"
    {
      if f[i] == "#" {
        LevelEndsText(filter, i, '#');
        assert false;
      }
    }
  }

  lemma WildcardFreeText(topic: string)
    requires '+' !in topic && '#' !in topic
    ensures WildcardFree(Split(topic))
  {
  }

  // ----- the local subscription walk

  /** The nodes below a starting point at which `scanSubscribers` gathers for the
      remaining topic levels `t`, told by their path `f` from there. */
  predicate LocalMatch(f: Path, t: Path)
    requires |t| >= 1
    decreases |t|
  {
    || f == ["#"]
    || (|t| == 1 && |f| == 1 && (f[0] == t[0] || f[0] == "+"))
    || (|t| == 1 && |f| == 2 && f[1] == "#" && f[0] == t[0] && t[0] != "+")
    || (|t| > 1 && |f| >= 1 && (f[0] == t[0] || f[0] == "+") && LocalMatch(f[1..], t[1..]))
  }

  /** The parent match of 'x/+/#', which the local walk leaves out. */
  predicate PlusParent(f: Path, t: Path) {
    |f| >= 2 && EndsInHash(f) && f[|f| - 2] == "+" && |t| == |f| - 1
  }

  lemma {:induction false} LocalMatchExact(f: Path, t: Path)
    requires |t| >= 1 && HashLast(f) && WildcardFree(t)
    ensures LocalMatch(f, t) <==> SpecMatch(f, t) && !PlusParent(f, t)
    decreases |t|
  {
    if |t| > 1 && |f| > 1 {
      LocalMatchExact(f[1..], t[1..]);
      AgreeTail(f, t);
      AgreeTail(f[..|f| - 1], t);
      assert f[..|f| - 1][1..] == f[1..][..|f| - 2];
    }
  }

  /** Such a filter: "+/#" on "a", which the routing walk has. */
  lemma PlusParentMissed()
    ensures var f, t := ["+", "#"], ["a"]; SpecMatch(f, t) && ClusterMatch(f, t, true) && !LocalMatch(f, t)
  {
  }

  lemma AgreeTail(f: Path, t: Path)
    requires |f| >= 1 && |t| >= 1
    ensures Agree(f, t) <==> (f[0] == "+" || f[0] == t[0]) && Agree(f[1..], t[1..])
  {
  }

  // ----- the retained-message walk

  /** The retained topics `scanMessages` collects; `top` at the first level. */
  predicate RetainMatch(f: Path, t: Path, top: bool)
    requires |f| >= 1 && |t| >= 1
    decreases |f|
  {
    if f[0] == "+" || f[0] == "#" then
      && !(top && t[0] == SYS_PREFIX)
      && (if |f| > 1 then |t| > 1 && RetainMatch(f[1..], t[1..], false)
          else f[0] == "#" || |t| == 1)
    else
      && f[0] == t[0]
      && (if |f| > 1 then |t| > 1 && RetainMatch(f[1..], t[1..], false) else |t| == 1)
  }

  lemma {:induction false} RetainMatchExact(f: Path, t: Path, top: bool)
    requires |f| >= 1 && |t| >= 1 && HashLast(f)
    ensures RetainMatch(f, t, top) <==>
            && SpecMatch(f, t)
            && !(EndsInHash(f) && |t| == |f| - 1)
            && !(top && TopWildcard(f) && t[0] == SYS_PREFIX)
    decreases |f|
  {
    if |f| > 1 && |t| > 1 {
      RetainMatchExact(f[1..], t[1..], false);
      AgreeTail(f, t);
      AgreeTail(f[..|f| - 1], t);
      assert f[..|f| - 1][1..] == f[1..][..|f| - 2];
    }
  }

  lemma {:induction false} RetainMatchLiteral(f: Path, t: Path, top: bool)
    requires |f| >= 1 && |t| >= 1 && WildcardFree(f)
    ensures RetainMatch(f, t, top) <==> f == t
    decreases |f|
  {
    if |f| > 1 && |t| > 1 {
      RetainMatchLiteral(f[1..], t[1..], false);
      assert f == [f[0]] + f[1..] && t == [t[0]] + t[1..];
    }
  }

  // ----- the cluster routing walk

  /** The leaves `Leaf.scan` reports for the remaining topic levels `t`. */
  predicate ClusterMatch(f: Path, t: Path, top: bool)
    requires |t| >= 1
    decreases |t|
  {
    var wild := !(top && DollarTopic(t));
    || (f == ["#"] && wild)
    || (|t| == 1 && |f| == 1 && (f[0] == t[0] || (f[0] == "+" && wild)))
    || (|t| == 1 && |f| == 2 && f[1] == "#"
        && (f[0] == t[0] || ((f[0] == "+" || f[0] == "#") && wild)))
    || (|t| > 1 && |f| >= 1 && (f[0] == t[0] || (f[0] == "+" && wild))
        && ClusterMatch(f[1..], t[1..], false))
  }

  /** The cluster walk is section 4.7, both halves. */
  lemma {:induction false} ClusterMatchExact(f: Path, t: Path, top: bool)
    requires |t| >= 1 && HashLast(f) && WildcardFree(t)
    ensures ClusterMatch(f, t, top) <==> SpecMatch(f, t) && (top ==> DollarRule(f, t))
    decreases |t|
  {
    if |t| > 1 && |f| > 1 {
      ClusterMatchExact(f[1..], t[1..], false);
      AgreeTail(f, t);
      AgreeTail(f[..|f| - 1], t);
      assert f[..|f| - 1][1..] == f[1..][..|f| - 2];
    }
  }

  /** Every plain filter the local walk gathers is one the cluster walk reports. */
  lemma ClusterCoversLocal(f: Path, t: Path)
    requires |t| >= 1 && HashLast(f) && WildcardFree(t)
    requires LocalMatch(f, t) && DollarRule(f, t)
    ensures ClusterMatch(f, t, true)
  {
    LocalMatchExact(f, t);
    ClusterMatchExact(f, t, true);
  }

  /** Shared filters skip the '$' rule locally, so there the walks part exactly on
      '$' topics met by a leading wildcard. */
  lemma ClusterCoversLocalShared(f: Path, t: Path)
    requires |t| >= 1 && HashLast(f) && WildcardFree(t)
    requires LocalMatch(f, t)
    ensures ClusterMatch(f, t, true) <==> DollarRule(f, t)
  {
    LocalMatchExact(f, t);
    ClusterMatchExact(f, t, true);
  }

  // ----- the matcher used when stored retained messages are merged in

  /** Takes the filter with its final '#' or with that already removed. */
  method MatchesMultiLevelWildcard(filterParts: Path, topicParts: Path) returns (r: bool)
    ensures r <==> Agree(if EndsInHash(filterParts) then filterParts[..|filterParts| - 1] else filterParts, topicParts)
  {
    var base := filterParts;
    if |filterParts| > 0 && filterParts[|filterParts| - 1] == "#" {
      base := filterParts[..|filterParts| - 1];
    }
    if |base| == 0 { return true; }
    if |topicParts| < |base| { return false; }
    for i := 0 to |base|
      invariant forall k :: 0 <= k < i ==> base[k] == "+" || base[k] == topicParts[k]
    {
      if base[i] != "+" && base[i] != topicParts[i] { return false; }
    }
    return true;
  }

  method MatchesSingleLevelWildcard(filterParts: Path, topicParts: Path) returns (r: bool)
    ensures r <==> |filterParts| == |topicParts| && Agree(filterParts, topicParts)
  {
    if |filterParts| != |topicParts| { return false; }
    for i := 0 to |filterParts|
      invariant forall k :: 0 <= k < i ==>
                  filterParts[k] == "+" || filterParts[k] == topicParts[k]
    {
      if filterParts[i] != "+" && filterParts[i] != topicParts[i] { return false; }
    }
    return true;
  }

  /** Refusing, for a '$' topic, every filter that does not itself begin with '$' is
      the leading-wildcard rule. */
  lemma DollarFilters(f: Path, t: Path)
    requires |f| >= 1 && |t| >= 1 && WildcardFree(t) && DollarTopic(t)
    ensures SpecMatch(f, t) && DollarRule(f, t) ==> DollarTopic(f)
    ensures DollarTopic(f) ==> DollarRule(f, t)
  {
  }

  lemma DollarText(s: string)
    ensures DollarTopic(Split(s)) <==> s != "" && s[0] == '$'
  {
  }

  lemma MatchesItself(t: Path)
    ensures WildcardFree(t) ==> SpecMatch(t, t) && (t != [] ==> DollarRule(t, t))
  {
  }

  lemma HashAlone(t: Path)
    ensures Split("#") == ["#"] && SpecMatch(["#"], t)
  {
  }

  lemma SpecByParts(f: Path, t: Path)
    ensures SpecMatch(f, t) <==> if EndsInHash(f) then Agree(f[..|f| - 1], t) else |f| == |t| && Agree(f, t)
  {
  }

  /** This matcher is section 4.7 in full, for every filter text. */
  method TopicMatchesFilter(topic: string, filter: string) returns (r: bool)
    ensures WildcardFree(Split(topic)) ==>
              (r <==> SpecMatch(Split(filter), Split(topic)) && DollarRule(Split(filter), Split(topic)))
  {
    hide Split, IndexOf, SpecMatch, Agree;
    var filterParts, topicParts := Split(filter), Split(topic);
    MatchesItself(topicParts);
    SpecByParts(filterParts, topicParts);
    DollarText(topic);
    DollarText(filter);
    if WildcardFree(topicParts) && DollarTopic(topicParts) { DollarFilters(filterParts, topicParts); }
    if |topic| > 0 && topic[0] == '$' && (|filter| == 0 || filter[0] != '$') {
      return false;
    }
    if filter == topic {
      return true;
    }
    if filter == "#" {
      HashAlone(topicParts);
      return !(|topic| > 0 && topic[0] == '$');
    }
    if |filterParts| > 0 && filterParts[|filterParts| - 1] == "#" {
      r := MatchesMultiLevelWildcard(filterParts, topicParts);
    } else {
      r := MatchesSingleLevelWildcard(filterParts, topicParts);
    }
  }

  // ----- which texts are filters and topics

  /** A filter to subscribe to: not empty, '#' nowhere but at the very end, and a shared one
      with a group free of wildcards and something behind it. */
  lemma FilterValid(filter: string)
    ensures IsValidFilter(filter, false) <==>
            && filter != "" && (forall i :: 0 <= i < |filter| - 1 ==> filter[i] != '#')
            && (EqualFold(Split(filter)[0], "$share") ==>
                  |Split(filter)| >= 3 && forall c :: c in Split(filter)[1] ==> c != '+' && c != '#')
  {
    hide Split;
    var hash := IndexOf(filter, '#');
    if hash >= 0 && hash < |filter| - 1 { assert filter[hash] == '#'; }
    if hash == |filter| - 1 {
      forall i | 0 <= i < |filter| - 1 ensures filter[i] != '#' { assert filter[..hash][i] == filter[i]; }
    }
    FoldSame(Split(filter)[0]);
  }

  lemma FoldSame(s: string)
    ensures EqualFold(s, "$share") <==> EqualFold(s, SHARE_PREFIX)
  {
    assert EqualFold("$share", SHARE_PREFIX);
  }

  /** A topic to publish to: free of wildcards, and not under "$SYS" in any letter case. */
  lemma TopicValid(topic: string)
    ensures IsValidFilter(topic, true) ==>
              && WildcardFree(Split(topic)) && (forall c :: c in topic ==> c != '+' && c != '#')
              && !(|topic| >= 4 && IsAscii(topic[..4]) && EqualFold(topic[..4], "$sys"))
  {
    if IsValidFilter(topic, true) { WildcardFreeText(topic); }
    hide Split;
    assert SYS_PREFIX == "$SYS";
    if |topic| >= 4 && EqualFold(topic[..4], "$sys") {
      forall i | 0 <= i < 4 ensures FoldRune(topic[..4][i]) == FoldRune(SYS_PREFIX[i]) {
        assert FoldRune(topic[..4][i]) == FoldRune("$sys"[i]);
      }
    }
  }
}
