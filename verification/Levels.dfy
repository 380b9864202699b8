/** Topic names and topic filters as text and as sequences of levels.
    Text is a sequence of runes; the level separator is '/'. */
module Levels {

  type Path = seq<string>

  const SHARE_PREFIX := "$SHARE"
  const SYS_PREFIX := "$SYS"

  /** The position of the first `c` in `s`, or -1. */
  function IndexOf(s: string, c: char): (i: int)
    ensures -1 <= i < |s|
    ensures i >= 0 ==> s[i] == c && c !in s[..i]
    ensures i < 0 ==> c !in s
  {
    if s == "" then -1
    else if s[0] == c then 0
    else
      var k := IndexOf(s[1..], c);
      assert k >= 0 ==> s[..k + 1] == [s[0]] + s[1..][..k];
      if k < 0 then -1 else k + 1
  }

  /** All levels of a topic or filter; even "" has one (empty) level. */
  function Split(s: string): (levels: Path)
    ensures |levels| >= 1
    decreases |s|
  {
    var i := IndexOf(s, '/');
    if i < 0 then [s] else [s[..i]] + Split(s[i + 1..])
  }

  function Join(levels: Path): (s: string)
    requires |levels| >= 1
  {
    if |levels| == 1 then levels[0] else levels[0] + "/" + Join(levels[1..])
  }

  lemma {:induction false} JoinSplit(s: string)
    ensures Join(Split(s)) == s
    decreases |s|
  {
    var i := IndexOf(s, '/');
    if i >= 0 {
      var rest := s[i + 1..];
      JoinSplit(rest);
      JoinCons(s[..i], Split(rest));
      assert s == s[..i] + "/" + rest;
    }
  }

  lemma JoinCons(level: string, levels: Path)
    requires |levels| >= 1
    ensures Join([level] + levels) == level + "/" + Join(levels)
  {
  }

  /** Two texts with the same levels are the same text. */
  /** A level holds no separator; so the levels are the text cut at every separator. */
  lemma {:induction false} LevelsPlain(s: string, i: nat)
    requires i < |Split(s)|
    ensures '/' !in Split(s)[i]
    decreases |s|
  {
    var k := IndexOf(s, '/');
    if k >= 0 && i > 0 { LevelsPlain(s[k + 1..], i - 1); }
  }

  lemma SplitInjective(s: string, t: string)
    requires Split(s) == Split(t)
    ensures s == t
  {
    JoinSplit(s);
    JoinSplit(t);
  }

  /** Every character of a level is a character of the text. */
  lemma {:induction false} SplitCharacters(s: string, i: nat, c: char)
    requires i < |Split(s)| && c in Split(s)[i]
    ensures c in s
    decreases |s|
  {
    var k := IndexOf(s, '/');
    if k >= 0 && i > 0 {
      SplitCharacters(s[k + 1..], i - 1, c);
    }
  }

  /** Only the last level can hold the last character of the text. */
  lemma {:induction false} LevelEndsText(s: string, i: nat, c: char)
    requires i < |Split(s)| - 1 && c in Split(s)[i] && c != '/'
    ensures exists k :: 0 <= k < |s| - 1 && s[k] == c
    decreases |s|
  {
    var k := IndexOf(s, '/');
    if i > 0 {
      LevelEndsText(s[k + 1..], i - 1, c);
      var j :| 0 <= j < |s[k + 1..]| - 1 && s[k + 1..][j] == c;
      assert s[k + 1 + j] == c;
    } else {
      var j :| 0 <= j < k && s[..k][j] == c;
      assert s[j] == c;
    }
  }

  /** The first character of a non-empty text decides what its first level starts with. */
  lemma FirstLevelStart(s: string, c: char)
    requires s != "" && c != '/'
    ensures s[0] == c <==> (Split(s)[0] != "" && Split(s)[0][0] == c)
  {
  }

  /** The levels a walk starting at depth `d` sees. Past the end, the last level repeats. */
  function PathFrom(s: string, d: nat): (p: Path)
    ensures |p| >= 1
  {
    var levels := Split(s);
    if d < |levels| then levels[d..] else [levels[|levels| - 1]]
  }

  lemma SplitFirst(s: string)
    ensures var end := IndexOf(s, '/');
            && -1 <= end < |s|
            && (end < 0 ==> Split(s) == [s])
            && (end >= 0 ==> |Split(s)| > 1 && Split(s)[0] == s[..end] && Split(s)[1..] == Split(s[end + 1..]))
  {
  }

  /** Extracts the level between the d-th and the (d+1)-th separator. */
  method IsolateParticle(topic: string, d: int) returns (particle: string, hasNext: bool)
    ensures d < 0 ==> particle == "" && !hasNext
    ensures d >= 0 ==> particle == PathFrom(topic, d)[0] && hasNext == (|PathFrom(topic, d)| > 1)
  {
    var filter := topic;
    var end, i := 0, 0;
    particle, hasNext := "", false;
    ghost var levels := Split(topic);
    hide Split, IndexOf;
    while end > -1 && i <= d
      invariant 0 <= i
      invariant d < 0 ==> i == 0 && particle == "" && !hasNext
      invariant d >= 0 ==> i <= d + 1
      invariant end > -1 && i <= d ==> i < |levels| && Split(filter) == levels[i..]
      invariant end > -1 && i == d + 1 && d >= 0 ==>
                  d + 1 < |levels| && particle == levels[d] && hasNext
      invariant end <= -1 ==>
                  |levels| == i && i <= d + 1 && particle == levels[i - 1] && !hasNext
      decreases d + 1 - i
    {
      end := IndexOf(filter, '/');
      SplitFirst(filter);
      assert levels[i..][1..] == levels[i + 1..];
      if d > -1 && i == d && end > -1 {
        hasNext := true;
        particle := filter[..end];
      } else if end > -1 {
        hasNext := false;
        filter := filter[end + 1..];
      } else {
        hasNext := false;
        particle := filter;
      }
      i := i + 1;
    }
  }

  function FoldRune(c: char): (r: char)
  {
    if 'A' <= c <= 'Z' then (c as int + 32) as char
    else if c == '\U{017F}' then 's'
    else if c == '\U{212A}' then 'k'
    else c
  }

  predicate EqualFold(s: string, t: string) {
    |s| == |t| && forall i :: 0 <= i < |s| ==> FoldRune(s[i]) == FoldRune(t[i])
  }

  lemma WholePath(s: string)
    ensures PathFrom(s, 0) == Split(s)
    ensures IsSharedFilter(s) <==> EqualFold(PathFrom(s, 0)[0], SHARE_PREFIX)
  {
  }

  lemma PathStep(s: string, d: nat)
    ensures |PathFrom(s, d)| > 1 ==> PathFrom(s, d + 1) == PathFrom(s, d)[1..]
    ensures |PathFrom(s, d)| == 1 ==> PathFrom(s, d + 1) == PathFrom(s, d)
  {
  }

  predicate IsAscii(s: string) {
    forall i :: 0 <= i < |s| ==> s[i] < '\U{0080}'
  }

  predicate IsSharedFilter(filter: string) {
    EqualFold(Split(filter)[0], SHARE_PREFIX)
  }

  /** Whether a topic name or filter is acceptable, for publishing or for subscribing. */
  predicate IsValidFilter(filter: string, forPublish: bool) {
    var hash := IndexOf(filter, '#');
    && (forPublish || filter != "")
    && (forPublish ==>
          && !(|filter| >= |SYS_PREFIX| && IsAscii(filter[..|SYS_PREFIX|])
               && EqualFold(filter[..|SYS_PREFIX|], SYS_PREFIX))
          && '+' !in filter && '#' !in filter)
    && (hash >= 0 ==> hash == |filter| - 1)
    && (IsSharedFilter(filter) ==>
          && |Split(filter)| > 2
          && '+' !in Split(filter)[1] && '#' !in Split(filter)[1])
  }
}
