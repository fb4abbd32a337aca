/**
 Whether an alert is suppressed: the first unexpired suppression that matches decides, and a
 sufficiently severe alert breaks through it.

 Case folding is the parameter `lower`.
 */
module Suppressions {
  import opened Options

  datatype Level = Info | Warning | Critical | Unranked(name: string)

  function Rank(l: Level): int {
    match l
    case Info => 0
    case Warning => 1
    case Critical => 2
    case Unranked(_) => -1
  }

  /** Absent text fields are empty; `metric` is absent or a string. */
  datatype Alert = Alert(source: string, tags: seq<string>, level: Level, metric: Option<string>,
                         alertId: string, message: string)

  /** An empty source is global; an absent or empty metric and an empty tag list match anything. */
  datatype Suppression = Suppression(source: string, metric: Option<string>, tags: seq<string>, level: Level,
                                     escalates: bool, expires: Option<int>)

  predicate Expired(s: Suppression, now: int) {
    s.expires.Some? && now >= s.expires.value
  }

  predicate StandsAt(text: string, part: string, i: int) {
    0 <= i <= |text| - |part| && text[i..i + |part|] == part
  }

  predicate Contains(text: string, part: string) {
    exists i :: 0 <= i <= |text| && StandsAt(text, part, i)
  }

  /** A shared tag, or a tag that occurs in the alert's id, message or metric. */
  predicate TagsMatch(tags: seq<string>, a: Alert, lower: string -> string) {
    || (exists t :: t in tags && t in a.tags)
    || (exists t :: t in tags && MentionedIn(lower(t), a, lower))
  }

  predicate MentionedIn(tag: string, a: Alert, lower: string -> string) {
    || Mentions(lower(a.alertId), tag)
    || Mentions(lower(a.message), tag)
    || Mentions(lower(if a.metric.Some? then a.metric.value else ""), tag)
  }

  predicate Mentions(field: string, tag: string) {
    field != "" && Contains(field, tag)
  }

  predicate Matches(s: Suppression, a: Alert, now: int, lower: string -> string) {
    && !Expired(s, now)
    && (s.source == "" || s.source == a.source)
    && (s.metric.None? || s.metric.value == "" || s.metric == a.metric)
    && (s.tags == [] || TagsMatch(s.tags, a, lower))
  }

  predicate BreaksThrough(a: Alert, s: Suppression) {
    s.escalates && Rank(a.level) > Rank(s.level)
  }

  predicate IsSuppressed(a: Alert, ss: seq<Suppression>, now: int, lower: string -> string) {
    if ss == [] then false
    else if Matches(ss[0], a, now, lower) then !BreaksThrough(a, ss[0])
    else IsSuppressed(a, ss[1..], now, lower)
  }

  /** `i` is the first suppression that matches. */
  ghost predicate FirstMatch(a: Alert, ss: seq<Suppression>, now: int, lower: string -> string, i: int) {
    && 0 <= i < |ss| && Matches(ss[i], a, now, lower)
    && forall j :: 0 <= j < i ==> !Matches(ss[j], a, now, lower)
  }

  lemma {:induction false} FirstMatchDecides(a: Alert, ss: seq<Suppression>, now: int, lower: string -> string)
    ensures IsSuppressed(a, ss, now, lower) <==>
            exists i :: FirstMatch(a, ss, now, lower, i) && !BreaksThrough(a, ss[i])
  {
    if ss != [] {
      if Matches(ss[0], a, now, lower) {
        assert FirstMatch(a, ss, now, lower, 0);
      } else {
        FirstMatchDecides(a, ss[1..], now, lower);
        forall i | FirstMatch(a, ss[1..], now, lower, i)
          ensures FirstMatch(a, ss, now, lower, i + 1)
        {
        }
        forall i | FirstMatch(a, ss, now, lower, i)
          ensures FirstMatch(a, ss[1..], now, lower, i - 1) && ss[1..][i - 1] == ss[i]
        {
        }
      }
    }
  }

  /** Raising an alert's severity never turns a surfaced alert into a suppressed one. */
  lemma {:induction false} RaisingNeverHides(a: Alert, level: Level, ss: seq<Suppression>, now: int,
                                             lower: string -> string)
    requires Rank(level) >= Rank(a.level) && !IsSuppressed(a, ss, now, lower)
    ensures !IsSuppressed(a.(level := level), ss, now, lower)
  {
    if ss != [] {
      var b := a.(level := level);
      assert Matches(ss[0], b, now, lower) == Matches(ss[0], a, now, lower);
      if !Matches(ss[0], a, now, lower) {
        RaisingNeverHides(a, level, ss[1..], now, lower);
      }
    }
  }

  /** Suppressions added after a match change nothing; the verdict stands either way. */
  lemma {:induction false} AppendingNeverMatters(a: Alert, ss: seq<Suppression>, more: seq<Suppression>, now: int,
                                                lower: string -> string)
    ensures IsSuppressed(a, ss + more, now, lower) ==
            if exists s :: s in ss && Matches(s, a, now, lower) then IsSuppressed(a, ss, now, lower)
            else IsSuppressed(a, more, now, lower)
  {
    if ss == [] {
      assert ss + more == more;
    } else {
      assert (ss + more)[1..] == ss[1..] + more;
      assert ss == [ss[0]] + ss[1..];
      AppendingNeverMatters(a, ss[1..], more, now, lower);
    }
  }

  // ---------------------------------------------------------------- what matches, in so many words

  lemma OccursIff(text: string, part: string)
    ensures Contains(text, part) <==> exists before, after :: text == before + part + after
  {
    if Contains(text, part) {
      var i :| 0 <= i <= |text| && StandsAt(text, part, i);
      assert text == text[..i] + part + text[i + |part|..];
    }
    forall before, after | text == before + part + after
      ensures Contains(text, part)
    {
      assert text[|before|..|before| + |part|] == part;
      assert StandsAt(text, part, |before|);
    }
  }

  /** One suppression among others that does not match. */
  lemma MismatchRemoved(a: Alert, front: seq<Suppression>, s: Suppression, back: seq<Suppression>, now: int,
                        lower: string -> string)
    requires !Matches(s, a, now, lower)
    ensures IsSuppressed(a, front + [s] + back, now, lower) == IsSuppressed(a, front + back, now, lower)
  {
    AppendingNeverMatters(a, front, [s] + back, now, lower);
    AppendingNeverMatters(a, front, back, now, lower);
    assert front + [s] + back == front + ([s] + back);
    assert ([s] + back)[1..] == back;
  }

  /** A suppression for another source can be removed anywhere. */
  lemma OtherSourceNeverMatters(a: Alert, front: seq<Suppression>, s: Suppression, back: seq<Suppression>, now: int,
                                lower: string -> string)
    requires s.source != "" && s.source != a.source
    ensures IsSuppressed(a, front + [s] + back, now, lower) == IsSuppressed(a, front + back, now, lower)
  {
    MismatchRemoved(a, front, s, back, now, lower);
  }

  /** So can one for another metric, or for any metric if the alert has none. */
  lemma OtherMetricNeverMatters(a: Alert, front: seq<Suppression>, s: Suppression, back: seq<Suppression>, now: int,
                                lower: string -> string)
    requires s.metric.Some? && s.metric.value != "" && (a.metric.None? || a.metric.value != s.metric.value)
    ensures IsSuppressed(a, front + [s] + back, now, lower) == IsSuppressed(a, front + back, now, lower)
  {
    MismatchRemoved(a, front, s, back, now, lower);
  }

  /** A tag is mentioned when it occurs in one of three texts that is not empty. */
  lemma MentionedIff(tag: string, a: Alert, lower: string -> string, texts: seq<string>)
    requires texts == [lower(a.alertId), lower(a.message), lower(if a.metric.Some? then a.metric.value else "")]
    ensures MentionedIn(tag, a, lower) <==>
            exists text, before, after :: text in texts && text != "" && text == before + tag + after
  {
    assert texts[0] in texts && texts[1] in texts && texts[2] in texts;
    forall text
      ensures Contains(text, tag) <==> exists before, after :: text == before + tag + after
    {
      OccursIff(text, tag);
    }
    if MentionedIn(tag, a, lower) {
      var k := if Mentions(texts[0], tag) then 0 else if Mentions(texts[1], tag) then 1 else 2;
      assert Mentions(texts[k], tag);
      var before, after :| texts[k] == before + tag + after;
    }
  }

  /** So can one with tags, none of which the alert shares or mentions. */
  lemma OtherTagsNeverMatter(a: Alert, front: seq<Suppression>, s: Suppression, back: seq<Suppression>, now: int,
                             lower: string -> string, texts: seq<string>)
    requires texts == [lower(a.alertId), lower(a.message), lower(if a.metric.Some? then a.metric.value else "")]
    requires s.tags != [] && forall t :: t in s.tags ==> t !in a.tags
    requires forall t, text, before, after :: t in s.tags && text in texts && text != "" ==>
               text != before + lower(t) + after
    ensures IsSuppressed(a, front + [s] + back, now, lower) == IsSuppressed(a, front + back, now, lower)
  {
    forall t | t in s.tags
      ensures !MentionedIn(lower(t), a, lower)
    {
      MentionedIff(lower(t), a, lower, texts);
    }
    MismatchRemoved(a, front, s, back, now, lower);
  }

  /** So can one that expires at this moment or has expired before. */
  lemma ExpiredNeverMatters(a: Alert, front: seq<Suppression>, s: Suppression, back: seq<Suppression>, now: int,
                            lower: string -> string)
    requires s.expires.Some? && s.expires.value <= now
    ensures IsSuppressed(a, front + [s] + back, now, lower) == IsSuppressed(a, front + back, now, lower)
  {
    MismatchRemoved(a, front, s, back, now, lower);
  }

  /** Info < warning < critical; a level with no rank is below them all. */
  lemma RankOrder(x: Level, y: Level)
    ensures Rank(x) > Rank(y) <==>
            || (x == Critical && y != Critical)
            || (x == Warning && (y == Info || y.Unranked?))
            || (x == Info && y.Unranked?)
  {
  }

  /** Any other suppression decides if it comes first: the alert is suppressed unless the
      suppression escalates and the alert is more severe. */
  lemma FirstDecides(a: Alert, s: Suppression, back: seq<Suppression>, now: int, lower: string -> string,
                     texts: seq<string>)
    requires texts == [lower(a.alertId), lower(a.message), lower(if a.metric.Some? then a.metric.value else "")]
    requires s.expires.None? || now < s.expires.value
    requires s.source == "" || s.source == a.source
    requires s.metric.None? || s.metric.value == "" || (a.metric.Some? && a.metric.value == s.metric.value)
    requires || s.tags == []
             || (exists t :: t in s.tags && t in a.tags)
             || exists t, text, before, after :: t in s.tags && text in texts && text != ""
                                                 && text == before + lower(t) + after
    ensures IsSuppressed(a, [s] + back, now, lower) <==>
            !(s.escalates && (|| (a.level == Critical && s.level != Critical)
                              || (a.level == Warning && (s.level == Info || s.level.Unranked?))
                              || (a.level == Info && s.level.Unranked?)))
  {
    RankOrder(a.level, s.level);
    assert s.tags == [] || TagsMatch(s.tags, a, lower) by {
      if t, text, before, after :| t in s.tags && text in texts && text != "" && text == before + lower(t) + after {
        MentionedIff(lower(t), a, lower, texts);
      }
    }
    assert Matches(s, a, now, lower);
    assert ([s] + back)[0] == s;
  }

  /** Without suppressions nothing is suppressed. */
  lemma NoneHidesNothing(a: Alert, now: int, lower: string -> string)
    ensures !IsSuppressed(a, [], now, lower)
  {
  }
}
