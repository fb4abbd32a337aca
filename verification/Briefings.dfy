/**
 The briefing: alerts of every fresh source are filtered through suppressions and learned
 patterns, due intentions fire, and the most urgent fired intentions are listed.

 One fixed `now` stands for the clock; `expected` is the pattern match of an alert.
 */
module Briefings {
  import opened Counting
  import opened Options
  import opened Suppressions

  const MAX_FIRED: nat := 10

  // ---------------------------------------------------------------- sources

  /** What the store holds about one source. */
  datatype Source = Source(name: string, stale: bool, alerts: seq<Alert>)

  /** `suppressions` holds the active ones by source; the empty source is global. */
  datatype Context = Context(now: int, lower: string -> string, suppressions: map<string, seq<Suppression>>,
                             expected: (Source, Alert) -> bool)
  {
    function Of(source: string): seq<Suppression> {
      if source in suppressions then suppressions[source] else []
    }
  }

  predicate Hidden(c: Context, src: Source, a: Alert) {
    IsSuppressed(a, c.Of(src.name) + c.Of(""), c.now, c.lower)
  }

  predicate Surfaces(c: Context, src: Source, a: Alert) {
    !Hidden(c, src, a) && !c.expected(src, a)
  }

  function Filter(alerts: seq<Alert>, keep: Alert -> bool): seq<Alert> {
    if alerts == [] then []
    else if keep(alerts[0]) then [alerts[0]] + Filter(alerts[1..], keep)
    else Filter(alerts[1..], keep)
  }

  /** How many alerts satisfy a test. */
  function Count(alerts: seq<Alert>, test: Alert -> bool): nat {
    if alerts == [] then 0 else (if test(alerts[0]) then 1 else 0) + Count(alerts[1..], test)
  }

  lemma {:induction false} FilterFacts(alerts: seq<Alert>, keep: Alert -> bool)
    ensures |Filter(alerts, keep)| == Count(alerts, keep)
    ensures forall a :: a in Filter(alerts, keep) <==> a in alerts && keep(a)
  {
    if alerts != [] {
      FilterFacts(alerts[1..], keep);
    }
  }

  /** Filtering twice keeps what passes both tests. */
  lemma {:induction false} FilterTwice(alerts: seq<Alert>, first: Alert -> bool, second: Alert -> bool,
                                       both: Alert -> bool)
    requires forall a :: both(a) <==> first(a) && second(a)
    ensures Filter(Filter(alerts, first), second) == Filter(alerts, both)
  {
    if alerts != [] {
      FilterTwice(alerts[1..], first, second, both);
      var rest := Filter(alerts[1..], first);
      if first(alerts[0]) {
        assert ([alerts[0]] + rest)[1..] == rest;
      }
    }
  }

  /** Three exclusive tests that cover every alert. */
  lemma {:induction false} CountSplits(alerts: seq<Alert>, x: Alert -> bool, y: Alert -> bool, z: Alert -> bool)
    requires forall a :: (x(a) || y(a) || z(a)) && !(x(a) && y(a)) && !(x(a) && z(a)) && !(y(a) && z(a))
    ensures |alerts| == Count(alerts, x) + Count(alerts, y) + Count(alerts, z)
  {
    if alerts != [] {
      CountSplits(alerts[1..], x, y, z);
    }
  }

  datatype Status = Quiet | Warned | Alarmed | Outdated

  /** `top` is the alert whose message becomes the headline. */
  datatype SourceEntry = SourceEntry(name: string, status: Status, top: Option<Alert>)

  function SurfacedOf(c: Context, src: Source): seq<Alert> {
    Filter(src.alerts, a => Surfaces(c, src, a))
  }

  /** The entry a source must get. */
  ghost predicate IsEntryOf(c: Context, src: Source, e: SourceEntry) {
    && e.name == src.name
    && (e.status.Outdated? <==> src.stale)
    && (!src.stale ==>
          && (e.status.Alarmed? <==> exists a :: a in SurfacedOf(c, src) && a.level.Critical?)
          && (e.status.Quiet? <==> SurfacedOf(c, src) == []))
    && (e.top.Some? <==> !src.stale && SurfacedOf(c, src) != [])
    && (e.top.Some? ==>
          && e.top.value in SurfacedOf(c, src)
          && forall a :: a in SurfacedOf(c, src) ==> Rank(a.level) <= Rank(e.top.value.level))
  }

  /** The counters of the evaluation trace. */
  datatype Trace = Trace(checked: nat, suppressed: nat, matched: nat, surfaced: nat, stale: nat)

  function Plus(t: Trace, u: Trace): Trace {
    Trace(t.checked + u.checked, t.suppressed + u.suppressed, t.matched + u.matched, t.surfaced + u.surfaced,
          t.stale + u.stale)
  }

  lemma {:induction false} CountIsSize(alerts: seq<Alert>, test: Alert -> bool, same: Alert -> bool)
    requires forall a :: a in alerts ==> test(a) == same(a)
    ensures Count(alerts, test) == |Satisfying(alerts, same)|
  {
    if alerts == [] {
      assert Satisfying(alerts, same) == {};
    } else {
      CountIsSize(alerts[1..], test, same);
      SatisfyingFirst(alerts, same);
    }
  }

  /** What one source adds to the trace, each counter by its own test. */
  function TraceOf(c: Context, src: Source): Trace {
    if src.stale then Trace(0, 0, 0, 0, 1)
    else Trace(|src.alerts|,
               Count(src.alerts, a => Hidden(c, src, a)),
               Count(src.alerts, a => !Hidden(c, src, a) && c.expected(src, a)),
               Count(src.alerts, a => Surfaces(c, src, a)), 0)
  }

  function TraceOfAll(c: Context, srcs: seq<Source>): Trace {
    if srcs == [] then Trace(0, 0, 0, 0, 0)
    else Plus(TraceOfAll(c, srcs[..|srcs| - 1]), TraceOf(c, srcs[|srcs| - 1]))
  }

  /** Every alert checked is suppressed, pattern-matched or surfaced, and only one of them. */
  lemma {:induction false} TraceBalances(c: Context, srcs: seq<Source>)
    ensures var t := TraceOfAll(c, srcs); t.checked == t.suppressed + t.matched + t.surfaced
  {
    if srcs != [] {
      var src := srcs[|srcs| - 1];
      TraceBalances(c, srcs[..|srcs| - 1]);
      CountSplits(src.alerts, a => Hidden(c, src, a), a => !Hidden(c, src, a) && c.expected(src, a),
                  a => Surfaces(c, src, a));
    }
  }

  /** The first alert of the highest severity. */
  method TopAlert(alerts: seq<Alert>) returns (top: Alert)
    requires alerts != []
    ensures top in alerts && forall a :: a in alerts ==> Rank(a.level) <= Rank(top.level)
  {
    top := alerts[0];
    for i := 1 to |alerts|
      invariant top in alerts[..i]
      invariant forall a :: a in alerts[..i] ==> Rank(a.level) <= Rank(top.level)
    {
      assert alerts[..i + 1] == alerts[..i] + [alerts[i]];
      if Rank(alerts[i].level) > Rank(top.level) {
        top := alerts[i];
      }
    }
    assert alerts[..|alerts|] == alerts;
  }

  /** One turn of the source loop. */
  method Evaluate(c: Context, src: Source) returns (entry: SourceEntry, t: Trace)
    ensures IsEntryOf(c, src, entry) && t == TraceOf(c, src)
  {
    if src.stale {
      return SourceEntry(src.name, Outdated, None), Trace(0, 0, 0, 0, 1);
    }
    var active := Filter(src.alerts, a => !Hidden(c, src, a));
    var suppressed := |src.alerts| - |active|;
    var surfaced := Filter(active, a => !c.expected(src, a));
    var matched := |active| - |surfaced|;
    CountersAgree(c, src, active, surfaced);
    t := Trace(|src.alerts|, suppressed, matched, |surfaced|, 0);
    if surfaced == [] {
      return SourceEntry(src.name, Quiet, None), t;
    }
    var top := TopAlert(surfaced);
    entry := SourceEntry(src.name, if exists a :: a in surfaced && a.level.Critical? then Alarmed else Warned,
                           Some(top));
  }

  /** The counters of a source that is not stale: how many of its alerts are suppressed by its own
      or the global suppressions, how many of the others are expected, and how many are neither. */
  lemma TraceSays(c: Context, src: Source, hidden: Alert -> bool)
    requires forall a :: hidden(a) <==>
               IsSuppressed(a, (if src.name in c.suppressions then c.suppressions[src.name] else [])
                               + (if "" in c.suppressions then c.suppressions[""] else []), c.now, c.lower)
    ensures src.stale ==> TraceOf(c, src) == Trace(0, 0, 0, 0, 1)
    ensures !src.stale ==>
              TraceOf(c, src) == Trace(|src.alerts|,
                                       |Satisfying(src.alerts, hidden)|,
                                       |Satisfying(src.alerts, a => !hidden(a) && c.expected(src, a))|,
                                       |Satisfying(src.alerts, a => !hidden(a) && !c.expected(src, a))|, 0)
  {
    CountIsSize(src.alerts, a => Hidden(c, src, a), hidden);
    CountIsSize(src.alerts, a => !Hidden(c, src, a) && c.expected(src, a), a => !hidden(a) && c.expected(src, a));
    CountIsSize(src.alerts, a => Surfaces(c, src, a), a => !hidden(a) && !c.expected(src, a));
  }

  /** The status of a source and its headline alert, in terms of the alerts that are neither
      suppressed nor expected. */
  lemma EntrySays(c: Context, src: Source, e: SourceEntry, hidden: Alert -> bool, shown: set<Alert>)
    requires forall a :: hidden(a) <==>
               IsSuppressed(a, (if src.name in c.suppressions then c.suppressions[src.name] else [])
                               + (if "" in c.suppressions then c.suppressions[""] else []), c.now, c.lower)
    requires shown == set a | a in src.alerts && !hidden(a) && !c.expected(src, a)
    requires IsEntryOf(c, src, e)
    ensures e.name == src.name && (e.status == Outdated <==> src.stale)
    ensures e.status == Alarmed <==> !src.stale && exists a :: a in shown && a.level == Critical
    ensures e.status == Quiet <==> !src.stale && shown == {}
    ensures e.top.Some? <==> !src.stale && shown != {}
    ensures e.top.Some? ==>
              e.top.value in shown && forall a :: a in shown ==> Rank(a.level) <= Rank(e.top.value.level)
  {
    FilterFacts(src.alerts, a => Surfaces(c, src, a));
    assert forall a :: a in shown <==> a in SurfacedOf(c, src);
    if SurfacedOf(c, src) != [] {
      assert SurfacedOf(c, src)[0] in shown;
    }
  }

  /** Counting by lengths before and after each filter gives the counts by test. */
  lemma CountersAgree(c: Context, src: Source, active: seq<Alert>, surfaced: seq<Alert>)
    requires active == Filter(src.alerts, a => !Hidden(c, src, a))
    requires surfaced == Filter(active, a => !c.expected(src, a))
    ensures surfaced == SurfacedOf(c, src)
    ensures |src.alerts| - |active| == Count(src.alerts, a => Hidden(c, src, a))
    ensures |active| - |surfaced| == Count(src.alerts, a => !Hidden(c, src, a) && c.expected(src, a))
    ensures |surfaced| == Count(src.alerts, a => Surfaces(c, src, a))
  {
    var keep, fine, show := a => !Hidden(c, src, a), a => !c.expected(src, a), a => Surfaces(c, src, a);
    FilterTwice(src.alerts, keep, fine, show);
    FilterFacts(src.alerts, keep);
    FilterFacts(src.alerts, show);
    CountSplits(src.alerts, a => Hidden(c, src, a), a => !Hidden(c, src, a) && c.expected(src, a), show);
    CountSplits(src.alerts, keep, a => Hidden(c, src, a), a => false);
    CountNone(src.alerts);
  }

  lemma {:induction false} CountNone(alerts: seq<Alert>)
    ensures Count(alerts, a => false) == 0
  {
    if alerts != [] {
      CountNone(alerts[1..]);
    }
  }

  // ---------------------------------------------------------------- intentions

  datatype IntentionState = Pending | Fired | OtherState(name: string)

  datatype Urgency = Low | Normal | High | OtherUrgency(name: string)

  function UrgencyRank(u: Urgency): int {
    match u
    case Low => 0
    case High => 2
    case _ => 1
  }

  datatype Intention = Intention(id: string, state: IntentionState, urgency: Urgency, deliverAt: Option<int>,
                                 created: int, updated: Option<int>, reason: Option<string>,
                                 changelog: seq<IntentionChange>)

  datatype IntentionChange = IntentionChange(at: int, state: IntentionState, reason: Option<string>)

  function Touched(i: Intention): int {
    if i.updated.Some? then i.updated.value else i.created
  }

  /** `get_fired_intentions`: pending, with a delivery time that has passed. */
  predicate Due(i: Intention, now: int) {
    i.state.Pending? && i.deliverAt.Some? && i.deliverAt.value <= now
  }

  /** `update_intention_state`: the old state, and the old reason if any, go to the changelog. */
  function Moved(i: Intention, to: IntentionState, reason: string, now: int): Intention {
    i.(state := to, reason := Some(reason), updated := Some(now),
       changelog := i.changelog + [IntentionChange(now, i.state, i.reason)])
  }

  const DELIVERED := "Delivered via briefing"

  function AfterFiring(items: seq<Intention>, now: int): seq<Intention> {
    seq(|items|, k requires 0 <= k < |items| =>
      if Due(items[k], now) then Moved(items[k], Fired, DELIVERED, now) else items[k])
  }

  /** `i` is listed before `j`, or as early. */
  predicate NoLater(i: Intention, j: Intention) {
    UrgencyRank(i.urgency) > UrgencyRank(j.urgency) ||
    (UrgencyRank(i.urgency) == UrgencyRank(j.urgency) && Touched(i) >= Touched(j))
  }

  predicate InOrder(items: seq<Intention>) {
    forall j, k :: 0 <= j < k < |items| ==> NoLater(items[j], items[k])
  }

  /** High before normal and anything unknown, those before low; then the one touched last. */
  lemma NoLaterSays(i: Intention, j: Intention, ti: int, tj: int)
    requires ti == (if i.updated.Some? then i.updated.value else i.created)
    requires tj == (if j.updated.Some? then j.updated.value else j.created)
    ensures i.urgency == High && j.urgency != High ==> NoLater(i, j) && !NoLater(j, i)
    ensures i.urgency != Low && j.urgency == Low ==> NoLater(i, j) && !NoLater(j, i)
    ensures (i.urgency == High <==> j.urgency == High) && (i.urgency == Low <==> j.urgency == Low) ==>
              (NoLater(i, j) <==> ti >= tj)
  {
  }

  /** Stable insertion of `i` into a list in order. */
  function Insert(i: Intention, items: seq<Intention>): seq<Intention> {
    if items == [] || NoLater(i, items[0]) then [i] + items else [items[0]] + Insert(i, items[1..])
  }

  /** The sort by descending urgency and recency. */
  function Sorted(items: seq<Intention>): seq<Intention> {
    if items == [] then [] else Insert(items[0], Sorted(items[1..]))
  }

  lemma {:induction false} InsertKeeps(i: Intention, items: seq<Intention>)
    ensures multiset(Insert(i, items)) == multiset(items) + multiset{i}
  {
    if items == [] || NoLater(i, items[0]) {
      assert multiset([i] + items) == multiset(items) + multiset{i};
    } else {
      InsertKeeps(i, items[1..]);
      assert items == [items[0]] + items[1..];
    }
  }

  lemma {:induction false} InsertFacts(i: Intention, items: seq<Intention>)
    requires InOrder(items)
    ensures InOrder(Insert(i, items)) && multiset(Insert(i, items)) == multiset(items) + multiset{i}
  {
    InsertKeeps(i, items);
    if items != [] && !NoLater(i, items[0]) {
      InsertFacts(i, items[1..]);
      var rest := Insert(i, items[1..]);
      forall k | 0 <= k < |rest|
        ensures NoLater(items[0], rest[k])
      {
        assert rest[k] in multiset(rest);
        assert rest[k] == i || rest[k] in items[1..];
      }
    }
  }

  lemma {:induction false} SortedFacts(items: seq<Intention>)
    ensures InOrder(Sorted(items)) && multiset(Sorted(items)) == multiset(items)
  {
    if items != [] {
      SortedFacts(items[1..]);
      InsertFacts(items[0], Sorted(items[1..]));
      assert items == [items[0]] + items[1..];
    }
  }

  function InState(items: seq<Intention>, s: IntentionState): seq<Intention> {
    if items == [] then []
    else InState(items[..|items| - 1], s) + if items[|items| - 1].state == s then [items[|items| - 1]] else []
  }

  /** The number of items in one state, and each of them as often as among all. */
  lemma {:induction false} InStateSize(items: seq<Intention>, s: IntentionState, test: Intention -> bool)
    requires forall i :: test(i) <==> i.state == s
    ensures |InState(items, s)| == |Satisfying(items, test)|
  {
    if items == [] {
      assert Satisfying(items, test) == {};
    } else {
      InStateSize(items[..|items| - 1], s, test);
      SatisfyingLast(items, test);
    }
  }

  lemma {:induction false} InStateOften(items: seq<Intention>, s: IntentionState, x: Intention)
    ensures multiset(InState(items, s))[x] == if x.state == s then multiset(items)[x] else 0
  {
    if items != [] {
      var n := |items| - 1;
      InStateOften(items[..n], s, x);
      assert items == items[..n] + [items[n]];
    }
  }

  function Top(items: seq<Intention>): seq<Intention> {
    if |items| > MAX_FIRED then items[..MAX_FIRED] else items
  }

  // ---------------------------------------------------------------- the briefing

  /** The summary line, by its parts. */
  datatype Summary = AllClear(sources: nat) | Parts(critical: nat, warning: nat, stale: nat, intentions: nat)

  datatype Briefing = Briefing(entries: seq<SourceEntry>, trace: Trace, attention: bool, listed: seq<Intention>,
                               firedCount: nat, pendingCount: nat, summary: Summary)

  function CountStatus(entries: seq<SourceEntry>, st: Status): nat {
    if entries == [] then 0
    else CountStatus(entries[..|entries| - 1], st) + if entries[|entries| - 1].status == st then 1 else 0
  }

  lemma {:induction false} CountStatusIsSize(entries: seq<SourceEntry>, st: Status, test: SourceEntry -> bool)
    requires forall e :: test(e) <==> e.status == st
    ensures CountStatus(entries, st) == |Satisfying(entries, test)|
  {
    if entries == [] {
      assert Satisfying(entries, test) == {};
    } else {
      CountStatusIsSize(entries[..|entries| - 1], st, test);
      SatisfyingLast(entries, test);
    }
  }

  /** `compose_summary`: the all-clear form without attention, or when no part applies. */
  function Summarize(entries: seq<SourceEntry>, attention: bool, listed: seq<Intention>, firedCount: nat): Summary {
    var critical, warning := CountStatus(entries, Alarmed), CountStatus(entries, Warned);
    var stale := CountStatus(entries, Outdated);
    if !attention then AllClear(|entries|)
    else if critical == 0 && warning == 0 && stale == 0 && listed == [] then AllClear(|entries|)
    else Parts(critical, warning, stale, if listed == [] then 0 else firedCount)
  }

  /** Statuses against counters: something surfaced or stale shows in some source's status. */
  lemma {:induction false} StatusesAndTrace(c: Context, srcs: seq<Source>, entries: seq<SourceEntry>)
    requires |srcs| == |entries| && forall k :: 0 <= k < |srcs| ==> IsEntryOf(c, srcs[k], entries[k])
    ensures var t := TraceOfAll(c, srcs);
            && t.stale == CountStatus(entries, Outdated)
            && (t.surfaced > 0 <==> CountStatus(entries, Alarmed) + CountStatus(entries, Warned) > 0)
  {
    if srcs != [] {
      var n := |srcs| - 1;
      StatusesAndTrace(c, srcs[..n], entries[..n]);
      FilterFacts(srcs[n].alerts, a => Surfaces(c, srcs[n], a));
      assert IsEntryOf(c, srcs[n], entries[n]);
    }
  }

  class Collator {
    var intentions: seq<Intention>

    constructor (intentions: seq<Intention>)
      ensures this.intentions == intentions
    {
      this.intentions := intentions;
    }

    /** Every due pending intention becomes fired, and nothing else changes. */
    method FireDue(now: int)
      modifies this
      ensures intentions == AfterFiring(old(intentions), now)
      ensures |intentions| == |old(intentions)|
      ensures forall k :: 0 <= k < |intentions| ==>
                var i := old(intentions)[k];
                intentions[k] ==
                if i.state == Pending && i.deliverAt.Some? && i.deliverAt.value <= now
                then i.(state := Fired, reason := Some("Delivered via briefing"), updated := Some(now),
                        changelog := i.changelog + [IntentionChange(now, Pending, i.reason)])
                else i
    {
      ghost var before := intentions;
      for k := 0 to |intentions|
        invariant |intentions| == |before|
        invariant forall j :: 0 <= j < |before| ==>
                    intentions[j] == if j < k then AfterFiring(before, now)[j] else before[j]
      {
        if Due(intentions[k], now) {
          intentions := intentions[k := Moved(intentions[k], Fired, DELIVERED, now)];
        }
      }
    }

    method GenerateBriefing(c: Context, srcs: seq<Source>) returns (b: Briefing)
      modifies this
      ensures intentions == AfterFiring(old(intentions), c.now)
      ensures |b.entries| == |srcs| && forall k :: 0 <= k < |srcs| ==> IsEntryOf(c, srcs[k], b.entries[k])
      ensures b.trace == TraceOfAll(c, srcs)
      ensures b.attention <==> b.trace.stale > 0 || b.trace.surfaced > 0 || b.firedCount > 0
      ensures b.firedCount == |InState(intentions, Fired)| && b.pendingCount == |InState(intentions, Pending)|
      ensures b.listed == Top(Sorted(InState(intentions, Fired)))
      ensures b.summary == Summarize(b.entries, b.attention, b.listed, b.firedCount)
      ensures b.firedCount == |Satisfying(intentions, (i: Intention) => i.state == Fired)|
      ensures b.pendingCount == |Satisfying(intentions, (i: Intention) => i.state == Pending)|
      ensures b.summary ==
              if !b.attention then AllClear(|srcs|)
              else Parts(|Satisfying(b.entries, (e: SourceEntry) => e.status == Alarmed)|,
                         |Satisfying(b.entries, (e: SourceEntry) => e.status == Warned)|,
                         |Satisfying(b.entries, (e: SourceEntry) => e.status == Outdated)|, b.firedCount)
    {
      var entries, trace, attention := EvaluateAll(c, srcs);
      FireDue(c.now);
      var fired, pending := InState(intentions, Fired), InState(intentions, Pending);
      if |fired| > 0 {
        attention := true;
      }
      var listed := Top(Sorted(fired));
      b := Briefing(entries, trace, attention, listed, |fired|, |pending|,
                    Summarize(entries, attention, listed, |fired|));
      InStateSize(intentions, Fired, (i: Intention) => i.state == Fired);
      InStateSize(intentions, Pending, (i: Intention) => i.state == Pending);
      AllClearIff(c, srcs, b, fired);
      SummarySays(b, fired);
    }
  }

  lemma SummarySays(b: Briefing, fired: seq<Intention>)
    requires b.summary == Summarize(b.entries, b.attention, b.listed, b.firedCount)
    requires (b.summary.AllClear? <==> !b.attention) && b.listed == Top(Sorted(fired)) && b.firedCount == |fired|
    ensures b.summary ==
            if !b.attention then AllClear(|b.entries|)
            else Parts(|Satisfying(b.entries, (e: SourceEntry) => e.status == Alarmed)|,
                       |Satisfying(b.entries, (e: SourceEntry) => e.status == Warned)|,
                       |Satisfying(b.entries, (e: SourceEntry) => e.status == Outdated)|, b.firedCount)
  {
    CountStatusIsSize(b.entries, Alarmed, (e: SourceEntry) => e.status == Alarmed);
    CountStatusIsSize(b.entries, Warned, (e: SourceEntry) => e.status == Warned);
    CountStatusIsSize(b.entries, Outdated, (e: SourceEntry) => e.status == Outdated);
    OmittedAfterCut(fired);
  }

  /** The loop over the sources. */
  method EvaluateAll(c: Context, srcs: seq<Source>) returns (entries: seq<SourceEntry>, trace: Trace, attention: bool)
    ensures |entries| == |srcs| && forall k :: 0 <= k < |srcs| ==> IsEntryOf(c, srcs[k], entries[k])
    ensures trace == TraceOfAll(c, srcs)
    ensures attention <==> trace.stale > 0 || trace.surfaced > 0
  {
    entries, trace, attention := [], Trace(0, 0, 0, 0, 0), false;
    for n := 0 to |srcs|
      invariant |entries| == n && forall k :: 0 <= k < n ==> IsEntryOf(c, srcs[k], entries[k])
      invariant trace == TraceOfAll(c, srcs[..n])
      invariant attention <==> trace.stale > 0 || trace.surfaced > 0
    {
      var entry, t := Evaluate(c, srcs[n]);
      assert srcs[..n + 1][..n] == srcs[..n];
      entries, trace := entries + [entry], Plus(trace, t);
      if t.stale > 0 || t.surfaced > 0 {
        attention := true;
      }
    }
    assert srcs[..|srcs|] == srcs;
  }

  /** The summary is all-clear exactly when nothing needs attention. */
  lemma AllClearIff(c: Context, srcs: seq<Source>, b: Briefing, fired: seq<Intention>)
    requires |b.entries| == |srcs| && forall k :: 0 <= k < |srcs| ==> IsEntryOf(c, srcs[k], b.entries[k])
    requires b.trace == TraceOfAll(c, srcs) && b.firedCount == |fired| && b.listed == Top(Sorted(fired))
    requires b.attention <==> b.trace.stale > 0 || b.trace.surfaced > 0 || b.firedCount > 0
    requires b.summary == Summarize(b.entries, b.attention, b.listed, b.firedCount)
    ensures b.summary.AllClear? <==> !b.attention
  {
    StatusesAndTrace(c, srcs, b.entries);
    SortedFacts(fired);
    assert |Sorted(fired)| == |multiset(Sorted(fired))| == |fired|;
  }

  /** A list in order, cut after ten: nothing before the cut ranks below anything after it. */
  lemma CutInOrder(all: seq<Intention>, x: Intention, y: Intention)
    requires InOrder(all) && x in Top(all) && y in all[|Top(all)|..]
    ensures NoLater(x, y)
  {
    var n := |Top(all)|;
    var j :| 0 <= j < n && Top(all)[j] == x;
    var k :| 0 <= k < |all| - n && all[n..][k] == y;
    assert NoLater(all[j], all[n + k]);
  }

  /** What is not listed comes after the cut. */
  lemma OmittedAfterCut(fired: seq<Intention>)
    ensures multiset(fired) == multiset(Top(Sorted(fired))) + multiset(Sorted(fired)[|Top(Sorted(fired))|..])
    ensures |Sorted(fired)| == |fired|
  {
    var all := Sorted(fired);
    SortedFacts(fired);
    assert |all| == |multiset(all)| == |fired|;
    assert all == Top(all) + all[|Top(all)|..];
  }

  lemma TopOfSorted(fired: seq<Intention>)
    ensures |Top(Sorted(fired))| == (if |fired| > 10 then 10 else |fired|)
    ensures multiset(Top(Sorted(fired))) <= multiset(fired) && InOrder(Top(Sorted(fired)))
    ensures forall x, y :: x in Top(Sorted(fired)) && y in multiset(fired) - multiset(Top(Sorted(fired))) ==>
              NoLater(x, y)
  {
    var all := Sorted(fired);
    var rest := all[|Top(all)|..];
    OmittedAfterCut(fired);
    assert multiset(fired) - multiset(Top(all)) == multiset(rest);
    SortedFacts(fired);
    forall x, y | x in Top(all) && y in multiset(rest)
      ensures NoLater(x, y)
    {
      CutInOrder(all, x, y);
    }
  }

  /** The listed items are fired intentions, all of them up to ten, in order, and none comes after
      a fired one that is omitted. */
  lemma ListedAreTheTop(items: seq<Intention>, listed: seq<Intention>, fired: nat)
    requires listed == Top(Sorted(InState(items, Fired)))
    requires fired == |Satisfying(items, (i: Intention) => i.state == Fired)|
    ensures |listed| == (if fired > 10 then 10 else fired)
    ensures forall x :: x in listed ==> x.state == Fired && multiset(listed)[x] <= multiset(items)[x]
    ensures InOrder(listed)
    ensures forall x, y: Intention :: x in listed && y.state == Fired && multiset(items)[y] > multiset(listed)[y] ==>
              NoLater(x, y)
  {
    var all := InState(items, Fired);
    InStateSize(items, Fired, (i: Intention) => i.state == Fired);
    TopOfSorted(all);
    forall x | x in listed
      ensures x.state == Fired && multiset(listed)[x] <= multiset(items)[x]
    {
      InStateOften(items, Fired, x);
      assert x in multiset(listed) && multiset(listed)[x] <= multiset(all)[x];
    }
    forall x, y: Intention | x in listed && y.state == Fired && multiset(items)[y] > multiset(listed)[y]
      ensures NoLater(x, y)
    {
      InStateOften(items, Fired, y);
      assert y in multiset(all) - multiset(listed);
    }
  }

  /** Firing is idempotent for one `now`: a fired intention is no longer pending. */
  lemma FiringOnce(items: seq<Intention>, now: int)
    ensures AfterFiring(AfterFiring(items, now), now) == AfterFiring(items, now)
    ensures forall k :: 0 <= k < |items| ==>
              (AfterFiring(items, now)[k].state.Fired? <==> items[k].state.Fired? || Due(items[k], now))
  {
  }
}
