/**
 The per-owner concurrency limit of the authentication middleware: a counter per owner,
 read and changed under one lock, bounded in size by dropping the owner admitted longest ago.

 The counters are compared with the true number of requests each owner has in flight, over
 every interleaving of admissions and releases.
 */
module InflightSlots {
  import opened Counting
  import opened OrderedDicts

  const MAX_OWNERS: nat := 10_000

  datatype Owner = Owner(id: string)

  type Counts = OrderedDict<Owner, int>

  predicate Admits(max: int, counts: Counts, owner: Owner) {
    counts.Get(owner, 0) < max
  }

  function AfterAdmit(counts: Counts, owner: Owner): Counts {
    var more := counts.PutLast(owner, counts.Get(owner, 0) + 1);
    if |more.keys| > MAX_OWNERS then more.PopFirst() else more
  }

  function AfterRelease(counts: Counts, owner: Owner): Counts {
    var left := counts.Get(owner, 1) - 1;
    if left <= 0 then counts.Pop(owner)
    else if owner in counts.vals then counts.Put(owner, left)
    else counts
  }

  class OwnerSlots {
    const maxConcurrent: int
    var inflight: Counts

    constructor (maxConcurrent: int)
      ensures this.maxConcurrent == maxConcurrent && inflight == Empty()
    {
      this.maxConcurrent := maxConcurrent;
      inflight := Empty();
    }

    /** The first critical section: false means a 429 response. */
    method TryAdmit(owner: Owner) returns (admitted: bool)
      modifies this
      ensures admitted == Admits(maxConcurrent, old(inflight), owner)
      ensures inflight == if admitted then AfterAdmit(old(inflight), owner) else old(inflight)
    {
      var current := inflight.Get(owner, 0);
      admitted := current < maxConcurrent;
      if admitted {
        inflight := inflight.PutLast(owner, current + 1);
        if |inflight.keys| > MAX_OWNERS {
          inflight := inflight.PopFirst();
        }
      }
    }

    /** The second critical section, run when an admitted request ends in any way. */
    method Release(owner: Owner)
      modifies this
      ensures inflight == AfterRelease(old(inflight), owner)
    {
      var newCount := inflight.Get(owner, 1) - 1;
      if newCount <= 0 {
        inflight := inflight.Pop(owner);
      } else {
        inflight := inflight.Put(owner, newCount);
      }
    }
  }

  // ---------------------------------------------------------------- interleavings

  datatype Event = Arrive(owner: Owner) | Finish(owner: Owner)

  /** The stored counts and the requests truly in flight. */
  datatype World = World(counts: Counts, live: multiset<Owner>)

  const START := World(Empty<Owner, int>(), multiset{})

  /** Only a request in flight can finish. */
  predicate Possible(w: World, ev: Event) {
    ev.Finish? ==> ev.owner in w.live
  }

  function Step(max: int, w: World, ev: Event): World {
    match ev
    case Arrive(o) =>
      if Admits(max, w.counts, o) then World(AfterAdmit(w.counts, o), w.live + multiset{o}) else w
    case Finish(o) => World(AfterRelease(w.counts, o), w.live - multiset{o})
  }

  function Run(max: int, evs: seq<Event>): World {
    if evs == [] then START else Step(max, Run(max, evs[..|evs| - 1]), evs[|evs| - 1])
  }

  predicate IsRun(max: int, evs: seq<Event>) {
    evs == [] || (IsRun(max, evs[..|evs| - 1]) && Possible(Run(max, evs[..|evs| - 1]), evs[|evs| - 1]))
  }

  /** Each stored count is positive, within the limit, and no more than is truly in flight. */
  ghost predicate Sound(max: int, w: World) {
    && w.counts.Valid()
    && |w.counts.keys| <= MAX_OWNERS
    && forall o :: o in w.counts.vals ==> 1 <= w.counts.vals[o] <= max && w.counts.vals[o] <= w.live[o]
  }

  lemma StepKeepsSound(max: int, w: World, ev: Event)
    requires Sound(max, w) && Possible(w, ev)
    ensures Sound(max, Step(max, w, ev))
  {
    match ev
    case Arrive(o) =>
      if Admits(max, w.counts, o) {
        AdmitKeepsValid(w.counts, o);
      }
    case Finish(o) =>
      PopValid(w.counts, o);
      WithoutLength(w.counts.keys, o);
  }

  lemma AdmitKeepsValid(counts: Counts, o: Owner)
    requires counts.Valid() && |counts.keys| <= MAX_OWNERS
    ensures AfterAdmit(counts, o).Valid() && |AfterAdmit(counts, o).keys| <= MAX_OWNERS
  {
    var more := counts.PutLast(o, counts.Get(o, 0) + 1);
    PutLastValid(counts, o, counts.Get(o, 0) + 1);
    PopFirstValid(more);
  }

  lemma {:induction false} PrefixIsRun(max: int, evs: seq<Event>, n: nat)
    requires IsRun(max, evs) && n <= |evs|
    ensures IsRun(max, evs[..n])
    decreases |evs|
  {
    if n == |evs| {
      assert evs[..n] == evs;
    } else {
      PrefixIsRun(max, evs[..|evs| - 1], n);
      assert evs[..|evs| - 1][..n] == evs[..n];
    }
  }

  /** In every interleaving, whatever was dropped. */
  lemma {:induction false} RunSound(max: int, evs: seq<Event>)
    requires IsRun(max, evs)
    ensures Sound(max, Run(max, evs))
    decreases |evs|
  {
    if evs != [] {
      RunSound(max, evs[..|evs| - 1]);
      StepKeepsSound(max, Run(max, evs[..|evs| - 1]), evs[|evs| - 1]);
    }
  }

  /** A 429 is never spurious: the refused owner truly has `max` requests in flight. */
  lemma RefusalIsGenuine(max: int, evs: seq<Event>, o: Owner)
    requires IsRun(max, evs) && !Admits(max, Run(max, evs).counts, o)
    ensures Run(max, evs).live[o] >= max
  {
    RunSound(max, evs);
  }

  // ---------------------------------------------------------------- when the counts are exact

  ghost function LiveOwners(w: World): set<Owner> {
    set o | o in w.live
  }

  /** The stored counts are the true ones, and no owner exceeds the limit. */
  ghost predicate Exact(max: int, w: World) {
    && w.counts.vals.Keys == LiveOwners(w)
    && forall o :: o in w.counts.vals ==> w.counts.vals[o] == w.live[o] <= max
  }

  ghost predicate FewOwners(max: int, evs: seq<Event>) {
    forall n :: 0 <= n <= |evs| ==> |LiveOwners(Run(max, evs[..n]))| <= MAX_OWNERS
  }

  lemma StepKeepsExact(max: int, w: World, ev: Event)
    requires Sound(max, w) && Exact(max, w) && Possible(w, ev)
    requires |LiveOwners(Step(max, w, ev))| <= MAX_OWNERS
    ensures Exact(max, Step(max, w, ev))
  {
    if ev.Arrive? && Admits(max, w.counts, ev.owner) {
      AdmitKeepsAll(max, w, ev.owner);
    }
  }

  lemma AdmitKeepsAll(max: int, w: World, o: Owner)
    requires Sound(max, w) && Exact(max, w) && Admits(max, w.counts, o)
    requires |LiveOwners(Step(max, w, Arrive(o)))| <= MAX_OWNERS
    ensures AfterAdmit(w.counts, o) == w.counts.PutLast(o, w.counts.Get(o, 0) + 1)
  {
    var more := w.counts.PutLast(o, w.counts.Get(o, 0) + 1);
    PutLastValid(w.counts, o, w.counts.Get(o, 0) + 1);
    assert LiveOwners(Step(max, w, Arrive(o))) == more.vals.Keys;
    DistinctKeysCount(more.keys, more.vals.Keys);
  }

  /** If no more owners than the cap are ever live at once, nothing is dropped, every count is
      exact and no owner has more than `max` requests in flight. */
  lemma {:induction false} RunExact(max: int, evs: seq<Event>)
    requires IsRun(max, evs) && FewOwners(max, evs)
    ensures Exact(max, Run(max, evs))
    ensures forall o :: Run(max, evs).live[o] <= if max < 0 then 0 else max
    decreases |evs|
  {
    if evs != [] {
      var n := |evs| - 1;
      forall m | 0 <= m <= n
        ensures |LiveOwners(Run(max, evs[..n][..m]))| <= MAX_OWNERS
      {
        assert evs[..n][..m] == evs[..m];
      }
      RunExact(max, evs[..n]);
      RunSound(max, evs[..n]);
      assert evs[..|evs|] == evs;
      StepKeepsExact(max, Run(max, evs[..n]), evs[n]);
    }
    assert forall o :: o in Run(max, evs).live ==> o in LiveOwners(Run(max, evs));
  }

  /** Exact counts after every step need exactly that: never more live owners than the cap. */
  lemma ExactIffFewOwners(max: int, evs: seq<Event>)
    requires IsRun(max, evs)
    ensures (forall n :: 0 <= n <= |evs| ==> Exact(max, Run(max, evs[..n]))) <==> FewOwners(max, evs)
  {
    forall n | 0 <= n <= |evs|
      ensures FewOwners(max, evs) ==> Exact(max, Run(max, evs[..n]))
      ensures Exact(max, Run(max, evs[..n])) ==> |LiveOwners(Run(max, evs[..n]))| <= MAX_OWNERS
    {
      var front := evs[..n];
      assert forall m :: 0 <= m <= n ==> front[..m] == evs[..m];
      PrefixIsRun(max, evs, n);
      RunSound(max, front);
      var counts := Run(max, front).counts;
      DistinctKeysCount(counts.keys, counts.vals.Keys);
      if FewOwners(max, evs) {
        assert FewOwners(max, front);
        RunExact(max, front);
      }
    }
  }

  // ---------------------------------------------------------------- what a drop costs

  /** From an exact full table, one more owner drops the one admitted longest ago, and that
      owner may then exceed the limit. */
  lemma DropLetsOwnerExceed(max: int, w: World, newcomer: Owner)
    requires max >= 1 && w.counts.Valid() && Exact(max, w)
    requires |w.counts.keys| == MAX_OWNERS && newcomer !in w.counts.vals
    requires w.counts.vals[w.counts.keys[0]] == max
    ensures var oldest := w.counts.keys[0];
            Step(max, Step(max, w, Arrive(newcomer)), Arrive(oldest)).live[oldest] == max + 1
  {
    var oldest := w.counts.keys[0];
    WithoutKeepsOthers(w.counts.keys, newcomer);
    assert oldest in w.counts.keys;
    var w1 := Step(max, w, Arrive(newcomer));
    assert w1.counts.vals == w.counts.vals[newcomer := 1] - {oldest};
  }

  /** The step drops the owner's count for space. */
  predicate Loses(max: int, w: World, ev: Event, o: Owner) {
    && ev.Arrive? && Admits(max, w.counts, ev.owner)
    && (o in w.counts.vals || o == ev.owner) && o !in AfterAdmit(w.counts, ev.owner).vals
  }

  /** How often the owner's count was dropped. */
  function DropCount(max: int, evs: seq<Event>, o: Owner): nat {
    if evs == [] then 0
    else
      var front := evs[..|evs| - 1];
      DropCount(max, front, o) + if Loses(max, Run(max, front), evs[|evs| - 1], o) then 1 else 0
  }

  /** The owner's requests in flight that the stored count does not know of. */
  function Unseen(w: World, o: Owner): int {
    w.live[o] - w.counts.Get(o, 0)
  }

  /** Only a drop makes requests unseen, and then at most `max` of them. */
  lemma StepUnseen(max: int, w: World, ev: Event, o: Owner)
    requires Sound(max, w) && Possible(w, ev) && Unseen(w, o) >= 0
    ensures Unseen(Step(max, w, ev), o) <= Unseen(w, o) + if Loses(max, w, ev, o) then max else 0
    ensures Unseen(Step(max, w, ev), o) >= 0
  {
  }

  lemma QuotaGrows(limit: nat, unseen: int, d: nat, more: int, lost: bool)
    requires unseen <= Quota(limit, d) && more <= unseen + if lost then limit else 0
    ensures more <= Quota(limit, d + if lost then 1 else 0)
  {
  }

  lemma {:induction false} RunUnseen(max: int, evs: seq<Event>, o: Owner) returns (unseen: nat, d: nat)
    requires max >= 1 && IsRun(max, evs)
    ensures unseen == Unseen(Run(max, evs), o) && d == DropCount(max, evs, o) && unseen <= Quota(max, d)
    decreases |evs|
  {
    if evs == [] {
      unseen, d := 0, 0;
    } else {
      var front, ev := evs[..|evs| - 1], evs[|evs| - 1];
      var before, w := 0, Run(max, front);
      RunSound(max, front);
      before, d := RunUnseen(max, front, o);
      StepUnseen(max, w, ev, o);
      unseen := Unseen(Step(max, w, ev), o);
      QuotaGrows(max, before, d, unseen, Loses(max, w, ev, o));
      d := d + if Loses(max, w, ev, o) then 1 else 0;
    }
  }

  lemma LiveWithinQuota(max: int, evs: seq<Event>, o: Owner) returns (live: nat, d: nat)
    requires max >= 1 && IsRun(max, evs)
    ensures live == Run(max, evs).live[o] && d == DropCount(max, evs, o) && live <= Quota(max, d) + max
  {
    var unseen;
    unseen, d := RunUnseen(max, evs, o);
    RunSound(max, evs);
    live := Run(max, evs).live[o];
    assert Run(max, evs).counts.Get(o, 0) <= max;
  }

  /** Every drop lets an owner exceed the limit at most once more: in every interleaving it never
      has more in flight than the limit for each time its count was dropped, and once. */
  lemma DropsBoundOverrun(max: int, evs: seq<Event>, o: Owner) returns (drops: nat)
    requires max >= 1 && IsRun(max, evs)
    ensures drops == DropCount(max, evs, o) && Run(max, evs).live[o] <= max * (drops + 1)
  {
    var live;
    live, drops := LiveWithinQuota(max, evs, o);
    QuotaBound(live, max, drops);
  }
}
