/**
 What dropping counters costs the per-owner concurrency limit: runs in which an owner gets exactly
 as many requests in flight as the bound by drops allows.
 */
module InflightRuns {
  import opened Counting
  import opened OrderedDicts
  import opened InflightSlots

  const VICTIM := Owner("y")

  /** A state, and how often the victim was dropped on the way to it. */
  datatype Status = Status(w: World, drops: nat)

  function Admitted(max: int, s: Status, o: Owner): Status {
    Status(Step(max, s.w, Arrive(o)), s.drops + if Loses(max, s.w, Arrive(o), VICTIM) then 1 else 0)
  }

  ghost predicate Reached(max: int, evs: seq<Event>, s: Status) {
    IsRun(max, evs) && Run(max, evs) == s.w && DropCount(max, evs, VICTIM) == s.drops
  }

  lemma Extend(max: int, evs: seq<Event>, s: Status, o: Owner) returns (evs': seq<Event>, s': Status)
    requires Reached(max, evs, s)
    ensures Reached(max, evs', s') && s' == Admitted(max, s, o)
  {
    evs', s' := evs + [Arrive(o)], Admitted(max, s, o);
    assert evs'[..|evs|] == evs;
  }

  // ---------------------------------------------------------------- admissions

  /** The victim's stored and true counts, and how many owners were admitted after it. */
  ghost predicate At(max: int, s: Status, count: nat, live: nat, d: nat) {
    Sound(max, s.w) && s.w.counts.Get(VICTIM, 0) == count && s.w.live[VICTIM] == live && s.drops == d
  }

  ghost predicate Behind(counts: Counts, b: nat) {
    b < |counts.keys| && counts.keys[|counts.keys| - 1 - b] == VICTIM
  }

  /** The victim's admission puts it last. */
  lemma VictimLast(counts: Counts)
    requires counts.Valid() && |counts.keys| <= MAX_OWNERS
    ensures var after := AfterAdmit(counts, VICTIM);
            Behind(after, 0) && after.Get(VICTIM, 0) == counts.Get(VICTIM, 0) + 1 && VICTIM in after.vals
  {
    var more := counts.PutLast(VICTIM, counts.Get(VICTIM, 0) + 1);
    PutLastValid(counts, VICTIM, counts.Get(VICTIM, 0) + 1);
    assert more.keys[|more.keys| - 1] == VICTIM;
  }

  lemma VictimArrives(max: int, s: Status, count: nat, live: nat, d: nat)
    requires At(max, s, count, live, d) && count < max
    ensures var s' := Admitted(max, s, VICTIM); At(max, s', count + 1, live + 1, d) && Behind(s'.w.counts, 0)
  {
    StepKeepsSound(max, s.w, Arrive(VICTIM));
    VictimLast(s.w.counts);
  }

  /** An owner that is not tracked. */
  lemma Newcomer(counts: Counts) returns (o: Owner)
    ensures o !in counts.vals && o != VICTIM
  {
    var lengths: set<nat> := set x | x in counts.vals :: |x.id|;
    var n := NatOutside(lengths + {1});
    o := Owner(seq(n, _ => 'x'));
    assert forall x :: x in counts.vals ==> |x.id| in lengths;
  }

  lemma NewcomerAppended(counts: Counts, o: Owner)
    requires counts.Valid() && o !in counts.vals && o != VICTIM
    ensures var more := counts.PutLast(o, counts.Get(o, 0) + 1);
            && more.keys == counts.keys + [o] && more.Valid() && more.Get(VICTIM, 0) == counts.Get(VICTIM, 0)
  {
    WithoutKeepsOthers(counts.keys, o);
    PutLastValid(counts, o, counts.Get(o, 0) + 1);
  }

  /** A newcomer's admission, when the victim is not the oldest of a full table. */
  lemma NewcomerLast(counts: Counts, o: Owner, b: nat)
    requires counts.Valid() && |counts.keys| <= MAX_OWNERS && o !in counts.vals && o != VICTIM
    requires Behind(counts, b) && b + 1 < MAX_OWNERS
    ensures var after := AfterAdmit(counts, o);
            Behind(after, b + 1) && VICTIM in after.vals && after.Get(VICTIM, 0) == counts.Get(VICTIM, 0)
  {
    var more := counts.PutLast(o, counts.Get(o, 0) + 1);
    NewcomerAppended(counts, o);
    var k := |more.keys| - 2 - b;
    assert more.keys[k] == VICTIM;
    if |more.keys| > MAX_OWNERS {
      assert more.keys[0] != VICTIM;
      assert more.PopFirst().keys[k - 1] == VICTIM;
    }
  }

  /** One owner more drops the victim. */
  lemma NewcomerDrops(counts: Counts, o: Owner)
    requires counts.Valid() && |counts.keys| <= MAX_OWNERS && o !in counts.vals && o != VICTIM
    requires Behind(counts, MAX_OWNERS - 1)
    ensures VICTIM in counts.vals && VICTIM !in AfterAdmit(counts, o).vals
  {
    assert counts.keys[0] == VICTIM;
    NewcomerAppended(counts, o);
  }

  lemma NewcomerArrives(max: int, s: Status, o: Owner, count: nat, live: nat, d: nat, b: nat)
    requires max >= 1 && At(max, s, count, live, d) && o !in s.w.counts.vals && o != VICTIM
    requires Behind(s.w.counts, b) && b + 1 < MAX_OWNERS
    ensures var s' := Admitted(max, s, o); At(max, s', count, live, d) && Behind(s'.w.counts, b + 1)
  {
    StepKeepsSound(max, s.w, Arrive(o));
    NewcomerLast(s.w.counts, o, b);
  }

  lemma LastNewcomer(max: int, s: Status, o: Owner, count: nat, live: nat, d: nat)
    requires max >= 1 && At(max, s, count, live, d) && o !in s.w.counts.vals && o != VICTIM
    requires Behind(s.w.counts, MAX_OWNERS - 1)
    ensures At(max, Admitted(max, s, o), 0, live, d + 1)
  {
    StepKeepsSound(max, s.w, Arrive(o));
    NewcomerDrops(s.w.counts, o);
  }

  // ---------------------------------------------------------------- the runs

  /** The victim is admitted `n` times more. */
  lemma {:induction false} Fill(max: int, evs: seq<Event>, s: Status, live: nat, d: nat, n: nat)
    returns (evs': seq<Event>, s': Status)
    requires Reached(max, evs, s) && At(max, s, 0, live, d) && n <= max
    ensures Reached(max, evs', s') && At(max, s', n, live + n, d) && (n > 0 ==> Behind(s'.w.counts, 0))
  {
    evs', s' := evs, s;
    if n > 0 {
      evs', s' := Fill(max, evs, s, live, d, n - 1);
      VictimArrives(max, s', n - 1, live + n - 1, d);
      evs', s' := Extend(max, evs', s', VICTIM);
    }
  }

  /** `b` newcomers are admitted after the victim. */
  lemma {:induction false} Newcomers(max: int, evs: seq<Event>, s: Status, count: nat, live: nat, d: nat, b: nat)
    returns (evs': seq<Event>, s': Status)
    requires max >= 1 && Reached(max, evs, s) && At(max, s, count, live, d) && Behind(s.w.counts, 0) && b < MAX_OWNERS
    ensures Reached(max, evs', s') && At(max, s', count, live, d) && Behind(s'.w.counts, b)
  {
    evs', s' := evs, s;
    if b > 0 {
      evs', s' := Newcomers(max, evs, s, count, live, d, b - 1);
      var o := Newcomer(s'.w.counts);
      NewcomerArrives(max, s', o, count, live, d, b - 1);
      evs', s' := Extend(max, evs', s', o);
    }
  }

  /** The victim is dropped. */
  lemma Drop(max: int, evs: seq<Event>, s: Status, count: nat, live: nat, d: nat)
    returns (evs': seq<Event>, s': Status)
    requires max >= 1 && Reached(max, evs, s) && At(max, s, count, live, d) && Behind(s.w.counts, 0)
    ensures Reached(max, evs', s') && At(max, s', 0, live, d + 1)
  {
    evs', s' := Newcomers(max, evs, s, count, live, d, MAX_OWNERS - 1);
    var o := Newcomer(s'.w.counts);
    LastNewcomer(max, s', o, count, live, d);
    evs', s' := Extend(max, evs', s', o);
  }

  lemma StartAt(max: int)
    ensures Reached(max, [], Status(START, 0)) && At(max, Status(START, 0), 0, 0, 0)
  {
  }

  /** The victim reaches the limit, and is dropped and reaches it again `d` times. */
  lemma {:induction false} Rounds(max: nat, d: nat) returns (evs: seq<Event>, s: Status)
    requires max >= 1
    ensures Reached(max, evs, s) && At(max, s, max, Quota(max, d) + max, d) && Behind(s.w.counts, 0)
  {
    if d == 0 {
      StartAt(max);
      evs, s := Fill(max, [], Status(START, 0), 0, 0, max);
    } else {
      evs, s := Rounds(max, d - 1);
      evs, s := Drop(max, evs, s, max, Quota(max, d), d - 1);
      evs, s := Fill(max, evs, s, Quota(max, d), d, max);
    }
  }

  /** For every limit and every number of drops some run, from the start, attains the bound of
      `DropsBoundOverrun` exactly. */
  lemma OverrunAttained(max: nat, d: nat) returns (evs: seq<Event>)
    requires max >= 1
    ensures IsRun(max, evs) && DropCount(max, evs, VICTIM) == d
    ensures Run(max, evs).live[VICTIM] == max * (d + 1)
  {
    var s;
    evs, s := Rounds(max, d);
    QuotaIsProduct(max, d + 1);
  }
}
