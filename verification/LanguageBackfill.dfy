/**
 The language backfill: batches of at most a hundred live rows still marked `simple`, always
 fetched from the front, until a batch changes nothing.  The script runs it owner by owner,
 with a dry run that pages instead; the migration runs it once over all rows.

 Rows are listed in creation order; `resolve` is the language detection.
 */
module LanguageBackfill {
  import opened Counting

  const BATCH_SIZE: nat := 100

  datatype Language = Simple | Named(regconfig: string)
  datatype Owner = Owner(id: string)
  datatype Text = Text(s: string)

  datatype Row = Row(owner: Owner, deleted: bool, text: Text, language: Language)

  /** Whose rows a pass sees: everybody's in the migration, one owner's in the script. */
  datatype Scope = Everybody | Only(owner: Owner)

  predicate Sees(scope: Scope, r: Row) {
    scope.Everybody? || r.owner == scope.owner
  }

  /** The rows the query selects. */
  predicate Candidate(scope: Scope, r: Row) {
    Sees(scope, r) && r.language.Simple? && !r.deleted
  }

  predicate Resolvable(scope: Scope, resolve: Text -> Language, r: Row) {
    Candidate(scope, r) && !resolve(r.text).Simple?
  }

  /** A candidate that detection leaves at `simple`. */
  predicate Genuine(scope: Scope, resolve: Text -> Language, r: Row) {
    Candidate(scope, r) && resolve(r.text).Simple?
  }

  function Updated(resolve: Text -> Language, r: Row): Row {
    r.(language := resolve(r.text))
  }

  function CandidatesIn(scope: Scope, rows: seq<Row>): nat {
    if rows == [] then 0
    else CandidatesIn(scope, rows[..|rows| - 1]) + if Candidate(scope, rows[|rows| - 1]) then 1 else 0
  }

  function GenuineIn(scope: Scope, resolve: Text -> Language, rows: seq<Row>): nat {
    if rows == [] then 0
    else GenuineIn(scope, resolve, rows[..|rows| - 1]) + if Genuine(scope, resolve, rows[|rows| - 1]) then 1 else 0
  }

  /** The row is reached: fewer than a batch of genuine rows precede it. */
  predicate Reached(scope: Scope, resolve: Text -> Language, rows: seq<Row>, i: nat)
    requires i < |rows|
  {
    Resolvable(scope, resolve, rows[i]) && GenuineIn(scope, resolve, rows[..i]) < BATCH_SIZE
  }

  /** The rows after a whole pass. */
  function Final(scope: Scope, resolve: Text -> Language, rows: seq<Row>): (r: seq<Row>)
    ensures |r| == |rows|
  {
    seq(|rows|, i requires 0 <= i < |rows| =>
      if Reached(scope, resolve, rows, i) then Updated(resolve, rows[i]) else rows[i])
  }

  /** The row is updated in this batch. */
  predicate InBatch(scope: Scope, resolve: Text -> Language, rows: seq<Row>, i: nat)
    requires i < |rows|
  {
    Resolvable(scope, resolve, rows[i]) && CandidatesIn(scope, rows[..i]) < BATCH_SIZE
  }

  /** The rows after one batch. */
  function AfterBatch(scope: Scope, resolve: Text -> Language, rows: seq<Row>): (r: seq<Row>)
    ensures |r| == |rows|
  {
    seq(|rows|, i requires 0 <= i < |rows| =>
      if InBatch(scope, resolve, rows, i) then Updated(resolve, rows[i]) else rows[i])
  }

  lemma {:induction false} GenuineAreCandidates(scope: Scope, resolve: Text -> Language, rows: seq<Row>)
    ensures GenuineIn(scope, resolve, rows) <= CandidatesIn(scope, rows)
    ensures (forall i :: 0 <= i < |rows| ==> !Resolvable(scope, resolve, rows[i])) ==>
              GenuineIn(scope, resolve, rows) == CandidatesIn(scope, rows)
  {
    if rows != [] {
      GenuineAreCandidates(scope, resolve, rows[..|rows| - 1]);
    }
  }

  /** Updating resolvable rows changes no count of genuine ones. */
  lemma {:induction false} GenuineUnchanged(scope: Scope, resolve: Text -> Language, rows: seq<Row>, rows': seq<Row>)
    requires |rows| == |rows'|
    requires forall i :: 0 <= i < |rows| ==>
               rows'[i] == rows[i] || (Resolvable(scope, resolve, rows[i]) && rows'[i] == Updated(resolve, rows[i]))
    ensures GenuineIn(scope, resolve, rows) == GenuineIn(scope, resolve, rows')
  {
    if rows != [] {
      GenuineUnchanged(scope, resolve, rows[..|rows| - 1], rows'[..|rows| - 1]);
    }
  }

  /** One batch brings the pass no further than it ends. */
  lemma BatchKeepsFinal(scope: Scope, resolve: Text -> Language, rows: seq<Row>)
    ensures Final(scope, resolve, AfterBatch(scope, resolve, rows)) == Final(scope, resolve, rows)
  {
    var rows' := AfterBatch(scope, resolve, rows);
    forall i | 0 <= i < |rows|
      ensures Final(scope, resolve, rows')[i] == Final(scope, resolve, rows)[i]
    {
      GenuineUnchanged(scope, resolve, rows[..i], rows'[..i]);
      GenuineAreCandidates(scope, resolve, rows[..i]);
    }
  }

  lemma {:induction false} GenuineMonotone(scope: Scope, resolve: Text -> Language, rows: seq<Row>, i: nat)
    requires i <= |rows|
    ensures GenuineIn(scope, resolve, rows[..i]) <= GenuineIn(scope, resolve, rows)
  {
    if i == |rows| {
      assert rows[..i] == rows;
    } else {
      assert rows[..|rows| - 1][..i] == rows[..i];
      GenuineMonotone(scope, resolve, rows[..|rows| - 1], i);
    }
  }

  /** When a batch updates nothing, no reached row is left. */
  lemma QuietBatchIsFinal(scope: Scope, resolve: Text -> Language, rows: seq<Row>)
    requires forall i :: 0 <= i < |rows| ==> !InBatch(scope, resolve, rows, i)
    ensures Final(scope, resolve, rows) == rows
  {
    forall i | 0 <= i < |rows|
      ensures !Reached(scope, resolve, rows, i)
    {
      if Reached(scope, resolve, rows, i) {
        NoReachedRow(scope, resolve, rows, i);
      }
    }
  }

  /** The first resolvable row has only genuine candidates before it. */
  lemma {:induction false} NoReachedRow(scope: Scope, resolve: Text -> Language, rows: seq<Row>, i: nat)
    requires i < |rows| && Reached(scope, resolve, rows, i)
    ensures exists j :: 0 <= j < |rows| && InBatch(scope, resolve, rows, j)
    decreases i
  {
    if j :| 0 <= j < i && Resolvable(scope, resolve, rows[j]) {
      assert rows[..i][..j] == rows[..j];
      GenuineMonotone(scope, resolve, rows[..i], j);
      NoReachedRow(scope, resolve, rows, j);
    } else {
      GenuineAreCandidates(scope, resolve, rows[..i]);
      assert InBatch(scope, resolve, rows, i);
    }
  }

  // ---------------------------------------------------------------- counting

  function Tally(flags: seq<bool>): nat {
    if flags == [] then 0 else Tally(flags[..|flags| - 1]) + if flags[|flags| - 1] then 1 else 0
  }

  lemma {:induction false} TallyFlip(flags: seq<bool>, i: nat)
    requires i < |flags| && !flags[i]
    ensures Tally(flags[i := true]) == Tally(flags) + 1
  {
    var n := |flags| - 1;
    if i == n {
      assert flags[i := true][..n] == flags[..n];
    } else {
      TallyFlip(flags[..n], i);
      assert flags[i := true][..n] == flags[..n][i := true];
    }
  }

  lemma {:induction false} TallyNone(flags: seq<bool>)
    ensures Tally(flags) == 0 <==> forall i :: 0 <= i < |flags| ==> !flags[i]
  {
    if flags != [] {
      TallyNone(flags[..|flags| - 1]);
    }
  }

  /** Disjoint flags add up; included ones count no more. */
  lemma {:induction false} TallySplit(all: seq<bool>, some: seq<bool>, rest: seq<bool>)
    requires |all| == |some| == |rest|
    requires forall i :: 0 <= i < |all| ==> (all[i] <==> some[i] || rest[i]) && !(some[i] && rest[i])
    ensures Tally(all) == Tally(some) + Tally(rest)
  {
    if all != [] {
      var n := |all| - 1;
      TallySplit(all[..n], some[..n], rest[..n]);
    }
  }

  lemma {:induction false} TallyIncluded(all: seq<bool>, some: seq<bool>)
    requires |all| == |some| && forall i :: 0 <= i < |all| ==> (some[i] ==> all[i])
    ensures Tally(some) <= Tally(all)
    ensures Tally(some) == Tally(all) <==> forall i :: 0 <= i < |all| ==> (all[i] ==> some[i])
  {
    if all != [] {
      TallyIncluded(all[..|all| - 1], some[..|all| - 1]);
    }
  }

  function ReachedFlags(scope: Scope, resolve: Text -> Language, rows: seq<Row>): seq<bool> {
    seq(|rows|, i requires 0 <= i < |rows| => Reached(scope, resolve, rows, i))
  }

  function ResolvableFlags(scope: Scope, resolve: Text -> Language, rows: seq<Row>): seq<bool> {
    seq(|rows|, i requires 0 <= i < |rows| => Resolvable(scope, resolve, rows[i]))
  }

  function BatchFlags(scope: Scope, resolve: Text -> Language, rows: seq<Row>): seq<bool> {
    seq(|rows|, i requires 0 <= i < |rows| => InBatch(scope, resolve, rows, i))
  }

  /** The updates of one batch and those still to come are all the updates of the pass. */
  lemma BatchCounts(scope: Scope, resolve: Text -> Language, rows: seq<Row>)
    ensures Tally(ReachedFlags(scope, resolve, rows)) ==
            Tally(BatchFlags(scope, resolve, rows))
            + Tally(ReachedFlags(scope, resolve, AfterBatch(scope, resolve, rows)))
  {
    var rows' := AfterBatch(scope, resolve, rows);
    forall i | 0 <= i < |rows|
      ensures Reached(scope, resolve, rows, i) <==>
              InBatch(scope, resolve, rows, i) || Reached(scope, resolve, rows', i)
      ensures !(InBatch(scope, resolve, rows, i) && Reached(scope, resolve, rows', i))
    {
      GenuineUnchanged(scope, resolve, rows[..i], rows'[..i]);
      GenuineAreCandidates(scope, resolve, rows[..i]);
    }
    TallySplit(ReachedFlags(scope, resolve, rows), BatchFlags(scope, resolve, rows),
               ReachedFlags(scope, resolve, rows'));
  }

  // ---------------------------------------------------------------- the loops

  /** Row `i` is a candidate, and its number among them lies in the page at `offset`. */
  predicate OnPage(scope: Scope, rows: seq<Row>, offset: nat, i: nat)
    requires i < |rows|
  {
    Candidate(scope, rows[i]) && offset <= CandidatesIn(scope, rows[..i]) < offset + BATCH_SIZE
  }

  /** `idxs` are the rows of the page at `offset`, in order. */
  ghost predicate IsPage(scope: Scope, rows: seq<Row>, offset: nat, idxs: seq<nat>) {
    && (forall i :: i in idxs ==> i < |rows|)
    && (forall j, k :: 0 <= j < k < |idxs| ==> idxs[j] < idxs[k])
    && (forall i :: 0 <= i < |rows| ==> (i in idxs <==> OnPage(scope, rows, offset, i)))
  }

  /** SELECT ... ORDER BY created LIMIT ... OFFSET ... */
  method Fetch(rows: array<Row>, scope: Scope, offset: nat) returns (idxs: seq<nat>)
    ensures IsPage(scope, rows[..], offset, idxs)
  {
    idxs := [];
    var seen := 0;
    for n := 0 to rows.Length
      invariant seen == CandidatesIn(scope, rows[..n])
      invariant IsPage(scope, rows[..n], offset, idxs)
    {
      assert rows[..n + 1][..n] == rows[..n];
      PageGrows(scope, rows[..n + 1], n, offset, idxs);
      if Candidate(scope, rows[n]) {
        if offset <= seen < offset + BATCH_SIZE {
          idxs := idxs + [n];
        }
        seen := seen + 1;
      }
    }
    assert rows[..rows.Length] == rows[..];
  }

  lemma PageGrows(scope: Scope, rows: seq<Row>, n: nat, offset: nat, idxs: seq<nat>)
    requires |rows| == n + 1 && IsPage(scope, rows[..n], offset, idxs)
    ensures IsPage(scope, rows, offset, if OnPage(scope, rows, offset, n) then idxs + [n] else idxs)
  {
    var idxs' := if OnPage(scope, rows, offset, n) then idxs + [n] else idxs;
    assert forall j :: 0 <= j < |idxs| ==> idxs[j] in idxs;
    forall i | 0 <= i <= n
      ensures i in idxs' <==> OnPage(scope, rows, offset, i)
    {
      if i < n {
        assert rows[..n][..i] == rows[..i];
        assert i in idxs <==> OnPage(scope, rows[..n], offset, i);
      }
    }
  }

  /** The rows after the first `k` of a page have been looked at. */
  ghost function Through(scope: Scope, resolve: Text -> Language, rows: seq<Row>, idxs: seq<nat>, k: nat): seq<Row>
    requires k <= |idxs|
  {
    seq(|rows|, i requires 0 <= i < |rows| =>
      if i in idxs[..k] && Resolvable(scope, resolve, rows[i]) then Updated(resolve, rows[i]) else rows[i])
  }

  ghost function ThroughFlags(scope: Scope, resolve: Text -> Language, rows: seq<Row>, idxs: seq<nat>, k: nat)
    : seq<bool>
    requires k <= |idxs|
  {
    seq(|rows|, i requires 0 <= i < |rows| => i in idxs[..k] && Resolvable(scope, resolve, rows[i]))
  }

  lemma ThroughOneMore(scope: Scope, resolve: Text -> Language, rows: seq<Row>, idxs: seq<nat>, k: nat)
    requires k < |idxs| && (forall i :: i in idxs ==> i < |rows|)
    requires forall j, k :: 0 <= j < k < |idxs| ==> idxs[j] < idxs[k]
    ensures idxs[k] in idxs
    ensures var i := idxs[k];
            && Through(scope, resolve, rows, idxs, k)[i] == rows[i]
            && (if Resolvable(scope, resolve, rows[i]) then
                  && Through(scope, resolve, rows, idxs, k + 1) ==
                     Through(scope, resolve, rows, idxs, k)[i := Updated(resolve, rows[i])]
                  && Tally(ThroughFlags(scope, resolve, rows, idxs, k + 1)) ==
                     Tally(ThroughFlags(scope, resolve, rows, idxs, k)) + 1
                else
                  && Through(scope, resolve, rows, idxs, k + 1) == Through(scope, resolve, rows, idxs, k)
                  && Tally(ThroughFlags(scope, resolve, rows, idxs, k + 1)) ==
                     Tally(ThroughFlags(scope, resolve, rows, idxs, k)))
  {
    var i := idxs[k];
    assert i in idxs && idxs[..k + 1] == idxs[..k] + [i];
    assert i !in idxs[..k];
    var flags := ThroughFlags(scope, resolve, rows, idxs, k);
    if Resolvable(scope, resolve, rows[i]) {
      assert ThroughFlags(scope, resolve, rows, idxs, k + 1) == flags[i := true];
      TallyFlip(flags, i);
    } else {
      assert ThroughFlags(scope, resolve, rows, idxs, k + 1) == flags;
    }
  }

  lemma ThroughAll(scope: Scope, resolve: Text -> Language, rows: seq<Row>, idxs: seq<nat>)
    requires IsPage(scope, rows, 0, idxs)
    ensures Through(scope, resolve, rows, idxs, |idxs|) == AfterBatch(scope, resolve, rows)
    ensures ThroughFlags(scope, resolve, rows, idxs, |idxs|) == BatchFlags(scope, resolve, rows)
  {
    assert idxs[..|idxs|] == idxs;
  }

  /** The inner loop: resolve the language of every row of the batch and store what is not simple. */
  method UpdateBatch(rows: array<Row>, scope: Scope, resolve: Text -> Language, idxs: seq<nat>)
    returns (batchUpdated: nat)
    requires IsPage(scope, rows[..], 0, idxs)
    modifies rows
    ensures rows[..] == AfterBatch(scope, resolve, old(rows[..]))
    ensures batchUpdated == Tally(BatchFlags(scope, resolve, old(rows[..])))
  {
    ghost var before := rows[..];
    batchUpdated := 0;
    TallyNone(ThroughFlags(scope, resolve, before, idxs, 0));
    for k := 0 to |idxs|
      invariant rows[..] == Through(scope, resolve, before, idxs, k)
      invariant batchUpdated == Tally(ThroughFlags(scope, resolve, before, idxs, k))
    {
      assert idxs[k] in idxs;
      ThroughOneMore(scope, resolve, before, idxs, k);
      var row := rows[idxs[k]];
      var lang := resolve(row.text);
      if !lang.Simple? {
        rows[idxs[k]] := row.(language := lang);
        batchUpdated := batchUpdated + 1;
      }
    }
    ThroughAll(scope, resolve, before, idxs);
  }

  /** A batch with nothing to update ends the pass. */
  lemma NothingToUpdate(scope: Scope, resolve: Text -> Language, rows: seq<Row>)
    requires Tally(BatchFlags(scope, resolve, rows)) == 0
    ensures AfterBatch(scope, resolve, rows) == rows && Final(scope, resolve, rows) == rows
    ensures Tally(ReachedFlags(scope, resolve, rows)) == 0
  {
    var flags := BatchFlags(scope, resolve, rows);
    TallyNone(flags);
    assert forall i :: 0 <= i < |rows| ==> flags[i] == InBatch(scope, resolve, rows, i);
    QuietBatchIsFinal(scope, resolve, rows);
    forall i | 0 <= i < |rows|
      ensures !Reached(scope, resolve, rows, i)
    {
      if Reached(scope, resolve, rows, i) {
        NoReachedRow(scope, resolve, rows, i);
      }
    }
    TallyNone(ReachedFlags(scope, resolve, rows));
  }

  lemma EmptyPageUpdatesNothing(scope: Scope, resolve: Text -> Language, rows: seq<Row>)
    requires IsPage(scope, rows, 0, [])
    ensures Tally(BatchFlags(scope, resolve, rows)) == 0
  {
    forall i | 0 <= i < |rows|
      ensures !InBatch(scope, resolve, rows, i)
    {
      assert !OnPage(scope, rows, 0, i);
    }
    TallyNone(BatchFlags(scope, resolve, rows));
  }

  /** The batch loop of the script for one owner, and of the migration for everybody. */
  method Backfill(rows: array<Row>, scope: Scope, resolve: Text -> Language) returns (updated: nat)
    modifies rows
    ensures rows[..] == Final(scope, resolve, old(rows[..]))
    ensures updated == Tally(ReachedFlags(scope, resolve, old(rows[..])))
  {
    ghost var start := rows[..];
    updated := 0;
    while true
      invariant Final(scope, resolve, rows[..]) == Final(scope, resolve, start)
      invariant updated + Tally(ReachedFlags(scope, resolve, rows[..])) == Tally(ReachedFlags(scope, resolve, start))
      decreases Tally(ReachedFlags(scope, resolve, rows[..]))
    {
      ghost var before := rows[..];
      BatchKeepsFinal(scope, resolve, before);
      BatchCounts(scope, resolve, before);
      var idxs := Fetch(rows, scope, 0);
      if idxs == [] {
        EmptyPageUpdatesNothing(scope, resolve, before);
        NothingToUpdate(scope, resolve, before);
        break;
      }
      var batchUpdated := UpdateBatch(rows, scope, resolve, idxs);
      updated := updated + batchUpdated;
      if batchUpdated == 0 {
        NothingToUpdate(scope, resolve, before);
        break;
      }
    }
  }

  /** The dry run: page through the candidates and count those that would be updated. */
  method DryRun(rows: array<Row>, scope: Scope, resolve: Text -> Language) returns (count: nat)
    ensures count == Tally(ResolvableFlags(scope, resolve, rows[..]))
  {
    ghost var all := rows[..];
    count := 0;
    var offset := 0;
    NonePassed(scope, resolve, all);
    while true
      invariant count == Tally(PassedFlags(scope, resolve, all, offset))
      invariant offset <= CandidatesIn(scope, all) + BATCH_SIZE
      decreases CandidatesIn(scope, all) + BATCH_SIZE - offset
    {
      var idxs := Fetch(rows, scope, offset);
      if idxs == [] {
        AllPassed(scope, resolve, all, offset);
        break;
      }
      var batch := CountBatch(rows, scope, resolve, idxs);
      PageCounts(scope, resolve, all, offset, idxs);
      count := count + batch;
      offset := offset + BATCH_SIZE;
    }
  }

  /** The inner loop of the dry run. */
  method CountBatch(rows: array<Row>, scope: Scope, resolve: Text -> Language, idxs: seq<nat>) returns (count: nat)
    requires forall i :: i in idxs ==> i < rows.Length
    requires forall j, k :: 0 <= j < k < |idxs| ==> idxs[j] < idxs[k]
    requires forall i :: i in idxs ==> Candidate(scope, rows[i])
    ensures count == Tally(ThroughFlags(scope, resolve, rows[..], idxs, |idxs|))
  {
    ghost var all := rows[..];
    count := 0;
    TallyNone(ThroughFlags(scope, resolve, all, idxs, 0));
    for k := 0 to |idxs|
      invariant count == Tally(ThroughFlags(scope, resolve, all, idxs, k))
    {
      ThroughOneMore(scope, resolve, all, idxs, k);
      assert idxs[k] in idxs;
      if !resolve(rows[idxs[k]].text).Simple? {
        count := count + 1;
      }
    }
  }

  /** The resolvable rows among the first `offset` candidates. */
  ghost function PassedFlags(scope: Scope, resolve: Text -> Language, rows: seq<Row>, offset: nat): seq<bool> {
    seq(|rows|, i requires 0 <= i < |rows| =>
      Resolvable(scope, resolve, rows[i]) && CandidatesIn(scope, rows[..i]) < offset)
  }

  lemma NonePassed(scope: Scope, resolve: Text -> Language, rows: seq<Row>)
    ensures Tally(PassedFlags(scope, resolve, rows, 0)) == 0
  {
    TallyNone(PassedFlags(scope, resolve, rows, 0));
  }

  /** Each page adds exactly its own resolvable rows. */
  lemma PageCounts(scope: Scope, resolve: Text -> Language, rows: seq<Row>, offset: nat, idxs: seq<nat>)
    requires IsPage(scope, rows, offset, idxs) && idxs != []
    ensures Tally(PassedFlags(scope, resolve, rows, offset + BATCH_SIZE)) ==
            Tally(PassedFlags(scope, resolve, rows, offset)) + Tally(ThroughFlags(scope, resolve, rows, idxs, |idxs|))
    ensures offset < CandidatesIn(scope, rows)
  {
    assert idxs[..|idxs|] == idxs;
    TallySplit(PassedFlags(scope, resolve, rows, offset + BATCH_SIZE), PassedFlags(scope, resolve, rows, offset),
               ThroughFlags(scope, resolve, rows, idxs, |idxs|));
    assert idxs[0] in idxs;
    CandidateCounts(scope, rows, idxs[0]);
  }

  lemma {:induction false} CandidateCounts(scope: Scope, rows: seq<Row>, i: nat)
    requires i < |rows| && Candidate(scope, rows[i])
    ensures CandidatesIn(scope, rows[..i]) < CandidatesIn(scope, rows)
  {
    if i == |rows| - 1 {
    } else {
      assert rows[..|rows| - 1][..i] == rows[..i];
      CandidateCounts(scope, rows[..|rows| - 1], i);
    }
  }

  lemma {:induction false} CandidateAt(scope: Scope, rows: seq<Row>, n: nat)
    requires n < CandidatesIn(scope, rows)
    ensures exists i :: 0 <= i < |rows| && Candidate(scope, rows[i]) && CandidatesIn(scope, rows[..i]) == n
  {
    var m := |rows| - 1;
    if n < CandidatesIn(scope, rows[..m]) {
      CandidateAt(scope, rows[..m], n);
      var i :| 0 <= i < m && Candidate(scope, rows[..m][i]) && CandidatesIn(scope, rows[..m][..i]) == n;
      assert rows[..m][..i] == rows[..i];
    }
  }

  lemma PageNotEmpty(scope: Scope, rows: seq<Row>, offset: nat)
    requires offset < CandidatesIn(scope, rows)
    ensures exists i :: 0 <= i < |rows| && OnPage(scope, rows, offset, i)
  {
    CandidateAt(scope, rows, offset);
    var i :| 0 <= i < |rows| && Candidate(scope, rows[i]) && CandidatesIn(scope, rows[..i]) == offset;
    assert OnPage(scope, rows, offset, i);
  }

  /** An empty page means that every candidate has been passed. */
  lemma AllPassed(scope: Scope, resolve: Text -> Language, rows: seq<Row>, offset: nat)
    requires IsPage(scope, rows, offset, [])
    ensures PassedFlags(scope, resolve, rows, offset) == ResolvableFlags(scope, resolve, rows)
  {
    if offset < CandidatesIn(scope, rows) {
      PageNotEmpty(scope, rows, offset);
      assert false;
    }
    forall i | 0 <= i < |rows| && Resolvable(scope, resolve, rows[i])
      ensures CandidatesIn(scope, rows[..i]) < offset
    {
      CandidateCounts(scope, rows, i);
    }
  }

  // ---------------------------------------------------------------- what a pass achieves

  lemma {:induction false} TallyCounts(flags: seq<bool>)
    ensures Tally(flags) == |Satisfying(flags, (b: bool) => b)|
  {
    if flags != [] {
      TallyCounts(flags[..|flags| - 1]);
      SatisfyingLast(flags, b => b);
    }
  }

  lemma {:induction false} GenuineCounts(scope: Scope, resolve: Text -> Language, rows: seq<Row>)
    ensures GenuineIn(scope, resolve, rows) == |Satisfying(rows, r => Genuine(scope, resolve, r))|
  {
    if rows != [] {
      GenuineCounts(scope, resolve, rows[..|rows| - 1]);
      SatisfyingLast(rows, r => Genuine(scope, resolve, r));
    }
  }

  /** A pass stores the resolved language in exactly the live `simple` rows it sees whose language
      is resolved and that have fewer than a hundred before them whose language is not. */
  lemma OnlyResolvedLanguages(scope: Scope, resolve: Text -> Language, rows: seq<Row>, i: nat, before: set<nat>)
    requires i < |rows|
    requires before == set j: nat | && j < i && !rows[j].deleted && rows[j].language == Simple
                                    && (scope == Everybody || scope == Only(rows[j].owner))
                                    && resolve(rows[j].text) == Simple
    ensures Final(scope, resolve, rows)[i] ==
            if && !rows[i].deleted && rows[i].language == Simple
               && (scope == Everybody || scope == Only(rows[i].owner))
               && resolve(rows[i].text) != Simple && |before| < 100
            then rows[i].(language := resolve(rows[i].text)) else rows[i]
  {
    GenuineCounts(scope, resolve, rows[..i]);
    assert before == Satisfying(rows[..i], r => Genuine(scope, resolve, r));
  }

  /** The number returned by a pass is that of the rows it changes. */
  lemma UpdatedIsChanged(scope: Scope, resolve: Text -> Language, rows: seq<Row>)
    ensures Tally(ReachedFlags(scope, resolve, rows)) ==
            |set i: nat | i < |rows| && Final(scope, resolve, rows)[i] != rows[i]|
  {
    var flags := ReachedFlags(scope, resolve, rows);
    TallyCounts(flags);
    assert Satisfying(flags, (b: bool) => b) ==
           set i: nat | i < |rows| && Final(scope, resolve, rows)[i] != rows[i];
  }

  /** The number returned by a dry run is that of the live `simple` rows it sees whose language is
      resolved. */
  lemma DryRunIsResolvable(scope: Scope, resolve: Text -> Language, rows: seq<Row>)
    ensures Tally(ResolvableFlags(scope, resolve, rows)) ==
            |set i: nat | && i < |rows| && !rows[i].deleted && rows[i].language == Simple
                          && (scope == Everybody || scope == Only(rows[i].owner))
                          && resolve(rows[i].text) != Simple|
  {
    var flags := ResolvableFlags(scope, resolve, rows);
    TallyCounts(flags);
    assert Satisfying(flags, (b: bool) => b) ==
           set i: nat | && i < |rows| && !rows[i].deleted && rows[i].language == Simple
                        && (scope == Everybody || scope == Only(rows[i].owner))
                        && resolve(rows[i].text) != Simple;
  }

  lemma GenuineInFinal(scope: Scope, resolve: Text -> Language, rows: seq<Row>, i: nat)
    requires i <= |rows|
    ensures GenuineIn(scope, resolve, Final(scope, resolve, rows)[..i]) == GenuineIn(scope, resolve, rows[..i])
  {
    GenuineUnchanged(scope, resolve, rows[..i], Final(scope, resolve, rows)[..i]);
  }

  /** A second pass changes nothing. */
  lemma PassIsIdempotent(scope: Scope, resolve: Text -> Language, rows: seq<Row>)
    ensures Final(scope, resolve, Final(scope, resolve, rows)) == Final(scope, resolve, rows)
  {
    var rows' := Final(scope, resolve, rows);
    forall i | 0 <= i < |rows|
      ensures !Reached(scope, resolve, rows', i)
    {
      GenuineInFinal(scope, resolve, rows, i);
    }
  }

  ghost predicate Complete(scope: Scope, resolve: Text -> Language, rows: seq<Row>) {
    forall i :: 0 <= i < |rows| ==> !Resolvable(scope, resolve, rows[i])
  }

  /** The pass leaves no resolvable row exactly when none has a full batch of genuine rows
      before it; fewer genuine rows than a batch in all are enough. */
  lemma CompleteIff(scope: Scope, resolve: Text -> Language, rows: seq<Row>)
    ensures Complete(scope, resolve, Final(scope, resolve, rows)) <==>
            forall i :: 0 <= i < |rows| && Resolvable(scope, resolve, rows[i]) ==>
              GenuineIn(scope, resolve, rows[..i]) < BATCH_SIZE
    ensures GenuineIn(scope, resolve, rows) < BATCH_SIZE ==> Complete(scope, resolve, Final(scope, resolve, rows))
  {
    var rows' := Final(scope, resolve, rows);
    forall i | 0 <= i < |rows|
      ensures Resolvable(scope, resolve, rows'[i]) <==>
              Resolvable(scope, resolve, rows[i]) && GenuineIn(scope, resolve, rows[..i]) >= BATCH_SIZE
      ensures GenuineIn(scope, resolve, rows[..i]) <= GenuineIn(scope, resolve, rows)
    {
      GenuineMonotone(scope, resolve, rows, i);
    }
  }

  /** The dry run's count bounds the real one, and equals it exactly when the pass is complete. */
  lemma DryRunBounds(scope: Scope, resolve: Text -> Language, rows: seq<Row>)
    ensures Tally(ReachedFlags(scope, resolve, rows)) <= Tally(ResolvableFlags(scope, resolve, rows))
    ensures Tally(ReachedFlags(scope, resolve, rows)) == Tally(ResolvableFlags(scope, resolve, rows)) <==>
            Complete(scope, resolve, Final(scope, resolve, rows))
  {
    var reached, resolvable := ReachedFlags(scope, resolve, rows), ResolvableFlags(scope, resolve, rows);
    TallyIncluded(resolvable, reached);
    CompleteIff(scope, resolve, rows);
    assert forall i :: 0 <= i < |rows| ==> resolvable[i] == Resolvable(scope, resolve, rows[i])
                                           && reached[i] == Reached(scope, resolve, rows, i);
  }

  // ---------------------------------------------------------------- owner by owner

  function AllOwners(owners: seq<Owner>, resolve: Text -> Language, rows: seq<Row>): (r: seq<Row>)
    ensures |r| == |rows|
  {
    if owners == [] then rows
    else Final(Only(owners[|owners| - 1]), resolve, AllOwners(owners[..|owners| - 1], resolve, rows))
  }

  /** The script's outer loop. */
  method BackfillOwners(rows: array<Row>, owners: seq<Owner>, resolve: Text -> Language)
    modifies rows
    ensures rows[..] == AllOwners(owners, resolve, old(rows[..]))
  {
    ghost var start := rows[..];
    assert owners[..0] == [];
    for n := 0 to |owners|
      invariant rows[..] == AllOwners(owners[..n], resolve, start)
    {
      assert owners[..n + 1][..n] == owners[..n];
      var _ := Backfill(rows, Only(owners[n]), resolve);
    }
    assert owners[..|owners|] == owners;
  }

  /** Rows of other owners neither count nor change. */
  lemma {:induction false} GenuineOfOwner(owner: Owner, resolve: Text -> Language, rows: seq<Row>, rows': seq<Row>)
    requires |rows| == |rows'|
    requires forall i :: 0 <= i < |rows| ==> rows[i] == rows'[i] || (rows[i].owner != owner && rows'[i].owner != owner)
    ensures GenuineIn(Only(owner), resolve, rows) == GenuineIn(Only(owner), resolve, rows')
  {
    if rows != [] {
      GenuineOfOwner(owner, resolve, rows[..|rows| - 1], rows'[..|rows| - 1]);
    }
  }

  /** Owners do not interfere: each row ends as its own owner's pass over the original rows
      leaves it, and rows of owners not visited stay as they were. */
  lemma {:induction false} OwnersIndependent(owners: seq<Owner>, resolve: Text -> Language, rows: seq<Row>, i: nat)
    requires i < |rows|
    requires forall j, k :: 0 <= j < k < |owners| ==> owners[j] != owners[k]
    ensures AllOwners(owners, resolve, rows)[i] ==
            if rows[i].owner in owners then Final(Only(rows[i].owner), resolve, rows)[i] else rows[i]
    decreases |owners|
  {
    if owners != [] {
      var n := |owners| - 1;
      var last, before := owners[n], AllOwners(owners[..n], resolve, rows);
      assert owners == owners[..n] + [last];
      forall j | 0 <= j <= i
        ensures before[j].owner == rows[j].owner
        ensures rows[j].owner == last ==> before[j] == rows[j]
      {
        OwnersIndependent(owners[..n], resolve, rows, j);
      }
      OwnersIndependent(owners[..n], resolve, rows, i);
      GenuineOfOwner(last, resolve, rows[..i], before[..i]);
    }
  }
}
