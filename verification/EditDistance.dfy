/**
 The spelling helpers: a two-row edit-distance loop and the "did you mean" search
 built on it.

 The distance is specified by editing scripts: sequences of single-character
 insertions, deletions and substitutions applied one after the other at explicit
 positions.  Nothing in that specification mentions the table the loop fills in.
 */
module EditDistance {
  import opened Options

  datatype Edit =
    | Insert(pos: nat, c: char)
    | Delete(pos: nat)
    | Substitute(pos: nat, c: char)

  predicate Applicable(e: Edit, s: string) {
    match e
    case Insert(p, _) => p <= |s|
    case Delete(p) => p < |s|
    case Substitute(p, _) => p < |s|
  }

  function Apply(e: Edit, s: string): string
    requires Applicable(e, s)
  {
    match e
    case Insert(p, c) => s[..p] + [c] + s[p..]
    case Delete(p) => s[..p] + s[p + 1..]
    case Substitute(p, c) => s[..p] + [c] + s[p + 1..]
  }

  /** Applying the edits of `script` in order turns `a` into `b`. */
  ghost predicate Rewrites(script: seq<Edit>, a: string, b: string) {
    if script == [] then a == b
    else Applicable(script[0], a) && Rewrites(script[1..], Apply(script[0], a), b)
  }

  /** `d` is the length of a shortest script from `a` to `b`. */
  ghost predicate IsDistance(d: nat, a: string, b: string) {
    && (exists script :: Rewrites(script, a, b) && |script| == d)
    && (forall script :: Rewrites(script, a, b) ==> d <= |script|)
  }

  // ---------------------------------------------------------------- scripts compose and reverse

  lemma {:induction false} RewritesThenRewrites(s: seq<Edit>, t: seq<Edit>, a: string, b: string, c: string)
    requires Rewrites(s, a, b) && Rewrites(t, b, c)
    ensures Rewrites(s + t, a, c)
  {
    if s == [] {
      assert s + t == t;
    } else {
      RewritesThenRewrites(s[1..], t, Apply(s[0], a), b, c);
      assert (s + t)[1..] == s[1..] + t;
    }
  }

  function Inverse(e: Edit, s: string): Edit
    requires Applicable(e, s)
  {
    match e
    case Insert(p, _) => Delete(p)
    case Delete(p) => Insert(p, s[p])
    case Substitute(p, _) => Substitute(p, s[p])
  }

  lemma InverseUndoes(e: Edit, s: string)
    requires Applicable(e, s)
    ensures Applicable(Inverse(e, s), Apply(e, s)) && Apply(Inverse(e, s), Apply(e, s)) == s
  {
    match e
    case Insert(p, c) => assert Apply(Delete(p), s[..p] + [c] + s[p..]) == s;
    case Delete(p) => assert Apply(Insert(p, s[p]), s[..p] + s[p + 1..]) == s;
    case Substitute(p, c) => assert Apply(Substitute(p, s[p]), s[..p] + [c] + s[p + 1..]) == s;
  }

  lemma {:induction false} ReverseScript(s: seq<Edit>, a: string, b: string) returns (back: seq<Edit>)
    requires Rewrites(s, a, b)
    ensures Rewrites(back, b, a) && |back| == |s|
  {
    if s == [] {
      back := [];
    } else {
      var mid := Apply(s[0], a);
      var rest := ReverseScript(s[1..], mid, b);
      InverseUndoes(s[0], a);
      var last := [Inverse(s[0], a)];
      assert Rewrites(last[1..], a, a);
      assert Rewrites(last, mid, a);
      RewritesThenRewrites(rest, last, b, mid, a);
      back := rest + last;
    }
  }

  // ---------------------------------------------------------------- the table entry for two prefixes

  function Min3(x: nat, y: nat, z: nat): nat {
    var m := if x < y then x else y;
    if m < z then m else z
  }

  /** The value the table holds for the prefixes `a` and `b`. */
  function Entry(a: string, b: string): nat
    decreases |a| + |b|
  {
    if |a| == 0 then |b|
    else if |b| == 0 then |a|
    else
      var x, y := a[..|a| - 1], b[..|b| - 1];
      Min3(Entry(x, b) + 1, Entry(a, y) + 1,
           Entry(x, y) + if a[|a| - 1] == b[|b| - 1] then 0 else 1)
  }

  /** Dropping one trailing character changes the entry by at most one. */
  lemma {:induction false} EntryDropLast(a: string, c: char, b: string)
    ensures Entry(a, b) <= Entry(a + [c], b) + 1
    decreases |b|
  {
    assert (a + [c])[..|a|] == a;
    if |b| > 0 && |a| > 0 {
      EntryDropLast(a, c, b[..|b| - 1]);
    } else if |b| > 0 {
      EntryDropLast(a, c, b[..|b| - 1]);
    }
  }

  /** One edit lowers the entry by at most one. */
  lemma {:induction false} EntryOneEdit(a: string, e: Edit, b: string)
    requires Applicable(e, a)
    ensures Entry(a, b) <= Entry(Apply(e, a), b) + 1
    decreases |a| + |b|
  {
    var a' := Apply(e, a);
    if e.Insert? && e.pos == |a| {
      assert a' == a + [e.c];
      EntryDropLast(a, e.c, b);
    } else if e.pos == |a| - 1 && !e.Insert? {
      var x := a[..|a| - 1];
      if e.Delete? {
        assert a' == x;
        EntryAtMostOneMore(a, b);
      } else {
        assert a' == x + [e.c] && a'[..|a'| - 1] == x;
        EntryAtMostOneMore(a, b);
        if |b| > 0 {
          EntryOneEdit(a, e, b[..|b| - 1]);
        }
      }
    } else {
      EntryInnerEdit(a, e, b);
    }
  }

  lemma EntryAtMostOneMore(a: string, b: string)
    requires |a| > 0
    ensures Entry(a, b) <= Entry(a[..|a| - 1], b) + 1
  {
  }

  /** The inductive case of `EntryOneEdit`: the edit leaves the last character alone. */
  lemma {:induction false} EntryInnerEdit(a: string, e: Edit, b: string)
    requires Applicable(e, a) && |a| > 0
    requires if e.Insert? then e.pos < |a| else e.pos < |a| - 1
    ensures Entry(a, b) <= Entry(Apply(e, a), b) + 1
    decreases |a| + |b|, 0
  {
    var x, z := a[..|a| - 1], a[|a| - 1];
    var a' := Apply(e, a);
    var x' := Apply(e, x);
    assert a' == x' + [z] && a'[..|a'| - 1] == x';
    if |b| == 0 {
    } else {
      var y := b[..|b| - 1];
      EntryOneEdit(x, e, b);
      EntryOneEdit(a, e, y);
      EntryOneEdit(x, e, y);
    }
  }

  /** No script is shorter than the entry. */
  lemma {:induction false} EntryIsLowerBound(script: seq<Edit>, a: string, b: string)
    requires Rewrites(script, a, b)
    ensures Entry(a, b) <= |script|
  {
    if script == [] {
      EntryOfEqual(a);
    } else {
      EntryIsLowerBound(script[1..], Apply(script[0], a), b);
      EntryOneEdit(a, script[0], b);
    }
  }

  lemma EntryOfEqual(a: string)
    ensures Entry(a, a) == 0
  {
    if |a| > 0 {
      EntryOfEqual(a[..|a| - 1]);
    }
  }

  /** A script for the front of a string still works when a character follows it. */
  lemma {:induction false} RewritesUnderSuffix(s: seq<Edit>, a: string, b: string, z: char)
    requires Rewrites(s, a, b)
    ensures Rewrites(s, a + [z], b + [z])
  {
    if s != [] {
      assert Apply(s[0], a + [z]) == Apply(s[0], a) + [z];
      RewritesUnderSuffix(s[1..], Apply(s[0], a), b, z);
    }
  }

  lemma RewritesSingle(e: Edit, a: string)
    requires Applicable(e, a)
    ensures Rewrites([e], a, Apply(e, a))
  {
    assert Rewrites([e][1..], Apply(e, a), Apply(e, a));
  }

  /** Some script has exactly the length of the entry. */
  lemma {:induction false} EntryIsAttained(a: string, b: string) returns (script: seq<Edit>)
    ensures Rewrites(script, a, b) && |script| == Entry(a, b)
    decreases |a| + |b|
  {
    if |a| == 0 && |b| == 0 {
      script := [];
    } else if |b| > 0 && (|a| == 0 || Entry(a, b) == Entry(a, b[..|b| - 1]) + 1) {
      var s := EntryIsAttained(a, b[..|b| - 1]);
      script := ExtendByInsert(s, a, b);
    } else if |b| == 0 || Entry(a, b) == Entry(a[..|a| - 1], b) + 1 {
      var s := EntryIsAttained(a[..|a| - 1], b);
      script := ExtendByDelete(s, a, b);
    } else {
      var s := EntryIsAttained(a[..|a| - 1], b[..|b| - 1]);
      script := ExtendByPair(s, a, b);
    }
  }

  lemma ExtendByInsert(s: seq<Edit>, a: string, b: string) returns (script: seq<Edit>)
    requires |b| > 0 && Rewrites(s, a, b[..|b| - 1])
    ensures Rewrites(script, a, b) && |script| == |s| + 1
  {
    var y := b[..|b| - 1];
    var e := Insert(|y|, b[|y|]);
    assert Apply(e, y) == b;
    RewritesSingle(e, y);
    RewritesThenRewrites(s, [e], a, y, b);
    script := s + [e];
  }

  lemma ExtendByDelete(s: seq<Edit>, a: string, b: string) returns (script: seq<Edit>)
    requires |a| > 0 && Rewrites(s, a[..|a| - 1], b)
    ensures Rewrites(script, a, b) && |script| == |s| + 1
  {
    var x := a[..|a| - 1];
    var e := Delete(|x|);
    assert Apply(e, a) == x;
    RewritesSingle(e, a);
    RewritesThenRewrites([e], s, a, x, b);
    script := [e] + s;
  }

  lemma ExtendByPair(s: seq<Edit>, a: string, b: string) returns (script: seq<Edit>)
    requires |a| > 0 && |b| > 0 && Rewrites(s, a[..|a| - 1], b[..|b| - 1])
    ensures Rewrites(script, a, b) && |script| == |s| + if a[|a| - 1] == b[|b| - 1] then 0 else 1
  {
    script := ExtendToLastPair(s, a[..|a| - 1], b[..|b| - 1], a, b);
  }

  lemma ExtendToLastPair(s: seq<Edit>, x: string, y: string, a: string, b: string) returns (script: seq<Edit>)
    requires |a| > 0 && |b| > 0 && x == a[..|a| - 1] && y == b[..|b| - 1]
    requires Rewrites(s, x, y)
    ensures Rewrites(script, a, b) && |script| == |s| + if a[|x|] == b[|y|] then 0 else 1
  {
    var z, c := a[|x|], b[|y|];
    assert a == x + [z] && b == y + [c];
    RewritesUnderSuffix(s, x, y, z);
    if z == c {
      script := s;
    } else {
      SubstituteLast(y, z, c);
      var last := [Substitute(|y|, c)];
      RewritesThenRewrites(s, last, a, y + [z], b);
      script := s + last;
    }
  }

  lemma SubstituteLast(y: string, z: char, c: char)
    ensures Rewrites([Substitute(|y|, c)], y + [z], y + [c])
  {
    var e := Substitute(|y|, c);
    assert Apply(e, y + [z]) == y + [c];
    RewritesSingle(e, y + [z]);
  }

  /** The table entry is the edit distance. */
  lemma EntryIsDistance(a: string, b: string)
    ensures IsDistance(Entry(a, b), a, b)
  {
    var s := EntryIsAttained(a, b);
    forall script | Rewrites(script, a, b)
      ensures Entry(a, b) <= |script|
    {
      EntryIsLowerBound(script, a, b);
    }
  }

  // ---------------------------------------------------------------- the distance is a metric

  lemma DistanceZeroIffEqual(d: nat, a: string, b: string)
    requires IsDistance(d, a, b)
    ensures d == 0 <==> a == b
  {
    if a == b {
      assert Rewrites([], a, b);
    }
  }

  lemma DistanceSymmetric(d: nat, a: string, b: string)
    requires IsDistance(d, a, b)
    ensures IsDistance(d, b, a)
  {
    var s :| Rewrites(s, a, b) && |s| == d;
    var back := ReverseScript(s, a, b);
    forall t | Rewrites(t, b, a)
      ensures d <= |t|
    {
      var forth := ReverseScript(t, b, a);
    }
  }

  lemma DistanceTriangle(d: nat, e: nat, f: nat, a: string, b: string, c: string)
    requires IsDistance(d, a, b) && IsDistance(e, b, c) && IsDistance(f, a, c)
    ensures f <= d + e
  {
    var s :| Rewrites(s, a, b) && |s| == d;
    var t :| Rewrites(t, b, c) && |t| == e;
    RewritesThenRewrites(s, t, a, b, c);
  }

  // ---------------------------------------------------------------- the loops

  /** The two-row table, with the arguments swapped so that the rows are the short side. */
  method Levenshtein(a: string, b: string) returns (d: nat)
    ensures IsDistance(d, a, b)
    decreases |a| < |b|
  {
    if |a| < |b| {
      d := Levenshtein(b, a);
      DistanceSymmetric(d, b, a);
      return;
    }
    EntryIsDistance(a, b);
    if b == [] {
      return |a|;
    }
    var prev: seq<nat> := seq(|b| + 1, j => j);
    for i := 0 to |a|
      invariant IsRow(prev, a[..i], b)
    {
      var curr: seq<nat> := [i + 1];
      for j := 0 to |b|
        invariant |curr| == j + 1
        invariant IsRow(curr, a[..i + 1], b[..j])
      {
        RowStep(prev, curr, a, i, b, j);
        curr := curr + [Min3(prev[j + 1] + 1, curr[j] + 1, prev[j] + if a[i] != b[j] then 1 else 0)];
      }
      assert b[..|b|] == b;
      prev := curr;
    }
    assert a[..|a|] == a && b[..|b|] == b;
    return prev[|b|];
  }

  /** `row` holds the entries of `x` against every prefix of `b`. */
  ghost predicate IsRow(row: seq<nat>, x: string, b: string) {
    && |row| == |b| + 1
    && forall k :: 0 <= k <= |b| ==> row[k] == Entry(x, b[..k])
  }

  /** The recurrence at the cell (`i` + 1, `j` + 1), stated on prefixes of the whole strings. */
  lemma EntryStep(a: string, i: nat, b: string, j: nat)
    requires i < |a| && j < |b|
    ensures Entry(a[..i + 1], b[..j + 1]) ==
            Min3(Entry(a[..i], b[..j + 1]) + 1, Entry(a[..i + 1], b[..j]) + 1,
                 Entry(a[..i], b[..j]) + if a[i] != b[j] then 1 else 0)
  {
    assert a[..i + 1][..i] == a[..i] && b[..j + 1][..j] == b[..j];
  }

  lemma RowExtends(row: seq<nat>, x: string, b: string, j: nat, cell: nat)
    requires j < |b|
    requires IsRow(row, x, b[..j])
    requires cell == Entry(x, b[..j + 1])
    ensures IsRow(row + [cell], x, b[..j + 1])
  {
    forall k | 0 <= k <= j + 1
      ensures (row + [cell])[k] == Entry(x, b[..j + 1][..k])
    {
      assert b[..j + 1][..k] == b[..k];
      if k <= j {
        assert b[..j][..k] == b[..k];
      }
    }
  }

  /** One turn of the inner loop extends the new row by one correct cell. */
  lemma RowStep(prev: seq<nat>, curr: seq<nat>, a: string, i: nat, b: string, j: nat)
    requires i < |a| && j < |b|
    requires IsRow(prev, a[..i], b)
    requires IsRow(curr, a[..i + 1], b[..j])
    ensures IsRow(curr + [Min3(prev[j + 1] + 1, curr[j] + 1, prev[j] + if a[i] != b[j] then 1 else 0)],
                  a[..i + 1], b[..j + 1])
  {
    assert curr[j] == Entry(a[..i + 1], b[..j]) by {
      assert b[..j][..j] == b[..j];
    }
    var cell := Min3(prev[j + 1] + 1, curr[j] + 1, prev[j] + if a[i] != b[j] then 1 else 0);
    assert cell == Entry(a[..i + 1], b[..j + 1]) by {
      EntryStep(a, i, b, j);
    }
    RowExtends(curr, a[..i + 1], b, j, cell);
  }

  /** The case-folded distance of every valid value from `value`, in iteration order. */
  ghost function Distances(value: string, valid: seq<string>, lower: string -> string): (ds: seq<nat>)
    ensures |ds| == |valid|
  {
    seq(|valid|, i requires 0 <= i < |valid| => Entry(lower(value), lower(valid[i])))
  }

  lemma DistancesAreDistances(value: string, valid: seq<string>, lower: string -> string, i: nat, d: nat)
    requires i < |valid|
    ensures IsDistance(d, lower(value), lower(valid[i])) <==> d == Distances(value, valid, lower)[i]
  {
    EntryIsDistance(lower(value), lower(valid[i]));
  }

  /** Index `i` holds the smallest distance, and the first such. */
  ghost predicate IsFirstLeast(ds: seq<nat>, i: int) {
    && 0 <= i < |ds|
    && (forall j :: 0 <= j < |ds| ==> ds[i] <= ds[j])
    && (forall j :: 0 <= j < i ==> ds[i] < ds[j])
  }

  /** The state of the search after `n` values: nothing within two edits yet, or the first nearest. */
  ghost predicate Searched(n: nat, best: Option<string>, bestDist: nat, valid: seq<string>, ds: seq<nat>) {
    && n <= |ds| == |valid|
    && if best.None? then bestDist == 3 && forall j :: 0 <= j < n ==> 3 <= ds[j]
       else exists i :: IsFirstLeast(ds[..n], i) && best.value == valid[i] && bestDist == ds[i] <= 2
  }

  /** One turn of the search: a new distance wins only if it is strictly smaller. */
  lemma SearchedStep(n: nat, best: Option<string>, bestDist: nat, valid: seq<string>, ds: seq<nat>)
    requires n < |ds| && Searched(n, best, bestDist, valid, ds)
    ensures if ds[n] < bestDist then Searched(n + 1, Some(valid[n]), ds[n], valid, ds)
            else Searched(n + 1, best, bestDist, valid, ds)
  {
    assert ds[..n + 1] == ds[..n] + [ds[n]];
    if ds[n] < bestDist {
      assert IsFirstLeast(ds[..n + 1], n);
    } else if best.Some? {
      var i :| IsFirstLeast(ds[..n], i) && best.value == valid[i] && bestDist == ds[i] <= 2;
      assert IsFirstLeast(ds[..n + 1], i);
    }
  }

  lemma SearchedAll(best: Option<string>, bestDist: nat, value: string, valid: seq<string>, ds: seq<nat>)
    requires value !in valid && Searched(|ds|, best, bestDist, valid, ds)
    ensures IsSuggestion(best, value, valid, ds)
  {
    assert ds[..|ds|] == ds;
  }

  /** No suggestion exactly when `value` is already valid or nothing lies within two edits;
      otherwise the first of the nearest values. */
  ghost predicate IsSuggestion(best: Option<string>, value: string, valid: seq<string>, ds: seq<nat>)
    requires |ds| == |valid|
  {
    && (best.None? <==> value in valid || forall i :: 0 <= i < |ds| ==> ds[i] > 2)
    && (best.Some? ==> exists i :: IsFirstLeast(ds, i) && ds[i] <= 2 && best.value == valid[i])
  }

  /** `valid` lists the valid values in iteration order and `lower` is the case folding. */
  method Suggest(value: string, valid: seq<string>, lower: string -> string) returns (best: Option<string>)
    ensures IsSuggestion(best, value, valid, Distances(value, valid, lower))
  {
    if value in valid {
      return None;
    }
    ghost var ds := Distances(value, valid, lower);
    var lowerValue := lower(value);
    best := None;
    var bestDist: nat := 3;
    for n := 0 to |valid|
      invariant Searched(n, best, bestDist, valid, ds)
    {
      var dist := Levenshtein(lowerValue, lower(valid[n]));
      DistancesAreDistances(value, valid, lower, n, dist);
      SearchedStep(n, best, bestDist, valid, ds);
      if dist < bestDist {
        bestDist, best := dist, Some(valid[n]);
      }
    }
    SearchedAll(best, bestDist, value, valid, ds);
  }
}
