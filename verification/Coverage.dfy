/** The eDSL's proof that a select needs no default: merged intervals of the exact and range
    arms, their count, and the smallest values they miss. */
module Coverage {
  import opened Bits
  import opened Ir

  /** One value of an arm.  Authored integers may be negative; only key values are not. */
  datatype Scalar = Exact(v: int) | Mask(value: nat, mask: nat) | Span(lo: int, hi: int)

  predicate Hits(s: Scalar, v: nat) {
    match s
    case Exact(x) => v == x
    case Mask(value, mask) => BitAnd(v, mask) == BitAnd(value, mask)
    case Span(lo, hi) => lo <= v <= hi
  }

  datatype Interval = Interval(lo: int, hi: int)

  predicate In(i: Interval, v: int) {
    i.lo <= v <= i.hi
  }

  predicate InSome(s: seq<Interval>, v: int) {
    exists k | 0 <= k < |s| :: In(s[k], v)
  }

  lemma InSnoc(s: seq<Interval>, x: Interval, v: int)
    ensures InSome(s + [x], v) <==> InSome(s, v) || In(x, v)
  {
    var t := s + [x];
    if InSome(s, v) {
      var k :| 0 <= k < |s| && In(s[k], v);
      assert In(t[k], v);
    }
    if In(x, v) {
      assert In(t[|s|], v);
    }
  }

  // ---- Sorting ----

  predicate Before(a: Interval, b: Interval) {
    a.lo < b.lo || (a.lo == b.lo && a.hi <= b.hi)
  }

  predicate Sorted(s: seq<Interval>) {
    forall i, j | 0 <= i < j < |s| :: Before(s[i], s[j])
  }

  function Insert(x: Interval, s: seq<Interval>): (r: seq<Interval>)
    ensures multiset(r) == multiset(s) + multiset{x}
  {
    if s == [] then [x]
    else if Before(x, s[0]) then [x] + s
    else
      assert s == [s[0]] + s[1..];
      [s[0]] + Insert(x, s[1..])
  }

  lemma InsertMembers(x: Interval, s: seq<Interval>, y: Interval)
    ensures y in Insert(x, s) <==> y == x || y in s
  {
    assert y in Insert(x, s) <==> y in multiset(Insert(x, s));
  }

  lemma {:induction false} InsertSorted(x: Interval, s: seq<Interval>)
    requires Sorted(s)
    ensures Sorted(Insert(x, s))
    decreases |s|
  {
    if s != [] && !Before(x, s[0]) {
      InsertSorted(x, s[1..]);
      var r := Insert(x, s[1..]);
      forall j | 0 <= j < |r|
        ensures Before(s[0], r[j])
      {
        InsertMembers(x, s[1..], r[j]);
      }
    }
  }

  /** Python's sorted() on pairs. */
  method Sort(s: seq<Interval>) returns (r: seq<Interval>)
    ensures Sorted(r) && multiset(r) == multiset(s)
  {
    r := [];
    for i := 0 to |s|
      invariant Sorted(r) && multiset(r) == multiset(s[..i])
    {
      InsertSorted(s[i], r);
      r := Insert(s[i], r);
      assert s[..i + 1] == s[..i] + [s[i]];
    }
    assert s[..|s|] == s;
  }

  lemma SameMembers(a: seq<Interval>, b: seq<Interval>, v: int)
    requires multiset(a) == multiset(b)
    ensures InSome(a, v) <==> InSome(b, v)
  {
    if InSome(a, v) {
      var k :| 0 <= k < |a| && In(a[k], v);
      assert a[k] in multiset(b);
      var j :| 0 <= j < |b| && b[j] == a[k];
    }
    if InSome(b, v) {
      var k :| 0 <= k < |b| && In(b[k], v);
      assert b[k] in multiset(a);
      var j :| 0 <= j < |a| && a[j] == b[k];
    }
  }

  // ---- Merging ----

  predicate Nonempty(s: seq<Interval>) {
    forall k | 0 <= k < |s| :: s[k].lo <= s[k].hi
  }

  /** Sorted, disjoint and not adjacent. */
  predicate Canonical(m: seq<Interval>) {
    Nonempty(m) && forall i, j | 0 <= i < j < |m| :: m[i].hi + 1 < m[j].lo
  }

  /** One step of the merge loop. */
  function MergeOne(m: seq<Interval>, x: Interval): seq<Interval> {
    var n := |m|;
    if n > 0 && x.lo <= m[n - 1].hi + 1 then
      m[n - 1 := Interval(m[n - 1].lo, if x.hi > m[n - 1].hi then x.hi else m[n - 1].hi)]
    else m + [x]
  }

  /** The next interval starts no earlier than the last merged one. */
  predicate Follows(m: seq<Interval>, x: Interval) {
    x.lo <= x.hi && forall k | 0 <= k < |m| :: m[k].lo <= x.lo
  }

  lemma MergeCovers(m: seq<Interval>, x: Interval, v: int)
    requires Canonical(m) && Follows(m, x)
    ensures InSome(MergeOne(m, x), v) <==> InSome(m, v) || In(x, v)
  {
    var n := |m|;
    if n > 0 && x.lo <= m[n - 1].hi + 1 {
      var r := MergeOne(m, x);
      assert r == m[..n - 1] + [r[n - 1]] && m == m[..n - 1] + [m[n - 1]];
      InSnoc(m[..n - 1], r[n - 1], v);
      InSnoc(m[..n - 1], m[n - 1], v);
    } else {
      InSnoc(m, x, v);
    }
  }

  method Merge(s: seq<Interval>) returns (m: seq<Interval>)
    requires Sorted(s) && Nonempty(s)
    ensures Canonical(m) && forall v :: InSome(m, v) <==> InSome(s, v)
  {
    m := [];
    for i := 0 to |s|
      invariant Canonical(m) && forall k, j | 0 <= k < |m| && i <= j < |s| :: m[k].lo <= s[j].lo
      invariant forall v :: InSome(m, v) <==> InSome(s[..i], v)
    {
      forall v
        ensures InSome(MergeOne(m, s[i]), v) <==> InSome(s[..i + 1], v)
      {
        MergeCovers(m, s[i], v);
        assert s[..i + 1] == s[..i] + [s[i]];
        InSnoc(s[..i], s[i], v);
      }
      forall k, j | 0 <= k < |MergeOne(m, s[i])| && i + 1 <= j < |s|
        ensures MergeOne(m, s[i])[k].lo <= s[j].lo
      {
        assert Before(s[i], s[j]);
      }
      m := MergeOne(m, s[i]);
    }
    assert s[..|s|] == s;
  }

  // ---- Counting ----

  function Count(m: seq<Interval>): int {
    if m == [] then 0 else m[|m| - 1].hi - m[|m| - 1].lo + 1 + Count(m[..|m| - 1])
  }

  ghost function Values(m: seq<Interval>, total: nat): set<int> {
    set v | 0 <= v < total && InSome(m, v)
  }

  ghost function FromTo(lo: int, hi: int): set<int> {
    set v | lo <= v <= hi && In(Interval(lo, hi), v)
  }

  lemma {:induction false} FromToSize(lo: int, hi: int)
    ensures |FromTo(lo, hi)| == if lo <= hi then hi - lo + 1 else 0
    decreases hi - lo
  {
    if lo <= hi {
      FromToSize(lo, hi - 1);
      assert FromTo(lo, hi) == FromTo(lo, hi - 1) + {hi};
    } else {
      assert FromTo(lo, hi) == {};
    }
  }

  predicate InRange(m: seq<Interval>, total: nat) {
    forall k | 0 <= k < |m| :: 0 <= m[k].lo && m[k].hi < total
  }

  /** The sum of the interval lengths is the number of values covered. */
  lemma {:induction false} CountIsCardinality(m: seq<Interval>, total: nat)
    requires Canonical(m) && InRange(m, total)
    ensures Count(m) == |Values(m, total)|
    decreases |m|
  {
    if m == [] {
      assert Values(m, total) == {};
    } else {
      var n := |m| - 1;
      var init, x := m[..n], m[n];
      assert m == init + [x];
      CountIsCardinality(init, total);
      FromToSize(x.lo, x.hi);
      LastApart(init, x, total);
      assert |Values(init, total) + FromTo(x.lo, x.hi)| == |Values(init, total)| + |FromTo(x.lo, x.hi)|;
    }
  }

  lemma LastApart(init: seq<Interval>, x: Interval, total: nat)
    requires 0 <= x.lo <= x.hi < total && forall k | 0 <= k < |init| :: init[k].hi + 1 < x.lo
    ensures Values(init + [x], total) == Values(init, total) + FromTo(x.lo, x.hi)
    ensures Values(init, total) !! FromTo(x.lo, x.hi)
  {
    forall v | v in Values(init, total) || v in FromTo(x.lo, x.hi) || v in Values(init + [x], total)
      ensures v in Values(init + [x], total) <==> v in Values(init, total) || v in FromTo(x.lo, x.hi)
    {
      InSnoc(init, x, v);
    }
  }

  // ---- The covered intervals of an arm list ----

  /** An exact or range value as an interval clipped to [0, total); nothing if outside. */
  function Clip(s: Scalar, total: nat): Option<Interval> {
    match s
    case Exact(v) => if 0 <= v < total then Some(Interval(v, v)) else None
    case Span(lo, hi) =>
      var l, h := if lo > 0 then lo else 0, if hi < total - 1 then hi else total - 1;
      if l <= h then Some(Interval(l, h)) else None
    case Mask(_, _) => None
  }

  predicate AnyHits(arms: seq<Scalar>, v: nat) {
    exists k | 0 <= k < |arms| :: Hits(arms[k], v)
  }

  lemma ClipStep(arms: seq<Scalar>, n: nat, total: nat, s: seq<Interval>, v: nat)
    requires n < |arms| && !arms[n].Mask? && v < total
    requires InSome(s, v) <==> AnyHits(arms[..n], v)
    ensures var c := Clip(arms[n], total);
            InSome(if c.Some? then s + [c.value] else s, v) <==> AnyHits(arms[..n + 1], v)
  {
    var c := Clip(arms[n], total);
    if c.Some? {
      InSnoc(s, c.value, v);
    }
  }

  method Clipped(arms: seq<Scalar>, total: nat) returns (s: seq<Interval>)
    requires forall k | 0 <= k < |arms| :: !arms[k].Mask?
    ensures Nonempty(s) && InRange(s, total)
    ensures forall v: nat | v < total :: InSome(s, v) <==> AnyHits(arms, v)
  {
    s := [];
    for i := 0 to |arms|
      invariant Nonempty(s) && InRange(s, total)
      invariant forall v: nat | v < total :: InSome(s, v) <==> AnyHits(arms[..i], v)
    {
      var c := Clip(arms[i], total);
      var t := if c.Some? then s + [c.value] else s;
      forall v: nat | v < total
        ensures InSome(t, v) <==> AnyHits(arms[..i + 1], v)
      {
        ClipStep(arms, i, total, s, v);
      }
      s := t;
    }
    assert arms[..|arms|] == arms;
  }

  ghost function Covered(arms: seq<Scalar>, total: nat): set<int> {
    set v: int | 0 <= v < total && AnyHits(arms, v)
  }

  /** The merged intervals cover exactly what the arms match below total, and the count is
      how many values that is. */
  method CoveredIntervals(arms: seq<Scalar>, total: nat) returns (r: Option<(seq<Interval>, int)>)
    ensures r.None? <==> exists k :: 0 <= k < |arms| && arms[k].Mask?
    ensures r.Some? ==>
              && Canonical(r.value.0) && InRange(r.value.0, total)
              && (forall v: nat | v < total :: InSome(r.value.0, v) <==> AnyHits(arms, v))
              && r.value.1 == |Covered(arms, total)|
  {
    if k :| 0 <= k < |arms| && arms[k].Mask? {
      return None;
    }
    var clipped := Clipped(arms, total);
    var sorted := Sort(clipped);
    SortKeeps(clipped, sorted, total);
    var merged := Merge(sorted);
    MergeStaysInRange(sorted, merged, total);
    forall v: int
      ensures InSome(merged, v) <==> InSome(clipped, v)
    {
      SameMembers(sorted, clipped, v);
    }
    CountIsCardinality(merged, total);
    assert Values(merged, total) == Covered(arms, total);
    r := Some((merged, Count(merged)));
  }

  lemma SortKeeps(s: seq<Interval>, r: seq<Interval>, total: nat)
    requires multiset(r) == multiset(s) && Nonempty(s) && InRange(s, total)
    ensures Nonempty(r) && InRange(r, total)
  {
    forall k | 0 <= k < |r|
      ensures r[k].lo <= r[k].hi && 0 <= r[k].lo && r[k].hi < total
    {
      assert r[k] in multiset(s);
      var j :| 0 <= j < |s| && s[j] == r[k];
    }
  }

  lemma MergeStaysInRange(s: seq<Interval>, m: seq<Interval>, total: nat)
    requires InRange(s, total) && Canonical(m) && forall v :: InSome(m, v) <==> InSome(s, v)
    ensures InRange(m, total)
  {
    forall k | 0 <= k < |m|
      ensures 0 <= m[k].lo && m[k].hi < total
    {
      assert In(m[k], m[k].lo) && In(m[k], m[k].hi);
      assert InSome(m, m[k].lo) && InSome(m, m[k].hi);
      var i :| 0 <= i < |s| && In(s[i], m[k].lo);
      var j :| 0 <= j < |s| && In(s[j], m[k].hi);
    }
  }

  /** The count reaches 2^width exactly when every key value matches some arm. */
  lemma CountDecides(arms: seq<Scalar>, total: nat)
    ensures |Covered(arms, total)| == total <==> forall v: nat | v < total :: AnyHits(arms, v)
  {
    FromToSize(0, total - 1);
    var all := FromTo(0, total - 1);
    var missed := all - Covered(arms, total);
    assert all == Covered(arms, total) + missed;
    assert |all| == |Covered(arms, total)| + |missed|;
    if |Covered(arms, total)| == total {
      forall v: nat | v < total
        ensures AnyHits(arms, v)
      {
        assert v in all && v !in missed;
      }
    }
    if forall v: nat | v < total :: AnyHits(arms, v) {
      assert Covered(arms, total) == all;
    }
  }

  // ---- The smallest missing values ----

  /** Values of [from, total) outside the intervals, ascending. */
  ghost function Missing(covered: seq<Interval>, from: nat, total: nat): seq<nat>
    decreases total - from
  {
    if from >= total then []
    else (if InSome(covered, from) then [] else [from]) + Missing(covered, from + 1, total)
  }

  lemma {:induction false} MissingSplit(covered: seq<Interval>, a: nat, b: nat, total: nat)
    requires a <= b <= total
    ensures Missing(covered, a, total) == Missing(covered, a, b) + Missing(covered, b, total)
    decreases b - a
  {
    if a < b {
      MissingSplit(covered, a + 1, b, total);
    }
  }

  /** A stretch inside an interval misses nothing. */
  lemma {:induction false} CoveredMissesNone(covered: seq<Interval>, a: nat, b: nat)
    requires forall v | a <= v < b :: InSome(covered, v)
    ensures Missing(covered, a, b) == []
    decreases b - a
  {
    if a < b {
      CoveredMissesNone(covered, a + 1, b);
    }
  }

  predicate Gap(covered: seq<Interval>, a: int, b: int) {
    forall v | a <= v < b :: !InSome(covered, v)
  }

  /** Collects values from cursor up to lo; done when want of them are found.  steps counts the
      iterations. */
  method Collect(ghost covered: seq<Interval>, ghost total: nat, cursor: nat, lo: nat, out: seq<nat>, want: nat)
    returns (r: seq<nat>, done: bool, ghost steps: nat)
    requires |out| < want && cursor <= total && lo <= total && Gap(covered, cursor, lo)
    ensures out <= r && |r| <= want && (done <==> |r| == want)
    ensures |out| + steps == |r|
    ensures !done ==> r == out + Missing(covered, cursor, if lo > cursor then lo else cursor)
    ensures done ==> r <= out + Missing(covered, cursor, total)
  {
    r, done, steps := out, false, 0;
    var m := cursor;
    while m < lo
      invariant |out| + steps == |r|
      invariant cursor <= m && (m <= lo || m == cursor) && m <= total
      invariant out <= r && |r| < want && r == out + Missing(covered, cursor, m)
    {
      MissingSplit(covered, cursor, m, m + 1);
      assert Missing(covered, m, m + 1) == [m];
      MissingSplit(covered, cursor, m + 1, total);
      r := r + [m];
      m, steps := m + 1, steps + 1;
      if |r| == want {
        return r, true, steps;
      }
    }
  }

  /** The want smallest uncovered values, or all of them if there are fewer, in at most want
      inner iterations whatever total is. */
  method FirstMissing(covered: seq<Interval>, total: nat, want: nat) returns (out: seq<nat>, ghost steps: nat)
    requires want >= 1 && Canonical(covered) && InRange(covered, total)
    ensures |out| <= want && out <= Missing(covered, 0, total)
    ensures |out| < want ==> out == Missing(covered, 0, total)
    ensures steps <= want
  {
    out, steps := [], 0;
    var cursor := 0;
    for k := 0 to |covered|
      invariant cursor == (if k == 0 then 0 else covered[k - 1].hi + 1) && 0 <= cursor <= total
      invariant |out| < want && out == Missing(covered, 0, cursor) && steps == |out|
    {
      var lo := covered[k].lo;
      var done; ghost var more;
      MissingSplit(covered, 0, cursor, total);
      out, done, more := Collect(covered, total, cursor, lo, out, want);
      steps := steps + more;
      if done {
        return;
      }
      MissingSplit(covered, 0, cursor, lo);
      SkipInterval(covered, lo, covered[k].hi, k);
      cursor := covered[k].hi + 1;
    }
    MissingSplit(covered, 0, cursor, total);
    var done; ghost var more;
    out, done, more := Collect(covered, total, cursor, total, out, want);
    steps := steps + more;
  }

  lemma SkipInterval(covered: seq<Interval>, lo: nat, hi: nat, k: nat)
    requires k < |covered| && covered[k] == Interval(lo, hi) && lo <= hi
    ensures Missing(covered, 0, hi + 1) == Missing(covered, 0, lo)
  {
    forall v | lo <= v < hi + 1
      ensures InSome(covered, v)
    {
      assert In(covered[k], v);
    }
    CoveredMissesNone(covered, lo, hi + 1);
    MissingSplit(covered, 0, lo, hi + 1);
  }
}
