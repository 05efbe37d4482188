/** The eDSL's select: expansion of authored arm keys, the duplicate and overlap checks, the
    synthesised default, and what they promise of first-match dispatch. */
module Select {
  import opened Bits
  import opened Ir
  import opened Semantics
  import opened Coverage

  // ---- Authored keys ----

  datatype Part =
    | Plain(v: int)
    | OneOf(values: seq<int>)
    | PyRange(start: int, stop: int, step: int)
    | Masked(value: nat, mask: nat)

  datatype ArmKey = Single(part: Part) | Tuple(parts: seq<Part>)

  datatype ArmValue = One(s: Scalar) | Many(ss: seq<Scalar>)

  const MAX_EXPANDED: nat := 10000
  const MAX_RANGES: nat := 1000

  predicate ValidPart(p: Part) {
    && (p.OneOf? ==> |p.values| >= 2)
    && (p.PyRange? ==> p.step != 0)
  }

  predicate ValidKey(k: ArmKey) {
    match k
    case Single(p) => ValidPart(p)
    case Tuple(ps) => forall i | 0 <= i < |ps| :: ValidPart(ps[i])
  }

  /** The integers of a Python range. */
  function RangeValues(start: int, stop: int, step: int): seq<int>
    requires step != 0
    decreases if step > 0 then stop - start else start - stop
  {
    if (step > 0 && start >= stop) || (step < 0 && start <= stop) then []
    else [start] + RangeValues(start + step, stop, step)
  }

  /** v lies in the half-open interval from start towards stop, a whole number of steps away. */
  predicate InRange(v: int, start: int, stop: int, step: int)
    requires step != 0
  {
    if step > 0 then start <= v < stop && (v - start) % step == 0 else stop < v <= start && (start - v) % (-step) == 0
  }

  /** How many values that are. */
  function RangeCount(start: int, stop: int, step: int): nat
    requires step != 0
  {
    if step > 0 then (if start < stop then (stop - start - 1) / step + 1 else 0)
    else (if stop < start then (start - stop - 1) / (-step) + 1 else 0)
  }

  lemma OneStepLess(d: int, n: int)
    requires n > 0
    ensures (d - n) % n == d % n && (d - n) / n == d / n - 1
  {
    assert d == n * (d / n) + d % n;
    assert n * (d / n - 1) == n * (d / n) - n;
    DivModUnique(d - n, n, d / n - 1, d % n);
  }

  /** Below one step only the start is left. */
  lemma WithinStep(d: int, n: int)
    requires n > 0 && 0 <= d < n
    ensures d % n == 0 <==> d == 0
    ensures d / n == 0
  {
    DivModUnique(d, n, 0, d);
  }

  /** Element i is start + i * step. */
  lemma {:induction false} RangeAt(start: int, stop: int, step: int, i: nat)
    requires step != 0
    ensures |RangeValues(start, stop, step)| == RangeCount(start, stop, step)
    ensures i < |RangeValues(start, stop, step)| ==> RangeValues(start, stop, step)[i] == start + i * step
    decreases if step > 0 then stop - start else start - stop
  {
    if (step > 0 && start < stop) || (step < 0 && stop < start) {
      var left, n := if step > 0 then stop - start - 1 else start - stop - 1, if step > 0 then step else -step;
      RangeAt(start + step, stop, step, if i > 0 then i - 1 else 0);
      if left >= n {
        OneStepLess(left, n);
      } else {
        WithinStep(left, n);
      }
      NextMultiple(start, i, step);
    }
  }

  lemma NextMultiple(start: int, i: nat, step: int)
    ensures i > 0 ==> start + step + (i - 1) * step == start + i * step
    ensures i == 0 ==> start + i * step == start
  {
  }

  /** A range holds v exactly when v is in its interval, a whole number of steps from the start. */
  lemma {:induction false} RangeHolds(start: int, stop: int, step: int, v: int)
    requires step != 0
    ensures v in RangeValues(start, stop, step) <==> InRange(v, start, stop, step)
    decreases if step > 0 then stop - start else start - stop
  {
    if (step > 0 && start < stop) || (step < 0 && stop < start) {
      var d, n := if step > 0 then v - start else start - v, if step > 0 then step else -step;
      RangeHolds(start + step, stop, step, v);
      assert RangeValues(start, stop, step) == [start] + RangeValues(start + step, stop, step);
      OneStepLess(d, n);
      if 0 <= d < n {
        WithinStep(d, n);
      }
    }
  }

  function Exacts(vs: seq<int>): (r: seq<Scalar>)
    ensures |r| == |vs| && forall i | 0 <= i < |vs| :: r[i] == Exact(vs[i])
  {
    if vs == [] then [] else [Exact(vs[0])] + Exacts(vs[1..])
  }

  /** The scalar values of one key part; None where the eDSL raises. */
  function PoolOf(p: Part): Option<seq<Scalar>>
    requires ValidPart(p)
  {
    match p
    case Plain(v) => Some([Exact(v)])
    case OneOf(vs) => Some(Exacts(vs))
    case Masked(v, m) => Some([Mask(v, m)])
    case PyRange(start, stop, step) =>
      var vs := RangeValues(start, stop, step);
      if vs == [] then None
      else if step == 1 then Some([Span(start, stop - 1)])
      else if |vs| > MAX_EXPANDED then None
      else Some(Exacts(vs))
  }

  /** What one part expands to, and when it is refused. */
  lemma PoolExact(p: Part)
    requires ValidPart(p)
    ensures match p
            case Plain(v) => PoolOf(p) == Some([Exact(v)])
            case Masked(v, m) => PoolOf(p) == Some([Mask(v, m)])
            case OneOf(vs) =>
              PoolOf(p).Some? && |PoolOf(p).value| == |vs| && forall i | 0 <= i < |vs| :: PoolOf(p).value[i] == Exact(vs[i])
            case PyRange(start, stop, step) =>
              var n, r := RangeCount(start, stop, step), PoolOf(p);
              && (r.None? <==> n == 0 || (step != 1 && n > 10_000))
              && (n > 0 && step == 1 ==> r == Some([Span(start, stop - 1)]))
              && (0 < n <= 10_000 && step != 1 ==>
                    |r.value| == n && forall i | 0 <= i < n :: r.value[i] == Exact(start + i * step))
  {
    if p.PyRange? {
      RangeAt(p.start, p.stop, p.step, 0);
      forall i: nat | i < RangeCount(p.start, p.stop, p.step)
        ensures RangeValues(p.start, p.stop, p.step)[i] == p.start + i * p.step
      {
        RangeAt(p.start, p.stop, p.step, i);
      }
    }
  }

  predicate PartHits(p: Part, v: nat)
    requires ValidPart(p)
  {
    match p
    case Plain(x) => v == x
    case OneOf(vs) => v in vs
    case PyRange(start, stop, step) => InRange(v, start, stop, step)
    case Masked(value, mask) => BitAnd(v, mask) == BitAnd(value, mask)
  }

  lemma ExactsHit(vs: seq<int>, v: nat)
    ensures AnyHits(Exacts(vs), v) <==> v in vs
  {
    if v in vs {
      var k :| 0 <= k < |vs| && vs[k] == v;
      assert Hits(Exacts(vs)[k], v);
    }
  }

  lemma SingletonHit(s: Scalar, v: nat)
    ensures AnyHits([s], v) <==> Hits(s, v)
  {
    if Hits(s, v) {
      assert Hits([s][0], v);
    }
  }

  lemma PoolHits(p: Part, v: nat)
    requires ValidPart(p) && PoolOf(p).Some?
    ensures PartHits(p, v) <==> AnyHits(PoolOf(p).value, v)
  {
    match p
    case Plain(x) => SingletonHit(Exact(x), v);
    case OneOf(vs) => ExactsHit(vs, v);
    case Masked(value, mask) => SingletonHit(Mask(value, mask), v);
    case PyRange(start, stop, step) =>
      RangeHolds(start, stop, step, v);
      if step == 1 {
        SingletonHit(Span(start, stop - 1), v);
      } else {
        ExactsHit(RangeValues(start, stop, step), v);
      }
  }

  // ---- Expansion ----

  /** x prepended to each. */
  function Prepend(x: Scalar, rests: seq<seq<Scalar>>): (r: seq<seq<Scalar>>)
    ensures |r| == |rests| && forall i | 0 <= i < |r| :: r[i] == [x] + rests[i]
  {
    if rests == [] then [] else [[x] + rests[0]] + Prepend(x, rests[1..])
  }

  function PrependAll(xs: seq<Scalar>, rests: seq<seq<Scalar>>): seq<seq<Scalar>> {
    if xs == [] then [] else Prepend(xs[0], rests) + PrependAll(xs[1..], rests)
  }

  lemma RowAt(n: nat, i: nat, j: nat)
    requires i > 0
    ensures i * n + j == n + ((i - 1) * n + j)
  {
  }

  lemma {:induction false} PrependAllAt(xs: seq<Scalar>, rests: seq<seq<Scalar>>, i: nat, j: nat)
    requires i < |xs| && j < |rests|
    ensures i * |rests| + j < |PrependAll(xs, rests)| && PrependAll(xs, rests)[i * |rests| + j] == [xs[i]] + rests[j]
    decreases |xs|
  {
    var head, tail := Prepend(xs[0], rests), PrependAll(xs[1..], rests);
    assert PrependAll(xs, rests) == head + tail;
    hide PrependAll;
    if i > 0 {
      PrependAllAt(xs[1..], rests, i - 1, j);
      RowAt(|rests|, i, j);
      var k := (i - 1) * |rests| + j;
      assert i * |rests| + j == |head| + k && (head + tail)[|head| + k] == tail[k];
    }
  }

  lemma {:induction false} PrependAllSize(xs: seq<Scalar>, rests: seq<seq<Scalar>>)
    ensures |PrependAll(xs, rests)| == |xs| * |rests|
    decreases |xs|
  {
    if xs != [] {
      PrependAllSize(xs[1..], rests);
      RowAt(|rests|, |xs|, 0);
    }
  }

  /** Row by row: the first part varies slowest, and the product holds each combination once. */
  lemma ProductAt(pools: seq<seq<Scalar>>, i: nat, j: nat)
    requires pools != []
    ensures Product([]) == [[]] && |Product(pools)| == |pools[0]| * |Product(pools[1..])|
    ensures i < |pools[0]| && j < |Product(pools[1..])| ==>
              var k := i * |Product(pools[1..])| + j;
              k < |Product(pools)| && Product(pools)[k] == [pools[0][i]] + Product(pools[1..])[j]
  {
    PrependAllSize(pools[0], Product(pools[1..]));
    if i < |pools[0]| && j < |Product(pools[1..])| {
      PrependAllAt(pools[0], Product(pools[1..]), i, j);
    }
  }

  /** itertools.product: the last part varies fastest. */
  function Product(pools: seq<seq<Scalar>>): seq<seq<Scalar>> {
    if pools == [] then [[]] else PrependAll(pools[0], Product(pools[1..]))
  }

  predicate AllHit(ss: seq<Scalar>, vec: seq<nat>) {
    |ss| == |vec| && forall i | 0 <= i < |ss| :: Hits(ss[i], vec[i])
  }

  predicate SomeHit(combos: seq<seq<Scalar>>, vec: seq<nat>) {
    exists k | 0 <= k < |combos| :: AllHit(combos[k], vec)
  }

  lemma SomeHitPlus(a: seq<seq<Scalar>>, b: seq<seq<Scalar>>, vec: seq<nat>)
    ensures SomeHit(a + b, vec) <==> SomeHit(a, vec) || SomeHit(b, vec)
  {
    if SomeHit(a, vec) {
      var k :| 0 <= k < |a| && AllHit(a[k], vec);
      assert AllHit((a + b)[k], vec);
    }
    if SomeHit(b, vec) {
      var k :| 0 <= k < |b| && AllHit(b[k], vec);
      assert AllHit((a + b)[|a| + k], vec);
    }
  }

  lemma {:induction false} PrependAllHits(xs: seq<Scalar>, rests: seq<seq<Scalar>>, vec: seq<nat>)
    ensures SomeHit(PrependAll(xs, rests), vec) <==> vec != [] && AnyHits(xs, vec[0]) && SomeHit(rests, vec[1..])
    decreases |xs|
  {
    if xs != [] {
      PrependAllHits(xs[1..], rests, vec);
      SomeHitPlus(Prepend(xs[0], rests), PrependAll(xs[1..], rests), vec);
    }
  }

  predicate PoolsHit(pools: seq<seq<Scalar>>, vec: seq<nat>) {
    |pools| == |vec| && forall i | 0 <= i < |pools| :: AnyHits(pools[i], vec[i])
  }

  lemma {:induction false} ProductHits(pools: seq<seq<Scalar>>, vec: seq<nat>)
    ensures SomeHit(Product(pools), vec) <==> PoolsHit(pools, vec)
    decreases |pools|
  {
    if pools == [] {
      var none: seq<Scalar> := [];
      assert Product(pools) == [none];
      if vec == [] {
        assert AllHit(Product(pools)[0], vec);
      }
    } else {
      if vec != [] {
        ProductHits(pools[1..], vec[1..]);
      }
      PrependAllHits(pools[0], Product(pools[1..]), vec);
    }
  }

  /** The pools of a tuple key, unless a part or the product's size is refused. */
  function PoolsOf(ps: seq<Part>, size: nat): Option<seq<seq<Scalar>>>
    requires forall i | 0 <= i < |ps| :: ValidPart(ps[i])
    decreases |ps|
  {
    if ps == [] then Some([])
    else
      var pool := PoolOf(ps[0]);
      if pool.None? || size * |pool.value| > MAX_EXPANDED then None
      else
        var rest := PoolsOf(ps[1..], size * |pool.value|);
        if rest.None? then None else Some([pool.value] + rest.value)
  }

  /** Combinations of the first n parts. */
  function Combinations(ps: seq<Part>, n: nat): nat
    requires n <= |ps| && forall i | 0 <= i < |ps| :: ValidPart(ps[i]) && PoolOf(ps[i]).Some?
    decreases n
  {
    if n == 0 then 1 else Combinations(ps, n - 1) * |PoolOf(ps[n - 1]).value|
  }

  lemma {:induction false} CombinationsFrom(ps: seq<Part>, n: nat)
    requires 0 < n <= |ps| && forall i | 0 <= i < |ps| :: ValidPart(ps[i]) && PoolOf(ps[i]).Some?
    ensures Combinations(ps, n) == |PoolOf(ps[0]).value| * Combinations(ps[1..], n - 1)
    decreases n
  {
    if n > 1 {
      CombinationsFrom(ps, n - 1);
      assert ps[1..][n - 2] == ps[n - 1];
      Regroup(|PoolOf(ps[0]).value|, Combinations(ps[1..], n - 2), |PoolOf(ps[n - 1]).value|);
    } else {
      assert Combinations(ps, 0) == 1;
    }
  }

  lemma Regroup(a: nat, b: nat, c: nat)
    ensures (a * b) * c == a * (b * c)
  {
  }

  ghost predicate TooMany(ps: seq<Part>, size: nat)
    requires forall i | 0 <= i < |ps| :: ValidPart(ps[i]) && PoolOf(ps[i]).Some?
  {
    exists n | 0 < n <= |ps| :: size * Combinations(ps, n) > 10_000
  }

  lemma TooManyFrom(ps: seq<Part>, size: nat)
    requires ps != [] && forall i | 0 <= i < |ps| :: ValidPart(ps[i]) && PoolOf(ps[i]).Some?
    ensures var size' := size * |PoolOf(ps[0]).value|;
            TooMany(ps, size) <==> size' > 10_000 || TooMany(ps[1..], size')
  {
    var size' := size * |PoolOf(ps[0]).value|;
    forall n | 0 < n <= |ps|
      ensures size * Combinations(ps, n) == size' * Combinations(ps[1..], n - 1)
    {
      CombinationsFrom(ps, n);
      Regroup(size, |PoolOf(ps[0]).value|, Combinations(ps[1..], n - 1));
    }
    assert Combinations(ps[1..], 0) == 1;
    if size' > 10_000 {
      assert size * Combinations(ps, 1) > 10_000;
    }
    if TooMany(ps[1..], size') {
      var n :| 0 < n <= |ps| - 1 && size' * Combinations(ps[1..], n) > 10_000;
      assert size * Combinations(ps, n + 1) > 10_000;
    }
    if TooMany(ps, size) {
      var n :| 0 < n <= |ps| && size * Combinations(ps, n) > 10_000;
      assert n > 1 ==> size' * Combinations(ps[1..], n - 1) > 10_000;
    }
  }

  /** A tuple is refused exactly when a part is, or some first parts have more than 10,000
      combinations. */
  lemma {:induction false} TupleRefused(ps: seq<Part>, size: nat)
    requires forall i | 0 <= i < |ps| :: ValidPart(ps[i])
    ensures PoolsOf(ps, size).None?
       <==> (exists i | 0 <= i < |ps| :: PoolOf(ps[i]).None?)
            || ((forall i | 0 <= i < |ps| :: PoolOf(ps[i]).Some?) && TooMany(ps, size))
    ensures PoolsOf(ps, size).Some? ==>
              |PoolsOf(ps, size).value| == |ps| && forall i | 0 <= i < |ps| :: PoolOf(ps[i]) == Some(PoolsOf(ps, size).value[i])
    decreases |ps|
  {
    if ps != [] && PoolOf(ps[0]).Some? {
      TupleRefused(ps[1..], size * |PoolOf(ps[0]).value|);
      forall i | 0 < i < |ps|
        ensures PoolOf(ps[i]) == PoolOf(ps[1..][i - 1])
      {
      }
      if forall i | 0 <= i < |ps| :: PoolOf(ps[i]).Some? {
        TooManyFrom(ps, size);
      }
    }
  }

  lemma {:induction false} PoolsOfHit(ps: seq<Part>, size: nat, vec: seq<nat>)
    requires (forall i | 0 <= i < |ps| :: ValidPart(ps[i])) && PoolsOf(ps, size).Some?
    ensures PoolsHit(PoolsOf(ps, size).value, vec)
       <==> |ps| == |vec| && forall i | 0 <= i < |ps| :: PartHits(ps[i], vec[i])
    decreases |ps|
  {
    if ps != [] {
      var pool := PoolOf(ps[0]);
      var size' := size * |pool.value|;
      var rest := PoolsOf(ps[1..], size');
      assert PoolsOf(ps, size).value[1..] == rest.value;
      if vec != [] {
        PoolHits(ps[0], vec[0]);
        PoolsOfHit(ps[1..], size', vec[1..]);
      }
    }
  }

  function Ones(ss: seq<Scalar>): (r: seq<ArmValue>)
    ensures |r| == |ss| && forall i | 0 <= i < |r| :: r[i] == One(ss[i])
  {
    if ss == [] then [] else [One(ss[0])] + Ones(ss[1..])
  }

  function Manys(cs: seq<seq<Scalar>>): (r: seq<ArmValue>)
    ensures |r| == |cs| && forall i | 0 <= i < |r| :: r[i] == Many(cs[i])
  {
    if cs == [] then [] else [Many(cs[0])] + Manys(cs[1..])
  }

  /** One authored key to its values, in order; None where the eDSL raises. */
  function ExpandArm(k: ArmKey): Option<seq<ArmValue>>
    requires ValidKey(k)
  {
    match k
    case Single(p) =>
      var pool := PoolOf(p);
      if pool.None? then None else Some(Ones(pool.value))
    case Tuple(ps) =>
      var pools := PoolsOf(ps, 1);
      if pools.None? then None else Some(Manys(Product(pools.value)))
  }

  /** A part's values stand alone, a tuple's are the combinations of its parts', in order. */
  lemma ArmExact(k: ArmKey)
    requires ValidKey(k)
    ensures match k
            case Single(p) =>
              && (ExpandArm(k).None? <==> PoolOf(p).None?)
              && (PoolOf(p).Some? ==>
                    var r := ExpandArm(k).value;
                    |r| == |PoolOf(p).value| && forall i | 0 <= i < |r| :: r[i] == One(PoolOf(p).value[i]))
            case Tuple(ps) =>
              && (ExpandArm(k).None? <==>
                    (exists i | 0 <= i < |ps| :: PoolOf(ps[i]).None?)
                    || ((forall i | 0 <= i < |ps| :: PoolOf(ps[i]).Some?) && TooMany(ps, 1)))
              && (ExpandArm(k).Some? ==>
                    var pools := seq(|ps|, i requires 0 <= i < |ps| && ValidPart(ps[i]) && PoolOf(ps[i]).Some? => PoolOf(ps[i]).value);
                    var r := ExpandArm(k).value;
                    |r| == |Product(pools)| && forall i | 0 <= i < |r| :: r[i] == Many(Product(pools)[i]))
  {
    if k.Tuple? {
      TupleRefused(k.parts, 1);
      var ps := k.parts;
      if ExpandArm(k).Some? {
        assert PoolsOf(ps, 1).value
            == seq(|ps|, i requires 0 <= i < |ps| && ValidPart(ps[i]) && PoolOf(ps[i]).Some? => PoolOf(ps[i]).value);
      }
    }
  }

  predicate KeyHits(k: ArmKey, vec: seq<nat>)
    requires ValidKey(k)
  {
    match k
    case Single(p) => |vec| == 1 && PartHits(p, vec[0])
    case Tuple(ps) => |ps| == |vec| && forall i | 0 <= i < |ps| :: PartHits(ps[i], vec[i])
  }

  predicate ValueHits(a: ArmValue, vec: seq<nat>) {
    match a
    case One(s) => |vec| == 1 && Hits(s, vec[0])
    case Many(ss) => AllHit(ss, vec)
  }

  /** An authored key matches a key vector exactly when one of its expanded values does. */
  lemma ExpansionMatches(k: ArmKey, vec: seq<nat>)
    requires ValidKey(k) && ExpandArm(k).Some?
    ensures var r := ExpandArm(k).value;
            KeyHits(k, vec) <==> exists i | 0 <= i < |r| :: ValueHits(r[i], vec)
  {
    var r := ExpandArm(k).value;
    match k
    case Single(p) =>
      var pool := PoolOf(p).value;
      if |vec| == 1 {
        PoolHits(p, vec[0]);
        if AnyHits(pool, vec[0]) {
          var j :| 0 <= j < |pool| && Hits(pool[j], vec[0]);
          assert ValueHits(r[j], vec);
        }
        if i :| 0 <= i < |r| && ValueHits(r[i], vec) {
          assert Hits(pool[i], vec[0]);
        }
      }
    case Tuple(ps) =>
      var pools := PoolsOf(ps, 1).value;
      var combos := Product(pools);
      PoolsOfHit(ps, 1, vec);
      ProductHits(pools, vec);
      if SomeHit(combos, vec) {
        var j :| 0 <= j < |combos| && AllHit(combos[j], vec);
        assert ValueHits(r[j], vec);
      }
      if i :| 0 <= i < |r| && ValueHits(r[i], vec) {
        assert AllHit(combos[i], vec);
      }
  }
}
