/** The select builder's admission checks and what they buy: at most one matching arm, so
    dispatch does not depend on arm order, and a default that is never taken. */
module Dispatch {
  import opened Bits
  import opened Ir
  import opened Semantics
  import opened Coverage
  import opened Select

  // ---- Overlap ----

  function Lo(s: Scalar): int
    requires !s.Mask?
  {
    if s.Exact? then s.v else s.lo
  }

  function Hi(s: Scalar): int
    requires !s.Mask?
  {
    if s.Exact? then s.v else s.hi
  }

  predicate ScalarsOverlap(l: Scalar, r: Scalar) {
    if l.Mask? || r.Mask? then l == r else Lo(l) <= Hi(r) && Lo(r) <= Hi(l)
  }

  predicate ValuesOverlap(l: ArmValue, r: ArmValue) {
    match (l, r)
    case (One(a), One(b)) => ScalarsOverlap(a, b)
    case (Many(a), Many(b)) => |a| == |b| && forall i | 0 <= i < |a| :: ScalarsOverlap(a[i], b[i])
    case _ => false
  }

  /** For non-empty exact and range values the test is exact on key values. */
  lemma OverlapIsExact(l: Scalar, r: Scalar)
    requires !l.Mask? && !r.Mask? && Lo(l) <= Hi(l) && Lo(r) <= Hi(r)
    ensures (exists v: nat :: Hits(l, v) && Hits(r, v)) <==> ScalarsOverlap(l, r) && Hi(l) >= 0 && Hi(r) >= 0
  {
    if ScalarsOverlap(l, r) && Hi(l) >= 0 && Hi(r) >= 0 {
      var lo := if Lo(l) > Lo(r) then Lo(l) else Lo(r);
      var v := if lo > 0 then lo else 0;
      assert Hits(l, v) && Hits(r, v);
    }
  }

  // ---- The builder ----

  predicate HasRange(a: ArmValue) {
    match a
    case One(s) => s.Span?
    case Many(ss) => exists i | 0 <= i < |ss| :: ss[i].Span?
  }

  datatype Pair = Pair(value: ArmValue, target: Target)

  datatype Authored = Authored(key: ArmKey, target: Target)

  /** Two values may stand side by side. */
  predicate Compatible(a: ArmValue, b: ArmValue) {
    a != b && (HasRange(a) || HasRange(b) ==> !ValuesOverlap(a, b))
  }

  function Ranges(es: seq<Pair>): nat {
    if es == [] then 0 else Ranges(es[..|es| - 1]) + if HasRange(es[|es| - 1].value) then 1 else 0
  }

  /** What the checks establish of an expanded select. */
  predicate Admitted(es: seq<Pair>) {
    && |es| <= 10_000 && Ranges(es) <= 1_000
    && forall i, j | 0 <= i < j < |es| :: Compatible(es[j].value, es[i].value)
  }

  predicate ValidArms(arms: seq<Authored>) {
    forall k | 0 <= k < |arms| :: ValidKey(arms[k].key)
  }

  /** An arm expanded. */
  datatype Block = Block(values: seq<ArmValue>, target: Target)

  predicate ExpandsTo(arm: Authored, b: Block)
    requires ValidKey(arm.key)
  {
    ExpandArm(arm.key) == Some(b.values) && b.target == arm.target
  }

  predicate AllExpandTo(arms: seq<Authored>, bs: seq<Block>)
    requires ValidArms(arms)
  {
    |bs| == |arms| && forall k | 0 <= k < |arms| :: ExpandsTo(arms[k], bs[k])
  }

  function Targeted(vs: seq<ArmValue>, t: Target): (r: seq<Pair>)
    ensures |r| == |vs| && forall i | 0 <= i < |r| :: r[i] == Pair(vs[i], t)
  {
    if vs == [] then [] else [Pair(vs[0], t)] + Targeted(vs[1..], t)
  }

  /** The first n expanded arms, in authored order. */
  function Flatten(bs: seq<Block>, n: nat): seq<Pair>
    requires n <= |bs|
    decreases n
  {
    if n == 0 then [] else Flatten(bs, n - 1) + Targeted(bs[n - 1].values, bs[n - 1].target)
  }

  lemma {:induction false} RangesPrefix(es: seq<Pair>, n: nat)
    requires n <= |es|
    ensures Ranges(es[..n]) <= Ranges(es)
    decreases |es|
  {
    if n < |es| {
      RangesPrefix(es[..|es| - 1], n);
      assert es[..|es| - 1][..n] == es[..n];
    } else {
      assert es[..n] == es;
    }
  }

  lemma AdmittedPrefix(es: seq<Pair>, n: nat)
    requires n <= |es| && Admitted(es)
    ensures Admitted(es[..n])
  {
    RangesPrefix(es, n);
  }

  /** One expanded value: refused, or appended. */
  method Admit(es: seq<Pair>, value: ArmValue, target: Target) returns (ok: bool)
    requires Admitted(es)
    ensures ok <==> Admitted(es + [Pair(value, target)])
  {
    var t := es + [Pair(value, target)];
    assert t[..|t| - 1] == es;
    ok := |es| < MAX_EXPANDED && (HasRange(value) ==> Ranges(es) < MAX_RANGES);
    var i := 0;
    while ok && i < |es|
      invariant i <= |es|
      invariant ok ==> |t| <= MAX_EXPANDED && Ranges(t) <= MAX_RANGES
                       && forall k | 0 <= k < i :: Compatible(t[|es|].value, t[k].value)
      invariant !ok ==> !Admitted(t)
      decreases ok, |es| - i
    {
      if value == es[i].value || ((HasRange(value) || HasRange(es[i].value)) && ValuesOverlap(value, es[i].value)) {
        assert !Compatible(t[|es|].value, t[i].value);
        ok := false;
      } else {
        i := i + 1;
      }
    }
  }

  lemma {:induction false} FlattenPrefix(bs: seq<Block>, m: nat, n: nat)
    requires m <= n <= |bs|
    ensures Flatten(bs, m) <= Flatten(bs, n)
    decreases n
  {
    if m < n {
      FlattenPrefix(bs, m, n - 1);
    }
  }

  lemma {:induction false} FlattenSame(bs: seq<Block>, cs: seq<Block>, n: nat)
    requires n <= |bs| && n <= |cs| && forall k | 0 <= k < n :: bs[k] == cs[k]
    ensures Flatten(bs, n) == Flatten(cs, n)
    decreases n
  {
    if n > 0 {
      FlattenSame(bs, cs, n - 1);
    }
  }

  /** Every arm expands, to pairs that pass every check. */
  ghost predicate Selectable(arms: seq<Authored>)
    requires ValidArms(arms)
  {
    exists bs :: AllExpandTo(arms, bs) && Admitted(Flatten(bs, |bs|))
  }

  /** bs is what the first arms expand to. */
  ghost predicate SoFar(arms: seq<Authored>, bs: seq<Block>)
    requires ValidArms(arms)
  {
    |bs| <= |arms| && forall i | 0 <= i < |bs| :: ExpandsTo(arms[i], bs[i])
  }

  lemma OneMoreBlock(arms: seq<Authored>, bs: seq<Block>, b: Block)
    requires ValidArms(arms) && SoFar(arms, bs) && |bs| < |arms| && ExpandsTo(arms[|bs|], b)
    ensures SoFar(arms, bs + [b])
  {
    forall i | 0 <= i <= |bs|
      ensures ExpandsTo(arms[i], (bs + [b])[i])
    {
    }
  }

  lemma FlattenMore(bs: seq<Block>, b: Block)
    ensures Flatten(bs + [b], |bs| + 1) == Flatten(bs, |bs|) + Targeted(b.values, b.target)
  {
    FlattenSame(bs + [b], bs, |bs|);
  }

  /** The first k pairs of the first m arms are admitted if the whole select is. */
  lemma PrefixAdmitted(arms: seq<Authored>, bs: seq<Block>, k: nat)
    requires ValidArms(arms) && SoFar(arms, bs) && Selectable(arms) && k <= |Flatten(bs, |bs|)|
    ensures Admitted(Flatten(bs, |bs|)[..k])
  {
    var all :| AllExpandTo(arms, all) && Admitted(Flatten(all, |all|));
    PrefixOfAdmitted(bs, all, k);
  }

  lemma PrefixOfAdmitted(bs: seq<Block>, all: seq<Block>, k: nat)
    requires |bs| <= |all| && (forall i | 0 <= i < |bs| :: bs[i] == all[i])
    requires Admitted(Flatten(all, |all|)) && k <= |Flatten(bs, |bs|)|
    ensures Admitted(Flatten(bs, |bs|)[..k])
  {
    FlattenSame(bs, all, |bs|);
    FlattenPrefix(all, |bs|, |all|);
    AdmittedPrefix(Flatten(all, |all|), k);
    assert Flatten(all, |all|)[..k] == Flatten(bs, |bs|)[..k];
  }

  /** The values of one arm, after the arms before it: refused at the first bad prefix. */
  method AdmitArm(b: Block, start: seq<Pair>) returns (r: Option<seq<Pair>>, ghost bad: nat)
    requires Admitted(start)
    ensures r.Some? ==> r.value == start + Targeted(b.values, b.target) && Admitted(r.value)
    ensures r.None? ==>
              bad <= |start| + |b.values| && !Admitted((start + Targeted(b.values, b.target))[..bad])
  {
    var es := start;
    ghost var next := start + Targeted(b.values, b.target);
    for i := 0 to |b.values|
      invariant es == next[..|start| + i] && Admitted(es)
    {
      var ok := Admit(es, b.values[i], b.target);
      assert es + [Pair(b.values[i], b.target)] == next[..|start| + i + 1];
      if !ok {
        return None, |start| + i + 1;
      }
      es := es + [Pair(b.values[i], b.target)];
    }
    assert next[..|next|] == next;
    r, bad := Some(es), 0;
  }

  /** Expands and admits the next arm. */
  method BuildArm(arms: seq<Authored>, a: nat, es: seq<Pair>, ghost bs: seq<Block>)
    returns (r: Option<seq<Pair>>, ghost more: seq<Block>)
    requires ValidArms(arms) && SoFar(arms, bs) && |bs| == a < |arms| && es == Flatten(bs, |bs|) && Admitted(es)
    ensures r.Some? ==>
              && SoFar(arms, more) && |more| == |bs| + 1 && r.value == Flatten(more, |more|) && Admitted(r.value)
    ensures r.None? ==> !Selectable(arms)
  {
    more := bs;
    var values := ExpandArm(arms[a].key);
    if values.None? {
      return None, more;
    }
    var b := Block(values.value, arms[a].target);
    more := bs + [b];
    OneMoreBlock(arms, bs, b);
    FlattenMore(bs, b);
    ghost var bad;
    r, bad := AdmitArm(b, es);
    if r.None? {
      Refused(arms, more, bad);
    }
  }

  /** A select is built exactly when the arms expand and pass every check, and then it holds
      their values in authored order. */
  method BuildSelect(arms: seq<Authored>) returns (r: Option<seq<Pair>>)
    requires ValidArms(arms)
    ensures r.Some? <==> Selectable(arms)
    ensures r.Some? ==> exists bs :: AllExpandTo(arms, bs) && r.value == Flatten(bs, |bs|)
  {
    var es: seq<Pair> := [];
    ghost var bs: seq<Block> := [];
    for a := 0 to |arms|
      invariant SoFar(arms, bs) && |bs| == a && es == Flatten(bs, a) && Admitted(es)
    {
      var step;
      step, bs := BuildArm(arms, a, es, bs);
      if step.None? {
        return None;
      }
      es := step.value;
    }
    r := Some(es);
  }

  lemma Refused(arms: seq<Authored>, bs: seq<Block>, k: nat)
    requires ValidArms(arms) && SoFar(arms, bs) && k <= |Flatten(bs, |bs|)| && !Admitted(Flatten(bs, |bs|)[..k])
    ensures !Selectable(arms)
  {
    if Selectable(arms) {
      PrefixAdmitted(arms, bs, k);
    }
  }

  // ---- Order independence ----

  predicate MaskFree(a: ArmValue) {
    match a
    case One(s) => !s.Mask?
    case Many(ss) => forall i | 0 <= i < |ss| :: !ss[i].Mask?
  }

  /** All values are scalar, or all are tuples of n parts; none is masked. */
  predicate Uniform(es: seq<Pair>, n: Option<nat>) {
    forall i | 0 <= i < |es| ::
      MaskFree(es[i].value)
      && (if n.None? then es[i].value.One? else es[i].value.Many? && |es[i].value.ss| == n.value)
  }

  /** First matching value's target. */
  function FirstHit(es: seq<Pair>, vec: seq<nat>): Option<Target> {
    if es == [] then None
    else if ValueHits(es[0].value, vec) then Some(es[0].target)
    else FirstHit(es[1..], vec)
  }

  lemma {:induction false} FirstHitIsHit(es: seq<Pair>, vec: seq<nat>)
    ensures FirstHit(es, vec).None? ==> forall i | 0 <= i < |es| :: !ValueHits(es[i].value, vec)
    ensures FirstHit(es, vec).Some? ==>
              exists i | 0 <= i < |es| :: ValueHits(es[i].value, vec) && FirstHit(es, vec) == Some(es[i].target)
    decreases |es|
  {
    if es != [] && !ValueHits(es[0].value, vec) {
      FirstHitIsHit(es[1..], vec);
      if FirstHit(es[1..], vec).Some? {
        var i :| 0 <= i < |es| - 1 && ValueHits(es[1..][i].value, vec) && FirstHit(es[1..], vec) == Some(es[1..][i].target);
        assert es[1..][i] == es[i + 1];
      } else {
        forall i | 0 <= i < |es|
          ensures !ValueHits(es[i].value, vec)
        {
          if i > 0 {
            assert es[1..][i - 1] == es[i];
          }
        }
      }
    }
  }

  lemma AtMostOneHit(es: seq<Pair>, n: Option<nat>, vec: seq<nat>, i: nat, j: nat)
    requires Admitted(es) && Uniform(es, n) && i < |es| && j < |es|
    requires ValueHits(es[i].value, vec) && ValueHits(es[j].value, vec)
    ensures i == j
  {
    if i < j {
    } else if j < i {
    }
  }

  lemma FoundInOther(es: seq<Pair>, other: seq<Pair>, i: nat) returns (k: nat)
    requires multiset(es) == multiset(other) && i < |es|
    ensures k < |other| && other[k] == es[i]
  {
    assert es[i] in multiset(other);
    k :| 0 <= k < |other| && other[k] == es[i];
  }

  /** Dispatch over an admitted mask-free select of one shape is the same in any order. */
  lemma OrderIndependent(es: seq<Pair>, other: seq<Pair>, n: Option<nat>, vec: seq<nat>)
    requires Admitted(es) && Uniform(es, n) && multiset(es) == multiset(other)
    ensures FirstHit(es, vec) == FirstHit(other, vec)
  {
    FirstHitIsHit(es, vec);
    FirstHitIsHit(other, vec);
    if FirstHit(es, vec).Some? {
      var i :| 0 <= i < |es| && ValueHits(es[i].value, vec) && FirstHit(es, vec) == Some(es[i].target);
      var k := FoundInOther(es, other, i);
      var j :| 0 <= j < |other| && ValueHits(other[j].value, vec) && FirstHit(other, vec) == Some(other[j].target);
      var m := FoundInOther(other, es, j);
      AtMostOneHit(es, n, vec, i, m);
    } else if FirstHit(other, vec).Some? {
      var j :| 0 <= j < |other| && ValueHits(other[j].value, vec) && FirstHit(other, vec) == Some(other[j].target);
      var m := FoundInOther(other, es, j);
    }
  }

  // ---- Masks ----

  /** A mask beside anything else is compared for equality only. */
  lemma MaskedOverlap(l: Scalar, r: Scalar)
    requires l.Mask? || r.Mask?
    ensures ScalarsOverlap(l, r) <==> l == r
  {
  }

  /** All values are scalar, or all are tuples of n parts; masks are allowed. */
  predicate SameShape(es: seq<Pair>, n: Option<nat>) {
    forall i | 0 <= i < |es| :: if n.None? then es[i].value.One? else es[i].value.Many? && |es[i].value.ss| == n.value
  }

  /** Two admitted values of one shape that share a key have a mask between them. */
  lemma SharedKeyNeedsMask(es: seq<Pair>, n: Option<nat>, vec: seq<nat>, i: nat, j: nat)
    requires Admitted(es) && SameShape(es, n) && i < j < |es|
    requires ValueHits(es[i].value, vec) && ValueHits(es[j].value, vec)
    ensures !MaskFree(es[i].value) || !MaskFree(es[j].value)
  {
  }

  /** No key hits two values with different targets. */
  ghost predicate Unambiguous(es: seq<Pair>) {
    forall i, j, vec: seq<nat> | 0 <= i < j < |es| && ValueHits(es[i].value, vec) && ValueHits(es[j].value, vec) ::
      es[i].target == es[j].target
  }

  ghost predicate OrderFree(es: seq<Pair>) {
    forall other: seq<Pair>, vec: seq<nat> | multiset(other) == multiset(es) :: FirstHit(other, vec) == FirstHit(es, vec)
  }

  /** Any values, masks included: dispatch is the same in every order exactly when no key hits two
      values with different targets. */
  lemma OrderFreeExactly(es: seq<Pair>)
    ensures OrderFree(es) <==> Unambiguous(es)
  {
    if Unambiguous(es) {
      forall other: seq<Pair>, vec: seq<nat> | multiset(other) == multiset(es)
        ensures FirstHit(other, vec) == FirstHit(es, vec)
      {
        SameTargets(es, other, vec);
      }
    }
    if OrderFree(es) {
      forall i, j, vec: seq<nat> | 0 <= i < j < |es| && ValueHits(es[i].value, vec) && ValueHits(es[j].value, vec)
        ensures es[i].target == es[j].target
      {
        MovedFirst(es, i, vec);
        MovedFirst(es, j, vec);
      }
    }
  }

  lemma SameTargets(es: seq<Pair>, other: seq<Pair>, vec: seq<nat>)
    requires Unambiguous(es) && multiset(other) == multiset(es)
    ensures FirstHit(other, vec) == FirstHit(es, vec)
  {
    FirstHitIsHit(es, vec);
    FirstHitIsHit(other, vec);
    if FirstHit(es, vec).Some? {
      var i :| 0 <= i < |es| && ValueHits(es[i].value, vec) && FirstHit(es, vec) == Some(es[i].target);
      var k := FoundInOther(es, other, i);
      var j :| 0 <= j < |other| && ValueHits(other[j].value, vec) && FirstHit(other, vec) == Some(other[j].target);
      var m := FoundInOther(other, es, j);
      assert es[m].target == es[i].target;
    } else if FirstHit(other, vec).Some? {
      var j :| 0 <= j < |other| && ValueHits(other[j].value, vec) && FirstHit(other, vec) == Some(other[j].target);
      var m := FoundInOther(other, es, j);
    }
  }

  lemma MovedFirst(es: seq<Pair>, i: nat, vec: seq<nat>)
    requires OrderFree(es) && i < |es| && ValueHits(es[i].value, vec)
    ensures FirstHit(es, vec) == Some(es[i].target)
  {
    hide ValueHits;
    var other := [es[i]] + (es[..i] + es[i + 1..]);
    assert es == es[..i] + ([es[i]] + es[i + 1..]);
    assert multiset(other) == multiset(es);
    assert FirstHit(other, vec) == Some(es[i].target);
  }

  /** A mask beside a range that shares a key with it is admitted, and the order then decides. */
  lemma MaskBesideRange(a: Target, b: Target)
    requires a != b
    ensures var es := [Pair(One(Mask(0, 0xf0)), a), Pair(One(Span(0, 15)), b)];
            Admitted(es) && SameShape(es, None) && !OrderFree(es)
  {
    var es := [Pair(One(Mask(0, 0xf0)), a), Pair(One(Span(0, 15)), b)];
    assert es[..1] == [es[0]] && [es[0]][..0] == [];
    assert Ranges([es[0]]) == 0;
    assert Ranges(es) == Ranges(es[..1]) + 1;
    var vec: seq<nat> := [0];
    assert Matches(Entry.Masked(0, 0xf0), 0) && Matches(Entry.Range(0, 15), 0);
    assert ValueHits(es[0].value, vec);
    assert ValueHits(es[1].value, vec);
    OrderFreeExactly(es);
  }

  // ---- The synthesised default ----

  function Scalars(es: seq<Pair>): seq<Scalar>
    requires forall i | 0 <= i < |es| :: es[i].value.One?
  {
    seq(|es|, i requires 0 <= i < |es| => es[i].value.s)
  }

  /** An omitted default is licensed exactly when there is one key, of known width, no masked
      or tuple value, and every key value below 2^width matches some arm. */
  method ExhaustiveDefault(keys: nat, width: Option<nat>, es: seq<Pair>) returns (ok: bool)
    ensures ok <==>
      && keys == 1 && width.Some?
      && (forall i | 0 <= i < |es| :: es[i].value.One? && !es[i].value.s.Mask?)
      && forall v: nat | v < Pow2(width.value) :: AnyHits(Scalars(es), v)
  {
    if keys != 1 || width.None? {
      return false;
    }
    if i :| 0 <= i < |es| && es[i].value.Many? {
      return false;
    }
    var total := Pow2(width.value);
    var covered := CoveredIntervals(Scalars(es), total);
    if covered.None? {
      ghost var k :| 0 <= k < |Scalars(es)| && Scalars(es)[k].Mask?;
      assert es[k].value.s.Mask?;
      return false;
    }
    CountDecides(Scalars(es), total);
    assert forall i | 0 <= i < |es| :: Scalars(es)[i] == es[i].value.s;
    ok := covered.value.1 == total;
  }

  // ---- The arms as emitted ----

  predicate Lowerable(s: Scalar) {
    && (s.Exact? ==> s.v >= 0)
    && (s.Span? ==> 0 <= s.lo && 0 <= s.hi)
  }

  function LowerScalar(s: Scalar): Entry
    requires Lowerable(s)
  {
    match s
    case Exact(v) => Value(v)
    case Mask(value, mask) => Entry.Masked(value, mask)
    case Span(lo, hi) => Range(lo, hi)
  }

  predicate AllLowerable(ss: seq<Scalar>) {
    forall i | 0 <= i < |ss| :: Lowerable(ss[i])
  }

  /** One keyset entry per part. */
  function LowerParts(ss: seq<Scalar>): List<Entry>
    requires AllLowerable(ss)
  {
    if ss == [] then Nil else Cons(LowerScalar(ss[0]), LowerParts(ss[1..]))
  }

  function PartsOf(a: ArmValue): seq<Scalar> {
    match a
    case One(s) => [s]
    case Many(ss) => ss
  }

  predicate Lowers(es: seq<Pair>) {
    forall i | 0 <= i < |es| :: AllLowerable(PartsOf(es[i].value))
  }

  function Lower(es: seq<Pair>): List<Arm>
    requires Lowers(es)
  {
    if es == [] then Nil else Cons(Arm(LowerParts(PartsOf(es[0].value)), es[0].target), Lower(es[1..]))
  }

  function KeyList(vec: seq<u64>): List<u64> {
    if vec == [] then Nil else Cons(vec[0], KeyList(vec[1..]))
  }

  /** The entries match the key list exactly when every part hits its key, none missing. */
  lemma {:induction false} PartsMatch(ss: seq<Scalar>, vec: seq<u64>)
    requires AllLowerable(ss)
    ensures MatchesAll(LowerParts(ss), KeyList(vec)) <==> AllHit(ss, vec)
    decreases |ss|
  {
    if ss != [] && vec != [] {
      PartsMatch(ss[1..], vec[1..]);
    }
  }

  lemma ValueMatches(a: ArmValue, vec: seq<u64>)
    requires AllLowerable(PartsOf(a))
    ensures MatchesAll(LowerParts(PartsOf(a)), KeyList(vec)) <==> ValueHits(a, vec)
  {
    PartsMatch(PartsOf(a), vec);
    if a.One? && |vec| == 1 {
      assert AllHit([], vec[1..]);
    }
  }

  /** The emitted dispatch, over any number of keys, is first match in authored order, then the
      default. */
  lemma {:induction false} LoweredDispatch(es: seq<Pair>, d: Option<Target>, vec: seq<u64>)
    requires Lowers(es)
    ensures Choose(Lower(es), d, KeyList(vec)) == if FirstHit(es, vec).Some? then FirstHit(es, vec) else d
    decreases |es|
  {
    if es != [] {
      ValueMatches(es[0].value, vec);
      LoweredDispatch(es[1..], d, vec);
    }
  }

  /** So an admitted mask-free select of one shape dispatches the same with its arms emitted in
      any order. */
  lemma LoweredOrderIndependent(es: seq<Pair>, other: seq<Pair>, n: Option<nat>, d: Option<Target>, vec: seq<u64>)
    requires Admitted(es) && Uniform(es, n) && multiset(es) == multiset(other) && Lowers(es) && Lowers(other)
    ensures Choose(Lower(es), d, KeyList(vec)) == Choose(Lower(other), d, KeyList(vec))
  {
    LoweredDispatch(es, d, vec);
    LoweredDispatch(other, d, vec);
    OrderIndependent(es, other, n, vec);
  }

  /** When the default was synthesised it is never taken, whatever it is. */
  lemma SynthesisedDefaultUnreachable(es: seq<Pair>, total: nat, d: Option<Target>, d': Option<Target>, v: u64)
    requires Lowers(es) && v < total
    requires (forall i | 0 <= i < |es| :: es[i].value.One?) && forall v: nat | v < total :: AnyHits(Scalars(es), v)
    ensures Choose(Lower(es), d, KeyList([v])) == Choose(Lower(es), d', KeyList([v])) == FirstHit(es, [v])
    ensures FirstHit(es, [v]).Some?
  {
    LoweredDispatch(es, d, [v]);
    LoweredDispatch(es, d', [v]);
    FirstHitIsHit(es, [v]);
    assert AnyHits(Scalars(es), v);
    var k :| 0 <= k < |Scalars(es)| && Hits(Scalars(es)[k], v);
    assert ValueHits(es[k].value, [v]);
  }
}
