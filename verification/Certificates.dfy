/** Checking a description state by state: the instances already extracted and the region depth
    of each state, compared with what the state hands to its successors. */
module Certificates {
  import opened Bits
  import opened Ir
  import opened Alignment
  import opened Regions
  import opened Totality
  import opened ParseCore
  import opened Generator

  /** Per state, the instances extracted on every path to it and its region depth. */
  datatype Certificate = Certificate(ty: Typing, ins: seq<set<Name>>, depths: seq<nat>)

  predicate TargetsFit(ts: List<Target>, c: Certificate, have: set<Name>, d: nat)
    requires |c.depths| == |c.ins|
    decreases ts
  {
    match ts
    case Nil => true
    case Cons(ToState(r), rest) => r < |c.ins| && c.ins[r] <= have && c.depths[r] == d && TargetsFit(rest, c, have, d)
    case Cons(_, rest) => TargetsFit(rest, c, have, d)
  }

  predicate StateFits(s: State, c: Certificate, q: Name, metas: nat)
    requires q < |c.ins| == |c.depths|
  {
    && StateShapes(s)
    && StateOk(s, Scope(c.ty, c.ins[q], None, {}, true), metas, c.depths[q])
    && TargetsFit(TargetList(s.transition), c, c.ins[q] + Extracted(s.extracts), StateDepth(s, c.depths[q]).value)
  }

  lemma Fits(s: State, c: Certificate, q: Name, metas: nat, have: set<Name>, d: nat)
    requires q < |c.ins| == |c.depths| && c.ins[q] == have && c.depths[q] == d
    requires StateShapes(s) && StateOk(s, Scope(c.ty, have, None, {}, true), metas, d)
    requires TargetsFit(TargetList(s.transition), c, have + Extracted(s.extracts), StateDepth(s, d).value)
    ensures StateFits(s, c, q, metas)
  {
  }

  ghost predicate Certified(p: Program, c: Certificate) {
    && |c.ins| == |c.depths| == |p.states|
    && p.start < |p.states| && c.ins[p.start] == {} && c.depths[p.start] == 0
    && forall q | 0 <= q < |p.states| :: StateFits(p.states[q], c, q, |p.metadata|)
  }

  function InMap(c: Certificate): map<Name, set<Name>> {
    map q | 0 <= q < |c.ins| :: c.ins[q]
  }

  function DepthMap(c: Certificate): map<Name, nat> {
    map q | 0 <= q < |c.depths| :: c.depths[q]
  }

  lemma {:induction false} FitsMember(ts: List<Target>, c: Certificate, have: set<Name>, d: nat, r: Name)
    requires |c.depths| == |c.ins| && TargetsFit(ts, c, have, d) && Member(ToState(r), ts)
    ensures r < |c.ins| && c.ins[r] <= have && c.depths[r] == d
    decreases ts
  {
    if ts.head != ToState(r) {
      FitsMember(ts.tail, c, have, d, r);
    }
  }

  lemma EdgeFits(p: Program, c: Certificate, q: Name, r: Name)
    requires Certified(p, c) && Edge(p, q, r)
    ensures r < |p.states| && c.ins[r] <= c.ins[q] + Extracted(p.states[q].extracts)
    ensures Some(c.depths[r]) == StateDepth(p.states[q], c.depths[q])
  {
    hide StateOk, StateShapes;
    var s := p.states[q];
    assert StateFits(s, c, q, |p.metadata|);
    DepthExists(s, c, q, |p.metadata|);
    FitsMember(TargetList(s.transition), c, c.ins[q] + Extracted(s.extracts), StateDepth(s, c.depths[q]).value, r);
  }

  lemma DepthExists(s: State, c: Certificate, q: Name, metas: nat)
    requires q < |c.ins| == |c.depths| && StateFits(s, c, q, metas)
    ensures StateDepth(s, c.depths[q]).Some?
  {
  }

  lemma CertifiedIsConsistent(p: Program, c: Certificate)
    requires Certified(p, c)
    ensures Closed(p) && Consistent(p, DepthMap(c)) && MustExtract(p, InMap(c))
  {
    forall q: Name, r: Name | Edge(p, q, r)
      ensures r < |p.states| && c.ins[r] <= c.ins[q] + Extracted(p.states[q].extracts)
      ensures Some(c.depths[r]) == StateDepth(p.states[q], c.depths[q])
    {
      EdgeFits(p, c, q, r);
    }
    forall q | 0 <= q < |p.states|
      ensures StateDepth(p.states[q], c.depths[q]).Some?
    {
      DepthExists(p.states[q], c, q, |p.metadata|);
    }
  }

  /** A certified description never faults, whatever the packet. */
  lemma CertifiedIsWellFormed(p: Program, c: Certificate)
    requires Certified(p, c)
    ensures WellFormed(p, c.ty, InMap(c), DepthMap(c), true)
  {
    hide StateOk, Consistent, MustExtract, Closed;
    CertifiedIsConsistent(p, c);
    forall q | q in DepthMap(c)
      ensures StateOk(p.states[q], Scope(c.ty, InMap(c)[q], None, {}, true), |p.metadata|, DepthMap(c)[q])
    {
      assert StateFits(p.states[q], c, q, |p.metadata|);
    }
  }

  /** So the generated core is faithful to it. */
  lemma CertifiedIsValid(p: Program, c: Certificate)
    requires Certified(p, c) && PushesBelow(p, |p.states|) <= 0x7fff_ffff
    ensures Valid(p)
  {
    hide WellFormed, StateShapes, StateOk, Consistent, Closed, AllEmittable;
    CertifiedIsConsistent(p, c);
    CertifiedIsWellFormed(p, c);
    forall q | 0 <= q < |p.states|
      ensures StateShapes(p.states[q])
    {
      assert StateFits(p.states[q], c, q, |p.metadata|);
    }
    ShapesSuffice(p);
  }

  /** States that push at most once. */
  lemma {:induction false} PushesAtMost(p: Program, n: nat)
    requires n <= |p.states| && forall q | 0 <= q < |p.states| :: Pushes(p.states[q].ops) <= 1
    ensures PushesBelow(p, n) <= n
    decreases n
  {
    hide Pushes;
    if n > 0 {
      PushesAtMost(p, n - 1);
    }
  }

  // ---- Checking a state against what is known of the headers ----

  /** What states may rely on, per instance: how many fixed fields its header starts with, and
      which instances its widths name. */
  datatype Facts = Facts(lead: map<Name, nat>, needs: map<Name, set<Name>>)

  /** The facts are right: fields 0 .. lead are fixed, and the header can be read once the
      instances it needs are there. */
  ghost predicate FactsHold(ty: Typing, k: Facts) {
    && (forall i | i in k.lead :: i in ty && StartsFixed(ty[i], k.lead[i]))
    && (forall i | i in k.needs :: ReadableOnce(ty, i, k.needs[i]))
  }

  ghost predicate StartsFixed(fs: List<FieldDecl>, n: nat) {
    forall f: Name | f < n :: HasFixed(fs, f)
  }

  ghost predicate ReadableOnce(ty: Typing, inst: Name, needs: set<Name>) {
    && inst in ty && DistinctNames(ty[inst]) && FieldShapes(ty[inst], false)
    && forall have: set<Name> | needs <= have :: WidthsOk(ty[inst], Scope(ty, have, Some(inst), {}, true))
  }

  predicate ExprFits(e: Expr, k: Facts, have: set<Name>, metas: nat, remaining: bool)
    decreases e
  {
    match e
    case Const(_) => true
    case Field(r) => r.inst in have && r.inst in k.lead && r.field < k.lead[r.inst]
    case Meta(m) => m < metas
    case Remaining => remaining
    case Bin(_, l, r) => ExprFits(l, k, have, metas, remaining) && ExprFits(r, k, have, metas, remaining)
  }

  predicate KeysFit(es: List<Expr>, k: Facts, have: set<Name>, metas: nat, remaining: bool)
    decreases es
  {
    match es
    case Nil => true
    case Cons(e, rest) => ExprFits(e, k, have, metas, remaining) && KeysFit(rest, k, have, metas, remaining)
  }

  predicate AssignsFit(asgs: List<Assign>, k: Facts, have: set<Name>, metas: nat, remaining: bool)
    decreases asgs
  {
    match asgs
    case Nil => true
    case Cons(a, rest) =>
      a.target < metas && ExprFits(a.value, k, have, metas, remaining) && AssignsFit(rest, k, have, metas, remaining)
  }

  predicate OpsFit(ops: List<RegionOp>, k: Facts, have: set<Name>)
    decreases ops
  {
    match ops
    case Nil => true
    case Cons(Push(e), rest) => ExprFits(e, k, have, 0, false) && OpsFit(rest, k, have)
    case Cons(Pop, rest) => OpsFit(rest, k, have)
  }

  /** At most one header, of its own type, whose needs are there. */
  predicate ExtractFits(exs: List<Extract>, ty: Typing, k: Facts, have: set<Name>) {
    exs.Cons? ==>
      && exs.tail.Nil? && !exs.head.lookahead && exs.head.inst in ty && ty[exs.head.inst] == exs.head.fields
      && exs.head.inst in k.needs && k.needs[exs.head.inst] <= have
  }

  lemma {:induction false} ExprFitsOk(e: Expr, k: Facts, s: Scope, metas: nat, remaining: bool)
    requires FactsHold(s.ty, k) && s.strict && ExprFits(e, k, s.avail, metas, remaining)
    ensures ExprOk(e, s, metas, remaining)
    decreases e
  {
    match e
    case Bin(_, l, r) =>
      ExprFitsOk(l, k, s, metas, remaining);
      ExprFitsOk(r, k, s, metas, remaining);
    case Field(r) =>
      assert StartsFixed(s.ty[r.inst], k.lead[r.inst]);
    case _ =>
  }

  lemma {:induction false} KeysFitOk(es: List<Expr>, k: Facts, s: Scope, metas: nat, remaining: bool)
    requires FactsHold(s.ty, k) && s.strict && KeysFit(es, k, s.avail, metas, remaining)
    ensures KeysOk(es, s, metas, remaining)
    decreases es
  {
    if es.Cons? {
      ExprFitsOk(es.head, k, s, metas, remaining);
      KeysFitOk(es.tail, k, s, metas, remaining);
    }
  }

  lemma {:induction false} AssignsFitOk(asgs: List<Assign>, k: Facts, s: Scope, metas: nat, remaining: bool)
    requires FactsHold(s.ty, k) && s.strict && AssignsFit(asgs, k, s.avail, metas, remaining)
    ensures AssignsOk(asgs, s, metas, remaining)
    decreases asgs
  {
    if asgs.Cons? {
      ExprFitsOk(asgs.head.value, k, s, metas, remaining);
      AssignsFitOk(asgs.tail, k, s, metas, remaining);
    }
  }

  lemma {:induction false} OpsFitOk(ops: List<RegionOp>, k: Facts, s: Scope)
    requires FactsHold(s.ty, k) && s.strict && OpsFit(ops, k, s.avail)
    ensures OpsOk(ops, s)
    decreases ops
  {
    if ops.Cons? {
      if ops.head.Push? {
        ExprFitsOk(ops.head.len, k, s, 0, false);
      }
      OpsFitOk(ops.tail, k, s);
    }
  }

  lemma ExtractFitsOk(s: State, ty: Typing, k: Facts, have: set<Name>)
    requires FactsHold(ty, k) && ExtractFits(s.extracts, ty, k, have)
    ensures ExtractsOk(s.extracts, Scope(ty, have, None, {}, true)) && StateShapes(s)
  {
    if s.extracts.Cons? {
      var ex, sc := s.extracts.head, Scope(ty, have, None, {}, true);
      assert ReadableOnce(ty, ex.inst, k.needs[ex.inst]);
      assert WidthsOk(ex.fields, sc.(own := Some(ex.inst)));
      assert ExtractsOk(Nil, sc.(avail := have + {ex.inst}));
      assert ExtractShapes(Nil) && !HasInstance(Nil, ex.inst) && AllDistinctNames(Nil);
    }
  }

  /** What is left to check of one state. */
  predicate Checks(s: State, c: Certificate, k: Facts, q: Name, metas: nat)
    requires q < |c.ins| == |c.depths|
  {
    var after, d := c.ins[q] + Extracted(s.extracts), c.depths[q];
    && ExtractFits(s.extracts, c.ty, k, c.ins[q])
    && AssignsFit(s.assigns, k, after, metas, d > 0) && OpsFit(s.ops, k, after)
    && StateDepth(s, d).Some?
    && (s.transition.Select? ==> KeysFit(s.transition.keys, k, after, metas, StateDepth(s, d).value > 0))
    && TargetsFit(TargetList(s.transition), c, after, StateDepth(s, d).value)
  }

  lemma ChecksFit(s: State, c: Certificate, k: Facts, q: Name, metas: nat)
    requires FactsHold(c.ty, k) && q < |c.ins| == |c.depths| && Checks(s, c, k, q, metas)
    ensures StateFits(s, c, q, metas)
  {
    hide FactsHold, ExtractFits, ExtractsOk, AssignsFit, AssignsOk, OpsFit, OpsOk, KeysFit, KeysOk, StateShapes, TargetsFit, StateDepth;
    var after, d := Scope(c.ty, c.ins[q] + Extracted(s.extracts), None, {}, true), c.depths[q];
    ExtractFitsOk(s, c.ty, k, c.ins[q]);
    AssignsFitOk(s.assigns, k, after, metas, d > 0);
    OpsFitOk(s.ops, k, after);
    if s.transition.Select? {
      KeysFitOk(s.transition.keys, k, after, metas, StateDepth(s, d).value > 0);
    }
  }

  // ---- Headers whose fields are numbered in order ----

  /** e names only the first m fields of its own header. */
  predicate RefersBelow(e: Expr, inst: Name, m: nat)
    decreases e
  {
    match e
    case Const(_) => true
    case Field(r) => r.inst == inst && r.field < m
    case Bin(_, l, r) => RefersBelow(l, inst, m) && RefersBelow(r, inst, m)
    case _ => false
  }

  /** Fields that are misnumbered, too wide, or sized by more than the first m fields, all fixed. */
  function Defects(fs: List<FieldDecl>, inst: Name, n: nat, m: nat): nat
    decreases fs
  {
    match fs
    case Nil => 0
    case Cons(f, rest) =>
      var fine := f.name == n && if f.width.Fixed? then 1 <= f.width.bits <= 64 else RefersBelow(f.width.len, inst, m);
      (if fine then 0 else 1) + Defects(rest, inst, n + 1, if f.width.Fixed? && m == n then n + 1 else m)
  }

  function LeadingFixed(fs: List<FieldDecl>): nat
    decreases fs
  {
    match fs
    case Nil => 0
    case Cons(f, rest) => if f.width.Fixed? then 1 + LeadingFixed(rest) else 0
  }

  lemma {:induction false} RefersOk(e: Expr, inst: Name, m: nat, s: Scope)
    requires RefersBelow(e, inst, m) && s.strict && s.own == Some(inst) && forall k: nat | k < m :: k in s.read
    ensures ExprOk(e, s, 0, false)
    decreases e
  {
    if e.Bin? {
      RefersOk(e.lhs, inst, m, s);
      RefersOk(e.rhs, inst, m, s);
    }
  }

  lemma {:induction false} DefectFree(fs: List<FieldDecl>, inst: Name, n: nat, m: nat, s: Scope)
    requires Defects(fs, inst, n, m) == 0 && m <= n && s.strict && s.own == Some(inst) && forall k: nat | k < m :: k in s.read
    ensures WidthsOk(fs, s) && DistinctNames(fs) && FieldShapes(fs, false)
    ensures forall f: Name | HasField(fs, f) :: f >= n
    decreases fs
  {
    if fs.Cons? {
      var f := fs.head;
      if f.width.Fixed? {
        var s' := s.(read := s.read + {f.name});
        DefectFree(fs.tail, inst, n + 1, if m == n then n + 1 else m, s');
      } else {
        RefersOk(f.width.len, inst, m, s);
        DefectFree(fs.tail, inst, n + 1, m, s);
      }
    }
  }

  lemma {:induction false} LeadingHas(fs: List<FieldDecl>, inst: Name, n: nat, m: nat, f: Name)
    requires Defects(fs, inst, n, m) == 0 && n <= f < n + LeadingFixed(fs)
    ensures HasFixed(fs, f)
    decreases fs
  {
    if f != n {
      LeadingHas(fs.tail, inst, n + 1, if fs.head.width.Fixed? && m == n then n + 1 else m, f);
    }
  }

  /** Every key is one of the first k fields of the header just read. */
  predicate OwnKeys(es: List<Expr>, inst: Name, k: nat)
    decreases es
  {
    match es
    case Nil => true
    case Cons(e, rest) => e.Field? && e.ref.inst == inst && e.ref.field < k && OwnKeys(rest, inst, k)
  }

  lemma {:induction false} OwnKeysOk(es: List<Expr>, inst: Name, fs: List<FieldDecl>, s: Scope, metas: nat, remaining: bool)
    requires OwnKeys(es, inst, LeadingFixed(fs)) && Defects(fs, inst, 0, 0) == 0
    requires s.strict && inst in s.avail && inst in s.ty && s.ty[inst] == fs
    ensures KeysOk(es, s, metas, remaining) && !AnyUsesRemaining(es)
    decreases es
  {
    if es.Cons? {
      LeadingHas(fs, inst, 0, 0, es.head.ref.field);
      OwnKeysOk(es.tail, inst, fs, s, metas, remaining);
    }
  }

  lemma {:induction false} TargetsFitAll(ts: List<Target>, c: Certificate, have: set<Name>, d: nat)
    requires |c.depths| == |c.ins|
    requires forall r: Name | Member(ToState(r), ts) :: r < |c.ins| && c.ins[r] <= have && c.depths[r] == d
    ensures TargetsFit(ts, c, have, d)
    decreases ts
  {
    if ts.Cons? {
      assert forall r: Name | Member(ToState(r), ts.tail) :: Member(ToState(r), ts);
      TargetsFitAll(ts.tail, c, have, d);
    }
  }

  /** A state that reads one header and branches on its fields alone. */
  lemma HeaderFits(c: Certificate, q: Name, inst: Name, fs: List<FieldDecl>, peek: bool, tr: Transition, metas: nat)
    requires q < |c.ins| == |c.depths| && c.ins[q] == {} && c.depths[q] == 0
    requires inst in c.ty && c.ty[inst] == fs && Defects(fs, inst, 0, 0) == 0 && (peek ==> fs.Cons? && fs.head.width.Fixed? && fs.tail.Nil?)
    requires tr.Select? ==> OwnKeys(tr.keys, inst, LeadingFixed(fs))
    requires forall r: Name | Member(ToState(r), TargetList(tr)) :: r < |c.ins| && c.ins[r] == {} && c.depths[r] == 0
    ensures StateFits(State(Cons(Extract(inst, fs, peek), Nil), Nil, Nil, tr), c, q, metas)
  {
    var s := State(Cons(Extract(inst, fs, peek), Nil), Nil, Nil, tr);
    var sc := Scope(c.ty, {}, None, {}, true);
    var after := sc.(avail := sc.avail + Extracted(s.extracts));
    HeaderShapes(c.ty, inst, fs, peek);
    if tr.Select? {
      OwnKeysOk(tr.keys, inst, fs, after, metas, false);
    }
    assert StateDepth(s, 0) == Some(0);
    TargetsFitAll(TargetList(tr), c, {} + Extracted(s.extracts), 0);
    hide ExtractsOk, KeysOk, TargetsFit, Defects, ExtractShapes;
    Fits(s, c, q, metas, {}, 0);
  }

  lemma HeaderShapes(ty: Typing, inst: Name, fs: List<FieldDecl>, peek: bool)
    requires inst in ty && ty[inst] == fs && Defects(fs, inst, 0, 0) == 0 && (peek ==> fs.Cons? && fs.head.width.Fixed? && fs.tail.Nil?)
    ensures ExtractsOk(Cons(Extract(inst, fs, peek), Nil), Scope(ty, {}, None, {}, true))
    ensures StateShapes(State(Cons(Extract(inst, fs, peek), Nil), Nil, Nil, Direct(ToAccept)))
  {
    var sc := Scope(ty, {}, None, {}, true);
    DefectFree(fs, inst, 0, 0, sc.(own := Some(inst)));
    assert FieldShapes(fs, peek);
    assert ExtractsOk(Nil, sc.(avail := sc.avail + {inst}));
  }
}
