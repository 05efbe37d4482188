/** Well-formedness and the totality theorem: a well-formed program never faults.

    The reference checks are parameterised by strict: the semantics document asks for the
    strict ones, the validator performs the lax ones. */
module Totality {
  import opened Bits
  import opened Ir
  import opened Semantics
  import opened Regions

  /** The one header type of each instance. */
  type Typing = map<Name, List<FieldDecl>>

  /** What a reference may name at a use point: fields of definitely extracted instances,
      and, inside the header own, the fields already read. */
  datatype Scope = Scope(ty: Typing, avail: set<Name>, own: Option<Name>, read: set<Name>, strict: bool)

  predicate RefOk(r: FieldRef, s: Scope) {
    if s.strict then
      || (r.inst in s.avail && r.inst in s.ty && HasFixed(s.ty[r.inst], r.field))
      || (s.own == Some(r.inst) && r.field in s.read)
    else
      && (r.inst in s.avail || s.own == Some(r.inst))
      && r.inst in s.ty && HasField(s.ty[r.inst], r.field)
  }

  predicate ExprOk(e: Expr, s: Scope, metas: nat, remaining: bool)
    decreases e
  {
    match e
    case Const(_) => true
    case Field(r) => RefOk(r, s)
    case Meta(m) => m < metas
    case Remaining => remaining
    case Bin(_, l, r) => ExprOk(l, s, metas, remaining) && ExprOk(r, s, metas, remaining)
  }

  predicate WidthsOk(fs: List<FieldDecl>, s: Scope)
    decreases fs
  {
    match fs
    case Nil => true
    case Cons(d, rest) =>
      && (d.width.BitLen? ==> ExprOk(d.width.len, s, 0, false))
      && WidthsOk(rest, if d.width.Fixed? then s.(read := s.read + {d.name}) else s)
  }

  predicate ExtractsOk(exs: List<Extract>, s: Scope)
    decreases exs
  {
    match exs
    case Nil => true
    case Cons(ex, rest) =>
      && ex.inst in s.ty && s.ty[ex.inst] == ex.fields && DistinctNames(ex.fields)
      && WidthsOk(ex.fields, s.(own := Some(ex.inst)))
      && ExtractsOk(rest, s.(avail := s.avail + {ex.inst}))
  }

  function Extracted(exs: List<Extract>): set<Name> {
    match exs
    case Nil => {}
    case Cons(ex, rest) => {ex.inst} + Extracted(rest)
  }

  predicate AssignsOk(asgs: List<Assign>, s: Scope, metas: nat, remaining: bool)
    decreases asgs
  {
    match asgs
    case Nil => true
    case Cons(a, rest) => a.target < metas && ExprOk(a.value, s, metas, remaining) && AssignsOk(rest, s, metas, remaining)
  }

  /** The lax check lets a push length name any field of any instance. */
  predicate OpsOk(ops: List<RegionOp>, s: Scope)
    decreases ops
  {
    match ops
    case Nil => true
    case Cons(Push(e), rest) =>
      ExprOk(e, if s.strict then s else s.(avail := s.ty.Keys), 0, false) && OpsOk(rest, s)
    case Cons(Pop, rest) => OpsOk(rest, s)
  }

  predicate KeysOk(es: List<Expr>, s: Scope, metas: nat, remaining: bool)
    decreases es
  {
    match es
    case Nil => true
    case Cons(e, rest) => ExprOk(e, s, metas, remaining) && KeysOk(rest, s, metas, remaining)
  }

  /** State s may be entered at region depth d with the instances of sc extracted. */
  predicate StateOk(s: State, sc: Scope, metas: nat, d: nat) {
    var after := sc.(avail := sc.avail + Extracted(s.extracts));
    && ExtractsOk(s.extracts, sc)
    && AssignsOk(s.assigns, after, metas, d > 0)
    && OpsOk(s.ops, after)
    && StateDepth(s, d).Some?
    && (s.transition.Select? ==> KeysOk(s.transition.keys, after, metas, StateDepth(s, d).value > 0))
  }

  /** in[q] holds only instances extracted on every path to q. */
  ghost predicate MustExtract(p: Program, inset: map<Name, set<Name>>) {
    && p.start in inset && inset[p.start] == {}
    && forall q: Name, r: Name | q in inset && Edge(p, q, r) ::
         r in inset && inset[r] <= inset[q] + Extracted(p.states[q].extracts)
  }

  ghost predicate WellFormed(p: Program, ty: Typing, inset: map<Name, set<Name>>, depth: map<Name, nat>, strict: bool) {
    && Closed(p) && Consistent(p, depth) && MustExtract(p, inset)
    && forall q | q in depth ::
         q < |p.states| && q in inset
         && StateOk(p.states[q], Scope(ty, inset[q], None, {}, strict), |p.metadata|, depth[q])
  }

  lemma ConsistentOf(p: Program, ty: Typing, inset: map<Name, set<Name>>, depth: map<Name, nat>)
    requires WellFormed(p, ty, inset, depth, true)
    ensures Consistent(p, depth)
  {
  }

  // ---- Totality ----

  predicate IsUint(env: Env, inst: Name, f: Name) {
    FieldRef(inst, f) in env && env[FieldRef(inst, f)].Uint?
  }

  ghost predicate Bound(env: Env, ty: Typing, insts: set<Name>) {
    forall i, f | i in insts && i in ty && HasFixed(ty[i], f) :: IsUint(env, i, f)
  }

  ghost predicate Covers(s: Scope, env: Env) {
    && Bound(env, s.ty, s.avail)
    && (s.own.Some? ==> forall f | f in s.read :: IsUint(env, s.own.value, f))
  }

  predicate MetaFull(meta: Meta, n: nat) {
    forall m | 0 <= m < n :: m in meta
  }

  lemma {:induction false} EvalDefined(e: Expr, s: Scope, env: Env, meta: Meta, n: nat, rem: Option<u64>)
    requires s.strict && Covers(s, env) && MetaFull(meta, n) && ExprOk(e, s, n, rem.Some?)
    ensures Eval(e, env, meta, rem).Some?
    decreases e
  {
    match e
    case Bin(_, l, r) =>
      EvalDefined(l, s, env, meta, n, rem);
      EvalDefined(r, s, env, meta, n, rem);
    case Field(r) =>
      assert IsUint(env, r.inst, r.field);
    case _ =>
  }

  lemma {:induction false} FixedIsField(fs: List<FieldDecl>, f: Name)
    ensures HasFixed(fs, f) ==> HasField(fs, f)
    decreases fs
  {
    if fs.Cons? {
      FixedIsField(fs.tail, f);
    }
  }

  /** Reading one field keeps what was bound and binds the field if it is fixed. */
  lemma FieldBinds(pkt: Packet, s: Scope, inst: Name, d: FieldDecl, cur: nat, at: nat, cfg: Config)
    requires s.strict && Covers(s, cfg.env) && s.own == Some(inst)
    requires inst in s.avail && inst in s.ty && d.width.BitLen? ==> !HasFixed(s.ty[inst], d.name)
    requires d.width.BitLen? ==> d.name !in s.read && ExprOk(d.width.len, s, 0, false)
    ensures var r := ReadField(pkt, inst, d, cur, at, cfg);
            var s' := if d.width.Fixed? then s.(read := s.read + {d.name}) else s;
            !r.Fault? && (r.Go? ==> Covers(s', r.cfg.env) && r.cfg.meta == cfg.meta)
  {
    if d.width.BitLen? {
      EvalDefined(d.width.len, s, cfg.env, cfg.meta, 0, None);
    }
  }

  /** The fields still to read are those of the type minus the ones read. */
  ghost predicate Suffix(all: List<FieldDecl>, fs: List<FieldDecl>, read: set<Name>) {
    && DistinctNames(fs)
    && (forall f | HasField(fs, f) :: f !in read)
    && (forall f | HasFixed(all, f) :: f in read || HasFixed(fs, f))
    && (forall f | HasField(fs, f) && !HasFixed(fs, f) :: !HasFixed(all, f))
  }

  lemma SuffixStep(all: List<FieldDecl>, fs: List<FieldDecl>, read: set<Name>)
    requires Suffix(all, fs, read) && fs.Cons?
    ensures Suffix(all, fs.tail, if fs.head.width.Fixed? then read + {fs.head.name} else read)
    ensures fs.head.width.BitLen? ==> !HasFixed(all, fs.head.name) && fs.head.name !in read
  {
    FixedIsField(fs.tail, fs.head.name);
    forall f | HasField(fs.tail, f) && !HasFixed(fs.tail, f)
      ensures !HasFixed(all, f)
    {
      assert f != fs.head.name;
    }
  }

  lemma AllRead(s: Scope, inst: Name, all: List<FieldDecl>, env: Env)
    requires Covers(s, env) && s.own == Some(inst) && inst in s.ty && s.ty[inst] == all
    requires Suffix(all, Nil, s.read)
    ensures Bound(env, s.ty, s.avail + {inst})
  {
  }

  /** A header is read without a fault, and reading all of it binds its instance. */
  ghost predicate BindsHeader(r: Flow, ty: Typing, insts: set<Name>, meta: Meta) {
    !r.Fault? && (r.Go? ==> Bound(r.cfg.env, ty, insts) && r.cfg.meta == meta)
  }

  lemma {:induction false} FieldsTotal(
    pkt: Packet, s: Scope, inst: Name, peek: bool, all: List<FieldDecl>, fs: List<FieldDecl>, cur: nat, cfg: Config)
    requires s.strict && Covers(s, cfg.env) && s.own == Some(inst) && inst in s.ty && s.ty[inst] == all
    requires Suffix(all, fs, s.read) && WidthsOk(fs, s)
    ensures BindsHeader(ReadFields(pkt, inst, peek, fs, cur, cfg), s.ty, s.avail + {inst}, cfg.meta)
    decreases fs
  {
    hide Covers, Suffix, Bound;
    if fs.Nil? {
      AllRead(s, inst, all, cfg.env);
    } else {
      var at := if peek then cfg.pos else cur;
      var r := ReadField(pkt, inst, fs.head, cur, at, cfg);
      SuffixStep(all, fs, s.read);
      FieldBinds(pkt, s, inst, fs.head, cur, at, cfg);
      FieldsCons(pkt, inst, peek, fs, cur, cfg);
      hide ReadFields, ReadField;
      if r.Go? {
        var s' := if fs.head.width.Fixed? then s.(read := s.read + {fs.head.name}) else s;
        FieldsTotal(pkt, s', inst, peek, all, fs.tail, cur + FieldLen(fs.head.width, cfg).value, r.cfg);
      }
    }
  }

  lemma {:induction false} ExtractsTotal(pkt: Packet, s: Scope, exs: List<Extract>, cfg: Config)
    requires s.strict && s.own == None && Covers(s, cfg.env) && s.read == {} && ExtractsOk(exs, s)
    ensures var r := RunExtracts(pkt, exs, cfg);
            && !r.Fault?
            && (r.Go? ==> Bound(r.cfg.env, s.ty, s.avail + Extracted(exs)) && r.cfg.meta == cfg.meta)
    decreases exs
  {
    if exs.Cons? {
      var ex, c := exs.head, BeginHeader(exs.head, cfg);
      FieldsTotal(pkt, s.(own := Some(ex.inst)), ex.inst, ex.lookahead, ex.fields, ex.fields, cfg.pos, c);
      var r := ReadFields(pkt, ex.inst, ex.lookahead, ex.fields, cfg.pos, c);
      if r.Go? {
        var s' := s.(avail := s.avail + {ex.inst});
        ExtractsTotal(pkt, s', exs.tail, r.cfg);
        assert s'.avail + Extracted(exs.tail) == s.avail + Extracted(exs);
      }
    } else {
      assert s.avail + Extracted(exs) == s.avail;
    }
  }

  lemma {:induction false} AssignsTotal(s: Scope, decls: seq<MetaDecl>, asgs: List<Assign>, cfg: Config)
    requires s.strict && Covers(s, cfg.env) && MetaFull(cfg.meta, |decls|)
    requires AssignsOk(asgs, s, |decls|, |cfg.regions| > 0)
    ensures var r := RunAssigns(decls, asgs, cfg); r.Go? && MetaFull(r.cfg.meta, |decls|)
    decreases asgs
  {
    if asgs.Cons? {
      var a := asgs.head;
      EvalDefined(a.value, s, cfg.env, cfg.meta, |decls|, RemainingAt(cfg.regions, cfg.pos));
      var v := Eval(a.value, cfg.env, cfg.meta, RemainingAt(cfg.regions, cfg.pos));
      AssignsTotal(s, decls, asgs.tail, cfg.(meta := cfg.meta[a.target := Truncate(v.value, decls[a.target].bits)]));
    }
  }

  lemma {:induction false} RelaxRemaining(e: Expr, s: Scope, n: nat, a: bool)
    requires ExprOk(e, s, 0, false)
    ensures ExprOk(e, s, n, a)
    decreases e
  {
    if e.Bin? {
      RelaxRemaining(e.lhs, s, n, a);
      RelaxRemaining(e.rhs, s, n, a);
    }
  }

  lemma {:induction false} OpsTotal(pkt: Packet, rule: PopRule, s: Scope, n: nat, ops: List<RegionOp>, cfg: Config)
    requires s.strict && Covers(s, cfg.env) && MetaFull(cfg.meta, n) && OpsOk(ops, s)
    requires OpsDepth(ops, |cfg.regions|).Some?
    ensures var r := RunOps(pkt, rule, ops, cfg);
            !r.Fault? && (r.Go? ==> r.cfg.env == cfg.env && r.cfg.meta == cfg.meta)
    decreases ops
  {
    if ops.Cons? {
      if ops.head.Push? {
        var rem := RemainingAt(cfg.regions, cfg.pos);
        RelaxRemaining(ops.head.len, s, n, rem.Some?);
        EvalDefined(ops.head.len, s, cfg.env, cfg.meta, n, rem);
      }
      var r := RunOp(pkt, rule, ops.head, cfg);
      if r.Go? {
        OpsTotal(pkt, rule, s, n, ops.tail, r.cfg);
      }
    }
  }

  lemma {:induction false} KeysTotal(s: Scope, es: List<Expr>, env: Env, meta: Meta, n: nat, rem: Option<u64>)
    requires s.strict && Covers(s, env) && MetaFull(meta, n) && KeysOk(es, s, n, rem.Some?)
    ensures EvalKeys(es, env, meta, rem).Some?
    decreases es
  {
    if es.Cons? {
      EvalDefined(es.head, s, env, meta, n, rem);
      KeysTotal(s, es.tail, env, meta, n, rem);
    }
  }

  /** What totality needs of a state entry. */
  ghost predicate Ready(p: Program, ty: Typing, inset: map<Name, set<Name>>, depth: map<Name, nat>, pkt: Packet, q: Name, cfg: Config) {
    && q in depth && q in inset && |cfg.regions| == depth[q]
    && Bound(cfg.env, ty, inset[q]) && MetaFull(cfg.meta, |p.metadata|) && Sound(pkt, cfg)
  }

  lemma BodyTotal(pkt: Packet, rule: PopRule, decls: seq<MetaDecl>, s: State, sc: Scope, cfg: Config)
    requires sc.strict && sc.own == None && sc.read == {} && Covers(sc, cfg.env)
    requires MetaFull(cfg.meta, |decls|) && StateOk(s, sc, |decls|, |cfg.regions|) && Sound(pkt, cfg)
    ensures var r := RunBody(pkt, rule, decls, s, cfg);
            && !r.Fault?
            && (r.Go? ==> Bound(r.cfg.env, sc.ty, sc.avail + Extracted(s.extracts)) && MetaFull(r.cfg.meta, |decls|)
                          && StateDepth(s, |cfg.regions|) == Some(|r.cfg.regions|))
  {
    var after := sc.(avail := sc.avail + Extracted(s.extracts));
    ExtractsTotal(pkt, sc, s.extracts, cfg);
    ExtractsKeep(pkt, s.extracts, cfg);
    var r1 := RunExtracts(pkt, s.extracts, cfg);
    if r1.Go? {
      AssignsTotal(after, decls, s.assigns, r1.cfg);
      AssignsKeep(decls, s.assigns, r1.cfg);
      var r2 := RunAssigns(decls, s.assigns, r1.cfg);
      OpsTotal(pkt, rule, after, |decls|, s.ops, r2.cfg);
      OpsReach(pkt, rule, s.ops, r2.cfg);
      OpsDepthAgree(s.ops, |cfg.regions|);
    }
  }

  lemma StepTotal(p: Program, ty: Typing, inset: map<Name, set<Name>>, depth: map<Name, nat>, pkt: Packet, rule: PopRule, q: Name, cfg: Config)
    requires WellFormed(p, ty, inset, depth, true) && Ready(p, ty, inset, depth, pkt, q, cfg)
    ensures var r := Step(p, pkt, rule, q, cfg);
            && (r.Done? ==> r.result.outcome != Faulted)
            && (r.Next? ==> Ready(p, ty, inset, depth, pkt, r.state, r.cfg))
  {
    var s, sc := p.states[q], Scope(ty, inset[q], None, {}, true);
    BodyTotal(pkt, rule, p.metadata, s, sc, cfg);
    StepKeeps(p, pkt, rule, q, cfg);
    StepFollowsEdge(p, pkt, rule, q, cfg);
    var r := RunBody(pkt, rule, p.metadata, s, cfg);
    if r.Go? && s.transition.Select? {
      KeysTotal(sc.(avail := sc.avail + Extracted(s.extracts)), s.transition.keys, r.cfg.env, r.cfg.meta,
                |p.metadata|, RemainingAt(r.cfg.regions, r.cfg.pos));
    }
  }

  lemma {:induction false} RunTotal(p: Program, ty: Typing, inset: map<Name, set<Name>>, depth: map<Name, nat>, pkt: Packet, rule: PopRule, q: Name, cfg: Config, budget: nat)
    requires WellFormed(p, ty, inset, depth, true) && Ready(p, ty, inset, depth, pkt, q, cfg)
    ensures RunFrom(p, pkt, rule, q, cfg, budget).outcome != Faulted
    decreases budget
  {
    if budget > 0 {
      StepTotal(p, ty, inset, depth, pkt, rule, q, cfg);
      var r := Step(p, pkt, rule, q, cfg);
      if r.Next? {
        RunTotal(p, ty, inset, depth, pkt, rule, r.state, r.cfg, budget - 1);
      }
    }
  }

  /** Totality: a program well-formed by the semantics document never faults, on any input,
      under any budget. */
  lemma NeverFaults(p: Program, ty: Typing, inset: map<Name, set<Name>>, depth: map<Name, nat>, pkt: Packet, rule: PopRule)
    requires WellFormed(p, ty, inset, depth, true)
    ensures Parse(p, pkt, rule).outcome != Faulted
  {
    RunTotal(p, ty, inset, depth, pkt, rule, p.start, Initial(p), p.maxDepth);
  }
}
