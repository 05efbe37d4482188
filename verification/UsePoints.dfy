/** What separates the validator's reference checks from those of the semantics document, and
    exactly which entered states of a validated program fault. */
module UsePoints {
  import opened Bits
  import opened Ir
  import opened Semantics
  import opened Regions
  import opened Totality
  import opened ParseCore

  // ---- The validator ----

  predicate TypesMatch(exs: List<Extract>, ty: Typing) {
    match exs
    case Nil => true
    case Cons(ex, rest) => ex.inst in ty && ty[ex.inst] == ex.fields && DistinctNames(ex.fields) && TypesMatch(rest, ty)
  }

  /** ty gives the header type of exactly the instances that some state extracts. */
  ghost predicate TypedBy(p: Program, ty: Typing) {
    && (forall q | 0 <= q < |p.states| :: TypesMatch(p.states[q].extracts, ty))
    && (forall inst | inst in ty :: ExtractedSomewhere(p, inst))
  }

  ghost predicate ExtractedSomewhere(p: Program, inst: Name) {
    exists q | 0 <= q < |p.states| :: inst in Extracted(p.states[q].extracts)
  }

  /** The checks made of every state, reachable or not. */
  predicate RefsOk(s: State, sc: Scope, metas: nat) {
    var after := sc.(avail := sc.avail + Extracted(s.extracts));
    && ExtractsOk(s.extracts, sc)
    && AssignsOk(s.assigns, after, metas, true)
    && OpsOk(s.ops, after)
    && (s.transition.Select? ==> KeysOk(s.transition.keys, after, metas, true))
  }

  /** What the validator accepts: references to extracted instances that have such a field,
      definitely extracted except in a push, and one region depth per reachable state. */
  ghost predicate Validated(p: Program, ty: Typing, inset: map<Name, set<Name>>, depth: map<Name, nat>) {
    && TypedBy(p, ty) && WellFormed(p, ty, inset, depth, false)
    && forall q | 0 <= q < |p.states| ::
         q in inset && RefsOk(p.states[q], Scope(ty, inset[q], None, {}, false), |p.metadata|)
  }

  // ---- What the strict checks add ----

  predicate Names(e: Expr, r: FieldRef) {
    match e
    case Field(x) => x == r
    case Bin(_, l, rhs) => Names(l, r) || Names(rhs, r)
    case _ => false
  }

  predicate NamedInAssigns(asgs: List<Assign>, r: FieldRef) {
    match asgs
    case Nil => false
    case Cons(a, rest) => Names(a.value, r) || NamedInAssigns(rest, r)
  }

  predicate NamedInPushes(ops: List<RegionOp>, r: FieldRef) {
    match ops
    case Nil => false
    case Cons(Push(e), rest) => Names(e, r) || NamedInPushes(rest, r)
    case Cons(Pop, rest) => NamedInPushes(rest, r)
  }

  predicate NamedInKeys(es: List<Expr>, r: FieldRef) {
    match es
    case Nil => false
    case Cons(e, rest) => Names(e, r) || NamedInKeys(rest, r)
  }

  /** r names a fixed field of the header type of its instance. */
  predicate IsFixed(ty: Typing, r: FieldRef) {
    r.inst in ty && HasFixed(ty[r.inst], r.field)
  }

  /** Each width of a header names fixed fields: read earlier in this header, or of instances
      available before it. */
  ghost predicate WidthsEarlier(fs: List<FieldDecl>, ty: Typing, avail: set<Name>, own: Name, read: set<Name>)
    decreases fs
  {
    match fs
    case Nil => true
    case Cons(d, rest) =>
      && (d.width.BitLen? ==> forall r | Names(d.width.len, r) ::
            (r.inst == own && r.field in read) || (r.inst in avail && IsFixed(ty, r)))
      && WidthsEarlier(rest, ty, avail, own, if d.width.Fixed? then read + {d.name} else read)
  }

  ghost predicate HeadersEarlier(exs: List<Extract>, ty: Typing, avail: set<Name>)
    decreases exs
  {
    match exs
    case Nil => true
    case Cons(ex, rest) =>
      WidthsEarlier(ex.fields, ty, avail, ex.inst, {}) && HeadersEarlier(rest, ty, avail + {ex.inst})
  }

  /** The three extra checks: pushes name definitely extracted instances, widths only what was
      read before them, and every reference is to a fixed field. */
  ghost predicate Definite(s: State, ty: Typing, avail: set<Name>) {
    && HeadersEarlier(s.extracts, ty, avail)
    && (forall r | NamedInPushes(s.ops, r) :: r.inst in avail + Extracted(s.extracts))
    && (forall r | NamedInPushes(s.ops, r) || NamedInAssigns(s.assigns, r) :: IsFixed(ty, r))
    && (s.transition.Select? ==> forall r | NamedInKeys(s.transition.keys, r) :: IsFixed(ty, r))
  }

  lemma {:induction false} ExprSplit(e: Expr, a: Scope, b: Scope, metas: nat, remaining: bool)
    requires forall r | Names(e, r) && RefOk(r, a) :: RefOk(r, b)
    ensures ExprOk(e, a, metas, remaining) <==> ExprOk(e, b, metas, remaining) && forall r | Names(e, r) :: RefOk(r, a)
    decreases e
  {
    if e.Bin? {
      ExprSplit(e.lhs, a, b, metas, remaining);
      ExprSplit(e.rhs, a, b, metas, remaining);
    }
  }

  lemma {:induction false} WidthsSplit(all: List<FieldDecl>, fs: List<FieldDecl>, s: Scope, own: Name)
    requires s.own == Some(own) && own in s.ty && s.ty[own] == all
    requires forall f | f in s.read || HasField(fs, f) :: HasField(all, f)
    ensures WidthsOk(fs, s.(strict := true)) <==>
              WidthsOk(fs, s.(strict := false)) && WidthsEarlier(fs, s.ty, s.avail, own, s.read)
    decreases fs
  {
    if fs.Cons? {
      var d := fs.head;
      if d.width.BitLen? {
        forall r | Names(d.width.len, r) && RefOk(r, s.(strict := true))
          ensures RefOk(r, s.(strict := false))
        {
          FixedIsField(all, r.field);
          if r.inst in s.ty {
            FixedIsField(s.ty[r.inst], r.field);
          }
        }
        ExprSplit(d.width.len, s.(strict := true), s.(strict := false), 0, false);
        assert forall r :: RefOk(r, s.(strict := true)) <==>
                             (r.inst == own && r.field in s.read) || (r.inst in s.avail && IsFixed(s.ty, r));
        WidthsSplit(all, fs.tail, s, own);
      } else {
        WidthsSplit(all, fs.tail, s.(read := s.read + {d.name}), own);
      }
    }
  }

  lemma {:induction false} HeadersSplit(exs: List<Extract>, s: Scope)
    requires s.own == None && s.read == {}
    ensures ExtractsOk(exs, s.(strict := true)) <==>
              ExtractsOk(exs, s.(strict := false)) && HeadersEarlier(exs, s.ty, s.avail)
    decreases exs
  {
    if exs.Cons? {
      var ex := exs.head;
      if ex.inst in s.ty && s.ty[ex.inst] == ex.fields {
        WidthsSplit(ex.fields, ex.fields, s.(own := Some(ex.inst)), ex.inst);
      }
      HeadersSplit(exs.tail, s.(avail := s.avail + {ex.inst}));
    }
  }

  lemma StrictIsLaxRef(r: FieldRef, s: Scope)
    requires s.own == None
    ensures RefOk(r, s.(strict := true)) <==> RefOk(r, s.(strict := false)) && IsFixed(s.ty, r)
    ensures RefOk(r, s.(strict := true)) <==>
              RefOk(r, s.(strict := false, avail := s.ty.Keys)) && r.inst in s.avail && IsFixed(s.ty, r)
  {
    if r.inst in s.ty {
      FixedIsField(s.ty[r.inst], r.field);
    }
  }

  lemma {:induction false} AssignsSplit(asgs: List<Assign>, s: Scope, metas: nat, remaining: bool)
    requires s.own == None
    ensures AssignsOk(asgs, s.(strict := true), metas, remaining) <==>
              AssignsOk(asgs, s.(strict := false), metas, remaining) && forall r | NamedInAssigns(asgs, r) :: IsFixed(s.ty, r)
    decreases asgs
  {
    if asgs.Cons? {
      AssignsSplit(asgs.tail, s, metas, remaining);
      FixedRefsSplit(asgs.head.value, s, metas, remaining);
    }
  }

  lemma {:induction false} KeysSplit(es: List<Expr>, s: Scope, metas: nat, remaining: bool)
    requires s.own == None
    ensures KeysOk(es, s.(strict := true), metas, remaining) <==>
              KeysOk(es, s.(strict := false), metas, remaining) && forall r | NamedInKeys(es, r) :: IsFixed(s.ty, r)
    decreases es
  {
    if es.Cons? {
      KeysSplit(es.tail, s, metas, remaining);
      FixedRefsSplit(es.head, s, metas, remaining);
    }
  }

  lemma {:induction false} FixedRefsSplit(e: Expr, s: Scope, metas: nat, remaining: bool)
    requires s.own == None
    ensures ExprOk(e, s.(strict := true), metas, remaining) <==>
              ExprOk(e, s.(strict := false), metas, remaining) && forall r | Names(e, r) :: IsFixed(s.ty, r)
    decreases e
  {
    match e
    case Bin(_, l, r) =>
      FixedRefsSplit(l, s, metas, remaining);
      FixedRefsSplit(r, s, metas, remaining);
    case Field(r) => StrictIsLaxRef(r, s);
    case _ =>
  }

  lemma {:induction false} PushRefsSplit(e: Expr, s: Scope)
    requires s.own == None
    ensures ExprOk(e, s.(strict := true), 0, false) <==>
              ExprOk(e, s.(strict := false, avail := s.ty.Keys), 0, false)
              && forall r | Names(e, r) :: r.inst in s.avail && IsFixed(s.ty, r)
    decreases e
  {
    match e
    case Bin(_, l, r) =>
      PushRefsSplit(l, s);
      PushRefsSplit(r, s);
    case Field(r) => StrictIsLaxRef(r, s);
    case _ =>
  }

  lemma {:induction false} OpsSplit(ops: List<RegionOp>, s: Scope)
    requires s.own == None
    ensures OpsOk(ops, s.(strict := true)) <==>
              OpsOk(ops, s.(strict := false)) && forall r | NamedInPushes(ops, r) :: r.inst in s.avail && IsFixed(s.ty, r)
    decreases ops
  {
    if ops.Cons? {
      OpsSplit(ops.tail, s);
      if ops.head.Push? {
        PushRefsSplit(ops.head.len, s);
      }
    }
  }

  lemma StateSplit(s: State, sc: Scope, metas: nat, d: nat)
    requires sc.own == None && sc.read == {}
    ensures StateOk(s, sc.(strict := true), metas, d) <==>
              StateOk(s, sc.(strict := false), metas, d) && Definite(s, sc.ty, sc.avail)
  {
    var after := sc.(avail := sc.avail + Extracted(s.extracts));
    HeadersSplit(s.extracts, sc);
    AssignsSplit(s.assigns, after, metas, d > 0);
    OpsSplit(s.ops, after);
    if s.transition.Select? && StateDepth(s, d).Some? {
      KeysSplit(s.transition.keys, after, metas, StateDepth(s, d).value > 0);
    }
  }

  /** The semantics document accepts exactly the validated programs whose reachable states also
      pass the three extra checks. */
  lemma StrictIsLaxAndDefinite(p: Program, ty: Typing, inset: map<Name, set<Name>>, depth: map<Name, nat>)
    ensures WellFormed(p, ty, inset, depth, true) <==>
              WellFormed(p, ty, inset, depth, false) && forall q | q in depth :: Definite(p.states[q], ty, inset[q])
  {
    forall q | q in depth && q < |p.states| && q in inset
      ensures StateOk(p.states[q], Scope(ty, inset[q], None, {}, true), |p.metadata|, depth[q])
         <==> StateOk(p.states[q], Scope(ty, inset[q], None, {}, false), |p.metadata|, depth[q])
              && Definite(p.states[q], ty, inset[q])
    {
      StateSplit(p.states[q], Scope(ty, inset[q], None, {}, false), |p.metadata|, depth[q]);
    }
  }

  // ---- What the environment holds ----

  /** r can be read: its instance is in have, or its field in the part read of header own. */
  predicate Stored(ty: Typing, have: set<Name>, own: Option<Name>, read: set<Name>, r: FieldRef) {
    (r.inst in have && r.inst in ty && HasField(ty[r.inst], r.field)) || (own == Some(r.inst) && r.field in read)
  }

  /** The environment holds exactly the fields of the instances in have and what is read of
      header own; a fixed field as a number, a variable one as a run. */
  ghost predicate Filled(env: Env, ty: Typing, have: set<Name>, own: Option<Name>, read: set<Name>) {
    && (forall r: FieldRef :: r in env <==> Stored(ty, have, own, read, r))
    && (forall r: FieldRef | r in env :: env[r].Uint? <==> IsFixed(ty, r))
  }

  /** e names something that cannot be evaluated. */
  predicate Dangles(e: Expr, ty: Typing, have: set<Name>, own: Option<Name>, read: set<Name>)
    decreases e
  {
    match e
    case Field(r) => !Stored(ty, have, own, read, r) || !IsFixed(ty, r)
    case Bin(_, l, rhs) => Dangles(l, ty, have, own, read) || Dangles(rhs, ty, have, own, read)
    case _ => false
  }

  /** Evaluating a checked expression fails exactly when it dangles. */
  lemma {:induction false} EvalFailsExactly(
    e: Expr, s: Scope, metas: nat, env: Env, meta: Meta, rem: Option<u64>, have: set<Name>, own: Option<Name>, read: set<Name>)
    requires Filled(env, s.ty, have, own, read) && MetaFull(meta, metas) && ExprOk(e, s, metas, rem.Some?)
    ensures Eval(e, env, meta, rem).None? <==> Dangles(e, s.ty, have, own, read)
    decreases e
  {
    if e.Bin? {
      EvalFailsExactly(e.lhs, s, metas, env, meta, rem, have, own, read);
      EvalFailsExactly(e.rhs, s, metas, env, meta, rem, have, own, read);
    }
  }

  /** What an assign or a key names is definitely extracted, so it dangles exactly when it names
      a variable-length field; a push also when it names an instance not yet extracted. */
  lemma {:induction false} DanglesExactly(e: Expr, s: Scope, metas: nat, remaining: bool, have: set<Name>)
    requires !s.strict && s.own == None && ExprOk(e, s, metas, remaining)
    ensures Dangles(e, s.ty, have, None, {}) <==> exists r :: Names(e, r) && (r.inst !in have || !IsFixed(s.ty, r))
    ensures s.avail <= have ==> (Dangles(e, s.ty, have, None, {}) <==> exists r :: Names(e, r) && !IsFixed(s.ty, r))
    decreases e
  {
    match e
    case Bin(_, l, rhs) =>
      DanglesExactly(l, s, metas, remaining, have);
      DanglesExactly(rhs, s, metas, remaining, have);
      assert forall r :: Names(e, r) <==> Names(l, r) || Names(rhs, r);
    case Field(r) =>
      assert Names(e, r);
      assert forall x | Names(e, x) :: x == r;
    case _ =>
  }

  // ---- Which states fault ----

  predicate WidthsDangle(fs: List<FieldDecl>, ty: Typing, have: set<Name>, own: Name, read: set<Name>)
    decreases fs
  {
    match fs
    case Nil => false
    case Cons(d, rest) =>
      (d.width.BitLen? && Dangles(d.width.len, ty, have, Some(own), read)) || WidthsDangle(rest, ty, have, own, read + {d.name})
  }

  predicate HeadersDangle(exs: List<Extract>, ty: Typing, have: set<Name>)
    decreases exs
  {
    match exs
    case Nil => false
    case Cons(ex, rest) => WidthsDangle(ex.fields, ty, have, ex.inst, {}) || HeadersDangle(rest, ty, have + {ex.inst})
  }

  predicate AssignsDangle(asgs: List<Assign>, ty: Typing, have: set<Name>) {
    match asgs
    case Nil => false
    case Cons(a, rest) => Dangles(a.value, ty, have, None, {}) || AssignsDangle(rest, ty, have)
  }

  predicate OpsDangle(ops: List<RegionOp>, ty: Typing, have: set<Name>) {
    match ops
    case Nil => false
    case Cons(Push(e), rest) => Dangles(e, ty, have, None, {}) || OpsDangle(rest, ty, have)
    case Cons(Pop, rest) => OpsDangle(rest, ty, have)
  }

  predicate KeysDangle(es: List<Expr>, ty: Typing, have: set<Name>) {
    match es
    case Nil => false
    case Cons(e, rest) => Dangles(e, ty, have, None, {}) || KeysDangle(rest, ty, have)
  }

  /** Some use point of s dangles when it is entered with the instances of have extracted. */
  predicate StateDangles(s: State, ty: Typing, have: set<Name>) {
    var after := have + Extracted(s.extracts);
    || HeadersDangle(s.extracts, ty, have)
    || AssignsDangle(s.assigns, ty, after)
    || OpsDangle(s.ops, ty, after)
    || (s.transition.Select? && KeysDangle(s.transition.keys, ty, after))
  }

  /** Dangling means the flow faults, unless it stops before; without, it does not fault. */
  predicate FaultsIf(dangles: bool, f: Flow) {
    if dangles then !f.Go? else !f.Fault?
  }

  /** fs is what is left of the header type all after the fields read. */
  ghost predicate Left(all: List<FieldDecl>, fs: List<FieldDecl>, read: set<Name>) {
    && DistinctNames(fs)
    && (forall f | HasField(fs, f) :: HasFixed(fs, f) <==> HasFixed(all, f))
    && (forall f :: HasField(all, f) <==> f in read || HasField(fs, f))
  }

  lemma LeftStep(all: List<FieldDecl>, fs: List<FieldDecl>, read: set<Name>)
    requires Left(all, fs, read) && fs.Cons?
    ensures Left(all, fs.tail, read + {fs.head.name}) && HasField(all, fs.head.name)
    ensures fs.head.width.Fixed? <==> HasFixed(all, fs.head.name)
  {
    FixedIsField(fs.tail, fs.head.name);
  }

  /** The header inst is being read. */
  ghost predicate Reading(cfg: Config, s: Scope, have: set<Name>, inst: Name, read: set<Name>) {
    Filled(cfg.env, s.ty, have, Some(inst), read) && s.own == Some(inst) && !s.strict && inst in s.ty
  }

  /** Everything of the instances in have is stored, and nothing else. */
  ghost predicate Exactly(cfg: Config, ty: Typing, have: set<Name>) {
    Filled(cfg.env, ty, have, None, {}) && PresentOf(cfg.headers) == have
  }

  /** One field: it faults exactly when its width dangles, and is stored otherwise. */
  lemma FieldFault(pkt: Packet, s: Scope, inst: Name, d: FieldDecl, cur: nat, at: nat, cfg: Config, have: set<Name>, read: set<Name>)
    requires Reading(cfg, s, have, inst, read) && HasField(s.ty[inst], d.name)
    requires d.width.Fixed? <==> HasFixed(s.ty[inst], d.name)
    requires d.width.BitLen? ==> ExprOk(d.width.len, s, 0, false)
    ensures var r := ReadField(pkt, inst, d, cur, at, cfg);
            && (r.Fault? <==> d.width.BitLen? && Dangles(d.width.len, s.ty, have, Some(inst), read))
            && (r.Go? ==> Reading(r.cfg, s, have, inst, read + {d.name}) && r.cfg.meta == cfg.meta
                          && r.cfg.regions == cfg.regions && PresentOf(r.cfg.headers) == PresentOf(cfg.headers))
  {
    if d.width.BitLen? {
      EvalFailsExactly(d.width.len, s, 0, cfg.env, cfg.meta, None, have, Some(inst), read);
    }
    var r := ReadField(pkt, inst, d, cur, at, cfg);
    if r.Go? {
      var len := FieldLen(d.width, cfg).value;
      PresentAddField(cfg.headers, ParsedField(d.name, cur, len, FieldVal(pkt, d.width, cur, len)));
    }
  }

  lemma AllStored(s: Scope, inst: Name, cfg: Config, have: set<Name>, read: set<Name>)
    requires Reading(cfg, s, have, inst, read) && PresentOf(cfg.headers) == have + {inst} && Left(s.ty[inst], Nil, read)
    ensures Exactly(cfg, s.ty, have + {inst})
  {
    assert forall r :: Stored(s.ty, have, Some(inst), read, r) <==> Stored(s.ty, have + {inst}, None, {}, r);
  }

  lemma {:induction false} FieldsFault(
    pkt: Packet, s: Scope, inst: Name, peek: bool, fs: List<FieldDecl>, cur: nat, cfg: Config, have: set<Name>, read: set<Name>)
    requires Reading(cfg, s, have, inst, read) && PresentOf(cfg.headers) == have + {inst}
    requires Left(s.ty[inst], fs, read) && WidthsOk(fs, s)
    ensures var r := ReadFields(pkt, inst, peek, fs, cur, cfg);
            && FaultsIf(WidthsDangle(fs, s.ty, have, inst, read), r)
            && (r.Go? ==> Exactly(r.cfg, s.ty, have + {inst}) && r.cfg.meta == cfg.meta && r.cfg.regions == cfg.regions)
    decreases fs
  {
    hide Left, Filled, Take, PresentOf, Dangles, ExprOk, HasField, HasFixed;
    if fs.Nil? {
      AllStored(s, inst, cfg, have, read);
    } else {
      var d, at := fs.head, if peek then cfg.pos else cur;
      var r := ReadField(pkt, inst, d, cur, at, cfg);
      LeftStep(s.ty[inst], fs, read);
      FieldFault(pkt, s, inst, d, cur, at, cfg, have, read);
      FieldsCons(pkt, inst, peek, fs, cur, cfg);
      hide ReadFields, ReadField;
      if r.Go? {
        var s' := if d.width.Fixed? then s.(read := s.read + {d.name}) else s;
        FieldsFault(pkt, s', inst, peek, fs.tail, cur + FieldLen(d.width, cfg).value, r.cfg, have, read + {d.name});
      }
    }
  }

  lemma HeaderStarts(ex: Extract, s: Scope, cfg: Config, have: set<Name>)
    requires Exactly(cfg, s.ty, have) && !s.strict && ex.inst in s.ty && s.ty[ex.inst] == ex.fields && DistinctNames(ex.fields)
    ensures Reading(BeginHeader(ex, cfg), s.(own := Some(ex.inst)), have, ex.inst, {})
    ensures PresentOf(BeginHeader(ex, cfg).headers) == have + {ex.inst} && Left(ex.fields, ex.fields, {})
  {
    PresentBegin(cfg.headers, ParsedHeader(ex.inst, ex.lookahead, cfg.pos, []));
  }

  lemma {:induction false} ExtractsFault(pkt: Packet, s: Scope, exs: List<Extract>, cfg: Config, have: set<Name>)
    requires Exactly(cfg, s.ty, have) && !s.strict && ExtractsOk(exs, s)
    ensures var r := RunExtracts(pkt, exs, cfg);
            && FaultsIf(HeadersDangle(exs, s.ty, have), r)
            && (r.Go? ==> Exactly(r.cfg, s.ty, have + Extracted(exs)) && r.cfg.meta == cfg.meta && r.cfg.regions == cfg.regions)
    decreases exs
  {
    if exs.Cons? {
      var ex, c := exs.head, BeginHeader(exs.head, cfg);
      HeaderStarts(ex, s, cfg, have);
      hide ReadFields, Filled, WidthsDangle, WidthsOk, Left;
      FieldsFault(pkt, s.(own := Some(ex.inst)), ex.inst, ex.lookahead, ex.fields, cfg.pos, c, have, {});
      var r := ReadFields(pkt, ex.inst, ex.lookahead, ex.fields, cfg.pos, c);
      if r.Go? {
        ExtractsFault(pkt, s.(avail := s.avail + {ex.inst}), exs.tail, r.cfg, have + {ex.inst});
        assert have + {ex.inst} + Extracted(exs.tail) == have + Extracted(exs);
      }
    } else {
      assert have + Extracted(exs) == have;
    }
  }

  lemma {:induction false} AssignsFault(s: Scope, decls: seq<MetaDecl>, asgs: List<Assign>, cfg: Config, have: set<Name>)
    requires Exactly(cfg, s.ty, have) && MetaFull(cfg.meta, |decls|) && AssignsOk(asgs, s, |decls|, |cfg.regions| > 0)
    ensures var r := RunAssigns(decls, asgs, cfg);
            && FaultsIf(AssignsDangle(asgs, s.ty, have), r)
            && (r.Go? ==> Exactly(r.cfg, s.ty, have) && MetaFull(r.cfg.meta, |decls|) && r.cfg.regions == cfg.regions)
    decreases asgs
  {
    AssignsKeep(decls, asgs, cfg);
    if asgs.Cons? {
      var a, rem := asgs.head, RemainingAt(cfg.regions, cfg.pos);
      EvalFailsExactly(a.value, s, |decls|, cfg.env, cfg.meta, rem, have, None, {});
      var v := Eval(a.value, cfg.env, cfg.meta, rem);
      if v.Some? {
        AssignsFault(s, decls, asgs.tail, cfg.(meta := cfg.meta[a.target := Truncate(v.value, decls[a.target].bits)]), have);
      }
    }
  }

  lemma {:induction false} OpsFault(pkt: Packet, rule: PopRule, s: Scope, ops: List<RegionOp>, cfg: Config, have: set<Name>)
    requires Exactly(cfg, s.ty, have) && !s.strict && OpsOk(ops, s) && OpsDepth(ops, |cfg.regions|).Some?
    ensures var r := RunOps(pkt, rule, ops, cfg);
            && FaultsIf(OpsDangle(ops, s.ty, have), r)
            && (r.Go? ==> Exactly(r.cfg, s.ty, have) && r.cfg.meta == cfg.meta
                          && OpsDepth(ops, |cfg.regions|) == Some(|r.cfg.regions|))
    decreases ops
  {
    if ops.Cons? {
      if ops.head.Push? {
        var sc, rem := s.(avail := s.ty.Keys), RemainingAt(cfg.regions, cfg.pos);
        RelaxRemaining(ops.head.len, sc, 0, rem.Some?);
        EvalFailsExactly(ops.head.len, sc, 0, cfg.env, cfg.meta, rem, have, None, {});
      }
      var r := RunOp(pkt, rule, ops.head, cfg);
      if r.Go? {
        OpsFault(pkt, rule, s, ops.tail, r.cfg, have);
      }
    }
  }

  lemma {:induction false} KeysFault(s: Scope, es: List<Expr>, metas: nat, cfg: Config, have: set<Name>)
    requires Exactly(cfg, s.ty, have) && MetaFull(cfg.meta, metas) && KeysOk(es, s, metas, |cfg.regions| > 0)
    ensures EvalKeys(es, cfg.env, cfg.meta, RemainingAt(cfg.regions, cfg.pos)).None? <==> KeysDangle(es, s.ty, have)
    decreases es
  {
    if es.Cons? {
      EvalFailsExactly(es.head, s, metas, cfg.env, cfg.meta, RemainingAt(cfg.regions, cfg.pos), have, None, {});
      KeysFault(s, es.tail, metas, cfg, have);
    }
  }

  lemma BodyFault(pkt: Packet, rule: PopRule, decls: seq<MetaDecl>, s: State, sc: Scope, cfg: Config, have: set<Name>)
    requires Exactly(cfg, sc.ty, have) && !sc.strict && MetaFull(cfg.meta, |decls|) && StateOk(s, sc, |decls|, |cfg.regions|)
    ensures var r, after := RunBody(pkt, rule, decls, s, cfg), have + Extracted(s.extracts);
            && FaultsIf(HeadersDangle(s.extracts, sc.ty, have) || AssignsDangle(s.assigns, sc.ty, after)
                        || OpsDangle(s.ops, sc.ty, after), r)
            && (r.Go? ==> Exactly(r.cfg, sc.ty, after) && MetaFull(r.cfg.meta, |decls|)
                          && OpsDepth(s.ops, |cfg.regions|) == Some(|r.cfg.regions|))
  {
    hide Exactly, MetaFull, OpsDepth;
    var after := sc.(avail := sc.avail + Extracted(s.extracts));
    ExtractsFault(pkt, sc, s.extracts, cfg, have);
    var r1 := RunExtracts(pkt, s.extracts, cfg);
    if r1.Go? {
      AssignsFault(after, decls, s.assigns, r1.cfg, have + Extracted(s.extracts));
      AssignsKeep(decls, s.assigns, r1.cfg);
      var r2 := RunAssigns(decls, s.assigns, r1.cfg);
      if r2.Go? {
        OpsFault(pkt, rule, after, s.ops, r2.cfg, have + Extracted(s.extracts));
      }
    }
  }

  /** What every entry of a validated program keeps. */
  ghost predicate Poised(
    p: Program, ty: Typing, inset: map<Name, set<Name>>, depth: map<Name, nat>, pkt: Packet, q: Name, cfg: Config)
  {
    && q in depth && q in inset && |cfg.regions| == depth[q] && Sound(pkt, cfg)
    && Exactly(cfg, ty, PresentOf(cfg.headers)) && inset[q] <= PresentOf(cfg.headers)
    && MetaFull(cfg.meta, |p.metadata|)
  }

  /** The step stopped for bounds or regions. */
  predicate StopsShort(r: StepResult) {
    r.Done? && r.result.outcome.Rejected? && Structural(r.result.outcome.reason)
  }

  lemma StepFault(
    p: Program, ty: Typing, inset: map<Name, set<Name>>, depth: map<Name, nat>, pkt: Packet, rule: PopRule, q: Name, cfg: Config)
    requires WellFormed(p, ty, inset, depth, false) && Poised(p, ty, inset, depth, pkt, q, cfg)
    ensures q < |p.states|
    ensures var r := Step(p, pkt, rule, q, cfg);
            && (r.Done? && r.result.outcome == Faulted <==>
                  StateDangles(p.states[q], ty, PresentOf(cfg.headers)) && !StopsShort(r))
            && (r.Next? ==> Poised(p, ty, inset, depth, pkt, r.state, r.cfg))
  {
    hide Exactly, MetaFull, Edge, RunBody, HeadersDangle, AssignsDangle, OpsDangle, KeysDangle;
    var s, sc, have := p.states[q], Scope(ty, inset[q], None, {}, false), PresentOf(cfg.headers);
    BodyFault(pkt, rule, p.metadata, s, sc, cfg, have);
    BodyStops(pkt, rule, p.metadata, s, cfg);
    StepKeeps(p, pkt, rule, q, cfg);
    StepKeepsDepth(p, depth, pkt, rule, q, cfg);
    StepFollowsEdge(p, pkt, rule, q, cfg);
    var r := RunBody(pkt, rule, p.metadata, s, cfg);
    if r.Go? && s.transition.Select? {
      KeysFault(sc.(avail := sc.avail + Extracted(s.extracts)), s.transition.keys, |p.metadata|, r.cfg, have + Extracted(s.extracts));
    }
    PresentExactly(r, ty, have + Extracted(s.extracts));
  }

  lemma PresentExactly(f: Flow, ty: Typing, have: set<Name>)
    ensures f.Go? && Exactly(f.cfg, ty, have) ==> PresentOf(f.cfg.headers) == have
  {
  }

  lemma {:induction false} EntryPoised(
    p: Program, ty: Typing, inset: map<Name, set<Name>>, depth: map<Name, nat>, pkt: Packet, rule: PopRule, k: nat)
    requires Validated(p, ty, inset, depth)
    ensures var e := Entered(p, pkt, rule, k); e.Some? ==> Poised(p, ty, inset, depth, pkt, e.value.0, e.value.1)
    decreases k
  {
    if k > 0 {
      EntryPoised(p, ty, inset, depth, pkt, rule, k - 1);
      var e := Entered(p, pkt, rule, k - 1);
      if e.Some? {
        StepFault(p, ty, inset, depth, pkt, rule, e.value.0, e.value.1);
      }
    }
  }

  /** The k-th state entered has a dangling use point and does not stop for bounds before it. */
  ghost predicate FaultsAt(p: Program, ty: Typing, pkt: Packet, rule: PopRule, k: nat) {
    var e := Entered(p, pkt, rule, k);
    && k < p.maxDepth && e.Some? && e.value.0 < |p.states|
    && StateDangles(p.states[e.value.0], ty, PresentOf(e.value.1.headers))
    && !StopsShort(Step(p, pkt, rule, e.value.0, e.value.1))
  }

  /** A validated program faults on a packet exactly when it enters a state with a use point that
      names a variable-length field, or a field not read so far, and reaches it. */
  lemma FaultsExactly(
    p: Program, ty: Typing, inset: map<Name, set<Name>>, depth: map<Name, nat>, pkt: Packet, rule: PopRule)
    requires Validated(p, ty, inset, depth)
    ensures Parse(p, pkt, rule).outcome == Faulted <==> exists k: nat :: FaultsAt(p, ty, pkt, rule, k)
  {
    hide Parse, Step, StateDangles, WellFormed, TypedBy;
    var last := LastEntry(p, pkt, rule, 0);
    EntryPoised(p, ty, inset, depth, pkt, rule, last);
    var (q, cfg) := Entered(p, pkt, rule, last).value;
    StepFault(p, ty, inset, depth, pkt, rule, q, cfg);
    if Parse(p, pkt, rule).outcome == Faulted {
      assert FaultsAt(p, ty, pkt, rule, last);
    }
    forall k: nat | FaultsAt(p, ty, pkt, rule, k)
      ensures Parse(p, pkt, rule).outcome == Faulted
    {
      FaultEnds(p, ty, inset, depth, pkt, rule, k);
    }
  }

  lemma FaultEnds(
    p: Program, ty: Typing, inset: map<Name, set<Name>>, depth: map<Name, nat>, pkt: Packet, rule: PopRule, k: nat)
    requires Validated(p, ty, inset, depth) && FaultsAt(p, ty, pkt, rule, k)
    ensures Parse(p, pkt, rule).outcome == Faulted
  {
    hide Step, StateDangles, WellFormed, TypedBy;
    EntryPoised(p, ty, inset, depth, pkt, rule, k);
    var (q, cfg) := Entered(p, pkt, rule, k).value;
    StepFault(p, ty, inset, depth, pkt, rule, q, cfg);
    RunFromEntry(p, pkt, rule, k);
  }

  // ---- Which use points dangle ----

  lemma {:induction false} AssignsDangleExactly(asgs: List<Assign>, s: Scope, metas: nat, remaining: bool, have: set<Name>)
    requires !s.strict && s.own == None && AssignsOk(asgs, s, metas, remaining) && s.avail <= have
    ensures AssignsDangle(asgs, s.ty, have) <==> exists r :: NamedInAssigns(asgs, r) && !IsFixed(s.ty, r)
    decreases asgs
  {
    if asgs.Cons? {
      DanglesExactly(asgs.head.value, s, metas, remaining, have);
      AssignsDangleExactly(asgs.tail, s, metas, remaining, have);
      assert forall r :: NamedInAssigns(asgs, r) <==> Names(asgs.head.value, r) || NamedInAssigns(asgs.tail, r);
    }
  }

  lemma {:induction false} KeysDangleExactly(es: List<Expr>, s: Scope, metas: nat, remaining: bool, have: set<Name>)
    requires !s.strict && s.own == None && KeysOk(es, s, metas, remaining) && s.avail <= have
    ensures KeysDangle(es, s.ty, have) <==> exists r :: NamedInKeys(es, r) && !IsFixed(s.ty, r)
    decreases es
  {
    if es.Cons? {
      DanglesExactly(es.head, s, metas, remaining, have);
      KeysDangleExactly(es.tail, s, metas, remaining, have);
      assert forall r :: NamedInKeys(es, r) <==> Names(es.head, r) || NamedInKeys(es.tail, r);
    }
  }

  lemma {:induction false} OpsDangleExactly(ops: List<RegionOp>, s: Scope, have: set<Name>)
    requires !s.strict && s.own == None && OpsOk(ops, s)
    ensures OpsDangle(ops, s.ty, have) <==> exists r :: NamedInPushes(ops, r) && (r.inst !in have || !IsFixed(s.ty, r))
    decreases ops
  {
    if ops.Cons? {
      OpsDangleExactly(ops.tail, s, have);
      if ops.head.Push? {
        DanglesExactly(ops.head.len, s.(avail := s.ty.Keys), 0, false, have);
        assert forall r :: NamedInPushes(ops, r) <==> Names(ops.head.len, r) || NamedInPushes(ops.tail, r);
      } else {
        assert forall r :: NamedInPushes(ops, r) <==> NamedInPushes(ops.tail, r);
      }
    }
  }

  /** At every entry of a validated program: an assign or a key dangles exactly when it names a
      variable-length field, a push exactly when it names one or an instance that no state
      entered so far, nor this one, extracts. */
  lemma EnteredUsesDangle(
    p: Program, ty: Typing, inset: map<Name, set<Name>>, depth: map<Name, nat>, pkt: Packet, rule: PopRule, k: nat)
    requires Validated(p, ty, inset, depth) && Entered(p, pkt, rule, k).Some?
    ensures var (q, cfg) := Entered(p, pkt, rule, k).value;
            q < |p.states|
    ensures var (q, cfg) := Entered(p, pkt, rule, k).value;
            var s := p.states[q];
            var after := PresentOf(cfg.headers) + Extracted(s.extracts);
            && (AssignsDangle(s.assigns, ty, after) <==> exists r :: NamedInAssigns(s.assigns, r) && !IsFixed(ty, r))
            && (OpsDangle(s.ops, ty, after) <==> exists r :: NamedInPushes(s.ops, r) && (r.inst !in after || !IsFixed(ty, r)))
            && (s.transition.Select? ==>
                  (KeysDangle(s.transition.keys, ty, after) <==> exists r :: NamedInKeys(s.transition.keys, r) && !IsFixed(ty, r)))
  {
    hide Exactly, MetaFull, Sound, TypedBy, Dangles, AssignsDangle, OpsDangle, KeysDangle, NamedInAssigns, NamedInPushes, NamedInKeys, Entered;
    EntryPoised(p, ty, inset, depth, pkt, rule, k);
    var (q, cfg) := Entered(p, pkt, rule, k).value;
    var s := p.states[q];
    var after := PresentOf(cfg.headers) + Extracted(s.extracts);
    var sc := Scope(ty, inset[q] + Extracted(s.extracts), None, {}, false);
    AssignsDangleExactly(s.assigns, sc, |p.metadata|, depth[q] > 0, after);
    OpsDangleExactly(s.ops, sc, after);
    if s.transition.Select? {
      KeysDangleExactly(s.transition.keys, sc, |p.metadata|, StateDepth(s, depth[q]).value > 0, after);
    }
  }
}
