/** One step of a run, for states of the common shapes: read a header, then branch on a key. */
module Steps {
  import opened Bits
  import opened Ir
  import opened Semantics
  import opened WholeBytes

  // ---- Selects ----

  function Ref(inst: Name, field: Name): Expr {
    Field(FieldRef(inst, field))
  }

  function On(key: Expr, arms: List<Arm>, otherwise: Target): Transition {
    Select(Cons(key, Nil), arms, Some(otherwise))
  }

  function When(v: nat, next: Target, rest: List<Arm>): List<Arm> {
    Cons(Arm(Cons(Value(v), Nil), next), rest)
  }

  // ---- From a body to the next state ----

  /** Without regions a read fails only at the end of the packet. */
  lemma {:induction false} FieldsInBounds(pkt: Packet, inst: Name, peek: bool, fs: List<FieldDecl>, cur: nat, cfg: Config)
    requires cfg.regions == []
    ensures var r := ReadFields(pkt, inst, peek, fs, cur, cfg);
            (r.Stop? ==> r.reason == OutOfBounds) && (r.Go? ==> r.cfg.regions == [])
    decreases fs
  {
    if fs.Cons? {
      FieldsCons(pkt, inst, peek, fs, cur, cfg);
      var r := ReadField(pkt, inst, fs.head, cur, if peek then cfg.pos else cur, cfg);
      if r.Go? {
        FieldsInBounds(pkt, inst, peek, fs.tail, cur + FieldLen(fs.head.width, cfg).value, r.cfg);
      }
    }
  }

  /** What a decision makes of a state whose body succeeded. */
  function After(d: Decision, c: Config): StepResult {
    match d
    case BadKey => Done(Result(Faulted, c.pos, c))
    case NoArm => Done(Result(Rejected(NoMatchingArm), c.pos, c))
    case To(ToAccept) => Done(Result(Accepted, c.pos, c))
    case To(ToReject(code)) => Done(Result(Rejected(Authored(code)), c.pos, c))
    case To(ToState(q2)) => Next(q2, c)
  }

  /** Reading fields leaves the others alone. */
  lemma {:induction false} OthersKept(pkt: Packet, inst: Name, peek: bool, fs: List<FieldDecl>, cur: nat, cfg: Config, r: FieldRef)
    requires (r.inst != inst || !HasField(fs, r.field)) && r in cfg.env
    ensures var f := ReadFields(pkt, inst, peek, fs, cur, cfg); f.Go? ==> r in f.cfg.env && f.cfg.env[r] == cfg.env[r]
    decreases fs
  {
    if fs.Cons? {
      FieldsCons(pkt, inst, peek, fs, cur, cfg);
      var f := ReadField(pkt, inst, fs.head, cur, if peek then cfg.pos else cur, cfg);
      if f.Go? {
        OthersKept(pkt, inst, peek, fs.tail, cur + FieldLen(fs.head.width, cfg).value, f.cfg, r);
      }
    }
  }

  /** A state that reads one header, then branches. */
  lemma HeaderThenBranch(p: Program, pkt: Packet, rule: PopRule, q: Name, s: State, cfg: Config)
    requires q < |p.states| && p.states[q] == s && s.extracts.Cons? && s.extracts.tail.Nil? && s.assigns.Nil? && s.ops.Nil?
    ensures var f, r := Header(pkt, s.extracts.head, cfg), Step(p, pkt, rule, q, cfg);
            && (f.Go? ==> r == After(Decide(s.transition, f.cfg), f.cfg))
            && (f.Stop? ==> r == Done(Result(Rejected(f.reason), f.consumed, f.cfg)))
            && (f.Fault? ==> r.Done? && r.result.outcome == Faulted)
  {
    OneExtract(pkt, rule, p.metadata, s, cfg);
    hide Header, RunBody;
  }

  /** One assignment of value v. */
  function Assigned(decls: seq<MetaDecl>, a: Assign, v: u64, c: Config): Config
    requires a.target < |decls|
  {
    c.(meta := c.meta[a.target := Truncate(v, decls[a.target].bits)])
  }

  lemma OneAssign(decls: seq<MetaDecl>, a: Assign, c: Config, v: u64)
    requires a.target < |decls| && Eval(a.value, c.env, c.meta, RemainingAt(c.regions, c.pos)) == Some(v)
    ensures RunAssigns(decls, Cons(a, Nil), c) == Go(Assigned(decls, a, v, c))
  {
    assert RunAssigns(decls, Nil, Assigned(decls, a, v, c)) == Go(Assigned(decls, a, v, c));
  }

  /** A state that reads at most one header and assigns one register. */
  lemma ThenAssigns(p: Program, pkt: Packet, rule: PopRule, q: Name, s: State, cfg: Config, h: Config, a: Assign, v: u64)
    requires q < |p.states| && p.states[q] == s && s.assigns == Cons(a, Nil) && s.ops.Nil? && a.target < |p.metadata|
    requires RunExtracts(pkt, s.extracts, cfg) == Go(h)
    requires Eval(a.value, h.env, h.meta, RemainingAt(h.regions, h.pos)) == Some(v)
    ensures Step(p, pkt, rule, q, cfg)
         == After(Decide(s.transition, Assigned(p.metadata, a, v, h)), Assigned(p.metadata, a, v, h))
  {
    OneAssign(p.metadata, a, h, v);
    hide RunExtracts, Eval, Decide;
  }

  lemma SingleExtract(pkt: Packet, exs: List<Extract>, cfg: Config)
    requires exs.Cons? && exs.tail.Nil?
    ensures RunExtracts(pkt, exs, cfg) == Header(pkt, exs.head, cfg)
  {
  }

  /** A header cut short ends the run, whatever follows it. */
  lemma HeaderStops(p: Program, pkt: Packet, rule: PopRule, q: Name, s: State, cfg: Config)
    requires q < |p.states| && p.states[q] == s && s.extracts.Cons? && s.extracts.tail.Nil?
    requires Header(pkt, s.extracts.head, cfg).Stop?
    ensures var f := Header(pkt, s.extracts.head, cfg);
            Step(p, pkt, rule, q, cfg) == Done(Result(Rejected(f.reason), f.consumed, f.cfg))
  {
    SingleExtract(pkt, s.extracts, cfg);
    hide Header, RunExtracts;
  }

  /** Entering a state. */
  lemma Enters(p: Program, pkt: Packet, rule: PopRule, q: Name, cfg: Config, b: nat)
    requires q < |p.states|
    ensures var r := Step(p, pkt, rule, q, cfg);
            RunFrom(p, pkt, rule, q, cfg, b)
            == if b == 0 then Result(Rejected(MaxDepthExceeded), cfg.pos, cfg)
               else if r.Next? then RunFrom(p, pkt, rule, r.state, r.cfg, b - 1) else r.result
  {
  }

  // ---- Decisions ----

  ghost predicate KeyIs(key: Expr, c: Config, k: nat) {
    k < TWO64 && Eval(key, c.env, c.meta, RemainingAt(c.regions, c.pos)) == Some(k)
  }

  lemma ChooseWhen(v: nat, next: Target, rest: List<Arm>, d: Option<Target>, k: u64)
    ensures Choose(When(v, next, rest), d, Cons(k, Nil)) == if k == v then Some(next) else Choose(rest, d, Cons(k, Nil))
  {
    assert MatchesAll(Nil, Nil);
  }

  /** A select with one exact arm. */
  lemma DecideOn(key: Expr, v: nat, next: Target, other: Target, c: Config, k: nat)
    requires KeyIs(key, c, k)
    ensures Decide(On(key, When(v, next, Nil), other), c) == To(if k == v then next else other)
  {
    DecideOne(key, When(v, next, Nil), Some(other), c, k);
    ChooseWhen(v, next, Nil, Some(other), k);
    assert Choose(Nil, Some(other), Cons(k, Nil)) == Some(other);
  }

  lemma DecideUpTo(key: Expr, hi: nat, next: Target, other: Target, c: Config, k: nat)
    requires KeyIs(key, c, k)
    ensures Decide(On(key, Cons(Arm(Cons(Range(0, hi), Nil), next), Nil), other), c) == To(if k <= hi then next else other)
  {
    var arms := Cons(Arm(Cons(Range(0, hi), Nil), next), Nil);
    DecideOne(key, arms, Some(other), c, k);
    assert MatchesAll(Nil, Nil);
    assert Choose(Nil, Some(other), Cons(k, Nil)) == Some(other);
  }
}
