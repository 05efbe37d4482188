/** The one place where the generated code departs from the reference semantics: an
    unexhausted region whose end lies past the input.  The interpreter calls it a
    truncation, the generated code a structural reject. */
module PopRules {
  import opened Bits
  import opened Ir
  import opened Semantics
  import opened Regions

  /** The same flow under both rules, but for how a failed pop is classified. */
  predicate SameFlow(f: Flow, g: Flow, len: nat) {
    if g.Stop? && g.reason == RegionNotExhausted then
      && g.cfg.regions != []
      && f.Stop? && f.consumed == g.consumed && f.cfg == g.cfg.(accesses := f.cfg.accesses)
      && f.reason == if g.cfg.regions[|g.cfg.regions| - 1] > len then OutOfBounds else RegionNotExhausted
    else f == g
  }

  lemma {:induction false} OpsAgree(pkt: Packet, ops: List<RegionOp>, cfg: Config)
    ensures SameFlow(RunOps(pkt, ByInput, ops, cfg), RunOps(pkt, AlwaysStructural, ops, cfg), |pkt|)
    decreases ops
  {
    if ops.Cons? {
      var r := RunOp(pkt, AlwaysStructural, ops.head, cfg);
      if r.Go? {
        OpsAgree(pkt, ops.tail, r.cfg);
      }
    }
  }

  lemma BodyAgrees(pkt: Packet, decls: seq<MetaDecl>, s: State, cfg: Config)
    ensures SameFlow(RunBody(pkt, ByInput, decls, s, cfg), RunBody(pkt, AlwaysStructural, decls, s, cfg), |pkt|)
  {
    ExtractsStop(pkt, s.extracts, cfg);
    var r1 := RunExtracts(pkt, s.extracts, cfg);
    if r1.Go? {
      AssignsKeep(decls, s.assigns, r1.cfg);
      var r2 := RunAssigns(decls, s.assigns, r1.cfg);
      if r2.Go? {
        OpsAgree(pkt, s.ops, r2.cfg);
      }
    }
  }

  /** An unexhausted region reaching past the input is what the generated code met. */
  predicate ShortRegion(g: Result, len: nat) {
    && g.outcome == Rejected(RegionNotExhausted)
    && g.cfg.regions != [] && g.cfg.regions[|g.cfg.regions| - 1] > len
  }

  /** Everything but the reason, and the recorded accesses, agrees. */
  predicate SameButReason(f: Result, g: Result) {
    f.consumed == g.consumed && f.cfg == g.cfg.(accesses := f.cfg.accesses)
  }

  ghost predicate Classified(f: Result, g: Result, len: nat) {
    && SameButReason(f, g)
    && f.outcome == if ShortRegion(g, len) then Rejected(OutOfBounds) else g.outcome
  }

  lemma StepAgrees(p: Program, pkt: Packet, q: Name, cfg: Config)
    requires q < |p.states|
    ensures var f, g := Step(p, pkt, ByInput, q, cfg), Step(p, pkt, AlwaysStructural, q, cfg);
            (g.Next? ==> f == g) && (g.Done? ==> f.Done? && Classified(f.result, g.result, |pkt|))
  {
    BodyAgrees(pkt, p.metadata, p.states[q], cfg);
  }

  lemma {:induction false} RunAgrees(p: Program, pkt: Packet, q: Name, cfg: Config, budget: nat)
    ensures Classified(RunFrom(p, pkt, ByInput, q, cfg, budget), RunFrom(p, pkt, AlwaysStructural, q, cfg, budget), |pkt|)
    decreases budget
  {
    if budget > 0 && q < |p.states| {
      StepAgrees(p, pkt, q, cfg);
      var r := Step(p, pkt, AlwaysStructural, q, cfg);
      if r.Next? {
        RunAgrees(p, pkt, r.state, r.cfg, budget - 1);
      }
    }
  }

  /** For every program and input, the generated code's rule gives the interpreter's outcome
      class, consumed bits, fields, metadata and headers; the reject reasons are equal if and
      only if the run does not stop at an unexhausted region that reaches past the input. */
  lemma ReasonsAgreeExactly(p: Program, pkt: Packet)
    ensures var f, g := Parse(p, pkt, ByInput), Parse(p, pkt, AlwaysStructural);
            && SameButReason(f, g)
            && (f.outcome == g.outcome <==> !ShortRegion(g, |pkt|))
            && (ShortRegion(g, |pkt|) ==> f.outcome == Rejected(OutOfBounds))
  {
    RunAgrees(p, pkt, p.start, Initial(p), p.maxDepth);
  }

  // ---- When the reasons agree ----

  predicate OuterInside(pkt: Packet, regions: seq<nat>) {
    regions != [] ==> regions[0] <= |pkt|
  }

  /** Of the operations reached, each push made while no region is open ends inside the input. */
  ghost predicate OpsInside(pkt: Packet, ops: List<RegionOp>, cfg: Config)
    decreases ops
  {
    match ops
    case Nil => true
    case Cons(op, rest) =>
      var r := RunOp(pkt, AlwaysStructural, op, cfg);
      r.Go? ==> (op.Push? && cfg.regions == [] ==> OuterInside(pkt, r.cfg.regions)) && OpsInside(pkt, rest, r.cfg)
  }

  ghost predicate StateInside(pkt: Packet, decls: seq<MetaDecl>, s: State, cfg: Config) {
    var r1 := RunExtracts(pkt, s.extracts, cfg);
    r1.Go? ==> var r2 := RunAssigns(decls, s.assigns, r1.cfg); r2.Go? ==> OpsInside(pkt, s.ops, r2.cfg)
  }

  /** Every outermost region of the run ends inside the input. */
  ghost predicate RunInside(p: Program, pkt: Packet) {
    forall k: nat :: InsideAt(p, pkt, k)
  }

  ghost predicate InsideAt(p: Program, pkt: Packet, k: nat) {
    var e := Entered(p, pkt, AlwaysStructural, k);
    e.Some? && e.value.0 < |p.states| ==> StateInside(pkt, p.metadata, p.states[e.value.0], e.value.1)
  }

  lemma {:induction false} OpsStayInside(pkt: Packet, ops: List<RegionOp>, cfg: Config)
    requires OuterInside(pkt, cfg.regions) && Sound(pkt, cfg) && OpsInside(pkt, ops, cfg)
    ensures var r := RunOps(pkt, AlwaysStructural, ops, cfg);
            !r.Fault? ==> OuterInside(pkt, r.cfg.regions) && Nested(r.cfg.regions)
    decreases ops
  {
    if ops.Cons? {
      if ops.head.Pop? {
        PopKeeps(pkt, AlwaysStructural, cfg);
      }
      var r := RunOp(pkt, AlwaysStructural, ops.head, cfg);
      if r.Go? {
        OpsStayInside(pkt, ops.tail, r.cfg);
      }
    }
  }

  lemma BodyStaysInside(pkt: Packet, decls: seq<MetaDecl>, s: State, cfg: Config)
    requires OuterInside(pkt, cfg.regions) && Sound(pkt, cfg) && StateInside(pkt, decls, s, cfg)
    ensures var r := RunBody(pkt, AlwaysStructural, decls, s, cfg);
            && (r.Go? ==> OuterInside(pkt, r.cfg.regions))
            && (r.Stop? && r.reason == RegionNotExhausted ==> OuterInside(pkt, r.cfg.regions) && Nested(r.cfg.regions))
  {
    hide Nested;
    ExtractsStop(pkt, s.extracts, cfg);
    ExtractsKeep(pkt, s.extracts, cfg);
    var r1 := RunExtracts(pkt, s.extracts, cfg);
    if r1.Go? {
      AssignsKeep(decls, s.assigns, r1.cfg);
      var r2 := RunAssigns(decls, s.assigns, r1.cfg);
      if r2.Go? {
        OpsStayInside(pkt, s.ops, r2.cfg);
      }
    }
  }

  lemma StepStaysInside(p: Program, pkt: Packet, q: Name, cfg: Config)
    requires q < |p.states| && OuterInside(pkt, cfg.regions) && Sound(pkt, cfg)
    requires StateInside(pkt, p.metadata, p.states[q], cfg)
    ensures var r := Step(p, pkt, AlwaysStructural, q, cfg);
            && (r.Next? ==> OuterInside(pkt, r.cfg.regions))
            && (r.Done? ==> !ShortRegion(r.result, |pkt|))
  {
    hide StateInside, Sound;
    BodyStaysInside(pkt, p.metadata, p.states[q], cfg);
  }

  lemma {:induction false} EntryInside(p: Program, pkt: Packet, k: nat)
    requires RunInside(p, pkt)
    ensures var e := Entered(p, pkt, AlwaysStructural, k); e.Some? ==> OuterInside(pkt, e.value.1.regions)
    decreases k
  {
    hide StateInside, Sound;
    if k > 0 {
      EntryInside(p, pkt, k - 1);
      EntrySound(p, pkt, AlwaysStructural, k - 1);
      var e := Entered(p, pkt, AlwaysStructural, k - 1);
      assert InsideAt(p, pkt, k - 1);
      if e.Some? && e.value.0 < |p.states| {
        StepStaysInside(p, pkt, e.value.0, e.value.1);
      }
    }
  }

  /** If every region pushed while none is open ends inside the input, the two rules give the
      same outcome. */
  lemma InsideAgrees(p: Program, pkt: Packet)
    requires RunInside(p, pkt)
    ensures Parse(p, pkt, ByInput).outcome == Parse(p, pkt, AlwaysStructural).outcome
  {
    hide Parse, Step, StateInside, Sound;
    ReasonsAgreeExactly(p, pkt);
    var last := LastEntry(p, pkt, AlwaysStructural, 0);
    EntryInside(p, pkt, last);
    EntrySound(p, pkt, AlwaysStructural, last);
    var (q, cfg) := Entered(p, pkt, AlwaysStructural, last).value;
    assert InsideAt(p, pkt, last);
    if q < |p.states| {
      StepStaysInside(p, pkt, q, cfg);
    }
  }

  /** Starting at depth d, no push is made while no region is open. */
  predicate PushesNest(ops: List<RegionOp>, d: nat)
    decreases ops
  {
    match ops
    case Nil => true
    case Cons(Push(_), rest) => d > 0 && PushesNest(rest, d + 1)
    case Cons(Pop, rest) => d == 0 || PushesNest(rest, d - 1)
  }

  lemma {:induction false} NestInside(pkt: Packet, ops: List<RegionOp>, cfg: Config)
    requires PushesNest(ops, |cfg.regions|)
    ensures OpsInside(pkt, ops, cfg)
    decreases ops
  {
    if ops.Cons? {
      var r := RunOp(pkt, AlwaysStructural, ops.head, cfg);
      if r.Go? {
        NestInside(pkt, ops.tail, r.cfg);
      }
    }
  }

  lemma StateNests(pkt: Packet, decls: seq<MetaDecl>, s: State, cfg: Config)
    requires Sound(pkt, cfg) && PushesNest(s.ops, |cfg.regions|)
    ensures StateInside(pkt, decls, s, cfg)
  {
    ExtractsKeep(pkt, s.extracts, cfg);
    var r1 := RunExtracts(pkt, s.extracts, cfg);
    if r1.Go? {
      AssignsKeep(decls, s.assigns, r1.cfg);
      var r2 := RunAssigns(decls, s.assigns, r1.cfg);
      if r2.Go? {
        NestInside(pkt, s.ops, r2.cfg);
      }
    }
  }

  /** So a program without regions never shows the difference. */
  lemma WithoutRegionsAgree(p: Program, pkt: Packet)
    requires forall q | 0 <= q < |p.states| :: p.states[q].ops.Nil?
    ensures Parse(p, pkt, ByInput).outcome == Parse(p, pkt, AlwaysStructural).outcome
  {
    forall k: nat
      ensures InsideAt(p, pkt, k)
    {
      EntrySound(p, pkt, AlwaysStructural, k);
      var e := Entered(p, pkt, AlwaysStructural, k);
      if e.Some? && e.value.0 < |p.states| {
        StateNests(pkt, p.metadata, p.states[e.value.0], e.value.1);
      }
    }
    InsideAgrees(p, pkt);
  }
}
