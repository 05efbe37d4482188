/** How a run depends on the length of its input.

    Extension: whatever was decided without running out of input stays decided when the
    input grows.  Truncation: the accesses recorded by a run say exactly which shorter
    inputs give the same result, and where the others stop. */
module Truncation {
  import opened Bits
  import opened Ir
  import opened Semantics

  predicate RanOut(f: Flow) {
    f.Stop? && f.reason == OutOfBounds
  }

  // ---- Extension ----

  lemma FieldExtends(short: Packet, long: Packet, inst: Name, f: FieldDecl, cur: nat, at: nat, cfg: Config)
    requires short <= long
    ensures RanOut(ReadField(short, inst, f, cur, at, cfg))
         || ReadField(long, inst, f, cur, at, cfg) == ReadField(short, inst, f, cur, at, cfg)
  {
    var len := FieldLen(f.width, cfg);
    if len.Some? && cur + len.value <= |short| {
      ReadPrefix(short, long, cur, len.value);
    }
  }

  lemma {:induction false} FieldsExtend(
    short: Packet, long: Packet, inst: Name, peek: bool, fs: List<FieldDecl>, cur: nat, cfg: Config)
    requires short <= long
    ensures RanOut(ReadFields(short, inst, peek, fs, cur, cfg))
         || ReadFields(long, inst, peek, fs, cur, cfg) == ReadFields(short, inst, peek, fs, cur, cfg)
    decreases fs
  {
    if fs.Cons? {
      var at := if peek then cfg.pos else cur;
      FieldExtends(short, long, inst, fs.head, cur, at, cfg);
      var r := ReadField(short, inst, fs.head, cur, at, cfg);
      if r.Go? {
        FieldsExtend(short, long, inst, peek, fs.tail, cur + FieldLen(fs.head.width, cfg).value, r.cfg);
      }
    }
  }

  lemma {:induction false} ExtractsExtend(short: Packet, long: Packet, exs: List<Extract>, cfg: Config)
    requires short <= long
    ensures RanOut(RunExtracts(short, exs, cfg)) || RunExtracts(long, exs, cfg) == RunExtracts(short, exs, cfg)
    decreases exs
  {
    if exs.Cons? {
      var ex, c := exs.head, BeginHeader(exs.head, cfg);
      FieldsExtend(short, long, ex.inst, ex.lookahead, ex.fields, cfg.pos, c);
      var r := ReadFields(short, ex.inst, ex.lookahead, ex.fields, cfg.pos, c);
      if r.Go? {
        ExtractsExtend(short, long, exs.tail, r.cfg);
      }
    }
  }

  lemma {:induction false} OpsExtend(short: Packet, long: Packet, rule: PopRule, ops: List<RegionOp>, cfg: Config)
    requires short <= long
    ensures RanOut(RunOps(short, rule, ops, cfg)) || RunOps(long, rule, ops, cfg) == RunOps(short, rule, ops, cfg)
    decreases ops
  {
    if ops.Cons? {
      var r := RunOp(short, rule, ops.head, cfg);
      if r.Go? {
        OpsExtend(short, long, rule, ops.tail, r.cfg);
      }
    }
  }

  lemma BodyExtends(short: Packet, long: Packet, rule: PopRule, decls: seq<MetaDecl>, s: State, cfg: Config)
    requires short <= long
    ensures RanOut(RunBody(short, rule, decls, s, cfg))
         || RunBody(long, rule, decls, s, cfg) == RunBody(short, rule, decls, s, cfg)
  {
    ExtractsExtend(short, long, s.extracts, cfg);
    var r1 := RunExtracts(short, s.extracts, cfg);
    if r1.Go? {
      var r2 := RunAssigns(decls, s.assigns, r1.cfg);
      if r2.Go? {
        OpsExtend(short, long, rule, s.ops, r2.cfg);
      }
    }
  }

  lemma {:induction false} RunExtends(
    p: Program, short: Packet, long: Packet, rule: PopRule, q: Name, cfg: Config, budget: nat)
    requires short <= long
    ensures RunFrom(p, short, rule, q, cfg, budget).outcome == Rejected(OutOfBounds)
         || RunFrom(p, long, rule, q, cfg, budget) == RunFrom(p, short, rule, q, cfg, budget)
    decreases budget
  {
    if budget > 0 && q < |p.states| {
      BodyExtends(short, long, rule, p.metadata, p.states[q], cfg);
      var r := Step(p, short, rule, q, cfg);
      if r.Next? {
        RunExtends(p, short, long, rule, r.state, r.cfg, budget - 1);
      }
    }
  }

  /** Any result other than "out of bounds" is stable under every extension of the input. */
  lemma ResultIsStable(p: Program, short: Packet, long: Packet, rule: PopRule)
    requires short <= long
    requires Parse(p, short, rule).outcome != Rejected(OutOfBounds)
    ensures Parse(p, long, rule) == Parse(p, short, rule)
  {
    RunExtends(p, short, long, rule, p.start, Initial(p), p.maxDepth);
  }

  // ---- Truncation ----

  /** Machine cursor of the first access at or after index i that needs a bit past L. */
  function FirstCross(accs: seq<Access>, i: nat, L: nat): (c: Option<nat>)
    requires i <= |accs|
    ensures c.None? <==> forall j | i <= j < |accs| :: accs[j].end <= L
    decreases |accs| - i
  {
    if i == |accs| then None
    else if accs[i].end > L then Some(accs[i].cursor)
    else FirstCross(accs, i + 1, L)
  }

  lemma {:induction false} FirstCrossPrefix(a: seq<Access>, b: seq<Access>, i: nat, L: nat)
    requires i <= |a| && a <= b
    ensures FirstCross(a, i, L).Some? ==> FirstCross(b, i, L) == FirstCross(a, i, L)
    ensures FirstCross(a, i, L).None? ==> FirstCross(b, i, L) == FirstCross(b, |a|, L)
    decreases |a| - i
  {
    if i < |a| && a[i].end <= L {
      FirstCrossPrefix(a, b, i + 1, L);
    }
  }

  /** f is what the whole input gives from a configuration with accesses accs; g is what its
      first L bits give. */
  predicate Cut(f: Flow, g: Flow, accs: seq<Access>, L: nat) {
    (f.Go? || (f.Stop? && f.reason != OutOfBounds)) ==>
      && accs <= f.cfg.accesses
      && var c := FirstCross(f.cfg.accesses, |accs|, L);
         if c.None? then g == f else g.Stop? && g.reason == OutOfBounds && g.consumed == c.value
  }

  lemma FieldCut(pkt: Packet, L: nat, inst: Name, f: FieldDecl, cur: nat, at: nat, cfg: Config)
    requires L <= |pkt|
    ensures Cut(ReadField(pkt, inst, f, cur, at, cfg), ReadField(pkt[..L], inst, f, cur, at, cfg), cfg.accesses, L)
  {
    var len := FieldLen(f.width, cfg);
    if len.Some? && cur + len.value <= L {
      ReadPrefix(pkt[..L], pkt, cur, len.value);
    }
  }

  /** Cutting composes: a first part that goes on, then a second part from where it got to. */
  lemma CutThen(f1: Flow, g1: Flow, f: Flow, g: Flow, accs: seq<Access>, L: nat)
    requires f1.Go? && Cut(f1, g1, accs, L)
    requires g1.Go? ==> Cut(f, g, f1.cfg.accesses, L)
    requires f1.cfg.accesses <= (if f.Fault? then f1.cfg.accesses else f.cfg.accesses)
    requires !g1.Go? ==> g == g1
    ensures Cut(f, g, accs, L)
  {
    if !f.Fault? {
      FirstCrossPrefix(f1.cfg.accesses, f.cfg.accesses, |accs|, L);
    }
  }

  // Accesses are only ever added.

  predicate Grows(f: Flow, accs: seq<Access>) {
    !f.Fault? ==> accs <= f.cfg.accesses
  }

  lemma {:induction false} FieldsGrow(pkt: Packet, inst: Name, peek: bool, fs: List<FieldDecl>, cur: nat, cfg: Config)
    ensures Grows(ReadFields(pkt, inst, peek, fs, cur, cfg), cfg.accesses)
    decreases fs
  {
    if fs.Cons? {
      var r := ReadField(pkt, inst, fs.head, cur, if peek then cfg.pos else cur, cfg);
      if r.Go? {
        FieldsGrow(pkt, inst, peek, fs.tail, cur + FieldLen(fs.head.width, cfg).value, r.cfg);
      }
    }
  }

  lemma {:induction false} ExtractsGrow(pkt: Packet, exs: List<Extract>, cfg: Config)
    ensures Grows(RunExtracts(pkt, exs, cfg), cfg.accesses)
    decreases exs
  {
    if exs.Cons? {
      var ex, c := exs.head, BeginHeader(exs.head, cfg);
      FieldsGrow(pkt, ex.inst, ex.lookahead, ex.fields, cfg.pos, c);
      var r := ReadFields(pkt, ex.inst, ex.lookahead, ex.fields, cfg.pos, c);
      if r.Go? {
        ExtractsGrow(pkt, exs.tail, r.cfg);
      }
    }
  }

  lemma {:induction false} OpsGrow(pkt: Packet, rule: PopRule, ops: List<RegionOp>, cfg: Config)
    ensures Grows(RunOps(pkt, rule, ops, cfg), cfg.accesses)
    decreases ops
  {
    if ops.Cons? {
      var r := RunOp(pkt, rule, ops.head, cfg);
      if r.Go? {
        OpsGrow(pkt, rule, ops.tail, r.cfg);
      }
    }
  }

  lemma {:induction false} RunGrows(p: Program, pkt: Packet, rule: PopRule, q: Name, cfg: Config, budget: nat)
    ensures cfg.accesses <= RunFrom(p, pkt, rule, q, cfg, budget).cfg.accesses
    decreases budget
  {
    if budget > 0 && q < |p.states| {
      StepGrows(p, pkt, rule, q, cfg);
      var r := Step(p, pkt, rule, q, cfg);
      if r.Next? {
        RunGrows(p, pkt, rule, r.state, r.cfg, budget - 1);
      }
    }
  }

  lemma BodyGrows(pkt: Packet, rule: PopRule, decls: seq<MetaDecl>, s: State, cfg: Config)
    ensures Grows(RunBody(pkt, rule, decls, s, cfg), cfg.accesses)
  {
    ExtractsGrow(pkt, s.extracts, cfg);
    var r1 := RunExtracts(pkt, s.extracts, cfg);
    if r1.Go? {
      AssignsKeep(decls, s.assigns, r1.cfg);
      var r2 := RunAssigns(decls, s.assigns, r1.cfg);
      if r2.Go? {
        OpsGrow(pkt, rule, s.ops, r2.cfg);
      }
    }
  }

  lemma StepGrows(p: Program, pkt: Packet, rule: PopRule, q: Name, cfg: Config)
    requires q < |p.states|
    ensures var r := Step(p, pkt, rule, q, cfg);
            cfg.accesses <= (if r.Next? then r.cfg.accesses else r.result.cfg.accesses)
  {
    BodyGrows(pkt, rule, p.metadata, p.states[q], cfg);
  }

  lemma {:induction false} FieldsCut(
    pkt: Packet, L: nat, inst: Name, peek: bool, fs: List<FieldDecl>, cur: nat, cfg: Config)
    requires L <= |pkt|
    ensures Cut(ReadFields(pkt, inst, peek, fs, cur, cfg), ReadFields(pkt[..L], inst, peek, fs, cur, cfg),
                cfg.accesses, L)
    decreases fs
  {
    if fs.Cons? {
      var at := if peek then cfg.pos else cur;
      var next := cur + (if FieldLen(fs.head.width, cfg).Some? then FieldLen(fs.head.width, cfg).value else 0);
      FieldCut(pkt, L, inst, fs.head, cur, at, cfg);
      var f1, g1 := ReadField(pkt, inst, fs.head, cur, at, cfg), ReadField(pkt[..L], inst, fs.head, cur, at, cfg);
      if f1.Go? {
        FieldsGrow(pkt, inst, peek, fs.tail, next, f1.cfg);
        FieldsCut(pkt, L, inst, peek, fs.tail, next, f1.cfg);
        CutThen(f1, g1, ReadFields(pkt, inst, peek, fs, cur, cfg), ReadFields(pkt[..L], inst, peek, fs, cur, cfg),
                cfg.accesses, L);
      }
    }
  }

  lemma {:induction false} ExtractsCut(pkt: Packet, L: nat, exs: List<Extract>, cfg: Config)
    requires L <= |pkt|
    ensures Cut(RunExtracts(pkt, exs, cfg), RunExtracts(pkt[..L], exs, cfg), cfg.accesses, L)
    decreases exs
  {
    if exs.Cons? {
      var ex, c := exs.head, BeginHeader(exs.head, cfg);
      FieldsCut(pkt, L, ex.inst, ex.lookahead, ex.fields, cfg.pos, c);
      var f1 := ReadFields(pkt, ex.inst, ex.lookahead, ex.fields, cfg.pos, c);
      var g1 := ReadFields(pkt[..L], ex.inst, ex.lookahead, ex.fields, cfg.pos, c);
      if f1.Go? {
        ExtractsGrow(pkt, exs.tail, f1.cfg);
        ExtractsCut(pkt, L, exs.tail, f1.cfg);
        CutThen(f1, g1, RunExtracts(pkt, exs, cfg), RunExtracts(pkt[..L], exs, cfg), cfg.accesses, L);
      }
    }
  }

  lemma {:induction false} OpsCut(pkt: Packet, L: nat, rule: PopRule, ops: List<RegionOp>, cfg: Config)
    requires L <= |pkt|
    ensures Cut(RunOps(pkt, rule, ops, cfg), RunOps(pkt[..L], rule, ops, cfg), cfg.accesses, L)
    decreases ops
  {
    if ops.Cons? {
      var f1, g1 := RunOp(pkt, rule, ops.head, cfg), RunOp(pkt[..L], rule, ops.head, cfg);
      assert Cut(f1, g1, cfg.accesses, L);
      if f1.Go? {
        OpsGrow(pkt, rule, ops.tail, f1.cfg);
        OpsCut(pkt, L, rule, ops.tail, f1.cfg);
        CutThen(f1, g1, RunOps(pkt, rule, ops, cfg), RunOps(pkt[..L], rule, ops, cfg), cfg.accesses, L);
      }
    }
  }

  lemma BodyCut(pkt: Packet, L: nat, rule: PopRule, decls: seq<MetaDecl>, s: State, cfg: Config)
    requires L <= |pkt|
    ensures Cut(RunBody(pkt, rule, decls, s, cfg), RunBody(pkt[..L], rule, decls, s, cfg), cfg.accesses, L)
  {
    ExtractsCut(pkt, L, s.extracts, cfg);
    var f1, g1 := RunExtracts(pkt, s.extracts, cfg), RunExtracts(pkt[..L], s.extracts, cfg);
    if f1.Go? {
      AssignsKeep(decls, s.assigns, f1.cfg);
      var r2 := RunAssigns(decls, s.assigns, f1.cfg);
      if r2.Go? {
        OpsGrow(pkt, rule, s.ops, r2.cfg);
        OpsCut(pkt, L, rule, s.ops, r2.cfg);
      }
      CutThen(f1, g1, RunBody(pkt, rule, decls, s, cfg), RunBody(pkt[..L], rule, decls, s, cfg), cfg.accesses, L);
    }
  }

  /** Result version of Cut. */
  predicate ResultCut(f: Result, g: Result, accs: seq<Access>, L: nat) {
    f.outcome != Faulted && f.outcome != Rejected(OutOfBounds) ==>
      && accs <= f.cfg.accesses
      && var c := FirstCross(f.cfg.accesses, |accs|, L);
         if c.None? then g == f else g.outcome == Rejected(OutOfBounds) && g.consumed == c.value
  }

  lemma {:induction false} RunCut(p: Program, pkt: Packet, L: nat, rule: PopRule, q: Name, cfg: Config, budget: nat)
    requires L <= |pkt|
    ensures ResultCut(RunFrom(p, pkt, rule, q, cfg, budget), RunFrom(p, pkt[..L], rule, q, cfg, budget),
                      cfg.accesses, L)
    decreases budget
  {
    if budget > 0 && q < |p.states| {
      BodyCut(pkt, L, rule, p.metadata, p.states[q], cfg);
      StepGrows(p, pkt, rule, q, cfg);
      var r := Step(p, pkt, rule, q, cfg);
      if r.Next? {
        RunGrows(p, pkt, rule, r.state, r.cfg, budget - 1);
        RunCut(p, pkt, L, rule, r.state, r.cfg, budget - 1);
        FirstCrossPrefix(r.cfg.accesses, RunFrom(p, pkt, rule, q, cfg, budget).cfg.accesses, |cfg.accesses|, L);
      }
    }
  }

  /** The accesses of a decided run say what every truncation of its input gives: the same
      result if none of them needs a missing bit, else "out of bounds" at the machine
      cursor of the first that does. */
  lemma TruncationExact(p: Program, pkt: Packet, L: nat, rule: PopRule)
    requires L <= |pkt|
    requires Parse(p, pkt, rule).outcome != Faulted
    requires Parse(p, pkt, rule).outcome != Rejected(OutOfBounds)
    ensures var r, cut := Parse(p, pkt, rule), Parse(p, pkt[..L], rule);
            var c := FirstCross(r.cfg.accesses, 0, L);
            if c.None? then cut == r else cut.outcome == Rejected(OutOfBounds) && cut.consumed == c.value
  {
    RunCut(p, pkt, L, rule, p.start, Initial(p), p.maxDepth);
  }
}
