/** The region stack: what every reachable configuration keeps, and the static depth
    analysis that makes the interpreter's region faults and the generated code's capacity
    guard unreachable. */
module Regions {
  import opened Bits
  import opened Ir
  import opened Semantics

  // ---- Dynamic invariant ----

  /** Regions are nested: an inner end never lies past an outer one. */
  predicate Nested(regions: seq<nat>) {
    forall i, j | 0 <= i < j < |regions| :: regions[j] <= regions[i]
  }

  predicate Within(pkt: Packet, regions: seq<nat>, c: nat) {
    c <= |pkt| && (regions != [] ==> c <= regions[|regions| - 1])
  }

  /** No u64 subtraction of the cursor from a region end or from the input length wraps. */
  predicate Sound(pkt: Packet, cfg: Config) {
    && Nested(cfg.regions)
    && Within(pkt, cfg.regions, cfg.pos)
    && forall i | 0 <= i < |cfg.regions| :: cfg.regions[i] < TWO64
  }

  lemma {:induction false} FieldsKeep(
    pkt: Packet, inst: Name, peek: bool, fs: List<FieldDecl>, cur: nat, cfg: Config)
    requires Sound(pkt, cfg) && Within(pkt, cfg.regions, cur)
    ensures var r := ReadFields(pkt, inst, peek, fs, cur, cfg);
            && (r.Go? ==> Sound(pkt, r.cfg) && r.cfg.regions == cfg.regions && r.cfg.meta == cfg.meta)
            && (r.Stop? ==> Within(pkt, cfg.regions, r.consumed))
            && (r.Go? && !peek ==> r.cfg.pos >= cur)
            && (r.Go? && peek ==> r.cfg.pos == cfg.pos)
    decreases fs
  {
    if fs.Cons? {
      var r := ReadField(pkt, inst, fs.head, cur, if peek then cfg.pos else cur, cfg);
      if r.Go? {
        FieldsKeep(pkt, inst, peek, fs.tail, cur + FieldLen(fs.head.width, cfg).value, r.cfg);
      }
    }
  }

  lemma {:induction false} ExtractsKeep(pkt: Packet, exs: List<Extract>, cfg: Config)
    requires Sound(pkt, cfg)
    ensures var r := RunExtracts(pkt, exs, cfg);
            && (r.Go? ==> Sound(pkt, r.cfg) && r.cfg.regions == cfg.regions && r.cfg.meta == cfg.meta)
            && (r.Stop? ==> Within(pkt, cfg.regions, r.consumed))
            && (r.Go? ==> r.cfg.pos >= cfg.pos)
    decreases exs
  {
    if exs.Cons? {
      var ex, c := exs.head, BeginHeader(exs.head, cfg);
      FieldsKeep(pkt, ex.inst, ex.lookahead, ex.fields, cfg.pos, c);
      var r := ReadFields(pkt, ex.inst, ex.lookahead, ex.fields, cfg.pos, c);
      if r.Go? {
        ExtractsKeep(pkt, exs.tail, r.cfg);
      }
    }
  }

  lemma PopKeeps(pkt: Packet, rule: PopRule, cfg: Config)
    requires Sound(pkt, cfg)
    ensures var r := PopRegion(pkt, rule, cfg);
            (r.Go? ==> Sound(pkt, r.cfg) && |r.cfg.regions| + 1 == |cfg.regions| && r.cfg.pos == cfg.pos)
            && (r.Stop? ==> r.consumed == cfg.pos)
            && (r.Go? ==> cfg.pos == cfg.regions[|cfg.regions| - 1])
  {
    if cfg.regions != [] {
      var n := |cfg.regions|;
      assert n >= 2 ==> cfg.regions[n - 1] <= cfg.regions[n - 2];
    }
  }

  lemma {:induction false} OpsKeep(pkt: Packet, rule: PopRule, ops: List<RegionOp>, cfg: Config)
    requires Sound(pkt, cfg)
    ensures var r := RunOps(pkt, rule, ops, cfg);
            && (r.Go? ==> Sound(pkt, r.cfg) && r.cfg.pos == cfg.pos)
            && (r.Stop? ==> r.consumed == cfg.pos)
    decreases ops
  {
    if ops.Cons? {
      if ops.head.Push? {
      } else {
        PopKeeps(pkt, rule, cfg);
      }
      var r := RunOp(pkt, rule, ops.head, cfg);
      if r.Go? {
        OpsKeep(pkt, rule, ops.tail, r.cfg);
      }
    }
  }

  lemma BodyKeeps(pkt: Packet, rule: PopRule, decls: seq<MetaDecl>, s: State, cfg: Config)
    requires Sound(pkt, cfg)
    ensures var r := RunBody(pkt, rule, decls, s, cfg);
            && (r.Go? ==> Sound(pkt, r.cfg) && r.cfg.pos >= cfg.pos)
            && (r.Stop? ==> r.consumed <= |pkt|)
  {
    ExtractsKeep(pkt, s.extracts, cfg);
    var r1 := RunExtracts(pkt, s.extracts, cfg);
    if r1.Go? {
      AssignsKeep(decls, s.assigns, r1.cfg);
      var r2 := RunAssigns(decls, s.assigns, r1.cfg);
      if r2.Go? {
        OpsKeep(pkt, rule, s.ops, r2.cfg);
      }
    }
  }

  // ---- Why a state stops ----

  /** The reasons a field, an operation or a body can stop with. */
  predicate Structural(r: Reason) {
    r.OutOfBounds? || r.OutOfRegionBounds? || r.RegionOutOfBounds? || r.RegionNotExhausted?
  }

  lemma {:induction false} FieldsStop(pkt: Packet, inst: Name, peek: bool, fs: List<FieldDecl>, cur: nat, cfg: Config)
    ensures var r := ReadFields(pkt, inst, peek, fs, cur, cfg); r.Stop? ==> r.reason.OutOfBounds? || r.reason.OutOfRegionBounds?
    decreases fs
  {
    if fs.Cons? {
      FieldsCons(pkt, inst, peek, fs, cur, cfg);
      var r := ReadField(pkt, inst, fs.head, cur, if peek then cfg.pos else cur, cfg);
      if r.Go? {
        FieldsStop(pkt, inst, peek, fs.tail, cur + FieldLen(fs.head.width, cfg).value, r.cfg);
      }
    }
  }

  lemma {:induction false} ExtractsStop(pkt: Packet, exs: List<Extract>, cfg: Config)
    ensures var r := RunExtracts(pkt, exs, cfg); r.Stop? ==> r.reason.OutOfBounds? || r.reason.OutOfRegionBounds?
    decreases exs
  {
    if exs.Cons? {
      var ex, c := exs.head, BeginHeader(exs.head, cfg);
      FieldsStop(pkt, ex.inst, ex.lookahead, ex.fields, cfg.pos, c);
      var r := ReadFields(pkt, ex.inst, ex.lookahead, ex.fields, cfg.pos, c);
      if r.Go? {
        ExtractsStop(pkt, exs.tail, r.cfg);
      }
    }
  }

  lemma {:induction false} OpsStop(pkt: Packet, rule: PopRule, ops: List<RegionOp>, cfg: Config)
    ensures var r := RunOps(pkt, rule, ops, cfg); r.Stop? ==> Structural(r.reason)
    decreases ops
  {
    if ops.Cons? {
      var r := RunOp(pkt, rule, ops.head, cfg);
      if r.Go? {
        OpsStop(pkt, rule, ops.tail, r.cfg);
      }
    }
  }

  /** A body stops only for bounds or regions. */
  lemma BodyStops(pkt: Packet, rule: PopRule, decls: seq<MetaDecl>, s: State, cfg: Config)
    ensures var r := RunBody(pkt, rule, decls, s, cfg); r.Stop? ==> Structural(r.reason)
  {
    ExtractsStop(pkt, s.extracts, cfg);
    var r1 := RunExtracts(pkt, s.extracts, cfg);
    if r1.Go? {
      AssignsKeep(decls, s.assigns, r1.cfg);
      var r2 := RunAssigns(decls, s.assigns, r1.cfg);
      if r2.Go? {
        OpsStop(pkt, rule, s.ops, r2.cfg);
      }
    }
  }

  /** State and configuration at the entry of the k-th state of a run, if it gets there. */
  function Entered(p: Program, pkt: Packet, rule: PopRule, k: nat): Option<(Name, Config)>
    decreases k
  {
    if k == 0 then Some((p.start, Initial(p)))
    else
      match Entered(p, pkt, rule, k - 1)
      case None => None
      case Some((q, cfg)) =>
        if q >= |p.states| then None
        else
          match Step(p, pkt, rule, q, cfg)
          case Done(_) => None
          case Next(q', c) => Some((q', c))
  }

  lemma StepKeeps(p: Program, pkt: Packet, rule: PopRule, q: Name, cfg: Config)
    requires q < |p.states| && Sound(pkt, cfg)
    ensures var r := Step(p, pkt, rule, q, cfg);
            && (r.Next? ==> Sound(pkt, r.cfg) && r.cfg.pos >= cfg.pos)
            && (r.Done? ==> r.result.consumed <= |pkt|)
  {
    BodyKeeps(pkt, rule, p.metadata, p.states[q], cfg);
  }

  /** Every reachable state entry of every program on every input has nested regions, and its
      cursor inside the innermost region and inside the input. */
  lemma {:induction false} EntrySound(p: Program, pkt: Packet, rule: PopRule, k: nat)
    ensures Entered(p, pkt, rule, k).Some? ==> Sound(pkt, Entered(p, pkt, rule, k).value.1)
    decreases k
  {
    if k > 0 {
      EntrySound(p, pkt, rule, k - 1);
      var e := Entered(p, pkt, rule, k - 1);
      if e.Some? && e.value.0 < |p.states| {
        StepKeeps(p, pkt, rule, e.value.0, e.value.1);
      }
    }
  }

  /** The run goes on from each state entry within the budget. */
  lemma {:induction false} RunFromEntry(p: Program, pkt: Packet, rule: PopRule, k: nat)
    requires k <= p.maxDepth && Entered(p, pkt, rule, k).Some?
    ensures var (q, cfg) := Entered(p, pkt, rule, k).value;
            Parse(p, pkt, rule) == RunFrom(p, pkt, rule, q, cfg, p.maxDepth - k)
    decreases k
  {
    if k > 0 {
      RunFromEntry(p, pkt, rule, k - 1);
    }
  }

  /** The last state entered within the budget gives the result, or the budget is spent there. */
  lemma {:induction false} LastEntry(p: Program, pkt: Packet, rule: PopRule, k: nat) returns (last: nat)
    requires k <= p.maxDepth && Entered(p, pkt, rule, k).Some?
    ensures k <= last <= p.maxDepth && Entered(p, pkt, rule, last).Some?
    ensures var (q, cfg) := Entered(p, pkt, rule, last).value;
            if last == p.maxDepth then Parse(p, pkt, rule) == Result(Rejected(MaxDepthExceeded), cfg.pos, cfg)
            else if q >= |p.states| then Parse(p, pkt, rule) == Result(Faulted, cfg.pos, cfg)
            else Step(p, pkt, rule, q, cfg) == Done(Parse(p, pkt, rule))
    decreases p.maxDepth - k
  {
    RunFromEntry(p, pkt, rule, k);
    var (q, cfg) := Entered(p, pkt, rule, k).value;
    last := k;
    if k < p.maxDepth && q < |p.states| && Step(p, pkt, rule, q, cfg).Next? {
      last := LastEntry(p, pkt, rule, k + 1);
    }
  }

  // ---- Static depth ----

  /** Number of push operations. */
  function Pushes(ops: List<RegionOp>): nat {
    match ops
    case Nil => 0
    case Cons(op, rest) => (if op.Push? then 1 else 0) + Pushes(rest)
  }

  predicate UsesRemaining(e: Expr) {
    match e
    case Remaining => true
    case Bin(_, l, r) => UsesRemaining(l) || UsesRemaining(r)
    case _ => false
  }

  predicate AnyUsesRemaining(es: List<Expr>) {
    match es
    case Nil => false
    case Cons(e, rest) => UsesRemaining(e) || AnyUsesRemaining(rest)
  }

  predicate AssignUsesRemaining(asgs: List<Assign>) {
    match asgs
    case Nil => false
    case Cons(a, rest) => UsesRemaining(a.value) || AssignUsesRemaining(rest)
  }

  /** Depth after the operations, None if one pops an empty stack or pushes a length that
      asks for remaining() outside every region. */
  function OpsDepth(ops: List<RegionOp>, d: nat): Option<nat>
    decreases ops
  {
    match ops
    case Nil => Some(d)
    case Cons(Push(e), rest) => if d == 0 && UsesRemaining(e) then None else OpsDepth(rest, d + 1)
    case Cons(Pop, rest) => if d == 0 then None else OpsDepth(rest, d - 1)
  }

  predicate KeysUseRemaining(tr: Transition) {
    tr.Select? && AnyUsesRemaining(tr.keys)
  }

  /** Exit depth of a state entered at depth d, None if the state is ill-formed there. */
  function StateDepth(s: State, d: nat): Option<nat> {
    if d == 0 && AssignUsesRemaining(s.assigns) then None
    else
      var e := OpsDepth(s.ops, d);
      if e == Some(0) && KeysUseRemaining(s.transition) then None else e
  }

  /** depth assigns to each state it mentions the one depth at which it is entered. */
  ghost predicate Consistent(p: Program, depth: map<Name, nat>) {
    && p.start in depth && depth[p.start] == 0
    && (forall q | q in depth :: q < |p.states| && StateDepth(p.states[q], depth[q]).Some?)
    && (forall q, r | q in depth && Edge(p, q, r) ::
          r in depth && Some(depth[r]) == StateDepth(p.states[q], depth[q]))
  }

  lemma {:induction false} OpsReach(pkt: Packet, rule: PopRule, ops: List<RegionOp>, cfg: Config)
    ensures var r := RunOps(pkt, rule, ops, cfg);
            r.Go? ==> OpsDepthOf(ops, |cfg.regions|) == Some(|r.cfg.regions|)
    decreases ops
  {
    if ops.Cons? {
      var r := RunOp(pkt, rule, ops.head, cfg);
      if r.Go? {
        OpsReach(pkt, rule, ops.tail, r.cfg);
      }
    }
  }

  /** Depth arithmetic alone, without the remaining() check. */
  function OpsDepthOf(ops: List<RegionOp>, d: nat): Option<nat> {
    match ops
    case Nil => Some(d)
    case Cons(op, rest) => if op.Push? then OpsDepthOf(rest, d + 1) else if d == 0 then None else OpsDepthOf(rest, d - 1)
  }

  lemma {:induction false} OpsDepthAgree(ops: List<RegionOp>, d: nat)
    ensures OpsDepth(ops, d).Some? ==> OpsDepthOf(ops, d) == OpsDepth(ops, d)
    decreases ops
  {
    if ops.Cons? {
      OpsDepthAgree(ops.tail, d + 1);
      if d > 0 {
        OpsDepthAgree(ops.tail, d - 1);
      }
    }
  }

  lemma {:induction false} ChooseTargets(arms: List<Arm>, d: Option<Target>, keys: List<u64>)
    ensures var t := Choose(arms, d, keys);
            t.Some? ==> Member(t.value, ArmTargets(arms, if d.Some? then Cons(d.value, Nil) else Nil))
    decreases arms
  {
    if arms.Cons? {
      ChooseTargets(arms.tail, d, keys);
    }
  }

  lemma DecideTargets(tr: Transition, cfg: Config)
    ensures Decide(tr, cfg).To? ==> Member(Decide(tr, cfg).target, TargetList(tr))
  {
    if tr.Select? {
      var ks := EvalKeys(tr.keys, cfg.env, cfg.meta, RemainingAt(cfg.regions, cfg.pos));
      if ks.Some? {
        ChooseTargets(tr.arms, tr.default, ks.value);
      }
    }
  }

  lemma StepFollowsEdge(p: Program, pkt: Packet, rule: PopRule, q: Name, cfg: Config)
    requires q < |p.states|
    ensures var r := Step(p, pkt, rule, q, cfg); r.Next? ==> Edge(p, q, r.state)
  {
    var r := RunBody(pkt, rule, p.metadata, p.states[q], cfg);
    if r.Go? {
      DecideTargets(p.states[q].transition, r.cfg);
    }
  }

  lemma BodyDepth(pkt: Packet, rule: PopRule, decls: seq<MetaDecl>, s: State, cfg: Config)
    requires Sound(pkt, cfg)
    ensures var r := RunBody(pkt, rule, decls, s, cfg);
            r.Go? ==> OpsDepthOf(s.ops, |cfg.regions|) == Some(|r.cfg.regions|)
  {
    ExtractsKeep(pkt, s.extracts, cfg);
    var r1 := RunExtracts(pkt, s.extracts, cfg);
    if r1.Go? {
      AssignsKeep(decls, s.assigns, r1.cfg);
      var r2 := RunAssigns(decls, s.assigns, r1.cfg);
      if r2.Go? {
        OpsReach(pkt, rule, s.ops, r2.cfg);
      }
    }
  }

  /** The next state is entered at its own depth. */
  lemma StepKeepsDepth(p: Program, depth: map<Name, nat>, pkt: Packet, rule: PopRule, q: Name, cfg: Config)
    requires Consistent(p, depth) && q in depth && |cfg.regions| == depth[q] && Sound(pkt, cfg)
    ensures var r := Step(p, pkt, rule, q, cfg);
            r.Next? ==> r.state in depth && |r.cfg.regions| == depth[r.state]
  {
    BodyDepth(pkt, rule, p.metadata, p.states[q], cfg);
    OpsDepthAgree(p.states[q].ops, depth[q]);
    StepFollowsEdge(p, pkt, rule, q, cfg);
  }

  /** In a run of a program with consistent depths, the stack height is a function of the state. */
  lemma {:induction false} HeightIsStatic(p: Program, depth: map<Name, nat>, pkt: Packet, rule: PopRule, k: nat)
    requires Consistent(p, depth)
    ensures var e := Entered(p, pkt, rule, k);
            e.Some? ==> e.value.0 in depth && |e.value.1.regions| == depth[e.value.0]
    decreases k
  {
    if k > 0 {
      HeightIsStatic(p, depth, pkt, rule, k - 1);
      var e := Entered(p, pkt, rule, k - 1);
      if e.Some? {
        EntrySound(p, pkt, rule, k - 1);
        StepKeepsDepth(p, depth, pkt, rule, e.value.0, e.value.1);
      }
    }
  }

  // ---- The worklist that assigns depths ----

  /** q's exit depth exists and every successor is entered at it. */
  ghost predicate Settled(p: Program, depth: map<Name, nat>, q: Name) {
    && q in depth && q < |p.states| && StateDepth(p.states[q], depth[q]).Some?
    && forall r | Edge(p, q, r) :: r in depth && Some(depth[r]) == StateDepth(p.states[q], depth[q])
  }

  /** Every consistent assignment agrees with what has been assigned so far. */
  ghost predicate Forced(p: Program, depth: map<Name, nat>) {
    forall d | Consistent(p, d) :: forall q | q in depth :: q in d && d[q] == depth[q]
  }

  /** order lists the states of depth in discovery order: each but the start was first
      reached over an edge from an earlier one. */
  ghost predicate Discovered(p: Program, depth: map<Name, nat>, order: seq<Name>) {
    && |order| > 0 && order[0] == p.start && p.start in depth && depth[p.start] == 0
    && (forall i | 0 <= i < |order| :: order[i] in depth && order[i] < |p.states|)
    && (forall i, j | 0 <= i < j < |order| :: order[i] != order[j])
    && (forall q | q in depth :: q in order && q < |p.states|)
    && (forall i | 0 < i < |order| :: FoundFromEarlier(p, depth, order, i))
  }

  ghost predicate FoundFromEarlier(p: Program, depth: map<Name, nat>, order: seq<Name>, i: nat)
    requires i < |order| && forall k | 0 <= k < |order| :: order[k] in depth && order[k] < |p.states|
  {
    exists j | 0 <= j < i :: StateDepth(p.states[order[j]], depth[order[j]]) == Some(depth[order[i]])
  }

  lemma {:induction false} SubrangeCard(s: set<Name>, n: nat)
    requires forall x | x in s :: x < n
    ensures |s| <= n
    decreases n
  {
    if n > 0 {
      SubrangeCard(s - {n - 1}, n - 1);
    } else {
      assert s == {};
    }
  }

  lemma DiscoverOne(p: Program, depth: map<Name, nat>, order: seq<Name>, q: Name, r: Name)
    requires Discovered(p, depth, order) && q in depth && r !in depth && r < |p.states|
    requires StateDepth(p.states[q], depth[q]).Some?
    ensures Discovered(p, depth[r := StateDepth(p.states[q], depth[q]).value], order + [r])
  {
    var d := StateDepth(p.states[q], depth[q]).value;
    var depth', order' := depth[r := d], order + [r];
    forall i | 0 < i < |order'|
      ensures FoundFromEarlier(p, depth', order', i)
    {
      if i < |order| {
        assert FoundFromEarlier(p, depth, order, i);
        var j :| 0 <= j < i && StateDepth(p.states[order[j]], depth[order[j]]) == Some(depth[order[i]]);
        assert StateDepth(p.states[order'[j]], depth'[order'[j]]) == Some(depth'[order'[i]]);
      } else {
        var j :| 0 <= j < |order| && order[j] == q;
        assert StateDepth(p.states[order'[j]], depth'[order'[j]]) == Some(depth'[order'[i]]);
      }
    }
  }

  /** What the worklist keeps: assigned depths are forced and listed in discovery order, and
      a state still to be settled is on the list (or is the one being visited). */
  ghost predicate Working(p: Program, depth: map<Name, nat>, work: seq<Name>, order: seq<Name>, current: set<Name>) {
    && Discovered(p, depth, order) && Forced(p, depth)
    && (forall q | q in work :: q in depth)
    && (forall q | q in depth :: q in current || q in work || Settled(p, depth, q))
  }

  /** Every state target in ts is assigned depth d. */
  ghost predicate Visited(depth: map<Name, nat>, ts: List<Target>, d: nat) {
    forall r: Name | Member(ToState(r), ts) :: r in depth && depth[r] == d
  }

  /** Assign exit depth d of state q to its state targets ts; report a clash. */
  method Visit(p: Program, q: Name, d: nat, ts: List<Target>, depth: map<Name, nat>, work: seq<Name>, ghost order: seq<Name>)
    returns (depth': map<Name, nat>, work': seq<Name>, ghost order': seq<Name>, clash: bool)
    requires Working(p, depth, work, order, {q}) && q in depth && q < |p.states| && Closed(p)
    requires StateDepth(p.states[q], depth[q]) == Some(d)
    requires forall t | Member(t, ts) :: Member(t, TargetList(p.states[q].transition))
    ensures Working(p, depth', work', order', {q}) && q in depth' && depth'[q] == depth[q]
    ensures !clash ==> Visited(depth', ts, d)
    ensures clash ==> forall c :: !Consistent(p, c)
    ensures |depth'.Keys| > |depth.Keys| || (depth' == depth && work' == work)
    ensures forall x | x in depth :: x in depth' && depth'[x] == depth[x]
    decreases ts
  {
    depth', work', order', clash := depth, work, order, false;
    if ts.Cons? {
      if ts.head.ToState? {
        var r := ts.head.state;
        assert Edge(p, q, r);
        if r !in depth {
          DiscoverOne(p, depth, order, q, r);
          depth', work', order' := depth[r := d], work + [r], order + [r];
          assert depth'.Keys == depth.Keys + {r};
        } else if depth[r] != d {
          clash := true;
        }
      }
      var c;
      depth', work', order', c := Visit(p, q, d, ts.tail, depth', work', order');
      clash := clash || c;
    }
  }

  lemma TakeFromList(p: Program, depth: map<Name, nat>, work: seq<Name>, order: seq<Name>)
    requires Working(p, depth, work, order, {}) && |work| > 0
    ensures var q := work[|work| - 1];
            q in depth && q < |p.states| && Working(p, depth, work[..|work| - 1], order, {q})
  {
    var q := work[|work| - 1];
    forall x | x in depth
      ensures x == q || x in work[..|work| - 1] || Settled(p, depth, x)
    {
    }
  }

  lemma NowSettled(p: Program, depth: map<Name, nat>, work: seq<Name>, order: seq<Name>, q: Name)
    requires Working(p, depth, work, order, {q}) && q in depth
    requires StateDepth(p.states[q], depth[q]).Some?
    requires Visited(depth, TargetList(p.states[q].transition), StateDepth(p.states[q], depth[q]).value)
    ensures Working(p, depth, work, order, {})
  {
    assert Settled(p, depth, q);
  }

  /** The region-depth analysis: a depth for every reachable state, or None exactly when no
      consistent assignment exists. */
  method AssignDepths(p: Program) returns (result: Option<map<Name, nat>>, ghost order: seq<Name>)
    requires Closed(p)
    ensures result.Some? ==> Consistent(p, result.value) && Discovered(p, result.value, order) && Forced(p, result.value)
    ensures result.None? ==> forall d :: !Consistent(p, d)
  {
    var depth: map<Name, nat> := map[p.start := 0];
    var work: seq<Name> := [p.start];
    order := [p.start];
    while |work| > 0
      invariant Working(p, depth, work, order, {})
      invariant |depth.Keys| <= |p.states|
      decreases |p.states| - |depth.Keys|, |work|
    {
      TakeFromList(p, depth, work, order);
      var q := work[|work| - 1];
      work := work[..|work| - 1];
      var exit := StateDepth(p.states[q], depth[q]);
      if exit.None? {
        return None, order;
      }
      var clash;
      depth, work, order, clash := Visit(p, q, exit.value, TargetList(p.states[q].transition), depth, work, order);
      if clash {
        return None, order;
      }
      NowSettled(p, depth, work, order, q);
      SubrangeCard(depth.Keys, |p.states|);
    }
    result := Some(depth);
  }

  // ---- Capacity of the generated region stack ----

  /** Total number of pushes in the first n states of an order. */
  function PushesOf(p: Program, order: seq<Name>, n: nat): nat
    requires n <= |order| && forall i | 0 <= i < |order| :: order[i] < |p.states|
    decreases n
  {
    if n == 0 then 0 else PushesOf(p, order, n - 1) + Pushes(p.states[order[n - 1]].ops)
  }

  lemma {:induction false} OpsDepthBound(ops: List<RegionOp>, d: nat)
    ensures OpsDepth(ops, d).Some? ==> OpsDepth(ops, d).value <= d + Pushes(ops)
    decreases ops
  {
    if ops.Cons? {
      OpsDepthBound(ops.tail, d + 1);
      if d > 0 {
        OpsDepthBound(ops.tail, d - 1);
      }
    }
  }

  lemma {:induction false} PushesMono(p: Program, order: seq<Name>, m: nat, n: nat)
    requires m <= n <= |order| && forall i | 0 <= i < |order| :: order[i] < |p.states|
    ensures PushesOf(p, order, m) <= PushesOf(p, order, n)
    decreases n
  {
    if m < n {
      PushesMono(p, order, m, n - 1);
    }
  }

  /** A state's entry depth is at most the pushes of the states discovered before it. */
  lemma {:induction false} DepthBound(p: Program, depth: map<Name, nat>, order: seq<Name>, i: nat)
    requires Discovered(p, depth, order) && i < |order|
    ensures depth[order[i]] <= PushesOf(p, order, i)
    decreases i
  {
    if i > 0 {
      assert FoundFromEarlier(p, depth, order, i);
      var j :| 0 <= j < i && StateDepth(p.states[order[j]], depth[order[j]]) == Some(depth[order[i]]);
      DepthBound(p, depth, order, j);
      OpsDepthBound(p.states[order[j]].ops, depth[order[j]]);
      PushesMono(p, order, j + 1, i);
    }
  }

  /** Pushes of the first n states of the program: the generated stack has room for all. */
  function PushesBelow(p: Program, n: nat): nat
    requires n <= |p.states|
    decreases n
  {
    if n == 0 then 0 else PushesBelow(p, n - 1) + Pushes(p.states[n - 1].ops)
  }

  /** Pushes of a set of states. */
  ghost function PushesIn(p: Program, s: set<Name>, n: nat): nat
    requires n <= |p.states|
    decreases n
  {
    if n == 0 then 0 else PushesIn(p, s, n - 1) + (if n - 1 in s then Pushes(p.states[n - 1].ops) else 0)
  }

  lemma {:induction false} PushesInAdd(p: Program, s: set<Name>, x: Name, n: nat)
    requires n <= |p.states| && x !in s && x < |p.states|
    ensures PushesIn(p, s + {x}, n) == PushesIn(p, s, n) + (if x < n then Pushes(p.states[x].ops) else 0)
    decreases n
  {
    if n > 0 {
      PushesInAdd(p, s, x, n - 1);
    }
  }

  lemma {:induction false} PushesInAtMost(p: Program, s: set<Name>, n: nat)
    requires n <= |p.states|
    ensures PushesIn(p, s, n) <= PushesBelow(p, n)
    decreases n
  {
    if n > 0 {
      PushesInAtMost(p, s, n - 1);
    }
  }

  ghost function FirstOf(order: seq<Name>, n: nat): set<Name>
    requires n <= |order|
  {
    set i | 0 <= i < n :: order[i]
  }

  lemma {:induction false} PushesOfSet(p: Program, order: seq<Name>, n: nat)
    requires n <= |order| && forall i | 0 <= i < |order| :: order[i] < |p.states|
    requires forall i, j | 0 <= i < j < |order| :: order[i] != order[j]
    ensures PushesOf(p, order, n) == PushesIn(p, FirstOf(order, n), |p.states|)
    decreases n
  {
    if n == 0 {
      PushesInNone(p, |p.states|);
      assert FirstOf(order, 0) == {};
    } else {
      PushesOfSet(p, order, n - 1);
      assert FirstOf(order, n) == FirstOf(order, n - 1) + {order[n - 1]};
      PushesInAdd(p, FirstOf(order, n - 1), order[n - 1], |p.states|);
    }
  }

  lemma {:induction false} PushesInNone(p: Program, n: nat)
    requires n <= |p.states|
    ensures PushesIn(p, {}, n) == 0
    decreases n
  {
    if n > 0 {
      PushesInNone(p, n - 1);
    }
  }

  /** Room for every push of the program is room for every push of every run: entering a
      state and doing all its pushes never exceeds the total. */
  lemma CapacitySuffices(p: Program, depth: map<Name, nat>, order: seq<Name>, q: Name)
    requires Discovered(p, depth, order) && q in depth
    ensures q < |p.states| && depth[q] + Pushes(p.states[q].ops) <= PushesBelow(p, |p.states|)
  {
    var i :| 0 <= i < |order| && order[i] == q;
    DepthBound(p, depth, order, i);
    assert PushesOf(p, order, i + 1) == PushesOf(p, order, i) + Pushes(p.states[q].ops);
    PushesOfSet(p, order, i + 1);
    PushesInAtMost(p, FirstOf(order, i + 1), |p.states|);
  }
}
