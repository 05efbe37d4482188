/** The depth budget: raising it changes nothing but a depth reject, and two static
    certificates under which the depth reject is unreachable. */
module Budget {
  import opened Bits
  import opened Ir
  import opened Semantics
  import opened Regions

  predicate RanOutOfDepth(r: Result) {
    r.outcome == Rejected(MaxDepthExceeded)
  }

  lemma {:induction false} MoreBudget(p: Program, pkt: Packet, rule: PopRule, q: Name, cfg: Config, b: nat, b': nat)
    requires b <= b' && !RanOutOfDepth(RunFrom(p, pkt, rule, q, cfg, b))
    ensures RunFrom(p, pkt, rule, q, cfg, b') == RunFrom(p, pkt, rule, q, cfg, b)
    decreases b
  {
    if q < |p.states| {
      var r := Step(p, pkt, rule, q, cfg);
      if r.Next? {
        MoreBudget(p, pkt, rule, r.state, r.cfg, b - 1, b' - 1);
      }
    }
  }

  /** Raising max_depth never changes a result other than "max depth exceeded". */
  lemma DepthIsMonotone(p: Program, pkt: Packet, rule: PopRule, deeper: nat)
    requires p.maxDepth <= deeper && !RanOutOfDepth(Parse(p, pkt, rule))
    ensures Parse(p.(maxDepth := deeper), pkt, rule) == Parse(p, pkt, rule)
  {
    SameProgram(p, deeper, pkt, rule, p.start, Initial(p), deeper);
    MoreBudget(p, pkt, rule, p.start, Initial(p), p.maxDepth, deeper);
  }

  lemma {:induction false} SameProgram(p: Program, d: nat, pkt: Packet, rule: PopRule, q: Name, cfg: Config, b: nat)
    ensures RunFrom(p.(maxDepth := d), pkt, rule, q, cfg, b) == RunFrom(p, pkt, rule, q, cfg, b)
    decreases b
  {
    if b > 0 && q < |p.states| {
      var r := Step(p, pkt, rule, q, cfg);
      assert Step(p.(maxDepth := d), pkt, rule, q, cfg) == r;
      if r.Next? {
        SameProgram(p, d, pkt, rule, r.state, r.cfg, b - 1);
      }
    }
  }

  /** Only the budget check gives the depth reject. */
  lemma StepNotDepth(p: Program, pkt: Packet, rule: PopRule, q: Name, cfg: Config)
    requires q < |p.states|
    ensures var r := Step(p, pkt, rule, q, cfg); r.Done? ==> !RanOutOfDepth(r.result)
  {
    BodyStops(pkt, rule, p.metadata, p.states[q], cfg);
  }

  // ---- Acyclic graphs ----

  /** rank falls along every edge. */
  ghost predicate Ranked(p: Program, rank: map<Name, nat>) {
    && p.start in rank
    && forall q: Name, r: Name | q in rank && Edge(p, q, r) :: r in rank && rank[r] < rank[q]
  }

  lemma {:induction false} RankBounds(p: Program, rank: map<Name, nat>, pkt: Packet, rule: PopRule, q: Name, cfg: Config, b: nat)
    requires Ranked(p, rank) && q in rank && rank[q] < b
    ensures !RanOutOfDepth(RunFrom(p, pkt, rule, q, cfg, b))
    decreases b
  {
    if q < |p.states| {
      StepNotDepth(p, pkt, rule, q, cfg);
      StepFollowsEdge(p, pkt, rule, q, cfg);
      var r := Step(p, pkt, rule, q, cfg);
      if r.Next? {
        RankBounds(p, rank, pkt, rule, r.state, r.cfg, b - 1);
      }
    }
  }

  // ---- Graphs that make progress ----

  /** Bits a header reads whatever its variable fields do. */
  function FixedBits(fs: List<FieldDecl>): nat {
    match fs
    case Nil => 0
    case Cons(f, rest) => (if f.width.Fixed? then f.width.bits else 0) + FixedBits(rest)
  }

  /** Bits a state consumes at least. */
  function MinBits(exs: List<Extract>): nat {
    match exs
    case Nil => 0
    case Cons(ex, rest) => (if ex.lookahead then 0 else FixedBits(ex.fields)) + MinBits(rest)
  }

  lemma {:induction false} FieldsConsume(pkt: Packet, inst: Name, fs: List<FieldDecl>, cur: nat, cfg: Config)
    ensures var r := ReadFields(pkt, inst, false, fs, cur, cfg); r.Go? ==> r.cfg.pos >= cur + FixedBits(fs)
    decreases fs
  {
    if fs.Cons? {
      FieldsCons(pkt, inst, false, fs, cur, cfg);
      var r := ReadField(pkt, inst, fs.head, cur, cur, cfg);
      if r.Go? {
        FieldsConsume(pkt, inst, fs.tail, cur + FieldLen(fs.head.width, cfg).value, r.cfg);
      }
    }
  }

  lemma {:induction false} ExtractsConsume(pkt: Packet, exs: List<Extract>, cfg: Config)
    requires Sound(pkt, cfg)
    ensures var r := RunExtracts(pkt, exs, cfg); r.Go? ==> r.cfg.pos >= cfg.pos + MinBits(exs)
    decreases exs
  {
    if exs.Cons? {
      var ex, c := exs.head, BeginHeader(exs.head, cfg);
      FieldsKeep(pkt, ex.inst, ex.lookahead, ex.fields, cfg.pos, c);
      if !ex.lookahead {
        FieldsConsume(pkt, ex.inst, ex.fields, cfg.pos, c);
      }
      var r := ReadFields(pkt, ex.inst, ex.lookahead, ex.fields, cfg.pos, c);
      if r.Go? {
        ExtractsConsume(pkt, exs.tail, r.cfg);
      }
    }
  }

  lemma StepConsumes(p: Program, pkt: Packet, rule: PopRule, q: Name, cfg: Config)
    requires q < |p.states| && Sound(pkt, cfg)
    ensures var r := Step(p, pkt, rule, q, cfg);
            r.Next? ==> Sound(pkt, r.cfg) && r.cfg.pos >= cfg.pos + MinBits(p.states[q].extracts)
  {
    var s := p.states[q];
    StepKeeps(p, pkt, rule, q, cfg);
    ExtractsConsume(pkt, s.extracts, cfg);
    ExtractsKeep(pkt, s.extracts, cfg);
    var r1 := RunExtracts(pkt, s.extracts, cfg);
    if r1.Go? {
      AssignsKeep(p.metadata, s.assigns, r1.cfg);
      var r2 := RunAssigns(p.metadata, s.assigns, r1.cfg);
      if r2.Go? {
        OpsKeep(pkt, rule, s.ops, r2.cfg);
      }
    }
  }

  /** Whenever state q goes on, it has consumed at least w bits. */
  ghost predicate Heavy(p: Program, w: nat, q: Name) {
    q < |p.states|
    && forall pkt, rule, cfg | Sound(pkt, cfg) ::
         var r := Step(p, pkt, rule, q, cfg); r.Next? ==> r.cfg.pos >= cfg.pos + w
  }

  /** Fixed fields of w bits suffice for that. */
  lemma FixedBitsAreHeavy(p: Program, w: nat, q: Name)
    requires q < |p.states| && MinBits(p.states[q].extracts) >= w
    ensures Heavy(p, w, q)
  {
    forall pkt, rule, cfg | Sound(pkt, cfg)
      ensures var r := Step(p, pkt, rule, q, cfg); r.Next? ==> r.cfg.pos >= cfg.pos + w
    {
      StepConsumes(p, pkt, rule, q, cfg);
    }
  }

  /** The states of heavy consume at least w bits each, and no edge joins two others. */
  ghost predicate Progresses(p: Program, w: nat, heavy: set<Name>) {
    && (forall q | q in heavy :: Heavy(p, w, q))
    && forall q: Name, r: Name | Edge(p, q, r) :: q in heavy || r in heavy
  }

  lemma MulSign(w: int, d: int)
    requires w > 0
    ensures d < 0 ==> w * d <= -w
  {
    if d < 0 {
      MulGrows(w, -d);
    }
  }

  lemma DivMono(x: nat, y: nat, w: nat)
    requires w > 0 && x >= y
    ensures x / w >= y / w
  {
    var d := x / w - y / w;
    assert w * d == w * (x / w) - w * (y / w);
    MulSign(w, d);
  }

  /** Whole blocks of w bits left in the packet. */
  function Blocks(pkt: Packet, w: nat, pos: nat): nat
    requires w > 0 && pos <= |pkt|
  {
    (|pkt| - pos) / w
  }

  lemma BlocksFall(pkt: Packet, w: nat, pos: nat, pos': nat)
    requires w > 0 && pos <= pos' <= |pkt|
    ensures Blocks(pkt, w, pos') <= Blocks(pkt, w, pos)
    ensures pos + w <= pos' ==> Blocks(pkt, w, pos') < Blocks(pkt, w, pos)
  {
    var y := |pkt| - pos';
    DivMono(|pkt| - pos, y, w);
    DivModUnique(y + w, w, y / w + 1, y % w);
    if pos + w <= pos' {
      DivMono(|pkt| - pos, y + w, w);
    }
  }

  /** State entries still possible with n whole blocks left. */
  function EntriesLeft(heavy: set<Name>, q: Name, n: nat): nat {
    2 * n + if q in heavy then 1 else 2
  }

  lemma EntryEats(p: Program, w: nat, heavy: set<Name>, pkt: Packet, rule: PopRule, q: Name, cfg: Config)
    requires Progresses(p, w, heavy) && Sound(pkt, cfg) && q < |p.states|
    ensures var r := Step(p, pkt, rule, q, cfg);
            r.Next? ==>
              && Sound(pkt, r.cfg) && r.cfg.pos >= cfg.pos && (q in heavy || r.state in heavy)
              && (q in heavy ==> r.cfg.pos >= cfg.pos + w)
  {
    StepFollowsEdge(p, pkt, rule, q, cfg);
    StepKeeps(p, pkt, rule, q, cfg);
    if q in heavy {
      assert Heavy(p, w, q);
    }
  }

  lemma EntryPays(p: Program, w: nat, heavy: set<Name>, pkt: Packet, rule: PopRule, q: Name, cfg: Config)
    requires w > 0 && Progresses(p, w, heavy) && Sound(pkt, cfg) && q < |p.states|
    ensures var r := Step(p, pkt, rule, q, cfg);
            r.Next? ==>
              && Sound(pkt, r.cfg)
              && EntriesLeft(heavy, r.state, Blocks(pkt, w, r.cfg.pos)) < EntriesLeft(heavy, q, Blocks(pkt, w, cfg.pos))
  {
    EntryEats(p, w, heavy, pkt, rule, q, cfg);
    var r := Step(p, pkt, rule, q, cfg);
    if r.Next? {
      BlocksFall(pkt, w, cfg.pos, r.cfg.pos);
    }
  }

  lemma {:induction false} ProgressBounds(
    p: Program, w: nat, heavy: set<Name>, pkt: Packet, rule: PopRule, q: Name, cfg: Config, b: nat)
    requires w > 0 && Progresses(p, w, heavy) && Sound(pkt, cfg)
    requires b >= EntriesLeft(heavy, q, Blocks(pkt, w, cfg.pos))
    ensures !RanOutOfDepth(RunFrom(p, pkt, rule, q, cfg, b))
    decreases b
  {
    if q < |p.states| {
      StepNotDepth(p, pkt, rule, q, cfg);
      EntryPays(p, w, heavy, pkt, rule, q, cfg);
      var r := Step(p, pkt, rule, q, cfg);
      if r.Next? {
        ProgressBounds(p, w, heavy, pkt, rule, r.state, r.cfg, b - 1);
      }
    }
  }

  /** If no two consecutive state entries consume fewer than w bits each, a budget of
      2 + 2 * (L / w) is never exhausted on an L-bit input, whatever the cycles. */
  lemma ProgressTerminates(p: Program, w: nat, heavy: set<Name>, pkt: Packet, rule: PopRule)
    requires w > 0 && Progresses(p, w, heavy) && p.maxDepth >= 2 + 2 * (|pkt| / w)
    ensures !RanOutOfDepth(Parse(p, pkt, rule))
  {
    ProgressBounds(p, w, heavy, pkt, rule, p.start, Initial(p), p.maxDepth);
  }

  /** In an acyclic graph a budget above the start's rank is never exhausted. */
  lemma RankTerminates(p: Program, rank: map<Name, nat>, pkt: Packet, rule: PopRule)
    requires Ranked(p, rank) && rank[p.start] < p.maxDepth
    ensures !RanOutOfDepth(Parse(p, pkt, rule))
  {
    RankBounds(p, rank, pkt, rule, p.start, Initial(p), p.maxDepth);
  }
}
