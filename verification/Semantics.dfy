/** Operational semantics of the IR: what the reference interpreter computes.

    A run is a function of the program and the input bit string.  Faulted is the
    interpreter's error return for ill-formed programs; it is never about the input. */
module Semantics {
  import opened Bits
  import opened Ir

  datatype FieldValue = Uint(v: u64) | Run(off: nat, len: nat)

  datatype ParsedField = ParsedField(name: Name, off: nat, len: nat, value: FieldValue)

  datatype ParsedHeader = ParsedHeader(inst: Name, lookahead: bool, start: nat, fields: seq<ParsedField>)

  type Env = map<FieldRef, FieldValue>

  type Meta = map<Name, u64>

  /** One bounds-checked access: the machine cursor when it was made and the bit it needed. */
  datatype Access = Access(cursor: nat, end: nat)

  datatype Config = Config(
    pos: nat, env: Env, meta: Meta, regions: seq<nat>, headers: seq<ParsedHeader>, accesses: seq<Access>)

  /** Outcome of part of a state: go on, stop with a reject, or fault. */
  datatype Flow = Go(cfg: Config) | Stop(reason: Reason, consumed: nat, cfg: Config) | Fault

  /** How popping an unexhausted region is classified.  The interpreter asks whether the
      region end lies past the input; the generated code does not. */
  datatype PopRule = ByInput | AlwaysStructural

  // ---- Expressions ----

  function Apply(op: BinOp, l: nat, r: nat): u64 {
    match op
    case Add => Wrap(l + r)
    case Sub => Wrap(l - r)
    case Mul => Wrap(l * r)
    case Shl => Wrap(l * Pow2(r % 64))
    case Shr => Wrap(ShiftRight(l, r % 64))
    case And => Wrap(BitAnd(l, r))
    case Or => Wrap(BitOr(l, r))
  }

  /** None where the interpreter reports a malformed program. */
  function Eval(e: Expr, env: Env, meta: Meta, remaining: Option<u64>): Option<u64> {
    match e
    case Const(v) => Some(v)
    case Field(r) => if r in env && env[r].Uint? then Some(env[r].v) else None
    case Meta(m) => if m in meta then Some(meta[m]) else None
    case Remaining => remaining
    case Bin(op, l, r) =>
      var a, b := Eval(l, env, meta, remaining), Eval(r, env, meta, remaining);
      if a.Some? && b.Some? then Some(Apply(op, a.value, b.value)) else None
  }

  /** Bits to the innermost region end, 0 if the cursor were past it. */
  function RemainingAt(regions: seq<nat>, pos: nat): Option<u64> {
    if regions == [] then None
    else
      var top := regions[|regions| - 1];
      Some(if pos <= top then Wrap(top - pos) else 0)
  }

  // ---- Extraction ----

  /** Is there an open region whose end lies before bit end? */
  predicate CrossesRegion(regions: seq<nat>, end: nat) {
    regions != [] && end > regions[|regions| - 1]
  }

  function AddField(hs: seq<ParsedHeader>, f: ParsedField): seq<ParsedHeader> {
    if hs == [] then []
    else
      var h := hs[|hs| - 1];
      hs[..|hs| - 1] + [h.(fields := h.fields + [f])]
  }

  /** A field read of the run of bits cur .. cur+len, reported at machine cursor at. */
  function Take(pkt: Packet, inst: Name, name: Name, value: FieldValue, cur: nat, len: nat, at: nat, cfg: Config): Flow {
    if CrossesRegion(cfg.regions, cur + len) then Stop(OutOfRegionBounds, at, cfg)
    else if cur + len > |pkt| then Stop(OutOfBounds, at, cfg)
    else Go(cfg.(env := cfg.env[FieldRef(inst, name) := value],
                 headers := AddField(cfg.headers, ParsedField(name, cur, len, value)),
                 accesses := cfg.accesses + [Access(at, cur + len)]))
  }

  function SafeRead(pkt: Packet, off: nat, n: nat): nat {
    if off + n <= |pkt| then Read(pkt, off, n) else 0
  }

  /** Length in bits of a field, from the fields extracted before it. */
  function FieldLen(w: Width, cfg: Config): Option<nat> {
    match w
    case Fixed(n) => Some(n)
    case BitLen(e) => Eval(e, cfg.env, cfg.meta, None)
  }

  function FieldVal(pkt: Packet, w: Width, cur: nat, len: nat): FieldValue {
    if w.Fixed? then Uint(Wrap(SafeRead(pkt, cur, len))) else Run(cur, len)
  }

  function ReadField(pkt: Packet, inst: Name, f: FieldDecl, cur: nat, at: nat, cfg: Config): Flow {
    var len := FieldLen(f.width, cfg);
    if len.None? then Fault
    else Take(pkt, inst, f.name, FieldVal(pkt, f.width, cur, len.value), cur, len.value, at, cfg)
  }

  /** The fields of one header, in order.  A lookahead reads through a local cursor and
      reports the machine cursor; an extract reports its own.  On success the machine
      cursor moves only for an extract. */
  function ReadFields(pkt: Packet, inst: Name, lookahead: bool, fields: List<FieldDecl>, cur: nat, cfg: Config): Flow
    decreases fields
  {
    match fields
    case Nil => Go(if lookahead then cfg else cfg.(pos := cur))
    case Cons(f, rest) =>
      var at := if lookahead then cfg.pos else cur;
      var r := ReadField(pkt, inst, f, cur, at, cfg);
      if r.Go? then ReadFields(pkt, inst, lookahead, rest, cur + FieldLen(f.width, cfg).value, r.cfg) else r
  }

  /** Reading a list of fields, one field at a time. */
  lemma FieldsCons(pkt: Packet, inst: Name, peek: bool, fs: List<FieldDecl>, cur: nat, cfg: Config)
    requires fs.Cons?
    ensures var f := ReadField(pkt, inst, fs.head, cur, if peek then cfg.pos else cur, cfg);
            !f.Go? ==> ReadFields(pkt, inst, peek, fs, cur, cfg) == f
    ensures var f := ReadField(pkt, inst, fs.head, cur, if peek then cfg.pos else cur, cfg);
            f.Go? ==>
              && FieldLen(fs.head.width, cfg).Some?
              && ReadFields(pkt, inst, peek, fs, cur, cfg)
                 == ReadFields(pkt, inst, peek, fs.tail, cur + FieldLen(fs.head.width, cfg).value, f.cfg)
  {
  }

  function BeginHeader(ex: Extract, cfg: Config): Config {
    cfg.(headers := cfg.headers + [ParsedHeader(ex.inst, ex.lookahead, cfg.pos, [])])
  }

  function RunExtracts(pkt: Packet, exs: List<Extract>, cfg: Config): Flow {
    match exs
    case Nil => Go(cfg)
    case Cons(ex, rest) =>
      var r := ReadFields(pkt, ex.inst, ex.lookahead, ex.fields, cfg.pos, BeginHeader(ex, cfg));
      if r.Go? then RunExtracts(pkt, rest, r.cfg) else r
  }

  // ---- Assignments and regions ----

  function Truncate(v: u64, bits: nat): (r: u64)
    ensures r < Pow2(bits)
  {
    ModAtMost(v, Pow2(bits));
    v % Pow2(bits)
  }

  function RunAssigns(decls: seq<MetaDecl>, asgs: List<Assign>, cfg: Config): Flow {
    match asgs
    case Nil => Go(cfg)
    case Cons(a, rest) =>
      var v := Eval(a.value, cfg.env, cfg.meta, RemainingAt(cfg.regions, cfg.pos));
      if v.None? || a.target >= |decls| then Fault
      else RunAssigns(decls, rest, cfg.(meta := cfg.meta[a.target := Truncate(v.value, decls[a.target].bits)]))
  }

  lemma {:induction false} AssignsKeep(decls: seq<MetaDecl>, asgs: List<Assign>, cfg: Config)
    ensures var r := RunAssigns(decls, asgs, cfg);
            !r.Stop? && (r.Go? ==> r.cfg == cfg.(meta := r.cfg.meta))
    decreases asgs
  {
    if asgs.Cons? {
      var a := asgs.head;
      var v := Eval(a.value, cfg.env, cfg.meta, RemainingAt(cfg.regions, cfg.pos));
      if v.Some? && a.target < |decls| {
        AssignsKeep(decls, asgs.tail, cfg.(meta := cfg.meta[a.target := Truncate(v.value, decls[a.target].bits)]));
      }
    }
  }

  function PushRegion(e: Expr, cfg: Config): Flow {
    var len := Eval(e, cfg.env, cfg.meta, RemainingAt(cfg.regions, cfg.pos));
    if len.None? then Fault
    else
      var end := cfg.pos + len.value;
      if end >= TWO64 || CrossesRegion(cfg.regions, end) then Stop(RegionOutOfBounds, cfg.pos, cfg)
      else Go(cfg.(regions := cfg.regions + [end]))
  }

  /** On a reject the unexhausted region stays on the reported stack. */
  function PopRegion(pkt: Packet, rule: PopRule, cfg: Config): Flow {
    if cfg.regions == [] then Fault
    else
      var end := cfg.regions[|cfg.regions| - 1];
      if cfg.pos >= end then Go(cfg.(regions := cfg.regions[..|cfg.regions| - 1]))
      else if rule == ByInput && end > |pkt| then Stop(OutOfBounds, cfg.pos, cfg)
      else if rule == ByInput then
        Stop(RegionNotExhausted, cfg.pos, cfg.(accesses := cfg.accesses + [Access(cfg.pos, end)]))
      else Stop(RegionNotExhausted, cfg.pos, cfg)
  }

  function RunOp(pkt: Packet, rule: PopRule, op: RegionOp, cfg: Config): Flow {
    match op
    case Push(e) => PushRegion(e, cfg)
    case Pop => PopRegion(pkt, rule, cfg)
  }

  function RunOps(pkt: Packet, rule: PopRule, ops: List<RegionOp>, cfg: Config): Flow {
    match ops
    case Nil => Go(cfg)
    case Cons(op, rest) =>
      var r := RunOp(pkt, rule, op, cfg);
      if r.Go? then RunOps(pkt, rule, rest, r.cfg) else r
  }

  // ---- Transitions ----

  predicate Matches(e: Entry, key: nat) {
    match e
    case Value(v) => key == v
    case Masked(v, m) => BitAnd(key, m) == BitAnd(v, m)
    case Range(lo, hi) => lo <= key <= hi
  }

  /** One entry per key, each matching. */
  predicate MatchesAll(es: List<Entry>, keys: List<u64>) {
    match (es, keys)
    case (Nil, Nil) => true
    case (Cons(e, es'), Cons(k, ks')) => Matches(e, k) && MatchesAll(es', ks')
    case _ => false
  }

  function EvalKeys(es: List<Expr>, env: Env, meta: Meta, remaining: Option<u64>): Option<List<u64>> {
    match es
    case Nil => Some(Nil)
    case Cons(e, rest) =>
      var v := Eval(e, env, meta, remaining);
      var vs := EvalKeys(rest, env, meta, remaining);
      if v.Some? && vs.Some? then Some(Cons(v.value, vs.value)) else None
  }

  /** First matching arm in declared order, else the default. */
  function Choose(arms: List<Arm>, default: Option<Target>, keys: List<u64>): Option<Target> {
    match arms
    case Nil => default
    case Cons(a, rest) => if MatchesAll(a.entries, keys) then Some(a.next) else Choose(rest, default, keys)
  }

  datatype Decision = To(target: Target) | NoArm | BadKey

  function Decide(tr: Transition, cfg: Config): Decision {
    match tr
    case Direct(t) => To(t)
    case Select(keys, arms, default) =>
      var ks := EvalKeys(keys, cfg.env, cfg.meta, RemainingAt(cfg.regions, cfg.pos));
      if ks.None? then BadKey
      else
        var t := Choose(arms, default, ks.value);
        if t.Some? then To(t.value) else NoArm
  }

  // ---- Runs ----

  /** Extracts, then assigns, then region operations. */
  function RunBody(pkt: Packet, rule: PopRule, decls: seq<MetaDecl>, s: State, cfg: Config): Flow {
    var r1 := RunExtracts(pkt, s.extracts, cfg);
    if !r1.Go? then r1 else
    var r2 := RunAssigns(decls, s.assigns, r1.cfg);
    if !r2.Go? then r2 else
    RunOps(pkt, rule, s.ops, r2.cfg)
  }

  datatype Outcome = Accepted | Rejected(reason: Reason) | Faulted

  datatype Result = Result(outcome: Outcome, consumed: nat, cfg: Config)

  datatype StepResult = Next(state: Name, cfg: Config) | Done(result: Result)

  /** One state entry: body, then transition. */
  function Step(p: Program, pkt: Packet, rule: PopRule, q: Name, cfg: Config): StepResult
    requires q < |p.states|
  {
    var r := RunBody(pkt, rule, p.metadata, p.states[q], cfg);
    match r
    case Fault => Done(Result(Faulted, cfg.pos, cfg))
    case Stop(reason, consumed, c) => Done(Result(Rejected(reason), consumed, c))
    case Go(c) =>
      match Decide(p.states[q].transition, c)
      case BadKey => Done(Result(Faulted, c.pos, c))
      case NoArm => Done(Result(Rejected(NoMatchingArm), c.pos, c))
      case To(ToAccept) => Done(Result(Accepted, c.pos, c))
      case To(ToReject(code)) => Done(Result(Rejected(Authored(code)), c.pos, c))
      case To(ToState(q')) => Next(q', c)
  }

  /** budget is the number of states that may still be entered. */
  function RunFrom(p: Program, pkt: Packet, rule: PopRule, q: Name, cfg: Config, budget: nat): Result
    decreases budget
  {
    if budget == 0 then Result(Rejected(MaxDepthExceeded), cfg.pos, cfg)
    else if q >= |p.states| then Result(Faulted, cfg.pos, cfg)
    else
      match Step(p, pkt, rule, q, cfg)
      case Done(r) => r
      case Next(q', c) => RunFrom(p, pkt, rule, q', c, budget - 1)
  }

  /** Each register starts with its declared value. */
  function InitMeta(decls: seq<MetaDecl>): (meta: Meta)
    ensures forall m: Name :: m in meta <==> m < |decls|
    ensures forall m: Name | m < |decls| :: meta[m] == decls[m].init
  {
    map m | 0 <= m < |decls| :: decls[m].init
  }

  function Initial(p: Program): Config {
    Config(0, map[], InitMeta(p.metadata), [], [], [])
  }

  function Parse(p: Program, pkt: Packet, rule: PopRule): Result {
    RunFrom(p, pkt, rule, p.start, Initial(p), p.maxDepth)
  }
}
