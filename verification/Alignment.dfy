/** The static alignment analysis behind the byte-load fast path: residues of length
    expressions modulo 8, the worklist that assigns each state its entry residue, and the
    lookup the code generator makes for a field. */
module Alignment {
  import opened Bits
  import opened Ir
  import opened Semantics
  import opened Regions

  /** A residue modulo 8, or None when it is not statically known. */
  type Residue = m: Option<nat> | m.Some? ==> m.value < 8 witness None

  function AddResidues(a: Residue, b: Residue): Residue {
    if a.Some? && b.Some? then Some((a.value + b.value) % 8) else None
  }

  function ExprMod8(e: Expr): Residue {
    match e
    case Const(v) => Some(v % 8)
    case Bin(op, l, r) => BinMod8(op, ExprMod8(l), ExprMod8(r), r)
    case _ => None
  }

  function BinMod8(op: BinOp, l: Residue, r: Residue, rhs: Expr): Residue {
    match op
    case Add => AddResidues(l, r)
    case Sub => if l.Some? && r.Some? then Some((l.value + 8 - r.value) % 8) else None
    case Mul =>
      if l == Some(0) || r == Some(0) then Some(0)
      else if l.Some? && r.Some? then Some((l.value * r.value) % 8)
      else None
    case Shl =>
      if !rhs.Const? then None
      else if rhs.v % 64 >= 3 then Some(0)
      else if l.Some? then Some((l.value * Pow2(rhs.v % 64)) % 8)
      else None
    case Shr => None
    case And => if l.Some? && r.Some? then Some(BitAnd(l.value, r.value)) else None
    case Or => if l.Some? && r.Some? then Some(BitOr(l.value, r.value) % 8) else None
  }

  // ---- Soundness of the residues ----

  /** 8 divides 2^64, so wrapping keeps residues. */
  lemma WrapMod8(x: int)
    ensures Wrap(x) % 8 == x % 8
  {
    assert Wrap(x) == x - TWO64 * (x / TWO64);
    assert TWO64 * (x / TWO64) == 8 * (0x2000_0000_0000_0000 * (x / TWO64));
  }

  lemma ModOfSum(x: int, q: int)
    ensures (8 * q + x) % 8 == x % 8
  {
  }

  lemma SumMod8(a: nat, b: nat)
    ensures (a + b) % 8 == (a % 8 + b % 8) % 8
    ensures (a - b) % 8 == (a % 8 + 8 - b % 8) % 8
  {
    ModOfSum(a % 8 + b % 8, a / 8 + b / 8);
    ModOfSum(a % 8 + 8 - b % 8, a / 8 - b / 8 - 1);
  }

  lemma ProductMod8(a: nat, b: nat)
    ensures (a * b) % 8 == ((a % 8) * (b % 8)) % 8
  {
    var q, r, s, t := a / 8, a % 8, b / 8, b % 8;
    assert a == 8 * q + r && b == 8 * s + t;
    assert a * b == 8 * (q * b + r * s) + r * t by {
      assert (8 * q + r) * b == 8 * (q * b) + r * b;
      assert r * (8 * s + t) == 8 * (r * s) + r * t;
    }
    ModOfSum(r * t, q * b + r * s);
  }

  lemma {:induction false} Pow2From3(k: nat)
    requires k >= 3
    ensures Pow2(k) % 8 == 0
    decreases k
  {
    if k > 3 {
      Pow2From3(k - 1);
    } else {
      Pow2Small();
    }
  }

  predicate Residual(m: Residue, x: nat) {
    m.Some? ==> x % 8 == m.value
  }

  lemma AddMod8(a: nat, b: nat, l: Residue, r: Residue, rhs: Expr)
    requires Residual(l, a) && Residual(r, b)
    ensures Residual(BinMod8(Add, l, r, rhs), Apply(Add, a, b))
    ensures Residual(BinMod8(Sub, l, r, rhs), Apply(Sub, a, b))
  {
    WrapMod8(a + b);
    WrapMod8(a - b);
    SumMod8(a, b);
  }

  lemma ShiftedOut(a: nat, s: nat)
    requires s >= 3
    ensures Wrap(a * Pow2(s)) % 8 == 0
  {
    WrapMod8(a * Pow2(s));
    ProductMod8(a, Pow2(s));
    Pow2From3(s);
  }

  lemma ShiftedUp(a: nat, s: nat, m: nat)
    requires a % 8 == m
    ensures Wrap(a * Pow2(s)) % 8 == (m * Pow2(s)) % 8
  {
    WrapMod8(a * Pow2(s));
    ProductMod8(a, Pow2(s));
    ProductMod8(m, Pow2(s));
  }

  lemma ShlMod8(a: nat, b: nat, l: Residue, r: Residue, rhs: Expr)
    requires Residual(l, a) && (rhs.Const? ==> b == rhs.v)
    ensures Residual(BinMod8(Shl, l, r, rhs), Apply(Shl, a, b))
  {
    if b % 64 >= 3 {
      ShiftedOut(a, b % 64);
    } else if l.Some? {
      ShiftedUp(a, b % 64, l.value);
    }
  }

  lemma MulMod8(a: nat, b: nat, l: Residue, r: Residue, rhs: Expr)
    requires Residual(l, a) && Residual(r, b)
    ensures Residual(BinMod8(Mul, l, r, rhs), Apply(Mul, a, b))
  {
    WrapMod8(a * b);
    ProductMod8(a, b);
  }

  lemma BitwiseMod8(op: BinOp, a: nat, b: nat, l: Residue, r: Residue, rhs: Expr)
    requires Residual(l, a) && Residual(r, b) && (op == And || op == Or)
    ensures Residual(BinMod8(op, l, r, rhs), Apply(op, a, b))
  {
    hide BitAnd, BitOr, Wrap;
    assert Pow2(3) == 8;
    WrapMod8(BitAnd(a, b));
    WrapMod8(BitOr(a, b));
    AndLowBits(a, b, 3);
    OrLowBits(a, b, 3);
  }

  lemma BinMod8Sound(op: BinOp, a: nat, b: nat, l: Residue, r: Residue, rhs: Expr)
    requires Residual(l, a) && Residual(r, b) && (rhs.Const? ==> b == rhs.v)
    ensures Residual(BinMod8(op, l, r, rhs), Apply(op, a, b))
  {
    match op
    case Add => AddMod8(a, b, l, r, rhs);
    case Sub => AddMod8(a, b, l, r, rhs);
    case Mul => MulMod8(a, b, l, r, rhs);
    case Shl => ShlMod8(a, b, l, r, rhs);
    case Shr =>
    case And => BitwiseMod8(op, a, b, l, r, rhs);
    case Or => BitwiseMod8(op, a, b, l, r, rhs);
  }

  /** A known residue is the residue of every value the expression can take. */
  lemma {:induction false} ExprMod8Sound(e: Expr, env: Env, meta: Meta, rem: Option<u64>)
    requires Eval(e, env, meta, rem).Some?
    ensures Residual(ExprMod8(e), Eval(e, env, meta, rem).value)
    decreases e
  {
    if e.Bin? {
      ExprMod8Sound(e.lhs, env, meta, rem);
      ExprMod8Sound(e.rhs, env, meta, rem);
      BinMod8Sound(e.op, Eval(e.lhs, env, meta, rem).value, Eval(e.rhs, env, meta, rem).value,
                   ExprMod8(e.lhs), ExprMod8(e.rhs), e.rhs);
    }
  }

  // ---- Residues of positions ----

  function WidthMod8(w: Width): Residue {
    match w
    case Fixed(n) => Some(n % 8)
    case BitLen(e) => ExprMod8(e)
  }

  function FieldsDelta(fs: List<FieldDecl>, d: Residue): Residue {
    match fs
    case Nil => d
    case Cons(f, rest) => FieldsDelta(rest, AddResidues(d, WidthMod8(f.width)))
  }

  /** Distance the cursor moves over the extracts of a state, modulo 8. */
  function ExtractsDelta(exs: List<Extract>, d: Residue): Residue {
    match exs
    case Nil => d
    case Cons(ex, rest) => ExtractsDelta(rest, if ex.lookahead then d else FieldsDelta(ex.fields, d))
  }

  function Exit(s: State, entry: Residue): Residue {
    AddResidues(entry, ExtractsDelta(s.extracts, Some(0)))
  }

  lemma AddResidual(a: Residue, b: Residue, x: nat, y: nat)
    requires Residual(a, x) && Residual(b, y)
    ensures Residual(AddResidues(a, b), x + y)
  {
    SumMod8(x, y);
  }

  lemma WidthResidual(w: Width, cfg: Config)
    requires FieldLen(w, cfg).Some?
    ensures Residual(WidthMod8(w), FieldLen(w, cfg).value)
  {
    if w.BitLen? {
      ExprMod8Sound(w.len, cfg.env, cfg.meta, None);
    }
  }

  lemma {:induction false} FieldsDeltaSound(
    pkt: Packet, inst: Name, fs: List<FieldDecl>, cur: nat, cfg: Config, d: Residue, moved: nat)
    requires Residual(d, moved)
    ensures var r := ReadFields(pkt, inst, false, fs, cur, cfg);
            r.Go? ==> r.cfg.pos >= cur && Residual(FieldsDelta(fs, d), moved + (r.cfg.pos - cur))
    decreases fs
  {
    if fs.Cons? {
      var r := ReadField(pkt, inst, fs.head, cur, cur, cfg);
      if r.Go? {
        var len := FieldLen(fs.head.width, cfg).value;
        WidthResidual(fs.head.width, cfg);
        AddResidual(d, WidthMod8(fs.head.width), moved, len);
        FieldsDeltaSound(pkt, inst, fs.tail, cur + len, r.cfg, AddResidues(d, WidthMod8(fs.head.width)), moved + len);
      }
    }
  }

  lemma {:induction false} PeekStays(pkt: Packet, inst: Name, fs: List<FieldDecl>, cur: nat, cfg: Config)
    ensures var r := ReadFields(pkt, inst, true, fs, cur, cfg); r.Go? ==> r.cfg.pos == cfg.pos
    decreases fs
  {
    if fs.Cons? {
      var r := ReadField(pkt, inst, fs.head, cur, cfg.pos, cfg);
      if r.Go? {
        PeekStays(pkt, inst, fs.tail, cur + FieldLen(fs.head.width, cfg).value, r.cfg);
      }
    }
  }

  lemma {:induction false} ExtractsDeltaSound(pkt: Packet, exs: List<Extract>, cfg: Config, d: Residue, moved: nat)
    requires Residual(d, moved)
    ensures var r := RunExtracts(pkt, exs, cfg);
            r.Go? ==> r.cfg.pos >= cfg.pos && Residual(ExtractsDelta(exs, d), moved + (r.cfg.pos - cfg.pos))
    decreases exs
  {
    if exs.Cons? {
      var ex, c := exs.head, BeginHeader(exs.head, cfg);
      var r := ReadFields(pkt, ex.inst, ex.lookahead, ex.fields, cfg.pos, c);
      if ex.lookahead {
        PeekStays(pkt, ex.inst, ex.fields, cfg.pos, c);
      } else {
        FieldsDeltaSound(pkt, ex.inst, ex.fields, cfg.pos, c, d, moved);
      }
      if r.Go? {
        var d' := if ex.lookahead then d else FieldsDelta(ex.fields, d);
        ExtractsDeltaSound(pkt, exs.tail, r.cfg, d', moved + (r.cfg.pos - cfg.pos));
      }
    }
  }

  // ---- Entry residues of states ----

  /** What one edge demands of its target. */
  predicate Admits(align: map<Name, Residue>, r: Name, exit: Residue) {
    r in align && (align[r].None? || align[r] == exit)
  }

  ghost predicate Stable(p: Program, align: map<Name, Residue>, q: Name) {
    && q in align && q < |p.states|
    && forall r | Edge(p, q, r) :: Admits(align, r, Exit(p.states[q], align[q]))
  }

  /** A solution of the analysis: a known entry residue is right on every edge. */
  ghost predicate Solution(p: Program, align: map<Name, Residue>) {
    && Admits(align, p.start, Some(0))
    && forall q | q in align :: Stable(p, align, q)
  }

  /** The most precise solution: it covers only what every solution covers, and knows each
      residue that any solution knows. */
  ghost predicate Precise(p: Program, align: map<Name, Residue>) {
    Solution(p, align) && forall other | Solution(p, other) :: Refines(align, other)
  }

  predicate Refines(align: map<Name, Residue>, other: map<Name, Residue>) {
    forall q | q in align :: q in other && (other[q].Some? ==> align[q] == other[q])
  }

  /** There is only one. */
  lemma PreciseIsUnique(p: Program, a: map<Name, Residue>, b: map<Name, Residue>)
    requires Precise(p, a) && Precise(p, b)
    ensures a == b
  {
    assert Refines(a, b) && Refines(b, a);
  }

  lemma BodyDelta(pkt: Packet, rule: PopRule, decls: seq<MetaDecl>, s: State, cfg: Config, entry: Residue)
    requires Sound(pkt, cfg) && Residual(entry, cfg.pos)
    ensures var r := RunBody(pkt, rule, decls, s, cfg); r.Go? ==> Residual(Exit(s, entry), r.cfg.pos)
  {
    hide ExtractsDelta, RunExtracts, RunAssigns, RunOps, Sound;
    ExtractsDeltaSound(pkt, s.extracts, cfg, Some(0), 0);
    ExtractsKeep(pkt, s.extracts, cfg);
    var r1 := RunExtracts(pkt, s.extracts, cfg);
    if r1.Go? {
      AddResidual(entry, ExtractsDelta(s.extracts, Some(0)), cfg.pos, r1.cfg.pos - cfg.pos);
      AssignsKeep(decls, s.assigns, r1.cfg);
      var r2 := RunAssigns(decls, s.assigns, r1.cfg);
      if r2.Go? {
        OpsKeep(pkt, rule, s.ops, r2.cfg);
      }
    }
  }

  lemma StepAligned(p: Program, align: map<Name, Residue>, pkt: Packet, rule: PopRule, q: Name, cfg: Config)
    requires Solution(p, align) && q < |p.states| && q in align && Sound(pkt, cfg) && Residual(align[q], cfg.pos)
    ensures var r := Step(p, pkt, rule, q, cfg);
            r.Next? ==> r.state in align && Residual(align[r.state], r.cfg.pos)
  {
    BodyDelta(pkt, rule, p.metadata, p.states[q], cfg, align[q]);
    StepFollowsEdge(p, pkt, rule, q, cfg);
    assert Stable(p, align, q);
  }

  /** Every reachable entry of a state with a known entry residue arrives with it. */
  lemma {:induction false} EntryAligned(p: Program, align: map<Name, Residue>, pkt: Packet, rule: PopRule, k: nat)
    requires Solution(p, align)
    ensures var e := Entered(p, pkt, rule, k);
            e.Some? ==> e.value.0 in align && Residual(align[e.value.0], e.value.1.pos)
    decreases k
  {
    if k > 0 {
      EntryAligned(p, align, pkt, rule, k - 1);
      EntrySound(p, pkt, rule, k - 1);
      var e := Entered(p, pkt, rule, k - 1);
      if e.Some? && e.value.0 < |p.states| {
        StepAligned(p, align, pkt, rule, e.value.0, e.value.1);
      }
    }
  }

  // ---- The worklist ----

  ghost predicate Pending(p: Program, align: map<Name, Residue>, work: seq<Name>, current: set<Name>) {
    && Admits(align, p.start, Some(0))
    && (forall q | q in align :: q < |p.states|)
    && (forall q | q in work :: q in align)
    && (forall q | q in align :: q in current || q in work || Stable(p, align, q))
    && (forall other | Solution(p, other) :: Refines(align, other))
  }

  /** m is at least as precise as what any solution sends along the edges of q. */
  ghost predicate Sends(p: Program, q: Name, m: Residue)
    requires q < |p.states|
  {
    forall other | Solution(p, other) ::
      q in other && (Exit(p.states[q], other[q]).Some? ==> m == Exit(p.states[q], other[q]))
  }

  lemma EntrySends(p: Program, align: map<Name, Residue>, q: Name)
    requires q in align && q < |p.states| && forall other | Solution(p, other) :: Refines(align, other)
    ensures Sends(p, q, Exit(p.states[q], align[q]))
  {
  }

  /** Taking an edge, or forgetting a residue two edges disagree on, stays as precise. */
  lemma SendRefines(p: Program, align: map<Name, Residue>, q: Name, r: Name, m: Residue)
    requires q < |p.states| && Sends(p, q, m) && Edge(p, q, r)
    requires forall other | Solution(p, other) :: Refines(align, other)
    requires r in align ==> align[r] != m
    ensures var sent: Residue := if r in align then None else m;
            forall other | Solution(p, other) :: Refines(align[r := sent], other)
  {
    forall other | Solution(p, other)
      ensures Refines(align[r := if r in align then None else m], other)
    {
      assert Refines(align, other) && Stable(p, other, q);
    }
  }

  ghost function Known(align: map<Name, Residue>): set<Name> {
    set q | q in align && align[q].Some?
  }

  /** Falls whenever an entry is added or becomes unknown. */
  ghost function Potential(p: Program, align: map<Name, Residue>): int {
    2 * (|p.states| - |align.Keys|) + |Known(align)|
  }

  ghost function KnownPending(align: map<Name, Residue>, work: seq<Name>): nat {
    if work == [] then 0
    else KnownPending(align, work[..|work| - 1])
         + (if work[|work| - 1] in align && align[work[|work| - 1]].Some? then 1 else 0)
  }

  lemma PotentialAdd(p: Program, align: map<Name, Residue>, r: Name, m: Residue)
    requires r !in align
    ensures Potential(p, align[r := m]) < Potential(p, align)
  {
    assert align[r := m].Keys == align.Keys + {r};
    assert Known(align[r := m]) == if m.Some? then Known(align) + {r} else Known(align);
  }

  lemma PotentialDrop(p: Program, align: map<Name, Residue>, r: Name)
    requires r in align && align[r].Some?
    ensures Potential(p, align[r := None]) < Potential(p, align)
  {
    assert align[r := None].Keys == align.Keys;
    assert Known(align[r := None]) == Known(align) - {r};
    assert r in Known(align);
  }

  lemma PotentialBound(p: Program, align: map<Name, Residue>)
    requires forall q | q in align :: q < |p.states|
    ensures Potential(p, align) >= 0
  {
    SubrangeCard(align.Keys, |p.states|);
  }

  lemma AddStable(p: Program, align: map<Name, Residue>, work: seq<Name>, q: Name, r: Name, m: Residue)
    requires Pending(p, align, work, {q}) && r < |p.states|
    requires r !in align || m.None?
    requires forall other | Solution(p, other) :: Refines(align[r := m], other)
    ensures Pending(p, align[r := m], work + [r], {q})
  {
    var align', work' := align[r := m], work + [r];
    forall x | x in align'
      ensures x == q || x in work' || Stable(p, align', x)
    {
      if x == r {
        assert work'[|work|] == r;
      } else if x != q && x !in work {
        assert Stable(p, align, x);
        assert Stable(p, align', x);
      } else if x in work {
        assert x in work';
      }
    }
  }

  /** Send exit residue m of state q to its state targets ts. */
  method Spread(p: Program, q: Name, m: Residue, ts: List<Target>, align: map<Name, Residue>, work: seq<Name>)
    returns (align': map<Name, Residue>, work': seq<Name>)
    requires Closed(p) && Pending(p, align, work, {q}) && q in align && Sends(p, q, m)
    requires forall t | Member(t, ts) :: Member(t, TargetList(p.states[q].transition))
    ensures Pending(p, align', work', {q}) && q in align'
    ensures forall r: Name | Member(ToState(r), ts) :: Admits(align', r, m)
    ensures forall x, e: Residue | Admits(align, x, e) :: Admits(align', x, e)
    ensures Potential(p, align') < Potential(p, align) || (align' == align && KnownPending(align, work') == KnownPending(align, work))
    ensures Potential(p, align') < Potential(p, align) || m.Some? || work' == work
    ensures align'[q] == align[q] || q in work'
    ensures forall x | x in work :: x in work'
    decreases ts
  {
    hide Potential, Sends, Exit, Refines, Solution, Stable;
    align', work' := align, work;
    if ts.Cons? {
      if ts.head.ToState? {
        var r := ts.head.state;
        assert Edge(p, q, r);
        if r !in align {
          SendRefines(p, align, q, r, m);
          AddStable(p, align, work, q, r, m);
          PotentialAdd(p, align, r, m);
          align', work' := align[r := m], work + [r];
        } else if align[r] != m {
          SendRefines(p, align, q, r, m);
          AddStable(p, align, work, q, r, None);
          if align[r].Some? {
            PotentialDrop(p, align, r);
          } else {
            assert align[r := None] == align;
            assert (work + [r])[..|work|] == work;
          }
          align', work' := align[r := None], work + [r];
        }
      }
      align', work' := Spread(p, q, m, ts.tail, align', work');
    }
  }

  lemma StartRefines(p: Program, align: map<Name, Residue>)
    requires align.Keys == {p.start} && align[p.start] == Some(0)
    ensures forall other | Solution(p, other) :: Refines(align, other)
  {
  }

  /** The analysis computes the most precise solution. */
  method EntryAlignments(p: Program) returns (align: map<Name, Residue>)
    requires Closed(p)
    ensures Precise(p, align)
  {
    var zero: Residue := Some(0);
    align := map[p.start := zero];
    var work: seq<Name> := [p.start];
    StartRefines(p, align);
    PotentialBound(p, align);
    while |work| > 0
      invariant Pending(p, align, work, {})
      decreases Potential(p, align), KnownPending(align, work), |work|
    {
      TakePending(p, align, work);
      PotentialBound(p, align);
      var q := work[|work| - 1];
      ghost var before := work;
      work := work[..|work| - 1];
      ghost var entry := align[q];
      var m := Exit(p.states[q], align[q]);
      EntrySends(p, align, q);
      align, work := Spread(p, q, m, TargetList(p.states[q].transition), align, work);
    }
  }

  lemma TakePending(p: Program, align: map<Name, Residue>, work: seq<Name>)
    requires Pending(p, align, work, {}) && |work| > 0
    ensures var q := work[|work| - 1]; q in align && Pending(p, align, work[..|work| - 1], {q})
  {
    var q := work[|work| - 1];
    forall x | x in align
      ensures x == q || x in work[..|work| - 1] || Stable(p, align, x)
    {
    }
  }

  // ---- The lookup for one field ----

  /** Own residue of the field at a given place: known until a length of unknown residue. */
  function Advance(at: Residue, w: Width): Residue {
    AddResidues(at, WidthMod8(w))
  }

  datatype Lookup = Found(at: Residue) | Missing(next: Residue)

  /** Where field name starts if the header starts at residue at, else where the header ends. */
  function FindField(fs: List<FieldDecl>, name: Name, at: Residue): Lookup {
    match fs
    case Nil => Missing(at)
    case Cons(f, rest) => if f.name == name then Found(at) else FindField(rest, name, Advance(at, f.width))
  }

  /** The generator's lookup: the first field of that name in the first extract of that
      instance; None also when an earlier length has no known residue. */
  function FieldAlignment(exs: List<Extract>, inst: Name, name: Name, at: Residue): Residue {
    match exs
    case Nil => None
    case Cons(ex, rest) =>
      var hit := if ex.inst == inst then FindField(ex.fields, name, at) else Missing(FieldsDelta(ex.fields, at));
      match hit
      case Found(r) => r
      case Missing(next) =>
        if next.None? then None else FieldAlignment(rest, inst, name, if ex.lookahead then at else next)
  }

  /** The generator emits byte loads for a whole-byte field it believes aligned. */
  predicate ByteLoaded(exs: List<Extract>, entry: Residue, inst: Name, name: Name, n: nat) {
    n % 8 == 0 && n <= 64 && FieldAlignment(exs, inst, name, entry) == Some(0)
  }

  /** Each byte-loaded field of fs, the header starting at residue at, is itself aligned. */
  predicate FieldSitesAligned(all: List<Extract>, entry: Residue, inst: Name, fs: List<FieldDecl>, at: Residue) {
    match fs
    case Nil => true
    case Cons(f, rest) =>
      && (f.width.Fixed? && ByteLoaded(all, entry, inst, f.name, f.width.bits) ==> at == Some(0))
      && FieldSitesAligned(all, entry, inst, rest, Advance(at, f.width))
  }

  predicate SitesAligned(all: List<Extract>, entry: Residue, exs: List<Extract>, at: Residue) {
    match exs
    case Nil => true
    case Cons(ex, rest) =>
      && FieldSitesAligned(all, entry, ex.inst, ex.fields, at)
      && SitesAligned(all, entry, rest, if ex.lookahead then at else FieldsDelta(ex.fields, at))
  }

  // ---- When the lookup is right ----

  predicate HasInstance(exs: List<Extract>, inst: Name) {
    match exs
    case Nil => false
    case Cons(ex, rest) => ex.inst == inst || HasInstance(rest, inst)
  }

  /** No instance is extracted twice. */
  predicate DistinctInstances(exs: List<Extract>) {
    match exs
    case Nil => true
    case Cons(ex, rest) => !HasInstance(rest, ex.inst) && DistinctInstances(rest)
  }

  predicate AllDistinctNames(exs: List<Extract>) {
    match exs
    case Nil => true
    case Cons(ex, rest) => DistinctNames(ex.fields) && AllDistinctNames(rest)
  }

  /** The lookup in all either fails or is the lookup in the rest of a header. */
  ghost predicate FieldLookup(all: List<Extract>, entry: Residue, inst: Name, fs: List<FieldDecl>, at: Residue) {
    forall name: Name | HasField(fs, name) ::
      FieldAlignment(all, inst, name, entry).None? || FindField(fs, name, at) == Found(FieldAlignment(all, inst, name, entry))
  }

  lemma {:induction false} FieldSitesOk(all: List<Extract>, entry: Residue, inst: Name, fs: List<FieldDecl>, at: Residue)
    requires DistinctNames(fs) && FieldLookup(all, entry, inst, fs, at)
    ensures FieldSitesAligned(all, entry, inst, fs, at)
    decreases fs
  {
    if fs.Cons? {
      assert HasField(fs, fs.head.name);
      forall name: Name | HasField(fs.tail, name)
        ensures FieldAlignment(all, inst, name, entry).None?
             || FindField(fs.tail, name, Advance(at, fs.head.width)) == Found(FieldAlignment(all, inst, name, entry))
      {
        assert HasField(fs, name) && name != fs.head.name;
      }
      FieldSitesOk(all, entry, inst, fs.tail, Advance(at, fs.head.width));
    }
  }

  ghost predicate ExtractLookup(all: List<Extract>, entry: Residue, exs: List<Extract>, at: Residue) {
    forall inst: Name, name: Name | HasInstance(exs, inst) ::
      FieldAlignment(all, inst, name, entry).None?
      || FieldAlignment(all, inst, name, entry) == FieldAlignment(exs, inst, name, at)
  }

  lemma {:induction false} FindsOrMisses(fs: List<FieldDecl>, name: Name, at: Residue)
    ensures HasField(fs, name) ==> FindField(fs, name, at).Found?
    ensures !HasField(fs, name) ==> FindField(fs, name, at) == Missing(FieldsDelta(fs, at))
    decreases fs
  {
    if fs.Cons? {
      FindsOrMisses(fs.tail, name, Advance(at, fs.head.width));
    }
  }

  lemma {:induction false} SitesOk(all: List<Extract>, entry: Residue, exs: List<Extract>, at: Residue)
    requires DistinctInstances(exs) && AllDistinctNames(exs) && ExtractLookup(all, entry, exs, at)
    ensures SitesAligned(all, entry, exs, at)
    decreases exs
  {
    if exs.Cons? {
      var ex := exs.head;
      var at' := if ex.lookahead then at else FieldsDelta(ex.fields, at);
      forall name: Name | HasField(ex.fields, name)
        ensures FieldAlignment(all, ex.inst, name, entry).None?
             || FindField(ex.fields, name, at) == Found(FieldAlignment(all, ex.inst, name, entry))
      {
        assert HasInstance(exs, ex.inst);
        FindsOrMisses(ex.fields, name, at);
      }
      FieldSitesOk(all, entry, ex.inst, ex.fields, at);
      forall inst: Name, name: Name | HasInstance(exs.tail, inst)
        ensures FieldAlignment(all, inst, name, entry).None?
             || FieldAlignment(all, inst, name, entry) == FieldAlignment(exs.tail, inst, name, at')
      {
        assert HasInstance(exs, inst);
      }
      SitesOk(all, entry, exs.tail, at');
    }
  }

  /** If no state extracts an instance twice, every byte-loaded field is aligned. */
  lemma DistinctInstancesSuffice(exs: List<Extract>, entry: Residue)
    requires DistinctInstances(exs) && AllDistinctNames(exs)
    ensures SitesAligned(exs, entry, exs, entry)
  {
    SitesOk(exs, entry, exs, entry);
  }
}
