/** The byte view of remaining(): in a program of whole-byte headers and regions every reachable
    remaining count is a multiple of 8, so selecting on its bytes is selecting on its bits. */
module ByteView {
  import opened Bits
  import opened Ir
  import opened Semantics
  import opened Regions
  import opened Alignment
  import opened WholeBytes

  // ---- Whole-byte programs ----

  /** Every header that moves the cursor is a whole number of bytes, as far as the residues of
      its widths tell. */
  predicate WholeHeaders(exs: List<Extract>) {
    match exs
    case Nil => true
    case Cons(ex, rest) => (!ex.lookahead ==> FieldsDelta(ex.fields, Some(0)) == Some(0)) && WholeHeaders(rest)
  }

  predicate WholePushes(ops: List<RegionOp>) {
    match ops
    case Nil => true
    case Cons(Push(e), rest) => ExprMod8(e) == Some(0) && WholePushes(rest)
    case Cons(Pop, rest) => WholePushes(rest)
  }

  ghost predicate WholeByteProgram(p: Program) {
    forall q | 0 <= q < |p.states| :: WholeHeaders(p.states[q].extracts) && WholePushes(p.states[q].ops)
  }

  // ---- Every use point is on a byte boundary ----

  /** The cursor and every region end are whole bytes. */
  predicate OnBytes(cfg: Config) {
    cfg.pos % 8 == 0 && forall i | 0 <= i < |cfg.regions| :: cfg.regions[i] % 8 == 0
  }

  /** remaining() is 8 * (remaining() >> 3), and the byte view evaluates to the bytes left. */
  predicate RemainingExact(cfg: Config) {
    match RemainingAt(cfg.regions, cfg.pos)
    case None => true
    case Some(bits) =>
      bits == 8 * ShiftRight(bits, 3) && Eval(RemainingBytes(), cfg.env, cfg.meta, Some(bits)) == Some(bits / 8)
  }

  lemma BytesAreExact(pkt: Packet, cfg: Config)
    requires OnBytes(cfg) && Sound(pkt, cfg)
    ensures RemainingExact(cfg)
    ensures var rem := RemainingAt(cfg.regions, cfg.pos); rem.Some? ==> rem.value % 8 == 0
  {
    hide Nested, ShiftRight;
    if cfg.regions != [] {
      var top := cfg.regions[|cfg.regions| - 1];
      SumMod8(top, cfg.pos);
      var bits: u64 := top - cfg.pos;
      ShiftByThree(bits);
      assert Eval(Const(3), cfg.env, cfg.meta, Some(bits)) == Some(3);
      assert Apply(Shr, bits, 3) == bits / 8;
      assert RemainingAt(cfg.regions, cfg.pos) == Some(bits);
      assert bits % 8 == 0;
      assert Eval(Remaining, cfg.env, cfg.meta, Some(bits)) == Some(bits);
    }
  }

  lemma {:induction false} ExtractsOnBytes(pkt: Packet, exs: List<Extract>, cfg: Config)
    requires WholeHeaders(exs) && Sound(pkt, cfg) && OnBytes(cfg)
    ensures var r := RunExtracts(pkt, exs, cfg); r.Go? ==> OnBytes(r.cfg)
    decreases exs
  {
    if exs.Cons? {
      var ex, c := exs.head, BeginHeader(exs.head, cfg);
      FieldsKeep(pkt, ex.inst, ex.lookahead, ex.fields, cfg.pos, c);
      if !ex.lookahead {
        FieldsDeltaSound(pkt, ex.inst, ex.fields, cfg.pos, c, Some(0), 0);
        var r := ReadFields(pkt, ex.inst, false, ex.fields, cfg.pos, c);
        if r.Go? {
          SumMod8(cfg.pos, r.cfg.pos - cfg.pos);
        }
      }
      var r := ReadFields(pkt, ex.inst, ex.lookahead, ex.fields, cfg.pos, c);
      if r.Go? {
        ExtractsOnBytes(pkt, exs.tail, r.cfg);
      }
    }
  }

  lemma PushOnBytes(e: Expr, cfg: Config)
    requires ExprMod8(e) == Some(0) && OnBytes(cfg)
    ensures var r := PushRegion(e, cfg); r.Go? ==> OnBytes(r.cfg)
  {
    var rem := RemainingAt(cfg.regions, cfg.pos);
    var len := Eval(e, cfg.env, cfg.meta, rem);
    if len.Some? {
      ExprMod8Sound(e, cfg.env, cfg.meta, rem);
      SumMod8(cfg.pos, len.value);
    }
  }

  /** remaining() is exact before each operation reached. */
  ghost predicate OpsExact(pkt: Packet, rule: PopRule, ops: List<RegionOp>, cfg: Config) {
    match ops
    case Nil => true
    case Cons(op, rest) =>
      RemainingExact(cfg) && (RunOp(pkt, rule, op, cfg).Go? ==> OpsExact(pkt, rule, rest, RunOp(pkt, rule, op, cfg).cfg))
  }

  lemma {:induction false} OpsOnBytes(pkt: Packet, rule: PopRule, ops: List<RegionOp>, cfg: Config)
    requires WholePushes(ops) && OnBytes(cfg) && Sound(pkt, cfg)
    ensures OpsExact(pkt, rule, ops, cfg)
    ensures var r := RunOps(pkt, rule, ops, cfg); r.Go? ==> OnBytes(r.cfg)
    decreases ops
  {
    hide RemainingExact, ExprMod8;
    if ops.Cons? {
      BytesAreExact(pkt, cfg);
      if ops.head.Push? {
        PushOnBytes(ops.head.len, cfg);
      } else {
        PopKeeps(pkt, rule, cfg);
      }
      var r := RunOp(pkt, rule, ops.head, cfg);
      if r.Go? {
        OpsOnBytes(pkt, rule, ops.tail, r.cfg);
      }
    }
  }

  /** remaining() is exact where s assigns, pushes and selects. */
  ghost predicate StateExact(pkt: Packet, rule: PopRule, decls: seq<MetaDecl>, s: State, cfg: Config) {
    var r1 := RunExtracts(pkt, s.extracts, cfg);
    r1.Go? ==>
      && RemainingExact(r1.cfg)
      && var r2 := RunAssigns(decls, s.assigns, r1.cfg);
         r2.Go? ==>
           && OpsExact(pkt, rule, s.ops, r2.cfg)
           && (RunOps(pkt, rule, s.ops, r2.cfg).Go? ==> RemainingExact(RunOps(pkt, rule, s.ops, r2.cfg).cfg))
  }

  lemma BodyOnBytes(pkt: Packet, rule: PopRule, decls: seq<MetaDecl>, s: State, cfg: Config)
    requires WholeHeaders(s.extracts) && WholePushes(s.ops) && Sound(pkt, cfg) && OnBytes(cfg)
    ensures StateExact(pkt, rule, decls, s, cfg)
    ensures var r := RunBody(pkt, rule, decls, s, cfg); r.Go? ==> OnBytes(r.cfg) && Sound(pkt, r.cfg)
  {
    hide RemainingExact, Sound;
    ExtractsOnBytes(pkt, s.extracts, cfg);
    ExtractsKeep(pkt, s.extracts, cfg);
    var r1 := RunExtracts(pkt, s.extracts, cfg);
    if r1.Go? {
      BytesAreExact(pkt, r1.cfg);
      AssignsKeep(decls, s.assigns, r1.cfg);
      var r2 := RunAssigns(decls, s.assigns, r1.cfg);
      if r2.Go? {
        SameView(pkt, r1.cfg, r2.cfg);
        OpsOnBytes(pkt, rule, s.ops, r2.cfg);
        OpsKeep(pkt, rule, s.ops, r2.cfg);
        var r := RunOps(pkt, rule, s.ops, r2.cfg);
        if r.Go? {
          BytesAreExact(pkt, r.cfg);
        }
      }
    }
  }

  lemma SameView(pkt: Packet, c: Config, d: Config)
    requires d == c.(meta := d.meta) && OnBytes(c) && Sound(pkt, c)
    ensures OnBytes(d) && Sound(pkt, d)
  {
  }

  /** In every run of a whole-byte program every state is entered on a byte boundary, with
      whole-byte regions, and remaining() is exact at every assign, push and key. */
  lemma {:induction false} EntryOnBytes(p: Program, pkt: Packet, rule: PopRule, k: nat)
    requires WholeByteProgram(p)
    ensures var e := Entered(p, pkt, rule, k);
            e.Some? ==>
              && OnBytes(e.value.1)
              && (e.value.0 < |p.states| ==> StateExact(pkt, rule, p.metadata, p.states[e.value.0], e.value.1))
    decreases k
  {
    hide StateExact, Sound;
    EntrySound(p, pkt, rule, k);
    var now := Entered(p, pkt, rule, k);
    if k > 0 {
      EntryOnBytes(p, pkt, rule, k - 1);
      EntrySound(p, pkt, rule, k - 1);
      var e := Entered(p, pkt, rule, k - 1);
      if e.Some? && e.value.0 < |p.states| {
        BodyOnBytes(pkt, rule, p.metadata, p.states[e.value.0], e.value.1);
      }
    }
    if now.Some? && now.value.0 < |p.states| {
      BodyOnBytes(pkt, rule, p.metadata, p.states[now.value.0], now.value.1);
    }
  }

  lemma TimesEightIsWhole(e: Expr)
    ensures ExprMod8(TimesEight(e)) == Some(0)
  {
  }

  // ---- Selecting on bytes instead of bits ----

  /** More than any count of bytes of a 64-bit bit count. */
  const NO_COUNT: nat := 0x2000_0000_0000_0000

  /** The entry that a byte count matches exactly when its bit count matches e. */
  function ByteEntry(e: Entry): Entry {
    match e
    case Value(v) => if v % 8 == 0 then Value(v / 8) else Value(NO_COUNT)
    case Masked(v, m) => if BitAnd(v % 8, m % 8) == 0 then Masked(v / 8, m / 8) else Value(NO_COUNT)
    case Range(lo, hi) => if (lo + 7) / 8 <= hi / 8 then Range((lo + 7) / 8, hi / 8) else Value(NO_COUNT)
  }

  lemma ThreeHalves(x: nat)
    ensures x / 2 / 2 / 2 == x / 8
  {
  }

  lemma AndParts(a: nat, b: nat)
    ensures BitAnd(a, b) == 8 * BitAnd(a / 8, b / 8) + BitAnd(a % 8, b % 8) && BitAnd(a % 8, b % 8) < 8
  {
    assert Pow2(3) == 8;
    hide BitAnd, Pow2;
    AndLowBits(a, b, 3);
    AndHalves(a, b);
    AndHalves(a / 2, b / 2);
    AndHalves(a / 2 / 2, b / 2 / 2);
    ThreeHalves(a);
    ThreeHalves(b);
    ThreeHalves(BitAnd(a, b));
  }

  lemma SameDigits(a: nat, b: nat, low: nat)
    requires low < 8
    ensures 8 * a == 8 * b + low <==> low == 0 && a == b
  {
  }

  /** A mask sees the low three bits of a multiple of 8 as zero. */
  lemma MaskInBytes(bits: nat, v: nat, m: nat)
    requires bits % 8 == 0
    ensures BitAnd(bits, m) == BitAnd(v, m) <==> BitAnd(v % 8, m % 8) == 0 && BitAnd(bits / 8, m / 8) == BitAnd(v / 8, m / 8)
  {
    assert BitAnd(0, m % 8) == 0;
    hide BitAnd;
    AndParts(bits, m);
    AndParts(v, m);
    SameDigits(BitAnd(bits / 8, m / 8), BitAnd(v / 8, m / 8), BitAnd(v % 8, m % 8));
  }

  lemma EntryInBytes(e: Entry, bits: u64)
    requires bits % 8 == 0
    ensures Matches(ByteEntry(e), bits / 8) <==> Matches(e, bits)
  {
    hide BitAnd;
    if e.Masked? {
      MaskInBytes(bits, e.value, e.mask);
    }
  }

  function ByteKey(e: Expr): Expr {
    if e == Remaining then RemainingBytes() else e
  }

  function ByteKeys(es: List<Expr>): List<Expr> {
    match es
    case Nil => Nil
    case Cons(e, rest) => Cons(ByteKey(e), ByteKeys(rest))
  }

  function ByteEntries(keys: List<Expr>, entries: List<Entry>): List<Entry>
    decreases entries
  {
    match entries
    case Nil => Nil
    case Cons(e, rest) =>
      if keys.Nil? then entries
      else Cons(if keys.head == Remaining then ByteEntry(e) else e, ByteEntries(keys.tail, rest))
  }

  function ByteArms(keys: List<Expr>, arms: List<Arm>): List<Arm>
    decreases arms
  {
    match arms
    case Nil => Nil
    case Cons(a, rest) => Cons(Arm(ByteEntries(keys, a.entries), a.next), ByteArms(keys, rest))
  }

  /** Every key remaining() becomes its byte view, and the entries against it count bytes. */
  function ByteTransition(tr: Transition): Transition {
    match tr
    case Direct(_) => tr
    case Select(keys, arms, d) => Select(ByteKeys(keys), ByteArms(keys, arms), d)
  }

  function ByteState(s: State): State {
    s.(transition := ByteTransition(s.transition))
  }

  function ByteProgram(p: Program): Program {
    p.(states := seq(|p.states|, q requires 0 <= q < |p.states| => ByteState(p.states[q])))
  }

  /** The values of the two key lists. */
  predicate Paired(es: List<Expr>, bits: List<u64>, bytes: List<u64>)
    decreases es
  {
    match (es, bits, bytes)
    case (Nil, Nil, Nil) => true
    case (Cons(e, es'), Cons(v, vs), Cons(w, ws)) =>
      (if e == Remaining then v % 8 == 0 && w == v / 8 else w == v) && Paired(es', vs, ws)
    case _ => false
  }

  lemma {:induction false} KeysPair(es: List<Expr>, cfg: Config, rem: Option<u64>)
    requires rem.Some? ==> rem.value % 8 == 0 && Eval(RemainingBytes(), cfg.env, cfg.meta, rem) == Some(rem.value / 8)
    ensures var a, b := EvalKeys(es, cfg.env, cfg.meta, rem), EvalKeys(ByteKeys(es), cfg.env, cfg.meta, rem);
            (a.None? <==> b.None?) && (a.Some? ==> Paired(es, a.value, b.value))
    decreases es
  {
    if es.Cons? {
      KeysPair(es.tail, cfg, rem);
    }
  }

  lemma {:induction false} ArmInBytes(es: List<Expr>, entries: List<Entry>, bits: List<u64>, bytes: List<u64>)
    requires Paired(es, bits, bytes)
    ensures MatchesAll(ByteEntries(es, entries), bytes) <==> MatchesAll(entries, bits)
    decreases entries
  {
    if entries.Cons? && es.Cons? {
      if es.head == Remaining {
        EntryInBytes(entries.head, bits.head);
      }
      ArmInBytes(es.tail, entries.tail, bits.tail, bytes.tail);
    }
  }

  lemma {:induction false} ChooseInBytes(es: List<Expr>, arms: List<Arm>, d: Option<Target>, bits: List<u64>, bytes: List<u64>)
    requires Paired(es, bits, bytes)
    ensures Choose(ByteArms(es, arms), d, bytes) == Choose(arms, d, bits)
    decreases arms
  {
    if arms.Cons? {
      ArmInBytes(es, arms.head.entries, bits, bytes);
      ChooseInBytes(es, arms.tail, d, bits, bytes);
    }
  }

  lemma DecideInBytes(pkt: Packet, tr: Transition, cfg: Config)
    requires OnBytes(cfg) && Sound(pkt, cfg)
    ensures Decide(ByteTransition(tr), cfg) == Decide(tr, cfg)
  {
    if tr.Select? {
      var rem := RemainingAt(cfg.regions, cfg.pos);
      BytesAreExact(pkt, cfg);
      KeysPair(tr.keys, cfg, rem);
      var a, b := EvalKeys(tr.keys, cfg.env, cfg.meta, rem), EvalKeys(ByteKeys(tr.keys), cfg.env, cfg.meta, rem);
      if a.Some? {
        ChooseInBytes(tr.keys, tr.arms, tr.default, a.value, b.value);
      }
    }
  }

  lemma StepInBytes(p: Program, pkt: Packet, rule: PopRule, q: Name, cfg: Config)
    requires WholeByteProgram(p) && q < |p.states| && OnBytes(cfg) && Sound(pkt, cfg)
    ensures Step(ByteProgram(p), pkt, rule, q, cfg) == Step(p, pkt, rule, q, cfg)
    ensures var r := Step(p, pkt, rule, q, cfg); r.Next? ==> OnBytes(r.cfg) && Sound(pkt, r.cfg)
  {
    hide OnBytes, Sound, ByteTransition, Decide, StateExact;
    BodyOnBytes(pkt, rule, p.metadata, p.states[q], cfg);
    var r := RunBody(pkt, rule, p.metadata, p.states[q], cfg);
    assert RunBody(pkt, rule, p.metadata, ByteState(p.states[q]), cfg) == r;
    if r.Go? {
      DecideInBytes(pkt, p.states[q].transition, r.cfg);
    }
  }

  lemma {:induction false} RunInBytes(p: Program, pkt: Packet, rule: PopRule, q: Name, cfg: Config, budget: nat)
    requires WholeByteProgram(p) && OnBytes(cfg) && Sound(pkt, cfg)
    ensures RunFrom(ByteProgram(p), pkt, rule, q, cfg, budget) == RunFrom(p, pkt, rule, q, cfg, budget)
    decreases budget
  {
    hide Step, OnBytes, Sound;
    if budget > 0 && q < |p.states| {
      StepInBytes(p, pkt, rule, q, cfg);
      var r := Step(p, pkt, rule, q, cfg);
      if r.Next? {
        RunInBytes(p, pkt, rule, r.state, r.cfg, budget - 1);
      }
    }
  }

  /** Selecting on bytes: every whole-byte program and its byte twin give the same result on
      every packet, down to the recorded headers and registers. */
  lemma ByteTwinAgrees(p: Program, pkt: Packet, rule: PopRule)
    requires WholeByteProgram(p)
    ensures Parse(ByteProgram(p), pkt, rule) == Parse(p, pkt, rule)
  {
    RunInBytes(p, pkt, rule, p.start, Initial(p), p.maxDepth);
  }
}
