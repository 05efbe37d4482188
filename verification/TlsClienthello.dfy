/** The tls_clienthello description: one ClientHello in one record, with up to five nested
    regions and a loop over extensions, stepped over whole bytes. */
module TlsClienthello {
  import opened Bits
  import opened Ir
  import opened Semantics
  import opened Regions
  import opened Steps
  import opened WholeBytes

  // ---- Header types, one instance each ----

  const RECORD: Name := 0
  const HANDSHAKE: Name := 1
  const BODY_FIXED: Name := 2
  const SID_LEN: Name := 3
  const SID: Name := 4
  const CS_LEN: Name := 5
  const CS: Name := 6
  const COMP_LEN: Name := 7
  const COMP: Name := 8
  const EXT_LEN: Name := 9
  const EXT: Name := 10
  const SKIP: Name := 11
  const SNI_LIST: Name := 12
  const SNI_ENTRY: Name := 13
  const HOST: Name := 14

  function One(inst: Name, f: FieldDecl): Extract {
    Extract(inst, Cons(f, Nil), false)
  }

  function Two(inst: Name, f: FieldDecl, g: FieldDecl): Extract {
    Extract(inst, Cons(f, Cons(g, Nil)), false)
  }

  function Record(): Extract {
    Extract(RECORD, Cons(UintField(0, 1), Cons(UintField(1, 1), Cons(UintField(2, 1), Cons(UintField(3, 2), Nil)))), false)
  }

  // ---- Metadata, states, reject reasons ----

  const SEEN_SNI: Name := 0
  const CS_ODD: Name := 1

  const S_RECORD: Name := 0
  const S_RECVER: Name := 1
  const S_HS: Name := 2
  const S_FIXED: Name := 3
  const S_SID_LEN: Name := 4
  const S_SID: Name := 5
  const S_CS_LEN: Name := 6
  const S_CS_PARITY: Name := 7
  const S_CS: Name := 8
  const S_COMP_LEN: Name := 9
  const S_COMP: Name := 10
  const S_EXT_CHECK: Name := 11
  const S_EXT_LEN: Name := 12
  const S_TLV: Name := 13
  const S_EXT: Name := 14
  const S_SKIP: Name := 15
  const S_SNI: Name := 16
  const S_SNI_LIST: Name := 17
  const S_SNI_ENTRY: Name := 18
  const S_HOST: Name := 19
  const S_DONE: Name := 20
  const S_DONE_NOEXT: Name := 21

  /** Authored reasons, numbered in alphabetical order. */
  const DUPLICATE_SNI: nat := 0
  const EMPTY_CIPHER_SUITES: nat := 1
  const EMPTY_COMPRESSIONS: nat := 2
  const NOT_CLIENT_HELLO: nat := 3
  const NOT_HANDSHAKE: nat := 4
  const ODD_CIPHER_SUITES: nat := 5
  const PARTIAL_EXTENSION_HEADER: nat := 6
  const PARTIAL_EXTENSIONS_LENGTH: nat := 7
  const SESSION_ID_TOO_LONG: nat := 8
  const UNSUPPORTED_VERSION: nat := 9
  const UNSUPPORTED_NAME_TYPE: nat := 10

  // ---- The states ----

  function Reads(ex: Extract, ops: List<RegionOp>, tr: Transition): State {
    State(Cons(ex, Nil), Nil, ops, tr)
  }

  function Chooses(tr: Transition): State {
    State(Nil, Nil, Nil, tr)
  }

  function PushOf(len: Expr): List<RegionOp> {
    Cons(Push(TimesEight(len)), Nil)
  }

  function RecordState(next: Name): State {
    Reads(Record(), PushOf(Ref(RECORD, 3)), On(Ref(RECORD, 0), When(0x16, ToState(next), Nil), ToReject(NOT_HANDSHAKE)))
  }

  function RecverState(next: Name): State {
    Chooses(On(Ref(RECORD, 1), When(3, ToState(next), Nil), ToReject(UNSUPPORTED_VERSION)))
  }

  function HsState(next: Name): State {
    Reads(Two(HANDSHAKE, UintField(0, 1), UintField(1, 3)), PushOf(Ref(HANDSHAKE, 1)),
          On(Ref(HANDSHAKE, 0), When(1, ToState(next), Nil), ToReject(NOT_CLIENT_HELLO)))
  }

  function FixedState(next: Name): State {
    Reads(Two(BODY_FIXED, UintField(0, 2), RunField(1, Const(32))), Nil, Direct(ToState(next)))
  }

  function SidLenState(next: Name): State {
    Reads(One(SID_LEN, UintField(0, 1)), Nil,
          On(Ref(SID_LEN, 0), Cons(Arm(Cons(Range(0, 32), Nil), ToState(next)), Nil), ToReject(SESSION_ID_TOO_LONG)))
  }

  function RunState(inst: Name, len: Expr, next: Name): State {
    Reads(One(inst, RunField(0, len)), Nil, Direct(ToState(next)))
  }

  function CsLenState(next: Name): State {
    State(Cons(One(CS_LEN, UintField(0, 2)), Nil), Cons(Assign(CS_ODD, Bin(And, Ref(CS_LEN, 0), Const(1))), Nil), Nil,
          On(Ref(CS_LEN, 0), When(0, ToReject(EMPTY_CIPHER_SUITES), Nil), ToState(next)))
  }

  function CsParityState(next: Name): State {
    Chooses(On(Expr.Meta(CS_ODD), When(1, ToReject(ODD_CIPHER_SUITES), Nil), ToState(next)))
  }

  function CompLenState(next: Name): State {
    Reads(One(COMP_LEN, UintField(0, 1)), Nil, On(Ref(COMP_LEN, 0), When(0, ToReject(EMPTY_COMPRESSIONS), Nil), ToState(next)))
  }

  function ExtCheckState(done: Name, next: Name): State {
    Chooses(On(RemainingBytes(), When(0, ToState(done), When(1, ToReject(PARTIAL_EXTENSIONS_LENGTH), Nil)), ToState(next)))
  }

  /** A two-byte length that opens a region. */
  function BlockState(inst: Name, next: Name): State {
    Reads(One(inst, UintField(0, 2)), PushOf(Ref(inst, 0)), Direct(ToState(next)))
  }

  function TlvState(done: Name, next: Name): State {
    Chooses(On(RemainingBytes(),
               When(0, ToState(done),
               When(1, ToReject(PARTIAL_EXTENSION_HEADER),
               When(2, ToReject(PARTIAL_EXTENSION_HEADER),
               When(3, ToReject(PARTIAL_EXTENSION_HEADER), Nil)))), ToState(next)))
  }

  function ExtSelect(sni: Name, skip: Name): Transition {
    Select(Cons(Ref(EXT, 0), Cons(Expr.Meta(SEEN_SNI), Nil)),
           Cons(Arm(Cons(Value(0), Cons(Value(0), Nil)), ToState(sni)),
           Cons(Arm(Cons(Value(0), Cons(Value(1), Nil)), ToReject(DUPLICATE_SNI)), Nil)), Some(ToState(skip)))
  }

  function ExtState(sni: Name, skip: Name): State {
    Reads(Two(EXT, UintField(0, 2), UintField(1, 2)), Nil, ExtSelect(sni, skip))
  }

  function SniState(next: Name): State {
    State(Nil, Cons(Assign(SEEN_SNI, Const(1)), Nil), PushOf(Ref(EXT, 1)), Direct(ToState(next)))
  }

  function SniEntryState(next: Name): State {
    Reads(Two(SNI_ENTRY, UintField(0, 1), UintField(1, 2)), Nil,
          On(Ref(SNI_ENTRY, 0), When(0, ToState(next), Nil), ToReject(UNSUPPORTED_NAME_TYPE)))
  }

  function HostState(next: Name): State {
    Reads(One(HOST, RunField(0, Ref(SNI_ENTRY, 1))), Pops(2), Direct(ToState(next)))
  }

  function Pops(n: nat): List<RegionOp> {
    if n == 0 then Nil else Cons(Pop, Pops(n - 1))
  }

  function ClosingState(n: nat): State {
    State(Nil, Nil, Pops(n), Direct(ToAccept))
  }

  function StateOf(q: Name): State {
    match q
    case 0 => RecordState(S_RECVER)
    case 1 => RecverState(S_HS)
    case 2 => HsState(S_FIXED)
    case 3 => FixedState(S_SID_LEN)
    case 4 => SidLenState(S_SID)
    case 5 => RunState(SID, Ref(SID_LEN, 0), S_CS_LEN)
    case 6 => CsLenState(S_CS_PARITY)
    case 7 => CsParityState(S_CS)
    case 8 => RunState(CS, Ref(CS_LEN, 0), S_COMP_LEN)
    case 9 => CompLenState(S_COMP)
    case 10 => RunState(COMP, Ref(COMP_LEN, 0), S_EXT_CHECK)
    case 11 => ExtCheckState(S_DONE_NOEXT, S_EXT_LEN)
    case 12 => BlockState(EXT_LEN, S_TLV)
    case 13 => TlvState(S_DONE, S_EXT)
    case 14 => ExtState(S_SNI, S_SKIP)
    case 15 => RunState(SKIP, Ref(EXT, 1), S_TLV)
    case 16 => SniState(S_SNI_LIST)
    case 17 => BlockState(SNI_LIST, S_SNI_ENTRY)
    case 18 => SniEntryState(S_HOST)
    case 19 => HostState(S_TLV)
    case 20 => ClosingState(3)
    case _ => ClosingState(2)
  }

  /** max_depth is 96 in the repository. */
  function Description(depth: nat): Program {
    Program(seq(22, q requires 0 <= q < 22 => StateOf(q)), S_RECORD, [MetaDecl(1, 0), MetaDecl(1, 0)], depth)
  }

  /** p is the description, for any budget. */
  ghost predicate Describes(p: Program) {
    && |p.states| == 22 && p.start == S_RECORD && p.metadata == [MetaDecl(1, 0), MetaDecl(1, 0)]
    && StatesBelow(p, |p.states|)
  }

  ghost predicate StatesBelow(p: Program, n: nat)
    requires n <= |p.states|
    decreases n
  {
    n == 0 || (p.states[n - 1] == StateOf(n - 1) && StatesBelow(p, n - 1))
  }

  lemma {:induction false} StateAt(p: Program, q: Name, n: nat)
    requires q < n <= |p.states| && StatesBelow(p, n)
    ensures p.states[q] == StateOf(q)
    decreases n
  {
    if q < n - 1 {
      StateAt(p, q, n - 1);
    }
  }

  lemma {:induction false} DescriptionStates(depth: nat, n: nat)
    requires n <= 22
    ensures StatesBelow(Description(depth), n)
    decreases n
  {
    if n > 0 {
      DescriptionStates(depth, n - 1);
    }
  }

  lemma DescriptionDescribes(depth: nat)
    ensures Describes(Description(depth))
  {
    DescriptionStates(depth, 22);
  }

  // ---- Steps ----

  predicate SeenIs(cfg: Config, v: nat) {
    SEEN_SNI in cfg.meta && cfg.meta[SEEN_SNI] == v
  }

  /** It rejects for that reason at byte at. */
  predicate RejectsAt(r: StepResult, reason: Reason, at: nat) {
    r.Done? && r.result.outcome == Rejected(reason) && r.result.consumed == 8 * at
  }

  /** It rejects as the body stops. */
  predicate StopsAs(r: StepResult, f: Flow) {
    f.Stop? && r == Done(Result(Rejected(f.reason), f.consumed, f.cfg))
  }

  /** A state that reads one header. */
  lemma StateReads(p: Program, pkt: Packet, rule: PopRule, q: Name, s: State, cfg: Config)
    requires q < |p.states| && p.states[q] == s
    requires s.extracts.Cons? && s.extracts.tail.Nil? && s.assigns.Nil?
    ensures var h := Header(pkt, s.extracts.head, cfg);
            && (h.Stop? ==> StopsAs(Step(p, pkt, rule, q, cfg), h))
            && (h.Go? && s.ops.Nil? ==> Step(p, pkt, rule, q, cfg) == After(Decide(s.transition, h.cfg), h.cfg))
            && (h.Go? ==> RunsOps(p, pkt, rule, q, s, cfg, RunOps(pkt, rule, s.ops, h.cfg)))
  {
    OneExtract(pkt, rule, p.metadata, s, cfg);
  }

  ghost predicate RunsOps(p: Program, pkt: Packet, rule: PopRule, q: Name, s: State, cfg: Config, f: Flow)
    requires q < |p.states|
  {
    && (f.Stop? ==> StopsAs(Step(p, pkt, rule, q, cfg), f))
    && (f.Go? ==> Step(p, pkt, rule, q, cfg) == After(Decide(s.transition, f.cfg), f.cfg))
  }

  lemma DecideTwo(key: Expr, next: Target, refused: Target, other: Target, c: Config, k: nat)
    requires KeyIs(key, c, k)
    ensures Decide(On(key, When(0, next, When(1, refused, Nil)), other), c)
         == To(if k == 0 then next else if k == 1 then refused else other)
  {
    DecideOne(key, When(0, next, When(1, refused, Nil)), Some(other), c, k);
    ChooseWhen(0, next, When(1, refused, Nil), Some(other), k);
    ChooseWhen(1, refused, Nil, Some(other), k);
    assert Choose(Nil, Some(other), Cons(k, Nil)) == Some(other);
  }

  lemma DecideFour(key: Expr, next: Target, refused: Target, other: Target, c: Config, k: nat)
    requires KeyIs(key, c, k)
    ensures Decide(On(key, When(0, next, When(1, refused, When(2, refused, When(3, refused, Nil)))), other), c)
         == To(if k == 0 then next else if k <= 3 then refused else other)
  {
    var three := When(3, refused, Nil);
    var two := When(2, refused, three);
    DecideOne(key, When(0, next, When(1, refused, two)), Some(other), c, k);
    ChooseWhen(0, next, When(1, refused, two), Some(other), k);
    ChooseWhen(1, refused, two, Some(other), k);
    ChooseWhen(2, refused, three, Some(other), k);
    ChooseWhen(3, refused, Nil, Some(other), k);
    assert Choose(Nil, Some(other), Cons(k, Nil)) == Some(other);
  }

  lemma PushAfter(pkt: Packet, rule: PopRule, cfg: Config, e: nat, ends: seq<nat>, len: Expr, n: nat) returns (c: Config)
    requires At(pkt, cfg, e, ends) && len.Field? && Has(cfg.env, len.ref.inst, len.ref.field, n)
    requires 8 * (e + n) < TWO64
    ensures var r := RunOps(pkt, rule, PushOf(len), cfg);
            if ends == [] || e + n <= ends[|ends| - 1] then
              r == Go(c) && At(pkt, c, e, ends + [e + n])
            else Fails(r, RegionOutOfBounds, e)
    ensures c.meta == cfg.meta && c.env == cfg.env
  {
    EvalTimesEight(len, cfg.env, cfg.meta, RemainingAt(cfg.regions, cfg.pos), n);
    PushBytes(pkt, TimesEight(len), cfg, e, ends, n);
    var r := PushRegion(TimesEight(len), cfg);
    c := if r.Go? then r.cfg else cfg;
    assert RunOps(pkt, rule, Nil, c) == Go(c);
  }

  /** A state that has read its header up to byte e and opens a region of n bytes. */
  lemma ThenPushes(
    p: Program, pkt: Packet, rule: PopRule, q: Name, s: State, cfg: Config, h: Config, e: nat, ends: seq<nat>, len: Expr, n: nat)
    returns (c: Config)
    requires q < |p.states| && p.states[q] == s
    requires s.extracts.Cons? && s.extracts.tail.Nil? && s.assigns.Nil? && s.ops == PushOf(len)
    requires Header(pkt, s.extracts.head, cfg) == Go(h) && At(pkt, h, e, ends)
    requires len.Field? && Has(h.env, len.ref.inst, len.ref.field, n) && 8 * (e + n) < TWO64
    ensures if ends == [] || e + n <= ends[|ends| - 1] then
              Step(p, pkt, rule, q, cfg) == After(Decide(s.transition, c), c) && At(pkt, c, e, ends + [e + n])
            else RejectsAt(Step(p, pkt, rule, q, cfg), RegionOutOfBounds, e)
    ensures c.meta == h.meta && c.env == h.env
  {
    StateReads(p, pkt, rule, q, s, cfg);
    c := PushAfter(pkt, rule, h, e, ends, len, n);
  }

  /** A state that reads one run of n bytes and goes on. */
  lemma RunStep(
    p: Program, pkt: Packet, s: seq<byte>, rule: PopRule, q: Name, inst: Name, len: Expr, next: Name, cfg: Config,
    i: nat, ends: seq<nat>, n: nat)
    returns (c: Config)
    requires q < |p.states| && p.states[q] == RunState(inst, len, next) && At(pkt, cfg, i, ends) && |s| == |pkt| / 8
    requires len.Field? && Has(cfg.env, len.ref.inst, len.ref.field, n) && n < 0x1_0000
    ensures if Room(s, ends, i + n) then
              Step(p, pkt, rule, q, cfg) == Next(next, c) && At(pkt, c, i + n, ends) && c.meta == cfg.meta
            else RejectsAt(Step(p, pkt, rule, q, cfg), Shortage(ends, i + n), i)
  {
    EvalTimesEight(len, cfg.env, cfg.meta, None, n);
    StateReads(p, pkt, rule, q, RunState(inst, len, next), cfg);
    c := OneRun(pkt, s, One(inst, RunField(0, len)), i, n, cfg, ends);
  }

  // ---- Steps, state by state ----

  /** The record header from its third byte on. */
  lemma RecordTail(pkt: Packet, s: seq<byte>, cfg: Config) returns (c: Config, minor: u64, len: u64)
    requires Holds(pkt, s) && cfg.regions == []
    ensures var r := ReadFields(pkt, RECORD, false, Record().fields.tail.tail, 16, cfg);
            if |s| < 3 then Fails(r, OutOfBounds, 2)
            else if |s| < 5 then Fails(r, OutOfBounds, 3)
            else r == Go(c) && c.env == cfg.env[FieldRef(RECORD, 2) := Uint(minor)][FieldRef(RECORD, 3) := Uint(len)]
                 && len == U16(s, 3) && c.meta == cfg.meta && c.regions == [] && c.pos == 40
  {
    var fs := Record().fields.tail.tail;
    len := 0;
    c, minor := FixedField(pkt, s, RECORD, fs, 2, 1, cfg, []);
    if Room(s, [], 3) {
      c, len := FixedField(pkt, s, RECORD, fs.tail, 3, 2, c, []);
      c := c.(pos := 40);
      BeSmall(s, 3);
    }
  }

  /** The record header without its first byte. */
  lemma RecordRest(pkt: Packet, s: seq<byte>, cfg: Config) returns (c: Config)
    requires Holds(pkt, s) && cfg.regions == []
    ensures var r := ReadFields(pkt, RECORD, false, Record().fields.tail, 8, cfg);
            if |s| < 2 then Fails(r, OutOfBounds, 1)
            else if |s| < 5 then Fails(r, OutOfBounds, if |s| < 3 then 2 else 3)
            else
              && r == Go(c) && Has(c.env, RECORD, 1, U8(s, 1)) && Has(c.env, RECORD, 3, U16(s, 3))
              && (FieldRef(RECORD, 0) in cfg.env ==>
                    FieldRef(RECORD, 0) in c.env && c.env[FieldRef(RECORD, 0)] == cfg.env[FieldRef(RECORD, 0)])
              && c.meta == cfg.meta && c.regions == [] && c.pos == 40
  {
    var v, w;
    c, v := FixedField(pkt, s, RECORD, Record().fields.tail, 1, 1, cfg, []);
    if Room(s, [], 2) {
      c, v, w := RecordTail(pkt, s, c);
      BeSmall(s, 1);
    }
  }

  lemma RecordHeader(pkt: Packet, s: seq<byte>, cfg: Config) returns (c: Config)
    requires Holds(pkt, s) && cfg.regions == [] && cfg.pos == 0
    ensures var r := Header(pkt, Record(), cfg);
            if |s| < 5 then Fails(r, OutOfBounds, if |s| < 3 then |s| else 3)
            else
              && r == Go(c) && At(pkt, c, 5, []) && c.meta == cfg.meta
              && Has(c.env, RECORD, 0, U8(s, 0)) && Has(c.env, RECORD, 1, U8(s, 1)) && Has(c.env, RECORD, 3, U16(s, 3))
  {
    hide ReadFields, Sound;
    var v;
    c, v := FixedField(pkt, s, RECORD, Record().fields, 0, 1, BeginHeader(Record(), cfg), []);
    if Room(s, [], 1) {
      BeSmall(s, 0);
      c := RecordRest(pkt, s, c);
      if |s| >= 5 {
        NoRegions(pkt, c, 5);
      }
    }
  }

  lemma RecordStep(p: Program, pkt: Packet, s: seq<byte>, rule: PopRule, q: Name, next: Name, cfg: Config) returns (c: Config)
    requires q < |p.states| && p.states[q] == RecordState(next) && Holds(pkt, s)
    requires cfg.pos == 0 && cfg.regions == [] && SeenIs(cfg, 0)
    ensures var r := Step(p, pkt, rule, q, cfg);
            if |s| < 5 then RejectsAt(r, OutOfBounds, if |s| < 3 then |s| else 3)
            else if U8(s, 0) != 0x16 then RejectsAt(r, Authored(NOT_HANDSHAKE), 5)
            else
              && r == Next(next, c) && At(pkt, c, 5, [5 + U16(s, 3)]) && SeenIs(c, 0)
              && Has(c.env, RECORD, 1, U8(s, 1))
  {
    hide Holds, Sound, Header, Record, Step;
    var st := RecordState(next);
    c := RecordHeader(pkt, s, cfg);
    if |s| < 5 {
      StateReads(p, pkt, rule, q, st, cfg);
    } else {
      c := ThenPushes(p, pkt, rule, q, st, cfg, c, 5, [], Ref(RECORD, 3), U16(s, 3));
      DecideOn(Ref(RECORD, 0), 0x16, ToState(next), ToReject(NOT_HANDSHAKE), c, U8(s, 0));
    }
  }

  lemma RecverStep(p: Program, pkt: Packet, rule: PopRule, q: Name, next: Name, cfg: Config, v: nat)
    requires q < |p.states| && p.states[q] == RecverState(next) && Has(cfg.env, RECORD, 1, v)
    ensures var r := Step(p, pkt, rule, q, cfg);
            if v == 3 then r == Next(next, cfg)
            else r == Done(Result(Rejected(Authored(UNSUPPORTED_VERSION)), cfg.pos, cfg))
  {
    DecideOn(Ref(RECORD, 1), 3, ToState(next), ToReject(UNSUPPORTED_VERSION), cfg, v);
  }

  lemma HsStep(p: Program, pkt: Packet, s: seq<byte>, rule: PopRule, q: Name, next: Name, cfg: Config, i: nat, end: nat)
    returns (c: Config)
    requires q < |p.states| && p.states[q] == HsState(next) && Holds(pkt, s) && At(pkt, cfg, i, [end]) && i < 0x1000
    ensures var r := Step(p, pkt, rule, q, cfg);
            if !Room(s, [end], i + 4) then
              if Room(s, [end], i + 1) then RejectsAt(r, Shortage([end], i + 4), i + 1) else RejectsAt(r, Shortage([end], i + 1), i)
            else if i + 4 + U24(s, i + 1) > end then RejectsAt(r, RegionOutOfBounds, i + 4)
            else if U8(s, i) != 1 then RejectsAt(r, Authored(NOT_CLIENT_HELLO), i + 4)
            else r == Next(next, c) && At(pkt, c, i + 4, [end, i + 4 + U24(s, i + 1)]) && c.meta == cfg.meta
  {
    hide Holds, Header, Step;
    var st := HsState(next);
    c := TwoUints(pkt, s, st.extracts.head, i, 1, 3, cfg, [end]);
    if !Room(s, [end], i + 4) {
      StateReads(p, pkt, rule, q, st, cfg);
    } else {
      BeSmall(s, i);
      BeSmall(s, i + 1);
      c := ThenPushes(p, pkt, rule, q, st, cfg, c, i + 4, [end], Ref(HANDSHAKE, 1), U24(s, i + 1));
      DecideOn(Ref(HANDSHAKE, 0), 1, ToState(next), ToReject(NOT_CLIENT_HELLO), c, U8(s, i));
    }
  }

  lemma FixedStep(p: Program, pkt: Packet, s: seq<byte>, rule: PopRule, q: Name, next: Name, cfg: Config, i: nat, ends: seq<nat>)
    returns (c: Config)
    requires q < |p.states| && p.states[q] == FixedState(next) && Holds(pkt, s) && At(pkt, cfg, i, ends)
    ensures var r := Step(p, pkt, rule, q, cfg);
            if !Room(s, ends, i + 34) then
              if Room(s, ends, i + 2) then RejectsAt(r, Shortage(ends, i + 34), i + 2) else RejectsAt(r, Shortage(ends, i + 2), i)
            else r == Next(next, c) && At(pkt, c, i + 34, ends) && c.meta == cfg.meta
  {
    StateReads(p, pkt, rule, q, FixedState(next), cfg);
    c := FixedHeader(pkt, s, FixedState(next).extracts.head, cfg, i, ends);
  }

  /** Two fixed bytes and a run of 32. */
  lemma FixedHeader(pkt: Packet, s: seq<byte>, ex: Extract, cfg: Config, i: nat, ends: seq<nat>) returns (c: Config)
    requires Holds(pkt, s) && At(pkt, cfg, i, ends) && ex == FixedState(0).extracts.head
    ensures if Room(s, ends, i + 34) then
              Header(pkt, ex, cfg) == Go(c) && At(pkt, c, i + 34, ends) && c.meta == cfg.meta
            else if Room(s, ends, i + 2) then Fails(Header(pkt, ex, cfg), Shortage(ends, i + 34), i + 2)
            else Fails(Header(pkt, ex, cfg), Shortage(ends, i + 2), i)
  {
    hide ReadFields, Sound;
    var b := BeginHeader(ex, cfg);
    BeginKeeps(pkt, ex, cfg);
    FieldsKeep(pkt, BODY_FIXED, false, ex.fields, 8 * i, b);
    var v;
    c, v := FixedField(pkt, s, BODY_FIXED, ex.fields, i, 2, b, ends);
    if Room(s, ends, i + 2) {
      c := VarField(pkt, s, BODY_FIXED, ex.fields.tail, i + 2, 32, c, ends);
      NoMoreFields(pkt, BODY_FIXED, 8 * (i + 34), c);
      c := c.(pos := 8 * (i + 34));
    }
  }

  lemma BeginKeeps(pkt: Packet, ex: Extract, cfg: Config)
    requires Sound(pkt, cfg)
    ensures Sound(pkt, BeginHeader(ex, cfg)) && Within(pkt, cfg.regions, cfg.pos)
  {
  }

  lemma SidLenStep(p: Program, pkt: Packet, s: seq<byte>, rule: PopRule, q: Name, next: Name, cfg: Config, i: nat, ends: seq<nat>)
    returns (c: Config)
    requires q < |p.states| && p.states[q] == SidLenState(next) && Holds(pkt, s) && At(pkt, cfg, i, ends)
    ensures var r := Step(p, pkt, rule, q, cfg);
            if !Room(s, ends, i + 1) then RejectsAt(r, Shortage(ends, i + 1), i)
            else if U8(s, i) > 32 then RejectsAt(r, Authored(SESSION_ID_TOO_LONG), i + 1)
            else r == Next(next, c) && At(pkt, c, i + 1, ends) && c.meta == cfg.meta && Has(c.env, SID_LEN, 0, U8(s, i))
  {
    StateReads(p, pkt, rule, q, SidLenState(next), cfg);
    c := OneUint(pkt, s, One(SID_LEN, UintField(0, 1)), i, 1, cfg, ends);
    if Room(s, ends, i + 1) {
      BeSmall(s, i);
      DecideUpTo(Ref(SID_LEN, 0), 32, ToState(next), ToReject(SESSION_ID_TOO_LONG), c, U8(s, i));
    }
  }

  lemma CsLenBody(pkt: Packet, rule: PopRule, decls: seq<MetaDecl>, next: Name, cfg: Config, h: Config, n: nat) returns (c: Config)
    requires Header(pkt, One(CS_LEN, UintField(0, 2)), cfg) == Go(h) && Has(h.env, CS_LEN, 0, n)
    requires |decls| == 2 && decls[CS_ODD].bits == 1 && n < TWO64
    ensures RunBody(pkt, rule, decls, CsLenState(next), cfg) == Go(c) && c == h.(meta := h.meta[CS_ODD := n % 2])
  {
    var asgs := CsLenState(next).assigns;
    c := h.(meta := h.meta[CS_ODD := n % 2]);
    assert RunExtracts(pkt, CsLenState(next).extracts, cfg) == Go(h);
    assert RunAssigns(decls, asgs.tail, c) == Go(c);
    assert Eval(asgs.head.value, h.env, h.meta, RemainingAt(h.regions, h.pos)) == Some(n % 2);
    assert RunAssigns(decls, asgs, h) == Go(c);
  }

  lemma CsLenStep(p: Program, pkt: Packet, s: seq<byte>, rule: PopRule, q: Name, next: Name, cfg: Config, i: nat, ends: seq<nat>)
    returns (c: Config)
    requires q < |p.states| && p.states[q] == CsLenState(next) && Holds(pkt, s) && At(pkt, cfg, i, ends)
    requires |p.metadata| == 2 && p.metadata[CS_ODD].bits == 1 && SEEN_SNI in cfg.meta
    ensures var r := Step(p, pkt, rule, q, cfg);
            if !Room(s, ends, i + 2) then RejectsAt(r, Shortage(ends, i + 2), i)
            else if U16(s, i) == 0 then RejectsAt(r, Authored(EMPTY_CIPHER_SUITES), i + 2)
            else
              && r == Next(next, c) && At(pkt, c, i + 2, ends) && Has(c.env, CS_LEN, 0, U16(s, i))
              && CS_ODD in c.meta && c.meta[CS_ODD] == U16(s, i) % 2
              && SEEN_SNI in c.meta && c.meta[SEEN_SNI] == cfg.meta[SEEN_SNI]
  {
    c := OneUint(pkt, s, One(CS_LEN, UintField(0, 2)), i, 2, cfg, ends);
    if Room(s, ends, i + 2) {
      BeSmall(s, i);
      c := CsLenBody(pkt, rule, p.metadata, next, cfg, c, U16(s, i));
      DecideOn(Ref(CS_LEN, 0), 0, ToReject(EMPTY_CIPHER_SUITES), ToState(next), c, U16(s, i));
    }
  }

  lemma CsParityStep(p: Program, pkt: Packet, rule: PopRule, q: Name, next: Name, cfg: Config, odd: nat)
    requires q < |p.states| && p.states[q] == CsParityState(next) && CS_ODD in cfg.meta && cfg.meta[CS_ODD] == odd
    ensures var r := Step(p, pkt, rule, q, cfg);
            if odd == 1 then r == Done(Result(Rejected(Authored(ODD_CIPHER_SUITES)), cfg.pos, cfg)) else r == Next(next, cfg)
  {
    DecideOn(Expr.Meta(CS_ODD), 1, ToReject(ODD_CIPHER_SUITES), ToState(next), cfg, odd);
  }

  lemma CompLenStep(p: Program, pkt: Packet, s: seq<byte>, rule: PopRule, q: Name, next: Name, cfg: Config, i: nat, ends: seq<nat>)
    returns (c: Config)
    requires q < |p.states| && p.states[q] == CompLenState(next) && Holds(pkt, s) && At(pkt, cfg, i, ends)
    ensures var r := Step(p, pkt, rule, q, cfg);
            if !Room(s, ends, i + 1) then RejectsAt(r, Shortage(ends, i + 1), i)
            else if U8(s, i) == 0 then RejectsAt(r, Authored(EMPTY_COMPRESSIONS), i + 1)
            else r == Next(next, c) && At(pkt, c, i + 1, ends) && c.meta == cfg.meta && Has(c.env, COMP_LEN, 0, U8(s, i))
  {
    StateReads(p, pkt, rule, q, CompLenState(next), cfg);
    c := OneUint(pkt, s, One(COMP_LEN, UintField(0, 1)), i, 1, cfg, ends);
    if Room(s, ends, i + 1) {
      BeSmall(s, i);
      DecideOn(Ref(COMP_LEN, 0), 0, ToReject(EMPTY_COMPRESSIONS), ToState(next), c, U8(s, i));
    }
  }

  lemma ExtCheckStep(p: Program, pkt: Packet, rule: PopRule, q: Name, done: Name, next: Name, cfg: Config, i: nat, ends: seq<nat>)
    requires q < |p.states| && p.states[q] == ExtCheckState(done, next) && At(pkt, cfg, i, ends) && ends != []
    ensures var r := Step(p, pkt, rule, q, cfg);
            var left := ends[|ends| - 1] - i;
            if left == 1 then RejectsAt(r, Authored(PARTIAL_EXTENSIONS_LENGTH), i) else r == Next(if left == 0 then done else next, cfg)
  {
    EvalRemaining(pkt, cfg, i, ends);
    DecideTwo(RemainingBytes(), ToState(done), ToReject(PARTIAL_EXTENSIONS_LENGTH), ToState(next), cfg, ends[|ends| - 1] - i);
  }

  lemma TlvStep(p: Program, pkt: Packet, rule: PopRule, q: Name, done: Name, next: Name, cfg: Config, i: nat, ends: seq<nat>)
    requires q < |p.states| && p.states[q] == TlvState(done, next) && At(pkt, cfg, i, ends) && ends != []
    ensures var r := Step(p, pkt, rule, q, cfg);
            var left := ends[|ends| - 1] - i;
            if 1 <= left <= 3 then RejectsAt(r, Authored(PARTIAL_EXTENSION_HEADER), i) else r == Next(if left == 0 then done else next, cfg)
  {
    EvalRemaining(pkt, cfg, i, ends);
    DecideFour(RemainingBytes(), ToState(done), ToReject(PARTIAL_EXTENSION_HEADER), ToState(next), cfg, ends[|ends| - 1] - i);
  }

  lemma BlockStep(
    p: Program, pkt: Packet, s: seq<byte>, rule: PopRule, q: Name, inst: Name, next: Name, cfg: Config, i: nat, ends: seq<nat>)
    returns (c: Config)
    requires q < |p.states| && p.states[q] == BlockState(inst, next) && Holds(pkt, s) && At(pkt, cfg, i, ends)
    requires ends != [] && ends[|ends| - 1] < 0x10_0000
    ensures var r := Step(p, pkt, rule, q, cfg);
            if !Room(s, ends, i + 2) then RejectsAt(r, Shortage(ends, i + 2), i)
            else if i + 2 + U16(s, i) > ends[|ends| - 1] then RejectsAt(r, RegionOutOfBounds, i + 2)
            else r == Next(next, c) && At(pkt, c, i + 2, ends + [i + 2 + U16(s, i)]) && c.meta == cfg.meta
  {
    c := OneUint(pkt, s, One(inst, UintField(0, 2)), i, 2, cfg, ends);
    if !Room(s, ends, i + 2) {
      StateReads(p, pkt, rule, q, BlockState(inst, next), cfg);
    } else {
      BeSmall(s, i);
      c := ThenPushes(p, pkt, rule, q, BlockState(inst, next), cfg, c, i + 2, ends, Ref(inst, 0), U16(s, i));
    }
  }

  lemma DecideExt(sni: Name, skip: Name, c: Config, t: nat, seen: nat)
    requires Has(c.env, EXT, 0, t) && SeenIs(c, seen)
    ensures Decide(ExtSelect(sni, skip), c)
         == To(if t == 0 && seen == 0 then ToState(sni) else if t == 0 && seen == 1 then ToReject(DUPLICATE_SNI) else ToState(skip))
  {
    var tr := ExtSelect(sni, skip);
    var rem := RemainingAt(c.regions, c.pos);
    var keys: List<u64> := Cons(t, Cons(seen, Nil));
    assert EvalKeys(tr.keys.tail.tail, c.env, c.meta, rem) == Some(Nil);
    assert EvalKeys(tr.keys.tail, c.env, c.meta, rem) == Some(Cons(seen, Nil));
    assert EvalKeys(tr.keys, c.env, c.meta, rem) == Some(keys);
    ChooseExt(tr.arms, sni, tr.default, t, seen);
  }

  lemma ChooseExt(arms: List<Arm>, sni: Name, d: Option<Target>, t: u64, seen: u64)
    requires arms == Cons(Arm(Cons(Value(0), Cons(Value(0), Nil)), ToState(sni)),
                     Cons(Arm(Cons(Value(0), Cons(Value(1), Nil)), ToReject(DUPLICATE_SNI)), Nil))
    ensures Choose(arms, d, Cons(t, Cons(seen, Nil)))
         == if t == 0 && seen == 0 then Some(ToState(sni)) else if t == 0 && seen == 1 then Some(ToReject(DUPLICATE_SNI)) else d
  {
    var keys: List<u64> := Cons(t, Cons(seen, Nil));
    assert MatchesAll(Nil, Nil);
    assert MatchesAll(Cons(Value(0), Nil), keys.tail) == (seen == 0);
    assert MatchesAll(Cons(Value(1), Nil), keys.tail) == (seen == 1);
    assert Choose(Nil, d, keys) == d;
    assert Choose(arms.tail, d, keys) == if t == 0 && seen == 1 then Some(ToReject(DUPLICATE_SNI)) else d;
  }

  lemma ExtStep(
    p: Program, pkt: Packet, s: seq<byte>, rule: PopRule, q: Name, sni: Name, skip: Name, cfg: Config,
    i: nat, ends: seq<nat>, seen: nat)
    returns (c: Config)
    requires q < |p.states| && p.states[q] == ExtState(sni, skip) && Holds(pkt, s) && At(pkt, cfg, i, ends)
    requires SeenIs(cfg, seen) && seen <= 1
    ensures var r := Step(p, pkt, rule, q, cfg);
            if !Room(s, ends, i + 4) then
              if Room(s, ends, i + 2) then RejectsAt(r, Shortage(ends, i + 4), i + 2) else RejectsAt(r, Shortage(ends, i + 2), i)
            else if U16(s, i) == 0 && seen == 1 then RejectsAt(r, Authored(DUPLICATE_SNI), i + 4)
            else
              && r == Next(if U16(s, i) == 0 then sni else skip, c) && At(pkt, c, i + 4, ends)
              && c.meta == cfg.meta && Has(c.env, EXT, 1, U16(s, i + 2))
  {
    StateReads(p, pkt, rule, q, ExtState(sni, skip), cfg);
    c := TwoUints(pkt, s, Two(EXT, UintField(0, 2), UintField(1, 2)), i, 2, 2, cfg, ends);
    if Room(s, ends, i + 4) {
      BeSmall(s, i);
      BeSmall(s, i + 2);
      DecideExt(sni, skip, c, U16(s, i), seen);
    }
  }

  lemma SniStep(p: Program, pkt: Packet, rule: PopRule, q: Name, next: Name, cfg: Config, i: nat, ends: seq<nat>, n: nat)
    returns (c: Config)
    requires q < |p.states| && p.states[q] == SniState(next) && At(pkt, cfg, i, ends) && Has(cfg.env, EXT, 1, n)
    requires |p.metadata| == 2 && p.metadata[SEEN_SNI].bits == 1 && ends != [] && 8 * (i + n) < TWO64
    ensures var r := Step(p, pkt, rule, q, cfg);
            if i + n > ends[|ends| - 1] then RejectsAt(r, RegionOutOfBounds, i)
            else r == Next(next, c) && At(pkt, c, i, ends + [i + n]) && SeenIs(c, 1)
  {
    var asgs := SniState(next).assigns;
    var d := cfg.(meta := cfg.meta[SEEN_SNI := 1]);
    assert RunExtracts(pkt, Nil, cfg) == Go(cfg);
    assert RunAssigns(p.metadata, asgs.tail, d) == Go(d);
    assert RunAssigns(p.metadata, asgs, cfg) == Go(d);
    c := PushAfter(pkt, rule, d, i, ends, Ref(EXT, 1), n);
  }

  lemma SniEntryStep(p: Program, pkt: Packet, s: seq<byte>, rule: PopRule, q: Name, next: Name, cfg: Config, i: nat, ends: seq<nat>)
    returns (c: Config)
    requires q < |p.states| && p.states[q] == SniEntryState(next) && Holds(pkt, s) && At(pkt, cfg, i, ends)
    ensures var r := Step(p, pkt, rule, q, cfg);
            if !Room(s, ends, i + 3) then
              if Room(s, ends, i + 1) then RejectsAt(r, Shortage(ends, i + 3), i + 1) else RejectsAt(r, Shortage(ends, i + 1), i)
            else if U8(s, i) != 0 then RejectsAt(r, Authored(UNSUPPORTED_NAME_TYPE), i + 3)
            else r == Next(next, c) && At(pkt, c, i + 3, ends) && c.meta == cfg.meta && Has(c.env, SNI_ENTRY, 1, U16(s, i + 1))
  {
    StateReads(p, pkt, rule, q, SniEntryState(next), cfg);
    c := TwoUints(pkt, s, Two(SNI_ENTRY, UintField(0, 1), UintField(1, 2)), i, 1, 2, cfg, ends);
    if Room(s, ends, i + 3) {
      BeSmall(s, i);
      BeSmall(s, i + 1);
      DecideOn(Ref(SNI_ENTRY, 0), 0, ToState(next), ToReject(UNSUPPORTED_NAME_TYPE), c, U8(s, i));
    }
  }

  /** The top n regions all end at byte i. */
  predicate AllEnd(ends: seq<nat>, n: nat, i: nat) {
    n <= |ends| && forall k | |ends| - n <= k < |ends| :: ends[k] == i
  }

  /** The innermost end past byte i. */
  function Stuck(ends: seq<nat>, i: nat): nat {
    if ends == [] then i else if ends[|ends| - 1] != i then ends[|ends| - 1] else Stuck(ends[..|ends| - 1], i)
  }

  lemma {:induction false} RunPops(pkt: Packet, rule: PopRule, cfg: Config, i: nat, ends: seq<nat>, n: nat) returns (c: Config)
    requires At(pkt, cfg, i, ends) && n <= |ends|
    ensures var r := RunOps(pkt, rule, Pops(n), cfg);
            if AllEnd(ends, n, i) then r == Go(c) && At(pkt, c, i, ends[..|ends| - n]) && c.meta == cfg.meta
            else Fails(r, Unfinished(pkt, rule, Stuck(ends, i)), i)
    decreases n
  {
    hide At, PopRegion, Unfinished;
    c := cfg;
    if n > 0 {
      var m := |ends| - 1;
      PopBytes(pkt, rule, cfg, i, ends);
      if i == ends[m] {
        var d := PopRegion(pkt, rule, cfg).cfg;
        c := RunPops(pkt, rule, d, i, ends[..m], n - 1);
        assert ends[..m][..m - (n - 1)] == ends[..|ends| - n];
        assert AllEnd(ends, n, i) == AllEnd(ends[..m], n - 1, i);
      }
    } else {
      assert ends[..|ends|] == ends;
    }
  }

  lemma HostStep(
    p: Program, pkt: Packet, s: seq<byte>, rule: PopRule, q: Name, next: Name, cfg: Config,
    i: nat, outer: seq<nat>, e4: nat, e5: nat, n: nat)
    returns (c: Config)
    requires q < |p.states| && p.states[q] == HostState(next) && At(pkt, cfg, i, outer + [e4] + [e5]) && |s| == |pkt| / 8
    requires Has(cfg.env, SNI_ENTRY, 1, n) && n < 0x1_0000
    ensures var r := Step(p, pkt, rule, q, cfg);
            if !Room(s, [e5], i + n) then RejectsAt(r, Shortage([e5], i + n), i)
            else if i + n != e5 then RejectsAt(r, Unfinished(pkt, rule, e5), i + n)
            else if e5 != e4 then RejectsAt(r, Unfinished(pkt, rule, e4), i + n)
            else r == Next(next, c) && At(pkt, c, e4, outer) && c.meta == cfg.meta
  {
    var ends := outer + [e4] + [e5];
    assert ends[..|ends| - 2] == outer;
    assert AllEnd(ends, 2, i + n) <==> ends[|outer|] == i + n && ends[|outer| + 1] == i + n;
    EvalTimesEight(Ref(SNI_ENTRY, 1), cfg.env, cfg.meta, None, n);
    StateReads(p, pkt, rule, q, HostState(next), cfg);
    c := OneRun(pkt, s, One(HOST, RunField(0, Ref(SNI_ENTRY, 1))), i, n, cfg, ends);
    if Room(s, ends, i + n) {
      c := RunPops(pkt, rule, c, i + n, ends, 2);
    }
  }

  lemma ClosingStep(p: Program, pkt: Packet, rule: PopRule, q: Name, cfg: Config, i: nat, ends: seq<nat>)
    requires q < |p.states| && p.states[q] == ClosingState(|ends|) && At(pkt, cfg, i, ends)
    ensures var r := Step(p, pkt, rule, q, cfg);
            if AllEnd(ends, |ends|, i) then r.Done? && r.result.outcome == Accepted && r.result.consumed == 8 * i
            else RejectsAt(r, Unfinished(pkt, rule, Stuck(ends, i)), i)
  {
    var c := RunPops(pkt, rule, cfg, i, ends, |ends|);
    NoBody(pkt, rule, p.metadata, ClosingState(|ends|), cfg);
  }
}
