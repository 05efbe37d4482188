/** What the quic_initial machine answers for every packet, and the Initial packets it accepts. */
module QuicRuns {
  import opened Bits
  import opened Ir
  import opened Semantics
  import opened Regions
  import opened Steps
  import opened WholeBytes
  import opened QuicInitial

  // ---- Headers ----

  /** A fixed field of n bits, where no region is open. */
  lemma BitField(pkt: Packet, inst: Name, fs: List<FieldDecl>, cur: nat, n: nat, cfg: Config) returns (c: Config)
    requires fs.Cons? && fs.head.width == Fixed(n) && n <= 64 && cfg.regions == []
    ensures var r := ReadFields(pkt, inst, false, fs, cur, cfg);
            if cur + n <= |pkt| then
              && r == ReadFields(pkt, inst, false, fs.tail, cur + n, c)
              && c.env == cfg.env[FieldRef(inst, fs.head.name) := Uint(Wrap(Read(pkt, cur, n)))]
              && c.meta == cfg.meta && c.regions == [] && Read(pkt, cur, n) == Wrap(Read(pkt, cur, n))
            else r == Stop(OutOfBounds, cur, cfg)
  {
    FieldsCons(pkt, inst, false, fs, cur, cfg);
    c := cfg;
    if cur + n <= |pkt| {
      ReadBound(pkt, cur, n);
      Pow2Mono(n, 64);
      Pow2Small();
      c := ReadField(pkt, inst, fs.head, cur, cur, cfg).cfg;
    }
  }

  /** The first a of a + b bits are the quotient, the last b the remainder. */
  lemma HighAndLow(pkt: Packet, off: nat, a: nat, b: nat, x: nat, p: nat)
    requires off + a + b <= |pkt| && x == Read(pkt, off, a + b) && p == Pow2(b)
    ensures Read(pkt, off, a) == x / p && Read(pkt, off + a, b) == x % p
  {
    hide Pow2;
    ReadSplit(pkt, off, a, b);
    ReadBound(pkt, off + a, b);
    hide Read;
    var q, r := Read(pkt, off, a), Read(pkt, off + a, b);
    assert q * p == p * q;
    DivModUnique(x, p, q, r);
  }

  /** Parts of a byte of the packet. */
  lemma ByteParts(pkt: Packet, s: seq<byte>, i: nat)
    requires Holds(pkt, s) && i < |s|
    ensures Read(pkt, 8 * i, 1) == s[i] / 128 && Read(pkt, 8 * i + 2, 2) == (s[i] % 64) / 16
    ensures Read(pkt, 8 * i, 2) == s[i] / 64 && Read(pkt, 8 * i + 2, 6) == s[i] % 64
  {
    ViewsAt(pkt, s, |s|, i);
    Pow2Small();
    hide Read, Holds, Views, Pow2;
    HighAndLow(pkt, 8 * i, 1, 7, s[i], 128);
    HighAndLow(pkt, 8 * i, 2, 6, s[i], 64);
    HighAndLow(pkt, 8 * i + 2, 2, 4, s[i] % 64, 16);
  }

  lemma FirstRead(pkt: Packet, s: seq<byte>, i: nat, cfg: Config) returns (c: Config)
    requires Holds(pkt, s) && At(pkt, cfg, i, [])
    ensures var r := Header(pkt, Extract(FIRST, FirstFields(), false), cfg);
            if i + 1 <= |s| then
              && r == Go(c) && At(pkt, c, i + 1, []) && c.meta == cfg.meta
              && Has(c.env, FIRST, 0, s[i] / 128) && Has(c.env, FIRST, 2, (s[i] % 64) / 16)
            else r.Stop? && r.reason == OutOfBounds && r.consumed == 8 * i + FirstShort(|pkt| % 8)
  {
    hide ReadFields, At, Read, Holds;
    var ex, fs := Extract(FIRST, FirstFields(), false), FirstFields();
    NoRegions(pkt, cfg, i);
    BytesFit(pkt, s, i);
    c := BitField(pkt, FIRST, fs, 8 * i, 1, BeginHeader(ex, cfg));
    if 8 * i + 1 <= |pkt| {
      c := BitField(pkt, FIRST, fs.tail, 8 * i + 1, 1, c);
      if 8 * i + 2 <= |pkt| {
        c := TypeRead(pkt, i, c);
      }
    }
    if i + 1 <= |s| {
      ByteParts(pkt, s, i);
      NoRegions(pkt, c, i + 1);
    }
  }

  lemma BytesFit(pkt: Packet, s: seq<byte>, i: nat)
    requires Holds(pkt, s)
    ensures i + 1 <= |s| <==> 8 * i + 8 <= |pkt|
    ensures 8 * i <= |pkt| < 8 * i + 8 ==> |pkt| == 8 * i + |pkt| % 8
  {
  }

  /** The type and the protected bits of the first byte. */
  lemma TypeRead(pkt: Packet, i: nat, cfg: Config) returns (c: Config)
    requires cfg.regions == []
    ensures var r := ReadFields(pkt, FIRST, false, FirstFields().tail.tail, 8 * i + 2, cfg);
            if 8 * i + 8 <= |pkt| then
              && r == Go(c) && c.pos == 8 * (i + 1) && c.meta == cfg.meta && c.regions == []
              && Has(c.env, FIRST, 2, Read(pkt, 8 * i + 2, 2))
              && (FieldRef(FIRST, 0) in cfg.env ==>
                    FieldRef(FIRST, 0) in c.env && c.env[FieldRef(FIRST, 0)] == cfg.env[FieldRef(FIRST, 0)])
            else r.Stop? && r.reason == OutOfBounds && r.consumed == 8 * i + if 8 * i + 4 <= |pkt| then 4 else 2
  {
    hide ReadFields, Sound, Read;
    var fs := FirstFields().tail.tail;
    c := BitField(pkt, FIRST, fs, 8 * i + 2, 2, cfg);
    if 8 * i + 4 <= |pkt| {
      c := BitField(pkt, FIRST, fs.tail, 8 * i + 4, 4, c);
      if 8 * i + 8 <= |pkt| {
        NoMoreFields(pkt, FIRST, 8 * (i + 1), c);
        c := c.(pos := 8 * (i + 1));
      }
    }
  }

  lemma LeadRead(pkt: Packet, s: seq<byte>, inst: Name, i: nat, cfg: Config) returns (c: Config)
    requires Holds(pkt, s) && At(pkt, cfg, i, [])
    ensures var r := Header(pkt, Extract(inst, LeadFields(), false), cfg);
            if i + 1 <= |s| then
              && r == Go(c) && At(pkt, c, i + 1, []) && c.meta == cfg.meta
              && Has(c.env, inst, 0, s[i] / 64) && Has(c.env, inst, 1, s[i] % 64)
            else r.Stop? && Refused(r.reason, r.consumed) == LeadShort(i, |pkt| % 8)
  {
    hide ReadFields, At, Read, Holds;
    var ex, fs := Extract(inst, LeadFields(), false), LeadFields();
    NoRegions(pkt, cfg, i);
    BytesFit(pkt, s, i);
    c := BitField(pkt, inst, fs, 8 * i, 2, BeginHeader(ex, cfg));
    if 8 * i + 2 <= |pkt| {
      c := BitField(pkt, inst, fs.tail, 8 * i + 2, 6, c);
      if 8 * i + 8 <= |pkt| {
        ByteParts(pkt, s, i);
        NoMoreFields(pkt, inst, 8 * (i + 1), c);
        c := c.(pos := 8 * (i + 1));
        NoRegions(pkt, c, i + 1);
      }
    }
  }

  lemma PowerSplit(k: nat, v6: nat)
    requires k <= 56 && v6 < 64
    ensures v6 * Pow2(k) < TWO64 && Pow2(k) * 64 <= 0x4000_0000_0000_0000
  {
    Pow2Mono(k, 56);
    Pow2Add(32, 24);
    Pow2Small();
    hide Pow2;
    AtMost63(v6, Pow2(k));
  }

  /** The tier's expression evaluates to the composed value. */
  lemma ComposedIs(env: Env, meta: Meta, rem: Option<u64>, lead: Name, tail: Name, w: nat, v6: nat, t: nat)
    requires w < 4 && Has(env, lead, 1, v6) && v6 < 64 && t < Pow2(8 * TailBytes(w))
    requires w > 0 ==> Has(env, tail, 0, t)
    ensures v6 * Pow2(8 * TailBytes(w)) + t < 0x4000_0000_0000_0000
    ensures Eval(Composed(lead, tail, w), env, meta, rem) == Some(v6 * Pow2(8 * TailBytes(w)) + t)
  {
    var k := 8 * TailBytes(w);
    ShiftOr(v6, t, k);
    hide Pow2, Apply;
    if w > 0 {
      assert Eval(Const(k), env, meta, rem) == Some(k);
      assert Eval(Ref(lead, 1), env, meta, rem) == Some(v6) && Eval(Ref(tail, 0), env, meta, rem) == Some(t);
      assert Eval(Bin(Shl, Ref(lead, 1), Const(k)), env, meta, rem) == Some(Apply(Shl, v6, k));
    }
  }

  lemma ShiftOr(v6: nat, t: nat, k: nat)
    requires k <= 56 && v6 < 64 && t < Pow2(k)
    ensures v6 * Pow2(k) + t < 0x4000_0000_0000_0000
    ensures Apply(Or, Apply(Shl, v6, k), t) == v6 * Pow2(k) + t
  {
    PowerSplit(k, v6);
    Shifted(v6, k);
    OrDisjoint(v6, t, k);
    hide Pow2, BitOr, Apply;
    BelowTop(v6, t, Pow2(k));
  }

  lemma BelowTop(v6: nat, t: nat, p: nat)
    requires v6 < 64 && t < p
    ensures v6 * p + t < p * 64
  {
    AtMost63(v6, p);
  }

  lemma Shifted(v6: nat, k: nat)
    requires k < 64 && v6 * Pow2(k) < TWO64
    ensures Apply(Shl, v6, k) == v6 * Pow2(k)
  {
    hide Pow2;
    assert k % 64 == k;
  }

  lemma BodyLength(e: Expr, env: Env, meta: Meta, v: nat)
    requires Eval(e, env, meta, None) == Some(v) && v < 0x4000_0000_0000_0000
    ensures Eval(TimesEight(e), env, meta, None) == Some(8 * TokenBytes(v))
  {
  }

  // ---- Runs ----

  /** The registers hold what has been recorded so far. */
  predicate Records(meta: Meta, kind: nat, tokenLen: nat, length: nat) {
    && KIND in meta && meta[KIND] == kind && TOKEN_LEN in meta && meta[TOKEN_LEN] == tokenLen
    && LENGTH in meta && meta[LENGTH] == length
  }

  ghost predicate Says(r: Result, a: Answer) {
    match a
    case Fine(at, kind, tokenLen, length) =>
      r.outcome == Accepted && r.consumed == 8 * at && Records(r.cfg.meta, kind, tokenLen, length)
    case Refused(reason, consumed) => r.outcome == Rejected(reason) && r.consumed == consumed
  }

  /** At byte i of a packet of bytes s, with these registers. */
  ghost predicate Sees(p: Program, pkt: Packet, s: seq<byte>, c: Config, i: nat, kind: nat, tokenLen: nat) {
    p == Description(p.maxDepth) && Holds(pkt, s) && At(pkt, c, i, []) && Records(c.meta, kind, tokenLen, 0)
  }

  lemma StateIs(p: Program, q: Name)
    requires p == Description(p.maxDepth) && q < 24
    ensures |p.states| == 24 && p.states[q] == StateOf(q) && p.metadata == Registers()
  {
  }

  lemma TierStates(t: nat)
    requires t < 4
    ensures StateOf(S_TOK + t) == TokState(t) && StateOf(S_LEN + t) == LenState(t)
  {
    hide TokState, LenState, Reading, Marking, FourWays, UpTo20;
  }

  /** The tail of an integer whose lead is at byte i. */
  lemma TailRead(pkt: Packet, s: seq<byte>, inst: Name, i: nat, w: nat, cfg: Config) returns (c: Config, t: nat)
    requires Holds(pkt, s) && At(pkt, cfg, i + 1, []) && 0 < w < 4
    ensures var r := Header(pkt, Extract(inst, Cons(UintField(0, TailBytes(w)), Nil), false), cfg);
            if i + 1 + TailBytes(w) <= |s| then
              && r == Go(c) && At(pkt, c, i + 1 + TailBytes(w), []) && c.meta == cfg.meta
              && t == Be(s, i + 1, TailBytes(w)) && t < Pow2(8 * TailBytes(w)) && Has(c.env, inst, 0, t)
              && forall lead | lead != inst && FieldRef(lead, 1) in cfg.env ::
                   FieldRef(lead, 1) in c.env && c.env[FieldRef(lead, 1)] == cfg.env[FieldRef(lead, 1)]
            else r.Stop? && r.reason == OutOfBounds && r.consumed == 8 * (i + 1)
  {
    hide ReadFields, Holds, Sound;
    var m := TailBytes(w);
    var ex := Extract(inst, Cons(UintField(0, m), Nil), false);
    c := OneUint(pkt, s, ex, i + 1, m, cfg, []);
    t := 0;
    if i + 1 + m <= |s| {
      t := Be(s, i + 1, m);
      BeBound(s, i + 1, m);
    }
    forall lead | lead != inst && FieldRef(lead, 1) in cfg.env
      ensures var r := Header(pkt, ex, cfg);
              r.Go? ==> FieldRef(lead, 1) in r.cfg.env && r.cfg.env[FieldRef(lead, 1)] == cfg.env[FieldRef(lead, 1)]
    {
      OthersKept(pkt, inst, false, ex.fields, cfg.pos, BeginHeader(ex, cfg), FieldRef(lead, 1));
    }
  }

  /** A state that records a 64-bit value after at most one header. */
  lemma RecordStep(p: Program, pkt: Packet, rule: PopRule, q: Name, st: State, c: Config, h: Config, m: Name, value: Expr, v: nat)
    requires q < |p.states| && p.states[q] == st && p.metadata == Registers() && m in {TOKEN_LEN, LENGTH}
    requires st.assigns == Set(m, value) && st.ops.Nil? && st.transition.Direct? && RunExtracts(pkt, st.extracts, c) == Go(h)
    requires v < TWO64 && Eval(value, h.env, h.meta, RemainingAt(h.regions, h.pos)) == Some(v)
    ensures var d := h.(meta := h.meta[m := v]);
            Step(p, pkt, rule, q, c) == After(To(st.transition.next), d)
  {
    hide RunExtracts, Eval, Step, Truncate;
    Full(v);
    ThenAssigns(p, pkt, rule, q, st, c, h, Assign(m, value), v);
  }

  lemma TierValue(s: seq<byte>, i: nat, env: Env, meta: Meta, rem: Option<u64>, lead: Name, tail: Name, t: nat)
    requires i < |s| && i + VarintLen(s, i) <= |s| && t == Be(s, i + 1, TailBytes(s[i] / 64))
    requires Has(env, lead, 1, s[i] % 64) && (s[i] >= 64 ==> Has(env, tail, 0, t))
    ensures Varint(s, i) < 0x4000_0000_0000_0000
    ensures Eval(Composed(lead, tail, s[i] / 64), env, meta, rem) == Some(Varint(s, i))
  {
    VarintIs(s, i);
    BeBound(s, i + 1, TailBytes(s[i] / 64));
    hide Eval, Composed, Varint, Be, Pow2;
    ComposedIs(env, meta, rem, lead, tail, s[i] / 64, s[i] % 64, t);
  }

  /** What a tier reads before it records its value: nothing, or the tail. */
  lemma LenBody(pkt: Packet, s: seq<byte>, c: Config, i: nat, w: nat) returns (h: Config)
    requires Holds(pkt, s) && At(pkt, c, i + 1, []) && i < |s| && w == s[i] / 64 && Has(c.env, LEN_LEAD, 1, s[i] % 64)
    ensures var st, n := LenState(w), 1 + TailBytes(w);
            if i + n <= |s| then
              && RunExtracts(pkt, st.extracts, c) == Go(h) && At(pkt, h, i + n, []) && h.meta == c.meta
              && Eval(Composed(LEN_LEAD, LEN + w, w), h.env, h.meta, RemainingAt(h.regions, h.pos)) == Some(Varint(s, i))
            else
              && st.extracts.Cons? && Header(pkt, st.extracts.head, c).Stop?
              && Header(pkt, st.extracts.head, c).reason == OutOfBounds && Header(pkt, st.extracts.head, c).consumed == 8 * (i + 1)
  {
    h := c;
    var t := 0;
    hide Composed, Eval, Varint, Sound;
    if w > 0 {
      h, t := TailRead(pkt, s, LEN + w, i, w, c);
      SingleExtract(pkt, LenState(w).extracts, c);
    }
    hide RunExtracts, Header, LenState, Pow2;
    if i + 1 + TailBytes(w) <= |s| {
      assert w == 0 ==> Be(s, i + 1, 0) == 0;
      TierValue(s, i, h.env, h.meta, RemainingAt(h.regions, h.pos), LEN_LEAD, LEN + w, t);
    }
  }

  lemma LenShape(w: nat)
    ensures var st := LenState(w);
            st.assigns == Set(LENGTH, Composed(LEN_LEAD, LEN + w, w)) && st.ops.Nil? && st.transition == Direct(ToAccept)
            && (st.extracts.Cons? ==> st.extracts.tail.Nil?)
  {
  }

  /** A length tier, whose lead is at byte i. */
  lemma LenTierSays(p: Program, pkt: Packet, s: seq<byte>, rule: PopRule, c: Config, i: nat, kind: nat, tokenLen: nat, b: nat)
    requires Sees(p, pkt, s, c, i + 1, kind, tokenLen) && i < |s| && b > 0 && Has(c.env, LEN_LEAD, 1, s[i] % 64)
    ensures Says(RunFrom(p, pkt, rule, S_LEN + s[i] / 64, c, b), LengthAt(s, |pkt| % 8, i, kind, tokenLen))
  {
    hide RunFrom, StateOf, Description, Holds, Header, RunExtracts, Composed, Varint, Eval, Step, Sound, LenState;
    var w := s[i] / 64;
    StateIs(p, S_LEN + w);
    TierStates(w);
    Enters(p, pkt, rule, S_LEN + w, c, b);
    var h := LenBody(pkt, s, c, i, w);
    VarintFits(s, i);
    LenShape(w);
    if i + VarintLen(s, i) <= |s| {
      RecordStep(p, pkt, rule, S_LEN + w, LenState(w), c, h, LENGTH, Composed(LEN_LEAD, LEN + w, w), Varint(s, i));
    } else {
      HeaderStops(p, pkt, rule, S_LEN + w, LenState(w), c);
    }
  }

  lemma VarintFits(s: seq<byte>, i: nat)
    requires i < |s|
    ensures i + VarintLen(s, i) <= |s| ==> Varint(s, i) < 0x4000_0000_0000_0000
  {
    if i + VarintLen(s, i) <= |s| {
      VarintIs(s, i);
    }
  }

  lemma Full(v: nat)
    requires v < TWO64
    ensures Truncate(v, 64) == v
  {
    Pow2Small();
  }

  function LeadState(lead: Name, base: Name): State {
    Reading(lead, LeadFields(), Nil, FourWays(Ref(lead, 0), base))
  }

  lemma LeadStates()
    ensures StateOf(S_TOK_LEAD) == LeadState(TOK_LEAD, S_TOK) && StateOf(S_LEN_LEAD) == LeadState(LEN_LEAD, S_LEN)
  {
    hide LeadFields, FourWays;
  }

  lemma DecideFourWays(key: Expr, base: Name, c: Config, k: nat)
    requires KeyIs(key, c, k) && k < 4
    ensures Decide(FourWays(key, base), c) == To(ToState(base + k))
  {
    var d := Some(ToReject(UNREACHABLE));
    var three := When(3, ToState(base + 3), Nil);
    var two := When(2, ToState(base + 2), three);
    var one := When(1, ToState(base + 1), two);
    DecideOne(key, When(0, ToState(base), one), d, c, k);
    ChooseWhen(0, ToState(base), one, d, k);
    ChooseWhen(1, ToState(base + 1), two, d, k);
    ChooseWhen(2, ToState(base + 2), three, d, k);
    ChooseWhen(3, ToState(base + 3), Nil, d, k);
  }

  /** The lead of the payload length at byte i, then its tier. */
  lemma LenLeadSays(p: Program, pkt: Packet, s: seq<byte>, rule: PopRule, c: Config, i: nat, kind: nat, tokenLen: nat, b: nat)
    requires Sees(p, pkt, s, c, i, kind, tokenLen) && b >= 2
    ensures Says(RunFrom(p, pkt, rule, S_LEN_LEAD, c, b), LengthAt(s, |pkt| % 8, i, kind, tokenLen))
  {
    hide RunFrom, StateOf, Description, Holds, Header, Step, Sound, FourWays, LeadFields, VarintLen, Varint;
    StateIs(p, S_LEN_LEAD);
    LeadStates();
    Enters(p, pkt, rule, S_LEN_LEAD, c, b);
    var st := LeadState(LEN_LEAD, S_LEN);
    var h := LeadRead(pkt, s, LEN_LEAD, i, c);
    HeaderThenBranch(p, pkt, rule, S_LEN_LEAD, st, c);
    if i + 1 <= |s| {
      DecideFourWays(Ref(LEN_LEAD, 0), S_LEN, h, s[i] / 64);
      LenTierSays(p, pkt, s, rule, h, i, kind, tokenLen, b - 1);
    }
  }

  // ---- The token ----

  /** A token tier, whose lead is at byte i: the tail, then the token. */
  lemma TokBody(pkt: Packet, s: seq<byte>, c: Config, i: nat, w: nat) returns (h: Config)
    requires Holds(pkt, s) && At(pkt, c, i + 1, []) && i < |s| && w == s[i] / 64 && Has(c.env, TOK_LEAD, 1, s[i] % 64)
    ensures var f, n := Header(pkt, Extract(TOK + w, TokFields(w), false), c), VarintLen(s, i);
            if i + n <= |s| && i + n + TokenBytes(Varint(s, i)) <= |s| then
              && f == Go(h) && At(pkt, h, i + n + TokenBytes(Varint(s, i)), []) && h.meta == c.meta
              && Eval(Composed(TOK_LEAD, TOK + w, w), h.env, h.meta, RemainingAt(h.regions, h.pos)) == Some(Varint(s, i))
            else f.Stop? && f.reason == OutOfBounds && f.consumed == 8 * (i + if i + n <= |s| then n else 1)
  {
    hide ReadFields, At, Holds, Varint, Eval, Composed, Be, TokenBytes, TimesEight;
    var inst, fs := TOK + w, TokFields(w);
    NoRegions(pkt, c, i + 1);
    h := BeginHeader(Extract(inst, fs, false), c);
    var t: u64 := 0;
    if w == 0 {
      NoBytes(s, i + 1);
    } else {
      h, t := FixedField(pkt, s, inst, fs, i + 1, TailBytes(w), h, []);
      fs := fs.tail;
    }
    if i + VarintLen(s, i) <= |s| {
      h := TokenRead(pkt, s, h, i, w, fs, t);
      if i + VarintLen(s, i) + TokenBytes(Varint(s, i)) <= |s| {
        TierValue(s, i, h.env, h.meta, RemainingAt(h.regions, h.pos), TOK_LEAD, TOK + w, t);
      }
    }
  }

  lemma NoBytes(s: seq<byte>, i: nat)
    requires i <= |s|
    ensures Be(s, i, 0) == 0
  {
  }

  lemma TokenRead(pkt: Packet, s: seq<byte>, c: Config, i: nat, w: nat, fs: List<FieldDecl>, t: nat) returns (h: Config)
    requires Holds(pkt, s) && i < |s| && w == s[i] / 64 && i + VarintLen(s, i) <= |s| && c.regions == []
    requires fs.Cons? && fs.tail.Nil? && fs.head.width == BitLen(TimesEight(Composed(TOK_LEAD, TOK + w, w)))
    requires fs.head.name == (if w == 0 then 0 else 1)
    requires Has(c.env, TOK_LEAD, 1, s[i] % 64) && t == Be(s, i + 1, TailBytes(w)) && (w > 0 ==> Has(c.env, TOK + w, 0, t))
    ensures var f, n := ReadFields(pkt, TOK + w, false, fs, 8 * (i + VarintLen(s, i)), c), VarintLen(s, i);
            var next := i + n + TokenBytes(Varint(s, i));
            if next <= |s| then
              && f == Go(h) && At(pkt, h, next, []) && h.meta == c.meta
              && Has(h.env, TOK_LEAD, 1, s[i] % 64) && (w > 0 ==> Has(h.env, TOK + w, 0, t))
            else f.Stop? && f.reason == OutOfBounds && f.consumed == 8 * (i + n)
  {
    hide ReadFields, At, Varint, Eval, Composed, Be, TokenBytes, VarintLen, Holds, TimesEight;
    var v, n := Varint(s, i), VarintLen(s, i);
    var next := i + n + TokenBytes(v);
    TierValue(s, i, c.env, c.meta, None, TOK_LEAD, TOK + w, t);
    BodyLength(Composed(TOK_LEAD, TOK + w, w), c.env, c.meta, v);
    WholePacket(pkt, s);
    h := VarField(pkt, s, TOK + w, fs, i + n, TokenBytes(v), c, []);
    if next <= |s| {
      NoMoreFields(pkt, TOK + w, 8 * next, h);
      h := h.(pos := 8 * next);
      NoRegions(pkt, h, next);
    }
  }

  lemma WholePacket(pkt: Packet, s: seq<byte>)
    requires Holds(pkt, s)
    ensures |s| == |pkt| / 8
  {
  }

  lemma SameCursor(pkt: Packet, c: Config, i: nat, m: Meta)
    requires At(pkt, c, i, [])
    ensures At(pkt, c.(meta := m), i, [])
  {
  }

  lemma TokTierSays(p: Program, pkt: Packet, s: seq<byte>, rule: PopRule, c: Config, i: nat, b: nat)
    requires Sees(p, pkt, s, c, i + 1, 1, 0) && i < |s| && b >= 3 && Has(c.env, TOK_LEAD, 1, s[i] % 64)
    ensures Says(RunFrom(p, pkt, rule, S_TOK + s[i] / 64, c, b), TokenAt(s, |pkt| % 8, i))
  {
    hide RunFrom, StateOf, Description, Holds, Header, RunExtracts, Composed, Varint, Eval, Step, Sound, TokFields, VarintLen, TokenBytes;
    var w := s[i] / 64;
    StateIs(p, S_TOK + w);
    TierStates(w);
    Enters(p, pkt, rule, S_TOK + w, c, b);
    var h := TokBody(pkt, s, c, i, w);
    VarintFits(s, i);
    SingleExtract(pkt, TokState(w).extracts, c);
    if i + VarintLen(s, i) <= |s| && i + VarintLen(s, i) + TokenBytes(Varint(s, i)) <= |s| {
      var v := Varint(s, i);
      RecordStep(p, pkt, rule, S_TOK + w, TokState(w), c, h, TOKEN_LEN, Composed(TOK_LEAD, TOK + w, w), v);
      SameCursor(pkt, h, i + VarintLen(s, i) + TokenBytes(v), h.meta[TOKEN_LEN := v]);
      LenLeadSays(p, pkt, s, rule, h.(meta := h.meta[TOKEN_LEN := v]), i + VarintLen(s, i) + TokenBytes(v), 1, v, b - 1);
    } else {
      HeaderStops(p, pkt, rule, S_TOK + w, TokState(w), c);
    }
  }

  lemma TokLeadSays(p: Program, pkt: Packet, s: seq<byte>, rule: PopRule, c: Config, i: nat, b: nat)
    requires Sees(p, pkt, s, c, i, 1, 0) && b >= 4
    ensures Says(RunFrom(p, pkt, rule, S_TOK_LEAD, c, b), TokenAt(s, |pkt| % 8, i))
  {
    hide RunFrom, StateOf, Description, Holds, Header, Step, Sound, FourWays, LeadFields, VarintLen, Varint;
    StateIs(p, S_TOK_LEAD);
    LeadStates();
    Enters(p, pkt, rule, S_TOK_LEAD, c, b);
    var st := LeadState(TOK_LEAD, S_TOK);
    var h := LeadRead(pkt, s, TOK_LEAD, i, c);
    HeaderThenBranch(p, pkt, rule, S_TOK_LEAD, st, c);
    if i + 1 <= |s| {
      DecideFourWays(Ref(TOK_LEAD, 0), S_TOK, h, s[i] / 64);
      TokTierSays(p, pkt, s, rule, h, i, b - 1);
    }
  }

  // ---- The packet type ----

  lemma Marks(kind: nat)
    requires kind < 8
    ensures Truncate(kind, 3) == kind
  {
    assert Pow2(3) == 8;
  }

  /** A state that only records the packet kind. */
  lemma MarkStep(p: Program, pkt: Packet, s: seq<byte>, rule: PopRule, q: Name, kind: u64, next: Target, c: Config, i: nat) returns (d: Config)
    requires Sees(p, pkt, s, c, i, 0, 0) && q < 24 && StateOf(q) == Marking(kind, next) && kind < 8
    ensures Step(p, pkt, rule, q, c) == After(To(next), d) && Sees(p, pkt, s, d, i, kind, 0) && d.env == c.env
  {
    hide StateOf, Description, Holds, Step, Sound, Truncate;
    StateIs(p, q);
    Marks(kind);
    ThenAssigns(p, pkt, rule, q, Marking(kind, next), c, c, Assign(KIND, Const(kind)), kind);
    d := c.(meta := c.meta[KIND := kind]);
    SameCursor(pkt, c, i, d.meta);
  }

  lemma KindStates()
    ensures StateOf(S_KIND) == Marking(1, ToState(S_TOK_LEAD)) && StateOf(S_KIND + 1) == Marking(2, ToState(S_LEN_LEAD))
    ensures StateOf(S_KIND + 2) == Marking(3, ToState(S_LEN_LEAD)) && StateOf(S_KIND + 3) == Marking(4, ToAccept)
    ensures StateOf(S_SHORT) == Marking(7, ToAccept)
    ensures StateOf(S_NEGOTIATION) == Marking(5, ToState(S_OTHER_CIDS)) && StateOf(S_UNKNOWN) == Marking(6, ToState(S_OTHER_CIDS))
  {
    hide Marking;
  }

  function KindNext(ty: nat): Target {
    if ty == 0 then ToState(S_TOK_LEAD) else if ty == 3 then ToAccept else ToState(S_LEN_LEAD)
  }

  lemma KindSays(p: Program, pkt: Packet, s: seq<byte>, rule: PopRule, c: Config, i: nat, b: nat)
    requires Sees(p, pkt, s, c, i, 0, 0) && |s| >= 1 && b >= 5
    ensures Says(RunFrom(p, pkt, rule, S_KIND + (s[0] % 64) / 16, c, b), TypeAt(s, |pkt| % 8, i))
  {
    hide RunFrom, StateOf, Description, Holds, Step, Sound, Marking, LengthAt, TokenAt;
    var ty := (s[0] % 64) / 16;
    StateIs(p, S_KIND + ty);
    KindStates();
    Enters(p, pkt, rule, S_KIND + ty, c, b);
    var d := MarkStep(p, pkt, s, rule, S_KIND + ty, ty + 1, KindNext(ty), c, i);
    if ty == 0 {
      TokLeadSays(p, pkt, s, rule, d, i, b - 1);
    } else if ty < 3 {
      LenLeadSays(p, pkt, s, rule, d, i, ty + 1, 0, b - 1);
    }
  }

  // ---- The connection ids ----

  /** A long header of this version, before its type is known. */
  ghost predicate Long(p: Program, pkt: Packet, s: seq<byte>, c: Config, i: nat) {
    && Sees(p, pkt, s, c, i, 0, 0) && |s| >= 1 && Has(c.env, FIRST, 2, (s[0] % 64) / 16)
  }

  /** Reading a header other than the first keeps that. */
  lemma StaysLong(p: Program, pkt: Packet, s: seq<byte>, ex: Extract, c: Config, h: Config, i: nat, j: nat)
    requires Long(p, pkt, s, c, i) && ex.inst != FIRST && Header(pkt, ex, c) == Go(h) && At(pkt, h, j, []) && h.meta == c.meta
    ensures Long(p, pkt, s, h, j)
  {
    hide ReadFields, Description, Holds, At;
    OthersKept(pkt, ex.inst, ex.lookahead, ex.fields, c.pos, BeginHeader(ex, c), FieldRef(FIRST, 2));
  }

  /** One byte that counts a connection id. */
  lemma CountRead(p: Program, pkt: Packet, s: seq<byte>, inst: Name, c: Config, i: nat) returns (h: Config)
    requires Long(p, pkt, s, c, i) && inst != FIRST
    ensures var f := Header(pkt, Extract(inst, Cons(UintField(0, 1), Nil), false), c);
            if i + 1 <= |s| then f == Go(h) && Long(p, pkt, s, h, i + 1) && Has(h.env, inst, 0, s[i])
            else f.Stop? && f.reason == OutOfBounds && f.consumed == 8 * i
  {
    hide ReadFields, Description, Holds, Sound;
    var ex := Extract(inst, Cons(UintField(0, 1), Nil), false);
    h := OneUint(pkt, s, ex, i, 1, c, []);
    BeSmall(s, i);
    if i + 1 <= |s| {
      StaysLong(p, pkt, s, ex, c, h, i, i + 1);
    }
  }

  /** A connection id counted by the field from. */
  lemma CidRead(p: Program, pkt: Packet, s: seq<byte>, inst: Name, from: Name, c: Config, i: nat, n: nat) returns (h: Config)
    requires Long(p, pkt, s, c, i) && inst != FIRST && Has(c.env, from, 0, n) && n < 256
    ensures var f := Header(pkt, Extract(inst, Cons(RunField(0, Ref(from, 0)), Nil), false), c);
            if i + n <= |s| then f == Go(h) && Long(p, pkt, s, h, i + n)
            else f.Stop? && f.reason == OutOfBounds && f.consumed == 8 * i
  {
    hide ReadFields, Description, Holds, Sound;
    var ex := Extract(inst, Cons(RunField(0, Ref(from, 0)), Nil), false);
    EvalTimesEight(Ref(from, 0), c.env, c.meta, None, n);
    WholePacket(pkt, s);
    h := OneRun(pkt, s, ex, i, n, c, []);
    if i + n <= |s| {
      StaysLong(p, pkt, s, ex, c, h, i, i + n);
    }
  }

  function CountState(inst: Name, next: Name, code: nat): State {
    Reading(inst, Cons(UintField(0, 1), Nil), Nil, UpTo20(Ref(inst, 0), next, code))
  }

  function CidState(inst: Name, from: Name, tr: Transition): State {
    Reading(inst, Cons(RunField(0, Ref(from, 0)), Nil), Nil, tr)
  }

  lemma CidStates()
    ensures StateOf(S_DCID_LEN) == CountState(DCID_LEN, S_DCID, DCID_TOO_LONG)
    ensures StateOf(S_SCID_LEN) == CountState(SCID_LEN, S_SCID, SCID_TOO_LONG)
    ensures StateOf(S_DCID) == CidState(DCID, DCID_LEN, Direct(ToState(S_SCID_LEN)))
    ensures StateOf(S_SCID) == CidState(SCID, SCID_LEN, FourWays(Ref(FIRST, 2), S_KIND))
  {
    hide UpTo20, FourWays, RunField;
  }

  lemma ScidSays(p: Program, pkt: Packet, s: seq<byte>, rule: PopRule, c: Config, i: nat, n: nat, b: nat)
    requires Long(p, pkt, s, c, i) && Has(c.env, SCID_LEN, 0, n) && n < 256 && b >= 6
    ensures Says(RunFrom(p, pkt, rule, S_SCID, c, b), if i + n > |s| then Short(8 * i) else TypeAt(s, |pkt| % 8, i + n))
  {
    hide RunFrom, StateOf, Description, Holds, Header, Step, Sound, FourWays, TypeAt;
    StateIs(p, S_SCID);
    CidStates();
    Enters(p, pkt, rule, S_SCID, c, b);
    var st := CidState(SCID, SCID_LEN, FourWays(Ref(FIRST, 2), S_KIND));
    var h := CidRead(p, pkt, s, SCID, SCID_LEN, c, i, n);
    HeaderThenBranch(p, pkt, rule, S_SCID, st, c);
    if i + n <= |s| {
      DecideFourWays(Ref(FIRST, 2), S_KIND, h, (s[0] % 64) / 16);
      KindSays(p, pkt, s, rule, h, i + n, b - 1);
    }
  }

  lemma ScidLenSays(p: Program, pkt: Packet, s: seq<byte>, rule: PopRule, c: Config, i: nat, b: nat)
    requires Long(p, pkt, s, c, i) && b >= 7
    ensures Says(RunFrom(p, pkt, rule, S_SCID_LEN, c, b), ScidAt(s, |pkt| % 8, i))
  {
    hide RunFrom, StateOf, Description, Holds, Header, Step, Sound, TypeAt;
    StateIs(p, S_SCID_LEN);
    CidStates();
    Enters(p, pkt, rule, S_SCID_LEN, c, b);
    var h := CountRead(p, pkt, s, SCID_LEN, c, i);
    HeaderThenBranch(p, pkt, rule, S_SCID_LEN, CountState(SCID_LEN, S_SCID, SCID_TOO_LONG), c);
    if i + 1 <= |s| {
      DecideUpTo(Ref(SCID_LEN, 0), 20, ToState(S_SCID), ToReject(SCID_TOO_LONG), h, s[i]);
      if s[i] <= 20 {
        ScidSays(p, pkt, s, rule, h, i + 1, s[i], b - 1);
      }
    }
  }

  lemma DcidSays(p: Program, pkt: Packet, s: seq<byte>, rule: PopRule, c: Config, i: nat, n: nat, b: nat)
    requires Long(p, pkt, s, c, i) && Has(c.env, DCID_LEN, 0, n) && n < 256 && b >= 8
    ensures Says(RunFrom(p, pkt, rule, S_DCID, c, b), if i + n > |s| then Short(8 * i) else ScidAt(s, |pkt| % 8, i + n))
  {
    hide RunFrom, StateOf, Description, Holds, Header, Step, Sound, ScidAt;
    StateIs(p, S_DCID);
    CidStates();
    Enters(p, pkt, rule, S_DCID, c, b);
    var h := CidRead(p, pkt, s, DCID, DCID_LEN, c, i, n);
    HeaderThenBranch(p, pkt, rule, S_DCID, CidState(DCID, DCID_LEN, Direct(ToState(S_SCID_LEN))), c);
    if i + n <= |s| {
      ScidLenSays(p, pkt, s, rule, h, i + n, b - 1);
    }
  }

  lemma DcidLenSays(p: Program, pkt: Packet, s: seq<byte>, rule: PopRule, c: Config, i: nat, b: nat)
    requires Long(p, pkt, s, c, i) && b >= 9
    ensures Says(RunFrom(p, pkt, rule, S_DCID_LEN, c, b), DcidAt(s, |pkt| % 8, i))
  {
    hide RunFrom, StateOf, Description, Holds, Header, Step, Sound, ScidAt;
    StateIs(p, S_DCID_LEN);
    CidStates();
    Enters(p, pkt, rule, S_DCID_LEN, c, b);
    var h := CountRead(p, pkt, s, DCID_LEN, c, i);
    HeaderThenBranch(p, pkt, rule, S_DCID_LEN, CountState(DCID_LEN, S_DCID, DCID_TOO_LONG), c);
    if i + 1 <= |s| {
      DecideUpTo(Ref(DCID_LEN, 0), 20, ToState(S_DCID), ToReject(DCID_TOO_LONG), h, s[i]);
      if s[i] <= 20 {
        DcidSays(p, pkt, s, rule, h, i + 1, s[i], b - 1);
      }
    }
  }

  // ---- Other versions ----

  /** A count byte at byte i and the connection id it counts. */
  lemma CountedRun(pkt: Packet, s: seq<byte>, inst: Name, fs: List<FieldDecl>, i: nat, name: Name, cfg: Config) returns (c: Config)
    requires Holds(pkt, s) && cfg.regions == [] && fs.Cons? && fs.tail.Cons?
    requires fs.head == UintField(name, 1) && fs.tail.head == RunField(name + 1, Ref(inst, name))
    ensures var r := ReadFields(pkt, inst, false, fs, 8 * i, cfg);
            if i + 1 <= |s| && i + 1 + s[i] <= |s| then
              && r == ReadFields(pkt, inst, false, fs.tail.tail, 8 * (i + 1 + s[i]), c)
              && c.meta == cfg.meta && c.regions == []
            else r.Stop? && r.reason == OutOfBounds && r.consumed == 8 * (if i + 1 <= |s| then i + 1 else i)
  {
    hide ReadFields, Holds;
    var v;
    c, v := FixedField(pkt, s, inst, fs, i, 1, cfg, []);
    if i + 1 <= |s| {
      BeSmall(s, i);
      EvalTimesEight(Ref(inst, name), c.env, c.meta, None, s[i]);
      WholePacket(pkt, s);
      c := VarField(pkt, s, inst, fs.tail, i + 1, s[i], c, []);
    }
  }

  lemma OtherRead(pkt: Packet, s: seq<byte>, c: Config, i: nat, kind: nat) returns (h: Config)
    requires Holds(pkt, s) && At(pkt, c, i, [])
    ensures var f, a := Header(pkt, Extract(OTHER_CIDS, OtherFields(), false), c), OtherAt(s, i, kind);
            if a.Fine? then a == Fine(a.at, kind, 0, 0) && f == Go(h) && At(pkt, h, a.at, []) && h.meta == c.meta
            else f.Stop? && a == Refused(f.reason, f.consumed)
  {
    hide ReadFields, Holds, At;
    NoRegions(pkt, c, i);
    WholePacket(pkt, s);
    h := CountedRun(pkt, s, OTHER_CIDS, OtherFields(), i, 0, BeginHeader(Extract(OTHER_CIDS, OtherFields(), false), c));
    if i + 1 <= |s| && i + 1 + s[i] <= |s| {
      var j := i + 1 + s[i];
      h := CountedRun(pkt, s, OTHER_CIDS, ScidPart(), j, 2, h);
      if j + 1 <= |s| && j + 1 + s[j] <= |s| {
        NoMoreFields(pkt, OTHER_CIDS, 8 * (j + 1 + s[j]), h);
        h := h.(pos := 8 * (j + 1 + s[j]));
        NoRegions(pkt, h, j + 1 + s[j]);
      }
    }
  }

  lemma EntryStates()
    ensures StateOf(S_OTHER_CIDS) == Reading(OTHER_CIDS, OtherFields(), Nil, Direct(ToAccept))
    ensures StateOf(S_VERSION) == Reading(VERSION, Cons(UintField(0, 4), Nil), Nil, VersionSelect())
    ensures StateOf(S_FIRST) == Reading(FIRST, FirstFields(), Nil, FormSelect())
  {
    hide OtherFields, FirstFields, When;
  }

  function VersionSelect(): Transition {
    On(Ref(VERSION, 0), When(1, ToState(S_DCID_LEN), When(0, ToState(S_NEGOTIATION), Nil)), ToState(S_UNKNOWN))
  }

  function FormSelect(): Transition {
    On(Ref(FIRST, 0), When(0, ToState(S_SHORT), When(1, ToState(S_VERSION), Nil)), ToReject(UNREACHABLE))
  }

  /** A select with two exact arms. */
  lemma DecideEither(key: Expr, a: nat, first: Target, b: nat, second: Target, other: Target, c: Config, k: nat)
    requires KeyIs(key, c, k)
    ensures Decide(On(key, When(a, first, When(b, second, Nil)), other), c)
         == To(if k == a then first else if k == b then second else other)
  {
    DecideOne(key, When(a, first, When(b, second, Nil)), Some(other), c, k);
    ChooseWhen(a, first, When(b, second, Nil), Some(other), k);
    ChooseWhen(b, second, Nil, Some(other), k);
    assert Choose(Nil, Some(other), Cons(k, Nil)) == Some(other);
  }

  lemma OtherSays(p: Program, pkt: Packet, s: seq<byte>, rule: PopRule, c: Config, i: nat, kind: nat, b: nat)
    requires Sees(p, pkt, s, c, i, kind, 0) && b >= 1
    ensures Says(RunFrom(p, pkt, rule, S_OTHER_CIDS, c, b), OtherAt(s, i, kind))
  {
    hide RunFrom, StateOf, Description, Holds, Header, Step, Sound, OtherFields, OtherAt;
    StateIs(p, S_OTHER_CIDS);
    EntryStates();
    Enters(p, pkt, rule, S_OTHER_CIDS, c, b);
    var h := OtherRead(pkt, s, c, i, kind);
    HeaderThenBranch(p, pkt, rule, S_OTHER_CIDS, Reading(OTHER_CIDS, OtherFields(), Nil, Direct(ToAccept)), c);
  }

  lemma OtherVersionSays(p: Program, pkt: Packet, s: seq<byte>, rule: PopRule, c: Config, i: nat, v: nat, b: nat)
    requires Sees(p, pkt, s, c, i, 0, 0) && b >= 2
    ensures Says(RunFrom(p, pkt, rule, if v == 0 then S_NEGOTIATION else S_UNKNOWN, c, b), OtherAt(s, i, if v == 0 then 5 else 6))
  {
    hide RunFrom, StateOf, Description, Holds, Step, Sound, Marking, OtherAt;
    var q, kind: u64 := if v == 0 then S_NEGOTIATION else S_UNKNOWN, if v == 0 then 5 else 6;
    StateIs(p, q);
    KindStates();
    Enters(p, pkt, rule, q, c, b);
    var d := MarkStep(p, pkt, s, rule, q, kind, ToState(S_OTHER_CIDS), c, i);
    OtherSays(p, pkt, s, rule, d, i, kind, b - 1);
  }

  /** A long header, after its first byte. */
  function VersionAt(s: seq<byte>, odd: nat): Answer
    requires |s| >= 1
  {
    if |s| < 5 then Short(8)
    else if Be(s, 1, 4) == 1 then DcidAt(s, odd, 5)
    else OtherAt(s, 5, if Be(s, 1, 4) == 0 then 5 else 6)
  }

  lemma VersionSays(p: Program, pkt: Packet, s: seq<byte>, rule: PopRule, c: Config, b: nat)
    requires Long(p, pkt, s, c, 1) && b >= 10
    ensures Says(RunFrom(p, pkt, rule, S_VERSION, c, b), VersionAt(s, |pkt| % 8))
  {
    hide RunFrom, StateOf, Description, Holds, Header, Step, Sound, DcidAt, OtherAt, Be, ReadFields, BeginHeader, FieldVal;
    StateIs(p, S_VERSION);
    EntryStates();
    Enters(p, pkt, rule, S_VERSION, c, b);
    var ex := Extract(VERSION, Cons(UintField(0, 4), Nil), false);
    var h := OneUint(pkt, s, ex, 1, 4, c, []);
    HeaderThenBranch(p, pkt, rule, S_VERSION, Reading(VERSION, Cons(UintField(0, 4), Nil), Nil, VersionSelect()), c);
    if |s| >= 5 {
      var v := Be(s, 1, 4);
      StaysLong(p, pkt, s, ex, c, h, 1, 5);
      DecideEither(Ref(VERSION, 0), 1, ToState(S_DCID_LEN), 0, ToState(S_NEGOTIATION), ToState(S_UNKNOWN), h, v);
      if v == 1 {
        DcidLenSays(p, pkt, s, rule, h, 5, b - 1);
      } else {
        OtherVersionSays(p, pkt, s, rule, h, 5, v, b - 1);
      }
    }
  }

  lemma FirstSays(p: Program, pkt: Packet, s: seq<byte>, rule: PopRule, c: Config, b: nat)
    requires Sees(p, pkt, s, c, 0, 0, 0) && b >= 11
    ensures Says(RunFrom(p, pkt, rule, S_FIRST, c, b), Decoded(s, |pkt| % 8))
  {
    hide RunFrom, StateOf, Description, Holds, Header, Step, Sound, DcidAt, OtherAt, Be;
    StateIs(p, S_FIRST);
    EntryStates();
    KindStates();
    Enters(p, pkt, rule, S_FIRST, c, b);
    var h := FirstRead(pkt, s, 0, c);
    HeaderThenBranch(p, pkt, rule, S_FIRST, Reading(FIRST, FirstFields(), Nil, FormSelect()), c);
    if |s| >= 1 {
      DecideEither(Ref(FIRST, 0), 0, ToState(S_SHORT), 1, ToState(S_VERSION), ToReject(UNREACHABLE), h, s[0] / 128);
      if s[0] < 128 {
        StateIs(p, S_SHORT);
        Enters(p, pkt, rule, S_SHORT, h, b - 1);
        var d := MarkStep(p, pkt, s, rule, S_SHORT, 7, ToAccept, h, 1);
      } else {
        VersionSays(p, pkt, s, rule, h, b - 1);
      }
    }
  }

  lemma StartSees(p: Program, pkt: Packet)
    requires p == Description(p.maxDepth)
    ensures Sees(p, pkt, BytesOf(pkt), Initial(p), 0, 0, 0) && p.start == S_FIRST
  {
    HoldsOwn(pkt);
    NoRegions(pkt, Initial(p), 0);
    hide Holds, At, StateOf;
  }

  /** For every packet, with 11 states to enter: the machine answers what the decoding does. */
  lemma ParseIsDecoded(p: Program, pkt: Packet, rule: PopRule)
    requires p == Description(p.maxDepth) && p.maxDepth >= 11
    ensures Says(Parse(p, pkt, rule), Decoded(BytesOf(pkt), |pkt| % 8))
  {
    hide Description, Says, Decoded, RunFrom, Sees, BytesOf;
    StartSees(p, pkt);
    FirstSays(p, pkt, BytesOf(pkt), rule, Initial(p), p.maxDepth);
  }

  // ---- Initial packets ----

  /** Where the parts of an accepted Initial packet lie (section 17.2.2 of RFC 9000). */
  datatype InitialPacket = InitialPacket(dcid: nat, scid: nat, tokenAt: nat, tokenLen: nat, lengthAt: nat, length: nat, end: nat)

  /** The bytes start with this Initial packet, up to its payload length. */
  ghost predicate Starts(s: seq<byte>, x: InitialPacket) {
    && |s| > 6 && s[0] >= 128 && (s[0] % 64) / 16 == 0 && Be(s, 1, 4) == 1
    && x.dcid == s[5] <= 20 && 6 + x.dcid < |s| && x.scid == s[6 + x.dcid] <= 20
    && x.tokenAt == 7 + x.dcid + x.scid < |s| && x.tokenAt + VarintLen(s, x.tokenAt) <= |s|
    && x.tokenLen == Varint(s, x.tokenAt)
    && x.lengthAt == x.tokenAt + VarintLen(s, x.tokenAt) + TokenBytes(x.tokenLen) < |s|
    && x.end == x.lengthAt + VarintLen(s, x.lengthAt) <= |s| && x.length == Varint(s, x.lengthAt)
  }

  lemma DecodedInitial(s: seq<byte>, odd: nat, x: InitialPacket)
    requires Starts(s, x)
    ensures Decoded(s, odd) == Fine(x.end, 1, x.tokenLen, x.length)
  {
    hide Be, Varint;
  }

  lemma InitialDecoded(s: seq<byte>, odd: nat) returns (x: InitialPacket)
    requires Decoded(s, odd).Fine? && Decoded(s, odd).kind == 1
    ensures Starts(s, x)
  {
    hide Be, Varint;
    var d, e := s[5], s[6 + s[5]];
    var i := 7 + d + e;
    var j := i + VarintLen(s, i) + TokenBytes(Varint(s, i));
    x := InitialPacket(d, e, i, Varint(s, i), j, Varint(s, j), j + VarintLen(s, j));
  }

  /** Accepted with kind Initial exactly when the packet starts with one, and then the consumed
      bits and the recorded lengths are its own. */
  lemma InitialExact(p: Program, pkt: Packet, rule: PopRule)
    requires p == Description(p.maxDepth) && p.maxDepth >= 11
    ensures var r := Parse(p, pkt, rule);
            && (r.outcome == Accepted && KIND in r.cfg.meta && r.cfg.meta[KIND] == 1 <==> exists x :: Starts(BytesOf(pkt), x))
            && forall x | Starts(BytesOf(pkt), x) ::
                 r.consumed == 8 * x.end && Records(r.cfg.meta, 1, x.tokenLen, x.length)
  {
    hide Description, Parse, Decoded, Starts, BytesOf;
    var s, r := BytesOf(pkt), Parse(p, pkt, rule);
    ParseIsDecoded(p, pkt, rule);
    if r.outcome == Accepted && KIND in r.cfg.meta && r.cfg.meta[KIND] == 1 {
      var x := InitialDecoded(s, |pkt| % 8);
    }
    forall x | Starts(s, x)
      ensures Decoded(s, |pkt| % 8) == Fine(x.end, 1, x.tokenLen, x.length)
    {
      DecodedInitial(s, |pkt| % 8, x);
    }
  }

  /** The token takes as many bytes as its length says exactly when the length is below 2^61. */
  lemma TokenIsWhole(s: seq<byte>, x: InitialPacket)
    requires Starts(s, x)
    ensures x.end == 7 + x.dcid + x.scid + VarintLen(s, x.tokenAt) + x.tokenLen + VarintLen(s, x.lengthAt)
       <==> x.tokenLen < 0x2000_0000_0000_0000
  {
    hide Be, Varint, VarintLen;
  }

  /** Version 1, no connection ids, token length 2^61, then a one-byte payload length. */
  function Wrapping(): seq<byte> {
    [0xc0, 0, 0, 0, 1, 0, 0, 0xe0, 0, 0, 0, 0, 0, 0, 0, 0]
  }

  /** So sixteen bytes are accepted as an Initial packet whose token is 2^61 bytes long. */
  lemma WrappedTokenAccepted(rule: PopRule, depth: nat)
    requires depth >= 11
    ensures var r := Parse(Description(depth), PacketOf(Wrapping(), 128), rule);
            r.outcome == Accepted && r.consumed == 128 && Records(r.cfg.meta, 1, 0x2000_0000_0000_0000, 0)
  {
    hide *;
    var x := InitialPacket(0, 0, 7, 0x2000_0000_0000_0000, 15, 0, 16);
    WrappingStarts(x);
    WrappingBytes();
    SameDescription(depth);
    InitialExact(Description(depth), PacketOf(Wrapping(), 128), rule);
    var r := Parse(Description(depth), PacketOf(Wrapping(), 128), rule);
    assert r.consumed == 8 * x.end && Records(r.cfg.meta, 1, x.tokenLen, x.length);
  }

  lemma SameDescription(depth: nat)
    ensures Description(depth).maxDepth == depth
  {
  }

  lemma WrappingBytes()
    ensures |Wrapping()| == 16 && BytesOf(PacketOf(Wrapping(), 128)) == Wrapping()
  {
    BytesOfPacket(Wrapping(), 128);
    assert Wrapping()[..16] == Wrapping();
  }

  lemma WrappingStarts(x: InitialPacket)
    requires x == InitialPacket(0, 0, 7, 0x2000_0000_0000_0000, 15, 0, 16)
    ensures Starts(Wrapping(), x)
  {
    hide Be, Varint, VarintLen;
    var s := Wrapping();
    assert |s| == 16 && s[0] == 0xc0 && s[5] == 0 && s[6] == 0;
    hide Wrapping;
    WrappingToken(s);
    WrappingRest(s);
  }

  lemma WrappingRest(s: seq<byte>)
    requires s == Wrapping()
    ensures Be(s, 1, 4) == 1 && VarintLen(s, 15) == 1 && Varint(s, 15) == 0
  {
    ZeroRun(s, 1, 3);
    ZeroRun(s, 15, 1);
  }

  lemma {:induction false} ZeroRun(s: seq<byte>, i: nat, m: nat)
    requires i + m <= |s| && forall k | i <= k < i + m :: s[k] == 0
    ensures Be(s, i, m) == 0
    decreases m
  {
    if m > 0 {
      ZeroRun(s, i, m - 1);
    }
  }

  lemma WrappingToken(s: seq<byte>)
    requires s == Wrapping()
    ensures VarintLen(s, 7) == 8 && Varint(s, 7) == 0x2000_0000_0000_0000
  {
    hide Varint, Be, Pow2;
    assert s[7] == 0xe0;
    VarintIs(s, 7);
    ZeroRun(s, 8, 7);
    Pow56();
    hide Wrapping;
    assert 32 * 0x100_0000_0000_0000 == 0x2000_0000_0000_0000;
  }

  lemma Pow56()
    ensures Pow2(56) == 0x100_0000_0000_0000
  {
    Pow2Add(32, 24);
    Pow2Small();
  }
}
