/** The parse core that the code generator emits, executed for an arbitrary program.

    The generator emits one block of C per field, assignment and region operation; each
    block is a method here, and the Run methods execute the blocks in emission order inside
    the depth loop.  Cursor arithmetic is unsigned 64-bit and wraps.  The result struct's
    per-instance members are one map from fields to values; a member never stored is zero. */
module ParseCore {
  import opened Bits
  import opened Ir
  import opened Semantics
  import opened Regions
  import opened Alignment
  import opened Loads

  function PresentOf(hs: seq<ParsedHeader>): set<Name> {
    set i | 0 <= i < |hs| :: hs[i].inst
  }

  lemma PresentAddField(hs: seq<ParsedHeader>, f: ParsedField)
    ensures PresentOf(AddField(hs, f)) == PresentOf(hs)
  {
    var hs' := AddField(hs, f);
    forall i | 0 <= i < |hs|
      ensures hs'[i].inst == hs[i].inst
    {
    }
    assert |hs'| == |hs|;
    assert forall x :: x in PresentOf(hs') ==> x in PresentOf(hs);
    forall x | x in PresentOf(hs)
      ensures x in PresentOf(hs')
    {
      var i :| 0 <= i < |hs| && hs[i].inst == x;
      assert hs'[i].inst == x;
    }
  }

  lemma PresentBegin(hs: seq<ParsedHeader>, h: ParsedHeader)
    ensures PresentOf(hs + [h]) == PresentOf(hs) + {h.inst}
  {
    var hs' := hs + [h];
    forall x | x in PresentOf(hs) + {h.inst}
      ensures x in PresentOf(hs')
    {
      if x in PresentOf(hs) {
        var i :| 0 <= i < |hs| && hs[i].inst == x;
        assert hs'[i].inst == x;
      } else {
        assert hs'[|hs|].inst == x;
      }
    }
  }

  lemma MaskIsTruncate(v: u64, bits: nat)
    ensures Truncate(v, bits) == if bits < 64 then BitAnd(v, Pow2(bits) - 1) else v
  {
    if bits < 64 {
      AndLowMask(v, bits);
    } else {
      Pow2Mono(64, bits);
      Pow2Small();
      SmallMod(v, Pow2(bits));
    }
  }

  /** Widths the generator accepts: 1 to 64 bits, and nothing variable under a lookahead. */
  predicate FieldShapes(fs: List<FieldDecl>, peek: bool) {
    match fs
    case Nil => true
    case Cons(f, rest) => (if f.width.Fixed? then 1 <= f.width.bits <= 64 else !peek) && FieldShapes(rest, peek)
  }

  predicate ExtractShapes(exs: List<Extract>) {
    match exs
    case Nil => true
    case Cons(ex, rest) => FieldShapes(ex.fields, ex.lookahead) && ExtractShapes(rest)
  }

  /** A keyset test as emitted: full, lower and upper ranges drop a comparison. */
  predicate EntryTest(e: Entry, key: u64) {
    match e
    case Value(v) => key == v
    case Masked(v, m) => BitAnd(key, m) == BitAnd(v, m)
    case Range(lo, hi) =>
      if lo == 0 && hi == 0xffff_ffff_ffff_ffff then true
      else if lo == 0 then key <= hi
      else if hi == 0xffff_ffff_ffff_ffff then lo <= key
      else lo <= key && key <= hi
  }

  predicate ArmTest(es: List<Entry>, keys: List<u64>) {
    match (es, keys)
    case (Nil, Nil) => true
    case (Cons(e, es'), Cons(k, ks')) => EntryTest(e, k) && ArmTest(es', ks')
    case _ => false
  }

  lemma {:induction false} ArmTestMatches(es: List<Entry>, keys: List<u64>)
    ensures ArmTest(es, keys) == MatchesAll(es, keys)
    decreases es
  {
    if es.Cons? && keys.Cons? {
      ArmTestMatches(es.tail, keys.tail);
    }
  }

  /** The if-else chain of a select. */
  method PickArm(arms: List<Arm>, default: Option<Target>, keys: List<u64>) returns (t: Option<Target>)
    ensures t == Choose(arms, default, keys)
  {
    var rest := arms;
    while rest.Cons?
      invariant Choose(rest, default, keys) == Choose(arms, default, keys)
      decreases rest
    {
      ArmTestMatches(rest.head.entries, keys);
      if ArmTest(rest.head.entries, keys) {
        return Some(rest.head.next);
      }
      rest := rest.tail;
    }
    t := default;
  }

  /** What the generator and its analyses establish of a program before emitting it. */
  ghost predicate Emittable(p: Program, align: map<Name, Residue>, depth: map<Name, nat>, order: seq<Name>) {
    && Consistent(p, depth)
    && Discovered(p, depth, order)
    && Solution(p, align)
    && forall q | q in align :: q < |p.states| && EmittableState(p.states[q], align[q])
  }

  predicate EmittableState(s: State, entry: Residue) {
    ExtractShapes(s.extracts) && SitesAligned(s.extracts, entry, s.extracts, entry)
  }

  /** What one field leaves for the next. */
  lemma AfterField(pkt: Packet, inst: Name, f: FieldDecl, cur: nat, at: nat, cfg: Config, res: Residue)
    requires Sound(pkt, cfg) && Residual(res, cur) && ReadField(pkt, inst, f, cur, at, cfg).Go?
    ensures var c := ReadField(pkt, inst, f, cur, at, cfg).cfg;
            var next := cur + FieldLen(f.width, cfg).value;
            Sound(pkt, c) && c.pos == cfg.pos && c.regions == cfg.regions
            && Within(pkt, c.regions, next) && Residual(Advance(res, f.width), next)
  {
    WidthResidual(f.width, cfg);
    AddResidual(res, WidthMod8(f.width), cur, FieldLen(f.width, cfg).value);
  }

  /** A push compares the length with what is left, without adding first. */
  lemma PushBySubtraction(pkt: Packet, len: Expr, cfg: Config, n: u64)
    requires Sound(pkt, cfg) && Eval(len, cfg.env, cfg.meta, RemainingAt(cfg.regions, cfg.pos)) == Some(n)
    ensures cfg.regions != [] ==> cfg.pos <= cfg.regions[|cfg.regions| - 1] < TWO64
    ensures var fits := if cfg.regions != [] then n <= cfg.regions[|cfg.regions| - 1] - cfg.pos else n < TWO64 - cfg.pos;
            && PushRegion(len, cfg) == (if fits then Go(cfg.(regions := cfg.regions + [cfg.pos + n]))
                                        else Stop(RegionOutOfBounds, cfg.pos, cfg))
            && (fits ==> cfg.pos + n < TWO64)
  {
  }

  // ---- Operators ----

  /** The amount of an emitted shift: a literal below 64 as it is, anything else masked. */
  function AmountC(rhs: Expr, r: u64): nat {
    if rhs.Const? && rhs.v < 64 then r else BitAnd(r, 63)
  }

  /** A C operator on 64-bit unsigned operands, the right one the value of rhs. */
  function OpC(op: BinOp, l: u64, r: u64, rhs: Expr): u64 {
    match op
    case Add => if l + r < TWO64 then l + r else l + r - TWO64
    case Sub => if l >= r then l - r else TWO64 - (r - l)
    case Mul => l * r % TWO64
    case Shl => ShiftLeft(l, AmountC(rhs, r)) % TWO64
    case Shr => ShiftRight(l, AmountC(rhs, r))
    case And => Wrap(BitAnd(l, r))
    case Or => Wrap(BitOr(l, r))
  }

  /** The emitted operators wrap, and shift by amounts modulo 64. */
  lemma OpAgrees(op: BinOp, l: u64, r: u64, rhs: Expr)
    requires rhs.Const? ==> r == rhs.v
    ensures OpC(op, l, r, rhs) == Apply(op, l, r)
  {
    AmountIsMod(rhs, r);
    hide BitAnd, BitOr, AmountC, ShiftLeft, ShiftRight, Pow2;
    match op {
      case Add => DivModUnique(l + r, TWO64, if l + r < TWO64 then 0 else 1, OpC(op, l, r, rhs));
      case Sub => DivModUnique(l - r, TWO64, if l >= r then 0 else -1, OpC(op, l, r, rhs));
      case Shl => ShiftLeftIsProduct(l, r % 64);
      case _ =>
    }
  }

  lemma AmountIsMod(rhs: Expr, r: u64)
    requires rhs.Const? ==> r == rhs.v
    ensures AmountC(rhs, r) == r % 64
  {
    hide BitAnd, Pow2;
    Pow2Small();
    AndLowMask(r, 6);
  }


  class Core {
    const buf: seq<byte>
    const bitLen: u64
    /** log2 of PK_BUF_MASK + 1 in the eBPF variant. */
    const mask: Option<nat>
    /** The region stack has PK_RMASK + 1 entries, a power of two. */
    const rmask: nat
    const regionEnd: array<u64>
    ghost const pkt: Packet
    ghost const rbits: nat

    var off: u64
    var rsp: nat

    // The result struct.
    var outcome: nat
    var reason: Option<Reason>
    var consumed: u64
    var present: set<Name>
    var slots: Env
    var meta: Meta

    /** Holds of the constants for the whole run. */
    ghost predicate Fixed() {
      && |pkt| == bitLen && bitLen <= 0x8000_0000_0000_0000
      && HoldsBytes(buf, mask, pkt) && HoldsBits(buf, mask, pkt)
      && rmask + 1 == regionEnd.Length && rmask == Pow2(rbits) - 1
    }

    /** The C state stands for cfg, with machine cursor at. */
    ghost predicate Mirrors(cfg: Config, at: nat)
      reads this, regionEnd
    {
      && off == at && rsp <= regionEnd.Length && regionEnd[..rsp] == cfg.regions
      && slots == cfg.env && meta == cfg.meta && present == PresentOf(cfg.headers)
    }

    /** The struct reports the reject f. */
    ghost predicate Reports(f: Flow)
      reads this
    {
      && f.Stop? && outcome == 1 && reason == Some(f.reason) && consumed == f.consumed
      && slots == f.cfg.env && meta == f.cfg.meta && present == PresentOf(f.cfg.headers)
    }

    constructor (buf: seq<byte>, bitLen: u64, mask: Option<nat>, rbits: nat)
      requires bitLen <= 8 * |buf| && bitLen <= 0x8000_0000_0000_0000 && InContract(bitLen, mask)
      ensures Fixed() && this.buf == buf && pkt == PacketOf(buf, bitLen) && this.rbits == rbits
      ensures fresh(regionEnd) && off == 0 && rsp == 0 && slots == map[] && meta == map[] && present == {}
    {
      this.buf, this.bitLen, this.mask := buf, bitLen, mask;
      pkt := PacketOf(buf, bitLen);
      this.rbits := rbits;
      rmask := Pow2(rbits) - 1;
      regionEnd := new u64[Pow2(rbits)](_ => 0);
      off, rsp := 0, 0;
      outcome, reason, consumed, present, slots, meta := 0, None, 0, {}, map[], map[];
      new;
      BufferHolds(buf, bitLen, mask);
    }

    /** A region-stack index as emitted: masked. */
    function Slot(i: nat): nat {
      BitAnd(i, rmask)
    }

    lemma SlotIsExact(i: nat)
      requires Fixed() && i <= rmask
      ensures Slot(i) == i
    {
      AndLowMask(i, rbits);
      SmallMod(i, Pow2(rbits));
    }

    method Reject(r: Reason)
      modifies `outcome, `reason, `consumed
      ensures outcome == 1 && reason == Some(r) && consumed == off
    {
      outcome, reason, consumed := 1, Some(r), off;
    }

    /** End of the innermost region, through the masked index. */
    method Top() returns (end: u64)
      requires Fixed() && 0 < rsp <= regionEnd.Length
      ensures end == regionEnd[rsp - 1]
    {
      SlotIsExact(rsp - 1);
      end := regionEnd[Slot(rsp - 1)];
    }

    /** Guards of a read of len bits at cur; both compare without going past 2^64. */
    method InBounds(cur: u64, len: nat, ghost cfg: Config, ghost at: nat) returns (ok: bool)
      requires Fixed() && Mirrors(cfg, at) && Within(pkt, cfg.regions, cur) && len <= 64
      modifies `outcome, `reason, `consumed
      ensures ok <==> !CrossesRegion(cfg.regions, cur + len) && cur + len <= |pkt|
      ensures !ok ==> outcome == 1 && consumed == at
                      && reason == Some(if CrossesRegion(cfg.regions, cur + len) then OutOfRegionBounds else OutOfBounds)
    {
      if rsp > 0 {
        var top := Top();
        if Wrap(cur + len) > top {
          Reject(OutOfRegionBounds);
          return false;
        }
      }
      if Wrap(cur + len) > bitLen {
        Reject(OutOfBounds);
        return false;
      }
      ok := true;
    }

    /** The load and the cast of an n-bit field. */
    method Load(n: nat, byteLoad: bool, cur: u64) returns (v: u64)
      requires Fixed() && cur + n <= |pkt| && n <= 64
      requires byteLoad ==> cur % 8 == 0 && n % 8 == 0
      ensures v == Read(pkt, cur, n)
    {
      hide Narrow, LoadBytes, Read, Pow2;
      ReadBound(pkt, cur, n);
      NarrowKeeps(Read(pkt, cur, n), n);
      if byteLoad {
        LoadIsRead(buf, mask, pkt, cur, n, cur / 8, n / 8);
        v := Loaded(buf, mask, cur, n);
      } else {
        var raw := ReadBits(buf, mask, cur, n, pkt);
        v := Narrow(raw, n);
      }
    }

    /** One fixed-width field: guards, load, store, advance. */
    method FixedField(inst: Name, name: Name, n: nat, byteLoad: bool, peek: bool, cur: u64, ghost cfg: Config, ghost at: nat)
      returns (ok: bool, next: u64)
      requires Fixed() && Mirrors(cfg, at) && Within(pkt, cfg.regions, cur) && n <= 64
      requires byteLoad ==> cur % 8 == 0 && n % 8 == 0
      requires !peek ==> at == cur
      modifies `outcome, `reason, `consumed, `slots, `off
      ensures var f := ReadField(pkt, inst, FieldDecl(name, Width.Fixed(n)), cur, at, cfg);
              && (ok <==> f.Go?)
              && (ok ==> next == cur + n && Mirrors(f.cfg, if peek then at else next))
              && (!ok ==> Reports(f))
    {
      next := cur;
      ok := InBounds(cur, n, cfg, at);
      if ok {
        var v := Load(n, byteLoad, cur);
        PresentAddField(cfg.headers, ParsedField(name, cur, n, FieldValue.Uint(v)));
        slots := slots[FieldRef(inst, name) := FieldValue.Uint(v)];
        next := cur + n;
        if !peek {
          off := next;
        }
      }
    }

    /** An emitted expression.  Struct members never stored read as zero; a shift amount is
        masked unless it is a literal below 64. */
    function ExprC(e: Expr): u64
      requires rmask + 1 == regionEnd.Length
      reads this, regionEnd
    {
      match e
      case Const(v) => v
      case Field(r) => if r in slots && slots[r].Uint? then slots[r].v else 0
      case Meta(m) => if m in meta then meta[m] else 0
      case Remaining => Wrap(regionEnd[Slot((rsp + 0xffff_ffff) % 0x1_0000_0000)] - off)
      case Bin(op, l, r) => OpC(op, ExprC(l), ExprC(r), r)
    }

    lemma {:induction false} ExprAgrees(e: Expr, cfg: Config, at: nat, rem: Option<u64>)
      requires Fixed() && Mirrors(cfg, at) && Sound(pkt, cfg) && rsp <= 0xffff_ffff
      requires rem.Some? ==> at == cfg.pos && rem == RemainingAt(cfg.regions, cfg.pos)
      requires Eval(e, cfg.env, cfg.meta, rem).Some?
      ensures ExprC(e) == Eval(e, cfg.env, cfg.meta, rem).value
      decreases e
    {
      match e
      case Bin(op, l, r) =>
        hide OpC, Apply;
        ExprAgrees(l, cfg, at, rem);
        ExprAgrees(r, cfg, at, rem);
        OpAgrees(op, ExprC(l), ExprC(r), r);
      case Remaining =>
        DivModUnique(rsp + 0xffff_ffff, 0x1_0000_0000, 1, rsp - 1);
        SlotIsExact(rsp - 1);
      case _ =>
    }

    /** One variable-length field: length, guards by subtraction, store, advance. */
    method VarField(inst: Name, name: Name, len: Expr, ghost cfg: Config)
      returns (ok: bool)
      requires Fixed() && Mirrors(cfg, off) && Sound(pkt, cfg) && Within(pkt, cfg.regions, off) && rsp <= 0xffff_ffff
      requires Eval(len, cfg.env, cfg.meta, None).Some?
      modifies `outcome, `reason, `consumed, `slots, `off
      ensures var f := ReadField(pkt, inst, FieldDecl(name, BitLen(len)), old(off), old(off), cfg);
              && (ok <==> f.Go?)
              && (ok ==> off == old(off) + Eval(len, cfg.env, cfg.meta, None).value && Mirrors(f.cfg, off))
              && (!ok ==> Reports(f))
    {
      hide ExprC, Eval, BitAnd, Pow2;
      var vlen := ExprC(len);
      ExprAgrees(len, cfg, off, None);
      if rsp > 0 {
        var top := Top();
        if vlen > Wrap(top - off) {
          Reject(OutOfRegionBounds);
          return false;
        }
      }
      if vlen > Wrap(bitLen - off) {
        Reject(OutOfBounds);
        return false;
      }
      PresentAddField(cfg.headers, ParsedField(name, off, vlen, FieldValue.Run(off, vlen)));
      slots := slots[FieldRef(inst, name) := FieldValue.Run(off, vlen)];
      off := Wrap(off + vlen);
      ok := true;
    }

    method Assign(m: Name, bits: nat, value: Expr)
      requires Fixed()
      modifies `meta
      ensures meta == old(meta)[m := Truncate(old(ExprC(value)), bits)]
    {
      var v := ExprC(value);
      MaskIsTruncate(v, bits);
      meta := meta[m := if bits < 64 then BitAnd(v, Pow2(bits) - 1) else v];
    }

    method Push(len: Expr, ghost cfg: Config) returns (ok: bool)
      requires Fixed() && Mirrors(cfg, cfg.pos) && Sound(pkt, cfg) && rsp <= 0xffff_ffff
      requires Eval(len, cfg.env, cfg.meta, RemainingAt(cfg.regions, cfg.pos)).Some?
      modifies `outcome, `reason, `consumed, `rsp, regionEnd
      ensures var f := PushRegion(len, cfg);
              && (ok <==> f.Go? && old(rsp) <= rmask) && (ok ==> Mirrors(f.cfg, f.cfg.pos))
              && (f.Stop? ==> Reports(f))
              && (f.Go? && !ok ==> Reports(Stop(RegionOutOfBounds, cfg.pos, cfg)))
    {
      hide BitAnd, Pow2, Eval, PushRegion, Sound, ExprC, RemainingAt;
      var rlen := ExprC(len);
      ExprAgrees(len, cfg, off, RemainingAt(cfg.regions, cfg.pos));
      PushBySubtraction(pkt, len, cfg, rlen);
      if rsp > 0 {
        var top := Top();
        if rlen > Wrap(top - off) {
          Reject(RegionOutOfBounds);
          return false;
        }
      } else if rlen > 0xffff_ffff_ffff_ffff - off {
        Reject(RegionOutOfBounds);
        return false;
      }
      if rsp > rmask {
        Reject(RegionOutOfBounds);
        return false;
      }
      SlotIsExact(rsp);
      regionEnd[Slot(rsp)] := Wrap(off + rlen);
      rsp := rsp + 1;
      ok := true;
      assert regionEnd[..rsp] == cfg.regions + [off + rlen];
    }

    method Pop(ghost cfg: Config) returns (ok: bool)
      requires Fixed() && Mirrors(cfg, cfg.pos)
      modifies `outcome, `reason, `consumed, `rsp
      ensures var f := PopRegion(pkt, AlwaysStructural, cfg);
              && (ok <==> f.Go?) && (ok ==> Mirrors(f.cfg, f.cfg.pos))
              && (f.Stop? ==> Reports(f))
              && (f.Fault? ==> Reports(Stop(RegionNotExhausted, cfg.pos, cfg)))
    {
      if rsp == 0 {
        Reject(RegionNotExhausted);
        return false;
      }
      rsp := rsp - 1;
      SlotIsExact(rsp);
      if off < regionEnd[Slot(rsp)] {
        Reject(RegionNotExhausted);
        return false;
      }
      ok := true;
      assert regionEnd[..rsp] == cfg.regions[..|cfg.regions| - 1];
    }

    // ---- The blocks in emission order ----

    method OneField(inst: Name, d: FieldDecl, byteLoad: bool, peek: bool, cur: u64, ghost cfg: Config, ghost at: nat)
      returns (ok: bool, next: u64)
      requires Fixed() && Mirrors(cfg, at) && at == (if peek then cfg.pos else cur) && rsp <= 0xffff_ffff
      requires Sound(pkt, cfg) && Within(pkt, cfg.regions, cur) && FieldShapes(Cons(d, Nil), peek)
      requires byteLoad ==> d.width.Fixed? && cur % 8 == 0 && d.width.bits % 8 == 0
      requires FieldLen(d.width, cfg).Some?
      modifies `outcome, `reason, `consumed, `slots, `off
      ensures var f := ReadField(pkt, inst, d, cur, at, cfg);
              && (ok <==> f.Go?)
              && (ok ==> next == cur + FieldLen(d.width, cfg).value && Mirrors(f.cfg, if peek then at else next))
              && (!ok ==> Reports(f))
    {
      if d.width.Fixed? {
        ok, next := FixedField(inst, d.name, d.width.bits, byteLoad, peek, cur, cfg, at);
      } else {
        ok := VarField(inst, d.name, d.width.len, cfg);
        next := off;
      }
    }

    /** What the blocks of a header's fields rely on. */
    ghost predicate Readable(
      all: List<Extract>, entry: Residue, inst: Name, peek: bool, fs: List<FieldDecl>, cur: nat, cfg: Config, res: Residue)
    {
      && Sound(pkt, cfg) && Within(pkt, cfg.regions, cur) && FieldShapes(fs, peek)
      && Residual(res, cur) && FieldSitesAligned(all, entry, inst, fs, res)
      && !ReadFields(pkt, inst, peek, fs, cur, cfg).Fault?
    }

    /** The first of several fields. */
    lemma FirstField(
      all: List<Extract>, entry: Residue, inst: Name, peek: bool, fs: List<FieldDecl>, cur: nat, cfg: Config, res: Residue)
      requires Readable(all, entry, inst, peek, fs, cur, cfg, res) && fs.Cons?
      ensures Sound(pkt, cfg) && Within(pkt, cfg.regions, cur) && FieldShapes(Cons(fs.head, Nil), peek)
      ensures FieldLen(fs.head.width, cfg).Some?
      ensures fs.head.width.Fixed? && ByteLoaded(all, entry, inst, fs.head.name, fs.head.width.bits) ==>
                cur % 8 == 0 && fs.head.width.bits % 8 == 0
      ensures var f := ReadField(pkt, inst, fs.head, cur, if peek then cfg.pos else cur, cfg);
              var next := cur + FieldLen(fs.head.width, cfg).value;
              if f.Go? then
                && ReadFields(pkt, inst, peek, fs, cur, cfg) == ReadFields(pkt, inst, peek, fs.tail, next, f.cfg)
                && f.cfg.pos == cfg.pos && f.cfg.regions == cfg.regions
                && Readable(all, entry, inst, peek, fs.tail, next, f.cfg, Advance(res, fs.head.width))
              else ReadFields(pkt, inst, peek, fs, cur, cfg) == f
    {
      var at := if peek then cfg.pos else cur;
      FieldsCons(pkt, inst, peek, fs, cur, cfg);
      if ReadField(pkt, inst, fs.head, cur, at, cfg).Go? {
        AfterField(pkt, inst, fs.head, cur, at, cfg, res);
      }
    }

    lemma NoFields(inst: Name, peek: bool, cur: nat, cfg: Config)
      ensures ReadFields(pkt, inst, peek, Nil, cur, cfg) == Go(if peek then cfg else cfg.(pos := cur))
    {
    }

    /** The blocks of one header's fields.  all and entry are what the generator looks a
        field's alignment up in; res is the residue the cursor really has. */
    method RunFields(
      all: List<Extract>, entry: Residue, inst: Name, peek: bool, fs: List<FieldDecl>, cur: u64,
      ghost cfg: Config, ghost res: Residue)
      returns (ok: bool)
      requires Fixed() && Mirrors(cfg, if peek then cfg.pos else cur) && rsp <= 0xffff_ffff
      requires Readable(all, entry, inst, peek, fs, cur, cfg, res)
      modifies `outcome, `reason, `consumed, `slots, `off
      ensures var f := ReadFields(pkt, inst, peek, fs, cur, cfg);
              && (ok <==> f.Go?) && (ok ==> Mirrors(f.cfg, f.cfg.pos)) && (!ok ==> Reports(f))
      decreases fs
    {
      hide ReadFields, ReadField, Sound, Within, FieldShapes, Readable, Advance, ByteLoaded, FieldLen;
      if fs.Nil? {
        NoFields(inst, peek, cur, cfg);
        return true;
      }
      var d := fs.head;
      FirstField(all, entry, inst, peek, fs, cur, cfg, res);
      ghost var at := if peek then cfg.pos else cur;
      ghost var f := ReadField(pkt, inst, d, cur, at, cfg);
      var next;
      ok, next := OneField(inst, d, d.width.Fixed? && ByteLoaded(all, entry, inst, d.name, d.width.bits), peek, cur, cfg, at);
      if ok {
        ok := RunFields(all, entry, inst, peek, fs.tail, next, f.cfg, Advance(res, d.width));
      }
    }

    method RunExtracts(
      all: List<Extract>, entry: Residue, exs: List<Extract>, ghost cfg: Config, ghost res: Residue)
      returns (ok: bool)
      requires Fixed() && Mirrors(cfg, cfg.pos) && rsp <= 0xffff_ffff && Sound(pkt, cfg) && ExtractShapes(exs)
      requires Residual(res, cfg.pos) && SitesAligned(all, entry, exs, res)
      requires !Semantics.RunExtracts(pkt, exs, cfg).Fault?
      modifies `outcome, `reason, `consumed, `slots, `off, `present
      ensures var f := Semantics.RunExtracts(pkt, exs, cfg);
              && (ok <==> f.Go?) && (ok ==> Mirrors(f.cfg, f.cfg.pos)) && (!ok ==> Reports(f))
      decreases exs
    {
      if exs.Nil? {
        return true;
      }
      var ex := exs.head;
      ghost var c := BeginHeader(ex, cfg);
      ghost var f := ReadFields(pkt, ex.inst, ex.lookahead, ex.fields, cfg.pos, c);
      PresentBegin(cfg.headers, ParsedHeader(ex.inst, ex.lookahead, cfg.pos, []));
      present := present + {ex.inst};
      ok := RunFields(all, entry, ex.inst, ex.lookahead, ex.fields, off, c, res);
      if ok {
        AfterExtract(ex, cfg, res);
        ok := RunExtracts(all, entry, exs.tail, f.cfg, if ex.lookahead then res else FieldsDelta(ex.fields, res));
      }
    }

    lemma AfterExtract(ex: Extract, cfg: Config, res: Residue)
      requires Sound(pkt, cfg) && Residual(res, cfg.pos)
      ensures var f := ReadFields(pkt, ex.inst, ex.lookahead, ex.fields, cfg.pos, BeginHeader(ex, cfg));
              f.Go? ==> Sound(pkt, f.cfg) && |f.cfg.regions| == |cfg.regions|
                        && Residual(if ex.lookahead then res else FieldsDelta(ex.fields, res), f.cfg.pos)
    {
      FieldsKeep(pkt, ex.inst, ex.lookahead, ex.fields, cfg.pos, BeginHeader(ex, cfg));
      if !ex.lookahead {
        FieldsDeltaSound(pkt, ex.inst, ex.fields, cfg.pos, BeginHeader(ex, cfg), res, cfg.pos);
      }
    }

    method RunAssigns(decls: seq<MetaDecl>, asgs: List<Ir.Assign>, ghost cfg: Config)
      requires Fixed() && Mirrors(cfg, cfg.pos) && rsp <= 0xffff_ffff && Sound(pkt, cfg)
      requires Semantics.RunAssigns(decls, asgs, cfg).Go?
      modifies `meta
      ensures var c := Semantics.RunAssigns(decls, asgs, cfg).cfg; Mirrors(c, c.pos)
      decreases asgs
    {
      if asgs.Cons? {
        var a := asgs.head;
        ghost var rem := RemainingAt(cfg.regions, cfg.pos);
        ExprAgrees(a.value, cfg, off, rem);
        ghost var v := Eval(a.value, cfg.env, cfg.meta, rem).value;
        Assign(a.target, decls[a.target].bits, a.value);
        RunAssigns(decls, asgs.tail, cfg.(meta := cfg.meta[a.target := Truncate(v, decls[a.target].bits)]));
      }
    }

    method RunOps(ops: List<RegionOp>, ghost cfg: Config) returns (ok: bool)
      requires Fixed() && Mirrors(cfg, cfg.pos) && Sound(pkt, cfg)
      requires |cfg.regions| + Pushes(ops) <= regionEnd.Length <= 0xffff_ffff
      requires !Semantics.RunOps(pkt, AlwaysStructural, ops, cfg).Fault?
      modifies `outcome, `reason, `consumed, `rsp, regionEnd
      ensures var f := Semantics.RunOps(pkt, AlwaysStructural, ops, cfg);
              && (ok <==> f.Go?) && (ok ==> Mirrors(f.cfg, f.cfg.pos)) && (!ok ==> Reports(f))
      decreases ops
    {
      if ops.Nil? {
        return true;
      }
      ghost var f := RunOp(pkt, AlwaysStructural, ops.head, cfg);
      if ops.head.Push? {
        ok := Push(ops.head.len, cfg);
      } else {
        ok := Pop(cfg);
        PopKeeps(pkt, AlwaysStructural, cfg);
      }
      if ok {
        ok := RunOps(ops.tail, f.cfg);
      }
    }

    function KeysC(es: List<Expr>): List<u64>
      requires rmask + 1 == regionEnd.Length
      reads this, regionEnd
    {
      match es
      case Nil => Nil
      case Cons(e, rest) => Cons(ExprC(e), KeysC(rest))
    }

    lemma {:induction false} KeysAgree(es: List<Expr>, cfg: Config)
      requires Fixed() && Mirrors(cfg, cfg.pos) && Sound(pkt, cfg) && rsp <= 0xffff_ffff
      requires EvalKeys(es, cfg.env, cfg.meta, RemainingAt(cfg.regions, cfg.pos)).Some?
      ensures Some(KeysC(es)) == EvalKeys(es, cfg.env, cfg.meta, RemainingAt(cfg.regions, cfg.pos))
      decreases es
    {
      if es.Cons? {
        ExprAgrees(es.head, cfg, cfg.pos, RemainingAt(cfg.regions, cfg.pos));
        KeysAgree(es.tail, cfg);
      }
    }

    /** The struct holds the result r. */
    ghost predicate Returned(r: Result)
      reads this
    {
      && (r.outcome == Accepted ==> outcome == 0 && reason == None)
      && (r.outcome.Rejected? ==> outcome == 1 && reason == Some(r.outcome.reason))
      && r.outcome != Faulted
      && consumed == r.consumed && slots == r.cfg.env && meta == r.cfg.meta
      && present == PresentOf(r.cfg.headers)
    }

    /** Extracts, assigns and region operations of one state. */
    method RunBody(decls: seq<MetaDecl>, s: State, entry: Residue, ghost cfg: Config) returns (ok: bool)
      requires Fixed() && Mirrors(cfg, cfg.pos) && Sound(pkt, cfg)
      requires ExtractShapes(s.extracts) && SitesAligned(s.extracts, entry, s.extracts, entry) && Residual(entry, cfg.pos)
      requires |cfg.regions| + Pushes(s.ops) <= regionEnd.Length <= 0xffff_ffff
      requires !Semantics.RunBody(pkt, AlwaysStructural, decls, s, cfg).Fault?
      modifies `outcome, `reason, `consumed, `slots, `off, `present, `meta, `rsp, regionEnd
      ensures var f := Semantics.RunBody(pkt, AlwaysStructural, decls, s, cfg);
              && (ok <==> f.Go?) && (ok ==> Mirrors(f.cfg, f.cfg.pos)) && (!ok ==> Reports(f))
    {
      ExtractsKeep(pkt, s.extracts, cfg);
      ghost var r1 := Semantics.RunExtracts(pkt, s.extracts, cfg);
      ok := RunExtracts(s.extracts, entry, s.extracts, cfg, entry);
      if ok {
        AssignsKeep(decls, s.assigns, r1.cfg);
        RunAssigns(decls, s.assigns, r1.cfg);
        ok := RunOps(s.ops, Semantics.RunAssigns(decls, s.assigns, r1.cfg).cfg);
      }
    }

    /** The transition of one state. */
    method RunTransition(tr: Transition, ghost cfg: Config) returns (next: Option<Name>)
      requires Fixed() && Mirrors(cfg, cfg.pos) && Sound(pkt, cfg) && rsp <= 0xffff_ffff
      requires Decide(tr, cfg) != BadKey
      modifies `outcome, `reason, `consumed
      ensures match Decide(tr, cfg)
              case To(ToState(q)) => next == Some(q) && Mirrors(cfg, cfg.pos)
              case To(ToAccept) => next == None && Returned(Result(Accepted, cfg.pos, cfg))
              case To(ToReject(code)) => next == None && Returned(Result(Rejected(Authored(code)), cfg.pos, cfg))
              case NoArm => next == None && Returned(Result(Rejected(NoMatchingArm), cfg.pos, cfg))
    {
      var target: Option<Target>;
      if tr.Direct? {
        target := Some(tr.next);
      } else {
        KeysAgree(tr.keys, cfg);
        target := PickArm(tr.arms, tr.default, KeysC(tr.keys));
      }
      next := None;
      match target
      case None => Reject(NoMatchingArm);
      case Some(ToState(q)) => next := Some(q);
      case Some(ToAccept) => outcome, reason, consumed := 0, None, off;
      case Some(ToReject(code)) => Reject(Authored(code));
    }

    /** One case of the switch. */
    method RunState(p: Program, q: Name, entry: Residue, ghost cfg: Config) returns (next: Option<Name>)
      requires Fixed() && Mirrors(cfg, cfg.pos) && Sound(pkt, cfg) && q < |p.states|
      requires ExtractShapes(p.states[q].extracts) && Residual(entry, cfg.pos)
      requires SitesAligned(p.states[q].extracts, entry, p.states[q].extracts, entry)
      requires |cfg.regions| + Pushes(p.states[q].ops) <= regionEnd.Length <= 0xffff_ffff
      requires var r := Step(p, pkt, AlwaysStructural, q, cfg); r.Done? ==> r.result.outcome != Faulted
      modifies `outcome, `reason, `consumed, `slots, `off, `present, `meta, `rsp, regionEnd
      ensures match Step(p, pkt, AlwaysStructural, q, cfg)
              case Next(q', c) => next == Some(q') && Mirrors(c, c.pos)
              case Done(r) => next == None && Returned(r)
    {
      ghost var f := Semantics.RunBody(pkt, AlwaysStructural, p.metadata, p.states[q], cfg);
      BodyKeeps(pkt, AlwaysStructural, p.metadata, p.states[q], cfg);
      var ok := RunBody(p.metadata, p.states[q], entry, cfg);
      next := None;
      if ok {
        next := RunTransition(p.states[q].transition, f.cfg);
      }
    }

    /** What holds on entry to a state with b states left, and what a step leaves for the next. */
    ghost predicate Entering(p: Program, align: map<Name, Residue>, depth: map<Name, nat>, q: Name, cfg: Config, b: nat) {
      && q in depth && |cfg.regions| == depth[q] && Sound(pkt, cfg)
      && q in align && Residual(align[q], cfg.pos)
      && RunFrom(p, pkt, AlwaysStructural, q, cfg, b).outcome != Faulted
    }

    lemma AtStart(p: Program, align: map<Name, Residue>, depth: map<Name, nat>, order: seq<Name>)
      requires Emittable(p, align, depth, order) && Parse(p, pkt, AlwaysStructural).outcome != Faulted
      ensures Entering(p, align, depth, p.start, Initial(p), p.maxDepth)
    {
    }

    lemma OnEntry(
      p: Program, align: map<Name, Residue>, depth: map<Name, nat>, order: seq<Name>, q: Name, cfg: Config, b: nat)
      requires Emittable(p, align, depth, order) && Entering(p, align, depth, q, cfg, b) && b > 0
      ensures Sound(pkt, cfg) && q < |p.states| && q in align && Residual(align[q], cfg.pos) && ExtractShapes(p.states[q].extracts)
      ensures SitesAligned(p.states[q].extracts, align[q], p.states[q].extracts, align[q])
      ensures |cfg.regions| + Pushes(p.states[q].ops) <= PushesBelow(p, |p.states|)
      ensures var r := Step(p, pkt, AlwaysStructural, q, cfg);
              && (r.Done? ==> r.result.outcome != Faulted && RunFrom(p, pkt, AlwaysStructural, q, cfg, b) == r.result)
              && (r.Next? ==> Entering(p, align, depth, r.state, r.cfg, b - 1)
                              && RunFrom(p, pkt, AlwaysStructural, q, cfg, b) == RunFrom(p, pkt, AlwaysStructural, r.state, r.cfg, b - 1))
    {
      hide StateDepth, Edge, SitesAligned, ExtractShapes, Step;
      CapacitySuffices(p, depth, order, q);
      StepKeepsDepth(p, depth, pkt, AlwaysStructural, q, cfg);
      StepKeeps(p, pkt, AlwaysStructural, q, cfg);
      StepAligned(p, align, pkt, AlwaysStructural, q, cfg);
    }

    /** The stores at the top of parse_core. */
    method InitRegisters(decls: seq<MetaDecl>)
      modifies `meta
      ensures meta == InitMeta(decls)
    {
      meta := map[];
      for m := 0 to |decls|
        invariant forall k: Name :: k in meta <==> k < m
        invariant forall k: Name | k < m :: meta[k] == decls[k].init
      {
        meta := meta[m := decls[m].init];
      }
    }

    /** parse_core: on every input on which the interpreter does not fault it returns what the
        interpreter returns, except that an unexhausted region is always reported as structural. */
    method Run(p: Program, align: map<Name, Residue>, ghost depth: map<Name, nat>, ghost order: seq<Name>)
      requires Fixed() && off == 0 && rsp == 0 && slots == map[] && present == {}
      requires Emittable(p, align, depth, order)
      requires PushesBelow(p, |p.states|) <= regionEnd.Length <= 0xffff_ffff
      requires Parse(p, pkt, AlwaysStructural).outcome != Faulted
      modifies this, regionEnd
      ensures Returned(Parse(p, pkt, AlwaysStructural))
    {
      hide Emittable, EmittableState, SitesAligned, ExtractShapes, Entering, Sound, Step, Residual, RunFrom, PushesBelow, Pushes;
      InitRegisters(p.metadata);
      var state := p.start;
      ghost var cfg := Initial(p);
      AtStart(p, align, depth, order);
      var d := 0;
      while d < p.maxDepth
        invariant d <= p.maxDepth
        invariant Mirrors(cfg, cfg.pos) && Entering(p, align, depth, state, cfg, p.maxDepth - d)
        invariant Parse(p, pkt, AlwaysStructural) == RunFrom(p, pkt, AlwaysStructural, state, cfg, p.maxDepth - d)
      {
        OnEntry(p, align, depth, order, state, cfg, p.maxDepth - d);
        ghost var r := Step(p, pkt, AlwaysStructural, state, cfg);
        var next := RunState(p, state, align[state], cfg);
        if next.None? {
          return;
        }
        state, cfg, d := next.value, r.cfg, d + 1;
      }
      OutOfBudget(p, state, cfg);
      Reject(MaxDepthExceeded);
    }

    lemma OutOfBudget(p: Program, q: Name, cfg: Config)
      ensures RunFrom(p, pkt, AlwaysStructural, q, cfg, 0) == Result(Rejected(MaxDepthExceeded), cfg.pos, cfg)
    {
    }
  }
}
