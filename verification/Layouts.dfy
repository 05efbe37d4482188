/** Header layouts and selects as the network descriptions write them, and what a header with
    options reads. */
module Layouts {
  import opened Bits
  import opened Ir
  import opened Semantics
  import opened Budget
  import opened Steps
  import opened WholeBytes

  function B(name: Name, bits: nat, rest: List<FieldDecl>): List<FieldDecl> {
    Cons(FieldDecl(name, Fixed(bits)), rest)
  }

  function V(name: Name, bytes: Expr, rest: List<FieldDecl>): List<FieldDecl> {
    Cons(FieldDecl(name, BitLen(Bin(Mul, bytes, Const(8)))), rest)
  }

  /** 4 * nibble - 20 bytes of options; below 5 it wraps. */
  function Options(inst: Name, nibble: Name): Expr {
    Bin(Sub, Bin(Mul, Ref(inst, nibble), Const(4)), Const(20))
  }

  function Goes(v: nat, q: Name, rest: List<Arm>): List<Arm> {
    When(v, ToState(q), rest)
  }

  function Reads(inst: Name, fs: List<FieldDecl>, tr: Transition): State {
    State(Cons(Extract(inst, fs, false), Nil), Nil, Nil, tr)
  }

  // ---- Headers of one size ----

  /** A width that names no field: fixed, or a constant number of bytes. */
  predicate StaticWidth(w: Width) {
    w.BitLen? ==> w.len.Bin? && w.len.op == Mul && w.len.lhs.Const? && w.len.rhs == Const(8)
  }

  function WidthBits(w: Width): nat
    requires StaticWidth(w)
  {
    if w.Fixed? then w.bits else Wrap(w.len.lhs.v * 8)
  }

  predicate StaticWidths(fs: List<FieldDecl>)
    decreases fs
  {
    match fs
    case Nil => true
    case Cons(d, rest) => StaticWidth(d.width) && StaticWidths(rest)
  }

  function StaticBits(fs: List<FieldDecl>): nat
    requires StaticWidths(fs)
    decreases fs
  {
    match fs
    case Nil => 0
    case Cons(d, rest) => WidthBits(d.width) + StaticBits(rest)
  }

  lemma StaticField(pkt: Packet, inst: Name, d: FieldDecl, cur: nat, at: nat, cfg: Config)
    requires StaticWidth(d.width) && cfg.regions == []
    ensures FieldLen(d.width, cfg) == Some(WidthBits(d.width))
    ensures var r := ReadField(pkt, inst, d, cur, at, cfg);
            if cur + WidthBits(d.width) <= |pkt| then r.Go? && r.cfg.regions == [] && r.cfg.pos == cfg.pos
            else r == Stop(OutOfBounds, at, cfg)
  {
    if d.width.BitLen? {
      assert Eval(d.width.len.lhs, cfg.env, cfg.meta, None) == Some(d.width.len.lhs.v);
      assert Eval(d.width.len.rhs, cfg.env, cfg.meta, None) == Some(8);
    }
  }

  /** Such a header is read whole exactly when its bits are there. */
  lemma {:induction false} StaticExact(pkt: Packet, inst: Name, peek: bool, fs: List<FieldDecl>, cur: nat, cfg: Config)
    requires StaticWidths(fs) && cfg.regions == [] && cur <= |pkt|
    ensures var r := ReadFields(pkt, inst, peek, fs, cur, cfg);
            if cur + StaticBits(fs) <= |pkt| then r.Go? && (!peek ==> r.cfg.pos == cur + StaticBits(fs))
            else r.Stop? && r.reason == OutOfBounds
    decreases fs
  {
    if fs.Cons? {
      var at := if peek then cfg.pos else cur;
      FieldsCons(pkt, inst, peek, fs, cur, cfg);
      StaticField(pkt, inst, fs.head, cur, at, cfg);
      var r := ReadField(pkt, inst, fs.head, cur, at, cfg);
      hide ReadFields, ReadField, FieldLen, WidthBits, StaticWidth;
      if r.Go? {
        StaticExact(pkt, inst, peek, fs.tail, cur + WidthBits(fs.head.width), r.cfg);
      }
    }
  }

  // ---- Headers that end in options ----

  /** Fixed fields, then 4 * nibble - 20 bytes. */
  predicate EndsInOptions(fs: List<FieldDecl>, inst: Name, nibble: Name)
    decreases fs
  {
    fs.Cons? &&
    if fs.tail.Nil? then fs.head.width == BitLen(TimesEight(Options(inst, nibble)))
    else fs.head.width.Fixed? && fs.head.width.bits <= 64 && EndsInOptions(fs.tail, inst, nibble)
  }

  /** Offset of a field in its header. */
  function OffsetOf(fs: List<FieldDecl>, f: Name): nat
    decreases fs
  {
    match fs
    case Nil => 0
    case Cons(d, rest) => if d.name == f then 0 else (if d.width.Fixed? then d.width.bits else 0) + OffsetOf(rest, f)
  }

  /** Below 5 words the length wraps modulo 2^64. */
  lemma OptionsLength(env: Env, meta: Meta, inst: Name, nibble: Name, h: nat)
    requires Has(env, inst, nibble, h) && h < 16
    ensures Eval(TimesEight(Options(inst, nibble)), env, meta, None) == Some(if h >= 5 then 32 * h - 160 else TWO64 + 32 * h - 160)
  {
    WrapWords(h);
    hide Wrap;
    assert Eval(Ref(inst, nibble), env, meta, None) == Some(h);
    assert Eval(Bin(Mul, Ref(inst, nibble), Const(4)), env, meta, None) == Some(4 * h);
    assert Eval(Options(inst, nibble), env, meta, None) == Some(Wrap(4 * h - 20));
  }

  lemma WrapWords(h: nat)
    requires h < 16
    ensures Wrap(h * 4) == 4 * h
    ensures Wrap(Wrap(4 * h - 20) * 8) == if h >= 5 then 32 * h - 160 else TWO64 + 32 * h - 160
  {
    if h >= 5 {
      assert Wrap(4 * h - 20) == 4 * h - 20;
    } else {
      assert Wrap(4 * h - 20) == TWO64 + 4 * h - 20;
    }
  }

  /** A header of fixed bits and h words in all is read whole, or not at all. */
  predicate ReadsWords(r: Flow, pkt: Packet, cur: nat, fixed: nat, h: nat) {
    if h >= 5 && cur + fixed + 32 * h - 160 <= |pkt| then r.Go? && r.cfg.pos == cur + fixed + 32 * h - 160
    else r.Stop? && r.reason == OutOfBounds
  }

  lemma {:induction false} AfterNibble(
    pkt: Packet, inst: Name, nibble: Name, fs: List<FieldDecl>, cur: nat, cfg: Config, h: nat)
    requires EndsInOptions(fs, inst, nibble) && !HasField(fs, nibble) && Has(cfg.env, inst, nibble, h) && h < 16
    requires cfg.regions == [] && cur <= |pkt| <= 0x8000_0000_0000_0000
    ensures ReadsWords(ReadFields(pkt, inst, false, fs, cur, cfg), pkt, cur, FixedBits(fs), h)
    decreases fs
  {
    FieldsCons(pkt, inst, false, fs, cur, cfg);
    var r := ReadField(pkt, inst, fs.head, cur, cur, cfg);
    if fs.tail.Nil? {
      OptionsLength(cfg.env, cfg.meta, inst, nibble, h);
      assert FixedBits(Nil) == 0;
    } else if r.Go? {
      AfterNibble(pkt, inst, nibble, fs.tail, cur + fs.head.width.bits, r.cfg, h);
    }
  }

  /** A header with options whose nibble is not the first field. */
  lemma OptionsTail(inst: Name, nibble: Name, fs: List<FieldDecl>)
    requires EndsInOptions(fs, inst, nibble) && DistinctNames(fs) && HasFixed(fs, nibble) && fs.head.name != nibble
    ensures fs.head.width.Fixed? && EndsInOptions(fs.tail, inst, nibble) && DistinctNames(fs.tail) && HasFixed(fs.tail, nibble)
    ensures FieldWidth(fs, nibble) == FieldWidth(fs.tail, nibble)
    ensures OffsetOf(fs, nibble) == fs.head.width.bits + OffsetOf(fs.tail, nibble)
    ensures FixedBits(fs) == fs.head.width.bits + FixedBits(fs.tail)
  {
  }

  /** A header of fixed bits with a nibble at bit at is cut short, or the nibble decides. */
  predicate OptionsRead(r: Flow, pkt: Packet, cur: nat, fixed: nat, at: nat) {
    at + 4 <= fixed
    && if cur + fixed <= |pkt| then ReadsWords(r, pkt, cur, fixed, Read(pkt, cur + at, 4)) else r.Stop? && r.reason == OutOfBounds
  }

  lemma OptionsLater(r: Flow, pkt: Packet, cur: nat, fixed: nat, at: nat, n: nat)
    requires OptionsRead(r, pkt, cur + n, fixed, at)
    ensures OptionsRead(r, pkt, cur, n + fixed, n + at)
  {
    assert cur + n + at == cur + (n + at);
  }

  /** A header without its fixed part is cut short; with it, the nibble decides. */
  lemma {:induction false} OptionsExact(pkt: Packet, inst: Name, nibble: Name, fs: List<FieldDecl>, cur: nat, cfg: Config)
    requires EndsInOptions(fs, inst, nibble) && DistinctNames(fs) && HasFixed(fs, nibble)
    requires FieldWidth(fs, nibble) == 4
    requires cfg.regions == [] && cur <= |pkt| <= 0x8000_0000_0000_0000
    ensures OptionsRead(ReadFields(pkt, inst, false, fs, cur, cfg), pkt, cur, FixedBits(fs), OffsetOf(fs, nibble))
    decreases fs
  {
    hide ReadFields, ReadField, Read, EndsInOptions, HasFixed, DistinctNames, OffsetOf, FixedBits, FieldWidth, ReadsWords;
    OffsetInside(fs, nibble);
    OptionsCons(fs, inst, nibble);
    if fs.head.name == nibble {
      HeadNibble(fs, inst, nibble);
      AtNibble(pkt, inst, nibble, fs, cur, cfg);
    } else {
      FieldsCons(pkt, inst, false, fs, cur, cfg);
      OptionsTail(inst, nibble, fs);
      StaticField(pkt, inst, fs.head, cur, cur, cfg);
      var r, n := ReadField(pkt, inst, fs.head, cur, cur, cfg), fs.head.width.bits;
      if r.Go? {
        hide FieldLen, OptionsRead;
        OptionsExact(pkt, inst, nibble, fs.tail, cur + n, r.cfg);
        OptionsLater(ReadFields(pkt, inst, false, fs.tail, cur + n, r.cfg), pkt, cur, FixedBits(fs.tail), OffsetOf(fs.tail, nibble), n);
      }
    }
  }

  /** A header of 160 fixed bits and 4 * nibble - 20 bytes, the nibble at bit at. */
  predicate OptionsAt(fs: List<FieldDecl>, inst: Name, nibble: Name, at: nat) {
    && EndsInOptions(fs, inst, nibble) && DistinctNames(fs) && HasFixed(fs, nibble)
    && FieldWidth(fs, nibble) == 4 && FixedBits(fs) == 160 && OffsetOf(fs, nibble) == at
  }

  lemma OptionsCons(fs: List<FieldDecl>, inst: Name, nibble: Name)
    requires EndsInOptions(fs, inst, nibble)
    ensures fs.Cons?
  {
  }

  lemma HeadNibble(fs: List<FieldDecl>, inst: Name, nibble: Name)
    requires EndsInOptions(fs, inst, nibble) && DistinctNames(fs) && HasFixed(fs, nibble) && FieldWidth(fs, nibble) == 4
    requires fs.head.name == nibble
    ensures fs.head == FieldDecl(nibble, Fixed(4)) && OffsetOf(fs, nibble) == 0
  {
  }

  lemma AtNibble(pkt: Packet, inst: Name, nibble: Name, fs: List<FieldDecl>, cur: nat, cfg: Config)
    requires EndsInOptions(fs, inst, nibble) && DistinctNames(fs) && fs.head == FieldDecl(nibble, Fixed(4))
    requires cfg.regions == [] && cur <= |pkt| <= 0x8000_0000_0000_0000
    ensures var r := ReadFields(pkt, inst, false, fs, cur, cfg);
            if cur + FixedBits(fs) <= |pkt| then ReadsWords(r, pkt, cur, FixedBits(fs), Read(pkt, cur, 4))
            else r.Stop? && r.reason == OutOfBounds
  {
    FieldsCons(pkt, inst, false, fs, cur, cfg);
    var r := ReadField(pkt, inst, fs.head, cur, cur, cfg);
    if r.Go? {
      ReadBound(pkt, cur, 4);
      assert Pow2(4) == 16;
      AfterNibble(pkt, inst, nibble, fs.tail, cur + 4, r.cfg, Read(pkt, cur, 4));
      hide Read, EndsInOptions, ReadFields;
      assert FixedBits(fs) == 4 + FixedBits(fs.tail);
    }
  }

  function FieldWidth(fs: List<FieldDecl>, f: Name): nat
    decreases fs
  {
    match fs
    case Nil => 0
    case Cons(d, rest) => if d.name == f then (if d.width.Fixed? then d.width.bits else 0) else FieldWidth(rest, f)
  }

  lemma {:induction false} OffsetInside(fs: List<FieldDecl>, f: Name)
    requires DistinctNames(fs) && HasFixed(fs, f)
    ensures OffsetOf(fs, f) + FieldWidth(fs, f) <= FixedBits(fs)
    decreases fs
  {
    if fs.head.name != f {
      OffsetInside(fs.tail, f);
    }
  }
}
