/** Runs over whole bytes: what a field read, a region and the remaining count are when the
    cursor and every region end are multiples of 8 bits. */
module WholeBytes {
  import opened Bits
  import opened Ir
  import opened Semantics
  import opened Regions

  /** The cursor is at byte i and the region ends are at the bytes ends. */
  ghost predicate At(pkt: Packet, cfg: Config, i: nat, ends: seq<nat>) {
    Sound(pkt, cfg) && cfg.pos == 8 * i && RegionsAt(cfg.regions, ends)
  }

  predicate RegionsAt(regions: seq<nat>, ends: seq<nat>) {
    |regions| == |ends| && forall k | 0 <= k < |ends| :: regions[k] == 8 * ends[k]
  }

  lemma NoRegions(pkt: Packet, cfg: Config, i: nat)
    ensures At(pkt, cfg, i, []) <==> cfg.regions == [] && cfg.pos == 8 * i && cfg.pos <= |pkt|
  {
  }

  /** The first n of the bytes s are those of the packet. */
  ghost predicate Views(pkt: Packet, s: seq<byte>, n: nat)
    requires n <= |s| && 8 * |s| <= |pkt|
    decreases n
  {
    n == 0 || (Views(pkt, s, n - 1) && s[n - 1] == ByteAt(pkt, n - 1))
  }

  /** s is the whole bytes of the packet. */
  ghost predicate Holds(pkt: Packet, s: seq<byte>) {
    |s| == |pkt| / 8 && Views(pkt, s, |s|)
  }

  lemma {:induction false} ViewsAt(pkt: Packet, s: seq<byte>, n: nat, j: nat)
    requires j < n <= |s| && 8 * |s| <= |pkt| && Views(pkt, s, n)
    ensures s[j] == ByteAt(pkt, j)
    decreases n
  {
    if j < n - 1 {
      ViewsAt(pkt, s, n - 1, j);
    }
  }

  lemma {:induction false} ViewsOwn(pkt: Packet, n: nat)
    requires n <= |pkt| / 8
    ensures Views(pkt, BytesOf(pkt), n)
    decreases n
  {
    if n > 0 {
      ViewsOwn(pkt, n - 1);
    }
  }

  lemma HoldsOwn(pkt: Packet)
    ensures Holds(pkt, BytesOf(pkt))
  {
    ViewsOwn(pkt, |pkt| / 8);
  }

  /** Big-endian value of n bytes from byte i. */
  function Be(s: seq<byte>, i: nat, n: nat): nat
    requires i + n <= |s|
    decreases n
  {
    if n == 0 then 0 else Be(s, i, n - 1) * 256 + s[i + n - 1]
  }

  function U8(s: seq<byte>, i: nat): (r: nat)
    requires i < |s|
    ensures r < 256
  {
    s[i]
  }

  function U16(s: seq<byte>, i: nat): (r: nat)
    requires i + 2 <= |s|
    ensures r < 0x1_0000
  {
    U8(s, i) * 256 + U8(s, i + 1)
  }

  function U24(s: seq<byte>, i: nat): (r: nat)
    requires i + 3 <= |s|
    ensures r < 0x100_0000
  {
    U16(s, i) * 256 + U8(s, i + 2)
  }

  lemma BeSmall(s: seq<byte>, i: nat)
    ensures i + 1 <= |s| ==> Be(s, i, 1) == U8(s, i)
    ensures i + 2 <= |s| ==> Be(s, i, 2) == U16(s, i)
    ensures i + 3 <= |s| ==> Be(s, i, 3) == U24(s, i)
  {
    if i + 1 <= |s| {
      assert Be(s, i, 0) == 0;
      assert Be(s, i, 1) == U8(s, i);
    }
    if i + 2 <= |s| {
      assert Be(s, i, 2) == U16(s, i);
    }
  }

  lemma {:induction false} RunOfBytes(pkt: Packet, s: seq<byte>, i: nat, n: nat)
    requires Holds(pkt, s) && i + n <= |s|
    ensures ByteRun(pkt, i, n) == Be(s, i, n)
    decreases n
  {
    if n > 0 {
      RunOfBytes(pkt, s, i, n - 1);
      ViewsAt(pkt, s, |s|, i + n - 1);
    }
  }

  /** Bytes up to e can be read inside the innermost region. */
  predicate Room(s: seq<byte>, ends: seq<nat>, e: nat) {
    e <= |s| && (ends != [] ==> e <= ends[|ends| - 1])
  }

  /** Why a read up to byte e fails. */
  function Shortage(ends: seq<nat>, e: nat): Reason {
    if ends != [] && e > ends[|ends| - 1] then OutOfRegionBounds else OutOfBounds
  }

  /** A fixed field of n bytes has the big-endian value of those bytes. */
  lemma FixedBytes(pkt: Packet, s: seq<byte>, i: nat, n: nat) returns (v: u64)
    requires Holds(pkt, s) && n <= 8 && i + n <= |s|
    ensures v == Be(s, i, n) && FieldVal(pkt, Fixed(8 * n), 8 * i, 8 * n) == Uint(v)
  {
    RunOfBytes(pkt, s, i, n);
    ReadBytes(pkt, 8 * i, 8 * n, i, n);
    ReadBound(pkt, 8 * i, 8 * n);
    Pow2Mono(8 * n, 64);
    Pow2Small();
    v := Be(s, i, n);
  }

  /** A whole-byte read at a byte boundary. */
  lemma TakeBytes(pkt: Packet, s: seq<byte>, inst: Name, name: Name, value: FieldValue, i: nat, n: nat, cfg: Config, ends: seq<nat>)
    requires RegionsAt(cfg.regions, ends) && |s| == |pkt| / 8
    ensures var r := Take(pkt, inst, name, value, 8 * i, 8 * n, 8 * i, cfg);
            if Room(s, ends, i + n) then
              r.Go? && r.cfg.env == cfg.env[FieldRef(inst, name) := value] && r.cfg.meta == cfg.meta && r.cfg.regions == cfg.regions
            else r == Stop(Shortage(ends, i + n), 8 * i, cfg)
  {
    assert 8 * i + 8 * n == 8 * (i + n);
    assert cfg.regions != [] ==> cfg.regions[|cfg.regions| - 1] == 8 * ends[|ends| - 1];
  }

  lemma SizeOfHeld(pkt: Packet, s: seq<byte>)
    requires Holds(pkt, s)
    ensures |s| == |pkt| / 8
  {
  }

  /** One fixed field of n bytes at byte i of an extract. */
  lemma FixedField(pkt: Packet, s: seq<byte>, inst: Name, fs: List<FieldDecl>, i: nat, n: nat, cfg: Config, ends: seq<nat>)
    returns (c: Config, v: u64)
    requires Holds(pkt, s) && fs.Cons? && fs.head.width == Fixed(8 * n) && n <= 8
    requires RegionsAt(cfg.regions, ends)
    ensures var r := ReadFields(pkt, inst, false, fs, 8 * i, cfg);
            if Room(s, ends, i + n) then
              r == ReadFields(pkt, inst, false, fs.tail, 8 * (i + n), c)
              && v == Be(s, i, n) && c.env == cfg.env[FieldRef(inst, fs.head.name) := Uint(v)]
              && c.meta == cfg.meta && c.regions == cfg.regions
            else r == Stop(Shortage(ends, i + n), 8 * i, cfg)
  {
    hide ReadFields, Take, Holds, Be, Shortage, RegionsAt, FieldVal;
    SizeOfHeld(pkt, s);
    FieldsCons(pkt, inst, false, fs, 8 * i, cfg);
    var r := ReadField(pkt, inst, fs.head, 8 * i, 8 * i, cfg);
    TakeBytes(pkt, s, inst, fs.head.name, FieldVal(pkt, fs.head.width, 8 * i, 8 * n), i, n, cfg, ends);
    c, v := cfg, 0;
    if Room(s, ends, i + n) {
      v := FixedBytes(pkt, s, i, n);
      c := r.cfg;
      assert 8 * i + 8 * n == 8 * (i + n);
    }
  }

  lemma NoMoreFields(pkt: Packet, inst: Name, cur: nat, cfg: Config)
    ensures ReadFields(pkt, inst, false, Nil, cur, cfg) == Go(cfg.(pos := cur))
  {
  }

  /** A field whose length expression comes to n bytes. */
  lemma VarField(pkt: Packet, s: seq<byte>, inst: Name, fs: List<FieldDecl>, i: nat, n: nat, cfg: Config, ends: seq<nat>)
    returns (c: Config)
    requires fs.Cons? && fs.head.width.BitLen? && Eval(fs.head.width.len, cfg.env, cfg.meta, None) == Some(8 * n)
    requires RegionsAt(cfg.regions, ends) && |s| == |pkt| / 8
    ensures var r := ReadFields(pkt, inst, false, fs, 8 * i, cfg);
            if Room(s, ends, i + n) then
              r == ReadFields(pkt, inst, false, fs.tail, 8 * (i + n), c)
              && c.env == cfg.env[FieldRef(inst, fs.head.name) := Run(8 * i, 8 * n)]
              && c.meta == cfg.meta && c.regions == cfg.regions
            else r == Stop(Shortage(ends, i + n), 8 * i, cfg)
  {
    hide ReadFields, Take, Shortage, RegionsAt, FieldVal, Eval;
    FieldsCons(pkt, inst, false, fs, 8 * i, cfg);
    TakeBytes(pkt, s, inst, fs.head.name, FieldVal(pkt, fs.head.width, 8 * i, 8 * n), i, n, cfg, ends);
    RunValue(pkt, fs.head.width, 8 * i, 8 * n);
    c := cfg;
    if Room(s, ends, i + n) {
      c := ReadField(pkt, inst, fs.head, 8 * i, 8 * i, cfg).cfg;
      assert 8 * i + 8 * n == 8 * (i + n);
    }
  }

  lemma RunValue(pkt: Packet, w: Width, cur: nat, len: nat)
    requires w.BitLen?
    ensures FieldVal(pkt, w, cur, len) == Run(cur, len)
  {
  }

  /** A fixed field of n bytes. */
  function UintField(name: Name, n: nat): FieldDecl {
    FieldDecl(name, Fixed(8 * n))
  }

  /** A run whose length expression counts bytes. */
  function RunField(name: Name, len: Expr): FieldDecl {
    FieldDecl(name, BitLen(TimesEight(len)))
  }

  /** What reading the header ex does. */
  function Header(pkt: Packet, ex: Extract, cfg: Config): Flow {
    ReadFields(pkt, ex.inst, ex.lookahead, ex.fields, cfg.pos, BeginHeader(ex, cfg))
  }

  /** It stops for that reason at byte at. */
  predicate Fails(f: Flow, reason: Reason, at: nat) {
    f.Stop? && f.reason == reason && f.consumed == 8 * at
  }

  predicate Has(env: Env, inst: Name, field: Name, v: nat) {
    FieldRef(inst, field) in env && env[FieldRef(inst, field)].Uint? && env[FieldRef(inst, field)].v == v
  }

  /** A header of one fixed field. */
  lemma OneUint(pkt: Packet, s: seq<byte>, ex: Extract, i: nat, n: nat, cfg: Config, ends: seq<nat>) returns (c: Config)
    requires Holds(pkt, s) && At(pkt, cfg, i, ends) && n <= 8 && ex == Extract(ex.inst, Cons(UintField(0, n), Nil), false)
    ensures if Room(s, ends, i + n) then
              Header(pkt, ex, cfg) == Go(c) && At(pkt, c, i + n, ends) && c.meta == cfg.meta
              && Has(c.env, ex.inst, 0, Be(s, i, n))
            else Fails(Header(pkt, ex, cfg), Shortage(ends, i + n), i)
  {
    FieldsKeep(pkt, ex.inst, false, ex.fields, cfg.pos, BeginHeader(ex, cfg));
    var v;
    c, v := FixedField(pkt, s, ex.inst, ex.fields, i, n, BeginHeader(ex, cfg), ends);
    c := c.(pos := 8 * (i + n));
  }

  /** A header of two fixed fields. */
  lemma TwoUints(pkt: Packet, s: seq<byte>, ex: Extract, i: nat, m: nat, n: nat, cfg: Config, ends: seq<nat>)
    returns (c: Config)
    requires Holds(pkt, s) && At(pkt, cfg, i, ends) && m <= 8 && n <= 8
    requires ex == Extract(ex.inst, Cons(UintField(0, m), Cons(UintField(1, n), Nil)), false)
    ensures if Room(s, ends, i + m + n) then
              Header(pkt, ex, cfg) == Go(c) && At(pkt, c, i + m + n, ends) && c.meta == cfg.meta
              && Has(c.env, ex.inst, 0, Be(s, i, m)) && Has(c.env, ex.inst, 1, Be(s, i + m, n))
            else if Room(s, ends, i + m) then Fails(Header(pkt, ex, cfg), Shortage(ends, i + m + n), i + m)
            else Fails(Header(pkt, ex, cfg), Shortage(ends, i + m), i)
  {
    hide ReadFields, Be;
    FieldsKeep(pkt, ex.inst, false, ex.fields, cfg.pos, BeginHeader(ex, cfg));
    var v;
    c, v := FixedField(pkt, s, ex.inst, ex.fields, i, m, BeginHeader(ex, cfg), ends);
    if Room(s, ends, i + m) {
      c, v := FixedField(pkt, s, ex.inst, ex.fields.tail, i + m, n, c, ends);
      NoMoreFields(pkt, ex.inst, 8 * (i + m + n), c);
      c := c.(pos := 8 * (i + m + n));
    }
  }

  /** A header of one run of n bytes. */
  lemma OneRun(pkt: Packet, s: seq<byte>, ex: Extract, i: nat, n: nat, cfg: Config, ends: seq<nat>) returns (c: Config)
    requires At(pkt, cfg, i, ends) && !ex.lookahead && ex.fields.Cons? && ex.fields.tail.Nil? && |s| == |pkt| / 8
    requires ex.fields.head.width.BitLen? && Eval(ex.fields.head.width.len, cfg.env, cfg.meta, None) == Some(8 * n)
    ensures if Room(s, ends, i + n) then Header(pkt, ex, cfg) == Go(c) && At(pkt, c, i + n, ends) && c.meta == cfg.meta
            else Fails(Header(pkt, ex, cfg), Shortage(ends, i + n), i)
  {
    c := VarField(pkt, s, ex.inst, ex.fields, i, n, BeginHeader(ex, cfg), ends);
    FieldsKeep(pkt, ex.inst, false, ex.fields, cfg.pos, BeginHeader(ex, cfg));
    if Room(s, ends, i + n) {
      c := c.(pos := 8 * (i + n));
    }
  }

  /** A sum of bits as a number of bytes: the length idiom `e * 8`. */
  function TimesEight(e: Expr): Expr {
    Bin(Mul, e, Const(8))
  }

  lemma EvalTimesEight(e: Expr, env: Env, meta: Meta, rem: Option<u64>, n: nat)
    requires Eval(e, env, meta, rem) == Some(n) && 8 * n < TWO64
    ensures Eval(TimesEight(e), env, meta, rem) == Some(8 * n)
  {
  }

  /** The byte view of remaining(): the bit count shifted right by 3. */
  function RemainingBytes(): Expr {
    Bin(Shr, Remaining, Const(3))
  }

  lemma EvalRemaining(pkt: Packet, cfg: Config, i: nat, ends: seq<nat>)
    requires At(pkt, cfg, i, ends) && ends != []
    ensures var rem := RemainingAt(cfg.regions, cfg.pos);
            var left := ends[|ends| - 1] - i;
            left >= 0 && rem == Some(8 * left)
            && Eval(RemainingBytes(), cfg.env, cfg.meta, rem) == Some(left)
  {
    var left := ends[|ends| - 1] - i;
    ShiftByThree(8 * left);
  }

  /** Pushing n bytes opens a region of n bytes unless it crosses the enclosing one. */
  lemma PushBytes(pkt: Packet, e: Expr, cfg: Config, i: nat, ends: seq<nat>, n: nat)
    requires At(pkt, cfg, i, ends)
    requires Eval(e, cfg.env, cfg.meta, RemainingAt(cfg.regions, cfg.pos)) == Some(8 * n) && 8 * (i + n) < TWO64
    ensures var r := PushRegion(e, cfg);
            if ends == [] || i + n <= ends[|ends| - 1] then
              r.Go? && At(pkt, r.cfg, i, ends + [i + n]) && r.cfg.env == cfg.env && r.cfg.meta == cfg.meta
            else r == Stop(RegionOutOfBounds, 8 * i, cfg)
  {
  }

  /** Why a region that ends at byte end is not exhausted. */
  function Unfinished(pkt: Packet, rule: PopRule, end: nat): Reason {
    if rule == ByInput && 8 * end > |pkt| then OutOfBounds else RegionNotExhausted
  }

  /** Popping succeeds exactly at the region's end. */
  lemma PopBytes(pkt: Packet, rule: PopRule, cfg: Config, i: nat, ends: seq<nat>)
    requires At(pkt, cfg, i, ends) && ends != []
    ensures var r := PopRegion(pkt, rule, cfg);
            if i == ends[|ends| - 1] then
              r.Go? && At(pkt, r.cfg, i, ends[..|ends| - 1]) && r.cfg.env == cfg.env && r.cfg.meta == cfg.meta
            else Fails(r, Unfinished(pkt, rule, ends[|ends| - 1]), i)
  {
    PopKeeps(pkt, rule, cfg);
  }

  /** A state that extracts one header and assigns nothing. */
  lemma OneExtract(pkt: Packet, rule: PopRule, decls: seq<MetaDecl>, s: State, cfg: Config)
    requires s.extracts.Cons? && s.extracts.tail.Nil? && s.assigns.Nil?
    ensures var r := Header(pkt, s.extracts.head, cfg);
            RunBody(pkt, rule, decls, s, cfg) == if r.Go? then RunOps(pkt, rule, s.ops, r.cfg) else r
  {
    var r := Header(pkt, s.extracts.head, cfg);
    if r.Go? {
      assert RunExtracts(pkt, s.extracts.tail, r.cfg) == Go(r.cfg);
      assert RunAssigns(decls, s.assigns, r.cfg) == Go(r.cfg);
    }
  }

  /** A state that only decides. */
  lemma NoBody(pkt: Packet, rule: PopRule, decls: seq<MetaDecl>, s: State, cfg: Config)
    requires s.extracts.Nil? && s.assigns.Nil?
    ensures RunBody(pkt, rule, decls, s, cfg) == RunOps(pkt, rule, s.ops, cfg)
  {
  }

  /** A select on one key. */
  lemma DecideOne(key: Expr, arms: List<Arm>, default: Option<Target>, cfg: Config, v: u64)
    requires Eval(key, cfg.env, cfg.meta, RemainingAt(cfg.regions, cfg.pos)) == Some(v)
    ensures var t := Choose(arms, default, Cons(v, Nil));
            Decide(Select(Cons(key, Nil), arms, default), cfg) == if t.Some? then To(t.value) else NoArm
  {
    assert EvalKeys(Nil, cfg.env, cfg.meta, RemainingAt(cfg.regions, cfg.pos)) == Some(Nil);
  }
}
