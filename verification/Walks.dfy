/** Walks: which header layers a packet holds, told from its bits alone, and what a state that
    reads one header does to them. */
module Walks {
  import opened Bits
  import opened Ir
  import opened Semantics
  import opened WholeBytes
  import opened Layouts
  import opened Steps
  import opened ParseCore

  /** A header met at bit start. */
  datatype Visit = Visit(inst: Name, start: nat)

  /** How a walk ends, how many bits it consumed and the headers it met, the last one perhaps
      cut short. */
  datatype Trace = Trace(outcome: Outcome, consumed: nat, visits: seq<Visit>)

  /** What comes after a layer. */
  datatype Onward<+L> = Then(layer: L) | Ends(outcome: Outcome)

  function W(bits: nat, more: List<nat>): List<nat> {
    Cons(bits, more)
  }

  /** Bits of the leading fields of widths ws that fit into room bits. */
  function Cut(ws: List<nat>, room: nat): nat
    decreases ws
  {
    match ws
    case Nil => 0
    case Cons(w, more) => if w <= room then w + Cut(more, room - w) else 0
  }

  /** n bits at pos, if they are there. */
  function Whole(pkt: Packet, pos: nat, n: nat): Option<nat> {
    if pos + n <= |pkt| then Some(n) else None
  }

  /** 160 bits that count, in the nibble at bit at, all the 32-bit words of the header. */
  function Words(pkt: Packet, pos: nat, at: nat): Option<nat>
    requires at <= 156
  {
    if pos + 160 <= |pkt| && Read(pkt, pos + at, 4) >= 5 then Whole(pkt, pos, 32 * Read(pkt, pos + at, 4)) else None
  }

  // ---- Runs as walks ----

  function VisitsOf(hs: seq<ParsedHeader>): seq<Visit> {
    seq(|hs|, i requires 0 <= i < |hs| => Visit(hs[i].inst, hs[i].start))
  }

  function TraceOf(r: Result): Trace {
    Trace(r.outcome, r.consumed, VisitsOf(r.cfg.headers))
  }

  /** The generated parser's struct holds the end of the walk, its bits and the headers it met. */
  ghost predicate Shows(core: Core, w: Trace)
    reads core
  {
    && (match w.outcome
        case Accepted => core.outcome == 0 && core.reason == None
        case Rejected(reason) => core.outcome == 1 && core.reason == Some(reason)
        case Faulted => false)
    && core.consumed == w.consumed
    && forall inst :: inst in core.present <==> exists i :: 0 <= i < |w.visits| && w.visits[i].inst == inst
  }

  lemma ReturnedShows(core: Core, r: Result)
    requires core.Returned(r)
    ensures Shows(core, TraceOf(r))
  {
    var hs, vs := r.cfg.headers, VisitsOf(r.cfg.headers);
    forall inst
      ensures inst in PresentOf(hs) <==> exists i :: 0 <= i < |vs| && vs[i].inst == inst
    {
      if inst in PresentOf(hs) {
        var i :| 0 <= i < |hs| && hs[i].inst == inst;
        assert vs[i].inst == inst;
      }
    }
  }

  lemma {:induction false} FieldsKeepVisits(pkt: Packet, inst: Name, peek: bool, fs: List<FieldDecl>, cur: nat, cfg: Config)
    ensures var r := ReadFields(pkt, inst, peek, fs, cur, cfg);
            !r.Fault? ==> VisitsOf(r.cfg.headers) == VisitsOf(cfg.headers)
    decreases fs
  {
    if fs.Cons? {
      FieldsCons(pkt, inst, peek, fs, cur, cfg);
      var r := ReadField(pkt, inst, fs.head, cur, if peek then cfg.pos else cur, cfg);
      if r.Go? {
        FieldsKeepVisits(pkt, inst, peek, fs.tail, cur + FieldLen(fs.head.width, cfg).value, r.cfg);
      }
    }
  }

  lemma HeaderVisits(pkt: Packet, ex: Extract, cfg: Config)
    ensures var f := Header(pkt, ex, cfg);
            !f.Fault? ==> VisitsOf(f.cfg.headers) == VisitsOf(cfg.headers) + [Visit(ex.inst, cfg.pos)]
  {
    hide ReadFields;
    var c := BeginHeader(ex, cfg);
    FieldsKeepVisits(pkt, ex.inst, ex.lookahead, ex.fields, cfg.pos, c);
    assert VisitsOf(c.headers) == VisitsOf(cfg.headers) + [Visit(ex.inst, cfg.pos)];
  }

  // ---- Cut short ----

  /** Fields of the widths ws, at most one more after them. */
  predicate Starts(fs: List<FieldDecl>, ws: List<nat>)
    decreases fs
  {
    match ws
    case Nil => fs.Nil? || fs.tail.Nil?
    case Cons(w, more) => fs.Cons? && StaticWidth(fs.head.width) && WidthBits(fs.head.width) == w && Starts(fs.tail, more)
  }

  lemma {:induction false} CutShort(
    pkt: Packet, inst: Name, peek: bool, fs: List<FieldDecl>, ws: List<nat>, cur: nat, cfg: Config)
    requires Starts(fs, ws) && cfg.regions == [] && cur <= |pkt|
    ensures var r := ReadFields(pkt, inst, peek, fs, cur, cfg);
            r.Stop? ==> r.consumed == if peek then cfg.pos else cur + Cut(ws, |pkt| - cur)
    decreases fs
  {
    if fs.Cons? {
      var at := if peek then cfg.pos else cur;
      FieldsCons(pkt, inst, peek, fs, cur, cfg);
      var r := ReadField(pkt, inst, fs.head, cur, at, cfg);
      if ws.Cons? {
        StaticField(pkt, inst, fs.head, cur, at, cfg);
        hide ReadFields, ReadField, FieldLen, StaticWidth, WidthBits;
        if r.Go? {
          CutShort(pkt, inst, peek, fs.tail, ws.tail, cur + ws.head, r.cfg);
        }
      }
    }
  }

  /** A header of the given size, or of leading fields ws where the packet ends first. */
  ghost predicate HeaderIs(f: Flow, pkt: Packet, cfg: Config, ex: Extract, size: Option<nat>, ws: List<nat>) {
    && !f.Fault? && f.cfg.regions == [] && f.cfg.meta == cfg.meta && cfg.pos <= |pkt|
    && VisitsOf(f.cfg.headers) == VisitsOf(cfg.headers) + [Visit(ex.inst, cfg.pos)]
    && if size.Some? then f.Go? && f.cfg.pos == if ex.lookahead then cfg.pos else cfg.pos + size.value
       else f.Stop? && f.reason == OutOfBounds
            && f.consumed == if ex.lookahead then cfg.pos else cfg.pos + Cut(ws, |pkt| - cfg.pos)
  }

  lemma {:induction false} FieldsMove(pkt: Packet, inst: Name, fs: List<FieldDecl>, cur: nat, cfg: Config)
    ensures var r := ReadFields(pkt, inst, true, fs, cur, cfg); r.Go? ==> r.cfg.pos == cfg.pos
    decreases fs
  {
    if fs.Cons? {
      FieldsCons(pkt, inst, true, fs, cur, cfg);
      var r := ReadField(pkt, inst, fs.head, cur, cfg.pos, cfg);
      if r.Go? {
        FieldsMove(pkt, inst, fs.tail, cur + FieldLen(fs.head.width, cfg).value, r.cfg);
      }
    }
  }

  lemma FixedHeader(pkt: Packet, ex: Extract, cfg: Config, ws: List<nat>)
    requires StaticWidths(ex.fields) && Starts(ex.fields, ws) && cfg.regions == [] && cfg.pos <= |pkt|
    ensures HeaderIs(Header(pkt, ex, cfg), pkt, cfg, ex, Whole(pkt, cfg.pos, StaticBits(ex.fields)), ws)
  {
    hide ReadFields, StaticWidths, StaticBits, Starts;
    var c := BeginHeader(ex, cfg);
    HeaderVisits(pkt, ex, cfg);
    FieldsInBounds(pkt, ex.inst, ex.lookahead, ex.fields, cfg.pos, c);
    StaticExact(pkt, ex.inst, ex.lookahead, ex.fields, cfg.pos, c);
    CutShort(pkt, ex.inst, ex.lookahead, ex.fields, ws, cfg.pos, c);
    FieldsKeepRest(pkt, ex.inst, ex.lookahead, ex.fields, cfg.pos, c);
    if ex.lookahead {
      FieldsMove(pkt, ex.inst, ex.fields, cfg.pos, c);
    }
  }

  /** Reading touches neither the regions nor the registers. */
  lemma {:induction false} FieldsKeepRest(pkt: Packet, inst: Name, peek: bool, fs: List<FieldDecl>, cur: nat, cfg: Config)
    ensures var r := ReadFields(pkt, inst, peek, fs, cur, cfg);
            !r.Fault? ==> r.cfg.regions == cfg.regions && r.cfg.meta == cfg.meta
    decreases fs
  {
    if fs.Cons? {
      FieldsCons(pkt, inst, peek, fs, cur, cfg);
      var r := ReadField(pkt, inst, fs.head, cur, if peek then cfg.pos else cur, cfg);
      if r.Go? {
        FieldsKeepRest(pkt, inst, peek, fs.tail, cur + FieldLen(fs.head.width, cfg).value, r.cfg);
      }
    }
  }

  /** A header of 160 fixed bits, then options counted by the nibble at bit at. */
  lemma WordsHeader(pkt: Packet, ex: Extract, cfg: Config, nibble: Name, at: nat, ws: List<nat>)
    requires OptionsAt(ex.fields, ex.inst, nibble, at) && !ex.lookahead && Starts(ex.fields, ws)
    requires cfg.regions == [] && cfg.pos <= |pkt| <= 0x8000_0000_0000_0000 && at <= 156
    ensures HeaderIs(Header(pkt, ex, cfg), pkt, cfg, ex, Words(pkt, cfg.pos, at), ws)
  {
    hide ReadFields, EndsInOptions, DistinctNames, HasFixed, Starts, Read;
    var c := BeginHeader(ex, cfg);
    HeaderVisits(pkt, ex, cfg);
    OptionsExact(pkt, ex.inst, nibble, ex.fields, cfg.pos, c);
    CutShort(pkt, ex.inst, false, ex.fields, ws, cfg.pos, c);
    FieldsKeepRest(pkt, ex.inst, false, ex.fields, cfg.pos, c);
  }

  // ---- Keys ----

  /** f is a fixed field of at most 64 bits, and so are the fields before it. */
  predicate LeadsTo(fs: List<FieldDecl>, f: Name)
    decreases fs
  {
    fs.Cons? && fs.head.width.Fixed? && fs.head.width.bits <= 64 && (fs.head.name == f || LeadsTo(fs.tail, f))
  }

  lemma HeadRead(pkt: Packet, inst: Name, d: FieldDecl, cur: nat, at: nat, cfg: Config)
    requires d.width.Fixed? && d.width.bits <= 64
    ensures FieldLen(d.width, cfg) == Some(d.width.bits)
    ensures var r := ReadField(pkt, inst, d, cur, at, cfg);
            r.Go? ==> ReadsAs(pkt, inst, d.name, cur, d.width.bits, r.cfg.env)
  {
    if cur + d.width.bits <= |pkt| {
      ReadBound(pkt, cur, d.width.bits);
      Pow2Mono(d.width.bits, 64);
      Pow2Small();
    }
  }

  /** The field has the value that the n bits at cur spell. */
  predicate ReadsAs(pkt: Packet, inst: Name, f: Name, cur: nat, n: nat, env: Env) {
    cur + n <= |pkt| && Read(pkt, cur, n) < TWO64 && Has(env, inst, f, Read(pkt, cur, n))
  }

  lemma {:induction false} FieldRead(
    pkt: Packet, inst: Name, peek: bool, fs: List<FieldDecl>, f: Name, cur: nat, cfg: Config)
    requires DistinctNames(fs) && LeadsTo(fs, f)
    ensures var r := ReadFields(pkt, inst, peek, fs, cur, cfg);
            r.Go? ==> ReadsAs(pkt, inst, f, cur + OffsetOf(fs, f), FieldWidth(fs, f), r.cfg.env)
    decreases fs
  {
    hide Read, HasField, ReadFields, ReadField, FieldLen;
    var at := if peek then cfg.pos else cur;
    var n := fs.head.width.bits;
    FieldsCons(pkt, inst, peek, fs, cur, cfg);
    HeadRead(pkt, inst, fs.head, cur, at, cfg);
    var r := ReadField(pkt, inst, fs.head, cur, at, cfg);
    if r.Go? {
      if fs.head.name == f {
        OthersKept(pkt, inst, peek, fs.tail, cur + n, r.cfg, FieldRef(inst, f));
      } else {
        FieldRead(pkt, inst, peek, fs.tail, f, cur + n, r.cfg);
        assert cur + n + OffsetOf(fs.tail, f) == cur + OffsetOf(fs, f);
      }
    }
  }

  /** f is n bits at bit off of the header. */
  predicate KeyAt(fs: List<FieldDecl>, f: Name, off: nat, n: nat) {
    DistinctNames(fs) && LeadsTo(fs, f) && OffsetOf(fs, f) == off && FieldWidth(fs, f) == n
  }

  /** What a select on the field reads. */
  lemma KeyRead(pkt: Packet, ex: Extract, f: Name, off: nat, n: nat, cfg: Config)
    requires KeyAt(ex.fields, f, off, n)
    ensures var r := Header(pkt, ex, cfg);
            r.Go? ==> cfg.pos + off + n <= |pkt| && KeyIs(Ref(ex.inst, f), r.cfg, Read(pkt, cfg.pos + off, n))
  {
    hide ReadFields, Read, DistinctNames, LeadsTo;
    FieldRead(pkt, ex.inst, ex.lookahead, ex.fields, f, cfg.pos, BeginHeader(ex, cfg));
  }

  // ---- Selects ----

  predicate ExactEntries(es: List<Entry>)
    decreases es
  {
    es.Cons? ==> es.head.Value? && ExactEntries(es.tail)
  }

  predicate ExactArms(arms: List<Arm>)
    decreases arms
  {
    arms.Cons? ==> ExactEntries(arms.head.entries) && ExactArms(arms.tail)
  }

  function Exactly(ks: List<u64>): List<Entry>
    decreases ks
  {
    if ks.Nil? then Nil else Cons(Value(ks.head), Exactly(ks.tail))
  }

  /** Where the first arm that spells es leads. */
  function Found(arms: List<Arm>, es: List<Entry>, other: Target): Target
    decreases arms
  {
    match arms
    case Nil => other
    case Cons(a, rest) => if a.entries == es then a.next else Found(rest, es, other)
  }

  lemma {:induction false} ExactMatch(es: List<Entry>, ks: List<u64>)
    requires ExactEntries(es)
    ensures MatchesAll(es, ks) <==> es == Exactly(ks)
    decreases es
  {
    if es.Cons? && ks.Cons? {
      ExactMatch(es.tail, ks.tail);
    }
  }

  lemma {:induction false} ChooseExact(arms: List<Arm>, other: Target, ks: List<u64>)
    requires ExactArms(arms)
    ensures Choose(arms, Some(other), ks) == Some(Found(arms, Exactly(ks), other))
    decreases arms
  {
    hide Exactly, MatchesAll, ExactEntries;
    if arms.Cons? {
      ExactMatch(arms.head.entries, ks);
      ChooseExact(arms.tail, other, ks);
    }
  }

  /** A select of exact arms on one key. */
  lemma DecideKey(key: Expr, arms: List<Arm>, other: Target, c: Config, k: nat)
    requires KeyIs(key, c, k) && ExactArms(arms)
    ensures Decide(On(key, arms, other), c) == To(Found(arms, Cons(Value(k), Nil), other))
  {
    DecideOne(key, arms, Some(other), c, k);
    ChooseExact(arms, other, Cons(k, Nil));
    assert Exactly(Cons(k, Nil)) == Cons(Value(k), Nil);
  }

  /** A select of exact arms on two keys. */
  lemma DecideKeys(first: Expr, second: Expr, arms: List<Arm>, other: Target, c: Config, a: nat, b: nat)
    requires KeyIs(first, c, a) && KeyIs(second, c, b) && ExactArms(arms)
    ensures Decide(Select(Cons(first, Cons(second, Nil)), arms, Some(other)), c)
         == To(Found(arms, Cons(Value(a), Cons(Value(b), Nil)), other))
  {
    var rem := RemainingAt(c.regions, c.pos);
    assert EvalKeys(Nil, c.env, c.meta, rem) == Some(Nil);
    assert EvalKeys(Cons(second, Nil), c.env, c.meta, rem) == Some(Cons(b, Nil));
    assert EvalKeys(Cons(first, Cons(second, Nil)), c.env, c.meta, rem) == Some(Cons(a, Cons(b, Nil)));
    ChooseExact(arms, other, Cons(a, Cons(b, Nil)));
    assert Exactly(Cons(b, Nil)) == Cons(Value(b), Nil);
  }

  /** What a state does that reads one header and branches on the n bits at bit off of it. */
  lemma KeyDecides(pkt: Packet, ex: Extract, cfg: Config, f: Name, off: nat, n: nat, arms: List<Arm>, other: Target)
    requires KeyAt(ex.fields, f, off, n) && ExactArms(arms)
    ensures var r := Header(pkt, ex, cfg);
            r.Go? ==>
              && cfg.pos + off + n <= |pkt| && Read(pkt, cfg.pos + off, n) < TWO64
              && Decide(On(Ref(ex.inst, f), arms, other), r.cfg)
                 == To(Found(arms, Cons(Value(Read(pkt, cfg.pos + off, n)), Nil), other))
  {
    hide Header, KeyAt, Found, ExactArms, Read, Decide, On, Eval;
    KeyRead(pkt, ex, f, off, n, cfg);
    var r := Header(pkt, ex, cfg);
    if r.Go? {
      DecideKey(Ref(ex.inst, f), arms, other, r.cfg, Read(pkt, cfg.pos + off, n));
    }
  }
}
