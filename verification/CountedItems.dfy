/** The counted_items description: a count, then that many one-byte items, counted down in a
    metadata register against the depth budget; and its generated parse core. */
module CountedItems {
  import opened Bits
  import opened Ir
  import opened Semantics
  import opened Regions
  import opened WholeBytes

  const COUNT: Name := 0
  const ITEM: Name := 1

  const DONE: Name := 0
  const REMAINING: Name := 1

  const PARSE_COUNT: Name := 0
  const PARSE_ITEM: Name := 1
  const MARK_DONE: Name := 2

  function LoopSelect(): Transition {
    Select(Cons(Expr.Meta(REMAINING), Nil), Cons(Arm(Cons(Value(0), Nil), ToState(MARK_DONE)), Nil), Some(ToState(PARSE_ITEM)))
  }

  /** Reads one byte into inst and sets the register. */
  function Reads(inst: Name, value: Expr): State {
    State(Cons(Extract(inst, Cons(UintField(0, 1), Nil), false), Nil), Cons(Assign(REMAINING, value), Nil), Nil, LoopSelect())
  }

  function CountValue(): Expr {
    Field(FieldRef(COUNT, 0))
  }

  function ItemValue(): Expr {
    Bin(Sub, Expr.Meta(REMAINING), Const(1))
  }

  function MarkDone(): State {
    State(Nil, Cons(Assign(DONE, Const(1)), Nil), Nil, Direct(ToAccept))
  }

  /** max_depth is 8 in the repository. */
  function Description(depth: nat): Program {
    Program([Reads(COUNT, CountValue()), Reads(ITEM, ItemValue()), MarkDone()], PARSE_COUNT,
            [MetaDecl(1, 0), MetaDecl(8, 0)], depth)
  }

  // ---- What it answers ----

  datatype Answer = Answer(outcome: Outcome, at: nat)

  /** At byte i with r items to go and b states left. */
  function Rest(len: nat, i: nat, r: nat, b: nat): Answer
    requires i <= len
  {
    if r + 1 <= b && i + r <= len then Answer(Accepted, i + r)
    else if r + 1 > b && i + b <= len then Answer(Rejected(MaxDepthExceeded), i + b)
    else Answer(Rejected(OutOfBounds), len)
  }

  function Expected(s: seq<byte>, depth: nat): Answer {
    if depth == 0 then Answer(Rejected(MaxDepthExceeded), 0)
    else if s == [] then Answer(Rejected(OutOfBounds), 0)
    else Rest(|s|, 1, U8(s, 0), depth - 1)
  }

  predicate Agrees(r: Result, a: Answer) {
    r.outcome == a.outcome && r.consumed == 8 * a.at
  }

  predicate Counts(cfg: Config, r: nat) {
    REMAINING in cfg.meta && cfg.meta[REMAINING] == r
  }

  lemma ByteWide(v: nat)
    requires v < 256
    ensures Truncate(v, 8) == v
  {
    assert Pow2(8) == 256;
  }

  /** One of the two reading states, whose new register value is r. */
  lemma ReadStep(
    p: Program, pkt: Packet, s: seq<byte>, rule: PopRule, q: Name, inst: Name, value: Expr, cfg: Config, h: Config, i: nat, r: nat)
    returns (c: Config)
    requires q < |p.states| && p.states[q] == Reads(inst, value) && p.metadata == [MetaDecl(1, 0), MetaDecl(8, 0)]
    requires Header(pkt, Reads(inst, value).extracts.head, cfg) == Go(h) && At(pkt, h, i, []) && r < 256
    requires Eval(value, h.env, h.meta, None) == Some(r)
    ensures Step(p, pkt, rule, q, cfg) == Next(if r == 0 then MARK_DONE else PARSE_ITEM, c)
    ensures At(pkt, c, i, []) && Counts(c, r)
  {
    var st := Reads(inst, value);
    ByteWide(r);
    c := h.(meta := h.meta[REMAINING := r]);
    assert RunExtracts(pkt, st.extracts, cfg) == Go(h);
    assert RunAssigns(p.metadata, st.assigns.tail, c) == Go(c);
    assert RunAssigns(p.metadata, st.assigns, h) == Go(c);
    DecideOne(Expr.Meta(REMAINING), LoopSelect().arms, LoopSelect().default, c, r);
  }

  lemma DoneRun(p: Program, pkt: Packet, rule: PopRule, cfg: Config, b: nat)
    requires p.states == Description(0).states && p.metadata == Description(0).metadata && b > 0
    ensures var r := RunFrom(p, pkt, rule, MARK_DONE, cfg, b); r.outcome == Accepted && r.consumed == cfg.pos
  {
    var asgs := MarkDone().assigns;
    var c := cfg.(meta := cfg.meta[DONE := Truncate(1, 1)]);
    assert RunAssigns(p.metadata, asgs.tail, c) == Go(c);
    assert RunAssigns(p.metadata, asgs, cfg) == Go(c);
  }

  /** A reading state once entered: the next state's run, or the bounds reject. */
  lemma ReadRun(
    p: Program, pkt: Packet, s: seq<byte>, rule: PopRule, q: Name, inst: Name, value: Expr, cfg: Config, i: nat, r: nat, b: nat)
    returns (c: Config)
    requires q < |p.states| && p.states[q] == Reads(inst, value) && p.metadata == [MetaDecl(1, 0), MetaDecl(8, 0)]
    requires Holds(pkt, s) && At(pkt, cfg, i, []) && b > 0 && r < 256
    requires i < |s| && value == CountValue() ==> inst == COUNT && r == U8(s, i)
    requires value != CountValue() ==> value == ItemValue() && REMAINING in cfg.meta && cfg.meta[REMAINING] == r + 1
    ensures var x := RunFrom(p, pkt, rule, q, cfg, b);
            if i >= |s| then x.outcome == Rejected(OutOfBounds) && x.consumed == 8 * i
            else x == RunFrom(p, pkt, rule, if r == 0 then MARK_DONE else PARSE_ITEM, c, b - 1)
                 && At(pkt, c, i + 1, []) && Counts(c, r)
  {
    if i >= |s| {
      c := cfg;
    } else {
      var h := OneUint(pkt, s, Reads(inst, value).extracts.head, i, 1, cfg, []);
      BeSmall(s, i);
      c := ReadStep(p, pkt, s, rule, q, inst, value, cfg, h, i + 1, r);
    }
  }

  lemma {:induction false} ItemsRun(p: Program, pkt: Packet, s: seq<byte>, rule: PopRule, cfg: Config, i: nat, r: nat, b: nat)
    requires p.states == Description(0).states && p.metadata == Description(0).metadata
    requires Holds(pkt, s) && At(pkt, cfg, i, []) && Counts(cfg, r) && 0 < r < 256 && i <= |s|
    ensures Agrees(RunFrom(p, pkt, rule, PARSE_ITEM, cfg, b), Rest(|s|, i, r, b))
    decreases b, 0
  {
    if b > 0 {
      var c := ReadRun(p, pkt, s, rule, PARSE_ITEM, ITEM, ItemValue(), cfg, i, r - 1, b);
      if i < |s| {
        AfterOne(p, pkt, s, rule, c, i + 1, r - 1, b - 1);
      }
    }
  }

  lemma {:induction false} AfterOne(p: Program, pkt: Packet, s: seq<byte>, rule: PopRule, c: Config, i: nat, r: nat, b: nat)
    requires p.states == Description(0).states && p.metadata == Description(0).metadata
    requires Holds(pkt, s) && At(pkt, c, i, []) && Counts(c, r) && r < 256 && i <= |s|
    ensures Agrees(RunFrom(p, pkt, rule, if r == 0 then MARK_DONE else PARSE_ITEM, c, b), Rest(|s|, i, r, b))
    decreases b, 1
  {
    if r > 0 {
      ItemsRun(p, pkt, s, rule, c, i, r, b);
    } else if b > 0 {
      DoneRun(p, pkt, rule, c, b);
    }
  }

  lemma FromStart(p: Program, pkt: Packet, s: seq<byte>, rule: PopRule, cfg: Config, depth: nat)
    requires p.states == Description(0).states && p.metadata == Description(0).metadata
    requires Holds(pkt, s) && At(pkt, cfg, 0, []) && depth > 0
    ensures Agrees(RunFrom(p, pkt, rule, PARSE_COUNT, cfg, depth), Expected(s, depth))
  {
    hide Holds, At, Rest, Counts;
    var n := if s == [] then 0 else U8(s, 0);
    var c := ReadRun(p, pkt, s, rule, PARSE_COUNT, COUNT, CountValue(), cfg, 0, n, depth);
    if s != [] {
      AfterOne(p, pkt, s, rule, c, 1, n, depth - 1);
    }
  }

  /** For every packet and budget D >= 1: with n the count and L the length, accept with
      8 * (1 + n) bits iff n + 2 <= D and the items are there; otherwise "max depth exceeded"
      iff n + 2 > D and 8 * D bits are there; otherwise "out of bounds" at 8 * (L / 8).  With
      no budget at all, "max depth exceeded" at once. */
  lemma ExactOutcome(pkt: Packet, rule: PopRule, depth: nat)
    ensures Agrees(Parse(Description(depth), pkt, rule), Expected(BytesOf(pkt), depth))
  {
    var p := Description(depth);
    HoldsOwn(pkt);
    if depth > 0 {
      FromStart(p, pkt, BytesOf(pkt), rule, Initial(p), depth);
    }
  }

  // ---- The generated parse core ----

  datatype Struct = Struct(
    outcome: nat, reason: Option<Reason>, consumed: u64,
    countPresent: bool, n: byte, itemPresent: bool, v: byte, remaining: u64, done: u64)

  const ZERO: Struct := Struct(0, None, 0, false, 0, false, 0, 0, 0)

  function Rejecting(o: Struct, reason: Reason, off: u64): Struct {
    o.(outcome := 1, reason := Some(reason), consumed := off)
  }

  /** Count, last item read and register when the cursor is at byte i. */
  predicate Stored(r: Struct, s: seq<byte>, i: nat) {
    && i <= |s| && r.n == (if i >= 1 then s[0] else 0) && r.v == (if i >= 2 then s[i - 1] else 0)
    && r.remaining == (if i >= 1 then U8(s, 0) - (i - 1) else 0)
  }

  /** What the struct says when the description answers a. */
  predicate Says(r: Struct, a: Answer, s: seq<byte>, depth: nat) {
    && r.consumed == 8 * a.at && Stored(r, s, a.at)
    && (if a.outcome == Accepted then r.outcome == 0 && r.reason == None && r.done == 1
        else r.outcome == 1 && a.outcome.Rejected? && r.reason == Some(a.outcome.reason) && r.done == 0)
    && r.countPresent == (depth > 0) && r.itemPresent == (depth >= 2 && s != [] && s[0] > 0)
  }

  /** What is left to answer when the switch is about to enter state. */
  function Pending(len: nat, state: Name, i: nat, r: nat, b: nat, s: seq<byte>): Answer
    requires i <= len
  {
    if state == PARSE_COUNT then Expected(s, b) else Rest(len, i, if state == MARK_DONE then 0 else r, b)
  }

  lemma LowByte(x: nat)
    ensures BitAnd(x, 0xff) == x % 256
  {
    assert Pow2(8) == 256;
    AndLowMask(x, 8);
  }

  /** case PK_S_PARSE_COUNT: ok unless the byte is missing. */
  method CaseCount(buf: seq<byte>, bitLen: u64, off: u64, o: Struct) returns (ok: bool, out: Struct, next: Name)
    requires off <= bitLen <= 0x8000_0000_0000_0000 && bitLen <= 8 * |buf|
    ensures ok <==> off + 8 <= bitLen
    ensures if !ok then out == o.(countPresent := true)
            else off / 8 < |buf| && out == o.(countPresent := true, n := buf[off / 8], remaining := buf[off / 8])
                 && next == if out.remaining == 0 then MARK_DONE else PARSE_ITEM
  {
    out, next := o.(countPresent := true), PARSE_COUNT;
    if Wrap(off + 8) > bitLen {
      return false, out, next;
    }
    out := out.(n := buf[off / 8]);
    LowByte(out.n);
    out := out.(remaining := BitAnd(out.n, 0xff));
    ok, next := true, if out.remaining == 0 then MARK_DONE else PARSE_ITEM;
  }

  /** case PK_S_PARSE_ITEM: the decrement is modulo 2^64 and then masked to 8 bits. */
  method CaseItem(buf: seq<byte>, bitLen: u64, off: u64, o: Struct) returns (ok: bool, out: Struct, next: Name)
    requires off <= bitLen <= 0x8000_0000_0000_0000 && bitLen <= 8 * |buf| && o.remaining < 256
    ensures ok <==> off + 8 <= bitLen
    ensures if !ok then out == o.(itemPresent := true)
            else
              && off / 8 < |buf|
              && out == o.(itemPresent := true, v := buf[off / 8], remaining := if o.remaining > 0 then o.remaining - 1 else 255)
              && next == if out.remaining == 0 then MARK_DONE else PARSE_ITEM
  {
    out, next := o.(itemPresent := true), PARSE_ITEM;
    if Wrap(off + 8) > bitLen {
      return false, out, next;
    }
    out := out.(v := buf[off / 8]);
    LowByte(Wrap(out.remaining - 1));
    out := out.(remaining := BitAnd(Wrap(out.remaining - 1), 0xff));
    ok, next := true, if out.remaining == 0 then MARK_DONE else PARSE_ITEM;
  }

  /** The loop and switch as generated: it answers what the description does.  wrapped tells
      whether any decrement took 0 to 255. */
  method ParseCore(buf: seq<byte>, bitLen: u64, maxDepth: nat) returns (out: Struct, ghost wrapped: bool)
    requires bitLen <= 8 * |buf| && bitLen <= 0x8000_0000_0000_0000
    ensures Says(out, Expected(buf[..bitLen / 8], maxDepth), buf[..bitLen / 8], maxDepth)
    ensures !wrapped
  {
    ghost var s := buf[..bitLen / 8];
    var off: u64, state: Name := 0, PARSE_COUNT;
    out, wrapped := ZERO, false;
    var depth := 0;
    ghost var i: nat := 0;
    while depth < maxDepth
      invariant depth <= maxDepth && off == 8 * i && off <= bitLen && i <= |s| && !wrapped
      invariant out.outcome == 0 && out.done == 0 && Stored(out, s, i) && out.remaining < 256
      invariant if state == PARSE_COUNT then i == 0 && depth == 0 && out == ZERO else i == depth && depth >= 1 && out.countPresent
      invariant out.itemPresent == (i >= 2) && state <= MARK_DONE
      invariant (state == PARSE_ITEM ==> out.remaining > 0) && (state == MARK_DONE ==> out.remaining == 0)
      invariant Expected(s, maxDepth) == Pending(|s|, state, i, out.remaining, maxDepth - depth, s)
    {
      var ok: bool;
      if state == PARSE_COUNT {
        ok, out, state := CaseCount(buf, bitLen, off, out);
      } else if state == PARSE_ITEM {
        wrapped := wrapped || out.remaining == 0;
        ok, out, state := CaseItem(buf, bitLen, off, out);
      } else {
        return out.(done := 1, outcome := 0, reason := None, consumed := off), wrapped;
      }
      if !ok {
        return Rejecting(out, OutOfBounds, off), wrapped;
      }
      off := Wrap(off + 8);
      i := i + 1;
      depth := depth + 1;
    }
    out := Rejecting(out, MaxDepthExceeded, off);
  }
}
