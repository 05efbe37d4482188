/** The tlv_items description: a one-byte length opens a region of (kind, length, value)
    items, which must fill it exactly. */
module TlvItems {
  import opened Bits
  import opened Ir
  import opened Semantics
  import opened Regions
  import opened Totality
  import opened Loads
  import opened ParseCore
  import opened Certificates
  import opened Generator
  import opened WholeBytes
  import opened Alignment
  import opened ByteView
  import opened PopRules

  // ---- The description ----

  const TOTAL_LEN: Name := 0
  const TOTAL: Name := 0
  const ITEM: Name := 1
  const KIND: Name := 0
  const LN: Name := 1
  const VAL: Name := 2

  const PARSE_TOTAL: Name := 0
  const TLV_LOOP: Name := 1
  const PARSE_ITEM: Name := 2
  const CLOSE: Name := 3

  function Byte(name: Name): FieldDecl {
    FieldDecl(name, Fixed(8))
  }

  function ItemFields(): List<FieldDecl> {
    Cons(Byte(KIND), LengthAndValue())
  }

  function LengthAndValue(): List<FieldDecl> {
    Cons(Byte(LN), Cons(FieldDecl(VAL, BitLen(TimesEight(Field(FieldRef(ITEM, LN))))), Nil))
  }

  function ParseTotal(): State {
    State(Cons(Extract(TOTAL_LEN, Cons(Byte(TOTAL), Nil), false), Nil), Nil,
          Cons(Push(TimesEight(Field(FieldRef(TOTAL_LEN, TOTAL)))), Nil), Direct(ToState(TLV_LOOP)))
  }

  /** The loop head tests remaining() in bytes; the builder's twin tests it in bits. */
  function TlvLoop(inBytes: bool): State {
    State(Nil, Nil, Nil,
          Select(Cons(if inBytes then RemainingBytes() else Remaining, Nil),
                 Cons(Arm(Cons(Value(0), Nil), ToState(CLOSE)), Nil), Some(ToState(PARSE_ITEM))))
  }

  function ParseItem(): State {
    State(Cons(Extract(ITEM, ItemFields(), false), Nil), Nil, Nil, Direct(ToState(TLV_LOOP)))
  }

  function Close(): State {
    State(Nil, Nil, Cons(Pop, Nil), Direct(ToAccept))
  }

  /** max_depth is 8 in the repository. */
  function Description(inBytes: bool, depth: nat): Program {
    Program([ParseTotal(), TlvLoop(inBytes), ParseItem(), Close()], PARSE_TOTAL, [], depth)
  }

  // ---- The same run over bytes ----

  /** Outcome, byte where it stopped, and byte of the last item's header. */
  datatype Scanned = Scanned(outcome: Outcome, at: nat, last: Option<nat>)

  function Short(end: nat, e: nat, at: nat): Scanned {
    Scanned(Rejected(Shortage([end], e)), at, None)
  }

  /** A loop head at byte i of a region ending at byte end, b states still to be entered. */
  function ScanLoop(s: seq<byte>, i: nat, end: nat, last: Option<nat>, b: nat): Scanned
    decreases b
  {
    if b <= 1 then Scanned(Rejected(MaxDepthExceeded), i, None)
    else if i == end then Scanned(Accepted, i, last)
    else ScanItem(s, i, end, b - 1)
  }

  function ScanItem(s: seq<byte>, i: nat, end: nat, b: nat): Scanned
    requires b > 0
    decreases b
  {
    if i + 1 > end || i + 1 > |s| then Short(end, i + 1, i)
    else if i + 2 > end || i + 2 > |s| then Short(end, i + 2, i + 1)
    else
      var next := i + 2 + U8(s, i + 1);
      if next > end || next > |s| then Short(end, next, i + 2)
      else ScanLoop(s, next, end, Some(i), b - 1)
  }

  function Scan(s: seq<byte>, depth: nat): Scanned {
    if depth == 0 then Scanned(Rejected(MaxDepthExceeded), 0, None)
    else if s == [] then Scanned(Rejected(OutOfBounds), 0, None)
    else ScanLoop(s, 1, 1 + U8(s, 0), None, depth - 1)
  }

  /** The item slots hold the item whose header is at byte last. */
  ghost predicate HoldsItem(env: Env, s: seq<byte>, last: Option<nat>) {
    match last
    case None => forall f :: FieldRef(ITEM, f) !in env
    case Some(j) =>
      && j + 1 < |s| && Has(env, ITEM, KIND, U8(s, j)) && Has(env, ITEM, LN, U8(s, j + 1))
      && FieldRef(ITEM, VAL) in env && env[FieldRef(ITEM, VAL)] == Run(8 * (j + 2), 8 * U8(s, j + 1))
  }

  ghost predicate Agrees(r: Result, sc: Scanned, s: seq<byte>) {
    && r.outcome == sc.outcome && r.consumed == 8 * sc.at
    && (sc.outcome == Accepted ==> HoldsItem(r.cfg.env, s, sc.last))
  }

  /** The region stack of every state after the first. */
  predicate InRegion(cfg: Config, end: nat) {
    |cfg.regions| == 1 && cfg.regions[0] == 8 * end
  }

  lemma ValueRead(pkt: Packet, s: seq<byte>, cfg: Config, i: nat, n: nat, end: nat) returns (c: Config)
    requires Holds(pkt, s) && InRegion(cfg, end) && Has(cfg.env, ITEM, LN, n) && n < 256
    ensures var r := ReadFields(pkt, ITEM, false, LengthAndValue().tail, 8 * i, cfg);
            if Room(s, [end], i + n) then
              && r == Go(c) && c.pos == 8 * (i + n) && InRegion(c, end)
              && c.env == cfg.env[FieldRef(ITEM, VAL) := Run(8 * i, 8 * n)]
            else r == Stop(Shortage([end], i + n), 8 * i, cfg)
  {
    var fs := LengthAndValue().tail;
    EvalTimesEight(Field(FieldRef(ITEM, LN)), cfg.env, cfg.meta, None, n);
    c := VarField(pkt, s, ITEM, fs, i, n, cfg, [end]);
    if Room(s, [end], i + n) {
      c := c.(pos := 8 * (i + n));
    }
  }

  lemma LengthRead(pkt: Packet, s: seq<byte>, cfg: Config, i: nat, end: nat) returns (c: Config)
    requires Holds(pkt, s) && InRegion(cfg, end)
    ensures var r := ReadFields(pkt, ITEM, false, LengthAndValue(), 8 * i, cfg);
            if i + 1 > end || i + 1 > |s| then r == Stop(Shortage([end], i + 1), 8 * i, cfg)
            else
              var next := i + 1 + U8(s, i);
              if next > end || next > |s| then r.Stop? && r.reason == Shortage([end], next) && r.consumed == 8 * (i + 1)
              else
                && r == Go(c) && c.pos == 8 * next && InRegion(c, end)
                && c.env == cfg.env[FieldRef(ITEM, LN) := Uint(U8(s, i))]
                                   [FieldRef(ITEM, VAL) := Run(8 * (i + 1), 8 * U8(s, i))]
  {
    hide ReadFields, Holds, Be;
    var v;
    c, v := FixedField(pkt, s, ITEM, LengthAndValue(), i, 1, cfg, [end]);
    if Room(s, [end], i + 1) {
      BeSmall(s, i);
      c := ValueRead(pkt, s, c, i + 1, U8(s, i), end);
    }
  }

  lemma SlotsHold(env: Env, s: seq<byte>, j: nat)
    requires j + 1 < |s|
    ensures HoldsItem(env[FieldRef(ITEM, KIND) := Uint(U8(s, j))][FieldRef(ITEM, LN) := Uint(U8(s, j + 1))]
                         [FieldRef(ITEM, VAL) := Run(8 * (j + 2), 8 * U8(s, j + 1))], s, Some(j))
  {
  }

  lemma ItemRead(pkt: Packet, s: seq<byte>, cfg: Config, i: nat, end: nat) returns (c: Config)
    requires Holds(pkt, s) && InRegion(cfg, end)
    ensures var r := ReadFields(pkt, ITEM, false, ItemFields(), 8 * i, cfg);
            if i + 1 > end || i + 1 > |s| then r == Stop(Shortage([end], i + 1), 8 * i, cfg)
            else if i + 2 > end || i + 2 > |s| then r.Stop? && r.reason == Shortage([end], i + 2) && r.consumed == 8 * (i + 1)
            else
              var next := i + 2 + U8(s, i + 1);
              if next > end || next > |s| then r.Stop? && r.reason == Shortage([end], next) && r.consumed == 8 * (i + 2)
              else r == Go(c) && c.pos == 8 * next && InRegion(c, end) && HoldsItem(c.env, s, Some(i))
  {
    var v;
    c, v := FixedField(pkt, s, ITEM, ItemFields(), i, 1, cfg, [end]);
    if Room(s, [end], i + 1) {
      BeSmall(s, i);
      c := LengthRead(pkt, s, c, i + 1, end);
      if i + 1 < |s| {
        SlotsHold(cfg.env, s, i);
      }
    }
  }

  // ---- Steps ----

  /** Either spelling of the loop test, any budget. */
  ghost predicate Describes(p: Program) {
    (p.states == Description(true, 0).states || p.states == Description(false, 0).states) && p.start == PARSE_TOTAL
  }

  lemma ItemStep(p: Program, pkt: Packet, s: seq<byte>, rule: PopRule, cfg: Config, i: nat, end: nat) returns (c: Config)
    requires Describes(p) && Holds(pkt, s) && At(pkt, cfg, i, [end])
    ensures var r := Step(p, pkt, rule, PARSE_ITEM, cfg);
            if i + 1 > end || i + 1 > |s| then Stopped(r, Shortage([end], i + 1), i)
            else if i + 2 > end || i + 2 > |s| then Stopped(r, Shortage([end], i + 2), i + 1)
            else
              var next := i + 2 + U8(s, i + 1);
              if next > end || next > |s| then Stopped(r, Shortage([end], next), i + 2)
              else r == Next(TLV_LOOP, c) && At(pkt, c, next, [end]) && HoldsItem(c.env, s, Some(i))
  {
    var start := BeginHeader(ParseItem().extracts.head, cfg);
    OneExtract(pkt, rule, p.metadata, ParseItem(), cfg);
    StepKeeps(p, pkt, rule, PARSE_ITEM, cfg);
    c := ItemRead(pkt, s, start, i, end);
  }

  predicate Stopped(r: StepResult, reason: Reason, at: nat) {
    r.Done? && r.result.outcome == Rejected(reason) && r.result.consumed == 8 * at
  }

  lemma LoopStep(p: Program, pkt: Packet, rule: PopRule, cfg: Config, i: nat, end: nat)
    requires Describes(p) && At(pkt, cfg, i, [end])
    ensures Step(p, pkt, rule, TLV_LOOP, cfg) == Next(if i == end then CLOSE else PARSE_ITEM, cfg)
  {
    var tr := p.states[TLV_LOOP].transition;
    EvalRemaining(pkt, cfg, i, [end]);
    NoBody(pkt, rule, p.metadata, p.states[TLV_LOOP], cfg);
    var v := if p.states == Description(true, 0).states then end - i else 8 * (end - i);
    DecideOne(tr.keys.head, tr.arms, tr.default, cfg, v);
  }

  lemma CloseStep(p: Program, pkt: Packet, rule: PopRule, cfg: Config, i: nat)
    requires Describes(p) && At(pkt, cfg, i, [i])
    ensures var r := Step(p, pkt, rule, CLOSE, cfg);
            r.Done? && r.result.outcome == Accepted && r.result.consumed == 8 * i && r.result.cfg.env == cfg.env
  {
    PopBytes(pkt, rule, cfg, i, [i]);
    NoBody(pkt, rule, p.metadata, Close(), cfg);
  }

  lemma LoopRun(p: Program, pkt: Packet, rule: PopRule, cfg: Config, i: nat, end: nat, b: nat)
    requires Describes(p) && At(pkt, cfg, i, [end]) && b > 0
    ensures RunFrom(p, pkt, rule, TLV_LOOP, cfg, b) == RunFrom(p, pkt, rule, if i == end then CLOSE else PARSE_ITEM, cfg, b - 1)
  {
    LoopStep(p, pkt, rule, cfg, i, end);
  }

  lemma CloseRun(p: Program, pkt: Packet, rule: PopRule, cfg: Config, i: nat, b: nat)
    requires Describes(p) && At(pkt, cfg, i, [i]) && b > 0
    ensures var r := RunFrom(p, pkt, rule, CLOSE, cfg, b);
            r.outcome == Accepted && r.consumed == 8 * i && r.cfg.env == cfg.env
  {
    CloseStep(p, pkt, rule, cfg, i);
  }

  lemma NoBudget(p: Program, pkt: Packet, rule: PopRule, q: Name, cfg: Config)
    ensures RunFrom(p, pkt, rule, q, cfg, 0) == Result(Rejected(MaxDepthExceeded), cfg.pos, cfg)
  {
  }

  lemma {:induction false} LoopIsScan(
    p: Program, pkt: Packet, s: seq<byte>, rule: PopRule, cfg: Config, i: nat, end: nat, last: Option<nat>, b: nat)
    requires Describes(p) && Holds(pkt, s) && At(pkt, cfg, i, [end]) && HoldsItem(cfg.env, s, last)
    ensures Agrees(RunFrom(p, pkt, rule, TLV_LOOP, cfg, b), ScanLoop(s, i, end, last, b), s)
    decreases b
  {
    if b > 0 {
      LoopRun(p, pkt, rule, cfg, i, end, b);
      if b == 1 {
        NoBudget(p, pkt, rule, if i == end then CLOSE else PARSE_ITEM, cfg);
      } else if i == end {
        CloseRun(p, pkt, rule, cfg, i, b - 1);
      } else {
        ItemIsScan(p, pkt, s, rule, cfg, i, end, b - 1);
      }
    }
  }

  lemma {:induction false} ItemIsScan(p: Program, pkt: Packet, s: seq<byte>, rule: PopRule, cfg: Config, i: nat, end: nat, b: nat)
    requires Describes(p) && Holds(pkt, s) && At(pkt, cfg, i, [end]) && b > 0
    ensures Agrees(RunFrom(p, pkt, rule, PARSE_ITEM, cfg, b), ScanItem(s, i, end, b), s)
    decreases b, 0
  {
    hide Step, HoldsItem, At, Holds;
    var c := ItemStep(p, pkt, s, rule, cfg, i, end);
    if i + 2 <= end && i + 2 <= |s| {
      var next := i + 2 + U8(s, i + 1);
      if next <= end && next <= |s| {
        LoopIsScan(p, pkt, s, rule, c, next, end, Some(i), b - 1);
      }
    }
  }

  lemma FirstStep(p: Program, pkt: Packet, s: seq<byte>, rule: PopRule) returns (c: Config)
    requires Describes(p) && Holds(pkt, s)
    ensures var r := Step(p, pkt, rule, PARSE_TOTAL, Initial(p));
            if s == [] then Stopped(r, OutOfBounds, 0)
            else r == Next(TLV_LOOP, c) && At(pkt, c, 1, [1 + U8(s, 0)]) && HoldsItem(c.env, s, None)
  {
    hide Holds, ReadFields, Be, Read;
    SizeOfHeld(pkt, s);
    var cfg := BeginHeader(ParseTotal().extracts.head, Initial(p));
    OneExtract(pkt, rule, p.metadata, ParseTotal(), Initial(p));
    var v;
    c, v := FixedField(pkt, s, TOTAL_LEN, Cons(Byte(TOTAL), Nil), 0, 1, cfg, []);
    if Room(s, [], 1) {
      BeSmall(s, 0);
      NoMoreFields(pkt, TOTAL_LEN, 8, c);
      c := c.(pos := 8);
      EvalTimesEight(Field(FieldRef(TOTAL_LEN, TOTAL)), c.env, c.meta, None, v);
      PushBytes(pkt, TimesEight(Field(FieldRef(TOTAL_LEN, TOTAL))), c, 1, [], v);
      c := PushRegion(TimesEight(Field(FieldRef(TOTAL_LEN, TOTAL))), c).cfg;
    }
  }

  /** For every packet and budget the machine does what the byte scan does. */
  lemma ParseIsScan(p: Program, pkt: Packet, rule: PopRule)
    requires Describes(p)
    ensures Agrees(Parse(p, pkt, rule), Scan(BytesOf(pkt), p.maxDepth), BytesOf(pkt))
  {
    hide Holds, BytesOf, Step, At, HoldsItem;
    var s := BytesOf(pkt);
    HoldsOwn(pkt);
    if p.maxDepth > 0 {
      var c := FirstStep(p, pkt, s, rule);
      if s != [] {
        LoopIsScan(p, pkt, s, rule, c, 1, 1 + U8(s, 0), None, p.maxDepth - 1);
      }
    }
  }

  // ---- The grammar ----

  datatype Item = Item(kind: byte, value: seq<byte>)

  predicate Short8(it: Item) {
    |it.value| < 256
  }

  function EncodeItem(it: Item): (s: seq<byte>)
    requires Short8(it)
    ensures |s| == 2 + |it.value|
  {
    [it.kind, |it.value|] + it.value
  }

  function EncodeItems(items: seq<Item>): seq<byte>
    requires forall it | it in items :: Short8(it)
  {
    if items == [] then [] else EncodeItem(items[0]) + EncodeItems(items[1..])
  }

  /** A message: a length byte and that many bytes of items. */
  ghost predicate Encodes(items: seq<Item>, s: seq<byte>) {
    && (forall it | it in items :: Short8(it))
    && |EncodeItems(items)| < 256
    && s == [|EncodeItems(items)|] + EncodeItems(items)
  }

  /** Bytes i .. end of s are the encoding of items. */
  ghost predicate SpellsItems(s: seq<byte>, i: nat, end: nat, items: seq<Item>) {
    && (forall it | it in items :: Short8(it))
    && i <= end <= |s| && s[i..end] == EncodeItems(items)
  }

  /** An accepted rest of a region is spelled by items that fit the budget. */
  lemma {:induction false} AcceptedSpells(s: seq<byte>, i: nat, end: nat, last: Option<nat>, b: nat) returns (items: seq<Item>)
    requires i <= |s| && ScanLoop(s, i, end, last, b).outcome == Accepted
    ensures SpellsItems(s, i, end, items) && 2 * |items| + 2 <= b
    decreases b
  {
    items := [];
    if i < end {
      var next := i + 2 + U8(s, i + 1);
      var rest := AcceptedSpells(s, next, end, Some(i), b - 2);
      items := [Item(U8(s, i), s[i + 2..next])] + rest;
    }
  }

  /** Byte of the last item's header, if there is one. */
  function LastStart(i: nat, items: seq<Item>, last: Option<nat>): Option<nat>
    decreases |items|
  {
    if items == [] then last else LastStart(i + 2 + |items[0].value|, items[1..], Some(i))
  }

  /** Items in the packet are scanned to the end of their region, or to the budget. */
  lemma {:induction false} SpelledScans(s: seq<byte>, i: nat, end: nat, items: seq<Item>, last: Option<nat>, b: nat)
    requires SpellsItems(s, i, end, items)
    ensures var r := ScanLoop(s, i, end, last, b);
            if 2 * |items| + 2 <= b then r == Scanned(Accepted, end, LastStart(i, items, last))
            else r.outcome == Rejected(MaxDepthExceeded)
    decreases b
  {
    if items != [] {
      if b > 1 {
        SpelledScans(s, i + 2 + |items[0].value|, end, items[1..], Some(i), b - 2);
      }
    }
  }

  lemma {:induction false} ScanReasons(s: seq<byte>, i: nat, end: nat, last: Option<nat>, b: nat)
    ensures ScanLoop(s, i, end, last, b).outcome in
              {Accepted, Rejected(OutOfBounds), Rejected(OutOfRegionBounds), Rejected(MaxDepthExceeded)}
    decreases b
  {
    if b > 1 && i != end && i + 2 <= end && i + 2 <= |s| {
      var next := i + 2 + U8(s, i + 1);
      ScanReasons(s, next, end, Some(i), b - 2);
    }
  }

  // ---- Main results ----

  /** items is encoded at the front of the packet and fits a budget of depth states. */
  ghost predicate Carries(pkt: Packet, items: seq<Item>, depth: nat) {
    && (exists e :: Encodes(items, e) && e <= BytesOf(pkt))
    && 2 * |items| + 3 <= depth
  }

  lemma CarriesSpells(pkt: Packet, items: seq<Item>, depth: nat)
    ensures Carries(pkt, items, depth) <==>
              var s := BytesOf(pkt);
              s != [] && SpellsItems(s, 1, 1 + U8(s, 0), items) && 2 * |items| + 3 <= depth
  {
    var s := BytesOf(pkt);
    if Carries(pkt, items, depth) {
      var e :| Encodes(items, e) && e <= s;
      assert s[0] == e[0];
      assert s[1..|e|] == e[1..];
    }
    if s != [] && SpellsItems(s, 1, 1 + U8(s, 0), items) {
      var e := s[..1 + U8(s, 0)];
      assert e == [s[0]] + s[1..1 + U8(s, 0)];
      assert Encodes(items, e);
    }
  }

  lemma ScanAccepts(s: seq<byte>, items: seq<Item>, depth: nat)
    requires s != [] && SpellsItems(s, 1, 1 + U8(s, 0), items) && 2 * |items| + 3 <= depth
    ensures Scan(s, depth) == Scanned(Accepted, 1 + |EncodeItems(items)|, LastStart(1, items, None))
  {
    SpelledScans(s, 1, 1 + U8(s, 0), items, None, depth - 1);
    assert |s[1..1 + U8(s, 0)]| == U8(s, 0);
  }

  lemma AcceptedCarries(p: Program, pkt: Packet, rule: PopRule) returns (items: seq<Item>)
    requires Describes(p) && Parse(p, pkt, rule).outcome == Accepted
    ensures Carries(pkt, items, p.maxDepth)
  {
    ParseIsScan(p, pkt, rule);
    var s := BytesOf(pkt);
    items := AcceptedSpells(s, 1, 1 + U8(s, 0), None, p.maxDepth - 1);
    CarriesSpells(pkt, items, p.maxDepth);
  }

  /** What an accepted parse reports: it consumed the message, and the item slots hold the
      last item, or nothing when there is none. */
  lemma AcceptedReports(p: Program, pkt: Packet, rule: PopRule, items: seq<Item>)
    requires Describes(p) && Carries(pkt, items, p.maxDepth)
    ensures var r := Parse(p, pkt, rule);
            && r.outcome == Accepted && r.consumed == 8 * (1 + |EncodeItems(items)|)
            && HoldsItem(r.cfg.env, BytesOf(pkt), LastStart(1, items, None))
  {
    ParseIsScan(p, pkt, rule);
    CarriesSpells(pkt, items, p.maxDepth);
    ScanAccepts(BytesOf(pkt), items, p.maxDepth);
  }

  /** Sound and complete: for every packet and budget, accept exactly the packets that start
      with the encoding of a list of items that fits the budget. */
  lemma AcceptsExactly(p: Program, pkt: Packet, rule: PopRule)
    requires Describes(p)
    ensures Parse(p, pkt, rule).outcome == Accepted <==> exists items :: Carries(pkt, items, p.maxDepth)
  {
    if Parse(p, pkt, rule).outcome == Accepted {
      var items := AcceptedCarries(p, pkt, rule);
    }
    if items :| Carries(pkt, items, p.maxDepth) {
      AcceptedReports(p, pkt, rule, items);
    }
  }

  lemma {:induction false} LastStartIsLast(s: seq<byte>, i: nat, end: nat, items: seq<Item>, last: Option<nat>)
    requires items != [] && SpellsItems(s, i, end, items)
    ensures var j := LastStart(i, items, last);
            j.Some? && end == j.value + 2 + |items[|items| - 1].value|
            && s[j.value..end] == EncodeItem(items[|items| - 1])
    decreases |items|
  {
    var next := i + 2 + |items[0].value|;
    if |items| == 1 {
      assert EncodeItems(items[1..]) == [];
      assert next == end;
      assert s[i..end] == EncodeItem(items[0]) + [];
    } else {
      LastStartIsLast(s, next, end, items[1..], Some(i));
    }
  }

  lemma {:induction false} SpelledOnce(s: seq<byte>, i: nat, end: nat, a: seq<Item>, b: seq<Item>)
    requires SpellsItems(s, i, end, a) && SpellsItems(s, i, end, b)
    ensures a == b
    decreases |a|
  {
    if a == [] || b == [] {
      assert |s[i..end]| == end - i;
    } else {
      ItemFromBytes(s, i, end, a);
      ItemFromBytes(s, i, end, b);
      SpelledOnce(s, i + 2 + |a[0].value|, end, a[1..], b[1..]);
      assert a == [a[0]] + a[1..] && b == [b[0]] + b[1..];
    }
  }

  lemma ItemFromBytes(s: seq<byte>, i: nat, end: nat, items: seq<Item>)
    requires items != [] && SpellsItems(s, i, end, items)
    ensures i + 2 <= |s| && i + 2 + U8(s, i + 1) <= |s|
    ensures items[0] == Item(U8(s, i), s[i + 2..i + 2 + U8(s, i + 1)])
  {
    var n := |items[0].value|;
    SliceOfSlice(s, i, end, 2, 2 + n);
    assert EncodeItems(items)[2..2 + n] == items[0].value;
  }

  lemma SliceOfSlice(s: seq<byte>, i: nat, end: nat, a: nat, b: nat)
    requires i <= end <= |s| && a <= b <= end - i
    ensures s[i..end][a..b] == s[i + a..i + b]
  {
    forall k | 0 <= k < b - a
      ensures s[i..end][a..b][k] == s[i + a..i + b][k]
    {
    }
  }

  /** The split into items is unique. */
  lemma SplitIsUnique(pkt: Packet, a: seq<Item>, b: seq<Item>, depth: nat)
    requires Carries(pkt, a, depth) && Carries(pkt, b, depth)
    ensures a == b
  {
    CarriesSpells(pkt, a, depth);
    CarriesSpells(pkt, b, depth);
    SpelledOnce(BytesOf(pkt), 1, 1 + U8(BytesOf(pkt), 0), a, b);
  }

  /** "no matching select arm", "region out of bounds" and "region not exhausted" are
      unreachable. */
  lemma OnlyThreeReasons(p: Program, pkt: Packet, rule: PopRule)
    requires Describes(p)
    ensures Parse(p, pkt, rule).outcome in
              {Accepted, Rejected(OutOfBounds), Rejected(OutOfRegionBounds), Rejected(MaxDepthExceeded)}
  {
    ParseIsScan(p, pkt, rule);
    if p.maxDepth > 0 && BytesOf(pkt) != [] {
      ScanReasons(BytesOf(pkt), 1, 1 + U8(BytesOf(pkt), 0), None, p.maxDepth - 1);
    }
  }

  /** Nothing is ever rejected as an unexhausted region, so the emitted code gives the
      interpreter's reason on every packet. */
  lemma ReasonsNeverDiffer(p: Program, pkt: Packet)
    requires Describes(p)
    ensures Parse(p, pkt, ByInput).outcome == Parse(p, pkt, AlwaysStructural).outcome
  {
    hide Parse, Describes;
    OnlyThreeReasons(p, pkt, AlwaysStructural);
    ReasonsAgreeExactly(p, pkt);
  }

  /** tlv_items is the byte twin of the builder's tlv_mini. */
  lemma TwinIsByteView(depth: nat)
    ensures WholeByteProgram(Description(false, depth))
    ensures ByteProgram(Description(false, depth)) == Description(true, depth)
  {
    assert ExprMod8(TimesEight(Field(FieldRef(TOTAL_LEN, TOTAL)))) == Some(0);
    assert ExprMod8(TimesEight(Field(FieldRef(ITEM, LN)))) == Some(0);
    assert FieldsDelta(LengthAndValue().tail, Some(0)) == Some(0);
    assert FieldsDelta(LengthAndValue(), Some(0)) == Some(0);
    assert FieldsDelta(ItemFields(), Some(0)) == Some(0);
    var p, t := Description(false, depth), Description(true, depth);
    forall q | 0 <= q < 4
      ensures ByteState(p.states[q]) == t.states[q]
    {
      TwinLoop();
    }
    assert ByteProgram(p).states == t.states;
  }

  lemma TwinLoop()
    ensures ByteState(TlvLoop(false)) == TlvLoop(true)
  {
    assert ByteKeys(Nil) == Nil && ByteEntries(Nil, Nil) == Nil && ByteArms(Cons(Remaining, Nil), Nil) == Nil;
  }

  /** tlv_items and its bit-denominated twin give the same result on every packet. */
  lemma TwinsAgree(pkt: Packet, rule: PopRule, depth: nat)
    ensures Parse(Description(true, depth), pkt, rule) == Parse(Description(false, depth), pkt, rule)
  {
    TwinIsByteView(depth);
    ByteTwinAgrees(Description(false, depth), pkt, rule);
  }

  // ---- The generated parser ----

  /** What is known on entry to each state: the instances extracted and the region depth. */
  function Known(): Certificate {
    Certificate(map[TOTAL_LEN := Cons(Byte(TOTAL), Nil), ITEM := ItemFields()], [{}, {}, {}, {}], [0, 1, 1, 1])
  }

  lemma StatesFit(inBytes: bool)
    ensures StateFits(ParseTotal(), Known(), PARSE_TOTAL, 0) && StateFits(TlvLoop(inBytes), Known(), TLV_LOOP, 0)
    ensures StateFits(ParseItem(), Known(), PARSE_ITEM, 0) && StateFits(Close(), Known(), CLOSE, 0)
  {
    hide *;
    EntryAndLoopFit(inBytes);
    ItemAndCloseFit();
  }

  lemma EntryAndLoopFit(inBytes: bool)
    ensures StateFits(ParseTotal(), Known(), PARSE_TOTAL, 0) && StateFits(TlvLoop(inBytes), Known(), TLV_LOOP, 0)
  {
    hide StateFits;
    Fits(ParseTotal(), Known(), PARSE_TOTAL, 0, {}, 0);
    Fits(TlvLoop(inBytes), Known(), TLV_LOOP, 0, {}, 1);
  }

  lemma ItemAndCloseFit()
    ensures StateFits(ParseItem(), Known(), PARSE_ITEM, 0) && StateFits(Close(), Known(), CLOSE, 0)
  {
    hide StateFits;
    Fits(ParseItem(), Known(), PARSE_ITEM, 0, {}, 1);
    Fits(Close(), Known(), CLOSE, 0, {}, 1);
  }

  /** The description passes the validator's checks, so the generated core is faithful to it. */
  lemma DescriptionIsValid(inBytes: bool, depth: nat)
    ensures Valid(Description(inBytes, depth))
  {
    hide StateFits;
    var p := Description(inBytes, depth);
    StatesFit(inBytes);
    PushesAtMost(p, 4);
    CertifiedIsValid(p, Known());
  }

  /** The generated C accepts a buffer exactly when it starts with an encoding that fits
      max_depth, and then consumes the encoding. */
  method GeneratedParse(buf: seq<byte>, bitLen: u64, mask: Option<nat>, depth: nat) returns (core: Core)
    requires bitLen <= 8 * |buf| && bitLen <= 0x8000_0000_0000_0000 && InContract(bitLen, mask)
    ensures core.outcome == 0 <==> exists items :: Carries(PacketOf(buf, bitLen), items, depth)
    ensures forall items | Carries(PacketOf(buf, bitLen), items, depth) ::
              core.consumed == 8 * (1 + |EncodeItems(items)|)
              && HoldsItem(core.slots, BytesOf(PacketOf(buf, bitLen)), LastStart(1, items, None))
  {
    var p := Description(true, depth);
    DescriptionIsValid(true, depth);
    ValidNeverFaults(p, PacketOf(buf, bitLen), AlwaysStructural);
    core := ParseBuffer(p, buf, bitLen, mask);
    ghost var pkt := PacketOf(buf, bitLen);
    AcceptsExactly(p, pkt, AlwaysStructural);
    forall items | Carries(pkt, items, depth)
      ensures var r := Parse(p, pkt, AlwaysStructural);
              r.consumed == 8 * (1 + |EncodeItems(items)|) && HoldsItem(r.cfg.env, BytesOf(pkt), LastStart(1, items, None))
    {
      AcceptedReports(p, pkt, AlwaysStructural, items);
    }
  }
}
