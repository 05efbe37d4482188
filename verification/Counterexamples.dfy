/** Promises of the repository that its code does not keep, each with an input, and the
    condition under which it does. */
module Counterexamples {
  import opened Bits
  import opened Ir
  import opened Semantics
  import opened Regions
  import opened Totality
  import opened UsePoints
  import opened Alignment
  import opened Loads
  import opened ParseCore
  import opened Generator
  import opened ByteLoads
  import opened PopRules
  import opened WholeBytes

  // ---- A region that reaches past the input ----

  /** One state that opens a region of 16 bits and closes it at once. */
  function PushThenPop(): Program {
    Program([State(Nil, Nil, Cons(Push(Const(16)), Cons(Pop, Nil)), Direct(ToAccept))], 0, [], 1)
  }

  /** On an empty packet the interpreter reports "out of bounds" and the generated code
      "region not exhausted". */
  lemma ReasonsDiffer()
    ensures Parse(PushThenPop(), [], ByInput).outcome == Rejected(OutOfBounds)
    ensures Parse(PushThenPop(), [], AlwaysStructural).outcome == Rejected(RegionNotExhausted)
  {
    var p := PushThenPop();
    var s := p.states[0];
    forall rule: PopRule
      ensures Parse(p, [], rule).outcome == Rejected(if rule == ByInput then OutOfBounds else RegionNotExhausted)
    {
      var c := Initial(p).(regions := [16]);
      assert RunOps([], rule, s.ops, Initial(p)) == RunOps([], rule, s.ops.tail, c);
      assert RunOps([], rule, s.ops.tail, c) == PopRegion([], rule, c);
    }
  }

  // ---- An instance extracted twice ----

  /** A byte, then four bits. */
  function ByteAndHalf(): List<FieldDecl> {
    Cons(FieldDecl(0, Fixed(8)), Cons(FieldDecl(1, Fixed(4)), Nil))
  }

  /** The header extracted twice by one state. */
  function Twice(): List<Extract> {
    Cons(Extract(0, ByteAndHalf(), false), Cons(Extract(0, ByteAndHalf(), false), Nil))
  }

  function Doubled(): Program {
    Program([State(Twice(), Nil, Nil, Direct(ToAccept))], 0, [], 1)
  }

  function OddBytes(): seq<byte> {
    [0, 0, 0xf0]
  }

  lemma OddRead(pkt: Packet)
    requires pkt == PacketOf(OddBytes(), 24)
    ensures Read(pkt, 12, 8) == 15
  {
    assert Pow2(4) == 16;
    assert ShiftRight(0xf0, 2) == 60;
    assert ShiftRight(0xf0, 4) == 15;
    hide Read, PacketOf, BitSet, ShiftRight;
    ReadSplit(pkt, 8, 4, 4);
    ReadSplit(pkt, 12, 4, 4);
    ReadAlignedByte(OddBytes(), 24, 1);
    ReadInByte(OddBytes(), 24, 2, 4);
  }

  /** One occurrence, read whole. */
  lemma ReadHalf(pkt: Packet, cur: nat, cfg: Config) returns (c: Config)
    requires cfg.regions == [] && cfg.pos == cur && cur + 12 <= |pkt|
    ensures Header(pkt, Extract(0, ByteAndHalf(), false), cfg) == Go(c) && c.pos == cur + 12 && c.regions == []
    ensures FieldRef(0, 0) in c.env && c.env[FieldRef(0, 0)] == Uint(Wrap(Read(pkt, cur, 8)))
  {
    var fs, c0 := ByteAndHalf(), BeginHeader(Extract(0, ByteAndHalf(), false), cfg);
    FieldsCons(pkt, 0, false, fs, cur, c0);
    var c1 := ReadField(pkt, 0, fs.head, cur, cur, c0).cfg;
    FieldsCons(pkt, 0, false, fs.tail, cur + 8, c1);
    var c2 := ReadField(pkt, 0, fs.tail.head, cur + 8, cur + 8, c1).cfg;
    c := c2.(pos := cur + 12);
    assert ReadFields(pkt, 0, false, Nil, cur + 12, c2) == Go(c);
  }

  lemma DoubledRun(pkt: Packet, rule: PopRule)
    requires pkt == PacketOf(OddBytes(), 24)
    ensures var r := Parse(Doubled(), pkt, rule);
            r.outcome == Accepted && FieldRef(0, 0) in r.cfg.env && r.cfg.env[FieldRef(0, 0)] == Uint(15)
  {
    OddRead(pkt);
    hide Read, PacketOf, ReadFields, BeginHeader;
    var p := Doubled();
    var c := ReadHalf(pkt, 0, Initial(p));
    var d := ReadHalf(pkt, 12, c);
    assert RunExtracts(pkt, Nil, d) == Go(d);
    assert RunExtracts(pkt, Twice().tail, c) == Go(d);
    assert RunExtracts(pkt, Twice(), Initial(p)) == Go(d);
    assert RunAssigns([], Nil, d) == Go(d);
  }

  lemma DoubledAnalysis()
    ensures Precise(Doubled(), map[0 := Some(0)])
    ensures ByteLoaded(Twice(), Some(0), 0, 0, 8) && !SitesAligned(Twice(), Some(0), Twice(), Some(0))
  {
    var fs := ByteAndHalf();
    assert FieldsDelta(fs.tail, Some(0)) == Some(4);
    assert FieldsDelta(fs, Some(0)) == Some(4);
    assert !FieldSitesAligned(Twice(), Some(0), 0, fs, Some(4));
    assert !SitesAligned(Twice(), Some(0), Twice().tail, Some(4));
  }

  lemma DoubledIsWellFormed()
    ensures WellFormed(Doubled(), map[0 := ByteAndHalf()], map[0 := {}], map[0 := 0], true)
  {
    var sc := Scope(map[0 := ByteAndHalf()], {}, None, {}, true);
    assert WidthsOk(ByteAndHalf(), sc.(own := Some(0)));
    assert WidthsOk(ByteAndHalf(), sc.(own := Some(0), avail := {0}));
    assert ExtractsOk(Twice().tail, sc.(avail := {0}));
  }

  lemma DoubledIsNotEmitted()
    ensures ByteLoaded(Twice(), Some(0), 0, 0, 8) && !Emits(Doubled())
  {
    hide Precise, SitesAligned, ByteLoaded;
    var align: map<Name, Residue> := map[0 := Some(0)];
    DoubledAnalysis();
    assert 0 in align && !EmittableState(Doubled().states[0], align[0]);
    assert !AllEmittable(Doubled(), align);
  }

  lemma OddLoad()
    ensures InBuffer(OddBytes(), None, 12 / 8, 12 / 8 + 8 / 8) && Loaded(OddBytes(), None, 12, 8) == 0
  {
    assert LoadBytes(OddBytes(), None, 1, 1, 8) == 0;
    assert LoadBytes(OddBytes(), None, 1, 2, 0) == 0;
  }

  /** The generator byte-loads the second occurrence of the byte, at bit 12: on three bytes the
      run stores 15 and the emitted load 0.  So the program passes every check of the semantics
      document and may still not be emitted. */
  lemma SecondOccurrenceByteLoaded(rule: PopRule)
    ensures exists ty, inset, depth :: WellFormed(Doubled(), ty, inset, depth, true)
    ensures ByteLoaded(Twice(), Some(0), 0, 0, 8) && !Emits(Doubled())
    ensures var r := Parse(Doubled(), PacketOf(OddBytes(), 24), rule);
            && r.outcome == Accepted
            && FieldRef(0, 0) in r.cfg.env && r.cfg.env[FieldRef(0, 0)] == Uint(15)
    ensures InBuffer(OddBytes(), None, 12 / 8, 12 / 8 + 8 / 8) && Loaded(OddBytes(), None, 12, 8) == 0
  {
    hide Parse, WellFormed, Emits, ByteLoaded, PacketOf, Loaded, Doubled, Twice;
    DoubledIsWellFormed();
    DoubledIsNotEmitted();
    DoubledRun(PacketOf(OddBytes(), 24), rule);
    OddLoad();
  }

  // ---- Programs the validator accepts and the interpreter cannot run ----

  function OneByte(): List<FieldDecl> {
    Cons(FieldDecl(0, Fixed(8)), Nil)
  }

  /** The validator checks that a push length names a field of some extracted instance, not that
      it was extracted before. */
  function PushBeforeExtract(): Program {
    Program([State(Nil, Nil, Cons(Push(Field(FieldRef(0, 0))), Nil), Direct(ToState(1))),
             State(Cons(Extract(0, OneByte(), false), Nil), Nil, Nil, Direct(ToAccept))], 0, [], 2)
  }

  /** A length expression may name a later field of its own header. */
  function LengthBeforeField(): List<FieldDecl> {
    Cons(FieldDecl(0, BitLen(Field(FieldRef(0, 1)))), Cons(FieldDecl(1, Fixed(8)), Nil))
  }

  function LengthFirst(): Program {
    Program([State(Cons(Extract(0, LengthBeforeField(), false), Nil), Nil, Nil, Direct(ToAccept))], 0, [], 1)
  }

  /** A select key may name a variable-length field. */
  function RunFields(): List<FieldDecl> {
    Cons(FieldDecl(0, BitLen(Const(0))), Nil)
  }

  function RunAsKey(): Program {
    Program([State(Cons(Extract(0, RunFields(), false), Nil), Nil, Nil,
                   Select(Cons(Field(FieldRef(0, 0)), Nil), Nil, Some(ToAccept)))], 0, [], 1)
  }

  lemma OneByteOk(ty: Typing, sc: Scope)
    requires ty == map[0 := OneByte()] && sc == Scope(ty, {}, None, {}, false)
    ensures ExtractsOk(Cons(Extract(0, OneByte(), false), Nil), sc)
  {
    assert WidthsOk(OneByte(), sc.(own := Some(0)));
    assert ExtractsOk(Nil, sc.(avail := {0}));
  }

  lemma PushIsValidated()
    ensures Validated(PushBeforeExtract(), map[0 := OneByte()], map[0 := {}, 1 := {}], map[0 := 0, 1 := 1])
  {
    var p, ty := PushBeforeExtract(), map[0 := OneByte()];
    OneByteOk(ty, Scope(ty, {}, None, {}, false));
    assert 0 in Extracted(p.states[1].extracts);
    assert Edge(p, 0, 1);
  }

  lemma PushFaults(pkt: Packet, rule: PopRule)
    ensures Parse(PushBeforeExtract(), pkt, rule).outcome == Faulted
  {
    var p := PushBeforeExtract();
    assert RunOps(pkt, rule, p.states[0].ops, Initial(p)) == Fault;
  }

  lemma LengthIsValidated()
    ensures Validated(LengthFirst(), map[0 := LengthBeforeField()], map[0 := {}], map[0 := 0])
  {
    var p := LengthFirst();
    var sc := Scope(map[0 := LengthBeforeField()], {}, Some(0), {}, false);
    assert WidthsOk(LengthBeforeField().tail, sc);
    assert WidthsOk(LengthBeforeField(), sc);
    assert 0 in Extracted(p.states[0].extracts);
  }

  lemma LengthFaults(pkt: Packet, rule: PopRule)
    ensures Parse(LengthFirst(), pkt, rule).outcome == Faulted
  {
    var p := LengthFirst();
    FieldsCons(pkt, 0, false, LengthBeforeField(), 0, BeginHeader(p.states[0].extracts.head, Initial(p)));
  }

  lemma KeyIsValidated()
    ensures Validated(RunAsKey(), map[0 := RunFields()], map[0 := {}], map[0 := 0])
  {
    var p := RunAsKey();
    assert 0 in Extracted(p.states[0].extracts);
  }

  lemma RunAsKeyFaults(pkt: Packet, rule: PopRule)
    ensures Parse(RunAsKey(), pkt, rule).outcome == Faulted
  {
    var p := RunAsKey();
    var s := p.states[0];
    OneExtract(pkt, rule, p.metadata, s, Initial(p));
    var d := RunFieldRead(pkt, s.extracts.head, Initial(p));
    hide RunExtracts, ReadFields, EvalKeys, BeginHeader;
    assert RunBody(pkt, rule, p.metadata, s, Initial(p)) == RunOps(pkt, rule, s.ops, d) == Go(d);
    assert Step(p, pkt, rule, 0, Initial(p)).Done?;
  }

  lemma RunFieldRead(pkt: Packet, ex: Extract, cfg: Config) returns (d: Config)
    requires ex == Extract(0, RunFields(), false) && cfg.pos == 0 && cfg.regions == []
    ensures Header(pkt, ex, cfg) == Go(d) && FieldRef(0, 0) in d.env && d.env[FieldRef(0, 0)] == Run(0, 0)
  {
    var c := BeginHeader(ex, cfg);
    FieldsCons(pkt, 0, false, RunFields(), 0, c);
    var r := Take(pkt, 0, 0, Run(0, 0), 0, 0, 0, c);
    assert ReadFields(pkt, 0, false, Nil, 0, r.cfg) == Go(r.cfg.(pos := 0));
    d := r.cfg.(pos := 0);
  }

  lemma AllValidated(p: Program)
    requires p in {PushBeforeExtract(), LengthFirst(), RunAsKey()}
    ensures exists ty, inset, depth :: Validated(p, ty, inset, depth)
  {
    hide Validated;
    PushIsValidated();
    LengthIsValidated();
    KeyIsValidated();
  }

  /** Each program passes the validator's checks, fails the strict ones of the semantics
      document for every typing, and faults on every packet. */
  lemma AcceptedButFaults(pkt: Packet, rule: PopRule, p: Program)
    requires p in {PushBeforeExtract(), LengthFirst(), RunAsKey()}
    ensures exists ty, inset, depth :: Validated(p, ty, inset, depth)
    ensures Parse(p, pkt, rule).outcome == Faulted
    ensures forall ty, inset, depth :: !WellFormed(p, ty, inset, depth, true)
  {
    hide Validated, WellFormed, Parse;
    AllValidated(p);
    PushFaults(pkt, rule);
    LengthFaults(pkt, rule);
    RunAsKeyFaults(pkt, rule);
    forall ty, inset, depth
      ensures !WellFormed(p, ty, inset, depth, true)
    {
      if WellFormed(p, ty, inset, depth, true) {
        NeverFaults(p, ty, inset, depth, pkt, rule);
      }
    }
  }
}
