/** Which headers an eth_ipvx_l4 packet holds, told from its bits, and the proof that the run of the
    description, and both emitted parsers, are that walk. */
module EthIpvxWalk {
  import opened Bits
  import opened Ir
  import opened Semantics
  import opened Budget
  import opened Loads
  import opened ParseCore
  import opened Verdict
  import opened Totality
  import opened Certificates
  import opened Generator
  import opened WholeBytes
  import opened Layouts
  import opened Steps
  import opened Walks
  import opened EthIpvxL4

  // ---- The walk ----

  datatype Layer = Ethernet | Ipv4 | Ipv6 | Tcp | Udp

  /** Bits of the layer at pos, if the packet holds them all. */
  function Size(l: Layer, pkt: Packet, pos: nat): Option<nat> {
    match l
    case Ethernet => Whole(pkt, pos, 112)
    case Ipv4 => Words(pkt, pos, 4)
    case Ipv6 => Whole(pkt, pos, 320)
    case Tcp => Whole(pkt, pos, 160)
    case Udp => Whole(pkt, pos, 64)
  }

  function Ipv4Widths(): List<nat> {
    W(4, W(4, W(6, W(2, W(16, W(16, W(3, W(13, W(8, W(8, W(16, W(32, W(32, Nil)))))))))))))
  }

  function TcpWidths(): List<nat> {
    W(16, W(16, W(32, W(32, W(4, W(4, W(8, W(16, W(16, W(16, Nil))))))))))
  }

  /** The widths of its fields, options apart. */
  function Widths(l: Layer): List<nat> {
    match l
    case Ethernet => W(48, W(48, W(16, Nil)))
    case Ipv4 => Ipv4Widths()
    case Ipv6 => W(4, W(8, W(20, W(16, W(8, W(8, W(128, W(128, Nil))))))))
    case Tcp => TcpWidths()
    case Udp => W(16, W(16, W(16, W(16, Nil))))
  }

  /** Reason 1 is "unsupported ip protocol". */
  function Transport(protocol: nat): Onward<Layer> {
    if protocol == 6 then Then(Tcp) else if protocol == 17 then Then(Udp) else Ends(Rejected(Authored(1)))
  }

  /** What comes after the layer at pos; reason 0 is "unsupported ethertype". */
  function Next(l: Layer, pkt: Packet, pos: nat): Onward<Layer>
    requires Size(l, pkt, pos).Some?
  {
    match l
    case Ethernet =>
      var t := Read(pkt, pos + 96, 16);
      if t == 0x0800 then Then(Ipv4) else if t == 0x86dd then Then(Ipv6) else Ends(Rejected(Authored(0)))
    case Ipv4 => Transport(Read(pkt, pos + 72, 8))
    case Ipv6 => Transport(Read(pkt, pos + 48, 8))
    case Tcp => Ends(Accepted)
    case Udp => Ends(Accepted)
  }

  function Instance(l: Layer): (inst: Name)
    ensures inst < 5
  {
    match l
    case Ethernet => ETHERNET
    case Ipv4 => IPV4
    case Ipv6 => IPV6
    case Tcp => TCP
    case Udp => UDP
  }

  /** The layers from l at pos, after the ones seen; at most budget of them. */
  function Walk(l: Layer, pkt: Packet, pos: nat, seen: seq<Visit>, budget: nat): Trace
    requires pos <= |pkt|
    decreases budget
  {
    if budget == 0 then Trace(Rejected(MaxDepthExceeded), pos, seen)
    else
      var visits, size := seen + [Visit(Instance(l), pos)], Size(l, pkt, pos);
      if size.None? then Trace(Rejected(OutOfBounds), pos + Cut(Widths(l), |pkt| - pos), visits)
      else
        match Next(l, pkt, pos)
        case Ends(outcome) => Trace(outcome, pos + size.value, visits)
        case Then(next) => Walk(next, pkt, pos + size.value, visits, budget - 1)
  }

  // ---- Headers ----

  /** States and header instances have the same numbers. */
  function ReadBy(l: Layer): Extract {
    Extract(Instance(l), LayoutOf(Instance(l)), false)
  }

  lemma StateReads(l: Layer)
    ensures var s := StateOf(Instance(l)); s == State(Cons(ReadBy(l), Nil), Nil, Nil, s.transition)
  {
    hide EthernetFields, Ipv4Fields, Ipv6Fields, TcpFields, UdpFields, Protocols, On, Goes;
  }

  predicate Sized(fs: List<FieldDecl>, bits: nat, ws: List<nat>) {
    StaticWidths(fs) && StaticBits(fs) == bits && Starts(fs, ws)
  }

  lemma Sizes()
    ensures Sized(EthernetFields(), 112, Widths(Ethernet)) && Sized(UdpFields(), 64, Widths(Udp))
    ensures Sized(TcpFields(), 160, TcpWidths())
  {
    hide Wrap;
  }

  lemma Ipv6Size()
    ensures Sized(Ipv6Fields(), 320, Widths(Ipv6))
  {
  }

  lemma Ipv4Starts()
    ensures Starts(Ipv4Fields(), Ipv4Widths())
    ensures EndsInOptions(Ipv4Rest(), IPV4, 1) && FixedBits(Ipv4Rest()) == 112
  {
    hide Wrap;
  }

  lemma Ipv4Shape()
    ensures OptionsAt(Ipv4Fields(), IPV4, 1, 4)
  {
    LayoutsFit();
    DefectFree(Ipv4Fields(), IPV4, 0, 0, Scope(map[], {}, Some(IPV4), {}, true));
    Ipv4Starts();
    hide Ipv4Rest, Defects, DistinctNames, Starts;
  }

  /** Reading the header of l takes its bits, or stops where the packet ends. */
  ghost predicate IsRead(l: Layer, pkt: Packet, cfg: Config) {
    HeaderIs(Header(pkt, ReadBy(l), cfg), pkt, cfg, ReadBy(l), Size(l, pkt, cfg.pos), Widths(l))
  }

  lemma LayerRead(l: Layer, pkt: Packet, cfg: Config)
    requires cfg.regions == [] && cfg.pos <= |pkt| <= 0x8000_0000_0000_0000
    ensures IsRead(l, pkt, cfg)
  {
    Sizes();
    Ipv6Size();
    Ipv4Shape();
    Ipv4Starts();
    hide HeaderIs, Header, Words, Whole, Starts, OptionsAt, EthernetFields, Ipv4Fields, Ipv6Fields, TcpFields, UdpFields;
    hide Ipv4Widths, TcpWidths, W, Protocols, StaticWidths, StaticBits;
    if l == Ipv4 {
      WordsHeader(pkt, ReadBy(Ipv4), cfg, 1, 4, Widths(Ipv4));
    } else {
      FixedHeader(pkt, ReadBy(l), cfg, Widths(l));
    }
  }

  // ---- Branches ----

  function Aim(o: Onward<Layer>): Target
    requires o.Ends? ==> o.outcome in {Accepted, Rejected(Authored(0)), Rejected(Authored(1))}
  {
    match o
    case Then(l) => ToState(Instance(l))
    case Ends(outcome) => if outcome == Accepted then ToAccept else ToReject(outcome.reason.code)
  }

  lemma EthernetChoice(k: u64)
    ensures var arms := Goes(0x0800, S_IPV4, Goes(0x86dd, S_IPV6, Nil));
            ExactArms(arms) && Found(arms, Cons(Value(k), Nil), ToReject(0))
            == if k == 0x0800 then ToState(S_IPV4) else if k == 0x86dd then ToState(S_IPV6) else ToReject(0)
  {
  }

  lemma ProtocolChoice(k: u64)
    ensures var arms := Goes(6, S_TCP, Goes(17, S_UDP, Nil));
            ExactArms(arms) && Found(arms, Cons(Value(k), Nil), ToReject(1)) == Aim(Transport(k))
  {
  }

  lemma Keys()
    ensures KeyAt(EthernetFields(), 2, 96, 16) && KeyAt(Ipv6Fields(), 4, 48, 8)
  {
  }

  lemma Ipv4Key()
    ensures KeyAt(Ipv4Fields(), 9, 72, 8)
  {
    Ipv4Shape();
    assert LeadsTo(Ipv4Rest(), 9) && OffsetOf(Ipv4Rest(), 9) == 24 && FieldWidth(Ipv4Rest(), 9) == 8;
    hide Ipv4Rest, DistinctNames, OptionsAt;
    assert DistinctNames(Ipv4Fields());
  }

  /** The run goes where the walk does, once the layer's header is read. */
  ghost predicate Follows(l: Layer, pkt: Packet, cfg: Config) {
    var f := Header(pkt, ReadBy(l), cfg);
    f.Go? ==>
      && Size(l, pkt, cfg.pos).Some?
      && (var o := Next(l, pkt, cfg.pos);
          (o.Ends? ==> o.outcome in {Accepted, Rejected(Authored(0)), Rejected(Authored(1))})
          && Decide(StateOf(Instance(l)).transition, f.cfg) == To(Aim(o)))
  }

  lemma LayerFollows(l: Layer, pkt: Packet, cfg: Config)
    requires cfg.regions == [] && cfg.pos <= |pkt| <= 0x8000_0000_0000_0000
    ensures Follows(l, pkt, cfg)
  {
    hide Header, Words, Whole, EthernetFields, Ipv4Fields, Ipv6Fields, TcpFields, UdpFields, Found, KeyAt, Read;
    hide Widths, Goes, On;
    LayerRead(l, pkt, cfg);
    Keys();
    Ipv4Key();
    EthernetChoice(0);
    ProtocolChoice(0);
    var ex := ReadBy(l);
    var go := Header(pkt, ex, cfg).Go?;
    match l {
      case Ethernet =>
        KeyDecides(pkt, ex, cfg, 2, 96, 16, Goes(0x0800, S_IPV4, Goes(0x86dd, S_IPV6, Nil)), ToReject(0));
        if go { EthernetChoice(Read(pkt, cfg.pos + 96, 16)); }
      case Ipv4 =>
        KeyDecides(pkt, ex, cfg, 9, 72, 8, Goes(6, S_TCP, Goes(17, S_UDP, Nil)), ToReject(1));
        if go { ProtocolChoice(Read(pkt, cfg.pos + 72, 8)); }
      case Ipv6 =>
        KeyDecides(pkt, ex, cfg, 4, 48, 8, Goes(6, S_TCP, Goes(17, S_UDP, Nil)), ToReject(1));
        if go { ProtocolChoice(Read(pkt, cfg.pos + 48, 8)); }
      case _ =>
    }
  }

  // ---- The run is the walk ----

  lemma SizeInside(l: Layer, pkt: Packet, pos: nat)
    requires Size(l, pkt, pos).Some?
    ensures pos + Size(l, pkt, pos).value <= |pkt|
  {
    hide Read;
  }

  lemma StepWalks(p: Program, pkt: Packet, rule: PopRule, l: Layer, cfg: Config)
    requires p == Description(p.maxDepth)
    requires cfg.regions == [] && cfg.pos <= |pkt| <= 0x8000_0000_0000_0000
    ensures var r, size := Step(p, pkt, rule, Instance(l), cfg), Size(l, pkt, cfg.pos);
            var visits := VisitsOf(cfg.headers) + [Visit(Instance(l), cfg.pos)];
            if size.None? then
              r.Done? && TraceOf(r.result) == Trace(Rejected(OutOfBounds), cfg.pos + Cut(Widths(l), |pkt| - cfg.pos), visits)
            else
              match Next(l, pkt, cfg.pos)
              case Ends(outcome) => r.Done? && TraceOf(r.result) == Trace(outcome, cfg.pos + size.value, visits)
              case Then(next) =>
                && r.Next? && r.state == Instance(next)
                && r.cfg.pos == cfg.pos + size.value && r.cfg.regions == [] && VisitsOf(r.cfg.headers) == visits
  {
    hide Header, StateOf, Step, Size, Widths, Next, Decide, VisitsOf, Cut, LayoutOf;
    StateReads(l);
    LayerRead(l, pkt, cfg);
    LayerFollows(l, pkt, cfg);
    HeaderThenBranch(p, pkt, rule, Instance(l), StateOf(Instance(l)), cfg);
  }

  lemma {:induction false} RunWalks(p: Program, pkt: Packet, rule: PopRule, l: Layer, cfg: Config, budget: nat)
    requires p == Description(p.maxDepth)
    requires cfg.regions == [] && cfg.pos <= |pkt| <= 0x8000_0000_0000_0000
    ensures TraceOf(RunFrom(p, pkt, rule, Instance(l), cfg, budget)) == Walk(l, pkt, cfg.pos, VisitsOf(cfg.headers), budget)
    decreases budget
  {
    hide Step, StateOf, Size, Widths, Next, VisitsOf, Cut, Instance, RunFrom;
    Enters(p, pkt, rule, Instance(l), cfg, budget);
    if budget > 0 {
      StepWalks(p, pkt, rule, l, cfg);
      if Size(l, pkt, cfg.pos).Some? {
        SizeInside(l, pkt, cfg.pos);
        var r := Step(p, pkt, rule, Instance(l), cfg);
        if r.Next? {
          RunWalks(p, pkt, rule, Next(l, pkt, cfg.pos).layer, r.cfg, budget - 1);
        }
      }
    }
  }

  /** For every packet and budget, the run of the description ends as the walk does, consumes the
      same bits and reports the same headers at the same bits. */
  lemma ParseIsWalk(pkt: Packet, rule: PopRule, depth: nat)
    requires |pkt| <= 0x8000_0000_0000_0000
    ensures TraceOf(Parse(Description(depth), pkt, rule)) == Walk(Ethernet, pkt, 0, [], depth)
  {
    hide RunFrom, Walk, StateOf;
    RunWalks(Description(depth), pkt, rule, Ethernet, Initial(Description(depth)), depth);
    assert VisitsOf([]) == [];
  }

  /** Both emitted parsers on one packet within the eBPF buffer: the same struct, and a verdict
      word that decodes to it. */
  method BothBackends(mem: seq<byte>, depth: nat) returns (c: Core, word: nat)
    requires |mem| >= 8 && LittleEndian(mem, 8) <= 8 * (|mem| - 8) && LittleEndian(mem, 8) <= 8 * Pow2(12)
    ensures c.Returned(Parse(Description(depth), PacketOf(mem[8..], LittleEndian(mem, 8)), AlwaysStructural))
    ensures Shows(c, Walk(Ethernet, PacketOf(mem[8..], LittleEndian(mem, 8)), 0, [], depth))
    ensures Decodes(Unpack(word), Parse(Description(depth), PacketOf(mem[8..], LittleEndian(mem, 8)), AlwaysStructural))
    ensures c.outcome == Unpack(word).outcome && c.consumed == Unpack(word).consumed
    ensures match c.reason
            case None => Unpack(word).reason == 0
            case Some(OutOfBounds) => Unpack(word).reason == 1
            case Some(MaxDepthExceeded) => Unpack(word).reason == 2
            case Some(NoMatchingArm) => Unpack(word).reason == 3
            case Some(OutOfRegionBounds) => Unpack(word).reason == 4
            case Some(RegionOutOfBounds) => Unpack(word).reason == 5
            case Some(RegionNotExhausted) => Unpack(word).reason == 6
            case Some(Authored(code)) => Unpack(word).reason == 16 + code
  {
    var p := Description(depth);
    DescriptionIsValid(depth);
    hide Valid, Parse, Description, LittleEndian, Unpack, PacketOf, Pow2, Walk, Shows, VisitsOf, PresentOf;
    ValidNeverFaults(p, PacketOf(mem[8..], LittleEndian(mem, 8)), AlwaysStructural);
    word := PkEntry(p, mem, 12);
    var bitLen := ReadLength(mem);
    LengthFits(bitLen, 12);
    c := ParseBuffer(p, mem[8..], bitLen, None);
    ParseIsWalk(PacketOf(mem[8..], bitLen), AlwaysStructural, depth);
    ReturnedShows(c, Parse(p, PacketOf(mem[8..], bitLen), AlwaysStructural));
  }
}
