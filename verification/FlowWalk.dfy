/** Which headers the flow dissector meets in a packet, told from its bits: tunnels and IPv6 options
    in any nesting, and the proof that the run of the description is that walk. */
module FlowWalk {
  import opened Bits
  import opened Ir
  import opened Semantics
  import opened Budget
  import opened Totality
  import opened Certificates
  import opened WholeBytes
  import opened Layouts
  import opened Steps
  import opened Walks
  import opened FlowDissector

  // ---- The walk ----

  /** c, k, s: which optional fields follow a GRE header; proto: its protocol type. */
  datatype Layer =
    | Ethernet
    | VlanAd
    | VlanQ
    | Ipv4
    | Ipv6
    | Ipv6Opt
    | Ipip
    | Ip6ip
    | Gre
    | GreOpt(c: nat, k: nat, s: nat, proto: nat)
    | Frag
    | Mpls
    | Tcp
    | Udp

  /** Bits of the layer at pos, if the packet holds them all; the two marks read nothing. */
  function Size(l: Layer, pkt: Packet, pos: nat): Option<nat> {
    match l
    case Ethernet => Whole(pkt, pos, 112)
    case Ipv4 => Words(pkt, pos, 4)
    case Ipv6 => Whole(pkt, pos, 320)
    case Ipv6Opt => if pos + 16 <= |pkt| then Whole(pkt, pos, 64 * (1 + Read(pkt, pos + 8, 8))) else None
    case Ipip => Whole(pkt, pos, 0)
    case Ip6ip => Whole(pkt, pos, 0)
    case GreOpt(c, k, s, _) => Whole(pkt, pos, 32 * (c + k + s))
    case Frag => Whole(pkt, pos, 64)
    case Tcp => Words(pkt, pos, 96)
    case Udp => Whole(pkt, pos, 64)
    case _ => Whole(pkt, pos, 32)
  }

  function Ipv4Widths(): List<nat> {
    W(4, W(4, W(6, W(2, W(16, W(16, W(3, W(13, W(8, W(8, W(16, W(32, W(32, Nil)))))))))))))
  }

  function TcpWidths(): List<nat> {
    W(16, W(16, W(32, W(32, W(4, W(4, W(8, W(16, W(16, W(16, Nil))))))))))
  }

  function Ipv6Widths(): List<nat> {
    W(4, W(8, W(20, W(16, W(8, W(8, W(128, W(128, Nil))))))))
  }

  /** The widths of its fields, a last one of variable length apart. */
  function Widths(l: Layer): List<nat> {
    match l
    case Ethernet => W(48, W(48, W(16, Nil)))
    case VlanAd => W(3, W(1, W(12, W(16, Nil))))
    case VlanQ => W(3, W(1, W(12, W(16, Nil))))
    case Ipv4 => Ipv4Widths()
    case Ipv6 => Ipv6Widths()
    case Ipv6Opt => W(8, W(8, Nil))
    case Gre => W(1, W(1, W(1, W(1, W(9, W(3, W(16, Nil)))))))
    case Frag => W(8, W(8, W(13, W(2, W(1, W(32, Nil))))))
    case Mpls => W(20, W(3, W(1, W(8, Nil))))
    case Tcp => TcpWidths()
    case Udp => W(16, W(16, W(16, W(16, Nil))))
    case _ => Nil
  }

  /** "unsupported ip protocol" is reason 3. */
  function OverIp(protocol: nat): Onward<Layer> {
    match protocol
    case 4 => Then(Ipip)
    case 6 => Then(Tcp)
    case 17 => Then(Udp)
    case 41 => Then(Ip6ip)
    case 47 => Then(Gre)
    case _ => Ends(Rejected(Authored(3)))
  }

  function OverIpv6(protocol: nat): Onward<Layer> {
    match protocol
    case 0 => Then(Ipv6Opt)
    case 60 => Then(Ipv6Opt)
    case 44 => Then(Frag)
    case n => OverIp(n)
  }

  /** "unsupported ethertype" is reason 1. */
  function OverEthernet(t: nat): Onward<Layer> {
    match t
    case 0x0800 => Then(Ipv4)
    case 0x86dd => Then(Ipv6)
    case 0x8100 => Then(VlanQ)
    case 0x88a8 => Then(VlanAd)
    case 0x8847 => Then(Mpls)
    case 0x8848 => Then(Mpls)
    case _ => Ends(Rejected(Authored(1)))
  }

  /** A further tag is "vlan stacking beyond kernel depth", reason 4. */
  function OverTag(t: nat): Onward<Layer> {
    match t
    case 0x8100 => Ends(Rejected(Authored(4)))
    case 0x88a8 => Ends(Rejected(Authored(4)))
    case n => OverEthernet(n)
  }

  /** "unsupported gre proto" is reason 2. */
  function OverGre(proto: nat): Onward<Layer> {
    match proto
    case 0x0800 => Then(Ipv4)
    case 0x86dd => Then(Ipv6)
    case 0x6558 => Then(Ethernet)
    case _ => Ends(Rejected(Authored(2)))
  }

  /** What comes after the layer at pos; reason 0 is "802.1AD must be followed by 802.1Q". */
  function Next(l: Layer, pkt: Packet, pos: nat): Onward<Layer>
    requires Size(l, pkt, pos).Some?
  {
    match l
    case Ethernet => OverEthernet(Read(pkt, pos + 96, 16))
    case VlanAd => if Read(pkt, pos + 16, 16) == 0x8100 then Then(VlanQ) else Ends(Rejected(Authored(0)))
    case VlanQ => OverTag(Read(pkt, pos + 16, 16))
    case Ipv4 => OverIp(Read(pkt, pos + 72, 8))
    case Ipv6 => OverIpv6(Read(pkt, pos + 48, 8))
    case Ipv6Opt => OverIpv6(Read(pkt, pos, 8))
    case Ipip => Then(Ipv4)
    case Ip6ip => Then(Ipv6)
    case Gre =>
      if Read(pkt, pos + 13, 3) != 0 then Ends(Accepted)
      else
        Then(GreOpt(Read(pkt, pos, 1), Read(pkt, pos + 2, 1), Read(pkt, pos + 3, 1), Read(pkt, pos + 16, 16)))
    case GreOpt(_, _, _, proto) => OverGre(proto)
    case _ => Ends(Accepted)
  }

  /** The layer marks what follows as encapsulated. */
  predicate Marks(l: Layer) {
    l.Ipip? || l.Ip6ip? || l.GreOpt?
  }

  /** The header that a layer extracts, if any. */
  function Instance(l: Layer): Option<Name> {
    match l
    case Ethernet => Some(ETHERNET)
    case VlanAd => Some(VLAN_AD)
    case VlanQ => Some(VLAN_Q)
    case Ipv4 => Some(IPV4)
    case Ipv6 => Some(IPV6)
    case Ipv6Opt => Some(EXT_OPT)
    case Ipip => None
    case Ip6ip => None
    case Gre => Some(GRE)
    case GreOpt(_, _, _, _) => Some(GRE_OPT)
    case Frag => Some(EXT_FRAG)
    case Mpls => Some(MPLS)
    case Tcp => Some(TCP)
    case Udp => Some(UDP)
  }

  function Meets(l: Layer, pos: nat): seq<Visit> {
    if Instance(l).Some? then [Visit(Instance(l).value, pos)] else []
  }

  /** A trace and the is_encap register at its end. */
  datatype Report = Report(trace: Trace, encap: nat)

  /** The layers from l at pos, after the ones seen; at most budget of them. */
  function Walk(l: Layer, pkt: Packet, pos: nat, seen: seq<Visit>, encap: nat, budget: nat): Report
    requires pos <= |pkt|
    decreases budget
  {
    if budget == 0 then Report(Trace(Rejected(MaxDepthExceeded), pos, seen), encap)
    else
      var visits, size := seen + Meets(l, pos), Size(l, pkt, pos);
      if size.None? then Report(Trace(Rejected(OutOfBounds), pos + Cut(Widths(l), |pkt| - pos), visits), encap)
      else
        var mark := if Marks(l) then 1 else encap;
        match Next(l, pkt, pos)
        case Ends(outcome) => Report(Trace(outcome, pos + size.value, visits), mark)
        case Then(next) => Walk(next, pkt, pos + size.value, visits, mark, budget - 1)
  }

  // ---- Layers and states ----

  function StateFor(l: Layer): (q: Name)
    ensures q < 14
  {
    match l
    case Ethernet => S_ETHERNET
    case VlanAd => S_VLAN_AD
    case VlanQ => S_VLAN_Q
    case Ipv4 => S_IPV4
    case Ipv6 => S_IPV6
    case Ipv6Opt => S_IPV6_OPT
    case Ipip => S_IPIP
    case Ip6ip => S_IP6IP
    case Gre => S_GRE
    case GreOpt(_, _, _, _) => S_GRE_OPT
    case Frag => S_IPV6_FRAG
    case Mpls => S_MPLS
    case Tcp => S_TCP
    case Udp => S_UDP
  }

  /** Where a select aims. */
  predicate Aims(t: Target, o: Onward<Layer>) {
    match o
    case Then(l) => t == ToState(StateFor(l))
    case Ends(outcome) => if outcome == Accepted then t == ToAccept else t.ToReject? && outcome == Rejected(Authored(t.code))
  }

  function LayoutOf(l: Layer): List<FieldDecl>
    requires Instance(l).Some?
  {
    match l
    case Ethernet => EthernetFields()
    case VlanAd => VlanFields()
    case VlanQ => VlanFields()
    case Ipv4 => Ipv4Fields()
    case Ipv6 => Ipv6Fields()
    case Ipv6Opt => ExtOptFields()
    case Gre => GreFields()
    case GreOpt(_, _, _, _) => GreOptFields()
    case Frag => FragFields()
    case Mpls => MplsFields()
    case Tcp => TcpFields()
    case Udp => UdpFields()
  }

  function ReadBy(l: Layer): Extract
    requires Instance(l).Some?
  {
    Extract(Instance(l).value, LayoutOf(l), false)
  }

  lemma StateReads(l: Layer)
    requires Instance(l).Some?
    ensures var s := StateOf(StateFor(l));
            s == State(Cons(ReadBy(l), Nil), if Marks(l) then MarkEncap() else Nil, Nil, s.transition)
  {
    hide EthernetFields, VlanFields, Ipv4Fields, Ipv6Fields, ExtOptFields, GreFields, GreOptFields, FragFields, MplsFields,
      TcpFields, UdpFields;
    hide On, Goes, When, Ipv6Arms, IpProtoArms;
  }

  // ---- Headers ----

  predicate Sized(fs: List<FieldDecl>, bits: nat, ws: List<nat>) {
    StaticWidths(fs) && StaticBits(fs) == bits && Starts(fs, ws)
  }

  lemma Sizes()
    ensures Sized(EthernetFields(), 112, Widths(Ethernet)) && Sized(VlanFields(), 32, Widths(VlanQ))
    ensures Sized(MplsFields(), 32, Widths(Mpls)) && Sized(UdpFields(), 64, Widths(Udp))
  {
    hide Wrap;
  }

  lemma MoreSizes()
    ensures Sized(GreFields(), 32, Widths(Gre)) && Sized(FragFields(), 64, Widths(Frag))
  {
    hide Wrap;
  }

  lemma Ipv6Size()
    ensures Sized(Ipv6Fields(), 320, Widths(Ipv6))
  {
  }

  lemma OptionStarts()
    ensures Starts(Ipv4Fields(), Ipv4Widths()) && Starts(TcpFields(), TcpWidths())
    ensures EndsInOptions(Ipv4Rest(), IPV4, 1) && FixedBits(Ipv4Rest()) == 112
    ensures EndsInOptions(TcpRest(), TCP, 4) && FixedBits(TcpRest()) == 60
  {
    hide Wrap;
  }

  lemma NoDefects()
    ensures Defects(Ipv4Fields(), IPV4, 0, 0) == 0 && Defects(TcpFields(), TCP, 0, 0) == 0
  {
    assert Defects(Ipv4Rest(), IPV4, 6, 6) == 0;
    assert Defects(TcpRest(), TCP, 5, 5) == 0;
    hide Ipv4Rest, TcpRest;
  }

  lemma Ipv4Shape()
    ensures OptionsAt(Ipv4Fields(), IPV4, 1, 4)
  {
    NoDefects();
    DefectFree(Ipv4Fields(), IPV4, 0, 0, Scope(map[], {}, Some(IPV4), {}, true));
    OptionStarts();
    hide Ipv4Rest, Defects, DistinctNames, Starts;
  }

  lemma TcpShape()
    ensures OptionsAt(TcpFields(), TCP, 4, 96)
  {
    NoDefects();
    DefectFree(TcpFields(), TCP, 0, 0, Scope(map[], {}, Some(TCP), {}, true));
    OptionStarts();
    hide TcpRest, Defects, DistinctNames, Starts;
  }

  /** What the optional fields of the GRE header and its protocol type are, where they matter. */
  ghost predicate Ready(l: Layer, cfg: Config) {
    && cfg.regions == []
    && match l
       case GreOpt(c, k, s, proto) => proto < TWO64 && Has(cfg.env, GRE, 6, proto) && GreFlags(cfg.env, c, k, s)
       case _ => true
  }

  ghost predicate GreFlags(env: Env, c: nat, k: nat, s: nat) {
    c < 2 && k < 2 && s < 2 && Has(env, GRE, 0, c) && Has(env, GRE, 2, k) && Has(env, GRE, 3, s)
  }

  /** Reading the header of l takes its bits, or stops where the packet ends. */
  ghost predicate IsRead(l: Layer, pkt: Packet, cfg: Config)
    requires Instance(l).Some?
  {
    HeaderIs(Header(pkt, ReadBy(l), cfg), pkt, cfg, ReadBy(l), Size(l, pkt, cfg.pos), Widths(l))
  }

  lemma GreOptLength(cfg: Config, c: nat, k: nat, s: nat)
    requires GreFlags(cfg.env, c, k, s)
    ensures FieldLen(GreOptFields().head.width, cfg) == Some(32 * (c + k + s))
  {
    FourWords(cfg, 0, c);
    FourWords(cfg, 2, k);
    FourWords(cfg, 3, s);
    var e := Bin(Add, Bin(Add, Four(0), Four(2)), Four(3));
    hide Four;
    assert Eval(Bin(Add, Four(0), Four(2)), cfg.env, cfg.meta, None) == Some(4 * c + 4 * k);
    assert Eval(e, cfg.env, cfg.meta, None) == Some(4 * c + 4 * k + 4 * s);
    EvalTimesEight(e, cfg.env, cfg.meta, None, 4 * c + 4 * k + 4 * s);
  }

  lemma FourWords(cfg: Config, f: Name, v: nat)
    requires Has(cfg.env, GRE, f, v) && v < 2
    ensures Eval(Four(f), cfg.env, cfg.meta, None) == Some(4 * v)
  {
    assert Eval(Ref(GRE, f), cfg.env, cfg.meta, None) == Some(v);
  }

  /** A header of one field. */
  lemma OneField(pkt: Packet, inst: Name, d: FieldDecl, cur: nat, n: nat, cfg: Config)
    requires FieldLen(d.width, cfg) == Some(n) && cfg.regions == []
    ensures var r := ReadFields(pkt, inst, false, Cons(d, Nil), cur, cfg);
            if cur + n <= |pkt| then r.Go? && r.cfg.pos == cur + n else r == Stop(OutOfBounds, cur, cfg)
  {
    FieldsCons(pkt, inst, false, Cons(d, Nil), cur, cfg);
  }

  lemma GreOptRead(l: Layer, pkt: Packet, cfg: Config)
    requires l.GreOpt? && Ready(l, cfg) && cfg.pos <= |pkt|
    ensures IsRead(l, pkt, cfg)
  {
    var b := BeginHeader(ReadBy(l), cfg);
    GreOptLength(b, l.c, l.k, l.s);
    OneField(pkt, GRE_OPT, GreOptFields().head, cfg.pos, 32 * (l.c + l.k + l.s), b);
    FieldsKeepRest(pkt, GRE_OPT, false, GreOptFields(), cfg.pos, b);
    HeaderVisits(pkt, ReadBy(l), cfg);
    hide ReadFields;
  }

  /** After the first 16 bits of an option header. */
  lemma OptBodyRead(pkt: Packet, cur: nat, cfg: Config)
    requires cfg.regions == [] && cur + 8 <= |pkt|
    ensures var r := ReadFields(pkt, EXT_OPT, false, ExtOptFields().tail, cur, cfg);
            var n := 64 * (1 + Read(pkt, cur, 8)) - 16;
            if cur + 8 + n <= |pkt| then r.Go? && r.cfg.pos == cur + 8 + n else r.Stop? && r.reason == OutOfBounds
  {
    var fs := ExtOptFields().tail;
    FieldsCons(pkt, EXT_OPT, false, fs, cur, cfg);
    var r := ReadField(pkt, EXT_OPT, fs.head, cur, cur, cfg);
    ReadBound(pkt, cur, 8);
    Pow2Small();
    OptBodyLength(r.cfg.env, r.cfg.meta, Read(pkt, cur, 8));
    hide Read;
    OneField(pkt, EXT_OPT, fs.tail.head, cur + 8, 64 * (1 + Read(pkt, cur, 8)) - 16, r.cfg);
  }

  lemma OptRead(pkt: Packet, cur: nat, cfg: Config)
    requires cfg.regions == [] && cur <= |pkt|
    ensures var r, size := ReadFields(pkt, EXT_OPT, false, ExtOptFields(), cur, cfg), Size(Ipv6Opt, pkt, cur);
            if size.Some? then r.Go? && r.cfg.pos == cur + size.value else r.Stop? && r.reason == OutOfBounds
  {
    var fs := ExtOptFields();
    assert fs.head == FieldDecl(0, Fixed(8)) && fs.tail.head == FieldDecl(1, Fixed(8));
    hide ReadFields, ReadField, FieldLen, ExtOptFields, Read;
    FieldsCons(pkt, EXT_OPT, false, fs, cur, cfg);
    StaticField(pkt, EXT_OPT, fs.head, cur, cur, cfg);
    var r := ReadField(pkt, EXT_OPT, fs.head, cur, cur, cfg);
    if r.Go? {
      FieldsCons(pkt, EXT_OPT, false, fs.tail, cur + 8, r.cfg);
      StaticField(pkt, EXT_OPT, fs.tail.head, cur + 8, cur + 8, r.cfg);
      if cur + 16 <= |pkt| {
        OptBodyRead(pkt, cur + 8, r.cfg);
      }
    }
  }

  lemma Ipv6OptRead(pkt: Packet, cfg: Config)
    requires cfg.regions == [] && cfg.pos <= |pkt|
    ensures IsRead(Ipv6Opt, pkt, cfg)
  {
    var b := BeginHeader(ReadBy(Ipv6Opt), cfg);
    assert Starts(ExtOptFields(), Widths(Ipv6Opt));
    OptRead(pkt, cfg.pos, b);
    CutShort(pkt, EXT_OPT, false, ExtOptFields(), Widths(Ipv6Opt), cfg.pos, b);
    FieldsKeepRest(pkt, EXT_OPT, false, ExtOptFields(), cfg.pos, b);
    HeaderVisits(pkt, ReadBy(Ipv6Opt), cfg);
    hide ReadFields, Size, Starts, Widths;
  }

  lemma LayerRead(l: Layer, pkt: Packet, cfg: Config)
    requires Instance(l).Some? && Ready(l, cfg) && cfg.pos <= |pkt| <= 0x8000_0000_0000_0000
    ensures IsRead(l, pkt, cfg)
  {
    hide HeaderIs, Header, Words, Whole, Starts, OptionsAt, EthernetFields, VlanFields, Ipv4Fields, Ipv6Fields, ExtOptFields;
    hide GreFields, GreOptFields, FragFields, MplsFields, TcpFields, UdpFields;
    hide Ipv4Widths, TcpWidths, Ipv6Widths, W, StaticWidths, StaticBits;
    Sizes();
    MoreSizes();
    Ipv6Size();
    Ipv4Shape();
    TcpShape();
    OptionStarts();
    if l == Ipv4 {
      WordsHeader(pkt, ReadBy(l), cfg, 1, 4, Widths(l));
    } else if l == Tcp {
      WordsHeader(pkt, ReadBy(l), cfg, 4, 96, Widths(l));
    } else if l == Ipv6Opt {
      Ipv6OptRead(pkt, cfg);
    } else if l.GreOpt? {
      GreOptRead(l, pkt, cfg);
    } else {
      FixedHeader(pkt, ReadBy(l), cfg, Widths(l));
    }
  }

  // ---- Branches ----

  function One(k: u64): List<Entry> {
    Cons(Value(k), Nil)
  }

  function EthernetArms(): List<Arm> {
    Goes(0x0800, S_IPV4, Goes(0x86dd, S_IPV6, Goes(0x8100, S_VLAN_Q, Goes(0x88a8, S_VLAN_AD,
    Goes(0x8847, S_MPLS, Goes(0x8848, S_MPLS, Nil))))))
  }

  function TagArms(): List<Arm> {
    Goes(0x0800, S_IPV4, Goes(0x86dd, S_IPV6, Goes(0x8847, S_MPLS, Goes(0x8848, S_MPLS,
    When(0x8100, ToReject(VLAN_STACKING), When(0x88a8, ToReject(VLAN_STACKING), Nil))))))
  }

  function GreArms(): List<Arm> {
    Goes(0x0800, S_IPV4, Goes(0x86dd, S_IPV6, Goes(0x6558, S_ETHERNET, Nil)))
  }

  lemma EthernetChoice(k: u64)
    ensures ExactArms(EthernetArms()) && Aims(Found(EthernetArms(), One(k), ToReject(BAD_ETHERTYPE)), OverEthernet(k))
  {
  }

  lemma TagChoice(k: u64)
    ensures ExactArms(TagArms()) && Aims(Found(TagArms(), One(k), ToReject(BAD_ETHERTYPE)), OverTag(k))
  {
  }

  lemma IpChoice(k: u64)
    ensures ExactArms(IpProtoArms()) && Aims(Found(IpProtoArms(), One(k), ToReject(BAD_IP_PROTO)), OverIp(k))
  {
  }

  lemma Ipv6Choice(k: u64)
    ensures ExactArms(Ipv6Arms()) && Aims(Found(Ipv6Arms(), One(k), ToReject(BAD_IP_PROTO)), OverIpv6(k))
  {
  }

  lemma GreChoice(k: u64)
    ensures ExactArms(GreArms()) && Aims(Found(GreArms(), One(k), ToReject(BAD_GRE_PROTO)), OverGre(k))
  {
  }

  lemma SingleChoice(v: nat, q: Name, other: Target, k: u64)
    ensures ExactArms(Goes(v, q, Nil)) && Found(Goes(v, q, Nil), One(k), other) == if k == v then ToState(q) else other
  {
    assert ExactArms(Nil) && ExactEntries(Nil) && Found(Nil, One(k), other) == other;
  }

  lemma Keys()
    ensures KeyAt(EthernetFields(), 2, 96, 16) && KeyAt(VlanFields(), 3, 16, 16)
    ensures KeyAt(Ipv6Fields(), 4, 48, 8) && KeyAt(ExtOptFields(), 0, 0, 8)
  {
  }

  lemma GreKeys()
    ensures KeyAt(GreFields(), 5, 13, 3) && KeyAt(GreFields(), 6, 16, 16)
    ensures KeyAt(GreFields(), 0, 0, 1) && KeyAt(GreFields(), 2, 2, 1) && KeyAt(GreFields(), 3, 3, 1)
  {
  }

  lemma Ipv4Key()
    ensures KeyAt(Ipv4Fields(), 9, 72, 8)
  {
    Ipv4Shape();
    assert LeadsTo(Ipv4Rest(), 9) && OffsetOf(Ipv4Rest(), 9) == 24 && FieldWidth(Ipv4Rest(), 9) == 8;
    hide Ipv4Rest, DistinctNames, OptionsAt;
    assert DistinctNames(Ipv4Fields());
  }

  // ---- One layer ----

  /** The mark on the is_encap register. */
  function Marked(l: Layer, c: Config): Config {
    if Marks(l) then c.(meta := c.meta[IS_ENCAP := 1]) else c
  }

  /** The run goes where the walk does, once the layer's header is read. */
  ghost predicate Follows(l: Layer, pkt: Packet, cfg: Config)
    requires Instance(l).Some?
  {
    var f := Header(pkt, ReadBy(l), cfg);
    f.Go? ==>
      && Size(l, pkt, cfg.pos).Some?
      && var d := Decide(StateOf(StateFor(l)).transition, Marked(l, f.cfg));
         d.To? && Aims(d.target, Next(l, pkt, cfg.pos))
         && (Next(l, pkt, cfg.pos).Then? ==> Ready(Next(l, pkt, cfg.pos).layer, Marked(l, f.cfg)))
  }

  lemma LinkFollows(l: Layer, pkt: Packet, cfg: Config)
    requires Ready(l, cfg) && cfg.pos <= |pkt| <= 0x8000_0000_0000_0000
    requires l in {Ethernet, VlanAd, VlanQ}
    ensures Follows(l, pkt, cfg)
  {
    hide Header, Whole, EthernetFields, VlanFields, Found, KeyAt, Read, Widths, Decide, Goes, When, On, ExactArms;
    LayerRead(l, pkt, cfg);
    Keys();
    EthernetChoice(0);
    TagChoice(0);
    var ex := ReadBy(l);
    var go := Header(pkt, ex, cfg).Go?;
    if l == Ethernet {
      KeyDecides(pkt, ex, cfg, 2, 96, 16, EthernetArms(), ToReject(BAD_ETHERTYPE));
      if go {
        EthernetChoice(Read(pkt, cfg.pos + 96, 16));
      }
    } else if l == VlanQ {
      KeyDecides(pkt, ex, cfg, 3, 16, 16, TagArms(), ToReject(BAD_ETHERTYPE));
      if go {
        TagChoice(Read(pkt, cfg.pos + 16, 16));
      }
    } else {
      SingleChoice(0x8100, S_VLAN_Q, ToReject(AD_WITHOUT_Q), 0);
      KeyDecides(pkt, ex, cfg, 3, 16, 16, Goes(0x8100, S_VLAN_Q, Nil), ToReject(AD_WITHOUT_Q));
      if go {
        SingleChoice(0x8100, S_VLAN_Q, ToReject(AD_WITHOUT_Q), Read(pkt, cfg.pos + 16, 16));
      }
    }
  }

  lemma IpFollows(l: Layer, pkt: Packet, cfg: Config)
    requires Ready(l, cfg) && cfg.pos <= |pkt| <= 0x8000_0000_0000_0000
    requires l in {Ipv4, Ipv6, Ipv6Opt}
    ensures Follows(l, pkt, cfg)
  {
    hide Header, Whole, Words, Ipv4Fields, Ipv6Fields, ExtOptFields, Found, KeyAt, Read, Widths, Decide, Goes, When, On,
      ExactArms, Ipv6Arms, IpProtoArms;
    LayerRead(l, pkt, cfg);
    Keys();
    Ipv4Key();
    IpChoice(0);
    Ipv6Choice(0);
    var ex := ReadBy(l);
    var go := Header(pkt, ex, cfg).Go?;
    if l == Ipv4 {
      KeyDecides(pkt, ex, cfg, 9, 72, 8, IpProtoArms(), ToReject(BAD_IP_PROTO));
      if go {
        IpChoice(Read(pkt, cfg.pos + 72, 8));
      }
    } else if l == Ipv6 {
      KeyDecides(pkt, ex, cfg, 4, 48, 8, Ipv6Arms(), ToReject(BAD_IP_PROTO));
      if go {
        Ipv6Choice(Read(pkt, cfg.pos + 48, 8));
      }
    } else {
      KeyDecides(pkt, ex, cfg, 0, 0, 8, Ipv6Arms(), ToReject(BAD_IP_PROTO));
      if go {
        Ipv6Choice(Read(pkt, cfg.pos, 8));
      }
    }
  }

  lemma FlagBound(pkt: Packet, off: nat)
    requires off + 1 <= |pkt|
    ensures Read(pkt, off, 1) < 2
  {
    ReadBound(pkt, off, 1);
    Pow2Small();
  }

  lemma GreFollows(pkt: Packet, cfg: Config)
    requires Ready(Gre, cfg) && cfg.pos <= |pkt| <= 0x8000_0000_0000_0000
    ensures Follows(Gre, pkt, cfg)
  {
    hide Header, Whole, GreFields, Found, KeyAt, Read, Widths, Decide, Goes, On, ExactArms;
    LayerRead(Gre, pkt, cfg);
    GreKeys();
    var ex := ReadBy(Gre);
    SingleChoice(0, S_GRE_OPT, ToAccept, 0);
    KeyDecides(pkt, ex, cfg, 5, 13, 3, Goes(0, S_GRE_OPT, Nil), ToAccept);
    KeyRead(pkt, ex, 0, 0, 1, cfg);
    KeyRead(pkt, ex, 2, 2, 1, cfg);
    KeyRead(pkt, ex, 3, 3, 1, cfg);
    KeyRead(pkt, ex, 6, 16, 16, cfg);
    if Header(pkt, ex, cfg).Go? {
      SingleChoice(0, S_GRE_OPT, ToAccept, Read(pkt, cfg.pos + 13, 3));
      FlagBound(pkt, cfg.pos);
      FlagBound(pkt, cfg.pos + 2);
      FlagBound(pkt, cfg.pos + 3);
    }
  }

  lemma GreOptFollows(l: Layer, pkt: Packet, cfg: Config)
    requires Ready(l, cfg) && cfg.pos <= |pkt| <= 0x8000_0000_0000_0000
    requires l.GreOpt?
    ensures Follows(l, pkt, cfg)
  {
    hide Header, Whole, GreOptFields, Found, Read, Widths, Decide, Goes, On, ExactArms;
    LayerRead(l, pkt, cfg);
    var f := Header(pkt, ReadBy(l), cfg);
    if f.Go? {
      GreKept(l, pkt, cfg);
      GreChoice(l.proto);
      DecideKey(Ref(GRE, 6), GreArms(), ToReject(BAD_GRE_PROTO), Marked(l, f.cfg), l.proto);
    }
  }

  /** The options leave the GRE header's protocol type alone. */
  lemma GreKept(l: Layer, pkt: Packet, cfg: Config)
    requires Ready(l, cfg) && l.GreOpt?
    ensures var f := Header(pkt, ReadBy(l), cfg); f.Go? ==> Has(f.cfg.env, GRE, 6, l.proto)
  {
    hide ReadFields;
    OthersKept(pkt, GRE_OPT, false, GreOptFields(), cfg.pos, BeginHeader(ReadBy(l), cfg), FieldRef(GRE, 6));
  }

  lemma LeafState(l: Layer, pkt: Packet, pos: nat)
    requires l in {Frag, Mpls, Tcp, Udp}
    ensures StateOf(StateFor(l)).transition == Direct(ToAccept)
    ensures Size(l, pkt, pos).Some? ==> Next(l, pkt, pos) == Ends(Accepted)
  {
    hide FragFields, MplsFields, TcpFields, UdpFields, Read, Whole, Words;
  }

  lemma LeafFollows(l: Layer, pkt: Packet, cfg: Config)
    requires Ready(l, cfg) && cfg.pos <= |pkt| <= 0x8000_0000_0000_0000
    requires l in {Frag, Mpls, Tcp, Udp}
    ensures Follows(l, pkt, cfg)
  {
    hide Header, Size, StateOf, Next, LayoutOf, Widths, Ready;
    LeafState(l, pkt, cfg.pos);
    LayerRead(l, pkt, cfg);
  }

  lemma LayerFollows(l: Layer, pkt: Packet, cfg: Config)
    requires Ready(l, cfg) && cfg.pos <= |pkt| <= 0x8000_0000_0000_0000
    requires Instance(l).Some?
    ensures Follows(l, pkt, cfg)
  {
    hide Follows;
    if l in {Ethernet, VlanAd, VlanQ} {
      LinkFollows(l, pkt, cfg);
    } else if l in {Ipv4, Ipv6, Ipv6Opt} {
      IpFollows(l, pkt, cfg);
    } else if l == Gre {
      GreFollows(pkt, cfg);
    } else if l.GreOpt? {
      GreOptFollows(l, pkt, cfg);
    } else {
      LeafFollows(l, pkt, cfg);
    }
  }

  // ---- The run is the walk ----

  lemma SizeInside(l: Layer, pkt: Packet, pos: nat)
    requires Size(l, pkt, pos).Some?
    ensures pos + Size(l, pkt, pos).value <= |pkt|
  {
    hide Read;
  }

  /** One state entry is one layer of the walk. */
  ghost predicate StepsAs(p: Program, pkt: Packet, rule: PopRule, l: Layer, cfg: Config)
    requires |p.states| == 14 && cfg.pos <= |pkt|
  {
    var r, size := Step(p, pkt, rule, StateFor(l), cfg), Size(l, pkt, cfg.pos);
    var visits := VisitsOf(cfg.headers) + Meets(l, cfg.pos);
    if size.None? then
      r.Done? && r.result.cfg.meta == cfg.meta
      && TraceOf(r.result) == Trace(Rejected(OutOfBounds), cfg.pos + Cut(Widths(l), |pkt| - cfg.pos), visits)
    else
      match Next(l, pkt, cfg.pos)
      case Ends(outcome) =>
        r.Done? && r.result.cfg.meta == Marked(l, cfg).meta && TraceOf(r.result) == Trace(outcome, cfg.pos + size.value, visits)
      case Then(next) =>
        && r.Next? && r.state == StateFor(next) && r.cfg.meta == Marked(l, cfg).meta
        && r.cfg.pos == cfg.pos + size.value && Ready(next, r.cfg) && VisitsOf(r.cfg.headers) == visits
  }

  lemma HeaderWalks(p: Program, pkt: Packet, rule: PopRule, l: Layer, cfg: Config)
    requires p == Description(p.maxDepth) && Instance(l).Some? && !Marks(l)
    requires Ready(l, cfg) && cfg.pos <= |pkt| <= 0x8000_0000_0000_0000
    ensures StepsAs(p, pkt, rule, l, cfg)
  {
    hide Header, StateOf, Step, Size, Widths, Next, Decide, VisitsOf, Cut, LayoutOf, Ready;
    StateReads(l);
    LayerRead(l, pkt, cfg);
    LayerFollows(l, pkt, cfg);
    HeaderThenBranch(p, pkt, rule, StateFor(l), StateOf(StateFor(l)), cfg);
  }

  lemma MarkIsOne(p: Program, c: Config)
    requires p == Description(p.maxDepth)
    ensures Assigned(p.metadata, MarkEncap().head, 1, c) == c.(meta := c.meta[IS_ENCAP := 1])
    ensures Eval(MarkEncap().head.value, c.env, c.meta, RemainingAt(c.regions, c.pos)) == Some(1)
  {
    Pow2Small();
  }

  lemma GreOptWalks(p: Program, pkt: Packet, rule: PopRule, l: Layer, cfg: Config)
    requires p == Description(p.maxDepth) && l.GreOpt?
    requires Ready(l, cfg) && cfg.pos <= |pkt| <= 0x8000_0000_0000_0000
    ensures StepsAs(p, pkt, rule, l, cfg)
  {
    hide Header, StateOf, Step, Size, Widths, Next, Decide, VisitsOf, Cut, LayoutOf, Ready, Eval, Assigned, RunExtracts;
    StateReads(l);
    LayerRead(l, pkt, cfg);
    LayerFollows(l, pkt, cfg);
    var s, f := StateOf(StateFor(l)), Header(pkt, ReadBy(l), cfg);
    if f.Go? {
      SingleExtract(pkt, s.extracts, cfg);
      MarkIsOne(p, f.cfg);
      ThenAssigns(p, pkt, rule, StateFor(l), s, cfg, f.cfg, MarkEncap().head, 1);
    } else {
      HeaderStops(p, pkt, rule, StateFor(l), s, cfg);
    }
  }

  /** The two states that only mark. */
  lemma MarkWalks(p: Program, pkt: Packet, rule: PopRule, l: Layer, cfg: Config)
    requires p == Description(p.maxDepth) && (l == Ipip || l == Ip6ip)
    requires Ready(l, cfg) && cfg.pos <= |pkt| <= 0x8000_0000_0000_0000
    ensures StepsAs(p, pkt, rule, l, cfg)
  {
    hide Step, Cut, Eval, Assigned;
    var s := StateOf(StateFor(l));
    assert s.extracts == Nil && s.assigns == MarkEncap() && s.ops == Nil;
    assert s.transition == Direct(ToState(if l == Ipip then S_IPV4 else S_IPV6));
    assert RunExtracts(pkt, Nil, cfg) == Go(cfg);
    hide StateOf;
    MarkIsOne(p, cfg);
    ThenAssigns(p, pkt, rule, StateFor(l), s, cfg, cfg, MarkEncap().head, 1);
    assert VisitsOf(cfg.headers) + [] == VisitsOf(cfg.headers);
  }

  lemma StepWalks(p: Program, pkt: Packet, rule: PopRule, l: Layer, cfg: Config)
    requires p == Description(p.maxDepth)
    requires Ready(l, cfg) && cfg.pos <= |pkt| <= 0x8000_0000_0000_0000
    ensures StepsAs(p, pkt, rule, l, cfg)
  {
    hide StepsAs, Ready;
    if l == Ipip || l == Ip6ip {
      MarkWalks(p, pkt, rule, l, cfg);
    } else if l.GreOpt? {
      GreOptWalks(p, pkt, rule, l, cfg);
    } else {
      HeaderWalks(p, pkt, rule, l, cfg);
    }
  }

  /** A result and its register, as a report. */
  ghost predicate Ended(r: Result, w: Report) {
    TraceOf(r) == w.trace && IS_ENCAP in r.cfg.meta && r.cfg.meta[IS_ENCAP] == w.encap
  }

  lemma {:induction false} RunWalks(
    p: Program, pkt: Packet, rule: PopRule, l: Layer, cfg: Config, encap: nat, budget: nat)
    requires p == Description(p.maxDepth) && IS_ENCAP in cfg.meta && cfg.meta[IS_ENCAP] == encap
    requires Ready(l, cfg) && cfg.pos <= |pkt| <= 0x8000_0000_0000_0000
    ensures Ended(RunFrom(p, pkt, rule, StateFor(l), cfg, budget), Walk(l, pkt, cfg.pos, VisitsOf(cfg.headers), encap, budget))
    decreases budget
  {
    hide Step, StateOf, Size, Widths, Next, VisitsOf, Cut, Instance, RunFrom, StateFor, Ready, Description, Marks;
    FourteenStates(p.maxDepth);
    Enters(p, pkt, rule, StateFor(l), cfg, budget);
    if budget > 0 {
      StepWalks(p, pkt, rule, l, cfg);
      if Size(l, pkt, cfg.pos).Some? {
        SizeInside(l, pkt, cfg.pos);
        var r := Step(p, pkt, rule, StateFor(l), cfg);
        if r.Next? {
          RunWalks(p, pkt, rule, Next(l, pkt, cfg.pos).layer, r.cfg, if Marks(l) then 1 else encap, budget - 1);
        }
      }
    }
  }

  lemma FourteenStates(depth: nat)
    ensures |Description(depth).states| == 14
  {
  }

  /** For every packet and budget, the run of the description ends as the walk does, consumes the
      same bits, reports the same headers at the same bits and leaves the same is_encap. */
  lemma ParseIsWalk(pkt: Packet, rule: PopRule, depth: nat)
    requires |pkt| <= 0x8000_0000_0000_0000
    ensures var r, w := Parse(Description(depth), pkt, rule), Walk(Ethernet, pkt, 0, [], 0, depth);
            && r.outcome == w.trace.outcome && r.consumed == w.trace.consumed && VisitsOf(r.cfg.headers) == w.trace.visits
            && IS_ENCAP in r.cfg.meta && r.cfg.meta[IS_ENCAP] == w.encap
  {
    hide RunFrom, Walk, StateOf;
    RunWalks(Description(depth), pkt, rule, Ethernet, Initial(Description(depth)), 0, depth);
    assert VisitsOf([]) == [];
  }
}
