/** Which headers a gibb_big_union packet holds, told from its bits: the layers of the source graph
    with their ethertypes, protocol numbers, sizes and bounds, and the proof that the run of the
    description is that walk. */
module BigUnionWalk {
  import opened Bits
  import opened Ir
  import opened Semantics
  import opened Budget
  import opened Loads
  import opened ParseCore
  import opened Generator
  import opened WholeBytes
  import opened Layouts
  import opened Steps
  import opened Walks
  import opened BigUnion

  // ---- The walk ----

  /** more: tags, labels or tunnels that may still follow. */
  datatype Layer =
    | Ethernet
    | Vlan(tag: bool)
    | ServiceVlan
    | Pbb
    | Mpls(more: nat)
    | MplsPayload
    | Eompls
    | Ipv4
    | Ipv6
    | Icmp
    | Icmpv6
    | Tcp
    | Udp
    | Vxlan
    | Sctp
    | Gre(more: nat)
    | Nvgre
    | Esp
    | Ah
    | Arp
    | ArpIpv4
    | InnerEthernet

  /** Bits of its fields, options apart. */
  function Fields(l: Layer): nat {
    match l
    case Ethernet => 112
    case MplsPayload => 4
    case Ipv4 => 160
    case Ipv6 => 320
    case Tcp => 160
    case Udp => 64
    case Vxlan => 64
    case Sctp => 96
    case Esp => 64
    case Ah => 96
    case Arp => 64
    case ArpIpv4 => 160
    case InnerEthernet => 112
    case _ => 32
  }

  /** Bits of the layer at pos, if the packet holds them all. */
  function Size(l: Layer, pkt: Packet, pos: nat): Option<nat> {
    match l
    case Ipv4 => Words(pkt, pos, 4)
    case Tcp => Words(pkt, pos, 96)
    case _ => Whole(pkt, pos, Fields(l))
  }

  function Ipv4Widths(): List<nat> {
    W(4, W(4, W(8, W(16, W(16, W(3, W(13, W(8, W(8, W(16, W(32, W(32, Nil))))))))))))
  }

  function Ipv6Widths(): List<nat> {
    W(4, W(8, W(20, W(16, W(8, W(8, W(128, W(128, Nil))))))))
  }

  function TcpWidths(): List<nat> {
    W(16, W(16, W(32, W(32, W(4, W(3, W(3, W(6, W(16, W(16, W(16, Nil)))))))))))
  }

  function GreWidths(): List<nat> {
    W(1, W(1, W(1, W(1, W(1, W(3, W(5, W(3, W(16, Nil)))))))))
  }

  /** The widths of its fields, options apart. */
  function Widths(l: Layer): List<nat> {
    match l
    case Ethernet => W(48, W(48, W(16, Nil)))
    case Vlan(_) => W(3, W(1, W(12, W(16, Nil))))
    case ServiceVlan => W(3, W(1, W(12, W(16, Nil))))
    case Pbb => W(3, W(1, W(1, W(3, W(24, Nil)))))
    case Mpls(_) => W(20, W(3, W(1, W(8, Nil))))
    case MplsPayload => W(4, Nil)
    case Eompls => W(4, W(12, W(16, Nil)))
    case Ipv4 => Ipv4Widths()
    case Ipv6 => Ipv6Widths()
    case Icmp => W(8, W(8, W(16, Nil)))
    case Icmpv6 => W(8, W(8, W(16, Nil)))
    case Tcp => TcpWidths()
    case Udp => W(16, W(16, W(16, W(16, Nil))))
    case Vxlan => W(8, W(24, W(24, W(8, Nil))))
    case Sctp => W(16, W(16, W(32, W(32, Nil))))
    case Gre(_) => GreWidths()
    case Nvgre => W(24, W(8, Nil))
    case Esp => W(32, W(32, Nil))
    case Ah => W(8, W(8, W(16, W(32, W(32, Nil)))))
    case Arp => W(16, W(16, W(8, W(8, W(16, Nil)))))
    case ArpIpv4 => W(48, W(32, W(48, W(32, Nil))))
    case InnerEthernet => W(48, W(48, W(16, Nil)))
  }

  predicate IsTag(t: nat) {
    t == 0x8100 || t == 0x9100 || t == 0x9200 || t == 0x9300
  }

  /** What may follow a tag: labels, IP or ARP. */
  function Typed(t: nat): Option<Layer> {
    if t == 0x8847 || t == 0x8848 then Some(Mpls(4))
    else if t == 0x0800 then Some(Ipv4)
    else if t == 0x86dd then Some(Ipv6)
    else if t == 0x0806 || t == 0x8035 then Some(Arp)
    else None
  }

  function Transport(protocol: nat): Option<Layer> {
    match protocol
    case 6 => Some(Tcp)
    case 17 => Some(Udp)
    case 47 => Some(Gre(2))
    case 132 => Some(Sctp)
    case _ => None
  }

  function OverIpv4(protocol: nat): Option<Layer> {
    match protocol
    case 1 => Some(Icmp)
    case 50 => Some(Esp)
    case 51 => Some(Ah)
    case n => Transport(n)
  }

  function OverIpv6(protocol: nat): Option<Layer> {
    match protocol
    case 58 => Some(Icmpv6)
    case 50 => Some(Esp)
    case 51 => Some(Ah)
    case n => Transport(n)
  }

  function OverAh(protocol: nat): Option<Layer> {
    match protocol
    case 1 => Some(Icmp)
    case 58 => Some(Icmpv6)
    case n => Transport(n)
  }

  /** The layer after the one at pos, if the packet goes on. */
  function Onward(l: Layer, pkt: Packet, pos: nat): Option<Layer>
    requires Size(l, pkt, pos).Some?
  {
    match l
    case Ethernet =>
      var t := Read(pkt, pos + 96, 16);
      if IsTag(t) then Some(Vlan(true)) else if t == 0x88a8 then Some(ServiceVlan) else Typed(t)
    case Vlan(more) =>
      var t := Read(pkt, pos + 16, 16);
      if more && IsTag(t) then Some(Vlan(false)) else Typed(t)
    case ServiceVlan =>
      var t := Read(pkt, pos + 16, 16);
      if IsTag(t) then Some(Vlan(false)) else if t == 0x88e7 then Some(Pbb) else None
    case Mpls(more) =>
      if Read(pkt, pos + 23, 1) == 1 then Some(MplsPayload)
      else if more > 0 then Some(Mpls(more - 1))
      else None
    case MplsPayload =>
      (match Read(pkt, pos, 4)
       case 0 => Some(Eompls)
       case 4 => Some(Ipv4)
       case 6 => Some(Ipv6)
       case _ => None)
    case Ipv4 =>
      if Read(pkt, pos + 51, 13) == 0 then OverIpv4(Read(pkt, pos + 72, 8)) else None
    case Ipv6 => OverIpv6(Read(pkt, pos + 48, 8))
    case Ah => OverAh(Read(pkt, pos, 8))
    case Udp => if Read(pkt, pos + 16, 16) == 65535 then Some(Vxlan) else None
    case Gre(more) =>
      if Read(pkt, pos + 2, 1) != 1 then None
      else if Read(pkt, pos + 16, 16) == 0x6558 then Some(Nvgre)
      else if Read(pkt, pos + 16, 16) == 0x6559 && more > 0 then Some(Gre(more - 1))
      else None
    case Arp => if Read(pkt, pos + 16, 16) == 0x0800 then Some(ArpIpv4) else None
    case Pbb => Some(InnerEthernet)
    case Eompls => Some(InnerEthernet)
    case Vxlan => Some(InnerEthernet)
    case Nvgre => Some(InnerEthernet)
    case _ => None
  }

  function Instance(l: Layer): Name {
    match l
    case Ethernet => ETHERNET
    case Vlan(_) => VLAN
    case ServiceVlan => VLAN_AD
    case Pbb => PBB
    case Mpls(_) => MPLS
    case MplsPayload => NIBBLE
    case Eompls => EOMPLS
    case Ipv4 => IPV4
    case Ipv6 => IPV6
    case Icmp => ICMP
    case Icmpv6 => ICMPV6
    case Tcp => TCP
    case Udp => UDP
    case Vxlan => VXLAN
    case Sctp => SCTP
    case Gre(_) => GRE
    case Nvgre => NVGRE
    case Esp => ESP
    case Ah => AH
    case Arp => ARP
    case ArpIpv4 => ARP_IPV4
    case InnerEthernet => ETHERNET2
  }

  /** The nibble below the labels is only peeked: it takes no bits. */
  function After(l: Layer, pos: nat, size: nat): nat {
    if l == MplsPayload then pos else pos + size
  }

  /** The layers from l at pos, after the ones seen; at most budget of them. */
  function Walk(l: Layer, pkt: Packet, pos: nat, seen: seq<Visit>, budget: nat): Trace
    requires pos <= |pkt|
    decreases budget
  {
    if budget == 0 then Trace(Rejected(MaxDepthExceeded), pos, seen)
    else
      var visits, size := seen + [Visit(Instance(l), pos)], Size(l, pkt, pos);
      if size.None? then Trace(Rejected(OutOfBounds), After(l, pos, Cut(Widths(l), |pkt| - pos)), visits)
      else
        match Onward(l, pkt, pos)
        case None => Trace(Accepted, After(l, pos, size.value), visits)
        case Some(next) => Walk(next, pkt, After(l, pos, size.value), visits, budget - 1)
  }

  // ---- Layers and states ----

  predicate Legal(l: Layer) {
    (l.Mpls? ==> l.more <= 4) && (l.Gre? ==> l.more <= 2)
  }

  function StateFor(l: Layer): Name
    requires Legal(l)
  {
    match l
    case Ethernet => S_ETHERNET
    case Vlan(tag) => if tag then S_VLAN_Q1 else S_VLAN_Q2
    case ServiceVlan => S_VLAN_AD
    case Pbb => S_PBB
    case Mpls(more) => S_MPLS5 - more
    case MplsPayload => S_MPLS_PAYLOAD
    case Eompls => S_EOMPLS
    case Ipv4 => S_IPV4
    case Ipv6 => S_IPV6
    case Icmp => S_ICMP
    case Icmpv6 => S_ICMPV6
    case Tcp => S_TCP
    case Udp => S_UDP
    case Vxlan => S_VXLAN
    case Sctp => S_SCTP
    case Gre(more) => S_GRE3 - more
    case Nvgre => S_NVGRE
    case Esp => S_ESP
    case Ah => S_AH
    case Arp => S_ARP
    case ArpIpv4 => S_ARP_IPV4
    case InnerEthernet => S_ETHERNET2
  }

  function Aim(o: Option<Layer>): Target
    requires o.Some? ==> Legal(o.value)
  {
    if o.None? then ToAccept else ToState(StateFor(o.value))
  }

  lemma ReadsInstance(l: Layer)
    requires Legal(l)
    ensures var exs := StateOf(StateFor(l)).extracts; exs.Cons? && exs.head.inst == Instance(l)
  {
    hide Layout, On, Goes, Pair, VlanTags, Payloads, Ipv4Arms, Ipv6Arms, AhArms, DispatchTwo;
  }

  /** A state extracts its layer's header, and nothing else. */
  lemma StateReads(l: Layer)
    requires Legal(l)
    ensures var s := StateOf(StateFor(l));
            && s.extracts == Cons(Extract(Instance(l), Layout(Instance(l)), l == MplsPayload), Nil)
            && s.assigns.Nil? && s.ops.Nil?
  {
    ReadsInstance(l);
    StatesReadOwn(StateFor(l));
    hide Layout, StateOf, Instance;
  }

  // ---- Headers ----

  predicate Sized(fs: List<FieldDecl>, bits: nat, ws: List<nat>) {
    StaticWidths(fs) && StaticBits(fs) == bits && Starts(fs, ws)
  }

  lemma LinkSizes()
    ensures Sized(EthernetFields(), 112, Widths(Ethernet)) && Sized(TagFields(), 32, Widths(ServiceVlan))
    ensures Sized(PbbFields(), 32, Widths(Pbb)) && Sized(MplsFields(), 32, Widths(Mpls(0)))
    ensures Sized(NibbleFields(), 4, Widths(MplsPayload)) && Sized(EomplsFields(), 32, Widths(Eompls))
  {
    hide Wrap;
  }

  lemma TransportSizes()
    ensures Sized(IcmpFields(), 32, Widths(Icmp)) && Sized(UdpFields(), 64, Widths(Udp))
    ensures Sized(SctpFields(), 96, Widths(Sctp))
  {
    hide Wrap;
  }

  lemma LongerSizes()
    ensures Sized(AhFields(), 96, Widths(Ah)) && Sized(VxlanFields(), 64, Widths(Vxlan))
  {
    hide Wrap;
  }

  lemma TunnelSizes()
    ensures Sized(NvgreFields(), 32, Widths(Nvgre)) && Sized(EspFields(), 64, Widths(Esp))
  {
    hide Wrap;
  }

  lemma ArpSizes()
    ensures Sized(ArpFields(), 64, Widths(Arp)) && Sized(ArpIpv4Fields(), 160, Widths(ArpIpv4))
  {
    hide Wrap;
  }

  lemma LongSizes()
    ensures Sized(Ipv6Fields(), 320, Widths(Ipv6))
  {
  }

  lemma GreSizes()
    ensures Sized(GreFields(), 32, Widths(Gre(0)))
  {
    hide Wrap;
  }

  lemma OptionStarts()
    ensures Starts(Ipv4Fields(), Widths(Ipv4)) && Starts(TcpFields(), Widths(Tcp))
  {
  }

  /** What the run extracts for a layer. */
  function ReadBy(l: Layer): Extract {
    Extract(Instance(l), Layout(Instance(l)), l == MplsPayload)
  }

  predicate IsLink(l: Layer) {
    l.Ethernet? || l.Vlan? || l.ServiceVlan? || l.Pbb? || l.Mpls? || l.MplsPayload? || l.Eompls? || l.InnerEthernet?
  }

  predicate IsTransport(l: Layer) {
    l.Icmp? || l.Icmpv6? || l.Udp? || l.Sctp?
  }

  predicate IsTunnel(l: Layer) {
    l.Nvgre? || l.Esp? || l.Ah? || l.Vxlan?
  }

  lemma LinkLayers(l: Layer)
    requires IsLink(l)
    ensures Sized(ReadBy(l).fields, Fields(l), Widths(l))
  {
    hide Sized, AhFields, ArpFields, ArpIpv4Fields, EomplsFields, EspFields, EthernetFields, GreFields, IcmpFields, Ipv4Fields;
    hide Ipv6Fields, MplsFields, NibbleFields, NvgreFields, PbbFields, SctpFields, TagFields, TcpFields, UdpFields, VxlanFields;
    hide W, Ipv6Widths, GreWidths, Ipv4Widths, TcpWidths;
    LinkSizes();
  }

  lemma TransportLayers(l: Layer)
    requires IsTransport(l)
    ensures Sized(ReadBy(l).fields, Fields(l), Widths(l))
  {
    hide Sized, AhFields, ArpFields, ArpIpv4Fields, EomplsFields, EspFields, EthernetFields, GreFields, IcmpFields, Ipv4Fields;
    hide Ipv6Fields, MplsFields, NibbleFields, NvgreFields, PbbFields, SctpFields, TagFields, TcpFields, UdpFields, VxlanFields;
    hide W, Ipv6Widths, GreWidths, Ipv4Widths, TcpWidths;
    TransportSizes();
  }

  lemma TunnelLayers(l: Layer)
    requires IsTunnel(l)
    ensures Sized(ReadBy(l).fields, Fields(l), Widths(l))
  {
    hide Sized, AhFields, ArpFields, ArpIpv4Fields, EomplsFields, EspFields, EthernetFields, GreFields, IcmpFields, Ipv4Fields;
    hide Ipv6Fields, MplsFields, NibbleFields, NvgreFields, PbbFields, SctpFields, TagFields, TcpFields, UdpFields, VxlanFields;
    hide W, Ipv6Widths, GreWidths, Ipv4Widths, TcpWidths;
    TunnelSizes();
    LongerSizes();
  }

  lemma RestLayers(l: Layer)
    requires l.Arp? || l.ArpIpv4? || l.Ipv6? || l.Gre?
    ensures Sized(ReadBy(l).fields, Fields(l), Widths(l))
  {
    hide Sized, AhFields, ArpFields, ArpIpv4Fields, EomplsFields, EspFields, EthernetFields, GreFields, IcmpFields, Ipv4Fields;
    hide Ipv6Fields, MplsFields, NibbleFields, NvgreFields, PbbFields, SctpFields, TagFields, TcpFields, UdpFields, VxlanFields;
    hide W, Ipv6Widths, GreWidths, Ipv4Widths, TcpWidths;
    ArpSizes();
    LongSizes();
    GreSizes();
  }

  /** A layer of one size. */
  lemma FixedLayers(l: Layer)
    requires l != Ipv4 && l != Tcp
    ensures Sized(ReadBy(l).fields, Fields(l), Widths(l))
  {
    hide Sized, ReadBy, Fields, Widths;
    if IsLink(l) {
      LinkLayers(l);
    } else if IsTransport(l) {
      TransportLayers(l);
    } else if IsTunnel(l) {
      TunnelLayers(l);
    } else {
      RestLayers(l);
    }
  }

  /** Reading the header of l takes its bits, or stops where the packet ends. */
  ghost predicate IsRead(l: Layer, pkt: Packet, cfg: Config) {
    HeaderIs(Header(pkt, ReadBy(l), cfg), pkt, cfg, ReadBy(l), Size(l, pkt, cfg.pos), Widths(l))
  }

  lemma Ipv4Read(pkt: Packet, cfg: Config)
    requires cfg.regions == [] && cfg.pos <= |pkt| <= 0x8000_0000_0000_0000
    ensures IsRead(Ipv4, pkt, cfg)
  {
    hide HeaderIs, Header, Words, Starts, OptionsAt, Ipv4Fields, Ipv4Widths;
    Ipv4Shape();
    OptionStarts();
    WordsHeader(pkt, ReadBy(Ipv4), cfg, 1, 4, Widths(Ipv4));
  }

  lemma TcpRead(pkt: Packet, cfg: Config)
    requires cfg.regions == [] && cfg.pos <= |pkt| <= 0x8000_0000_0000_0000
    ensures IsRead(Tcp, pkt, cfg)
  {
    hide HeaderIs, Header, Words, Starts, OptionsAt, TcpFields, TcpWidths;
    TcpShape();
    OptionStarts();
    WordsHeader(pkt, ReadBy(Tcp), cfg, 4, 96, Widths(Tcp));
  }

  lemma LayerRead(l: Layer, pkt: Packet, cfg: Config)
    requires cfg.regions == [] && cfg.pos <= |pkt| <= 0x8000_0000_0000_0000
    ensures IsRead(l, pkt, cfg)
  {
    hide HeaderIs, Header, Whole, Words, Widths, ReadBy, Fields, Starts;
    if l == Ipv4 {
      Ipv4Read(pkt, cfg);
    } else if l == Tcp {
      TcpRead(pkt, cfg);
    } else {
      FixedLayers(l);
      FixedHeader(pkt, ReadBy(l), cfg, Widths(l));
    }
  }

  // ---- Choices ----

  lemma TypedChoice(k: u64)
    ensures Typed(k).Some? ==> Legal(Typed(k).value)
    ensures ExactArms(Payloads()) && Found(Payloads(), Cons(Value(k), Nil), ToAccept) == Aim(Typed(k))
  {
  }

  function One(k: u64): List<Entry> {
    Cons(Value(k), Nil)
  }

  lemma EthernetChoice(k: u64)
    ensures var arms := VlanTags(S_VLAN_Q1, Goes(0x88a8, S_VLAN_AD, Payloads()));
            ExactArms(arms) && Found(arms, One(k), ToAccept)
            == if IsTag(k) then ToState(S_VLAN_Q1)
               else if k == 0x88a8 then ToState(S_VLAN_AD) else Found(Payloads(), One(k), ToAccept)
  {
  }

  lemma VlanChoice(k: u64)
    ensures var arms := VlanTags(S_VLAN_Q2, Payloads());
            ExactArms(arms) && Found(arms, One(k), ToAccept)
            == if IsTag(k) then ToState(S_VLAN_Q2) else Found(Payloads(), One(k), ToAccept)
  {
  }

  lemma ServiceChoice(k: u64)
    ensures var arms := VlanTags(S_VLAN_Q2, Goes(0x88e7, S_PBB, Nil));
            ExactArms(arms) && Found(arms, One(k), ToAccept)
            == if IsTag(k) then ToState(S_VLAN_Q2) else if k == 0x88e7 then ToState(S_PBB) else ToAccept
  {
  }

  lemma Ipv4Exact()
    ensures ExactArms(Ipv4Arms())
  {
  }

  lemma Ipv4Choice(k: u64, n: u64)
    ensures (OverIpv4(n).Some? ==> Legal(OverIpv4(n).value))
    ensures Found(Ipv4Arms(), Cons(Value(k), One(n)), ToAccept) == if k == 0 then Aim(OverIpv4(n)) else ToAccept
  {
  }

  lemma Ipv6Choice(n: u64)
    ensures ExactArms(Ipv6Arms()) && (OverIpv6(n).Some? ==> Legal(OverIpv6(n).value))
    ensures Found(Ipv6Arms(), One(n), ToAccept) == Aim(OverIpv6(n))
  {
  }

  lemma AhChoice(n: u64)
    ensures ExactArms(AhArms()) && (OverAh(n).Some? ==> Legal(OverAh(n).value))
    ensures Found(AhArms(), One(n), ToAccept) == Aim(OverAh(n))
  {
  }

  /** A GRE with the key bit set. */
  lemma GreChoice(more: nat, k: u64, n: u64)
    requires more <= 2
    ensures var arms := Pair(1, 0x6558, S_NVGRE, if more > 0 then Pair(1, 0x6559, S_GRE3 - more + 1, Nil) else Nil);
            ExactArms(arms) && Found(arms, Cons(Value(k), One(n)), ToAccept)
            == if k == 1 && n == 0x6558 then ToState(S_NVGRE)
               else if k == 1 && n == 0x6559 && more > 0 then ToState(S_GRE3 - more + 1)
               else ToAccept
  {
    var last := Pair(1, 0x6559, S_GRE3 - more + 1, Nil);
    assert Found(Nil, Cons(Value(k), One(n)), ToAccept) == ToAccept;
    assert ExactArms(last) && ExactArms(Nil);
    assert Found(last, Cons(Value(k), One(n)), ToAccept) == if k == 1 && n == 0x6559 then ToState(S_GRE3 - more + 1) else ToAccept;
  }

  lemma MplsChoice(q: Name, k: u64)
    ensures var arms := Goes(0, q, Goes(1, S_MPLS_PAYLOAD, Nil));
            ExactArms(arms) && Found(arms, One(k), ToAccept)
            == if k == 0 then ToState(q) else if k == 1 then ToState(S_MPLS_PAYLOAD) else ToAccept
    ensures var arms := Goes(1, S_MPLS_PAYLOAD, Nil);
            ExactArms(arms) && Found(arms, One(k), ToAccept) == if k == 1 then ToState(S_MPLS_PAYLOAD) else ToAccept
  {
    assert ExactArms(Nil) && ExactEntries(Nil) && Found(Nil, One(k), ToAccept) == ToAccept;
  }

  lemma NibbleChoice(k: u64)
    ensures var arms := Goes(0, S_EOMPLS, Goes(4, S_IPV4, Goes(6, S_IPV6, Nil)));
            ExactArms(arms) && Found(arms, One(k), ToAccept)
            == if k == 0 then ToState(S_EOMPLS) else if k == 4 then ToState(S_IPV4)
               else if k == 6 then ToState(S_IPV6) else ToAccept
  {
  }

  lemma SingleChoice(v: nat, q: Name, k: u64)
    ensures ExactArms(Goes(v, q, Nil)) && Found(Goes(v, q, Nil), One(k), ToAccept) == if k == v then ToState(q) else ToAccept
  {
    assert ExactArms(Nil) && ExactEntries(Nil) && Found(Nil, One(k), ToAccept) == ToAccept;
  }

  // ---- Keys ----

  lemma LinkKeys()
    ensures KeyAt(EthernetFields(), 2, 96, 16) && KeyAt(TagFields(), 3, 16, 16)
    ensures KeyAt(MplsFields(), 2, 23, 1) && KeyAt(NibbleFields(), 0, 0, 4)
  {
  }

  lemma OtherKeys()
    ensures KeyAt(UdpFields(), 1, 16, 16) && KeyAt(AhFields(), 0, 0, 8) && KeyAt(ArpFields(), 1, 16, 16)
  {
  }

  lemma Ipv6Keys()
    ensures KeyAt(Ipv6Fields(), 4, 48, 8)
  {
  }

  lemma GreKeys()
    ensures KeyAt(GreFields(), 2, 2, 1) && KeyAt(GreFields(), 8, 16, 16)
  {
  }

  lemma Ipv4Keys()
    ensures KeyAt(Ipv4Fields(), 6, 51, 13) && KeyAt(Ipv4Fields(), 8, 72, 8)
  {
    Ipv4Shape();
    assert LeadsTo(Ipv4Rest(), 6) && LeadsTo(Ipv4Rest(), 8) && OffsetOf(Ipv4Rest(), 6) == 0 && OffsetOf(Ipv4Rest(), 8) == 21;
    assert FieldWidth(Ipv4Rest(), 6) == 13 && FieldWidth(Ipv4Rest(), 8) == 8;
    hide Ipv4Rest, DistinctNames, OptionsAt;
    assert DistinctNames(Ipv4Fields());
  }

  // ---- One layer ----

  /** The run goes where the walk does, once the layer's header is read. */
  ghost predicate Follows(l: Layer, pkt: Packet, cfg: Config)
    requires Legal(l)
  {
    var f := Header(pkt, ReadBy(l), cfg);
    f.Go? ==>
      && Size(l, pkt, cfg.pos).Some?
      && (Onward(l, pkt, cfg.pos).Some? ==> Legal(Onward(l, pkt, cfg.pos).value))
      && Decide(StateOf(StateFor(l)).transition, f.cfg) == To(Aim(Onward(l, pkt, cfg.pos)))
  }

  /** A layer that branches on the n bits at bit off. */
  lemma OneKey(l: Layer, pkt: Packet, cfg: Config, f: Name, off: nat, n: nat, arms: List<Arm>)
    requires Legal(l) && cfg.regions == [] && cfg.pos <= |pkt| <= 0x8000_0000_0000_0000
    requires StateOf(StateFor(l)).transition == On(Ref(Instance(l), f), arms, ToAccept)
    requires KeyAt(Layout(Instance(l)), f, off, n) && ExactArms(arms)
    ensures var r := Header(pkt, ReadBy(l), cfg);
            r.Go? ==>
              && Size(l, pkt, cfg.pos).Some? && cfg.pos + off + n <= |pkt| && Read(pkt, cfg.pos + off, n) < TWO64
              && Decide(StateOf(StateFor(l)).transition, r.cfg) == To(Found(arms, One(Read(pkt, cfg.pos + off, n)), ToAccept))
  {
    hide Header, KeyAt, Found, ExactArms, Read, Layout, Decide, On, Instance, StateFor, StateOf, Eval, Size, Widths;
    LayerRead(l, pkt, cfg);
    KeyRead(pkt, ReadBy(l), f, off, n, cfg);
    var r := Header(pkt, ReadBy(l), cfg);
    if r.Go? {
      DecideKey(Ref(Instance(l), f), arms, ToAccept, r.cfg, Read(pkt, cfg.pos + off, n));
    }
  }

  lemma TwoKeys(l: Layer, pkt: Packet, cfg: Config, f: Name, off: nat, n: nat, g: Name, off': nat, n': nat, arms: List<Arm>)
    requires Legal(l) && cfg.regions == [] && cfg.pos <= |pkt| <= 0x8000_0000_0000_0000
    requires StateOf(StateFor(l)).transition == DispatchTwo(Ref(Instance(l), f), Ref(Instance(l), g), arms)
    requires KeyAt(Layout(Instance(l)), f, off, n) && KeyAt(Layout(Instance(l)), g, off', n') && ExactArms(arms)
    ensures var r := Header(pkt, ReadBy(l), cfg);
            r.Go? ==>
              && Size(l, pkt, cfg.pos).Some?
              && cfg.pos + off + n <= |pkt| && Read(pkt, cfg.pos + off, n) < TWO64
              && cfg.pos + off' + n' <= |pkt| && Read(pkt, cfg.pos + off', n') < TWO64
              && Decide(StateOf(StateFor(l)).transition, r.cfg)
                 == To(Found(arms, Cons(Value(Read(pkt, cfg.pos + off, n)), One(Read(pkt, cfg.pos + off', n'))), ToAccept))
  {
    hide Header, KeyAt, Found, ExactArms, Read, Layout, Decide, Instance, StateFor, StateOf, Eval, Size, Widths;
    LayerRead(l, pkt, cfg);
    KeyRead(pkt, ReadBy(l), f, off, n, cfg);
    KeyRead(pkt, ReadBy(l), g, off', n', cfg);
    var r := Header(pkt, ReadBy(l), cfg);
    if r.Go? {
      DecideKeys(Ref(Instance(l), f), Ref(Instance(l), g), arms, ToAccept, r.cfg, Read(pkt, cfg.pos + off, n),
                 Read(pkt, cfg.pos + off', n'));
    }
  }

  predicate Keyless(l: Layer) {
    l in {Pbb, Eompls, Icmp, Icmpv6, Tcp, Vxlan, Sctp, Nvgre, Esp, ArpIpv4, InnerEthernet}
  }

  /** A layer after which one state follows, or none. */
  lemma Straight(l: Layer, pkt: Packet, pos: nat)
    requires Keyless(l)
    ensures StateOf(StateFor(l)).transition.Direct?
    ensures Size(l, pkt, pos).Some? ==>
              var o := Onward(l, pkt, pos);
              (o.Some? ==> Legal(o.value)) && StateOf(StateFor(l)).transition.next == Aim(o)
  {
    hide Layout, Read, Whole, Words, Fields;
  }

  lemma KeylessFollows(l: Layer, pkt: Packet, cfg: Config)
    requires cfg.regions == [] && cfg.pos <= |pkt| <= 0x8000_0000_0000_0000 && Keyless(l)
    ensures Follows(l, pkt, cfg)
  {
    Straight(l, pkt, cfg.pos);
    LayerRead(l, pkt, cfg);
    hide Header, Layout, StateOf, Size, Widths, Onward, StateFor, Keyless, ReadBy, Aim, Legal;
  }

  lemma BitBound(pkt: Packet, off: nat)
    requires off + 1 <= |pkt|
    ensures Read(pkt, off, 1) < 2
  {
    ReadBound(pkt, off, 1);
    Pow2Small();
  }

  lemma MplsState(more: nat)
    requires more <= 4
    ensures StateOf(StateFor(Mpls(more))).transition
         == On(Ref(MPLS, 2), if more > 0 then Goes(0, S_MPLS5 - more + 1, Goes(1, S_MPLS_PAYLOAD, Nil)) else Goes(1, S_MPLS_PAYLOAD, Nil), ToAccept)
  {
    hide Layout, On, Goes;
  }

  lemma LayoutsOf()
    ensures Layout(ETHERNET) == EthernetFields() && Layout(VLAN) == TagFields() && Layout(VLAN_AD) == TagFields()
    ensures Layout(MPLS) == MplsFields() && Layout(NIBBLE) == NibbleFields() && Layout(IPV4) == Ipv4Fields()
    ensures Layout(IPV6) == Ipv6Fields() && Layout(UDP) == UdpFields() && Layout(GRE) == GreFields()
    ensures Layout(AH) == AhFields() && Layout(ARP) == ArpFields()
  {
  }

  lemma EthernetFollows(pkt: Packet, cfg: Config)
    requires cfg.regions == [] && cfg.pos <= |pkt| <= 0x8000_0000_0000_0000
    ensures Follows(Ethernet, pkt, cfg)
  {
    hide Header, KeyAt, Found, ExactArms, Read, VlanTags, Payloads, Layout, Decide, Whole, Words, Goes, Pair, Ipv4Arms, Ipv6Arms, AhArms, Typed, On;
    LinkKeys();
    LayoutsOf();
    EthernetChoice(0);
    OneKey(Ethernet, pkt, cfg, 2, 96, 16, VlanTags(S_VLAN_Q1, Goes(0x88a8, S_VLAN_AD, Payloads())));
    if Header(pkt, ReadBy(Ethernet), cfg).Go? {
      EthernetChoice(Read(pkt, cfg.pos + 96, 16));
      TypedChoice(Read(pkt, cfg.pos + 96, 16));
    }
  }

  lemma VlanFollows(pkt: Packet, cfg: Config, tag: bool)
    requires cfg.regions == [] && cfg.pos <= |pkt| <= 0x8000_0000_0000_0000
    ensures Follows(Vlan(tag), pkt, cfg)
  {
    hide Header, KeyAt, Found, ExactArms, Read, VlanTags, Payloads, Layout, Decide, Whole, Words, Goes, Pair, Ipv4Arms, Ipv6Arms, AhArms, Typed, On;
    LinkKeys();
    LayoutsOf();
    VlanChoice(0);
    TypedChoice(0);
    OneKey(Vlan(tag), pkt, cfg, 3, 16, 16, if tag then VlanTags(S_VLAN_Q2, Payloads()) else Payloads());
    if Header(pkt, ReadBy(Vlan(tag)), cfg).Go? {
      VlanChoice(Read(pkt, cfg.pos + 16, 16));
      TypedChoice(Read(pkt, cfg.pos + 16, 16));
    }
  }

  lemma ServiceFollows(pkt: Packet, cfg: Config)
    requires cfg.regions == [] && cfg.pos <= |pkt| <= 0x8000_0000_0000_0000
    ensures Follows(ServiceVlan, pkt, cfg)
  {
    hide Header, KeyAt, Found, ExactArms, Read, VlanTags, Payloads, Layout, Decide, Whole, Words, Goes, Pair, Ipv4Arms, Ipv6Arms, AhArms, Typed, On;
    LinkKeys();
    LayoutsOf();
    ServiceChoice(0);
    OneKey(ServiceVlan, pkt, cfg, 3, 16, 16, VlanTags(S_VLAN_Q2, Goes(0x88e7, S_PBB, Nil)));
    if Header(pkt, ReadBy(ServiceVlan), cfg).Go? {
      ServiceChoice(Read(pkt, cfg.pos + 16, 16));
    }
  }

  lemma MplsFollows(pkt: Packet, cfg: Config, more: nat)
    requires cfg.regions == [] && cfg.pos <= |pkt| <= 0x8000_0000_0000_0000 && more <= 4
    ensures Follows(Mpls(more), pkt, cfg)
  {
    hide Header, KeyAt, Found, ExactArms, Read, VlanTags, Payloads, Layout, Decide, Whole, Words, Goes, Pair, Ipv4Arms, Ipv6Arms, AhArms, Typed, On;
    LinkKeys();
    LayoutsOf();
    MplsState(more);
    MplsChoice(S_MPLS5 - more + 1, 0);
    hide StateOf;
    var last := Goes(1, S_MPLS_PAYLOAD, Nil);
    OneKey(Mpls(more), pkt, cfg, 2, 23, 1, if more > 0 then Goes(0, S_MPLS5 - more + 1, last) else last);
    if Header(pkt, ReadBy(Mpls(more)), cfg).Go? {
      BitBound(pkt, cfg.pos + 23);
      MplsChoice(S_MPLS5 - more + 1, Read(pkt, cfg.pos + 23, 1));
    }
  }

  lemma PayloadFollows(pkt: Packet, cfg: Config)
    requires cfg.regions == [] && cfg.pos <= |pkt| <= 0x8000_0000_0000_0000
    ensures Follows(MplsPayload, pkt, cfg)
  {
    hide Header, KeyAt, Found, ExactArms, Read, VlanTags, Payloads, Layout, Decide, Whole, Words, Goes, Pair, Ipv4Arms, Ipv6Arms, AhArms, Typed, On;
    LinkKeys();
    LayoutsOf();
    NibbleChoice(0);
    OneKey(MplsPayload, pkt, cfg, 0, 0, 4, Goes(0, S_EOMPLS, Goes(4, S_IPV4, Goes(6, S_IPV6, Nil))));
    if Header(pkt, ReadBy(MplsPayload), cfg).Go? {
      NibbleChoice(Read(pkt, cfg.pos, 4));
    }
  }

  lemma Ipv4Follows(pkt: Packet, cfg: Config)
    requires cfg.regions == [] && cfg.pos <= |pkt| <= 0x8000_0000_0000_0000
    ensures Follows(Ipv4, pkt, cfg)
  {
    hide Header, KeyAt, Found, ExactArms, Read, VlanTags, Payloads, Layout, Decide, Whole, Words, Goes, Pair, Ipv4Arms, Ipv6Arms, AhArms, Typed, On;
    Ipv4Keys();
    LayoutsOf();
    Ipv4Exact();
    TwoKeys(Ipv4, pkt, cfg, 6, 51, 13, 8, 72, 8, Ipv4Arms());
    if Header(pkt, ReadBy(Ipv4), cfg).Go? {
      Ipv4Choice(Read(pkt, cfg.pos + 51, 13), Read(pkt, cfg.pos + 72, 8));
    }
  }

  lemma Ipv6Follows(pkt: Packet, cfg: Config)
    requires cfg.regions == [] && cfg.pos <= |pkt| <= 0x8000_0000_0000_0000
    ensures Follows(Ipv6, pkt, cfg)
  {
    hide Header, KeyAt, Found, ExactArms, Read, VlanTags, Payloads, Layout, Decide, Whole, Words, Goes, Pair, Ipv4Arms, Ipv6Arms, AhArms, Typed, On;
    Ipv6Keys();
    LayoutsOf();
    Ipv6Choice(0);
    OneKey(Ipv6, pkt, cfg, 4, 48, 8, Ipv6Arms());
    if Header(pkt, ReadBy(Ipv6), cfg).Go? {
      Ipv6Choice(Read(pkt, cfg.pos + 48, 8));
    }
  }

  lemma AhFollows(pkt: Packet, cfg: Config)
    requires cfg.regions == [] && cfg.pos <= |pkt| <= 0x8000_0000_0000_0000
    ensures Follows(Ah, pkt, cfg)
  {
    hide Header, KeyAt, Found, ExactArms, Read, VlanTags, Payloads, Layout, Decide, Whole, Words, Goes, Pair, Ipv4Arms, Ipv6Arms, AhArms, Typed, On;
    OtherKeys();
    LayoutsOf();
    AhChoice(0);
    OneKey(Ah, pkt, cfg, 0, 0, 8, AhArms());
    if Header(pkt, ReadBy(Ah), cfg).Go? {
      AhChoice(Read(pkt, cfg.pos, 8));
    }
  }

  lemma UdpFollows(pkt: Packet, cfg: Config)
    requires cfg.regions == [] && cfg.pos <= |pkt| <= 0x8000_0000_0000_0000
    ensures Follows(Udp, pkt, cfg)
  {
    hide Header, KeyAt, Found, ExactArms, Read, VlanTags, Payloads, Layout, Decide, Whole, Words, Goes, Pair, Ipv4Arms, Ipv6Arms, AhArms, Typed, On;
    OtherKeys();
    LayoutsOf();
    SingleChoice(65535, S_VXLAN, 0);
    OneKey(Udp, pkt, cfg, 1, 16, 16, Goes(65535, S_VXLAN, Nil));
    if Header(pkt, ReadBy(Udp), cfg).Go? {
      SingleChoice(65535, S_VXLAN, Read(pkt, cfg.pos + 16, 16));
    }
  }

  lemma ArpFollows(pkt: Packet, cfg: Config)
    requires cfg.regions == [] && cfg.pos <= |pkt| <= 0x8000_0000_0000_0000
    ensures Follows(Arp, pkt, cfg)
  {
    hide Header, KeyAt, Found, ExactArms, Read, VlanTags, Payloads, Layout, Decide, Whole, Words, Goes, Pair, Ipv4Arms, Ipv6Arms, AhArms, Typed, On;
    OtherKeys();
    LayoutsOf();
    SingleChoice(0x0800, S_ARP_IPV4, 0);
    OneKey(Arp, pkt, cfg, 1, 16, 16, Goes(0x0800, S_ARP_IPV4, Nil));
    if Header(pkt, ReadBy(Arp), cfg).Go? {
      SingleChoice(0x0800, S_ARP_IPV4, Read(pkt, cfg.pos + 16, 16));
    }
  }

  lemma GreFollows(pkt: Packet, cfg: Config, more: nat)
    requires cfg.regions == [] && cfg.pos <= |pkt| <= 0x8000_0000_0000_0000 && more <= 2
    ensures Follows(Gre(more), pkt, cfg)
  {
    hide Header, KeyAt, Found, ExactArms, Read, VlanTags, Payloads, Layout, Decide, Whole, Words, Goes, Pair, Ipv4Arms, Ipv6Arms, AhArms, Typed, On;
    GreKeys();
    LayoutsOf();
    GreChoice(more, 0, 0);
    TwoKeys(Gre(more), pkt, cfg, 2, 2, 1, 8, 16, 16,
            Pair(1, 0x6558, S_NVGRE, if more > 0 then Pair(1, 0x6559, S_GRE3 - more + 1, Nil) else Nil));
    if Header(pkt, ReadBy(Gre(more)), cfg).Go? {
      GreChoice(more, Read(pkt, cfg.pos + 2, 1), Read(pkt, cfg.pos + 16, 16));
    }
  }

  lemma LayerFollows(l: Layer, pkt: Packet, cfg: Config)
    requires Legal(l) && cfg.regions == [] && cfg.pos <= |pkt| <= 0x8000_0000_0000_0000
    ensures Follows(l, pkt, cfg)
  {
    hide Follows;
    match l
    case Ethernet => EthernetFollows(pkt, cfg);
    case Vlan(tag) => VlanFollows(pkt, cfg, tag);
    case ServiceVlan => ServiceFollows(pkt, cfg);
    case Mpls(more) => MplsFollows(pkt, cfg, more);
    case MplsPayload => PayloadFollows(pkt, cfg);
    case Ipv4 => Ipv4Follows(pkt, cfg);
    case Ipv6 => Ipv6Follows(pkt, cfg);
    case Ah => AhFollows(pkt, cfg);
    case Udp => UdpFollows(pkt, cfg);
    case Arp => ArpFollows(pkt, cfg);
    case Gre(more) => GreFollows(pkt, cfg, more);
    case _ => KeylessFollows(l, pkt, cfg);
  }

  // ---- The run is the walk ----

  lemma AfterInside(l: Layer, pkt: Packet, pos: nat)
    requires Size(l, pkt, pos).Some? && pos <= |pkt|
    ensures After(l, pos, Size(l, pkt, pos).value) <= |pkt|
  {
    hide Read;
  }

  lemma StepWalks(p: Program, pkt: Packet, rule: PopRule, l: Layer, cfg: Config)
    requires p == Description(p.maxDepth) && Legal(l)
    requires cfg.regions == [] && cfg.pos <= |pkt| <= 0x8000_0000_0000_0000
    ensures var r, size := Step(p, pkt, rule, StateFor(l), cfg), Size(l, pkt, cfg.pos);
            var visits := VisitsOf(cfg.headers) + [Visit(Instance(l), cfg.pos)];
            if size.None? then
              r.Done? && TraceOf(r.result)
              == Trace(Rejected(OutOfBounds), After(l, cfg.pos, Cut(Widths(l), |pkt| - cfg.pos)), visits)
            else
              var o, after := Onward(l, pkt, cfg.pos), After(l, cfg.pos, size.value);
              if o.None? then r.Done? && TraceOf(r.result) == Trace(Accepted, after, visits)
              else
                && Legal(o.value) && r.Next? && r.state == StateFor(o.value)
                && r.cfg.pos == after && r.cfg.regions == [] && VisitsOf(r.cfg.headers) == visits
  {
    hide Header, Layout, StateOf, Step, Size, Widths, Onward, StateFor, Legal, ReadsOwn, Description, Decide, VisitsOf, Cut;
    StateReads(l);
    LayerRead(l, pkt, cfg);
    LayerFollows(l, pkt, cfg);
    StateBound(l);
    StepReads(p, pkt, rule, StateFor(l), cfg);
  }

  lemma StateBound(l: Layer)
    requires Legal(l)
    ensures StateFor(l) < 29 && (StateFor(l) == S_MPLS_PAYLOAD <==> l == MplsPayload)
  {
  }

  lemma {:induction false} RunWalks(p: Program, pkt: Packet, rule: PopRule, l: Layer, cfg: Config, budget: nat)
    requires p == Description(p.maxDepth) && Legal(l)
    requires cfg.regions == [] && cfg.pos <= |pkt| <= 0x8000_0000_0000_0000
    ensures TraceOf(RunFrom(p, pkt, rule, StateFor(l), cfg, budget)) == Walk(l, pkt, cfg.pos, VisitsOf(cfg.headers), budget)
    decreases budget
  {
    hide Step, StateOf, Size, Widths, Onward, StateFor, Legal, Description, VisitsOf, Cut, Instance, RunFrom;
    StateBound(l);
    DescribesItself(p.maxDepth);
    Enters(p, pkt, rule, StateFor(l), cfg, budget);
    if budget > 0 {
      StepWalks(p, pkt, rule, l, cfg);
      if Size(l, pkt, cfg.pos).Some? {
        AfterInside(l, pkt, cfg.pos);
        var r := Step(p, pkt, rule, StateFor(l), cfg);
        if r.Next? {
          RunWalks(p, pkt, rule, Onward(l, pkt, cfg.pos).value, r.cfg, budget - 1);
        }
      }
    }
  }

  /** For every packet and budget, the run of the description ends as the walk does, consumes the
      same bits and reports the same headers at the same bits. */
  lemma ParseIsWalk(pkt: Packet, rule: PopRule, depth: nat)
    requires |pkt| <= 0x8000_0000_0000_0000
    ensures TraceOf(Parse(Description(depth), pkt, rule)) == Walk(Ethernet, pkt, 0, [], depth)
  {
    hide RunFrom, Walk, StateOf;
    RunWalks(Description(depth), pkt, rule, Ethernet, Initial(Description(depth)), depth);
    assert VisitsOf([]) == [];
  }

  // ---- Exactly which packets are accepted ----

  /** Layers that can follow, at most. */
  function Left(l: Layer): nat {
    match l
    case Ethernet => 15
    case Vlan(tag) => if tag then 14 else 13
    case ServiceVlan => 14
    case Mpls(more) => 8 + more
    case MplsPayload => 7
    case Ipv4 => 6
    case Ipv6 => 6
    case Ah => 5
    case Gre(more) => 2 + more
    case Udp => 2
    case Pbb => 1
    case Eompls => 1
    case Vxlan => 1
    case Nvgre => 1
    case Arp => 1
    case _ => 0
  }

  lemma OnwardFalls(l: Layer, pkt: Packet, pos: nat)
    requires Size(l, pkt, pos).Some? && Onward(l, pkt, pos).Some?
    ensures Left(Onward(l, pkt, pos).value) < Left(l)
  {
    hide Read;
  }

  /** The packet holds the layer at pos whole, and every layer that it leads to. */
  predicate Complete(l: Layer, pkt: Packet, pos: nat)
    decreases Left(l)
  {
    var size := Size(l, pkt, pos);
    size.Some? &&
    match Onward(l, pkt, pos)
    case None => true
    case Some(next) =>
      OnwardFalls(l, pkt, pos);
      Complete(next, pkt, After(l, pos, size.value))
  }

  lemma {:induction false} WalkCompletes(l: Layer, pkt: Packet, pos: nat, seen: seq<Visit>, budget: nat)
    requires pos <= |pkt| && Left(l) < budget
    ensures Walk(l, pkt, pos, seen, budget).outcome == if Complete(l, pkt, pos) then Accepted else Rejected(OutOfBounds)
    decreases budget
  {
    hide Size, Onward, Left, Cut, Widths, Instance;
    var size := Size(l, pkt, pos);
    if size.Some? && Onward(l, pkt, pos).Some? {
      OnwardFalls(l, pkt, pos);
      AfterInside(l, pkt, pos);
      WalkCompletes(Onward(l, pkt, pos).value, pkt, After(l, pos, size.value), seen + [Visit(Instance(l), pos)], budget - 1);
    }
  }

  /** With 16 states to enter, a packet is accepted exactly when it holds every header it leads
      to whole, option words included; otherwise it is rejected out of bounds. */
  lemma AcceptsWholeHeaders(pkt: Packet, rule: PopRule, depth: nat)
    requires depth >= 16 && |pkt| <= 0x8000_0000_0000_0000
    ensures Parse(Description(depth), pkt, rule).outcome
         == if Complete(Ethernet, pkt, 0) then Accepted else Rejected(OutOfBounds)
  {
    hide Parse, Complete, Walk;
    ParseIsWalk(pkt, rule, depth);
    WalkCompletes(Ethernet, pkt, 0, [], depth);
  }

  // ---- The generated parser ----

  /** The generated C ends as the walk does, consumes its bits and marks present exactly the headers
      it meets; from 16 states on it accepts exactly the packets that hold every header they lead
      to, and reports "out of bounds" on the others. */
  method GeneratedParse(buf: seq<byte>, bitLen: u64, mask: Option<nat>, depth: nat) returns (core: Core)
    requires bitLen <= 8 * |buf| && bitLen <= 0x8000_0000_0000_0000 && InContract(bitLen, mask)
    ensures Shows(core, Walk(Ethernet, PacketOf(buf, bitLen), 0, [], depth))
    ensures depth >= 16 ==> (core.outcome == 0 <==> Complete(Ethernet, PacketOf(buf, bitLen), 0))
    ensures depth >= 16 && core.outcome != 0 ==> core.reason == Some(OutOfBounds)
  {
    hide Parse, Description, Generator.Valid, Walk, Complete, Shows, PresentOf, VisitsOf;
    var p, pkt := Description(depth), PacketOf(buf, bitLen);
    DescriptionIsValid(depth);
    ValidNeverFaults(p, pkt, AlwaysStructural);
    core := ParseBuffer(p, buf, bitLen, mask);
    ParseIsWalk(pkt, AlwaysStructural, depth);
    ReturnedShows(core, Parse(p, pkt, AlwaysStructural));
    if depth >= 16 {
      AcceptsWholeHeaders(pkt, AlwaysStructural, depth);
    }
  }
}
