/** What tls_clienthello makes of any bytes: a scan with every reason it can refuse for, and the
    proof that the run is that scan. */
module TlsWalk {
  import opened Bits
  import opened Ir
  import opened Semantics
  import opened Steps
  import opened WholeBytes
  import opened Walks
  import opened TlsClienthello

  // ---- The scan ----

  /** What is read next; n is a length, major a version, that was read before. */
  datatype Layer =
    | Record
    | Version(major: nat)
    | Handshake
    | Opening
    | SessionLength
    | Session(n: nat)
    | CiphersLength
    | Parity(n: nat)
    | Ciphers(n: nat)
    | CompressionsLength
    | Compressions(n: nat)
    | Tail
    | BlockLength
    | Loop
    | Extension
    | Skipped(n: nat)
    | ServerName(n: nat)
    | NameList
    | NameEntry
    | Host(n: nat)
    | Ended
    | EndedEarly

  datatype Move =
    | Onto(layer: Layer, at: nat, ends: seq<nat>, seen: nat)
    | Refuse(reason: Reason, at: nat)
    | Finish(at: nat)

  /** Regions open at a layer. */
  function Depth(l: Layer): nat {
    match l
    case Record => 0
    case Version(_) => 1
    case Handshake => 1
    case Loop => 3
    case Extension => 3
    case Skipped(_) => 3
    case ServerName(_) => 3
    case Ended => 3
    case NameList => 4
    case NameEntry => 5
    case Host(_) => 5
    case _ => 2
  }

  /** The first of some fields of ws bytes that does not fit: the region is checked first. */
  function Short(s: seq<byte>, ends: seq<nat>, i: nat, ws: List<nat>): (r: Option<Move>)
    ensures r.Some? ==> r.value.Refuse?
    decreases ws
  {
    match ws
    case Nil => None
    case Cons(w, more) =>
      if ends != [] && i + w > ends[|ends| - 1] then Some(Refuse(OutOfRegionBounds, i))
      else if i + w > |s| then Some(Refuse(OutOfBounds, i))
      else Short(s, ends, i + w, more)
  }

  /** Opens a region of n bytes, which may not cross the enclosing one. */
  function Open(l: Layer, i: nat, ends: seq<nat>, n: nat, seen: nat): Move {
    if ends != [] && i + n > ends[|ends| - 1] then Refuse(RegionOutOfBounds, i) else Onto(l, i, ends + [i + n], seen)
  }

  /** A region with end past byte i is left: it may end past the packet. */
  function Leaves(pkt: Packet, rule: PopRule, end: nat, i: nat): Move {
    Refuse(if rule == ByInput && 8 * end > |pkt| then OutOfBounds else RegionNotExhausted, i)
  }

  /** A run of n bytes. */
  function Pass(s: seq<byte>, ends: seq<nat>, i: nat, n: nat, next: Layer, seen: nat): Move {
    var short := Short(s, ends, i, W(n, Nil));
    if short.Some? then short.value else Onto(next, i + n, ends, seen)
  }

  function FromRecord(s: seq<byte>, i: nat, seen: nat): Move {
    var short := Short(s, [], i, W(1, W(1, W(1, W(2, Nil)))));
    if short.Some? then short.value
    else if U8(s, i) != 0x16 then Refuse(Authored(4), i + 5)
    else Open(Version(U8(s, i + 1)), i + 5, [], U16(s, i + 3), seen)
  }

  function FromHandshake(s: seq<byte>, i: nat, ends: seq<nat>, seen: nat): Move {
    var short := Short(s, ends, i, W(1, W(3, Nil)));
    if short.Some? then short.value
    else
      var m := Open(Opening, i + 4, ends, U24(s, i + 1), seen);
      if m.Onto? && U8(s, i) != 1 then Refuse(Authored(3), i + 4) else m
  }

  /** A block of a two-byte length opens a region. */
  function FromBlock(s: seq<byte>, i: nat, ends: seq<nat>, next: Layer, seen: nat): Move {
    var short := Short(s, ends, i, W(2, Nil));
    if short.Some? then short.value else Open(next, i + 2, ends, U16(s, i), seen)
  }

  function FromExtension(s: seq<byte>, i: nat, ends: seq<nat>, seen: nat): Move {
    var short := Short(s, ends, i, W(2, W(2, Nil)));
    if short.Some? then short.value
    else if U16(s, i) != 0 then Onto(Skipped(U16(s, i + 2)), i + 4, ends, seen)
    else if seen == 1 then Refuse(Authored(0), i + 4)
    else Onto(ServerName(U16(s, i + 2)), i + 4, ends, seen)
  }

  function FromName(s: seq<byte>, i: nat, ends: seq<nat>, seen: nat): Move {
    var short := Short(s, ends, i, W(1, W(2, Nil)));
    if short.Some? then short.value
    else if U8(s, i) != 0 then Refuse(Authored(10), i + 3)
    else Onto(Host(U16(s, i + 1)), i + 3, ends, seen)
  }

  /** Authored reasons: 0 "duplicate sni", 1 "empty cipher suites", 2 "empty compressions", 3 "not a
      client hello", 4 "not a handshake record", 5 "odd cipher suites length", 6 "partial extension
      header", 7 "partial extensions length", 8 "session id too long", 9 "unsupported record
      version", 10 "unsupported sni name type". */
  function Next(l: Layer, pkt: Packet, s: seq<byte>, rule: PopRule, i: nat, ends: seq<nat>, seen: nat): Move
    requires |ends| == Depth(l) && (ends != [] ==> i <= ends[|ends| - 1])
  {
    match l
    case Record => FromRecord(s, i, seen)
    case Version(major) => if major == 3 then Onto(Handshake, i, ends, seen) else Refuse(Authored(9), i)
    case Handshake => FromHandshake(s, i, ends, seen)
    case Opening =>
      var short := Short(s, ends, i, W(2, W(32, Nil)));
      if short.Some? then short.value else Onto(SessionLength, i + 34, ends, seen)
    case SessionLength =>
      var short := Short(s, ends, i, W(1, Nil));
      if short.Some? then short.value
      else if U8(s, i) > 32 then Refuse(Authored(8), i + 1)
      else Onto(Session(U8(s, i)), i + 1, ends, seen)
    case Session(n) => Pass(s, ends, i, n, CiphersLength, seen)
    case CiphersLength =>
      var short := Short(s, ends, i, W(2, Nil));
      if short.Some? then short.value
      else if U16(s, i) == 0 then Refuse(Authored(1), i + 2)
      else Onto(Parity(U16(s, i)), i + 2, ends, seen)
    case Parity(n) => if n % 2 == 1 then Refuse(Authored(5), i) else Onto(Ciphers(n), i, ends, seen)
    case Ciphers(n) => Pass(s, ends, i, n, CompressionsLength, seen)
    case CompressionsLength =>
      var short := Short(s, ends, i, W(1, Nil));
      if short.Some? then short.value
      else if U8(s, i) == 0 then Refuse(Authored(2), i + 1)
      else Onto(Compressions(U8(s, i)), i + 1, ends, seen)
    case Compressions(n) => Pass(s, ends, i, n, Tail, seen)
    case Tail =>
      if ends[1] == i then Onto(EndedEarly, i, ends, seen)
      else if ends[1] - i == 1 then Refuse(Authored(7), i)
      else Onto(BlockLength, i, ends, seen)
    case BlockLength => FromBlock(s, i, ends, Loop, seen)
    case Loop =>
      if ends[2] == i then Onto(Ended, i, ends, seen)
      else if ends[2] - i <= 3 then Refuse(Authored(6), i)
      else Onto(Extension, i, ends, seen)
    case Extension => FromExtension(s, i, ends, seen)
    case Skipped(n) => Pass(s, ends, i, n, Loop, seen)
    case ServerName(n) => Open(NameList, i, ends, n, 1)
    case NameList => FromBlock(s, i, ends, NameEntry, seen)
    case NameEntry => FromName(s, i, ends, seen)
    case Host(n) =>
      var short := Short(s, ends, i, W(n, Nil));
      if short.Some? then short.value
      else if ends[4] != i + n then Leaves(pkt, rule, ends[4], i + n)
      else if ends[3] != i + n then Leaves(pkt, rule, ends[3], i + n)
      else Onto(Loop, i + n, ends[..3], seen)
    case Ended =>
      if ends[2] != i then Leaves(pkt, rule, ends[2], i)
      else if ends[1] != i then Leaves(pkt, rule, ends[1], i)
      else if ends[0] != i then Leaves(pkt, rule, ends[0], i)
      else Finish(i)
    case EndedEarly =>
      if ends[1] != i then Leaves(pkt, rule, ends[1], i)
      else if ends[0] != i then Leaves(pkt, rule, ends[0], i)
      else Finish(i)
  }

  predicate Falling(ends: seq<nat>) {
    forall k | 0 < k < |ends| :: ends[k] <= ends[k - 1]
  }

  /** Regions nest around byte i. */
  predicate Around(l: Layer, i: nat, ends: seq<nat>) {
    |ends| == Depth(l) && (ends != [] ==> i <= ends[|ends| - 1]) && Falling(ends)
  }

  lemma OpenAround(l: Layer, i: nat, ends: seq<nat>, n: nat, seen: nat)
    requires Falling(ends) && |ends| + 1 == Depth(l)
    ensures var m := Open(l, i, ends, n, seen); m.Onto? ==> Around(m.layer, m.at, m.ends)
  {
  }

  lemma ShortFits(s: seq<byte>, ends: seq<nat>, i: nat, a: nat, b: nat)
    ensures Short(s, ends, i, W(a, Nil)).None? ==> i + a <= |s| && (ends != [] ==> i + a <= ends[|ends| - 1])
    ensures Short(s, ends, i, W(a, W(b, Nil))).None? ==> i + a + b <= |s| && (ends != [] ==> i + a + b <= ends[|ends| - 1])
  {
    assert Short(s, ends, i + a, Nil).None? && Short(s, ends, i + a + b, Nil).None?;
    assert Short(s, ends, i + a, W(b, Nil)).None? ==> i + a + b <= |s|;
  }

  lemma RecordAround(s: seq<byte>, i: nat, seen: nat)
    ensures var m := FromRecord(s, i, seen); m.Onto? ==> Around(m.layer, m.at, m.ends)
  {
  }

  lemma FrontAround(l: Layer, pkt: Packet, s: seq<byte>, rule: PopRule, i: nat, ends: seq<nat>, seen: nat)
    requires Around(l, i, ends) && Depth(l) <= 2
    ensures var m := Next(l, pkt, s, rule, i, ends, seen); m.Onto? ==> Around(m.layer, m.at, m.ends)
  {
    hide Open, Falling, Short, FromRecord, U8, U16, U24;
    RecordAround(s, i, seen);
    ShortFits(s, ends, i, 1, 3);
    ShortFits(s, ends, i, 2, 32);
    match l {
      case Handshake =>
        if |s| >= i + 4 {
          OpenAround(Opening, i + 4, ends, U24(s, i + 1), seen);
        }
      case BlockLength =>
        if |s| >= i + 2 {
          OpenAround(Loop, i + 2, ends, U16(s, i), seen);
        }
      case Session(n) => ShortFits(s, ends, i, n, 0);
      case Ciphers(n) => ShortFits(s, ends, i, n, 0);
      case Compressions(n) => ShortFits(s, ends, i, n, 0);
      case _ =>
    }
  }

  lemma HostAround(pkt: Packet, s: seq<byte>, rule: PopRule, i: nat, ends: seq<nat>, n: nat, seen: nat)
    requires Around(Host(n), i, ends)
    ensures var m := Next(Host(n), pkt, s, rule, i, ends, seen); m.Onto? ==> Around(m.layer, m.at, m.ends)
  {
    hide Short;
    var front := ends[..3];
    forall k | 0 < k < 3
      ensures front[k] <= front[k - 1]
    {
    }
  }

  lemma BackAround(l: Layer, pkt: Packet, s: seq<byte>, rule: PopRule, i: nat, ends: seq<nat>, seen: nat)
    requires Around(l, i, ends) && Depth(l) >= 3
    ensures var m := Next(l, pkt, s, rule, i, ends, seen); m.Onto? ==> Around(m.layer, m.at, m.ends)
  {
    hide Open, Falling, Short;
    ShortFits(s, ends, i, 1, 2);
    ShortFits(s, ends, i, 2, 2);
    match l {
      case ServerName(n) => OpenAround(NameList, i, ends, n, 1);
      case NameList =>
        if |s| >= i + 2 {
          OpenAround(NameEntry, i + 2, ends, U16(s, i), seen);
        }
      case Skipped(n) => ShortFits(s, ends, i, n, 0);
      case Host(n) => HostAround(pkt, s, rule, i, ends, n, seen);
      case _ =>
    }
  }

  /** Moves keep regions nested. */
  lemma MoveAround(l: Layer, pkt: Packet, s: seq<byte>, rule: PopRule, i: nat, ends: seq<nat>, seen: nat)
    requires Around(l, i, ends)
    ensures var m := Next(l, pkt, s, rule, i, ends, seen); m.Onto? ==> Around(m.layer, m.at, m.ends)
  {
    hide Next, Around;
    if Depth(l) <= 2 {
      FrontAround(l, pkt, s, rule, i, ends, seen);
    } else {
      BackAround(l, pkt, s, rule, i, ends, seen);
    }
  }

  /** How a scan ends and the bits it consumed. */
  datatype Ending = Ending(outcome: Outcome, consumed: nat)

  /** At most b layers from byte i on. */
  function Scan(l: Layer, pkt: Packet, s: seq<byte>, rule: PopRule, i: nat, ends: seq<nat>, seen: nat, b: nat): Ending
    requires Around(l, i, ends)
    decreases b
  {
    if b == 0 then Ending(Rejected(MaxDepthExceeded), 8 * i)
    else
      MoveAround(l, pkt, s, rule, i, ends, seen);
      match Next(l, pkt, s, rule, i, ends, seen)
      case Refuse(reason, at) => Ending(Rejected(reason), 8 * at)
      case Finish(at) => Ending(Accepted, 8 * at)
      case Onto(next, at, inner, after) => Scan(next, pkt, s, rule, at, inner, after, b - 1)
  }

  // ---- States ----

  function StateFor(l: Layer): (q: Name)
    ensures q < 22
  {
    match l
    case Record => S_RECORD
    case Version(_) => S_RECVER
    case Handshake => S_HS
    case Opening => S_FIXED
    case SessionLength => S_SID_LEN
    case Session(_) => S_SID
    case CiphersLength => S_CS_LEN
    case Parity(_) => S_CS_PARITY
    case Ciphers(_) => S_CS
    case CompressionsLength => S_COMP_LEN
    case Compressions(_) => S_COMP
    case Tail => S_EXT_CHECK
    case BlockLength => S_EXT_LEN
    case Loop => S_TLV
    case Extension => S_EXT
    case Skipped(_) => S_SKIP
    case ServerName(_) => S_SNI
    case NameList => S_SNI_LIST
    case NameEntry => S_SNI_ENTRY
    case Host(_) => S_HOST
    case Ended => S_DONE
    case EndedEarly => S_DONE_NOEXT
  }

  /** The lengths a layer goes by are in the slots and the register its state reads. */
  ghost predicate Knows(l: Layer, c: Config, i: nat) {
    match l
    case Record => i == 0
    case Version(major) => i == 5 && Has(c.env, RECORD, 1, major)
    case Handshake => i == 5
    case Session(n) => n < 0x1_0000 && Has(c.env, SID_LEN, 0, n)
    case Parity(n) => n < 0x1_0000 && Has(c.env, CS_LEN, 0, n) && CS_ODD in c.meta && c.meta[CS_ODD] == n % 2
    case Ciphers(n) => n < 0x1_0000 && Has(c.env, CS_LEN, 0, n)
    case Compressions(n) => n < 0x1_0000 && Has(c.env, COMP_LEN, 0, n)
    case Skipped(n) => n < 0x1_0000 && Has(c.env, EXT, 1, n)
    case ServerName(n) => n < 0x1_0000 && Has(c.env, EXT, 1, n)
    case Host(n) => n < 0x1_0000 && Has(c.env, SNI_ENTRY, 1, n)
    case _ => true
  }

  predicate Small(ends: seq<nat>) {
    forall k | 0 <= k < |ends| :: ends[k] < 0x2_0000
  }

  ghost predicate Ready(p: Program, pkt: Packet, s: seq<byte>, l: Layer, c: Config, i: nat, ends: seq<nat>, seen: nat) {
    && Describes(p) && Holds(pkt, s) && At(pkt, c, i, ends) && SeenIs(c, seen) && seen <= 1
    && Around(l, i, ends) && Small(ends) && Knows(l, c, i)
  }

  /** One state entry is one move. */
  ghost predicate Moves(p: Program, pkt: Packet, s: seq<byte>, rule: PopRule, l: Layer, c: Config, i: nat, ends: seq<nat>, seen: nat)
    requires |p.states| == 22 && Around(l, i, ends)
  {
    var r := Step(p, pkt, rule, StateFor(l), c);
    match Next(l, pkt, s, rule, i, ends, seen)
    case Refuse(reason, at) => RejectsAt(r, reason, at)
    case Finish(at) => r.Done? && r.result.outcome == Accepted && r.result.consumed == 8 * at
    case Onto(next, at, inner, after) =>
      r.Next? && r.state == StateFor(next) && At(pkt, r.cfg, at, inner) && SeenIs(r.cfg, after) && after <= 1
      && Small(inner) && Knows(next, r.cfg, at)
  }

  lemma StateIs(p: Program, l: Layer)
    requires Describes(p)
    ensures p.states[StateFor(l)] == StateOf(StateFor(l))
    ensures StateOf(S_RECORD) == RecordState(S_RECVER) && StateOf(S_EXT) == ExtState(S_SNI, S_SKIP)
    ensures StateOf(S_SNI_ENTRY) == SniEntryState(S_HOST) && StateOf(S_HOST) == HostState(S_TLV)
    ensures StateOf(S_EXT_LEN) == BlockState(EXT_LEN, S_TLV) && StateOf(S_SNI_LIST) == BlockState(SNI_LIST, S_SNI_ENTRY)
    ensures StateOf(S_SNI) == SniState(S_SNI_LIST)
  {
    StateAt(p, StateFor(l), 22);
    hide RecordState, ExtState, SniEntryState, HostState, BlockState, SniState, RecverState, HsState, FixedState, SidLenState;
    hide CsLenState, CsParityState, CompLenState, ExtCheckState, TlvState, ClosingState, RunState;
  }

  lemma PassedState(l: Layer)
    requires l.Session? || l.Ciphers? || l.Compressions? || l.Skipped?
    ensures var r := PassOf(l); StateOf(StateFor(l)) == RunState(r.inst, Ref(r.from, r.f), r.next)
  {
  }

  /** One field fits, or is short. */
  lemma ShortOne(s: seq<byte>, ends: seq<nat>, i: nat, n: nat)
    ensures Short(s, ends, i, W(n, Nil)) == if Room(s, ends, i + n) then None else Some(Refuse(Shortage(ends, i + n), i))
  {
    assert Short(s, ends, i + n, Nil).None?;
  }

  lemma ShortTwo(s: seq<byte>, ends: seq<nat>, i: nat, m: nat, n: nat)
    ensures Short(s, ends, i, W(m, W(n, Nil)))
         == if !Room(s, ends, i + m) then Some(Refuse(Shortage(ends, i + m), i))
            else if !Room(s, ends, i + m + n) then Some(Refuse(Shortage(ends, i + m + n), i + m))
            else None
  {
    ShortOne(s, ends, i + m, n);
  }

  lemma SmallPush(ends: seq<nat>, e: nat)
    requires Small(ends) && if ends == [] then e < 0x2_0000 else e <= ends[|ends| - 1]
    ensures Small(ends + [e])
  {
  }

  lemma RecordShort(s: seq<byte>)
    ensures Short(s, [], 0, W(1, W(1, W(1, W(2, Nil)))))
         == if |s| < 5 then Some(Refuse(OutOfBounds, if |s| < 3 then |s| else 3)) else None
  {
    ShortOne(s, [], 3, 2);
  }

  lemma RecordMoves(p: Program, pkt: Packet, s: seq<byte>, rule: PopRule, c: Config, seen: nat)
    requires Ready(p, pkt, s, Record, c, 0, [], seen) && seen == 0
    ensures Moves(p, pkt, s, rule, Record, c, 0, [], seen)
  {
    hide StateOf, RecordState, Step, Holds, At, StatesBelow, U8, U16, Small, Falling, Short, Open, RejectsAt;
    StateIs(p, Record);
    RecordShort(s);
    NoRegions(pkt, c, 0);
    var d := RecordStep(p, pkt, s, rule, S_RECORD, S_RECVER, c);
    if |s| >= 5 {
      SmallPush([], 5 + U16(s, 3));
      OpenFirst(Version(U8(s, 1)), U16(s, 3), seen);
    }
  }

  lemma OpenFirst(l: Layer, n: nat, seen: nat)
    ensures Open(l, 5, [], n, seen) == Onto(l, 5, [5 + n], seen) && [] + [5 + n] == [5 + n]
  {
  }

  lemma VersionMoves(p: Program, pkt: Packet, s: seq<byte>, rule: PopRule, l: Layer, c: Config, i: nat, ends: seq<nat>, seen: nat)
    requires Ready(p, pkt, s, l, c, i, ends, seen) && l.Version?
    ensures Moves(p, pkt, s, rule, l, c, i, ends, seen)
  {
    hide Step, Holds, StatesBelow, Small, Falling;
    StateAt(p, S_RECVER, 22);
    RecverStep(p, pkt, rule, S_RECVER, S_HS, c, l.major);
  }

  lemma HandshakeMoves(p: Program, pkt: Packet, s: seq<byte>, rule: PopRule, l: Layer, c: Config, i: nat, ends: seq<nat>, seen: nat)
    requires Ready(p, pkt, s, l, c, i, ends, seen) && l.Handshake?
    ensures Moves(p, pkt, s, rule, l, c, i, ends, seen)
  {
    hide Step, Holds, At, StatesBelow, Short, Shortage, U8, U16, U24, Small, Falling;
    StateAt(p, S_HS, 22);
    ShortTwo(s, ends, i, 1, 3);
    assert ends == [ends[0]];
    if Room(s, ends, i + 4) && i + 4 + U24(s, i + 1) <= ends[0] {
      SmallPush(ends, i + 4 + U24(s, i + 1));
      assert ends + [i + 4 + U24(s, i + 1)] == [ends[0], i + 4 + U24(s, i + 1)];
    }
    var d := HsStep(p, pkt, s, rule, S_HS, S_FIXED, c, i, ends[0]);
  }

  lemma OpeningMoves(p: Program, pkt: Packet, s: seq<byte>, rule: PopRule, l: Layer, c: Config, i: nat, ends: seq<nat>, seen: nat)
    requires Ready(p, pkt, s, l, c, i, ends, seen) && l.Opening?
    ensures Moves(p, pkt, s, rule, l, c, i, ends, seen)
  {
    hide Step, Holds, At, StatesBelow, Short, Shortage, U8, U16, U24, Small, Falling;
    StateAt(p, S_FIXED, 22);
    ShortTwo(s, ends, i, 2, 32);
    var d := FixedStep(p, pkt, s, rule, S_FIXED, S_SID_LEN, c, i, ends);
  }

  lemma SessionMoves(p: Program, pkt: Packet, s: seq<byte>, rule: PopRule, l: Layer, c: Config, i: nat, ends: seq<nat>, seen: nat)
    requires Ready(p, pkt, s, l, c, i, ends, seen) && l.SessionLength?
    ensures Moves(p, pkt, s, rule, l, c, i, ends, seen)
  {
    hide Step, Holds, At, StatesBelow, Short, Shortage, U8, U16, U24, Small, Falling;
    StateAt(p, S_SID_LEN, 22);
    ShortOne(s, ends, i, 1);
    var d := SidLenStep(p, pkt, s, rule, S_SID_LEN, S_SID, c, i, ends);
  }

  lemma CiphersMoves(p: Program, pkt: Packet, s: seq<byte>, rule: PopRule, l: Layer, c: Config, i: nat, ends: seq<nat>, seen: nat)
    requires Ready(p, pkt, s, l, c, i, ends, seen) && l.CiphersLength?
    ensures Moves(p, pkt, s, rule, l, c, i, ends, seen)
  {
    hide Step, Holds, At, StatesBelow, Short, Shortage, U8, U16, U24, Small, Falling;
    StateAt(p, S_CS_LEN, 22);
    ShortOne(s, ends, i, 2);
    var d := CsLenStep(p, pkt, s, rule, S_CS_LEN, S_CS_PARITY, c, i, ends);
  }

  lemma ParityMoves(p: Program, pkt: Packet, s: seq<byte>, rule: PopRule, l: Layer, c: Config, i: nat, ends: seq<nat>, seen: nat)
    requires Ready(p, pkt, s, l, c, i, ends, seen) && l.Parity?
    ensures Moves(p, pkt, s, rule, l, c, i, ends, seen)
  {
    hide Step, Holds, StatesBelow, Small, Falling;
    StateAt(p, S_CS_PARITY, 22);
    CsParityStep(p, pkt, rule, S_CS_PARITY, S_CS, c, l.n % 2);
  }

  lemma CompressionsMoves(p: Program, pkt: Packet, s: seq<byte>, rule: PopRule, l: Layer, c: Config, i: nat, ends: seq<nat>, seen: nat)
    requires Ready(p, pkt, s, l, c, i, ends, seen) && l.CompressionsLength?
    ensures Moves(p, pkt, s, rule, l, c, i, ends, seen)
  {
    hide Step, Holds, At, StatesBelow, Short, Shortage, U8, U16, U24, Small, Falling;
    StateAt(p, S_COMP_LEN, 22);
    ShortOne(s, ends, i, 1);
    var d := CompLenStep(p, pkt, s, rule, S_COMP_LEN, S_COMP, c, i, ends);
  }

  datatype Passed = Passed(inst: Name, from: Name, f: Name, next: Name)

  function PassOf(l: Layer): Passed
    requires l.Session? || l.Ciphers? || l.Compressions? || l.Skipped?
  {
    match l
    case Session(_) => Passed(SID, SID_LEN, 0, S_CS_LEN)
    case Ciphers(_) => Passed(CS, CS_LEN, 0, S_COMP_LEN)
    case Compressions(_) => Passed(COMP, COMP_LEN, 0, S_EXT_CHECK)
    case Skipped(_) => Passed(SKIP, EXT, 1, S_TLV)
  }

  lemma SmallTop(ends: seq<nat>)
    requires Small(ends) && ends != []
    ensures ends[|ends| - 1] < 0x2_0000
  {
  }

  lemma SmallFront(ends: seq<nat>)
    requires Small(ends) && |ends| == 5
    ensures Small(ends[..3])
  {
  }

  /** Which end is past byte i. */
  lemma StuckAt(ends: seq<nat>, i: nat)
    requires 2 <= |ends| <= 3
    ensures var n := |ends| - 1;
            && (ends[n] != i ==> Stuck(ends, i) == ends[n])
            && (ends[n] == i && ends[n - 1] != i ==> Stuck(ends, i) == ends[n - 1])
            && (ends[n] == i && ends[n - 1] == i && n == 2 ==> Stuck(ends, i) == ends[0])
  {
    var n := |ends| - 1;
    var once := ends[..n];
    assert once[n - 1] == ends[n - 1];
    assert Stuck(once, i) == if once[n - 1] != i then once[n - 1] else Stuck(once[..n - 1], i);
    if n == 2 {
      assert once[..1] == [ends[0]];
      assert Stuck([], i) == i;
      assert [ends[0]][..0] == [];
    }
  }

  /** A layer that passes over a run. */
  lemma PassMoves(p: Program, pkt: Packet, s: seq<byte>, rule: PopRule, l: Layer, c: Config, i: nat, ends: seq<nat>, seen: nat)
    requires Ready(p, pkt, s, l, c, i, ends, seen) && (l.Session? || l.Ciphers? || l.Compressions? || l.Skipped?)
    ensures Moves(p, pkt, s, rule, l, c, i, ends, seen)
  {
    hide StateOf, RecordState, ExtState, SniEntryState, HostState, BlockState, SniState, RunState;
    hide Step, Holds, At, StatesBelow, Short, Shortage, U8, U16, U24, Small, Falling;
    StateIs(p, l);
    PassedState(l);
    ShortOne(s, ends, i, l.n);
    SizeOfHeld(pkt, s);
    var r := PassOf(l);
    var d := RunStep(p, pkt, s, rule, StateFor(l), r.inst, Ref(r.from, r.f), r.next, c, i, ends, l.n);
  }

  lemma TailMoves(p: Program, pkt: Packet, s: seq<byte>, rule: PopRule, l: Layer, c: Config, i: nat, ends: seq<nat>, seen: nat)
    requires Ready(p, pkt, s, l, c, i, ends, seen) && l.Tail?
    ensures Moves(p, pkt, s, rule, l, c, i, ends, seen)
  {
    hide Step, Holds, At, StatesBelow, Short, Shortage, U8, U16, U24, Small, Falling;
    StateAt(p, S_EXT_CHECK, 22);
    ExtCheckStep(p, pkt, rule, S_EXT_CHECK, S_DONE_NOEXT, S_EXT_LEN, c, i, ends);
  }

  lemma LoopMoves(p: Program, pkt: Packet, s: seq<byte>, rule: PopRule, l: Layer, c: Config, i: nat, ends: seq<nat>, seen: nat)
    requires Ready(p, pkt, s, l, c, i, ends, seen) && l.Loop?
    ensures Moves(p, pkt, s, rule, l, c, i, ends, seen)
  {
    hide Step, Holds, At, StatesBelow, Short, Shortage, U8, U16, U24, Small, Falling;
    StateAt(p, S_TLV, 22);
    TlvStep(p, pkt, rule, S_TLV, S_DONE, S_EXT, c, i, ends);
  }

  lemma BlockMoves(p: Program, pkt: Packet, s: seq<byte>, rule: PopRule, l: Layer, c: Config, i: nat, ends: seq<nat>, seen: nat)
    requires Ready(p, pkt, s, l, c, i, ends, seen) && (l.BlockLength? || l.NameList?)
    ensures Moves(p, pkt, s, rule, l, c, i, ends, seen)
  {
    hide StateOf, RecordState, ExtState, SniEntryState, HostState, BlockState, SniState, RunState;
    hide Step, Holds, At, StatesBelow, Short, Shortage, U8, U16, U24, Small, Falling;
    StateIs(p, l);
    ShortOne(s, ends, i, 2);
    SmallTop(ends);
    if Room(s, ends, i + 2) && i + 2 + U16(s, i) <= ends[|ends| - 1] {
      SmallPush(ends, i + 2 + U16(s, i));
    }
    var d := BlockStep(p, pkt, s, rule, StateFor(l), if l.BlockLength? then EXT_LEN else SNI_LIST,
                       if l.BlockLength? then S_TLV else S_SNI_ENTRY, c, i, ends);
  }

  lemma ExtensionMoves(p: Program, pkt: Packet, s: seq<byte>, rule: PopRule, l: Layer, c: Config, i: nat, ends: seq<nat>, seen: nat)
    requires Ready(p, pkt, s, l, c, i, ends, seen) && l.Extension?
    ensures Moves(p, pkt, s, rule, l, c, i, ends, seen)
  {
    hide StateOf, RecordState, ExtState, SniEntryState, HostState, BlockState, SniState, RunState;
    hide Step, Holds, At, StatesBelow, Short, Shortage, U8, U16, U24, Small, Falling;
    StateIs(p, l);
    ShortTwo(s, ends, i, 2, 2);
    var d := ExtStep(p, pkt, s, rule, S_EXT, S_SNI, S_SKIP, c, i, ends, seen);
  }

  lemma ServerNameMoves(p: Program, pkt: Packet, s: seq<byte>, rule: PopRule, l: Layer, c: Config, i: nat, ends: seq<nat>, seen: nat)
    requires Ready(p, pkt, s, l, c, i, ends, seen) && l.ServerName?
    ensures Moves(p, pkt, s, rule, l, c, i, ends, seen)
  {
    hide StateOf, RecordState, ExtState, SniEntryState, HostState, BlockState, SniState, RunState;
    hide Step, Holds, At, StatesBelow, Short, Shortage, U8, U16, U24, Small, Falling;
    StateIs(p, l);
    SmallTop(ends);
    if i + l.n <= ends[|ends| - 1] {
      SmallPush(ends, i + l.n);
    }
    var d := SniStep(p, pkt, rule, S_SNI, S_SNI_LIST, c, i, ends, l.n);
  }

  lemma NameMoves(p: Program, pkt: Packet, s: seq<byte>, rule: PopRule, l: Layer, c: Config, i: nat, ends: seq<nat>, seen: nat)
    requires Ready(p, pkt, s, l, c, i, ends, seen) && l.NameEntry?
    ensures Moves(p, pkt, s, rule, l, c, i, ends, seen)
  {
    hide StateOf, RecordState, ExtState, SniEntryState, HostState, BlockState, SniState, RunState;
    hide Step, Holds, At, StatesBelow, Short, Shortage, U8, U16, U24, Small, Falling;
    StateIs(p, l);
    ShortTwo(s, ends, i, 1, 2);
    var d := SniEntryStep(p, pkt, s, rule, S_SNI_ENTRY, S_HOST, c, i, ends);
  }

  lemma HostMoves(p: Program, pkt: Packet, s: seq<byte>, rule: PopRule, l: Layer, c: Config, i: nat, ends: seq<nat>, seen: nat)
    requires Ready(p, pkt, s, l, c, i, ends, seen) && l.Host?
    ensures Moves(p, pkt, s, rule, l, c, i, ends, seen)
  {
    hide StateOf, RecordState, ExtState, SniEntryState, HostState, BlockState, SniState, RunState;
    hide Step, Holds, At, StatesBelow, Short, U8, U16, U24, Small, Falling;
    StateIs(p, l);
    ShortOne(s, ends, i, l.n);
    SizeOfHeld(pkt, s);
    var outer := ends[..3];
    assert ends == outer + [ends[3]] + [ends[4]];
    SmallFront(ends);
    var d := HostStep(p, pkt, s, rule, S_HOST, S_TLV, c, i, outer, ends[3], ends[4], l.n);
  }

  lemma EndedMoves(p: Program, pkt: Packet, s: seq<byte>, rule: PopRule, l: Layer, c: Config, i: nat, ends: seq<nat>, seen: nat)
    requires Ready(p, pkt, s, l, c, i, ends, seen) && (l.Ended? || l.EndedEarly?)
    ensures Moves(p, pkt, s, rule, l, c, i, ends, seen)
  {
    hide Step, Holds, At, StatesBelow, Short, Shortage, U8, U16, U24, Small, Falling;
    StateAt(p, StateFor(l), 22);
    ClosingStep(p, pkt, rule, StateFor(l), c, i, ends);
    StuckAt(ends, i);
  }

  lemma LayerMoves(p: Program, pkt: Packet, s: seq<byte>, rule: PopRule, l: Layer, c: Config, i: nat, ends: seq<nat>, seen: nat)
    requires Ready(p, pkt, s, l, c, i, ends, seen) && (l.Record? ==> seen == 0)
    ensures Moves(p, pkt, s, rule, l, c, i, ends, seen)
  {
    hide Moves;
    match l
    case Record => RecordMoves(p, pkt, s, rule, c, seen);
    case Version(_) => VersionMoves(p, pkt, s, rule, l, c, i, ends, seen);
    case Handshake => HandshakeMoves(p, pkt, s, rule, l, c, i, ends, seen);
    case Opening => OpeningMoves(p, pkt, s, rule, l, c, i, ends, seen);
    case SessionLength => SessionMoves(p, pkt, s, rule, l, c, i, ends, seen);
    case CiphersLength => CiphersMoves(p, pkt, s, rule, l, c, i, ends, seen);
    case Parity(_) => ParityMoves(p, pkt, s, rule, l, c, i, ends, seen);
    case CompressionsLength => CompressionsMoves(p, pkt, s, rule, l, c, i, ends, seen);
    case Tail => TailMoves(p, pkt, s, rule, l, c, i, ends, seen);
    case Loop => LoopMoves(p, pkt, s, rule, l, c, i, ends, seen);
    case BlockLength => BlockMoves(p, pkt, s, rule, l, c, i, ends, seen);
    case NameList => BlockMoves(p, pkt, s, rule, l, c, i, ends, seen);
    case Extension => ExtensionMoves(p, pkt, s, rule, l, c, i, ends, seen);
    case ServerName(_) => ServerNameMoves(p, pkt, s, rule, l, c, i, ends, seen);
    case NameEntry => NameMoves(p, pkt, s, rule, l, c, i, ends, seen);
    case Host(_) => HostMoves(p, pkt, s, rule, l, c, i, ends, seen);
    case Ended => EndedMoves(p, pkt, s, rule, l, c, i, ends, seen);
    case EndedEarly => EndedMoves(p, pkt, s, rule, l, c, i, ends, seen);
    case _ => PassMoves(p, pkt, s, rule, l, c, i, ends, seen);
  }

  // ---- The run is the scan ----

  lemma {:induction false} RunScans(
    p: Program, pkt: Packet, s: seq<byte>, rule: PopRule, l: Layer, c: Config, i: nat, ends: seq<nat>, seen: nat, b: nat)
    requires Ready(p, pkt, s, l, c, i, ends, seen) && (l.Record? ==> seen == 0)
    ensures var r, e := RunFrom(p, pkt, rule, StateFor(l), c, b), Scan(l, pkt, s, rule, i, ends, seen, b);
            r.outcome == e.outcome && r.consumed == e.consumed
    decreases b
  {
    hide Next, Step, RunFrom, Knows, Small, Holds, StatesBelow, Falling, Depth;
    Enters(p, pkt, rule, StateFor(l), c, b);
    if b > 0 {
      LayerMoves(p, pkt, s, rule, l, c, i, ends, seen);
      MoveAround(l, pkt, s, rule, i, ends, seen);
      var m := Next(l, pkt, s, rule, i, ends, seen);
      if m.Onto? {
        NeverBack(l, pkt, s, rule, i, ends, seen);
        RunScans(p, pkt, s, rule, m.layer, Step(p, pkt, rule, StateFor(l), c).cfg, m.at, m.ends, m.seen, b - 1);
      }
    }
  }

  lemma NeverBack(l: Layer, pkt: Packet, s: seq<byte>, rule: PopRule, i: nat, ends: seq<nat>, seen: nat)
    requires Around(l, i, ends)
    ensures var m := Next(l, pkt, s, rule, i, ends, seen); m.Onto? ==> m.layer != Record
  {
    hide Short, Falling;
  }

  /** For every packet, budget and pop rule: outcome, reason and consumed bits of the run are those
      of the scan of the packet's whole bytes. */
  lemma ParseIsScan(p: Program, pkt: Packet, rule: PopRule)
    requires Describes(p)
    ensures var r, e := Parse(p, pkt, rule), Scan(Record, pkt, BytesOf(pkt), rule, 0, [], 0, p.maxDepth);
            r.outcome == e.outcome && r.consumed == e.consumed
  {
    hide Scan, RunFrom;
    HoldsOwn(pkt);
    RunScans(p, pkt, BytesOf(pkt), rule, Record, Initial(p), 0, [], 0, p.maxDepth);
  }
}
