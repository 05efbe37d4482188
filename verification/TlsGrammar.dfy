/** What the tls_clienthello machine accepts, as a recogniser over bytes. */
module TlsGrammar {
  import opened Bits
  import opened Ir
  import opened Semantics
  import opened Regions
  import opened Steps
  import opened WholeBytes
  import opened TlsClienthello

  // ---- What a state answers ----

  ghost predicate Ready(p: Program, pkt: Packet, s: seq<byte>, cfg: Config, i: nat, ends: seq<nat>, seen: nat) {
    && Describes(p) && Holds(pkt, s) && At(pkt, cfg, i, ends) && SeenIs(cfg, seen) && seen <= 1
    && ends != [] && ends[|ends| - 1] < 0x2_0000
  }

  /** Accepted with the whole record consumed, or rejected. */
  predicate Answers(r: Result, yes: bool, e1: nat) {
    if yes then r.outcome == Accepted && r.consumed == 8 * e1 else r.outcome.Rejected?
  }

  /** State q, entered at byte i inside ends with b states left, answers yes. */
  ghost predicate Gives(
    p: Program, pkt: Packet, s: seq<byte>, rule: PopRule, q: Name, i: nat, ends: seq<nat>, seen: nat, b: int, yes: bool, e1: nat) {
    b >= 0 ==> forall c | Ready(p, pkt, s, c, i, ends, seen) :: Answers(RunFrom(p, pkt, rule, q, c, b), yes, e1)
  }

  /** The same, of a state that uses an extracted length n. */
  ghost predicate GivesWith(
    p: Program, pkt: Packet, s: seq<byte>, rule: PopRule, q: Name, i: nat, ends: seq<nat>, seen: nat,
    inst: Name, f: Name, n: nat, b: int, yes: bool, e1: nat) {
    b >= 0 ==> forall c | Ready(p, pkt, s, c, i, ends, seen) && Has(c.env, inst, f, n) ::
                 Answers(RunFrom(p, pkt, rule, q, c, b), yes, e1)
  }

  // ---- The server_name extension ----

  lemma HostGives(
    p: Program, pkt: Packet, s: seq<byte>, rule: PopRule, i: nat, ends: seq<nat>, e4: nat, e5: nat, n: nat, b: int,
    yes: bool, good: bool, e1: nat)
    requires n < 0x1_0000 && ends != [] && ends[|ends| - 1] < 0x2_0000 && Gives(p, pkt, s, rule, S_TLV, e4, ends, 1, b - 1, yes, e1)
    requires good <==> b >= 1 && i + n <= |s| && i + n == e5 && e5 == e4 && yes
    ensures GivesWith(p, pkt, s, rule, S_HOST, i, ends + [e4] + [e5], 1, SNI_ENTRY, 1, n, b, good, e1)
  {
    var all := ends + [e4] + [e5];
    forall c | b >= 0 && Ready(p, pkt, s, c, i, all, 1) && Has(c.env, SNI_ENTRY, 1, n)
      ensures Answers(RunFrom(p, pkt, rule, S_HOST, c, b), good, e1)
    {
      StateAt(p, S_HOST, 22);
      var d := HostStep(p, pkt, s, rule, S_HOST, S_TLV, c, i, ends, e4, e5, n);
      Enters(p, pkt, rule, S_HOST, c, b);
    }
  }

  predicate EntryOk(s: seq<byte>, i: nat, e4: nat, e5: nat) {
    i + 3 <= e5 && e5 == e4 && e5 <= |s| && U8(s, i) == 0 && i + 3 + U16(s, i + 1) == e5
  }

  lemma EntryGives(
    p: Program, pkt: Packet, s: seq<byte>, rule: PopRule, i: nat, all: seq<nat>, b: int, yes: bool, good: bool, e1: nat)
    requires i + 3 <= |s| ==> GivesWith(p, pkt, s, rule, S_HOST, i + 3, all, 1, SNI_ENTRY, 1, U16(s, i + 1), b - 1, yes, e1)
    requires good <==> b >= 1 && Room(s, all, i + 3) && U8(s, i) == 0 && yes
    ensures Gives(p, pkt, s, rule, S_SNI_ENTRY, i, all, 1, b, good, e1)
  {
    forall c | b >= 0 && Ready(p, pkt, s, c, i, all, 1)
      ensures Answers(RunFrom(p, pkt, rule, S_SNI_ENTRY, c, b), good, e1)
    {
      StateAt(p, S_SNI_ENTRY, 22);
      var d := SniEntryStep(p, pkt, s, rule, S_SNI_ENTRY, S_HOST, c, i, all);
      Enters(p, pkt, rule, S_SNI_ENTRY, c, b);
    }
  }

  lemma ListGives(
    p: Program, pkt: Packet, s: seq<byte>, rule: PopRule, i: nat, all: seq<nat>, e5: nat, b: int, yes: bool, good: bool, e1: nat)
    requires all != []
    requires i + 2 <= |s| ==> e5 == i + 2 + U16(s, i) && Gives(p, pkt, s, rule, S_SNI_ENTRY, i + 2, all + [e5], 1, b - 1, yes, e1)
    requires good <==> b >= 1 && Room(s, all, i + 2) && e5 <= all[|all| - 1] && yes
    ensures Gives(p, pkt, s, rule, S_SNI_LIST, i, all, 1, b, good, e1)
  {
    forall c | b >= 0 && Ready(p, pkt, s, c, i, all, 1)
      ensures Answers(RunFrom(p, pkt, rule, S_SNI_LIST, c, b), good, e1)
    {
      StateAt(p, S_SNI_LIST, 22);
      var d := BlockStep(p, pkt, s, rule, S_SNI_LIST, SNI_LIST, S_SNI_ENTRY, c, i, all);
      Enters(p, pkt, rule, S_SNI_LIST, c, b);
    }
  }

  lemma SniGives(
    p: Program, pkt: Packet, s: seq<byte>, rule: PopRule, i: nat, ends: seq<nat>, n: nat, b: int, yes: bool, good: bool, e1: nat)
    requires ends != [] && n < 0x1_0000 && Gives(p, pkt, s, rule, S_SNI_LIST, i, ends + [i + n], 1, b - 1, yes, e1)
    requires good <==> b >= 1 && i + n <= ends[|ends| - 1] && yes
    ensures GivesWith(p, pkt, s, rule, S_SNI, i, ends, 0, EXT, 1, n, b, good, e1)
  {
    forall c | b >= 0 && Ready(p, pkt, s, c, i, ends, 0) && Has(c.env, EXT, 1, n)
      ensures Answers(RunFrom(p, pkt, rule, S_SNI, c, b), good, e1)
    {
      StateAt(p, S_SNI, 22);
      var d := SniStep(p, pkt, rule, S_SNI, S_SNI_LIST, c, i, ends, n);
      Enters(p, pkt, rule, S_SNI, c, b);
    }
  }

  lemma EntryParts(s: seq<byte>, i: nat, ends: seq<nat>, e4: nat, e5: nat, b: int, yes: bool, good: bool) returns (rest: bool)
    requires good <==> b >= 2 && EntryOk(s, i, e4, e5) && yes
    ensures good <==> b >= 1 && Room(s, ends + [e4] + [e5], i + 3) && U8(s, i) == 0 && rest
    ensures i + 3 <= |s| ==>
              var n := U16(s, i + 1);
              (rest <==> b - 1 >= 1 && i + 3 + n <= |s| && i + 3 + n == e5 && e5 == e4 && yes)
  {
    rest := i + 3 <= |s| && b >= 2 && i + 3 + U16(s, i + 1) <= |s| && i + 3 + U16(s, i + 1) == e5 && e5 == e4 && yes;
  }

  lemma EntryChain(
    p: Program, pkt: Packet, s: seq<byte>, rule: PopRule, i: nat, ends: seq<nat>, e4: nat, e5: nat, b: int, yes: bool, good: bool, e1: nat)
    requires ends != [] && ends[|ends| - 1] < 0x2_0000 && Gives(p, pkt, s, rule, S_TLV, e4, ends, 1, b - 2, yes, e1)
    requires good <==> b >= 2 && EntryOk(s, i, e4, e5) && yes
    ensures Gives(p, pkt, s, rule, S_SNI_ENTRY, i, ends + [e4] + [e5], 1, b, good, e1)
  {
    hide Gives, GivesWith;
    var rest := EntryParts(s, i, ends, e4, e5, b, yes, good);
    if i + 3 <= |s| {
      HostGives(p, pkt, s, rule, i + 3, ends, e4, e5, U16(s, i + 1), b - 1, yes, rest, e1);
    }
    EntryGives(p, pkt, s, rule, i, ends + [e4] + [e5], b, rest, good, e1);
  }

  predicate ListOk(s: seq<byte>, i: nat, e4: nat) {
    i + 2 <= e4 && i + 2 <= |s| && i + 2 + U16(s, i) <= e4 && EntryOk(s, i + 2, e4, i + 2 + U16(s, i))
  }

  lemma ListParts(s: seq<byte>, i: nat, ends: seq<nat>, e4: nat, e5: nat, b: int, yes: bool, good: bool) returns (rest: bool)
    requires i + 2 <= |s| && e5 == i + 2 + U16(s, i) && (good <==> b >= 3 && ListOk(s, i, e4) && yes)
    ensures var all := ends + [e4];
            good <==> b >= 1 && Room(s, all, i + 2) && e5 <= all[|all| - 1] && rest
    ensures rest <==> b - 1 >= 2 && EntryOk(s, i + 2, e4, e5) && yes
  {
    rest := b >= 3 && EntryOk(s, i + 2, e4, e5) && yes;
  }

  lemma ListChain(
    p: Program, pkt: Packet, s: seq<byte>, rule: PopRule, i: nat, ends: seq<nat>, e4: nat, b: int, yes: bool, good: bool, e1: nat)
    requires ends != [] && ends[|ends| - 1] < 0x2_0000 && Gives(p, pkt, s, rule, S_TLV, e4, ends, 1, b - 3, yes, e1)
    requires good <==> b >= 3 && ListOk(s, i, e4) && yes
    ensures Gives(p, pkt, s, rule, S_SNI_LIST, i, ends + [e4], 1, b, good, e1)
  {
    hide Gives, GivesWith;
    if i + 2 <= |s| {
      var e5 := i + 2 + U16(s, i);
      var rest := ListParts(s, i, ends, e4, e5, b, yes, good);
      EntryChain(p, pkt, s, rule, i + 2, ends, e4, e5, b - 1, yes, rest, e1);
      ListGives(p, pkt, s, rule, i, ends + [e4], e5, b, rest, good, e1);
    } else {
      ListGives(p, pkt, s, rule, i, ends + [e4], 0, b, false, false, e1);
    }
  }

  /** n bytes of extension data at byte i are a server_name list of one host_name, exactly. */
  predicate SniOk(s: seq<byte>, i: nat, n: nat, end: nat) {
    && n >= 5 && i + n <= end && i + n <= |s|
    && U16(s, i) == n - 2 && U8(s, i + 2) == 0 && U16(s, i + 3) == n - 5
  }

  /** Four states, from the extension data to the loop head again. */
  lemma SniChain(
    p: Program, pkt: Packet, s: seq<byte>, rule: PopRule, i: nat, ends: seq<nat>, n: nat, b: int, yes: bool, good: bool, e1: nat)
    requires ends != [] && ends[|ends| - 1] < 0x2_0000 && n < 0x1_0000
    requires Gives(p, pkt, s, rule, S_TLV, i + n, ends, 1, b - 4, yes, e1)
    requires good <==> b >= 4 && SniOk(s, i, n, ends[|ends| - 1]) && yes
    ensures GivesWith(p, pkt, s, rule, S_SNI, i, ends, 0, EXT, 1, n, b, good, e1)
  {
    hide Gives, GivesWith;
    var rest := b >= 4 && ListOk(s, i, i + n) && yes;
    ListChain(p, pkt, s, rule, i, ends, i + n, b - 1, yes, rest, e1);
    SniGives(p, pkt, s, rule, i, ends, n, b, rest, good, e1);
  }

  // ---- The extension loop ----

  /** A state that reads a run whose length was extracted before. */
  lemma RunGives(
    p: Program, pkt: Packet, s: seq<byte>, rule: PopRule, q: Name, inst: Name, from: Name, f: Name, next: Name,
    i: nat, ends: seq<nat>, seen: nat, n: nat, b: int, yes: bool, good: bool, e1: nat)
    requires q < 22 && StateOf(q) == RunState(inst, Ref(from, f), next)
    requires n < 0x1_0000 && Gives(p, pkt, s, rule, next, i + n, ends, seen, b - 1, yes, e1)
    requires good <==> b >= 1 && Room(s, ends, i + n) && yes
    ensures GivesWith(p, pkt, s, rule, q, i, ends, seen, from, f, n, b, good, e1)
  {
    forall c | b >= 0 && Ready(p, pkt, s, c, i, ends, seen) && Has(c.env, from, f, n)
      ensures Answers(RunFrom(p, pkt, rule, q, c, b), good, e1)
    {
      StateAt(p, q, 22);
      var d := RunStep(p, pkt, s, rule, q, inst, Ref(from, f), next, c, i, ends, n);
      Enters(p, pkt, rule, q, c, b);
    }
  }

  lemma ExtGives(
    p: Program, pkt: Packet, s: seq<byte>, rule: PopRule, i: nat, ends: seq<nat>, seen: nat, t: nat, n: nat, b: int,
    yes: bool, good: bool, e1: nat)
    requires i + 4 <= |s| ==> t == U16(s, i) && n == U16(s, i + 2)
    requires i + 4 <= |s| && t == 0 ==> GivesWith(p, pkt, s, rule, S_SNI, i + 4, ends, 0, EXT, 1, n, b - 1, yes, e1)
    requires i + 4 <= |s| && t != 0 ==> GivesWith(p, pkt, s, rule, S_SKIP, i + 4, ends, seen, EXT, 1, n, b - 1, yes, e1)
    requires good <==> b >= 1 && Room(s, ends, i + 4) && (t == 0 ==> seen == 0) && yes
    ensures Gives(p, pkt, s, rule, S_EXT, i, ends, seen, b, good, e1)
  {
    forall c | b >= 0 && Ready(p, pkt, s, c, i, ends, seen)
      ensures Answers(RunFrom(p, pkt, rule, S_EXT, c, b), good, e1)
    {
      StateAt(p, S_EXT, 22);
      var d := ExtStep(p, pkt, s, rule, S_EXT, S_SNI, S_SKIP, c, i, ends, seen);
      Enters(p, pkt, rule, S_EXT, c, b);
    }
  }

  /** The extension at byte i fits its region and its buffer, and is well formed. */
  predicate ExtOk(s: seq<byte>, i: nat, end: nat, seen: nat) {
    && i + 4 <= end && i + 4 <= |s|
    && if U16(s, i) == 0 then seen == 0 && SniOk(s, i + 4, U16(s, i + 2), end)
       else i + 4 + U16(s, i + 2) <= end && i + 4 + U16(s, i + 2) <= |s|
  }

  /** States an extension costs, up to the loop head. */
  function ExtCost(typ: nat): nat {
    if typ == 0 then 5 else 2
  }

  function SeenAfter(typ: nat, seen: nat): nat {
    if typ == 0 then 1 else seen
  }

  lemma ExtParts(s: seq<byte>, i: nat, ends: seq<nat>, seen: nat, t: nat, n: nat, b: int, yes: bool, good: bool)
    returns (rest: bool)
    requires i + 4 <= |s| && t == U16(s, i) && n == U16(s, i + 2)
    requires ends != [] && (good <==> ExtOk(s, i, ends[|ends| - 1], seen) && b >= ExtCost(t) && yes)
    ensures good <==> b >= 1 && Room(s, ends, i + 4) && (t == 0 ==> seen == 0) && rest
    ensures t == 0 ==> (rest <==> b - 1 >= 4 && SniOk(s, i + 4, n, ends[|ends| - 1]) && yes)
    ensures t != 0 ==> (rest <==> b - 1 >= 1 && Room(s, ends, i + 4 + n) && yes)
  {
    if t == 0 {
      rest := b >= 5 && SniOk(s, i + 4, n, ends[|ends| - 1]) && yes;
    } else {
      rest := b >= 2 && Room(s, ends, i + 4 + n) && yes;
    }
  }

  /** States from S_EXT to the loop head again, for an extension of type t and length n. */
  lemma ExtChain(
    p: Program, pkt: Packet, s: seq<byte>, rule: PopRule, i: nat, ends: seq<nat>, seen: nat, t: nat, n: nat, b: int,
    yes: bool, good: bool, e1: nat)
    requires i + 4 <= |s| && t == U16(s, i) && n == U16(s, i + 2) && ends != [] && ends[|ends| - 1] < 0x2_0000
    requires Gives(p, pkt, s, rule, S_TLV, i + 4 + n, ends, SeenAfter(t, seen), b - ExtCost(t), yes, e1)
    requires good <==> ExtOk(s, i, ends[|ends| - 1], seen) && b >= ExtCost(t) && yes
    ensures Gives(p, pkt, s, rule, S_EXT, i, ends, seen, b, good, e1)
  {
    hide Gives, GivesWith;
    var rest := ExtParts(s, i, ends, seen, t, n, b, yes, good);
    BodyChain(p, pkt, s, rule, i + 4, ends, seen, t, n, b - 1, yes, rest, e1);
    ExtGives(p, pkt, s, rule, i, ends, seen, t, n, b, rest, good, e1);
  }

  /** The states after S_EXT, for an extension of type t and length n. */
  lemma BodyChain(
    p: Program, pkt: Packet, s: seq<byte>, rule: PopRule, i: nat, ends: seq<nat>, seen: nat, t: nat, n: nat, b: int,
    yes: bool, good: bool, e1: nat)
    requires ends != [] && ends[|ends| - 1] < 0x2_0000 && n < 0x1_0000
    requires Gives(p, pkt, s, rule, S_TLV, i + n, ends, SeenAfter(t, seen), b + 1 - ExtCost(t), yes, e1)
    requires t == 0 ==> (good <==> b >= 4 && SniOk(s, i, n, ends[|ends| - 1]) && yes)
    requires t != 0 ==> (good <==> b >= 1 && Room(s, ends, i + n) && yes)
    ensures t == 0 ==> GivesWith(p, pkt, s, rule, S_SNI, i, ends, 0, EXT, 1, n, b, good, e1)
    ensures t != 0 ==> GivesWith(p, pkt, s, rule, S_SKIP, i, ends, seen, EXT, 1, n, b, good, e1)
  {
    hide Gives, GivesWith;
    if t == 0 {
      SniChain(p, pkt, s, rule, i, ends, n, b, yes, good, e1);
    } else {
      RunGives(p, pkt, s, rule, S_SKIP, SKIP, EXT, 1, S_TLV, i, ends, seen, n, b, yes, good, e1);
    }
  }

  /** S_EXT where even its header does not fit. */
  lemma ExtTooShort(p: Program, pkt: Packet, s: seq<byte>, rule: PopRule, i: nat, ends: seq<nat>, seen: nat, b: int, e1: nat)
    requires i + 4 > |s|
    ensures Gives(p, pkt, s, rule, S_EXT, i, ends, seen, b, false, e1)
  {
    ExtGives(p, pkt, s, rule, i, ends, seen, 0, 0, b, false, false, e1);
  }

  lemma HeadGives(
    p: Program, pkt: Packet, s: seq<byte>, rule: PopRule, i: nat, e1: nat, e2: nat, e3: nat, seen: nat, b: int, yes: bool, good: bool)
    requires Gives(p, pkt, s, rule, S_EXT, i, [e1, e2, e3], seen, b - 1, yes, e1)
    requires good <==> if i == e3 then b >= 2 && e2 == i && e1 == i else b >= 1 && i + 4 <= e3 && yes
    ensures Gives(p, pkt, s, rule, S_TLV, i, [e1, e2, e3], seen, b, good, e1)
  {
    forall c | b >= 0 && Ready(p, pkt, s, c, i, [e1, e2, e3], seen)
      ensures Answers(RunFrom(p, pkt, rule, S_TLV, c, b), good, e1)
    {
      StateAt(p, S_TLV, 22);
      TlvStep(p, pkt, rule, S_TLV, S_DONE, S_EXT, c, i, [e1, e2, e3]);
      Enters(p, pkt, rule, S_TLV, c, b);
      if i == e3 && b >= 1 {
        DoneAnswers(p, pkt, rule, c, i, e1, e2, e3, b - 1);
      }
    }
  }

  lemma DoneAnswers(p: Program, pkt: Packet, rule: PopRule, c: Config, i: nat, e1: nat, e2: nat, e3: nat, b: nat)
    requires Describes(p) && At(pkt, c, i, [e1, e2, e3]) && i == e3
    ensures Answers(RunFrom(p, pkt, rule, S_DONE, c, b), b >= 1 && e2 == i && e1 == i, e1)
  {
    var ends := [e1, e2, e3];
    assert AllEnd(ends, 3, i) <==> ends[0] == i && ends[1] == i && ends[2] == i;
    StateAt(p, S_DONE, 22);
    ClosingStep(p, pkt, rule, S_DONE, c, i, ends);
    Enters(p, pkt, rule, S_DONE, c, b);
  }

  lemma DoneNoExtAnswers(p: Program, pkt: Packet, rule: PopRule, c: Config, i: nat, e1: nat, e2: nat, b: nat)
    requires Describes(p) && At(pkt, c, i, [e1, e2]) && i == e2
    ensures Answers(RunFrom(p, pkt, rule, S_DONE_NOEXT, c, b), b >= 1 && e1 == i, e1)
  {
    var ends := [e1, e2];
    assert AllEnd(ends, 2, i) <==> ends[0] == i && ends[1] == i;
    StateAt(p, S_DONE_NOEXT, 22);
    ClosingStep(p, pkt, rule, S_DONE_NOEXT, c, i, ends);
    Enters(p, pkt, rule, S_DONE_NOEXT, c, b);
  }

  /** The extension loop at byte i of a region ending at e3, with b states left. */
  predicate Tlv(s: seq<byte>, i: nat, e1: nat, e2: nat, e3: nat, seen: nat, b: int)
    decreases b
  {
    if i == e3 then b >= 2 && e2 == i && e1 == i
    else
      && ExtOk(s, i, e3, seen) && b >= 1 + ExtCost(U16(s, i))
      && Tlv(s, i + 4 + U16(s, i + 2), e1, e2, e3, SeenAfter(U16(s, i), seen), b - 1 - ExtCost(U16(s, i)))
  }

  lemma {:induction false} TlvGives(
    p: Program, pkt: Packet, s: seq<byte>, rule: PopRule, i: nat, e1: nat, e2: nat, e3: nat, seen: nat, b: int)
    ensures Gives(p, pkt, s, rule, S_TLV, i, [e1, e2, e3], seen, b, Tlv(s, i, e1, e2, e3, seen, b), e1)
    decreases if b >= 0 then b + 1 else 0, 1
  {
    hide Gives;
    if b < 0 || e3 >= 0x2_0000 {
      NothingGiven(p, pkt, s, rule, i, e1, e2, e3, seen, b, Tlv(s, i, e1, e2, e3, seen, b));
    } else {
      TlvGivesIn(p, pkt, s, rule, i, e1, e2, e3, seen, b);
    }
  }

  /** Nothing is asked without budget, or of a region no record can hold. */
  lemma NothingGiven(
    p: Program, pkt: Packet, s: seq<byte>, rule: PopRule, i: nat, e1: nat, e2: nat, e3: nat, seen: nat, b: int, good: bool)
    requires b < 0 || e3 >= 0x2_0000
    ensures Gives(p, pkt, s, rule, S_TLV, i, [e1, e2, e3], seen, b, good, e1)
  {
  }

  lemma {:induction false} TlvGivesIn(
    p: Program, pkt: Packet, s: seq<byte>, rule: PopRule, i: nat, e1: nat, e2: nat, e3: nat, seen: nat, b: nat)
    requires e3 < 0x2_0000
    ensures Gives(p, pkt, s, rule, S_TLV, i, [e1, e2, e3], seen, b, Tlv(s, i, e1, e2, e3, seen, b), e1)
    decreases b + 1, 0
  {
    hide Gives;
    var good := Tlv(s, i, e1, e2, e3, seen, b);
    if i + 4 <= |s| {
      var t, n := U16(s, i), U16(s, i + 2);
      var after, left := SeenAfter(t, seen), b - 1 - ExtCost(t);
      var rest := Tlv(s, i + 4 + n, e1, e2, e3, after, left);
      TlvGives(p, pkt, s, rule, i + 4 + n, e1, e2, e3, after, left);
      HeadThenExt(p, pkt, s, rule, i, e1, e2, e3, seen, t, n, b, rest, good);
    } else {
      ExtTooShort(p, pkt, s, rule, i, [e1, e2, e3], seen, b - 1, e1);
      HeadGives(p, pkt, s, rule, i, e1, e2, e3, seen, b, false, good);
    }
  }

  lemma HeadThenExt(
    p: Program, pkt: Packet, s: seq<byte>, rule: PopRule, i: nat, e1: nat, e2: nat, e3: nat, seen: nat, t: nat, n: nat, b: int,
    yes: bool, good: bool)
    requires i + 4 <= |s| && t == U16(s, i) && n == U16(s, i + 2) && e3 < 0x2_0000 && b >= 0
    requires Gives(p, pkt, s, rule, S_TLV, i + 4 + n, [e1, e2, e3], SeenAfter(t, seen), b - 1 - ExtCost(t), yes, e1)
    requires good <==> if i == e3 then b >= 2 && e2 == i && e1 == i
                       else ExtOk(s, i, e3, seen) && b >= 1 + ExtCost(t) && yes
    ensures Gives(p, pkt, s, rule, S_TLV, i, [e1, e2, e3], seen, b, good, e1)
  {
    hide Gives;
    var mid := ExtOk(s, i, e3, seen) && b >= 1 + ExtCost(t) && yes;
    ExtChain(p, pkt, s, rule, i, [e1, e2, e3], seen, t, n, b - 1, yes, mid, e1);
    HeadGives(p, pkt, s, rule, i, e1, e2, e3, seen, b, mid, good);
  }

  // ---- The straight-line part ----

  /** Bytes up to e lie in the buffer and in the handshake body. */
  predicate Fits(s: seq<byte>, e2: nat, e: nat) {
    e <= |s| && e <= e2
  }

  /** A length, and the extensions. */
  predicate Block(s: seq<byte>, i: nat, e1: nat, e2: nat, b: int) {
    b >= 1 && Fits(s, e2, i + 2) && i + 2 + U16(s, i) <= e2 && Tlv(s, i + 2, e1, e2, i + 2 + U16(s, i), 0, b - 1)
  }

  /** The extensions, or the end of a body without them. */
  predicate ExtPart(s: seq<byte>, i: nat, e1: nat, e2: nat, b: int) {
    if i == e2 then b >= 2 && e1 == i else Block(s, i, e1, e2, b - 1)
  }

  predicate CompPart(s: seq<byte>, i: nat, e1: nat, e2: nat, b: int) {
    && b >= 2 && Fits(s, e2, i + 1) && U8(s, i) != 0 && Fits(s, e2, i + 1 + U8(s, i))
    && ExtPart(s, i + 1 + U8(s, i), e1, e2, b - 2)
  }

  predicate CsPart(s: seq<byte>, i: nat, e1: nat, e2: nat, b: int) {
    && b >= 3 && Fits(s, e2, i + 2) && U16(s, i) != 0 && U16(s, i) % 2 == 0 && Fits(s, e2, i + 2 + U16(s, i))
    && CompPart(s, i + 2 + U16(s, i), e1, e2, b - 3)
  }

  predicate SidPart(s: seq<byte>, i: nat, e1: nat, e2: nat, b: int) {
    && b >= 2 && Fits(s, e2, i + 1) && U8(s, i) <= 32 && Fits(s, e2, i + 1 + U8(s, i))
    && CsPart(s, i + 1 + U8(s, i), e1, e2, b - 2)
  }

  predicate BodyPart(s: seq<byte>, i: nat, e1: nat, e2: nat, b: int) {
    b >= 1 && Fits(s, e2, i + 34) && SidPart(s, i + 34, e1, e2, b - 1)
  }

  /** The handshake header and body inside a record ending at e1. */
  predicate HsPart(s: seq<byte>, i: nat, e1: nat, b: int) {
    && b >= 1 && i + 4 <= e1 && i + 4 <= |s| && U8(s, i) == 1 && i + 4 + U24(s, i + 1) <= e1
    && BodyPart(s, i + 4, e1, i + 4 + U24(s, i + 1), b - 1)
  }

  /** A whole record at the front of s. */
  predicate Recognised(s: seq<byte>, b: int) {
    b >= 2 && |s| >= 5 && U8(s, 0) == 0x16 && U8(s, 1) == 3 && HsPart(s, 5, 5 + U16(s, 3), b - 2)
  }

  lemma ExtLenGives(
    p: Program, pkt: Packet, s: seq<byte>, rule: PopRule, i: nat, e1: nat, e2: nat, e3: nat, b: int, yes: bool, good: bool)
    requires i + 2 <= |s| ==> e3 == i + 2 + U16(s, i) && Gives(p, pkt, s, rule, S_TLV, i + 2, [e1, e2, e3], 0, b - 1, yes, e1)
    requires e2 < 0x2_0000 && (good <==> b >= 1 && Fits(s, e2, i + 2) && e3 <= e2 && yes)
    ensures Gives(p, pkt, s, rule, S_EXT_LEN, i, [e1, e2], 0, b, good, e1)
  {
    forall c | b >= 0 && Ready(p, pkt, s, c, i, [e1, e2], 0)
      ensures Answers(RunFrom(p, pkt, rule, S_EXT_LEN, c, b), good, e1)
    {
      StateAt(p, S_EXT_LEN, 22);
      var d := BlockStep(p, pkt, s, rule, S_EXT_LEN, EXT_LEN, S_TLV, c, i, [e1, e2]);
      assert [e1, e2] + [e3] == [e1, e2, e3];
      Enters(p, pkt, rule, S_EXT_LEN, c, b);
    }
  }

  lemma ExtCheckGives(p: Program, pkt: Packet, s: seq<byte>, rule: PopRule, i: nat, e1: nat, e2: nat, b: int, yes: bool, good: bool)
    requires Gives(p, pkt, s, rule, S_EXT_LEN, i, [e1, e2], 0, b - 1, yes, e1)
    requires good <==> if i == e2 then b >= 2 && e1 == i else b >= 1 && i + 2 <= e2 && yes
    ensures Gives(p, pkt, s, rule, S_EXT_CHECK, i, [e1, e2], 0, b, good, e1)
  {
    forall c | b >= 0 && Ready(p, pkt, s, c, i, [e1, e2], 0)
      ensures Answers(RunFrom(p, pkt, rule, S_EXT_CHECK, c, b), good, e1)
    {
      StateAt(p, S_EXT_CHECK, 22);
      ExtCheckStep(p, pkt, rule, S_EXT_CHECK, S_DONE_NOEXT, S_EXT_LEN, c, i, [e1, e2]);
      Enters(p, pkt, rule, S_EXT_CHECK, c, b);
      if i == e2 && b >= 1 {
        DoneNoExtAnswers(p, pkt, rule, c, i, e1, e2, b - 1);
      }
    }
  }

  lemma BlockGives(p: Program, pkt: Packet, s: seq<byte>, rule: PopRule, i: nat, e1: nat, e2: nat, b: int, good: bool)
    requires e2 < 0x2_0000 && (good <==> Block(s, i, e1, e2, b))
    ensures Gives(p, pkt, s, rule, S_EXT_LEN, i, [e1, e2], 0, b, good, e1)
  {
    hide Tlv, Gives;
    if i + 2 <= |s| {
      var e3 := i + 2 + U16(s, i);
      TlvGives(p, pkt, s, rule, i + 2, e1, e2, e3, 0, b - 1);
      ExtLenGives(p, pkt, s, rule, i, e1, e2, e3, b, Tlv(s, i + 2, e1, e2, e3, 0, b - 1), good);
    } else {
      ExtLenGives(p, pkt, s, rule, i, e1, e2, 0, b, false, good);
    }
  }

  lemma ExtPartGives(p: Program, pkt: Packet, s: seq<byte>, rule: PopRule, i: nat, e1: nat, e2: nat, b: int, good: bool)
    requires e2 < 0x2_0000 && (good <==> ExtPart(s, i, e1, e2, b))
    ensures Gives(p, pkt, s, rule, S_EXT_CHECK, i, [e1, e2], 0, b, good, e1)
  {
    hide Tlv, Gives;
    var mid := Block(s, i, e1, e2, b - 1);
    BlockGives(p, pkt, s, rule, i, e1, e2, b - 1, mid);
    ExtCheckGives(p, pkt, s, rule, i, e1, e2, b, mid, good);
  }

  lemma CompPartGives(p: Program, pkt: Packet, s: seq<byte>, rule: PopRule, i: nat, e1: nat, e2: nat, b: int, good: bool)
    requires e2 < 0x2_0000 && (good <==> CompPart(s, i, e1, e2, b))
    ensures Gives(p, pkt, s, rule, S_COMP_LEN, i, [e1, e2], 0, b, good, e1)
  {
    hide ExtPart, Gives, GivesWith;
    if i + 1 <= |s| {
      var n := U8(s, i);
      var rest := b >= 2 && Fits(s, e2, i + 1 + n) && ExtPart(s, i + 1 + n, e1, e2, b - 2);
      CompGives(p, pkt, s, rule, i + 1, e1, e2, n, b - 1, rest);
      CompLenGives(p, pkt, s, rule, i, e1, e2, n, b, rest, good);
    } else {
      CompLenGives(p, pkt, s, rule, i, e1, e2, 0, b, false, good);
    }
  }

  lemma CompGives(p: Program, pkt: Packet, s: seq<byte>, rule: PopRule, i: nat, e1: nat, e2: nat, n: nat, b: int, good: bool)
    requires e2 < 0x2_0000 && n < 0x1_0000 && (good <==> b >= 1 && Fits(s, e2, i + n) && ExtPart(s, i + n, e1, e2, b - 1))
    ensures GivesWith(p, pkt, s, rule, S_COMP, i, [e1, e2], 0, COMP_LEN, 0, n, b, good, e1)
  {
    hide ExtPart, Gives, GivesWith;
    var yes := ExtPart(s, i + n, e1, e2, b - 1);
    ExtPartGives(p, pkt, s, rule, i + n, e1, e2, b - 1, yes);
    RunGives(p, pkt, s, rule, S_COMP, COMP, COMP_LEN, 0, S_EXT_CHECK, i, [e1, e2], 0, n, b, yes, good, e1);
  }

  lemma CompLenGives(
    p: Program, pkt: Packet, s: seq<byte>, rule: PopRule, i: nat, e1: nat, e2: nat, n: nat, b: int, yes: bool, good: bool)
    requires i + 1 <= |s| ==>
               n == U8(s, i) && GivesWith(p, pkt, s, rule, S_COMP, i + 1, [e1, e2], 0, COMP_LEN, 0, n, b - 1, yes, e1)
    requires good <==> b >= 1 && Fits(s, e2, i + 1) && n != 0 && yes
    ensures Gives(p, pkt, s, rule, S_COMP_LEN, i, [e1, e2], 0, b, good, e1)
  {
    forall c | b >= 0 && Ready(p, pkt, s, c, i, [e1, e2], 0)
      ensures Answers(RunFrom(p, pkt, rule, S_COMP_LEN, c, b), good, e1)
    {
      StateAt(p, S_COMP_LEN, 22);
      var d := CompLenStep(p, pkt, s, rule, S_COMP_LEN, S_COMP, c, i, [e1, e2]);
      Enters(p, pkt, rule, S_COMP_LEN, c, b);
    }
  }

  lemma SidLenGives(
    p: Program, pkt: Packet, s: seq<byte>, rule: PopRule, i: nat, e1: nat, e2: nat, n: nat, b: int, yes: bool, good: bool)
    requires i + 1 <= |s| ==>
               n == U8(s, i) && GivesWith(p, pkt, s, rule, S_SID, i + 1, [e1, e2], 0, SID_LEN, 0, n, b - 1, yes, e1)
    requires good <==> b >= 1 && Fits(s, e2, i + 1) && n <= 32 && yes
    ensures Gives(p, pkt, s, rule, S_SID_LEN, i, [e1, e2], 0, b, good, e1)
  {
    forall c | b >= 0 && Ready(p, pkt, s, c, i, [e1, e2], 0)
      ensures Answers(RunFrom(p, pkt, rule, S_SID_LEN, c, b), good, e1)
    {
      StateAt(p, S_SID_LEN, 22);
      var d := SidLenStep(p, pkt, s, rule, S_SID_LEN, S_SID, c, i, [e1, e2]);
      Enters(p, pkt, rule, S_SID_LEN, c, b);
    }
  }

  /** Two states: the length and its parity. */
  lemma CsLenGives(
    p: Program, pkt: Packet, s: seq<byte>, rule: PopRule, i: nat, e1: nat, e2: nat, n: nat, b: int, yes: bool, good: bool)
    requires i + 2 <= |s| ==>
               n == U16(s, i) && GivesWith(p, pkt, s, rule, S_CS, i + 2, [e1, e2], 0, CS_LEN, 0, n, b - 2, yes, e1)
    requires good <==> b >= 2 && Fits(s, e2, i + 2) && n != 0 && n % 2 == 0 && yes
    ensures Gives(p, pkt, s, rule, S_CS_LEN, i, [e1, e2], 0, b, good, e1)
  {
    hide RunFrom, Ready;
    forall c | b >= 0 && Ready(p, pkt, s, c, i, [e1, e2], 0)
      ensures Answers(RunFrom(p, pkt, rule, S_CS_LEN, c, b), good, e1)
    {
      var d := CsLenEnters(p, pkt, s, rule, c, i, e1, e2, b);
      if b >= 1 && Fits(s, e2, i + 2) && n != 0 {
        ParityAnswers(p, pkt, s, rule, d, i + 2, e1, e2, n, b - 1, yes);
      }
    }
  }

  lemma CsLenEnters(p: Program, pkt: Packet, s: seq<byte>, rule: PopRule, c: Config, i: nat, e1: nat, e2: nat, b: nat)
    returns (d: Config)
    requires Ready(p, pkt, s, c, i, [e1, e2], 0)
    ensures var r := RunFrom(p, pkt, rule, S_CS_LEN, c, b);
            if b >= 1 && Fits(s, e2, i + 2) && U16(s, i) != 0 then
              r == RunFrom(p, pkt, rule, S_CS_PARITY, d, b - 1) && Ready(p, pkt, s, d, i + 2, [e1, e2], 0)
              && Has(d.env, CS_LEN, 0, U16(s, i)) && CS_ODD in d.meta && d.meta[CS_ODD] == U16(s, i) % 2
            else r.outcome.Rejected?
  {
    StateAt(p, S_CS_LEN, 22);
    d := CsLenStep(p, pkt, s, rule, S_CS_LEN, S_CS_PARITY, c, i, [e1, e2]);
    Enters(p, pkt, rule, S_CS_LEN, c, b);
  }

  lemma ParityAnswers(
    p: Program, pkt: Packet, s: seq<byte>, rule: PopRule, c: Config, i: nat, e1: nat, e2: nat, n: nat, b: nat, yes: bool)
    requires Ready(p, pkt, s, c, i, [e1, e2], 0) && Has(c.env, CS_LEN, 0, n) && CS_ODD in c.meta && c.meta[CS_ODD] == n % 2
    requires GivesWith(p, pkt, s, rule, S_CS, i, [e1, e2], 0, CS_LEN, 0, n, b - 1, yes, e1)
    ensures Answers(RunFrom(p, pkt, rule, S_CS_PARITY, c, b), b >= 1 && n % 2 == 0 && yes, e1)
  {
    StateAt(p, S_CS_PARITY, 22);
    CsParityStep(p, pkt, rule, S_CS_PARITY, S_CS, c, n % 2);
    Enters(p, pkt, rule, S_CS_PARITY, c, b);
  }

  lemma CsPartGives(p: Program, pkt: Packet, s: seq<byte>, rule: PopRule, i: nat, e1: nat, e2: nat, b: int, good: bool)
    requires e2 < 0x2_0000 && (good <==> CsPart(s, i, e1, e2, b))
    ensures Gives(p, pkt, s, rule, S_CS_LEN, i, [e1, e2], 0, b, good, e1)
  {
    hide CompPart, Gives, GivesWith;
    if i + 2 <= |s| {
      var n := U16(s, i);
      var rest := b >= 3 && Fits(s, e2, i + 2 + n) && CompPart(s, i + 2 + n, e1, e2, b - 3);
      CsGives(p, pkt, s, rule, i + 2, e1, e2, n, b - 2, rest);
      CsLenGives(p, pkt, s, rule, i, e1, e2, n, b, rest, good);
    } else {
      CsLenGives(p, pkt, s, rule, i, e1, e2, 0, b, false, good);
    }
  }

  lemma CsGives(p: Program, pkt: Packet, s: seq<byte>, rule: PopRule, i: nat, e1: nat, e2: nat, n: nat, b: int, good: bool)
    requires e2 < 0x2_0000 && n < 0x1_0000 && (good <==> b >= 1 && Fits(s, e2, i + n) && CompPart(s, i + n, e1, e2, b - 1))
    ensures GivesWith(p, pkt, s, rule, S_CS, i, [e1, e2], 0, CS_LEN, 0, n, b, good, e1)
  {
    hide CompPart, Gives, GivesWith;
    var yes := CompPart(s, i + n, e1, e2, b - 1);
    CompPartGives(p, pkt, s, rule, i + n, e1, e2, b - 1, yes);
    RunGives(p, pkt, s, rule, S_CS, CS, CS_LEN, 0, S_COMP_LEN, i, [e1, e2], 0, n, b, yes, good, e1);
  }

  lemma SidPartGives(p: Program, pkt: Packet, s: seq<byte>, rule: PopRule, i: nat, e1: nat, e2: nat, b: int, good: bool)
    requires e2 < 0x2_0000 && (good <==> SidPart(s, i, e1, e2, b))
    ensures Gives(p, pkt, s, rule, S_SID_LEN, i, [e1, e2], 0, b, good, e1)
  {
    hide CsPart, Gives, GivesWith;
    if i + 1 <= |s| {
      var n := U8(s, i);
      var rest := b >= 2 && Fits(s, e2, i + 1 + n) && CsPart(s, i + 1 + n, e1, e2, b - 2);
      SidGives(p, pkt, s, rule, i + 1, e1, e2, n, b - 1, rest);
      SidLenGives(p, pkt, s, rule, i, e1, e2, n, b, rest, good);
    } else {
      SidLenGives(p, pkt, s, rule, i, e1, e2, 0, b, false, good);
    }
  }

  lemma SidGives(p: Program, pkt: Packet, s: seq<byte>, rule: PopRule, i: nat, e1: nat, e2: nat, n: nat, b: int, good: bool)
    requires e2 < 0x2_0000 && n < 0x1_0000 && (good <==> b >= 1 && Fits(s, e2, i + n) && CsPart(s, i + n, e1, e2, b - 1))
    ensures GivesWith(p, pkt, s, rule, S_SID, i, [e1, e2], 0, SID_LEN, 0, n, b, good, e1)
  {
    hide CsPart, Gives, GivesWith;
    var yes := CsPart(s, i + n, e1, e2, b - 1);
    CsPartGives(p, pkt, s, rule, i + n, e1, e2, b - 1, yes);
    RunGives(p, pkt, s, rule, S_SID, SID, SID_LEN, 0, S_CS_LEN, i, [e1, e2], 0, n, b, yes, good, e1);
  }

  lemma BodyPartGives(p: Program, pkt: Packet, s: seq<byte>, rule: PopRule, i: nat, e1: nat, e2: nat, b: int, good: bool)
    requires e2 < 0x2_0000 && (good <==> BodyPart(s, i, e1, e2, b))
    ensures Gives(p, pkt, s, rule, S_FIXED, i, [e1, e2], 0, b, good, e1)
  {
    hide SidPart, Gives;
    var yes := SidPart(s, i + 34, e1, e2, b - 1);
    SidPartGives(p, pkt, s, rule, i + 34, e1, e2, b - 1, yes);
    FixedGives(p, pkt, s, rule, i, e1, e2, b, yes, good);
  }

  lemma FixedGives(p: Program, pkt: Packet, s: seq<byte>, rule: PopRule, i: nat, e1: nat, e2: nat, b: int, yes: bool, good: bool)
    requires Gives(p, pkt, s, rule, S_SID_LEN, i + 34, [e1, e2], 0, b - 1, yes, e1)
    requires good <==> b >= 1 && Fits(s, e2, i + 34) && yes
    ensures Gives(p, pkt, s, rule, S_FIXED, i, [e1, e2], 0, b, good, e1)
  {
    forall c | b >= 0 && Ready(p, pkt, s, c, i, [e1, e2], 0)
      ensures Answers(RunFrom(p, pkt, rule, S_FIXED, c, b), good, e1)
    {
      StateAt(p, S_FIXED, 22);
      var d := FixedStep(p, pkt, s, rule, S_FIXED, S_SID_LEN, c, i, [e1, e2]);
      Enters(p, pkt, rule, S_FIXED, c, b);
    }
  }

  lemma HsGives(
    p: Program, pkt: Packet, s: seq<byte>, rule: PopRule, i: nat, e1: nat, e2: nat, b: int, yes: bool, good: bool)
    requires i + 4 <= |s| ==> e2 == i + 4 + U24(s, i + 1)
    requires i + 4 <= |s| && e2 <= e1 ==> Gives(p, pkt, s, rule, S_FIXED, i + 4, [e1, e2], 0, b - 1, yes, e1)
    requires i < 0x1000 && (good <==> b >= 1 && i + 4 <= e1 && i + 4 <= |s| && U8(s, i) == 1 && e2 <= e1 && yes)
    ensures Gives(p, pkt, s, rule, S_HS, i, [e1], 0, b, good, e1)
  {
    forall c | b >= 0 && Ready(p, pkt, s, c, i, [e1], 0)
      ensures Answers(RunFrom(p, pkt, rule, S_HS, c, b), good, e1)
    {
      StateAt(p, S_HS, 22);
      var d := HsStep(p, pkt, s, rule, S_HS, S_FIXED, c, i, e1);
      Enters(p, pkt, rule, S_HS, c, b);
    }
  }

  lemma HsPartGives(p: Program, pkt: Packet, s: seq<byte>, rule: PopRule, i: nat, e1: nat, b: int)
    requires e1 < 0x2_0000 && i < 0x1000
    ensures Gives(p, pkt, s, rule, S_HS, i, [e1], 0, b, HsPart(s, i, e1, b), e1)
  {
    hide BodyPart, Gives;
    var e2, yes := 0, false;
    if i + 4 <= |s| {
      e2 := i + 4 + U24(s, i + 1);
      yes := BodyPart(s, i + 4, e1, e2, b - 1);
      if e2 <= e1 {
        BodyPartGives(p, pkt, s, rule, i + 4, e1, e2, b - 1, yes);
      }
    }
    HsGives(p, pkt, s, rule, i, e1, e2, b, yes, HsPart(s, i, e1, b));
  }

  lemma RecverAnswers(p: Program, pkt: Packet, s: seq<byte>, rule: PopRule, c: Config, i: nat, e1: nat, v: nat, b: nat)
    requires Ready(p, pkt, s, c, i, [e1], 0) && Has(c.env, RECORD, 1, v) && i < 0x1000
    ensures Answers(RunFrom(p, pkt, rule, S_RECVER, c, b), b >= 1 && v == 3 && HsPart(s, i, e1, b - 1), e1)
  {
    hide HsPart;
    HsPartGives(p, pkt, s, rule, i, e1, b - 1);
    StateAt(p, S_RECVER, 22);
    RecverStep(p, pkt, rule, S_RECVER, S_HS, c, v);
    Enters(p, pkt, rule, S_RECVER, c, b);
  }

  lemma RecordEnters(p: Program, pkt: Packet, s: seq<byte>, rule: PopRule, cfg: Config, b: nat) returns (c: Config)
    requires Describes(p) && Holds(pkt, s) && cfg.pos == 0 && cfg.regions == [] && SeenIs(cfg, 0)
    ensures var r := RunFrom(p, pkt, rule, S_RECORD, cfg, b);
            if b >= 1 && |s| >= 5 && U8(s, 0) == 0x16 then
              r == RunFrom(p, pkt, rule, S_RECVER, c, b - 1) && Ready(p, pkt, s, c, 5, [5 + U16(s, 3)], 0)
              && Has(c.env, RECORD, 1, U8(s, 1))
            else r.outcome.Rejected?
  {
    StateAt(p, S_RECORD, 22);
    c := RecordStep(p, pkt, s, rule, S_RECORD, S_RECVER, cfg);
    Enters(p, pkt, rule, S_RECORD, cfg, b);
  }

  lemma RecordAnswers(p: Program, pkt: Packet, s: seq<byte>, rule: PopRule, cfg: Config, e1: nat, b: nat)
    requires Describes(p) && Holds(pkt, s) && cfg.pos == 0 && cfg.regions == [] && SeenIs(cfg, 0)
    requires |s| >= 5 ==> e1 == 5 + U16(s, 3)
    ensures Answers(RunFrom(p, pkt, rule, S_RECORD, cfg, b), Recognised(s, b), e1)
  {
    hide HsPart, Ready, RunFrom, Holds, SeenIs, Describes;
    var c := RecordEnters(p, pkt, s, rule, cfg, b);
    if b >= 1 && |s| >= 5 && U8(s, 0) == 0x16 {
      RecverAnswers(p, pkt, s, rule, c, 5, e1, U8(s, 1), b - 1);
    }
  }

  /** For every packet and budget the machine accepts what the recogniser does, and then
      consumes the record; otherwise it rejects. */
  lemma ParseAnswers(p: Program, pkt: Packet, s: seq<byte>, rule: PopRule, e1: nat)
    requires Describes(p) && s == BytesOf(pkt) && (|s| >= 5 ==> e1 == 5 + U16(s, 3))
    ensures Answers(Parse(p, pkt, rule), Recognised(s, p.maxDepth), e1)
  {
    HoldsOwn(pkt);
    RecordAnswers(p, pkt, s, rule, Initial(p), e1, p.maxDepth);
  }
}
