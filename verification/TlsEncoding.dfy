/** One ClientHello in one record (section 4.1.2 of RFC 8446, section 3 of RFC 6066), its
    encoding, and the theorem that tls_clienthello accepts exactly these encodings. */
module TlsEncoding {
  import opened Bits
  import opened Ir
  import opened Semantics
  import opened Steps
  import opened WholeBytes
  import opened TlsClienthello
  import opened TlsGrammar

  // ---- The encoding ----

  datatype Ext = Other(typ: nat, body: seq<byte>) | ServerName(host: seq<byte>)

  datatype Hello = Hello(
    minor: byte, version: seq<byte>, random: seq<byte>, session: seq<byte>, ciphers: seq<byte>,
    compressions: seq<byte>, extensions: Option<seq<Ext>>)

  function Be16(n: nat): (x: seq<byte>)
    requires n < 0x1_0000
    ensures |x| == 2
  {
    [n / 256, n % 256]
  }

  function Be24(n: nat): (x: seq<byte>)
    requires n < 0x100_0000
    ensures |x| == 3
  {
    [n / 0x1_0000, n / 256 % 256, n % 256]
  }

  predicate ValidExt(x: Ext) {
    match x
    case Other(typ, body) => 0 < typ < 0x1_0000 && |body| < 0x1_0000
    case ServerName(host) => |host| + 5 < 0x1_0000
  }

  function ExtType(x: Ext): nat {
    if x.Other? then x.typ else 0
  }

  function ExtLen(x: Ext): nat {
    if x.Other? then |x.body| else |x.host| + 5
  }

  /** A server_name list of one host_name. */
  function EncodeName(host: seq<byte>): (e: seq<byte>)
    requires |host| + 5 < 0x1_0000
    ensures |e| == |host| + 5
  {
    Be16(|host| + 3) + [0] + Be16(|host|) + host
  }

  function ExtData(x: Ext): (d: seq<byte>)
    requires ValidExt(x)
    ensures |d| == ExtLen(x)
  {
    if x.Other? then x.body else EncodeName(x.host)
  }

  function EncodeExt(x: Ext): (e: seq<byte>)
    requires ValidExt(x)
    ensures |e| == 4 + ExtLen(x)
  {
    Be16(ExtType(x)) + Be16(ExtLen(x)) + ExtData(x)
  }

  predicate ValidExts(xs: seq<Ext>) {
    forall x | x in xs :: ValidExt(x)
  }

  function EncodeExts(xs: seq<Ext>): seq<byte>
    requires ValidExts(xs)
  {
    if xs == [] then [] else EncodeExt(xs[0]) + EncodeExts(xs[1..])
  }

  function Names(xs: seq<Ext>): nat {
    if xs == [] then 0 else (if xs[0].ServerName? then 1 else 0) + Names(xs[1..])
  }

  /** States the extensions cost: 3 each, 6 for a server_name. */
  function ExtsCost(xs: seq<Ext>): nat {
    if xs == [] then 0 else (if xs[0].ServerName? then 6 else 3) + ExtsCost(xs[1..])
  }

  // ---- Slices that spell something ----

  predicate Spells(s: seq<byte>, i: nat, e: nat, x: seq<byte>) {
    i <= e <= |s| && s[i..e] == x
  }

  lemma SpellsCat(s: seq<byte>, i: nat, e: nat, a: seq<byte>, b: seq<byte>)
    ensures Spells(s, i, e, a + b) <==> Spells(s, i, i + |a|, a) && Spells(s, i + |a|, e, b)
  {
    var m := i + |a|;
    if Spells(s, i, e, a + b) {
      assert s[i..e][..|a|] == a;
      assert s[i..m] == s[i..e][..|a|];
      assert s[i..e][|a|..] == b;
      assert s[m..e] == s[i..e][|a|..];
    }
    if Spells(s, i, m, a) && Spells(s, m, e, b) {
      assert s[i..e] == s[i..m] + s[m..e];
    }
  }

  lemma SpellsBe16(s: seq<byte>, i: nat, n: nat)
    requires n < 0x1_0000
    ensures Spells(s, i, i + 2, Be16(n)) <==> i + 2 <= |s| && U16(s, i) == n
  {
    if i + 2 <= |s| {
      assert s[i..i + 2] == [s[i], s[i + 1]];
    }
  }

  lemma SpellsBe24(s: seq<byte>, i: nat, n: nat)
    requires n < 0x100_0000
    ensures Spells(s, i, i + 3, Be24(n)) <==> i + 3 <= |s| && U24(s, i) == n
  {
    if i + 3 <= |s| {
      assert s[i..i + 3] == [s[i], s[i + 1], s[i + 2]];
      assert U24(s, i) == n <==> s[i + 2] == n % 256 && U16(s, i) == n / 256;
      assert U16(s, i) == n / 256 <==> s[i] == n / 0x1_0000 && s[i + 1] == n / 256 % 256;
    }
  }

  /** A run after a one-byte length. */
  lemma SpellsShort(s: seq<byte>, i: nat, e: nat, x: seq<byte>, rest: seq<byte>)
    requires |x| < 256
    ensures Spells(s, i, e, [|x|] + x + rest)
       <==> i + 1 <= |s| && U8(s, i) == |x| && Spells(s, i + 1, i + 1 + |x|, x) && Spells(s, i + 1 + |x|, e, rest)
  {
    SpellsCat(s, i, e, [|x|] + x, rest);
    SpellsCat(s, i, i + 1 + |x|, [|x|], x);
  }

  // ---- Extensions ----

  lemma SpellsExt(s: seq<byte>, i: nat, t: nat, n: nat, data: seq<byte>)
    requires t < 0x1_0000 && n == |data| < 0x1_0000
    ensures Spells(s, i, i + 4 + n, Be16(t) + Be16(n) + data)
       <==> i + 4 <= |s| && U16(s, i) == t && U16(s, i + 2) == n && Spells(s, i + 4, i + 4 + n, data)
  {
    SpellsCat(s, i, i + 4 + n, Be16(t) + Be16(n), data);
    SpellsCat(s, i, i + 4, Be16(t), Be16(n));
    SpellsBe16(s, i, t);
    SpellsBe16(s, i + 2, n);
  }

  lemma SpellsName(s: seq<byte>, i: nat, host: seq<byte>)
    requires |host| + 5 < 0x1_0000
    ensures Spells(s, i, i + |host| + 5, EncodeName(host))
       <==> && i + 5 <= |s| && U16(s, i) == |host| + 3 && U8(s, i + 2) == 0 && U16(s, i + 3) == |host|
            && Spells(s, i + 5, i + 5 + |host|, host)
  {
    SpellsCat(s, i, i + |host| + 5, Be16(|host| + 3) + [0] + Be16(|host|), host);
    SpellsCat(s, i, i + 5, Be16(|host| + 3) + [0], Be16(|host|));
    SpellsCat(s, i, i + 3, Be16(|host| + 3), [0]);
    SpellsBe16(s, i, |host| + 3);
    SpellsBe16(s, i + 3, |host|);
  }

  /** A well-formed extension is the encoding of one. */
  lemma ReadExt(s: seq<byte>, i: nat, end: nat, seen: nat) returns (x: Ext)
    requires ExtOk(s, i, end, seen)
    ensures ValidExt(x) && ExtLen(x) == U16(s, i + 2) && Spells(s, i, i + 4 + ExtLen(x), EncodeExt(x))
    ensures x.ServerName? <==> U16(s, i) == 0
  {
    var n := U16(s, i + 2);
    if U16(s, i) == 0 {
      x := ServerName(s[i + 9..i + 4 + n]);
      SpellsName(s, i + 4, x.host);
    } else {
      x := Other(U16(s, i), s[i + 4..i + 4 + n]);
    }
    SpellsExt(s, i, ExtType(x), n, ExtData(x));
  }

  /** And the encoding of an extension is well formed. */
  lemma WrittenExt(s: seq<byte>, i: nat, end: nat, seen: nat, x: Ext)
    requires ValidExt(x) && Spells(s, i, i + 4 + ExtLen(x), EncodeExt(x))
    requires i + 4 + ExtLen(x) <= end && (x.ServerName? ==> seen == 0)
    ensures ExtOk(s, i, end, seen) && U16(s, i + 2) == ExtLen(x) && (x.ServerName? <==> U16(s, i) == 0)
  {
    SpellsExt(s, i, ExtType(x), ExtLen(x), ExtData(x));
    if x.ServerName? {
      SpellsName(s, i + 4, x.host);
    }
  }

  lemma {:induction false} TlvReads(s: seq<byte>, i: nat, e1: nat, e2: nat, e3: nat, seen: nat, b: int) returns (xs: seq<Ext>)
    requires Tlv(s, i, e1, e2, e3, seen, b) && i <= |s| && seen <= 1
    ensures e1 == e3 && e2 == e3 && ValidExts(xs) && Spells(s, i, e3, EncodeExts(xs))
    ensures Names(xs) + seen <= 1 && ExtsCost(xs) + 2 <= b
    decreases b
  {
    xs := [];
    if i != e3 {
      var x := ReadExt(s, i, e3, seen);
      var next := i + 4 + ExtLen(x);
      var rest := TlvReads(s, next, e1, e2, e3, SeenAfter(U16(s, i), seen), b - 1 - ExtCost(U16(s, i)));
      xs := [x] + rest;
      SpellsCat(s, i, e3, EncodeExt(x), EncodeExts(rest));
    }
  }

  ghost predicate Written(s: seq<byte>, i: nat, e: nat, seen: nat, b: int, xs: seq<Ext>) {
    ValidExts(xs) && Spells(s, i, e, EncodeExts(xs)) && Names(xs) + seen <= 1 && ExtsCost(xs) + 2 <= b
  }

  lemma WrittenHead(s: seq<byte>, i: nat, e: nat, seen: nat, b: int, xs: seq<Ext>) returns (next: nat, after: nat, left: int)
    requires Written(s, i, e, seen, b, xs) && xs != []
    ensures ExtOk(s, i, e, seen) && next == i + 4 + U16(s, i + 2) && after == SeenAfter(U16(s, i), seen)
    ensures left == b - 1 - ExtCost(U16(s, i)) && left >= 0 && Written(s, next, e, after, left, xs[1..])
  {
    var x := xs[0];
    HeadSpells(s, i, e, xs);
    WrittenExt(s, i, e, seen, x);
    next, after, left := i + 4 + ExtLen(x), if x.ServerName? then 1 else seen, b - if x.ServerName? then 6 else 3;
  }

  lemma HeadSpells(s: seq<byte>, i: nat, e: nat, xs: seq<Ext>)
    requires ValidExts(xs) && xs != [] && Spells(s, i, e, EncodeExts(xs))
    ensures var m := i + 4 + ExtLen(xs[0]);
            m <= e && Spells(s, i, m, EncodeExt(xs[0])) && Spells(s, m, e, EncodeExts(xs[1..]))
  {
    SpellsCat(s, i, e, EncodeExt(xs[0]), EncodeExts(xs[1..]));
  }

  lemma {:induction false} TlvWritten(s: seq<byte>, i: nat, e: nat, seen: nat, b: int, xs: seq<Ext>)
    requires Written(s, i, e, seen, b, xs)
    ensures Tlv(s, i, e, e, e, seen, b)
    decreases |xs|
  {
    if xs == [] {
      assert |s[i..e]| == 0;
    } else {
      var next, after, left := WrittenHead(s, i, e, seen, b, xs);
      TlvWritten(s, next, e, after, left, xs[1..]);
    }
  }

  // ---- The whole ClientHello ----

  /** At most one server_name, in a block of less than 2^16 bytes. */
  predicate TailOk(x: Option<seq<Ext>>) {
    x.Some? ==> ValidExts(x.value) && Names(x.value) <= 1 && |EncodeExts(x.value)| < 0x1_0000
  }

  function EncodeTail(x: Option<seq<Ext>>): seq<byte>
    requires TailOk(x)
  {
    if x.None? then [] else Be16(|EncodeExts(x.value)|) + EncodeExts(x.value)
  }

  predicate CompOk(comp: seq<byte>) {
    0 < |comp| < 256
  }

  function EncodeComp(comp: seq<byte>, x: Option<seq<Ext>>): seq<byte>
    requires CompOk(comp) && TailOk(x)
  {
    [|comp|] + comp + EncodeTail(x)
  }

  predicate CiphersOk(cs: seq<byte>) {
    0 < |cs| < 0x1_0000 && |cs| % 2 == 0
  }

  function EncodeCiphers(cs: seq<byte>, comp: seq<byte>, x: Option<seq<Ext>>): seq<byte>
    requires CiphersOk(cs) && CompOk(comp) && TailOk(x)
  {
    Be16(|cs|) + cs + EncodeComp(comp, x)
  }

  function EncodeSession(sid: seq<byte>, cs: seq<byte>, comp: seq<byte>, x: Option<seq<Ext>>): seq<byte>
    requires |sid| <= 32 && CiphersOk(cs) && CompOk(comp) && TailOk(x)
  {
    [|sid|] + sid + EncodeCiphers(cs, comp, x)
  }

  predicate ValidParts(h: Hello) {
    && |h.version| == 2 && |h.random| == 32 && |h.session| <= 32
    && CiphersOk(h.ciphers) && CompOk(h.compressions) && TailOk(h.extensions)
  }

  function EncodeBody(h: Hello): seq<byte>
    requires ValidParts(h)
  {
    h.version + h.random + EncodeSession(h.session, h.ciphers, h.compressions, h.extensions)
  }

  /** The handshake message fits one record. */
  predicate Valid(h: Hello) {
    ValidParts(h) && |EncodeBody(h)| + 4 < 0x1_0000
  }

  /** A record holding exactly one handshake message holding exactly the hello. */
  function Encode(h: Hello): seq<byte>
    requires Valid(h)
  {
    var body := EncodeBody(h);
    [0x16] + [3] + [h.minor] + Be16(|body| + 4) + ([1] + Be24(|body|) + body)
  }

  /** States its parse enters. */
  function Cost(h: Hello): nat {
    if h.extensions.None? then 13 else 15 + ExtsCost(h.extensions.value)
  }

  // ---- Each part is recognised exactly when it is encoded ----

  function TailCost(x: Option<seq<Ext>>): nat {
    if x.None? then 2 else 4 + ExtsCost(x.value)
  }

  lemma TailReads(s: seq<byte>, i: nat, e1: nat, e2: nat, b: int) returns (x: Option<seq<Ext>>)
    requires ExtPart(s, i, e1, e2, b) && i <= |s|
    ensures e1 == e2 && TailOk(x) && Spells(s, i, e2, EncodeTail(x)) && TailCost(x) <= b
  {
    x := None;
    if i != e2 {
      var n := U16(s, i);
      var xs := TlvReads(s, i + 2, e1, e2, i + 2 + n, 0, b - 2);
      SpellsBe16(s, i, n);
      assert |s[i + 2..e2]| == n;
      SpellsCat(s, i, e2, Be16(n), EncodeExts(xs));
      x := Some(xs);
    }
  }

  lemma TailSpells(s: seq<byte>, i: nat, e: nat, xs: seq<Ext>, n: nat)
    requires ValidExts(xs) && n == |EncodeExts(xs)| < 0x1_0000 && Spells(s, i, e, Be16(n) + EncodeExts(xs))
    ensures i + 2 + n == e <= |s| && U16(s, i) == n && Spells(s, i + 2, e, EncodeExts(xs))
  {
    SpellsCat(s, i, e, Be16(n), EncodeExts(xs));
    SpellsBe16(s, i, n);
    assert |s[i + 2..e]| == n;
  }

  lemma ExtPartIs(s: seq<byte>, i: nat, e: nat, b: int, n: nat, tlv: bool)
    requires i + 2 + n == e <= |s| && U16(s, i) == n && b >= 2 && tlv && (tlv <==> Tlv(s, i + 2, e, e, e, 0, b - 2))
    ensures ExtPart(s, i, e, e, b)
  {
  }

  lemma TailWritten(s: seq<byte>, i: nat, e: nat, b: int, x: Option<seq<Ext>>)
    requires TailOk(x) && Spells(s, i, e, EncodeTail(x)) && TailCost(x) <= b
    ensures ExtPart(s, i, e, e, b)
  {
    if x.None? {
      assert |s[i..e]| == 0;
    } else {
      var n := |EncodeExts(x.value)|;
      TailSpells(s, i, e, x.value, n);
      TlvWritten(s, i + 2, e, 0, b - 2, x.value);
      ExtPartIs(s, i, e, b, n, true);
    }
  }

  /** The fixed part of a body that ends at byte e2: where its extension part begins. */
  function BodyEnd(s: seq<byte>, i: nat, e2: nat): Option<nat> {
    var p1 := i + 34;
    if !Fits(s, e2, p1 + 1) || U8(s, p1) > 32 then None
    else CiphersEnd(s, p1 + 1 + U8(s, p1), e2)
  }

  function CiphersEnd(s: seq<byte>, i: nat, e2: nat): Option<nat> {
    if !Fits(s, e2, i + 2) || U16(s, i) == 0 || U16(s, i) % 2 == 1 then None
    else CompEnd(s, i + 2 + U16(s, i), e2)
  }

  function CompEnd(s: seq<byte>, i: nat, e2: nat): Option<nat> {
    if !Fits(s, e2, i + 1) || U8(s, i) == 0 || !Fits(s, e2, i + 1 + U8(s, i)) then None
    else Some(i + 1 + U8(s, i))
  }

  lemma BodyPartIs(s: seq<byte>, i: nat, e1: nat, e2: nat, b: int, yes: bool)
    requires BodyEnd(s, i, e2).Some? ==> (yes <==> ExtPart(s, BodyEnd(s, i, e2).value, e1, e2, b - 8))
    ensures BodyPart(s, i, e1, e2, b) <==> b >= 8 && BodyEnd(s, i, e2).Some? && yes
  {
  }

  lemma CompStart(s: seq<byte>, i: nat, e: nat, comp: seq<byte>, rest: seq<byte>)
    requires CompOk(comp)
    ensures Spells(s, i, e, [|comp|] + comp + rest)
       <==> && CompEnd(s, i, e) == Some(i + 1 + |comp|) && Spells(s, i + 1, i + 1 + |comp|, comp)
            && Spells(s, i + 1 + |comp|, e, rest)
  {
    SpellsShort(s, i, e, comp, rest);
  }

  lemma SessionStart(s: seq<byte>, i: nat, e: nat, version: seq<byte>, random: seq<byte>, sid: seq<byte>, rest: seq<byte>)
    requires |version| == 2 && |random| == 32 && |sid| <= 32 && Spells(s, i, e, version + random + ([|sid|] + sid + rest))
    ensures BodyEnd(s, i, e) == CiphersEnd(s, i + 35 + |sid|, e) && Spells(s, i + 35 + |sid|, e, rest)
  {
    SpellsCat(s, i, e, version + random, [|sid|] + sid + rest);
    SpellsShort(s, i + 34, e, sid, rest);
  }

  lemma CiphersWrittenEnd(s: seq<byte>, i: nat, e: nat, cs: seq<byte>, comp: seq<byte>, rest: seq<byte>) returns (p4: nat)
    requires CiphersOk(cs) && CompOk(comp) && Spells(s, i, e, Be16(|cs|) + cs + ([|comp|] + comp + rest))
    ensures CiphersEnd(s, i, e) == Some(p4) && Spells(s, p4, e, rest)
  {
    CompStart(s, i + 2 + |cs|, e, comp, rest);
    p4 := i + 2 + |cs| + 1 + |comp|;
  }

  lemma BodyWrittenEnd(s: seq<byte>, i: nat, e: nat, h: Hello) returns (p4: nat)
    requires ValidParts(h) && Spells(s, i, e, EncodeBody(h))
    ensures BodyEnd(s, i, e) == Some(p4) && Spells(s, p4, e, EncodeTail(h.extensions))
  {
    SessionStart(s, i, e, h.version, h.random, h.session, EncodeCiphers(h.ciphers, h.compressions, h.extensions));
    p4 := CiphersWrittenEnd(s, i + 35 + |h.session|, e, h.ciphers, h.compressions, EncodeTail(h.extensions));
  }

  lemma CompRead(s: seq<byte>, i: nat, e: nat, rest: seq<byte>) returns (comp: seq<byte>)
    requires CompEnd(s, i, e).Some? && Spells(s, CompEnd(s, i, e).value, e, rest)
    ensures CompOk(comp) && Spells(s, i, e, [|comp|] + comp + rest)
  {
    comp := s[i + 1..CompEnd(s, i, e).value];
    CompStart(s, i, e, comp, rest);
  }

  /** A run of n bytes after a two-byte length. */
  lemma SpellsBlock(s: seq<byte>, i: nat, e: nat, x: seq<byte>, rest: seq<byte>)
    requires |x| < 0x1_0000
    ensures Spells(s, i, e, Be16(|x|) + x + rest)
       <==> i + 2 <= |s| && U16(s, i) == |x| && Spells(s, i + 2, i + 2 + |x|, x) && Spells(s, i + 2 + |x|, e, rest)
  {
    SpellsCat(s, i, e, Be16(|x|) + x, rest);
    SpellsCat(s, i, i + 2 + |x|, Be16(|x|), x);
    SpellsBe16(s, i, |x|);
  }

  lemma CiphersRead(s: seq<byte>, i: nat, e: nat, rest: seq<byte>) returns (cs: seq<byte>)
    requires CiphersEnd(s, i, e).Some? && Spells(s, i + 2 + U16(s, i), e, rest)
    ensures CiphersOk(cs) && Spells(s, i, e, Be16(|cs|) + cs + rest)
  {
    cs := s[i + 2..i + 2 + U16(s, i)];
    SpellsBlock(s, i, e, cs, rest);
  }

  lemma SessionRead(s: seq<byte>, i: nat, e: nat, rest: seq<byte>) returns (version: seq<byte>, random: seq<byte>, sid: seq<byte>)
    requires BodyEnd(s, i, e).Some? && Spells(s, i + 35 + U8(s, i + 34), e, rest)
    ensures |version| == 2 && |random| == 32 && |sid| <= 32 && Spells(s, i, e, version + random + ([|sid|] + sid + rest))
  {
    var p1 := i + 34;
    version, random, sid := s[i..i + 2], s[i + 2..p1], s[p1 + 1..p1 + 1 + U8(s, p1)];
    SpellsShort(s, p1, e, sid, rest);
    SpellsCat(s, i, e, version + random, [|sid|] + sid + rest);
    SpellsCat(s, i, p1, version, random);
  }

  lemma BodyEndParts(s: seq<byte>, i: nat, e: nat) returns (p2: nat, p3: nat)
    requires BodyEnd(s, i, e).Some?
    ensures i + 35 <= |s| && p2 == i + 35 + U8(s, i + 34) && p2 + 2 <= |s| && p3 == p2 + 2 + U16(s, p2)
    ensures CiphersEnd(s, p2, e) == BodyEnd(s, i, e) && CompEnd(s, p3, e) == BodyEnd(s, i, e)
  {
    p2 := i + 35 + U8(s, i + 34);
    p3 := p2 + 2 + U16(s, p2);
  }

  lemma BodyReads(s: seq<byte>, i: nat, e: nat, x: Option<seq<Ext>>, minor: byte) returns (h: Hello)
    requires BodyEnd(s, i, e).Some? && TailOk(x) && Spells(s, BodyEnd(s, i, e).value, e, EncodeTail(x))
    ensures h.minor == minor && h.extensions == x && ValidParts(h) && Spells(s, i, e, EncodeBody(h))
  {
    var p2, p3 := BodyEndParts(s, i, e);
    var comp := CompRead(s, p3, e, EncodeTail(x));
    var cs := CiphersRead(s, p2, e, EncodeComp(comp, x));
    var version, random, sid := SessionRead(s, i, e, EncodeCiphers(cs, comp, x));
    h := Hello(minor, version, random, sid, cs, comp, x);
  }

  lemma BodyIsRead(s: seq<byte>, i: nat, e1: nat, e2: nat, b: int, minor: byte) returns (h: Hello)
    requires BodyPart(s, i, e1, e2, b)
    ensures e1 == e2 && h.minor == minor && ValidParts(h) && Spells(s, i, e2, EncodeBody(h)) && Cost(h) <= b + 3
  {
    BodyPartIs(s, i, e1, e2, b, BodyEnd(s, i, e2).Some? && ExtPart(s, BodyEnd(s, i, e2).value, e1, e2, b - 8));
    var x := TailReads(s, BodyEnd(s, i, e2).value, e1, e2, b - 8);
    h := BodyReads(s, i, e2, x, minor);
  }

  lemma BodyIsWritten(s: seq<byte>, i: nat, e: nat, b: int, h: Hello)
    requires ValidParts(h) && Spells(s, i, e, EncodeBody(h)) && Cost(h) <= b + 3
    ensures BodyPart(s, i, e, e, b)
  {
    var p4 := BodyWrittenEnd(s, i, e, h);
    TailWritten(s, p4, e, b - 8, h.extensions);
    BodyPartIs(s, i, e, e, b, true);
  }

  lemma RecordReads(s: seq<byte>, b: int) returns (h: Hello)
    requires Recognised(s, b)
    ensures Valid(h) && Spells(s, 0, 5 + U16(s, 3), Encode(h)) && Cost(h) <= b
  {
    var e, n := 5 + U16(s, 3), U24(s, 6);
    h := BodyIsRead(s, 9, e, 9 + n, b - 3, s[2]);
    assert |s[9..e]| == n;
    RecordSpells(s, e, h);
  }

  lemma RecordWritten(s: seq<byte>, e: nat, h: Hello, b: int)
    requires Valid(h) && Spells(s, 0, e, Encode(h)) && Cost(h) <= b
    ensures Recognised(s, b) && e == 5 + U16(s, 3)
  {
    RecordSpells(s, e, h);
    assert |s[9..e]| == |EncodeBody(h)|;
    BodyIsWritten(s, 9, e, b - 3, h);
  }

  lemma RecordSpells(s: seq<byte>, e: nat, h: Hello)
    requires Valid(h)
    ensures Spells(s, 0, e, Encode(h))
       <==> && 9 <= |s| && U8(s, 0) == 0x16 && U8(s, 1) == 3 && U8(s, 2) == h.minor && U16(s, 3) == |EncodeBody(h)| + 4
            && U8(s, 5) == 1 && U24(s, 6) == |EncodeBody(h)| && Spells(s, 9, e, EncodeBody(h))
  {
    var body := EncodeBody(h);
    var n := |body|;
    SpellsCat(s, 0, e, [0x16] + [3] + [h.minor] + Be16(n + 4), [1] + Be24(n) + body);
    SpellsCat(s, 0, 5, [0x16] + [3] + [h.minor], Be16(n + 4));
    SpellsCat(s, 0, 3, [0x16] + [3], [h.minor]);
    SpellsCat(s, 0, 2, [0x16], [3]);
    SpellsCat(s, 5, e, [1] + Be24(n), body);
    SpellsCat(s, 5, 9, [1], Be24(n));
    SpellsBe16(s, 3, n + 4);
    SpellsBe24(s, 6, n);
  }

  // ---- The theorem ----

  /** The packet starts with the encoding of h. */
  predicate Carries(pkt: Packet, h: Hello) {
    Valid(h) && Encode(h) <= BytesOf(pkt)
  }

  ghost predicate Carried(pkt: Packet, b: nat) {
    exists h :: Carries(pkt, h) && Cost(h) <= b
  }

  lemma CarriedIsRecognised(pkt: Packet, s: seq<byte>, b: nat)
    requires s == BytesOf(pkt)
    ensures Recognised(s, b) <==> Carried(pkt, b)
  {
    if Recognised(s, b) {
      var h := RecordReads(s, b);
      assert Carries(pkt, h);
    }
    if Carried(pkt, b) {
      var h :| Carries(pkt, h) && Cost(h) <= b;
      CarriedWritten(pkt, s, h, b);
    }
  }

  lemma CarriedWritten(pkt: Packet, s: seq<byte>, h: Hello, b: nat)
    requires s == BytesOf(pkt) && Carries(pkt, h) && Cost(h) <= b
    ensures Recognised(s, b) && |s| >= 5 && |Encode(h)| == 5 + U16(s, 3)
  {
    RecordWritten(s, |Encode(h)|, h, b);
  }

  /** For every packet and budget: the parse accepts exactly when the packet starts with one
      record holding exactly one ClientHello whose lengths all nest exactly, with 13 states
      to spare, or 15 + 3 k + 6 s for k other and s server_name extensions; and it then
      consumes exactly that record.  Otherwise it rejects. */
  lemma AcceptsExactly(p: Program, pkt: Packet, rule: PopRule)
    requires Describes(p)
    ensures var r := Parse(p, pkt, rule);
            && (r.outcome == Accepted <==> Carried(pkt, p.maxDepth))
            && (forall h | Carries(pkt, h) && Cost(h) <= p.maxDepth :: r.consumed == 8 * |Encode(h)|)
            && (r.outcome == Accepted || r.outcome.Rejected?)
  {
    var s := BytesOf(pkt);
    ParseAnswers(p, pkt, s, rule, if |s| >= 5 then 5 + U16(s, 3) else 0);
    CarriedIsRecognised(pkt, s, p.maxDepth);
    forall h | Carries(pkt, h) && Cost(h) <= p.maxDepth
      ensures Parse(p, pkt, rule).consumed == 8 * |Encode(h)|
    {
      CarriedWritten(pkt, s, h, p.maxDepth);
    }
  }
}
