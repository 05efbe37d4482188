/** Exactly when the emitted byte loads are right: at multiples of 8, so for the fields of a state
    exactly when every byte-loaded site is aligned; and a program on which they are not. */
module ByteLoads {
  import opened Bits
  import opened Ir
  import opened Semantics
  import opened Regions
  import opened Alignment
  import opened Loads
  import opened ParseCore
  import opened WholeBytes

  // ---- One load ----

  /** Bytes first .. of the buffer are zero. */
  lemma {:induction false} ZeroLoad(buf: seq<byte>, first: nat, end: nat, s: nat)
    requires end <= |buf| && forall j | 0 <= j < end :: buf[j] == 0
    ensures InBuffer(buf, None, first, end) && LoadBytes(buf, None, first, end, s) == 0
    decreases end
  {
    if end > first {
      ZeroLoad(buf, first, end - 1, s + 8);
      ShiftLeftIsProduct(0, s);
    }
  }

  /** A byte load at cursor cur is right for the buffer. */
  ghost predicate LoadsRight(buf: seq<byte>, cur: nat, k: nat)
    requires cur + 8 * k <= 8 * |buf|
  {
    LoadsFrom(buf, cur / 8, cur, k)
  }

  /** Bytes i .. i + k of the buffer have the value of its bits from cur on. */
  ghost predicate LoadsFrom(buf: seq<byte>, i: nat, cur: nat, k: nat)
    requires i + k <= |buf| && cur + 8 * k <= 8 * |buf|
  {
    LoadBytes(buf, None, i, i + k, 0) == Read(PacketOf(buf, 8 * |buf|), cur, 8 * k)
  }

  /** Zero bytes, then one of ones. */
  function OnesAfter(n: nat): (buf: seq<byte>)
    ensures |buf| == n + 1
  {
    seq(n, j => 0) + [255]
  }

  lemma MisalignedReadsOdd(buf: seq<byte>, cur: nat, k: nat)
    requires k > 0 && cur % 8 != 0 && buf == OnesAfter(cur / 8 + k)
    ensures cur + 8 * k <= 8 * |buf| && Read(PacketOf(buf, 8 * |buf|), cur, 8 * k) % 2 == 1
  {
    hide BitSet;
    var last := cur + 8 * k - 1;
    assert last / 8 == cur / 8 + k;
    AllOnes(7 - last % 8);
  }

  lemma {:induction false} AllOnes(k: nat)
    requires k < 8
    ensures BitSet(255, k)
    decreases k
  {
    assert ShiftRight(255, 1) == 127 && ShiftRight(255, 2) == 63 && ShiftRight(255, 3) == 31 && ShiftRight(255, 4) == 15;
    assert ShiftRight(255, 5) == 7 && ShiftRight(255, 6) == 3 && ShiftRight(255, 7) == 1;
  }

  lemma AlignedLoadsRight(buf: seq<byte>, i: nat, k: nat)
    requires i + k <= |buf|
    ensures LoadsFrom(buf, i, 8 * i, k)
  {
    var pkt := PacketOf(buf, 8 * |buf|);
    BufferHolds(buf, 8 * |buf|, None);
    LoadIsRead(buf, None, pkt, 8 * i, 8 * k, i, k);
  }

  lemma MisalignedLoadsWrong(cur: nat, k: nat)
    requires k > 0 && cur % 8 != 0
    ensures var buf := OnesAfter(cur / 8 + k);
            cur + 8 * k <= 8 * |buf| && !LoadsRight(buf, cur, k)
  {
    hide Read, PacketOf;
    var buf := OnesAfter(cur / 8 + k);
    MisalignedReadsOdd(buf, cur, k);
    ZeroLoad(buf, cur / 8, cur / 8 + k, 0);
  }

  /** A byte load of k bytes at a cursor is right for every buffer exactly when the cursor is
      a multiple of 8. */
  lemma ByteLoadRightIffAligned(cur: nat, k: nat)
    requires k > 0
    ensures cur % 8 == 0 <==> forall buf: seq<byte> | cur + 8 * k <= 8 * |buf| :: LoadsRight(buf, cur, k)
  {
    if cur % 8 == 0 {
      forall buf: seq<byte> | cur + 8 * k <= 8 * |buf|
        ensures LoadsRight(buf, cur, k)
      {
        AlignedLoadsRight(buf, cur / 8, k);
      }
    } else {
      MisalignedLoadsWrong(cur, k);
    }
  }

  // ---- All loads of a state ----

  predicate FixedWidths(fs: List<FieldDecl>) {
    match fs
    case Nil => true
    case Cons(f, rest) => f.width.Fixed? && FixedWidths(rest)
  }

  predicate FixedExtracts(exs: List<Extract>) {
    match exs
    case Nil => true
    case Cons(ex, rest) => FixedWidths(ex.fields) && FixedExtracts(rest)
  }

  /** The load emitted for a field of n bits, met at cursor cur, is right for every buffer. */
  ghost predicate SiteRight(cur: nat, n: nat) {
    forall buf: seq<byte> | cur + 8 * (n / 8) <= 8 * |buf| :: LoadsRight(buf, cur, n / 8)
  }

  /** So is every byte load emitted for the fields of a header met at cursor cur. */
  ghost predicate FieldSitesRight(all: List<Extract>, entry: Residue, inst: Name, fs: List<FieldDecl>, cur: nat)
    requires FixedWidths(fs)
  {
    match fs
    case Nil => true
    case Cons(f, rest) =>
      && (ByteLoaded(all, entry, inst, f.name, f.width.bits) ==> SiteRight(cur, f.width.bits))
      && FieldSitesRight(all, entry, inst, rest, cur + f.width.bits)
  }

  ghost predicate SitesRight(all: List<Extract>, entry: Residue, exs: List<Extract>, cur: nat)
    requires FixedExtracts(exs)
  {
    match exs
    case Nil => true
    case Cons(ex, rest) =>
      && FieldSitesRight(all, entry, ex.inst, ex.fields, cur)
      && SitesRight(all, entry, rest, if ex.lookahead then cur else cur + FixedSum(ex.fields))
  }

  function FixedSum(fs: List<FieldDecl>): nat
    requires FixedWidths(fs)
  {
    match fs
    case Nil => 0
    case Cons(f, rest) => f.width.bits + FixedSum(rest)
  }

  lemma {:induction false} SumDelta(fs: List<FieldDecl>, cur: nat)
    requires FixedWidths(fs)
    ensures FieldsDelta(fs, Some(cur % 8)) == Some((cur + FixedSum(fs)) % 8)
    decreases fs
  {
    if fs.Cons? {
      SumMod8(cur, fs.head.width.bits);
      SumDelta(fs.tail, cur + fs.head.width.bits);
    }
  }

  lemma SiteExact(all: List<Extract>, entry: Residue, inst: Name, name: Name, cur: nat, n: nat)
    requires n > 0
    ensures ByteLoaded(all, entry, inst, name, n) ==> (SiteRight(cur, n) <==> cur % 8 == 0)
  {
    if n % 8 == 0 {
      ByteLoadRightIffAligned(cur, n / 8);
    }
    hide LoadsRight;
  }

  lemma {:induction false} FieldSitesExact(all: List<Extract>, entry: Residue, inst: Name, fs: List<FieldDecl>, peek: bool, cur: nat)
    requires FixedWidths(fs) && FieldShapes(fs, peek)
    ensures FieldSitesRight(all, entry, inst, fs, cur) <==> FieldSitesAligned(all, entry, inst, fs, Some(cur % 8))
    decreases fs
  {
    hide SiteRight, ByteLoaded;
    if fs.Cons? {
      var n := fs.head.width.bits;
      SiteExact(all, entry, inst, fs.head.name, cur, n);
      SumMod8(cur, n);
      FieldSitesExact(all, entry, inst, fs.tail, peek, cur + n);
    }
  }

  lemma {:induction false} SitesExact(all: List<Extract>, entry: Residue, exs: List<Extract>, cur: nat)
    requires FixedExtracts(exs) && ExtractShapes(exs)
    ensures SitesRight(all, entry, exs, cur) <==> SitesAligned(all, entry, exs, Some(cur % 8))
    decreases exs
  {
    if exs.Cons? {
      var ex := exs.head;
      FieldSitesExact(all, entry, ex.inst, ex.fields, ex.lookahead, cur);
      SumDelta(ex.fields, cur);
      SitesExact(all, entry, exs.tail, if ex.lookahead then cur else cur + FixedSum(ex.fields));
    }
  }

  /** A state of fixed fields entered at a known residue reads every byte-loaded field as the
      bits of every buffer exactly when the sites are aligned. */
  lemma LoadsRightIffSitesAligned(exs: List<Extract>, cur: nat)
    requires FixedExtracts(exs) && ExtractShapes(exs)
    ensures SitesRight(exs, Some(cur % 8), exs, cur) <==> SitesAligned(exs, Some(cur % 8), exs, Some(cur % 8))
  {
    SitesExact(exs, Some(cur % 8), exs, cur);
  }
}
