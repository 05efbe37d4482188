/** The capture file writer, and the reader whose polling loop relies on partial files. */
module Pcap {
  import opened Bits
  import opened Ir
  import opened Verdict

  const FILE_HEADER := 24
  const RECORD_HEADER := 16

  /** Version 2.4, link type Ethernet, 65535 bytes captured at most. */
  function FileHeader(): (h: seq<byte>)
    ensures |h| == FILE_HEADER
  {
    ToLittleEndian(0xA1B2_C3D4, 4) + ToLittleEndian(2, 2) + ToLittleEndian(4, 2) + ToLittleEndian(0, 4)
    + ToLittleEndian(0, 4) + ToLittleEndian(65535, 4) + ToLittleEndian(1, 4)
  }

  lemma TwoBytes(v: nat)
    ensures ToLittleEndian(v, 2) == [v % 256, v / 0x100 % 256]
  {
    Pow2Small();
    ShiftRightDivides(v, 0);
    ShiftRightDivides(v, 8);
    hide ShiftRight, Pow2;
    assert ToLittleEndian(v, 0) == [];
    assert ToLittleEndian(v, 1) == [v % 256];
  }

  lemma FourBytes(v: nat)
    ensures ToLittleEndian(v, 4) == [v % 256, v / 0x100 % 256, v / 0x1_0000 % 256, v / 0x100_0000 % 256]
  {
    TwoBytes(v);
    Pow2Small();
    ShiftRightDivides(v, 16);
    ShiftRightDivides(v, 24);
    hide ShiftRight, Pow2;
    assert ToLittleEndian(v, 3) == ToLittleEndian(v, 2) + [v / 0x1_0000 % 256];
  }

  lemma HeaderFields()
    ensures ToLittleEndian(0xA1B2_C3D4, 4) == [0xd4, 0xc3, 0xb2, 0xa1]
    ensures ToLittleEndian(2, 2) == [2, 0] && ToLittleEndian(4, 2) == [4, 0] && ToLittleEndian(0, 4) == [0, 0, 0, 0]
    ensures ToLittleEndian(65535, 4) == [0xff, 0xff, 0, 0] && ToLittleEndian(1, 4) == [1, 0, 0, 0]
  {
    hide ToLittleEndian;
    FourBytes(0xA1B2_C3D4);
    FourBytes(0);
    FourBytes(65535);
    FourBytes(1);
    TwoBytes(2);
    TwoBytes(4);
  }

  lemma FileHeaderBytes()
    ensures FileHeader() == [0xd4, 0xc3, 0xb2, 0xa1, 2, 0, 4, 0, 0, 0, 0, 0, 0, 0, 0, 0, 0xff, 0xff, 0, 0, 1, 0, 0, 0]
  {
    hide ToLittleEndian;
    HeaderFields();
    var front := ToLittleEndian(0xA1B2_C3D4, 4) + ToLittleEndian(2, 2) + ToLittleEndian(4, 2) + ToLittleEndian(0, 4);
    assert front == [0xd4, 0xc3, 0xb2, 0xa1, 2, 0, 4, 0, 0, 0, 0, 0];
  }

  /** No timestamp; the captured and the original length. */
  function RecordHeader(n: nat): (h: seq<byte>)
    ensures |h| == RECORD_HEADER
  {
    ToLittleEndian(0, 4) + ToLittleEndian(0, 4) + ToLittleEndian(n, 4) + ToLittleEndian(n, 4)
  }

  function Records(pkts: seq<seq<byte>>): seq<byte> {
    if pkts == [] then [] else RecordHeader(|pkts[0]|) + pkts[0] + Records(pkts[1..])
  }

  /** A length fits the 32-bit field. */
  predicate Packable(p: seq<byte>) {
    |p| < 0x1_0000_0000
  }

  predicate AllPackable(pkts: seq<seq<byte>>) {
    forall k | 0 <= k < |pkts| :: Packable(pkts[k])
  }

  /** Packing a longer length raises. */
  method WritePcap(pkts: seq<seq<byte>>) returns (b: Option<seq<byte>>)
    ensures b.Some? <==> AllPackable(pkts)
    ensures b.Some? ==> b.value == FileHeader() + Records(pkts)
    ensures b.Some? ==>
              b.value[..24]
              == [0xd4, 0xc3, 0xb2, 0xa1, 2, 0, 4, 0, 0, 0, 0, 0, 0, 0, 0, 0, 0xff, 0xff, 0, 0, 1, 0, 0, 0]
  {
    FileHeaderBytes();
    hide FileHeader, RecordHeader;
    assert Records(pkts[..0]) == [];
    hide Records;
    var out := FileHeader();
    var i := 0;
    while i < |pkts|
      invariant 0 <= i <= |pkts| && out == FileHeader() + Records(pkts[..i])
      invariant forall k | 0 <= k < i :: Packable(pkts[k])
    {
      if !Packable(pkts[i]) {
        return None;
      }
      RecordsSnoc(pkts[..i], pkts[i]);
      assert pkts[..i] + [pkts[i]] == pkts[..i + 1];
      ghost var before := Records(pkts[..i]);
      var record := RecordHeader(|pkts[i]|) + pkts[i];
      assert (FileHeader() + before) + record == FileHeader() + (before + record);
      out := out + record;
      i := i + 1;
    }
    assert pkts[..i] == pkts;
    b := Some(out);
  }

  lemma {:induction false} RecordsSnoc(pkts: seq<seq<byte>>, p: seq<byte>)
    ensures Records(pkts + [p]) == Records(pkts) + (RecordHeader(|p|) + p)
    decreases |pkts|
  {
    hide RecordHeader;
    if pkts == [] {
      assert (pkts + [p])[1..] == [];
    } else {
      assert (pkts + [p])[1..] == pkts[1..] + [p];
      RecordsSnoc(pkts[1..], p);
    }
  }

  /** The captured length in a record header. */
  function Captured(b: seq<byte>): nat
    requires |b| >= RECORD_HEADER
  {
    LittleEndian(b[8..12], 4)
  }

  /** The captured length is bytes 8 to 11, the lowest first. */
  lemma CapturedBytes(b: seq<byte>)
    requires |b| >= RECORD_HEADER
    ensures Captured(b) == b[8] as nat + 0x100 * b[9] as nat + 0x1_0000 * b[10] as nat + 0x100_0000 * b[11] as nat
  {
    var m := b[8..12];
    Pow2Small();
    ShiftLeftIsProduct(m[0], 0);
    ShiftLeftIsProduct(m[1], 8);
    ShiftLeftIsProduct(m[2], 16);
    ShiftLeftIsProduct(m[3], 24);
    hide ShiftLeft, Pow2;
    assert LittleEndian(m, 0) == 0;
    assert LittleEndian(m, 1) == m[0];
    assert LittleEndian(m, 2) == m[0] as nat + 0x100 * m[1] as nat;
    assert LittleEndian(m, 3) == m[0] as nat + 0x100 * m[1] as nat + 0x1_0000 * m[2] as nat;
  }

  /** Eight bytes of no timestamp, then the length twice. */
  lemma RecordBytes(n: nat)
    ensures RecordHeader(n)[..8] == [0, 0, 0, 0, 0, 0, 0, 0] && RecordHeader(n)[8..12] == RecordHeader(n)[12..]
  {
    HeaderFields();
    hide ToLittleEndian;
    FourFields(ToLittleEndian(0, 4), ToLittleEndian(n, 4));
  }

  lemma FourFields(zero: seq<byte>, len: seq<byte>)
    requires |zero| == |len| == 4
    ensures var h := zero + zero + len + len; h[..8] == zero + zero && h[8..12] == len && h[12..] == len
  {
  }

  /** The records that are complete at the front of b. */
  function ReadRecords(b: seq<byte>): seq<seq<byte>>
    decreases |b|
  {
    if |b| < RECORD_HEADER then []
    else
      var end := RECORD_HEADER + Captured(b);
      if end > |b| then [] else [b[RECORD_HEADER..end]] + ReadRecords(b[end..])
  }

  function ReadFile(b: seq<byte>): seq<seq<byte>> {
    if |b| < FILE_HEADER then [] else ReadRecords(b[FILE_HEADER..])
  }

  method ReadPcap(b: seq<byte>) returns (out: seq<seq<byte>>)
    ensures out == ReadFile(b)
  {
    out := [];
    if |b| < FILE_HEADER {
      return;
    }
    var off := FILE_HEADER;
    while off + RECORD_HEADER <= |b|
      invariant FILE_HEADER <= off <= |b| && out + ReadRecords(b[off..]) == ReadFile(b)
      decreases |b| - off
    {
      var caplen := Captured(b[off..]);
      ghost var rest := b[off..];
      off := off + RECORD_HEADER;
      if off + caplen > |b| {
        break;
      }
      assert rest[RECORD_HEADER..RECORD_HEADER + caplen] == b[off..off + caplen];
      assert rest[RECORD_HEADER + caplen..] == b[off + caplen..];
      out := out + [b[off..off + caplen]];
      off := off + caplen;
    }
  }

  // ---- Reading what was written ----

  /** How many records fit whole in the first n bytes. */
  function Whole(pkts: seq<seq<byte>>, n: nat): (k: nat)
    ensures k <= |pkts|
  {
    if pkts == [] || n < RECORD_HEADER + |pkts[0]| then 0
    else 1 + Whole(pkts[1..], n - RECORD_HEADER - |pkts[0]|)
  }

  lemma {:induction false} WholeGrows(pkts: seq<seq<byte>>, m: nat, n: nat)
    requires m <= n
    ensures Whole(pkts, m) <= Whole(pkts, n)
    decreases |pkts|
  {
    if pkts != [] && m >= RECORD_HEADER + |pkts[0]| {
      var size := RECORD_HEADER + |pkts[0]|;
      WholeGrows(pkts[1..], m - size, n - size);
    }
  }

  lemma {:induction false} WholeFile(pkts: seq<seq<byte>>)
    ensures Whole(pkts, |Records(pkts)|) == |pkts|
    decreases |pkts|
  {
    if pkts != [] {
      WholeFile(pkts[1..]);
    }
  }

  lemma CapturedIs(b: seq<byte>, p: seq<byte>)
    requires |b| >= RECORD_HEADER && Packable(p) && b[..RECORD_HEADER] == RecordHeader(|p|)
    ensures Captured(b) == |p|
  {
    hide ToLittleEndian, LittleEndian, Pow2;
    var field := ToLittleEndian(|p|, 4);
    assert b[8..12] == b[..RECORD_HEADER][8..12] == field;
    LittleEndianOf(|p|, 4, field);
    Pow2Small();
  }

  /** The reader finds exactly the records that are whole in the first n bytes. */
  lemma {:induction false} ReadsWhole(pkts: seq<seq<byte>>, n: nat)
    requires n <= |Records(pkts)| && AllPackable(pkts)
    ensures ReadRecords(Records(pkts)[..n]) == pkts[..Whole(pkts, n)]
    decreases |pkts|
  {
    hide RecordHeader, Captured;
    var b := Records(pkts)[..n];
    if n >= RECORD_HEADER {
      var p := pkts[0];
      var size := RECORD_HEADER + |p|;
      assert b[..RECORD_HEADER] == RecordHeader(|p|);
      CapturedIs(b, p);
      if n >= size {
        assert b[RECORD_HEADER..size] == p;
        assert b[size..] == Records(pkts[1..])[..n - size];
        ReadsWhole(pkts[1..], n - size);
        assert pkts[..Whole(pkts, n)] == [p] + pkts[1..][..Whole(pkts[1..], n - size)];
      }
    }
  }

  /** Packets the reader must have after n bytes of a written file. */
  function Arrived(pkts: seq<seq<byte>>, n: nat): nat {
    if n < FILE_HEADER then 0 else Whole(pkts, n - FILE_HEADER)
  }

  lemma ReadsArrived(pkts: seq<seq<byte>>, n: nat)
    requires n <= FILE_HEADER + |Records(pkts)| && AllPackable(pkts)
    ensures Arrived(pkts, n) <= |pkts| && ReadFile((FileHeader() + Records(pkts))[..n]) == pkts[..Arrived(pkts, n)]
  {
    hide FileHeader, Records, ReadRecords;
    if n >= FILE_HEADER {
      assert (FileHeader() + Records(pkts))[..n][FILE_HEADER..] == Records(pkts)[..n - FILE_HEADER];
      ReadsWhole(pkts, n - FILE_HEADER);
    }
  }

  /** Polling a growing file: each read is a prefix of the packets and of every later read,
      and the whole file gives them all. */
  lemma PartialReads(pkts: seq<seq<byte>>, m: nat, n: nat)
    requires m <= n <= FILE_HEADER + |Records(pkts)| && AllPackable(pkts)
    ensures var file := FileHeader() + Records(pkts);
            ReadFile(file[..m]) <= ReadFile(file[..n]) <= pkts && ReadFile(file) == pkts
  {
    hide ReadFile, FileHeader, Records, Whole;
    var file := FileHeader() + Records(pkts);
    ReadsArrived(pkts, m);
    ReadsArrived(pkts, n);
    ReadsArrived(pkts, |file|);
    assert file[..|file|] == file;
    WholeFile(pkts);
    if m >= FILE_HEADER {
      WholeGrows(pkts, m - FILE_HEADER, n - FILE_HEADER);
    }
  }
}
