/** The generated parse core of tlv_items: the depth loop and switch over a cursor, a one-entry
    region array indexed through its mask, a stack pointer and the result struct.  One method per
    case of the switch; each is specified for any stack pointer, so the guards that the loop never
    fires are executed and specified too. */
module TlvCore {
  import opened Bits
  import opened Ir
  import opened Semantics
  import opened WholeBytes
  import opened TlvItems

  const PK_RMASK: nat := 0

  datatype Struct = Struct(
    outcome: nat, reason: Option<Reason>, consumed: u64,
    totalPresent: bool, total: byte,
    itemPresent: bool, kind: byte, ln: byte, valOff: u64, valLen: u64)

  const ZERO: Struct := Struct(0, None, 0, false, 0, false, 0, 0, 0, 0)

  function Rejecting(o: Struct, reason: Option<Reason>, off: u64): Struct {
    o.(outcome := 1, reason := reason, consumed := off)
  }

  /** The item member holds the item whose header is at byte last. */
  predicate StoredAt(o: Struct, s: seq<byte>, last: Option<nat>) {
    match last
    case None => !o.itemPresent
    case Some(j) =>
      && j + 1 < |s| && o.itemPresent && o.kind == s[j] && o.ln == s[j + 1]
      && o.valOff == 8 * (j + 2) && o.valLen == 8 * U8(s, j + 1)
  }

  /** The struct says what the byte scan a does.  The present flags are set on entering a state,
      before anything is read. */
  predicate Says(r: Struct, a: Scanned, s: seq<byte>, depth: nat) {
    && r.consumed == 8 * a.at
    && (if a.outcome == Accepted then r.outcome == 0 && r.reason == None && StoredAt(r, s, a.last)
        else r.outcome == 1 && a.outcome.Rejected? && r.reason == Some(a.outcome.reason))
    && r.totalPresent == (depth > 0) && r.total == (if depth > 0 && s != [] then s[0] else 0)
    && r.itemPresent == (depth >= 3 && s != [] && s[0] > 0)
  }

  /** What is left to answer when the switch is about to enter state with b states left. */
  function Pending(s: seq<byte>, state: Name, i: nat, end: nat, last: Option<nat>, b: nat): Scanned {
    if b == 0 then Scanned(Rejected(MaxDepthExceeded), i, None)
    else if state == PARSE_TOTAL then Scan(s, b)
    else if state == TLV_LOOP then ScanLoop(s, i, end, last, b)
    else if state == PARSE_ITEM then ScanItem(s, i, end, b)
    else Scanned(Accepted, i, last)
  }

  /** pk_region_end[(pk_rsp - 1u) & PK_RMASK]. */
  method Top(regionEnd: array<u64>, rsp: nat) returns (end: u64)
    requires regionEnd.Length == PK_RMASK + 1
    ensures end == regionEnd[0]
  {
    end := regionEnd[BitAnd((rsp + 0xffff_ffff) % 0x1_0000_0000, PK_RMASK)];
  }

  /** The bounds checks of a byte at the cursor: region first, then buffer. */
  method ByteFits(off: u64, rsp: nat, regionEnd: array<u64>, bitLen: u64) returns (reason: Option<Reason>)
    requires regionEnd.Length == PK_RMASK + 1
    ensures reason == if rsp > 0 && Wrap(off + 8) > regionEnd[0] then Some(OutOfRegionBounds)
                      else if Wrap(off + 8) > bitLen then Some(OutOfBounds) else None
  {
    if rsp > 0 {
      var top := Top(regionEnd, rsp);
      if Wrap(off + 8) > top {
        return Some(OutOfRegionBounds);
      }
    }
    reason := if Wrap(off + 8) > bitLen then Some(OutOfBounds) else None;
  }

  /** The push block: crossing, overflow, and full-stack guards, then the masked store. */
  method PushBlock(regionEnd: array<u64>, off: u64, rsp: nat, rlen: u64) returns (reason: Option<Reason>, rsp': nat)
    requires regionEnd.Length == PK_RMASK + 1
    modifies regionEnd
    ensures reason == if rsp > 0 || rlen > 0xffff_ffff_ffff_ffff - off then Some(RegionOutOfBounds) else None
    ensures if reason.Some? then rsp' == rsp && regionEnd[0] == old(regionEnd[0])
            else rsp' == rsp + 1 && regionEnd[0] == off + rlen
  {
    rsp' := rsp;
    if rsp > 0 {
      var top := Top(regionEnd, rsp);
      if rlen > Wrap(top - off) {
        return Some(RegionOutOfBounds), rsp;
      }
    } else if rlen > 0xffff_ffff_ffff_ffff - off {
      return Some(RegionOutOfBounds), rsp;
    }
    if rsp > PK_RMASK {
      return Some(RegionOutOfBounds), rsp;
    }
    regionEnd[BitAnd(rsp, PK_RMASK)] := Wrap(off + rlen);
    reason, rsp' := None, rsp + 1;
  }

  /** case PK_S_PARSE_TOTAL. */
  method CaseTotal(buf: seq<byte>, bitLen: u64, start: u64, rsp: nat, regionEnd: array<u64>, o: Struct)
    returns (reason: Option<Reason>, off: u64, rsp': nat, out: Struct)
    requires regionEnd.Length == PK_RMASK + 1 && start <= bitLen <= 0x8000_0000_0000_0000 && bitLen <= 8 * |buf|
    modifies regionEnd
    ensures if rsp > 0 && start + 8 > old(regionEnd[0]) then
              reason == Some(OutOfRegionBounds) && off == start && out == o.(totalPresent := true)
            else if start + 8 > bitLen then reason == Some(OutOfBounds) && off == start && out == o.(totalPresent := true)
            else
              && start / 8 < |buf| && off == start + 8 && out == o.(totalPresent := true, total := buf[start / 8])
              && (if rsp > 0 then reason == Some(RegionOutOfBounds)
                  else reason == None && rsp' == 1 && regionEnd[0] == off + 8 * (buf[start / 8] as int))
  {
    off, rsp', out := start, rsp, o.(totalPresent := true);
    reason := ByteFits(off, rsp, regionEnd, bitLen);
    if reason.None? {
      out := out.(total := buf[off / 8]);
      off := Wrap(off + 8);
      var total: nat := out.total;
      var rlen := Wrap(total * 8);
      reason, rsp' := PushBlock(regionEnd, off, rsp, rlen);
    }
  }

  /** case PK_S_TLV_LOOP. */
  method CaseLoop(off: u64, rsp: nat, regionEnd: array<u64>) returns (next: Name)
    requires regionEnd.Length == PK_RMASK + 1
    ensures next == if Wrap(regionEnd[0] - off) < 8 then CLOSE else PARSE_ITEM
  {
    var top := Top(regionEnd, rsp);
    var bits := Wrap(top - off);
    ShiftByThree(bits);
    var key := ShiftRight(bits, 3);
    next := if key == 0 then CLOSE else PARSE_ITEM;
  }

  /** case PK_S_PARSE_ITEM: kind, length and value, each stored as soon as it is read. */
  method CaseItem(buf: seq<byte>, bitLen: u64, start: u64, rsp: nat, regionEnd: array<u64>, o: Struct)
    returns (reason: Option<Reason>, off: u64, out: Struct)
    requires regionEnd.Length == PK_RMASK + 1 && start <= bitLen <= 0x8000_0000_0000_0000 && bitLen <= 8 * |buf|
    requires rsp > 0 ==> start <= regionEnd[0]
    ensures reason == ItemReason(buf, bitLen, start, if rsp > 0 then Some(regionEnd[0]) else None)
    ensures off == ItemEnd(buf, bitLen, start, if rsp > 0 then Some(regionEnd[0]) else None)
    ensures out == o.(itemPresent := true, kind := out.kind, ln := out.ln, valOff := out.valOff, valLen := out.valLen)
    ensures reason.None? ==>
              && start / 8 + 1 < |buf| && out.kind == buf[start / 8] && out.ln == buf[start / 8 + 1]
              && out.valOff == start + 16 && out.valLen == 8 * (out.ln as int) && off == out.valOff + out.valLen
  {
    off, out := start, o.(itemPresent := true);
    reason := ByteFits(off, rsp, regionEnd, bitLen);
    if reason.Some? {
      return;
    }
    out := out.(kind := buf[off / 8]);
    off := Wrap(off + 8);
    reason := ByteFits(off, rsp, regionEnd, bitLen);
    if reason.Some? {
      return;
    }
    out := out.(ln := buf[off / 8]);
    off := Wrap(off + 8);
    var n: nat := out.ln;
    var vlen := Wrap(n * 8);
    if rsp > 0 {
      var top := Top(regionEnd, rsp);
      if vlen > Wrap(top - off) {
        return Some(OutOfRegionBounds), off, out;
      }
    }
    if vlen > Wrap(bitLen - off) {
      return Some(OutOfBounds), off, out;
    }
    out := out.(valOff := off, valLen := vlen);
    off := Wrap(off + vlen);
  }

  /** The first shortage of a read ending at bit e. */
  function ShortAt(e: nat, bitLen: nat, top: Option<nat>): Option<Reason> {
    if top.Some? && e > top.value then Some(OutOfRegionBounds) else if e > bitLen then Some(OutOfBounds) else None
  }

  /** Where the value of the item at bit start would end. */
  function ValueEnd(buf: seq<byte>, start: nat): nat
    requires start / 8 + 1 < |buf|
  {
    start + 16 + 8 * (buf[start / 8 + 1] as int)
  }

  function ItemReason(buf: seq<byte>, bitLen: nat, start: nat, top: Option<nat>): Option<Reason>
    requires bitLen <= 8 * |buf|
  {
    if ShortAt(start + 8, bitLen, top).Some? then ShortAt(start + 8, bitLen, top)
    else if ShortAt(start + 16, bitLen, top).Some? then ShortAt(start + 16, bitLen, top)
    else ShortAt(ValueEnd(buf, start), bitLen, top)
  }

  /** Cursor after the item, or before the read that does not fit. */
  function ItemEnd(buf: seq<byte>, bitLen: nat, start: nat, top: Option<nat>): nat
    requires bitLen <= 8 * |buf|
  {
    if ShortAt(start + 8, bitLen, top).Some? then start
    else if ShortAt(start + 16, bitLen, top).Some? then start + 8
    else if ShortAt(ValueEnd(buf, start), bitLen, top).Some? then start + 16
    else ValueEnd(buf, start)
  }

  /** case PK_S_CLOSE. */
  method CaseClose(off: u64, rsp: nat, regionEnd: array<u64>) returns (reason: Option<Reason>)
    requires regionEnd.Length == PK_RMASK + 1
    ensures reason == if rsp == 0 || off < regionEnd[0] then Some(RegionNotExhausted) else None
  {
    if rsp == 0 {
      return Some(RegionNotExhausted);
    }
    reason := if off < regionEnd[BitAnd(rsp - 1, PK_RMASK)] then Some(RegionNotExhausted) else None;
  }

  /** An item in bits is the item in bytes. */
  lemma ItemScans(buf: seq<byte>, bitLen: nat, s: seq<byte>, i: nat, end: nat, b: nat)
    requires bitLen <= 8 * |buf| && s == buf[..bitLen / 8] && i <= |s| && i <= end && b > 0
    ensures var reason, off := ItemReason(buf, bitLen, 8 * i, Some(8 * end)), ItemEnd(buf, bitLen, 8 * i, Some(8 * end));
            if reason.Some? then ScanItem(s, i, end, b) == Scanned(Rejected(reason.value), off / 8, None) && off % 8 == 0
            else
              && i + 1 < |s| && s[i] == buf[i] && s[i + 1] == buf[i + 1] && off == 8 * (i + 2 + U8(s, i + 1))
              && off <= 8 * end && off / 8 <= |s|
              && ScanItem(s, i, end, b) == ScanLoop(s, i + 2 + U8(s, i + 1), end, Some(i), b - 1)
  {
    ByteOf(i);
    if i + 1 < |s| {
      ByteOf(i + 1);
    }
  }

  lemma ByteOf(i: nat)
    ensures 8 * i / 8 == i
  {
  }

  /** What the loop knows between states. */
  ghost predicate Between(
    s: seq<byte>, state: Name, rsp: nat, top: u64, i: nat, end: nat, last: Option<nat>, depth: nat, out: Struct)
  {
    && out.outcome == 0 && out.reason == None && out.consumed == 0 && i <= |s| && state <= CLOSE
    && StoredAt(out, s, last)
    && (if state == PARSE_TOTAL then depth == 0 && i == 0 && rsp == 0 && out == ZERO && last == None
        else s != [] && rsp == 1 && top == 8 * end && end == 1 + U8(s, 0) && i <= end && out.totalPresent && out.total == s[0])
    && (last.Some? ==> depth >= 3 && s != [] && s[0] > 0)
    && (last == None && state == TLV_LOOP ==> depth == 1 && i == 1)
    && (last == None && state == PARSE_ITEM ==> depth == 2 && i == 1)
    && (state == PARSE_ITEM ==> i != end) && (state == CLOSE ==> i == end)
    && (last == None && state == CLOSE ==> i == 1)
  }

  /** For every buffer, bit length and max_depth: outcome, reason, consumed bits, present flags,
      the total and, on accept, the stored item are the byte scan's, so the description's. */
  method ParseCore(buf: seq<byte>, bitLen: u64, maxDepth: nat) returns (out: Struct)
    requires bitLen <= 8 * |buf| && bitLen <= 0x8000_0000_0000_0000
    ensures Says(out, Scan(buf[..bitLen / 8], maxDepth), buf[..bitLen / 8], maxDepth)
  {
    hide ItemReason, ItemEnd, ValueEnd, ShortAt;
    ghost var s := buf[..bitLen / 8];
    var off: u64, state: Name, rsp: nat := 0, PARSE_TOTAL, 0;
    out := ZERO;
    var regionEnd := new u64[PK_RMASK + 1](_ => 0);
    ghost var i: nat, end: nat, last: Option<nat> := 0, 0, None;
    var depth := 0;
    while depth < maxDepth
      invariant depth <= maxDepth && off == 8 * i && Between(s, state, rsp, regionEnd[0], i, end, last, depth, out)
      invariant Scan(s, maxDepth) == Pending(s, state, i, end, last, maxDepth - depth)
    {
      var reason: Option<Reason> := None;
      if state == PARSE_TOTAL {
        reason, off, rsp, out := CaseTotal(buf, bitLen, off, rsp, regionEnd, out);
        i, state := off / 8, TLV_LOOP;
        if reason.None? {
          end := 1 + U8(s, 0);
        }
      } else if state == TLV_LOOP {
        state := CaseLoop(off, rsp, regionEnd);
      } else if state == PARSE_ITEM {
        ItemScans(buf, bitLen, s, i, end, maxDepth - depth);
        reason, off, out := CaseItem(buf, bitLen, off, rsp, regionEnd, out);
        if reason.None? {
          i, last := off / 8, Some(i);
        }
        state := TLV_LOOP;
      } else {
        reason := CaseClose(off, rsp, regionEnd);
        if reason.None? {
          return out.(consumed := off);
        }
      }
      if reason.Some? {
        return Rejecting(out, reason, off);
      }
      depth := depth + 1;
    }
    out := Rejecting(out, Some(MaxDepthExceeded), off);
  }
}
