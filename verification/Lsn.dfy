/** The write-ahead log position of crates/cdc-shim, its printed form, and the parser of that form. */
module Lsn {
  import opened Base
  import opened Text
  import opened Numbers

  const WAL_SEGMENT_SIZE: nat := 0x100_0000

  datatype Wal = Wal(lsn: string, segment: nat, offset: nat)

  const ORIGIN := Wal("0/0", 0, 0)

  function PrintLsn(segment: nat, offset: nat): string { Dec(segment) + "/" + Dec(offset) }

  /** Both halves are read as decimal numbers; anything unreadable is position zero. */
  function ParseLsn(s: string): nat {
    var parts := Split(s, '/');
    if |parts| == 2 && ParseU64(parts[0]).Some? && ParseU64(parts[1]).Some?
    then ShiftOr32(ParseU64(parts[0]).value, ParseU64(parts[1]).value)
    else 0
  }

  /** Reaching the end of a segment starts the next one at offset zero, whatever the excess. */
  function Advance(w: Wal, delta: nat): Wal {
    var offset := w.offset + delta;
    if offset >= WAL_SEGMENT_SIZE then Wal(PrintLsn(w.segment + 1, 0), w.segment + 1, 0)
    else Wal(PrintLsn(w.segment, offset), w.segment, offset)
  }

  /** Bytes of log before this position. */
  function Linear(w: Wal): nat { w.segment * WAL_SEGMENT_SIZE + w.offset }

  /** The printed form is that of the numbers, and the offset lies inside the segment. */
  ghost predicate Regular(w: Wal) { w.lsn == PrintLsn(w.segment, w.offset) && w.offset < WAL_SEGMENT_SIZE }

  /** The parser or-s the halves, the upper one shifted within 64 bits. */
  lemma ParseOfPrint(segment: nat, offset: nat)
    requires segment < U64_LIMIT && offset < U64_LIMIT
    ensures ParseLsn(PrintLsn(segment, offset)) == ShiftOr32(segment, offset)
    ensures offset < U32_LIMIT ==>
      ParseLsn(PrintLsn(segment, offset)) == segment % U32_LIMIT * U32_LIMIT + offset
  {
    ParseOfDec(segment);
    ParseOfDec(offset);
    assert Join([Dec(segment), Dec(offset)][1..], '/') == Dec(offset);
    assert Join([Dec(segment), Dec(offset)], '/') == PrintLsn(segment, offset);
    SplitJoin([Dec(segment), Dec(offset)], '/');
    if offset < U32_LIMIT {
      ShiftOrIsSum(segment, offset);
    }
  }

  /** What is read of any list of parts: two readable numbers, or else zero. */
  lemma ParseOfParts(parts: seq<string>)
    requires parts != [] && forall p :: p in parts ==> '/' !in p
    ensures ParseLsn(Join(parts, '/')) ==
      if |parts| == 2 && ParseU64(parts[0]).Some? && ParseU64(parts[1]).Some?
      then ShiftOr32(ParseU64(parts[0]).value, ParseU64(parts[1]).value)
      else 0
  {
    SplitJoin(parts, '/');
  }

  /** While the segment fits the word, advancing a regular position never goes back for the parser. */
  lemma AdvanceKeepsParsed(w: Wal, delta: nat)
    requires Regular(w) && Advance(w, delta).segment < U32_LIMIT
    ensures ParseLsn(w.lsn) <= ParseLsn(Advance(w, delta).lsn)
  {
    AdvanceParsedIff(w, delta);
  }

  lemma OriginRegular()
    ensures Regular(ORIGIN)
  {
    assert Dec(0) == "0";
  }

  /**
   * From any position, also one set by hand: advancing leaves a regular position, never overshoots,
   * and goes forward in the log unless it rolls over from an offset beyond the segment.
   */
  lemma AdvanceOrdered(w: Wal, delta: nat)
    ensures Regular(Advance(w, delta)) && w.segment <= Advance(w, delta).segment
    ensures Linear(Advance(w, delta)) <= Linear(w) + delta
    ensures Linear(w) <= Linear(Advance(w, delta))
      <==> w.offset + delta < WAL_SEGMENT_SIZE || w.offset <= WAL_SEGMENT_SIZE
    ensures Linear(w) < Linear(Advance(w, delta))
      <==> if w.offset + delta < WAL_SEGMENT_SIZE then delta > 0 else w.offset < WAL_SEGMENT_SIZE
  {
  }

  /**
   * In the order of the parser: a printed position with a 32-bit offset goes forward when advanced
   * unless it rolls over from a segment whose low 32 bits are all set.
   */
  lemma AdvanceParsedIff(w: Wal, delta: nat)
    requires w.lsn == PrintLsn(w.segment, w.offset) && w.offset < U32_LIMIT && w.segment + 1 < U64_LIMIT
    ensures ParseLsn(w.lsn) <= ParseLsn(Advance(w, delta).lsn)
      <==> w.offset + delta < WAL_SEGMENT_SIZE || w.segment % U32_LIMIT != U32_LIMIT - 1
    ensures ParseLsn(w.lsn) < ParseLsn(Advance(w, delta).lsn)
      <==> if w.offset + delta < WAL_SEGMENT_SIZE then delta > 0 else w.segment % U32_LIMIT != U32_LIMIT - 1
  {
    var t := Advance(w, delta);
    ParseOfPrint(w.segment, w.offset);
    ParseOfPrint(t.segment, t.offset);
    LowHalfNext(w.segment);
    HalvesOrdered(w.segment % U32_LIMIT, w.offset, t.segment % U32_LIMIT, t.offset);
  }

  lemma LowHalfNext(n: nat)
    ensures (n + 1) % U32_LIMIT == if n % U32_LIMIT == U32_LIMIT - 1 then 0 else n % U32_LIMIT + 1
  {
  }

  lemma HalvesOrdered(a: nat, x: nat, b: nat, y: nat)
    requires x < U32_LIMIT && y < U32_LIMIT
    ensures a * U32_LIMIT + x <= b * U32_LIMIT + y <==> a < b || (a == b && x <= y)
    ensures a * U32_LIMIT + x < b * U32_LIMIT + y <==> a < b || (a == b && x < y)
  {
  }

  /** Rolling over from such a segment parses back to zero. */
  lemma ParsedWraps()
    ensures var w := Wal(PrintLsn(U32_LIMIT - 1, 0), U32_LIMIT - 1, 0);
      Regular(w) && ParseLsn(Advance(w, WAL_SEGMENT_SIZE).lsn) == 0 < ParseLsn(w.lsn)
  {
    ParseOfPrint(U32_LIMIT - 1, 0);
    ParseOfPrint(U32_LIMIT, 0);
  }

  /** A position set far beyond its segment, as `set_wal_position` allows, goes back when advanced. */
  lemma AdvanceGoesBack()
    ensures var w := Wal("0/FFFFFF0", 0, 0x0FFF_FFF0);
      Advance(w, 0x100) == Wal(PrintLsn(1, 0), 1, 0) && Linear(Advance(w, 0x100)) < Linear(w)
  {
  }

  /** The position moves by exactly `delta` if and only if the segment end is not overrun. */
  lemma AdvanceExactIff(w: Wal, delta: nat)
    ensures Linear(Advance(w, delta)) == Linear(w) + delta <==> w.offset + delta <= WAL_SEGMENT_SIZE
  {
  }

  /** A step that overruns it loses the excess: sixteen bytes short here. */
  lemma AdvanceDropsExcess()
    ensures var w := Wal(PrintLsn(0, 0xFF_FFF0), 0, 0xFF_FFF0);
      Regular(w) && Linear(Advance(w, 0x20)) + 0x10 == Linear(w) + 0x20
  {
  }
}
