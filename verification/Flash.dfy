/** The settings store in flash: sector-wise read-modify-write over memory that programming can only clear. */
module Flash {

  const SECTOR := 4096
  const MAX_WRITE := 2 * SECTOR

  datatype Error = OK | GENERIC

  function SectorDown(x: nat): (y: nat)
    ensures y <= x < y + SECTOR && y % SECTOR == 0
  {
    x / SECTOR * SECTOR
  }

  function SectorUp(x: nat): (y: nat)
    ensures x <= y < x + SECTOR && y % SECTOR == 0
  {
    (x + SECTOR - 1) / SECTOR * SECTOR
  }

  /** Whether `size` bytes at `start` touch no more sectors than the write buffer holds. */
  predicate Fits(start: nat, size: nat) {
    start % SECTOR + size <= MAX_WRITE
  }

  /** The span of whole sectors around a non-empty range is small enough exactly if the range fits. */
  lemma SpanFits(start: nat, size: nat)
    requires 0 < size
    ensures SectorUp(start + size) - SectorDown(start) <= MAX_WRITE <==> Fits(start, size)
  {
    var off := start % SECTOR;
    assert start == SectorDown(start) + off;
    assert SectorUp(start + size) == SectorDown(start) + SectorUp(off + size);
  }

  /** The contents with `data` written over position `at`. */
  function Patch(contents: seq<bv8>, at: nat, data: seq<bv8>): (after: seq<bv8>)
    requires at + |data| <= |contents|
    ensures |after| == |contents|
  {
    contents[..at] + data + contents[at + |data|..]
  }

  /** Rewriting a wider range with its own contents around the data makes no difference. */
  lemma PatchWider(contents: seq<bv8>, from: nat, at: nat, data: seq<bv8>, to: nat)
    requires from <= at && at + |data| <= to <= |contents|
    ensures Patch(contents, from, contents[from..at] + data + contents[at + |data|..to]) == Patch(contents, at, data)
  {
  }

  function Erased(size: nat): (e: seq<bv8>)
    ensures |e| == size
  {
    seq(size, _ => 0xff)
  }

  function And(a: seq<bv8>, b: seq<bv8>): (c: seq<bv8>)
    requires |a| == |b|
    ensures |c| == |a|
  {
    seq(|a|, i requires 0 <= i < |a| => a[i] & b[i])
  }

  lemma ProgramErased(data: seq<bv8>)
    ensures And(Erased(|data|), data) == data
  {
    forall i | 0 <= i < |data| ensures And(Erased(|data|), data)[i] == data[i] {
      assert 0xff & data[i] == data[i];
    }
  }

  // ---- runs of member writes, on contents ----

  /** A member of the stored layout: its place relative to the layout's begin. */
  datatype Member = Member(offset: nat, size: nat)

  /** A write of a whole member, or of the elements `first..end` of an array member with `count` elements of `elem`
      bytes each. */
  datatype Write =
    | Whole(member: Member, data: seq<bv8>)
    | Range(member: Member, count: nat, elem: nat, first: nat, end: nat, data: seq<bv8>)
  {
    /** The range is one of the array's, and not empty. */
    predicate Proper() {
      Range? ==> first < end <= count
    }

    /** Where in the member it begins. */
    function At(): nat {
      if Range? then first * elem else 0
    }

    predicate Accepted(begin: nat) {
      Proper() && Fits(begin + member.offset + At(), |data|)
    }
  }

  ghost predicate InLayout(m: Member, begin: nat, length: nat) {
    0 < m.size && begin + m.offset + m.size <= length
  }

  ghost predicate Disjoint(m: Member, n: Member) {
    m.offset + m.size <= n.offset || n.offset + n.size <= m.offset
  }

  function Value(contents: seq<bv8>, begin: nat, m: Member): (v: seq<bv8>)
    requires begin + m.offset + m.size <= |contents|
    ensures |v| == m.size
  {
    contents[begin + m.offset..begin + m.offset + m.size]
  }

  /** What one write does to the flash: all of it, or nothing when its sectors exceed the buffer. */
  function Apply(contents: seq<bv8>, begin: nat, at: nat, data: seq<bv8>): (after: seq<bv8>)
    requires begin + at + |data| <= |contents|
    ensures |after| == |contents|
  {
    if Fits(begin + at, |data|) then Patch(contents, begin + at, data) else contents
  }

  /** The data of a write is as long as what it is for. */
  ghost predicate Matches(w: Write) {
    match w
    case Whole(m, data) => |data| == m.size
    case Range(m, count, elem, first, end, data) =>
      0 < elem && m.size == count * elem && (first <= end ==> |data| == (end - first) * elem)
  }

  ghost predicate Legal(writes: seq<Write>, begin: nat, length: nat) {
    forall w :: w in writes ==> Matches(w) && InLayout(w.member, begin, length)
  }

  lemma WithinMember(w: Write)
    requires Matches(w) && w.Proper()
    ensures w.At() + |w.data| <= w.member.size
  {
    if w.Range? {
      RangeWithin(w.first, w.end, w.count, w.elem);
    }
  }

  /** The flash after a write: an empty range and one that is not the array's change nothing. */
  ghost function Do(contents: seq<bv8>, begin: nat, w: Write): (after: seq<bv8>)
    requires Matches(w) && InLayout(w.member, begin, |contents|)
    ensures |after| == |contents|
  {
    if w.Proper() then
      WithinMember(w);
      Apply(contents, begin, w.member.offset + w.At(), w.data)
    else contents
  }

  ghost function Run(contents: seq<bv8>, begin: nat, writes: seq<Write>): (after: seq<bv8>)
    requires Legal(writes, begin, |contents|)
    ensures |after| == |contents|
  {
    if writes == [] then contents
    else Do(Run(contents, begin, writes[..|writes| - 1]), begin, writes[|writes| - 1])
  }

  /** The simple map: a member holds what it held at first, with what was written to it and accepted written over it in
      turn. */
  ghost function LastWritten(contents: seq<bv8>, begin: nat, writes: seq<Write>, m: Member): (value: seq<bv8>)
    requires Legal(writes, begin, |contents|) && begin + m.offset + m.size <= |contents|
    ensures |value| == m.size
  {
    if writes == [] then Value(contents, begin, m)
    else
      var w, before := writes[|writes| - 1], LastWritten(contents, begin, writes[..|writes| - 1], m);
      if w.member == m && w.Accepted(begin) then
        WithinMember(w);
        Patch(before, w.At(), w.data)
      else before
  }

  lemma PatchAll(before: seq<bv8>, data: seq<bv8>)
    requires |before| == |data|
    ensures Patch(before, 0, data) == data
  {
  }

  /** After an accepted write of the whole member the map holds just that. */
  lemma LastWhole(contents: seq<bv8>, begin: nat, writes: seq<Write>, m: Member)
    requires Legal(writes, begin, |contents|) && InLayout(m, begin, |contents|) && writes != []
    requires var w := writes[|writes| - 1]; w.Whole? && w.member == m && w.Accepted(begin)
    ensures LastWritten(contents, begin, writes, m) == writes[|writes| - 1].data
  {
    var before := LastWritten(contents, begin, writes[..|writes| - 1], m);
    assert Matches(writes[|writes| - 1]);
    PatchAll(before, writes[|writes| - 1].data);
  }

  lemma PatchMember(contents: seq<bv8>, begin: nat, m: Member, at: nat, data: seq<bv8>)
    requires begin + m.offset + m.size <= |contents| && at + |data| <= m.size
    ensures Value(Patch(contents, begin + m.offset + at, data), begin, m) == Patch(Value(contents, begin, m), at, data)
  {
  }

  lemma PatchOther(contents: seq<bv8>, begin: nat, m: Member, n: Member, at: nat, data: seq<bv8>)
    requires begin + m.offset + m.size <= |contents| && begin + n.offset + n.size <= |contents|
    requires Disjoint(n, m) && at + |data| <= n.size
    ensures Value(Patch(contents, begin + n.offset + at, data), begin, m) == Value(contents, begin, m)
  {
  }

  lemma DoStep(contents: seq<bv8>, begin: nat, w: Write, m: Member)
    requires Matches(w) && InLayout(w.member, begin, |contents|) && InLayout(m, begin, |contents|)
    requires w.member == m || Disjoint(w.member, m)
    ensures w.member == m && w.Accepted(begin) ==> w.At() + |w.data| <= m.size
    ensures Value(Do(contents, begin, w), begin, m)
         == if w.member == m && w.Accepted(begin) then Patch(Value(contents, begin, m), w.At(), w.data)
            else Value(contents, begin, m)
  {
    if w.Accepted(begin) {
      WithinMember(w);
      if w.member == m {
        PatchMember(contents, begin, m, w.At(), w.data);
      } else {
        PatchOther(contents, begin, m, w.member, w.At(), w.data);
      }
    }
  }

  /** Over every run of writes of members and array ranges the flash behaves like that map, for members that do not
      overlap. */
  lemma {:induction false} FlashRefinesMap(contents: seq<bv8>, begin: nat, writes: seq<Write>, m: Member)
    requires Legal(writes, begin, |contents|) && InLayout(m, begin, |contents|)
    requires forall w :: w in writes ==> w.member == m || Disjoint(w.member, m)
    ensures Value(Run(contents, begin, writes), begin, m) == LastWritten(contents, begin, writes, m)
  {
    if writes != [] {
      FlashRefinesMap(contents, begin, writes[..|writes| - 1], m);
      DoStep(Run(contents, begin, writes[..|writes| - 1]), begin, writes[|writes| - 1], m);
    }
  }

  /** A byte that belongs to no written member never changes. */
  lemma {:induction false} OtherBytesUnchanged(contents: seq<bv8>, begin: nat, writes: seq<Write>, i: nat)
    requires Legal(writes, begin, |contents|) && i < |contents|
    requires forall w :: w in writes ==> i < begin + w.member.offset || begin + w.member.offset + w.member.size <= i
    ensures Run(contents, begin, writes)[i] == contents[i]
  {
    if writes != [] {
      var w := writes[|writes| - 1];
      OtherBytesUnchanged(contents, begin, writes[..|writes| - 1], i);
      if w.Proper() {
        WithinMember(w);
      }
    }
  }

  // ---- the driver ----

  /** The flash chip with the store at its very end: `begin` is the offset of the stored layout. */
  class Storage {
    const chip: array<bv8>
    const begin: nat
    const buffer: array<bv8>

    ghost predicate Valid() {
      && chip != buffer
      && buffer.Length == MAX_WRITE
      && chip.Length % SECTOR == 0
      && begin <= chip.Length < 0x1_0000_0000 - SECTOR
    }

    constructor (chip: array<bv8>, begin: nat)
      requires chip.Length % SECTOR == 0 && begin <= chip.Length < 0x1_0000_0000 - SECTOR
      ensures Valid() && this.chip == chip && this.begin == begin && fresh(buffer)
    {
      this.chip, this.begin := chip, begin;
      buffer := new bv8[MAX_WRITE](_ => 0);
    }

    /** Erasing sets every bit, unless a guard rejects the range. */
    method Erase(dst: nat, size: nat)
      requires Valid()
      modifies chip
      ensures chip[..] == if size % SECTOR == 0 && size + dst <= chip.Length
                          then Patch(old(chip[..]), dst, Erased(size)) else old(chip[..])
    {
      if size % SECTOR != 0 {
        return;
      }
      if size + dst > chip.Length {
        return;
      }
      forall i | dst <= i < dst + size {
        chip[i] := 0xff;
      }
    }

    /** Programming can only clear bits. */
    method Program(dst: nat, size: nat)
      requires Valid() && size <= buffer.Length
      modifies chip
      ensures chip[..] == if size % SECTOR == 0 && size + dst <= chip.Length
                          then Patch(old(chip[..]), dst, And(old(chip[..])[dst..dst + size], buffer[..size]))
                          else old(chip[..])
    {
      if size % SECTOR != 0 {
        return;
      }
      if size + dst > chip.Length {
        return;
      }
      forall i | dst <= i < dst + size {
        chip[i] := chip[i] & buffer[i - dst];
      }
    }

    /** Completes the buffered data to whole sectors with what the flash holds around it. */
    method Complete(startPaged: nat, startData: nat, endData: nat, endPaged: nat)
      requires Valid() && startPaged <= startData <= endData <= endPaged <= chip.Length
      requires endPaged - startPaged <= MAX_WRITE
      modifies buffer
      ensures buffer[..endPaged - startPaged]
           == chip[startPaged..startData] + old(buffer[startData - startPaged..endData - startPaged])
              + chip[endData..endPaged]
    {
      if startData != startPaged {
        forall i | 0 <= i < startData - startPaged {
          buffer[i] := chip[startPaged + i];
        }
      }
      if endData != endPaged {
        forall i | endData - startPaged <= i < endPaged - startPaged {
          buffer[i] := chip[startPaged + i];
        }
      }
    }

    /** Rewrites whole sectors with the buffer; the guards of erasing and programming do not reject them. */
    method EraseAndProgram(dst: nat, size: nat)
      requires Valid() && size <= buffer.Length && size % SECTOR == 0 && dst + size <= chip.Length
      modifies chip
      ensures chip[..] == Patch(old(chip[..]), dst, buffer[..size])
    {
      Erase(dst, size);
      assert chip[..][dst..dst + size] == Erased(size);
      ProgramErased(buffer[..size]);
      Program(dst, size);
    }

    /** Rewrites the sectors around the buffered data. */
    method WriteImpl(startPaged: nat, startData: nat, endData: nat, endPaged: nat)
      requires Valid() && startPaged <= startData <= endData <= endPaged <= chip.Length
      requires startPaged % SECTOR == 0 == endPaged % SECTOR && endPaged - startPaged <= MAX_WRITE
      modifies chip, buffer
      ensures chip[..] == Patch(old(chip[..]), startData, old(buffer[startData - startPaged..endData - startPaged]))
    {
      ghost var contents, data := chip[..], buffer[startData - startPaged..endData - startPaged];
      Complete(startPaged, startData, endData, endPaged);
      SectorSpan(startPaged, endPaged);
      EraseAndProgram(startPaged, endPaged - startPaged);
      PatchWider(contents, startPaged, startData, data, endPaged);
    }

    /** The common part of both writes: checks the sector span, buffers the data and rewrites the sectors. */
    method WriteRange(data: seq<bv8>, startData: nat) returns (err: Error)
      requires Valid() && 0 < |data| && begin <= startData && startData + |data| <= chip.Length
      modifies chip, buffer
      ensures err == OK <==> Fits(startData, |data|)
      ensures chip[..] == Apply(old(chip[..]), begin, startData - begin, data)
    {
      var startPaged := SectorDown(startData);
      var endData := startData + |data|;
      var endPaged := SectorUp(endData);
      SpanFits(startData, |data|);
      if endPaged - startPaged > MAX_WRITE {
        return GENERIC;
      }
      forall i | 0 <= i < |data| {
        buffer[startData - startPaged + i] := data[i];
      }
      assert buffer[startData - startPaged..endData - startPaged] == data;
      SectorUpWithin(endData, chip.Length);
      WriteImpl(startPaged, startData, endData, endPaged);
      return OK;
    }

    /** Writes one member. */
    method WriteMember(data: seq<bv8>, offset: nat) returns (err: Error)
      requires Valid() && 0 < |data| <= MAX_WRITE && begin + offset + |data| <= chip.Length
      modifies chip, buffer
      ensures err == OK <==> Fits(begin + offset, |data|)
      ensures chip[..] == Apply(old(chip[..]), begin, offset, data)
      ensures chip[..] == Do(old(chip[..]), begin, Whole(Member(offset, |data|), data))
    {
      err := WriteRange(data, begin + offset);
    }

    /** Writes elements `startIdx..endIdx` of an array member with `count` elements of `elem` bytes each. */
    method WriteArrayRange(data: seq<bv8>, offset: nat, count: nat, elem: nat, startIdx: nat, endIdx: nat)
      returns (err: Error)
      requires Valid() && 0 < elem && begin + offset + count * elem <= chip.Length
      requires startIdx <= endIdx ==> |data| == (endIdx - startIdx) * elem
      modifies chip, buffer
      ensures startIdx == endIdx ==> err == OK && chip[..] == old(chip[..])
      ensures startIdx != endIdx && !(startIdx < endIdx <= count) ==> err == GENERIC && chip[..] == old(chip[..])
      ensures startIdx < endIdx <= count ==>
                && offset + startIdx * elem + |data| <= offset + count * elem
                && (err == OK <==> Fits(begin + offset + startIdx * elem, |data|))
                && chip[..] == Apply(old(chip[..]), begin, offset + startIdx * elem, data)
      ensures 0 < count && (startIdx <= endIdx ==> |data| == (endIdx - startIdx) * elem) ==>
                var w := Range(Member(offset, count * elem), count, elem, startIdx, endIdx, data);
                && Matches(w) && InLayout(w.member, begin, chip.Length)
                && chip[..] == Do(old(chip[..]), begin, w)
    {
      if 0 < count {
        RangeWithin(0, count, count, elem);
      }
      if startIdx == endIdx {
        return OK;
      }
      if endIdx > count || startIdx > count || startIdx > endIdx {
        return GENERIC;
      }
      RangeWithin(startIdx, endIdx, count, elem);
      err := WriteRange(data, begin + offset + startIdx * elem);
    }

    method Read(m: Member) returns (data: seq<bv8>)
      requires Valid() && InLayout(m, begin, chip.Length)
      ensures data == Value(chip[..], begin, m)
    {
      data := chip[begin + m.offset..begin + m.offset + m.size];
    }
  }

  lemma RangeWithin(startIdx: nat, endIdx: nat, count: nat, elem: nat)
    requires startIdx < endIdx <= count && 0 < elem
    ensures startIdx * elem + (endIdx - startIdx) * elem <= count * elem
    ensures elem * (endIdx - startIdx) == (endIdx - startIdx) * elem > 0
  {
    assert startIdx * elem + (endIdx - startIdx) * elem == endIdx * elem;
    assert count * elem == endIdx * elem + (count - endIdx) * elem;
  }

  lemma SectorUpWithin(x: nat, length: nat)
    requires x <= length && length % SECTOR == 0
    ensures SectorUp(x) <= length
  {
  }

  lemma SectorSpan(a: nat, b: nat)
    requires a <= b && a % SECTOR == 0 == b % SECTOR
    ensures (b - a) % SECTOR == 0
  {
  }
}
