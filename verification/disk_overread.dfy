/** Pieces whose 32-bit range is longer than their data: the write that reads past it, and when it occurs. */
module DiskOverread {
  import opened Machine
  import opened Client
  import opened Layout
  import opened Disk
  import opened DiskContent

  ghost predicate StrictlyInside(lengths: seq<nat>, k: nat, b: nat) {
    k < |lengths| && Off(lengths, k) < b < Off(lengths, k) + lengths[k]
  }

  ghost predicate InsideAFile(lengths: seq<nat>, b: nat) {
    exists k :: 0 <= k < |lengths| && StrictlyInside(lengths, k, b)
  }

  /** The last piece, when it starts at or above 2^32 and is shorter than the others: its 32-bit range is a whole
      piece long, its data ends inside a file, and there is no empty file before that. Of sizes only. */
  ghost predicate Overread(p: Plan, i: nat) {
    var lo, size := U32(i * p.g.pieceSize), PieceSizeOf(p.g, i);
    && TWO_32 <= i * p.g.pieceSize
    && size < p.g.pieceSize && lo + p.g.pieceSize < TWO_32
    && NoEmptyFileIn(p.lengths, lo, lo + size)
    && InsideAFile(p.lengths, lo + size)
  }

  // ---- A read past the data needs such a piece ----

  lemma PartEnds(lengths: seq<nat>, lo: nat, hi: nat, segs: seq<FilePiece>, j: nat)
    requires lengths != [] && IterateF(lengths, lo, hi) == Some(segs) && j < |segs| && segs[j].bytes > 0
    ensures var k := segs[j].index;
            && k == segs[0].index + j < |lengths| && lo < hi
            && lo + segs[j].pieceOffset == Max(lo, Off(lengths, k))
            && lo + segs[j].pieceOffset + segs[j].bytes == Min(hi, Off(lengths, k) + lengths[k])
  {
    hide Off, IterateF, Segment, Touches, Overlaps;
    CutNeedsBothSearches(lengths, lo, hi);
    RangePartition(lengths, lo, hi);
    var k := segs[j].index;
    PieceOfFile(lengths, lo, hi, k);
    SegmentFacts(lengths, lo, hi, k);
    OffStep(lengths, k);
  }

  lemma EmptyFilePart(lengths: seq<nat>, lo: nat, hi: nat, segs: seq<FilePiece>, e: nat)
    requires lengths != [] && IterateF(lengths, lo, hi) == Some(segs) && e < |lengths|
    requires lengths[e] == 0 && lo < Off(lengths, e) < hi
    ensures |segs| > 0
    ensures var j := e - segs[0].index; 0 <= j < |segs| && segs[j].bytes == 0
  {
    hide Off, IterateF, Segment, Touches, Overlaps;
    PieceOfFile(lengths, lo, hi, e);
  }

  /** An empty file between the start of the range and a byte of part j would be an earlier, empty part. */
  lemma NoEmptyBefore(lengths: seq<nat>, lo: nat, hi: nat, segs: seq<FilePiece>, j: nat, b: nat)
    requires lengths != [] && IterateF(lengths, lo, hi) == Some(segs) && lo < hi <= Sum(lengths)
    requires j < |segs| && segs[j].bytes > 0 && NonEmptyUntil(segs, j)
    requires b <= lo + segs[j].pieceOffset + segs[j].bytes
    ensures NoEmptyFileIn(lengths, lo, b)
  {
    hide Off, IterateF, StartFound, Sum;
    PartEnds(lengths, lo, hi, segs, j);
    CutNeedsBothSearches(lengths, lo, hi);
    StartFoundIff(lengths, lo);
    forall e | 0 <= e < |lengths| && lengths[e] == 0
      ensures !(lo <= Off(lengths, e) < b)
    {
      NotBefore(lengths, lo, hi, segs, j, b, e);
    }
  }

  lemma NotBefore(lengths: seq<nat>, lo: nat, hi: nat, segs: seq<FilePiece>, j: nat, b: nat, e: nat)
    requires lengths != [] && IterateF(lengths, lo, hi) == Some(segs) && e < |lengths| && lengths[e] == 0
    requires j < |segs| && segs[j].bytes > 0 && NonEmptyUntil(segs, j)
    requires segs[j].index == segs[0].index + j < |lengths|
    requires b <= lo + segs[j].pieceOffset + segs[j].bytes
    requires lo + segs[j].pieceOffset + segs[j].bytes == Min(hi, Off(lengths, segs[j].index) + lengths[segs[j].index])
    requires Off(lengths, e) != lo
    ensures !(lo <= Off(lengths, e) < b)
  {
    hide Off, IterateF;
    var k := segs[j].index;
    if lo < Off(lengths, e) < b {
      EmptyFilePart(lengths, lo, hi, segs, e);
      if e > k {
        OffStep(lengths, k);
        OffMonotone(lengths, k + 1, e);
      }
    }
  }

  lemma RangeTooLong(g: Geometry, i: nat)
    requires ValidSizes(g) && i < g.count && PieceLo(g, i) < PieceHi(g, i)
    requires PieceHi(g, i) - PieceLo(g, i) > PieceSizeOf(g, i)
    ensures TWO_32 <= i * g.pieceSize && PieceSizeOf(g, i) < g.pieceSize
    ensures PieceLo(g, i) == U32(i * g.pieceSize) && PieceHi(g, i) == PieceLo(g, i) + g.pieceSize < TWO_32
  {
    PieceSizeExact(g, i);
    var start, end := i * g.pieceSize, (i + 1) * g.pieceSize;
    assert end == start + g.pieceSize;
    hide ValidSizes, PieceSizeOf;
    if end < TWO_32 {
      PieceRangeIff(g, i);
    } else if start < TWO_32 {
      CrossingPiece(g, i);
    } else {
      SumWrapped(start, g.pieceSize);
      HighPiece(g, i);
    }
    hide PieceLo, PieceHi;
  }

  lemma RangeOfPiece(g: Geometry, i: nat)
    requires ValidSizes(g) && i < g.count
    ensures PieceHi(g, i) <= g.total
  {
    hide ValidSizes;
  }

  /** Whatever is on disk, and whatever the data is: only such a piece is read past its end. */
  lemma ReadPastIsOverread(p: Plan, d: Disk, i: nat, data: seq<byte>)
    requires ValidPlan(p) && i < p.g.count && |data| == PieceSizeOf(p.g, i) && PieceReadsPast(p, d, i, data)
    ensures Overread(p, i)
  {
    hide *;
    PlanFacts(p);
    var segs, j := StoppingPart(p, d, i, data);
    var lo, hi := PieceLo(p.g, i), PieceHi(p.g, i);
    CutNeedsBothSearches(p.lengths, lo, hi);
    RangeOfPiece(p.g, i);
    PartEnds(p.lengths, lo, hi, segs, j);
    RangeEnds(p.lengths, lo, hi, segs[j].index);
    RangeTooLong(p.g, i);
    NoEmptyBefore(p.lengths, lo, hi, segs, j, lo + |data|);
    EndsInside(p.lengths, lo, hi, segs, j, lo + |data|);
    OverreadIs(p, i);
  }

  lemma StoppingPart(p: Plan, d: Disk, i: nat, data: seq<byte>) returns (segs: seq<FilePiece>, j: nat)
    requires p.lengths != [] && PieceReadsPast(p, d, i, data)
    ensures IterateF(p.lengths, PieceLo(p.g, i), PieceHi(p.g, i)) == Some(segs)
    ensures j < |segs| && NonEmptyUntil(segs, j) && segs[j].bytes > 0
    ensures segs[j].pieceOffset < |data| < segs[j].pieceOffset + segs[j].bytes
  {
    hide IterateF, PieceLo, PieceHi, WriteSegmentsF, TryCreateF;
    segs := IterateF(p.lengths, PieceLo(p.g, i), PieceHi(p.g, i)).value;
    j :| 0 <= j < |segs| && StopsAt(p, d, segs, data, j);
    FirstPartsNonEmpty(p, d, segs, data, j);
  }

  lemma RangeEnds(lengths: seq<nat>, lo: nat, hi: nat, k: nat)
    requires k < |lengths|
    ensures Min(hi, Off(lengths, k) + lengths[k]) <= hi && lo <= Max(lo, Off(lengths, k))
  {
    hide Off;
  }

  lemma OverreadIs(p: Plan, i: nat)
    ensures var lo, size := U32(i * p.g.pieceSize), PieceSizeOf(p.g, i);
            Overread(p, i) <==>
              && TWO_32 <= i * p.g.pieceSize && size < p.g.pieceSize && lo + p.g.pieceSize < TWO_32
              && NoEmptyFileIn(p.lengths, lo, lo + size) && InsideAFile(p.lengths, lo + size)
  {
    hide PieceSizeOf, NoEmptyFileIn, InsideAFile;
  }

  lemma EndsInside(lengths: seq<nat>, lo: nat, hi: nat, segs: seq<FilePiece>, j: nat, b: nat)
    requires j < |segs| && segs[j].index < |lengths|
    requires lo + segs[j].pieceOffset == Max(lo, Off(lengths, segs[j].index))
    requires lo + segs[j].pieceOffset + segs[j].bytes
          == Min(hi, Off(lengths, segs[j].index) + lengths[segs[j].index])
    requires lo + segs[j].pieceOffset < b < lo + segs[j].pieceOffset + segs[j].bytes
    ensures InsideAFile(lengths, b)
  {
    hide Off;
    assert StrictlyInside(lengths, segs[j].index, b);
  }

  lemma FirstPartsNonEmpty(p: Plan, d: Disk, segs: seq<FilePiece>, data: seq<byte>, j: nat)
    requires j <= |segs| && WriteSegmentsF(p, d, segs[..j], data).Some?
    ensures NonEmptyUntil(segs, j)
  {
    hide WriteSegmentsF;
    forall i | 0 <= i < j
      ensures segs[i].bytes > 0
    {
      NonEmptyIfWritten(p, d, segs[..j], data, i);
      assert segs[..j][i] == segs[i];
    }
  }

  // ---- And such a piece is read past its end ----

  /** Parts that end within the data see only that much of it. */
  lemma {:induction false} SamePrefix(p: Plan, d: Disk, segs: seq<FilePiece>, data: seq<byte>, longer: seq<byte>,
                                      n: nat)
    requires n <= |segs| && |data| <= |longer| && data == longer[..|data|]
    requires forall j | 0 <= j < n :: segs[j].pieceOffset + segs[j].bytes <= |data|
    ensures WriteSegmentsF(p, d, segs[..n], data) == WriteSegmentsF(p, d, segs[..n], longer)
    decreases n
  {
    hide TryCreateF, WriteF, TryFinalizeF;
    if n > 0 {
      assert segs[..n][..n - 1] == segs[..n - 1];
      SamePrefix(p, d, segs, data, longer, n - 1);
      var seg := segs[n - 1];
      assert data[seg.pieceOffset..seg.pieceOffset + seg.bytes] == longer[seg.pieceOffset..seg.pieceOffset + seg.bytes];
    }
  }

  /** The cut of the range, and the part the data ends in. */
  lemma OverreadPart(p: Plan, i: nat) returns (segs: seq<FilePiece>, j: nat)
    requires ValidPlan(p) && i < p.g.count && Overread(p, i)
    ensures var lo, hi, size := PieceLo(p.g, i), PieceHi(p.g, i), PieceSizeOf(p.g, i);
            && 0 < size < hi - lo && hi <= p.g.total && hi == lo + p.g.pieceSize < TWO_32
            && Cut(p, lo, hi, segs) && j < |segs| && NonEmptyUntil(segs, j + 1)
            && segs[j].pieceOffset < size < segs[j].pieceOffset + segs[j].bytes
            && (forall m | 0 <= m < j :: segs[m].pieceOffset + segs[m].bytes <= size)
  {
    PlanFacts(p);
    var lo, hi, size := PieceLo(p.g, i), PieceHi(p.g, i), PieceSizeOf(p.g, i);
    PieceSizeExact(p.g, i);
    HighPiece(p.g, i);
    RangeOfPiece(p.g, i);
    hide ValidSizes, PieceLo, PieceHi, PieceSizeOf, PieceStart, PieceEnd, U32;
    var k :| 0 <= k < |p.lengths| && StrictlyInside(p.lengths, k, lo + size);
    segs, j := CutAround(p.lengths, lo, hi, lo + size, k);
  }

  lemma CutAround(lengths: seq<nat>, lo: nat, hi: nat, b: nat, k: nat) returns (segs: seq<FilePiece>, j: nat)
    requires lengths != [] && lo < b < hi <= Sum(lengths)
    requires NoEmptyFileIn(lengths, lo, b) && StrictlyInside(lengths, k, b)
    ensures IterateF(lengths, lo, hi) == Some(segs) && j < |segs| && NonEmptyUntil(segs, j + 1)
    ensures segs[j].index == k && segs[j].pieceOffset < b - lo < segs[j].pieceOffset + segs[j].bytes
    ensures forall m | 0 <= m < j :: segs[m].pieceOffset + segs[m].bytes <= b - lo
  {
    hide Off, IterateF, Sum, StartFound, StrictlyInside, Segment;
    StartFoundIff(lengths, lo);
    EndIsFound(lengths, lo, hi);
    segs := IterateF(lengths, lo, hi).value;
    RangePartition(lengths, lo, hi);
    j := PartWith(lengths, lo, hi, segs, b, k);
    forall m | 0 <= m < j
      ensures segs[m].bytes > 0 && segs[m].pieceOffset + segs[m].bytes <= b - lo
    {
      PartBefore(lengths, lo, hi, segs, b, k, j, m);
    }
  }

  lemma PartWith(lengths: seq<nat>, lo: nat, hi: nat, segs: seq<FilePiece>, b: nat, k: nat) returns (j: nat)
    requires lengths != [] && IterateF(lengths, lo, hi) == Some(segs) && |segs| > 0 && lo < b < hi
    requires StrictlyInside(lengths, k, b)
    ensures j < |segs| && j == k - segs[0].index && segs[j].index == k < |lengths|
    ensures segs[j].pieceOffset < b - lo < segs[j].pieceOffset + segs[j].bytes
  {
    OffStep(lengths, k);
    PieceOfFile(lengths, lo, hi, k);
    SegmentFacts(lengths, lo, hi, k);
    hide Off, IterateF, Segment, Touches;
    j := k - segs[0].index;
  }

  lemma PartBefore(lengths: seq<nat>, lo: nat, hi: nat, segs: seq<FilePiece>, b: nat, k: nat, j: nat, m: nat)
    requires lengths != [] && IterateF(lengths, lo, hi) == Some(segs) && lo < b < hi && m < j < |segs|
    requires PiecesInPlace(lengths, lo, segs) && segs[j].index == k
    requires NoEmptyFileIn(lengths, lo, b) && StrictlyInside(lengths, k, b)
    ensures segs[m].bytes > 0 && segs[m].pieceOffset + segs[m].bytes <= b - lo
  {
    var e := segs[m].index;
    assert e == segs[0].index + m && k == segs[0].index + j;
    OffMonotone(lengths, e + 1, k);
    OffStep(lengths, e);
    PartOfFile(lengths, lo, hi, segs, m);
    hide Off, IterateF, PiecesInPlace;
    if segs[m].bytes > 0 {
      PartEnds(lengths, lo, hi, segs, m);
    }
  }

  /** A part without bytes is that of an empty file in the range. */
  lemma PartOfFile(lengths: seq<nat>, lo: nat, hi: nat, segs: seq<FilePiece>, m: nat)
    requires lengths != [] && IterateF(lengths, lo, hi) == Some(segs) && m < |segs|
    requires segs[m].index == segs[0].index + m < |lengths|
    ensures segs[m].bytes == 0 ==> lengths[segs[m].index] == 0 && lo <= Off(lengths, segs[m].index) < hi
  {
    hide Off, IterateF, Segment, Touches, Overlaps;
    PieceOfFile(lengths, lo, hi, segs[m].index);
  }

  /** Written first, in a directory where the names are usable, such a piece is read past its end. */
  lemma OverreadReadsPast(p: Plan, fs: map<string, seq<byte>>, i: nat)
    requires ValidPlan(p) && NamesUsable(p, fs) && i < p.g.count && Overread(p, i)
    ensures p.lengths != []
    ensures PieceReadsPast(p, NewDisk(fs, |p.lengths|), i, PieceData(p.g, Ones(p.g.total), i))
  {
    hide *;
    PlanFacts(p);
    var content, d := Ones(p.g.total), NewDisk(fs, |p.lengths|);
    OnesSize(p.g.total);
    var lo, hi, size := PieceLo(p.g, i), PieceHi(p.g, i), PieceSizeOf(p.g, i);
    var segs, j := OverreadPart(p, i);
    var data := PieceData(p.g, content, i);
    OverreadData(p, i, lo, size);
    DiskAtStart(p, content, fs);
    CoveredSize(p, {});
    NothingCovered(p, lo, hi);
    var none := CoveredFiles(p, {});
    NonEmptyFewer(segs, j);
    PartsWritten(p, content, fs, d, none, lo, hi, segs, j);
    SamePrefix(p, d, segs, data, content[lo..hi], j);
    var before := WriteSegmentsF(p, d, segs[..j], data);
    CutIsIterate(p, lo, hi, segs);
    CutParts(p, lo, hi, segs, j);
    NothingInFile(p, segs[j].index);
    OpensFile(p, content, fs, before.value, none, lo, hi, segs, j);
    StopsHere(p, d, i, segs, data, j);
  }

  lemma NonEmptyFewer(segs: seq<FilePiece>, j: nat)
    requires NonEmptyUntil(segs, j + 1)
    ensures NonEmptyUntil(segs, j) && j < |segs| && segs[j].bytes > 0
  {
  }

  lemma CutIsIterate(p: Plan, lo: nat, hi: nat, segs: seq<FilePiece>)
    requires p.lengths != [] && Cut(p, lo, hi, segs)
    ensures lo < hi && IterateF(p.lengths, lo, hi) == Some(segs)
  {
    hide IterateF;
  }

  lemma OverreadData(p: Plan, i: nat, lo: nat, size: nat)
    requires ValidPlan(p) && i < p.g.count && size == PieceSizeOf(p.g, i) && |Ones(p.g.total)| == p.g.total
    requires lo + size <= p.g.total
    ensures var data := PieceData(p.g, Ones(p.g.total), i);
            |data| == size > 0 && data == Ones(p.g.total)[lo..lo + size]
    ensures forall hi | lo + size <= hi <= p.g.total ::
              PieceData(p.g, Ones(p.g.total), i) == Ones(p.g.total)[lo..hi][..size]
  {
    PlanFacts(p);
    PieceSizeExact(p.g, i);
    PieceDataIs(p.g, Ones(p.g.total), i);
    hide ValidSizes, PieceStart, PieceEnd, PieceSizeOf, PieceData;
    OnesMoved(p.g.total, PieceStart(p.g, i), lo, size);
  }

  lemma OpensFile(p: Plan, content: seq<byte>, fs: map<string, seq<byte>>, d: Disk, cov: seq<set<nat>>,
                  lo: nat, hi: nat, segs: seq<FilePiece>, j: nat)
    requires ValidPlan(p) && |cov| == |p.lengths| && NamesUsable(p, fs) && j < |segs|
    requires segs[j].index == segs[0].index + j < |p.lengths| && IsPartOf(p, lo, hi, segs[j].index, segs[j])
    requires DiskInv(p, content, fs, d, Midway(p, cov, lo, hi, segs[0].index, j)) && cov[segs[j].index] == {}
    ensures segs[j].index < |d.files| && segs[j].index < |p.names|
    ensures TryCreateF(d, segs[j].index, p.names[segs[j].index], segs[j].fileSize).Some?
  {
    var k, midway := segs[j].index, Midway(p, cov, lo, hi, segs[0].index, j);
    assert midway[k] == cov[k];
    PartNameFree(p, content, fs, d, midway, lo, hi, k, segs[j]);
    NameFreeIff(p, content, fs, d, midway, k);
    hide FileInv, NamesInv, IsPartOf, RangeIn, NamesUsable, Creatable, ValidSizes;
  }

  lemma NothingInFile(p: Plan, k: nat)
    requires p.g.pieceSize > 0 && k < |p.lengths|
    ensures CoveredFiles(p, {})[k] == {}
  {
    hide Owner;
  }

  lemma StopsHere(p: Plan, d: Disk, i: nat, segs: seq<FilePiece>, data: seq<byte>, j: nat)
    requires p.lengths != [] && data != [] && j < |segs|
    requires IterateF(p.lengths, PieceLo(p.g, i), PieceHi(p.g, i)) == Some(segs)
    requires var before := WriteSegmentsF(p, d, segs[..j], data);
             && before.Some? && segs[j].index < |before.value.files| && segs[j].index < |p.names|
             && segs[j].pieceOffset < |data| < segs[j].pieceOffset + segs[j].bytes
             && TryCreateF(before.value, segs[j].index, p.names[segs[j].index], segs[j].fileSize).Some?
    ensures PieceReadsPast(p, d, i, data)
  {
    hide IterateF, WriteSegmentsF, TryCreateF, PieceLo, PieceHi;
    assert StopsAt(p, d, segs, data, j);
  }
}
