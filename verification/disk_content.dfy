/** After any sequence of piece writes: what every file holds, and when the writes succeed at all. */
module DiskContent {
  import opened Machine
  import opened Client
  import opened Layout
  import opened Disk

  /** The piece that byte j of file k belongs to. */
  ghost function Owner(p: Plan, k: nat, j: nat): nat
    requires k < |p.lengths| && p.g.pieceSize > 0
  {
    (Off(p.lengths, k) + j) / p.g.pieceSize
  }

  /** The offsets of file k whose bytes belong to the pieces of a set. */
  ghost function Covered(p: Plan, pieces: set<nat>, k: nat): set<nat>
    requires k < |p.lengths| && p.g.pieceSize > 0
  {
    set j: nat | j < p.lengths[k] && Owner(p, k, j) in pieces
  }

  ghost function CoveredFiles(p: Plan, pieces: set<nat>): seq<set<nat>>
    requires p.g.pieceSize > 0
  {
    seq(|p.lengths|, k requires 0 <= k < |p.lengths| => Covered(p, pieces, k))
  }

  ghost predicate Between(off: nat, j: nat, lo: nat, hi: nat) {
    lo <= off + j < hi
  }

  /** The offsets of file k whose bytes lie in the range [lo, hi) of the content. */
  ghost function RangeIn(p: Plan, lo: nat, hi: nat, k: nat): set<nat>
    requires k < |p.lengths|
  {
    set j: nat | j < p.lengths[k] && Between(Off(p.lengths, k), j, lo, hi)
  }

  /** The range is being written: it is already in the files from a on, up to but excluding file a + n. */
  ghost function Midway(p: Plan, cov: seq<set<nat>>, lo: nat, hi: nat, a: nat, n: nat): seq<set<nat>>
    requires |cov| == |p.lengths|
  {
    seq(|cov|, k requires 0 <= k < |cov| => if a <= k < a + n then cov[k] + RangeIn(p, lo, hi, k) else cov[k])
  }

  ghost function WithRange(p: Plan, cov: seq<set<nat>>, lo: nat, hi: nat): seq<set<nat>>
    requires |cov| == |p.lengths|
  {
    seq(|cov|, k requires 0 <= k < |cov| => cov[k] + RangeIn(p, lo, hi, k))
  }

  /** Files with bytes have names that can be created and differ: a caller can check it before starting. */
  ghost predicate NamesUsable(p: Plan, fs: map<string, seq<byte>>)
    requires |p.names| == |p.lengths|
  {
    && (forall k | 0 <= k < |p.names| && p.lengths[k] > 0 :: Creatable(fs, p.names[k]))
    && (forall k, k' | 0 <= k < k' < |p.names| && p.lengths[k] > 0 && p.lengths[k'] > 0 :: p.names[k] != p.names[k'])
  }

  lemma OwnerIff(g: Geometry, b: nat, i: nat)
    requires ValidSizes(g) && b < g.total && i < g.count
    ensures b / g.pieceSize == i <==> PieceStart(g, i) <= b < PieceEnd(g, i)
  {
    DivideUnique(b, i, g.pieceSize);
  }

  lemma FileInContent(p: Plan, k: nat)
    requires ValidPlan(p) && k < |p.lengths|
    ensures Off(p.lengths, k) + p.lengths[k] <= p.g.total
  {
    OffStep(p.lengths, k);
    OffMonotone(p.lengths, k + 1, |p.lengths|);
    OffEnds(p.lengths);
  }

  // ---- Writing a range ----

  /** The cut of the range [lo, hi) of the content. */
  ghost predicate Cut(p: Plan, lo: nat, hi: nat, segs: seq<FilePiece>)
    requires p.lengths != []
  {
    lo < hi <= Sum(p.lengths) && IterateF(p.lengths, lo, hi) == Some(segs)
  }

  /** The same, with no empty part. */
  ghost predicate CutOf(p: Plan, lo: nat, hi: nat, segs: seq<FilePiece>)
    requires p.lengths != []
  {
    Cut(p, lo, hi, segs) && AllNonEmpty(Some(segs))
  }

  /** The first n parts have bytes. */
  ghost predicate NonEmptyUntil(segs: seq<FilePiece>, n: nat) {
    n <= |segs| && forall j | 0 <= j < n :: segs[j].bytes > 0
  }

  /** The part of the range in file k. */
  ghost predicate IsPartOf(p: Plan, lo: nat, hi: nat, k: nat, seg: FilePiece)
    requires k < |p.lengths|
  {
    lo < hi && Touches(p.lengths, lo, hi, k) && seg == Segment(p.lengths, lo, hi, k) && seg.bytes > 0
  }

  lemma CutParts(p: Plan, lo: nat, hi: nat, segs: seq<FilePiece>, j: nat)
    requires ValidPlan(p) && Cut(p, lo, hi, segs) && j < |segs| && segs[j].bytes > 0
    ensures segs[j].index == segs[0].index + j < |p.lengths|
    ensures IsPartOf(p, lo, hi, segs[j].index, segs[j])
  {
    hide Off, IterateF, Segment, Touches, ValidSizes;
    RangePartition(p.lengths, lo, hi);
    PieceOfFile(p.lengths, lo, hi, segs[j].index);
    hide Overlaps;
  }

  lemma InRangeIn(p: Plan, lo: nat, hi: nat, k: nat, j: nat)
    requires k < |p.lengths|
    ensures j in RangeIn(p, lo, hi, k) <==> j < p.lengths[k] && lo <= Off(p.lengths, k) + j < hi
  {
    hide Off;
    assert Between(Off(p.lengths, k), j, lo, hi) <==> lo <= Off(p.lengths, k) + j < hi;
  }

  /** The part covers exactly the offsets of the range in the file. */
  lemma PartCovers(p: Plan, lo: nat, hi: nat, k: nat, seg: FilePiece)
    requires k < |p.lengths| && IsPartOf(p, lo, hi, k, seg)
    ensures Interval(seg.fileOffset, seg.fileOffset + seg.bytes) == RangeIn(p, lo, hi, k)
  {
    SegmentFacts(p.lengths, lo, hi, k);
    OffStep(p.lengths, k);
    hide Off, Segment;
    forall j: nat
      ensures j in Interval(seg.fileOffset, seg.fileOffset + seg.bytes) <==> j in RangeIn(p, lo, hi, k)
    {
      assert AtLeast(j, seg.fileOffset) <==> seg.fileOffset <= j;
      InRangeIn(p, lo, hi, k, j);
    }
  }

  lemma PartIsTrue(p: Plan, content: seq<byte>, lo: nat, hi: nat, k: nat, seg: FilePiece, covered: set<nat>)
    requires ValidPlan(p) && |content| == p.g.total && |p.names| == |p.lengths|
    requires k < |p.lengths| && hi <= |content| && IsPartOf(p, lo, hi, k, seg)
    requires RangeIn(p, lo, hi, k) !! covered
    ensures TrueSegment(p, content, seg, content[lo..hi], covered)
  {
    SegmentFacts(p.lengths, lo, hi, k);
    FileInContent(p, k);
    PartCovers(p, lo, hi, k, seg);
    hide Off, ValidSizes, Segment, RangeIn, Interval;
    SubSlice(content, lo, hi, seg.pieceOffset, seg.pieceOffset + seg.bytes);
  }

  /** Nothing of the range has been written. */
  ghost predicate RangeFree(p: Plan, cov: seq<set<nat>>, lo: nat, hi: nat)
    requires |cov| == |p.lengths|
  {
    forall k | 0 <= k < |cov| :: RangeIn(p, lo, hi, k) !! cov[k]
  }

  lemma {:induction false} PartsWritten(p: Plan, content: seq<byte>, fs0: map<string, seq<byte>>, d: Disk,
                                        cov: seq<set<nat>>, lo: nat, hi: nat, segs: seq<FilePiece>, n: nat)
    requires ValidPlan(p) && |content| == p.g.total && lo < hi <= |content|
    requires Cut(p, lo, hi, segs) && NonEmptyUntil(segs, n)
    requires |cov| == |p.lengths| && RangeFree(p, cov, lo, hi) && DiskInv(p, content, fs0, d, cov)
    ensures |segs| > 0
    ensures var r := WriteSegmentsF(p, d, segs[..n], content[lo..hi]);
            && (NamesUsable(p, fs0) ==> r.Some?)
            && (r.Some? ==> DiskInv(p, content, fs0, r.value, Midway(p, cov, lo, hi, segs[0].index, n)))
  {
    hide DiskInv, Cut, IsPartOf, WriteSegmentF, RangeIn, RangeFree, NamesUsable, ValidSizes, Off;
    PlanFacts(p);
    CutNotEmpty(p, lo, hi, segs);
    if n == 0 {
      assert Midway(p, cov, lo, hi, segs[0].index, 0) == cov;
    } else {
      assert segs[..n][..n - 1] == segs[..n - 1];
      PartsWritten(p, content, fs0, d, cov, lo, hi, segs, n - 1);
      var before := WriteSegmentsF(p, d, segs[..n - 1], content[lo..hi]);
      if before.Some? {
        CutParts(p, lo, hi, segs, n - 1);
        PartWritten(p, content, fs0, before.value, cov, lo, hi, segs[0].index, n - 1, segs[n - 1]);
      }
    }
  }

  lemma CutNotEmpty(p: Plan, lo: nat, hi: nat, segs: seq<FilePiece>)
    requires ValidPlan(p) && Cut(p, lo, hi, segs)
    ensures |segs| > 0
  {
    RangePartition(p.lengths, lo, hi);
  }

  lemma PartWritten(p: Plan, content: seq<byte>, fs0: map<string, seq<byte>>, d: Disk, cov: seq<set<nat>>,
                    lo: nat, hi: nat, a: nat, n: nat, seg: FilePiece)
    requires ValidPlan(p) && |content| == p.g.total && lo < hi <= |content|
    requires |cov| == |p.lengths| && RangeFree(p, cov, lo, hi)
    requires seg.index == a + n < |p.lengths| && IsPartOf(p, lo, hi, seg.index, seg)
    requires DiskInv(p, content, fs0, d, Midway(p, cov, lo, hi, a, n))
    ensures var r := WriteSegmentF(p, d, seg, content[lo..hi]);
            && (NamesUsable(p, fs0) ==> r.Some?)
            && (r.Some? ==> DiskInv(p, content, fs0, r.value, Midway(p, cov, lo, hi, a, n + 1)))
  {
    hide RangeIn, Interval, DiskInv, WriteSegmentF, TrueSegment, IsPartOf, NamesUsable, NameFree, ValidSizes, Off;
    var k := a + n;
    var before, after := Midway(p, cov, lo, hi, a, n), Midway(p, cov, lo, hi, a, n + 1);
    assert before[k] == cov[k] && after[k] == cov[k] + RangeIn(p, lo, hi, k);
    PartCovers(p, lo, hi, k, seg);
    PartIsTrue(p, content, lo, hi, k, seg, cov[k]);
    SegmentWritten(p, content, fs0, d, before, seg, content[lo..hi]);
    if NamesUsable(p, fs0) {
      PartNameFree(p, content, fs0, d, before, lo, hi, k, seg);
    }
    assert after == before[k := before[k] + Interval(seg.fileOffset, seg.fileOffset + seg.bytes)];
  }

  lemma PartNameFree(p: Plan, content: seq<byte>, fs0: map<string, seq<byte>>, d: Disk, cov: seq<set<nat>>,
                     lo: nat, hi: nat, k: nat, seg: FilePiece)
    requires DiskInv(p, content, fs0, d, cov) && NamesUsable(p, fs0)
    requires k < |p.lengths| && IsPartOf(p, lo, hi, k, seg)
    ensures NameFree(p, fs0, cov, k)
         || cov[k] != {}
  {
    SegmentFacts(p.lengths, lo, hi, k);
    hide Segment, Touches, Off, NamesInv, HoldsContent;
    forall k' | 0 <= k' < |cov| && cov[k'] != {} && k' != k
      ensures p.names[k'] != p.names[k]
    {
      assert FileInv(p, content, d, k', cov[k']);
      var j :| j in cov[k'];
      assert j in Interval(0, p.lengths[k']);
    }
  }

  lemma WholeRange(p: Plan, cov: seq<set<nat>>, lo: nat, hi: nat, segs: seq<FilePiece>)
    requires ValidPlan(p) && |cov| == |p.lengths| && CutOf(p, lo, hi, segs) && |segs| > 0
    ensures Midway(p, cov, lo, hi, segs[0].index, |segs|) == WithRange(p, cov, lo, hi)
  {
    hide RangeIn, Off, Overlaps, ValidSizes, AllNonEmpty, Segment, Touches, IterateF;
    var midway, all := Midway(p, cov, lo, hi, segs[0].index, |segs|), WithRange(p, cov, lo, hi);
    forall k | 0 <= k < |cov|
      ensures midway[k] == all[k]
    {
      if !(segs[0].index <= k < segs[0].index + |segs|) {
        PieceOfFile(p.lengths, lo, hi, k);
        NoOverlapNoBytes(p, lo, hi, k);
      }
    }
    assert midway == all;
  }

  lemma NoOverlapNoBytes(p: Plan, lo: nat, hi: nat, k: nat)
    requires k < |p.lengths| && !Overlaps(p.lengths, lo, hi, k)
    ensures RangeIn(p, lo, hi, k) == {}
  {
    OffStep(p.lengths, k);
    hide Off, RangeIn;
    if j :| j in RangeIn(p, lo, hi, k) {
      InRangeIn(p, lo, hi, k, j);
      assert false;
    }
  }

  /** Writing a range that was free and can be cut adds exactly its bytes; with usable names it succeeds. */
  lemma RangeWritten(p: Plan, content: seq<byte>, fs0: map<string, seq<byte>>, d: Disk, cov: seq<set<nat>>,
                     lo: nat, hi: nat, segs: seq<FilePiece>)
    requires ValidPlan(p) && |content| == p.g.total && lo < hi <= |content| && CutOf(p, lo, hi, segs)
    requires |cov| == |p.lengths| && RangeFree(p, cov, lo, hi) && DiskInv(p, content, fs0, d, cov)
    ensures var r := WriteSegmentsF(p, d, segs, content[lo..hi]);
            && (NamesUsable(p, fs0) ==> r.Some?)
            && (r.Some? ==> DiskInv(p, content, fs0, r.value, WithRange(p, cov, lo, hi)))
  {
    hide *;
    PlanFacts(p);
    CutIs(p, lo, hi, segs);
    PartsWritten(p, content, fs0, d, cov, lo, hi, segs, |segs|);
    assert segs[..|segs|] == segs;
    WholeRange(p, cov, lo, hi, segs);
  }

  // ---- Where a piece lands ----

  /** The 32-bit range of the piece is the true one, and no empty file lies in it. */
  ghost predicate InPlace(p: Plan, i: nat) {
    (i + 1) * p.g.pieceSize < TWO_32 && NoEmptyFileIn(p.lengths, PieceStart(p.g, i), PieceEnd(p.g, i))
  }

  /** The piece starts at or above 2^32, and its 32-bit range is one that can be cut and is as long as the
      piece: it is written, without a failed assertion, where another piece belongs. */
  ghost predicate Misplaced(p: Plan, i: nat) {
    var start, size := i * p.g.pieceSize, p.g.pieceSize;
    && TWO_32 <= start && start + size <= p.g.total
    && U32(start) + size < TWO_32
    && NoEmptyFileIn(p.lengths, U32(start), U32(start) + size)
  }

  lemma OnePlace(p: Plan, i: nat)
    requires InPlace(p, i)
    ensures !Misplaced(p, i)
  {
    hide NoEmptyFileIn;
    assert (i + 1) * p.g.pieceSize == i * p.g.pieceSize + p.g.pieceSize;
  }

  /** A caller can check it: it speaks of sizes only. */
  ghost predicate NoneMisplaced(p: Plan) {
    forall i: nat | i < p.g.count :: !Misplaced(p, i)
  }

  /** The 32-bit range of a piece that starts at or above 2^32. */
  lemma HighPiece(g: Geometry, i: nat)
    requires ValidSizes(g) && i < g.count && TWO_32 <= i * g.pieceSize
    ensures var start := U32(i * g.pieceSize);
            && PieceLo(g, i) == start
            && PieceHi(g, i) == if start + g.pieceSize < TWO_32 then start + g.pieceSize
                                else start + g.pieceSize - TWO_32
  {
    PieceBounds(g, i);
    var start := i * g.pieceSize;
    assert (i + 1) * g.pieceSize == start + g.pieceSize;
    WrappedOnce(i + 1);
    SumWrapped(start, g.pieceSize);
    hide ValidSizes;
  }

  lemma SumWrapped(x: nat, size: nat)
    requires size < TWO_32
    ensures U32(x) < TWO_32
    ensures U32(x + size) == if U32(x) + size < TWO_32 then U32(x) + size else U32(x) + size - TWO_32
  {
    var q := x / TWO_32;
    assert x + size == q * TWO_32 + (U32(x) + size);
    if U32(x) + size < TWO_32 {
      DivideUnique(x + size, q, TWO_32);
    } else {
      assert x + size == (q + 1) * TWO_32 + (U32(x) + size - TWO_32);
      DivideUnique(x + size, q + 1, TWO_32);
    }
  }

  /** A piece that was written had a range that can be cut and is covered by its data. */
  lemma WrittenWasCut(p: Plan, d: Disk, i: nat, data: seq<byte>)
    requires ValidPlan(p) && WritePieceF(p, d, i, data).Some?
    ensures PieceCut(p.g, p.lengths, i)
    ensures PieceLo(p.g, i) < PieceHi(p.g, i) <= PieceLo(p.g, i) + |data|
  {
    PlanFacts(p);
    CutIfWritten(p, d, i, data);
    hide PieceLo, PieceHi, ValidSizes;
    var lo, hi := PieceLo(p.g, i), PieceHi(p.g, i);
    var segs := IterateF(p.lengths, lo, hi).value;
    CutNeedsBothSearches(p.lengths, lo, hi);
    RangePartition(p.lengths, lo, hi);
    hide IterateF, PieceCut;
    LastPartInData(p, d, segs, data);
  }

  lemma LastPartInData(p: Plan, d: Disk, segs: seq<FilePiece>, data: seq<byte>)
    requires |segs| > 0 && WriteSegmentsF(p, d, segs, data).Some?
    ensures segs[|segs| - 1].pieceOffset + segs[|segs| - 1].bytes <= |data|
  {
    hide TryCreateF, WriteF, TryFinalizeF;
  }

  /** Whatever is on disk: a true piece that could be written was in place or was misplaced. */
  lemma WrittenSomewhere(p: Plan, content: seq<byte>, d: Disk, i: nat)
    requires ValidPlan(p) && |content| == p.g.total && i < p.g.count
    requires WritePieceF(p, d, i, PieceData(p.g, content, i)).Some?
    ensures InPlace(p, i) || Misplaced(p, i)
  {
    PlanFacts(p);
    PieceBounds(p.g, i);
    PieceEndsWithin(p.g, i);
    WrittenWasCut(p, d, i, PieceData(p.g, content, i));
    IterateIff(p.lengths, PieceLo(p.g, i), PieceHi(p.g, i));
    var start, end := i * p.g.pieceSize, (i + 1) * p.g.pieceSize;
    assert end == start + p.g.pieceSize;
    hide ValidSizes, WritePieceF, IterateF, NoEmptyFileIn;
    if end < TWO_32 {
      PieceRangeIff(p.g, i);
    } else if start < TWO_32 {
      CrossingPiece(p.g, i);
      assert false;
    } else {
      HighPiece(p.g, i);
      hide PieceLo, PieceHi;
    }
  }

  lemma PieceEndsWithin(g: Geometry, i: nat)
    requires ValidSizes(g) && i < g.count
    ensures PieceHi(g, i) <= g.total
  {
    hide ValidSizes;
  }

  /** The range of a piece in place, or misplaced, is cut. */
  lemma PlaceIsCut(p: Plan, i: nat) returns (segs: seq<FilePiece>)
    requires ValidPlan(p) && i < p.g.count && (InPlace(p, i) || Misplaced(p, i))
    ensures var lo, hi := PieceLo(p.g, i), PieceHi(p.g, i);
            && CutOf(p, lo, hi, segs) && hi <= p.g.total
            && (InPlace(p, i) ==> lo == PieceStart(p.g, i) && hi == PieceEnd(p.g, i))
            && (Misplaced(p, i) ==> lo == U32(i * p.g.pieceSize) && hi == lo + p.g.pieceSize < TWO_32)
  {
    PlanFacts(p);
    PieceBounds(p.g, i);
    hide ValidSizes, NoEmptyFileIn;
    if InPlace(p, i) {
      PieceRangeIff(p.g, i);
    } else {
      HighPiece(p.g, i);
    }
    hide PieceLo, PieceHi;
    IterateIff(p.lengths, PieceLo(p.g, i), PieceHi(p.g, i));
    hide IterateF;
    segs := IterateF(p.lengths, PieceLo(p.g, i), PieceHi(p.g, i)).value;
  }

  /** A piece is written part by part, whatever is on disk. */
  lemma WritePieceUnfold(p: Plan, d: Disk, i: nat, segs: seq<FilePiece>, data: seq<byte>)
    requires ValidPlan(p) && data != [] && IterateF(p.lengths, PieceLo(p.g, i), PieceHi(p.g, i)) == Some(segs)
    ensures WritePieceF(p, d, i, data) == WriteSegmentsF(p, d, segs, data)
  {
    hide IterateF, PieceLo, PieceHi, WriteSegmentsF, ValidSizes;
  }

  lemma PieceDataIs(g: Geometry, content: seq<byte>, i: nat)
    requires ValidSizes(g) && |content| == g.total && i < g.count
    ensures PieceStart(g, i) < PieceEnd(g, i) <= |content|
    ensures PieceData(g, content, i) == content[PieceStart(g, i)..PieceEnd(g, i)] != []
  {
    PieceBounds(g, i);
    PieceSizeExact(g, i);
    hide ValidSizes, PieceStart, PieceEnd;
  }

  /** The offsets of a piece are those of its range. */
  lemma PieceIsRange(p: Plan, pieces: set<nat>, i: nat)
    requires ValidPlan(p) && i < p.g.count
    ensures p.g.pieceSize > 0
    ensures WithRange(p, CoveredFiles(p, pieces), PieceStart(p.g, i), PieceEnd(p.g, i))
            == CoveredFiles(p, pieces + {i})
    ensures i !in pieces ==> RangeFree(p, CoveredFiles(p, pieces), PieceStart(p.g, i), PieceEnd(p.g, i))
  {
    PlanFacts(p);
    hide ValidPlan, ValidSizes, Covered, RangeIn, PieceStart, PieceEnd;
    var lo, hi := PieceStart(p.g, i), PieceEnd(p.g, i);
    forall k | 0 <= k < |p.lengths|
      ensures Covered(p, pieces, k) + RangeIn(p, lo, hi, k) == Covered(p, pieces + {i}, k)
      ensures i !in pieces ==> RangeIn(p, lo, hi, k) !! Covered(p, pieces, k)
    {
      PieceIn(p, pieces, i, k);
    }
    assert WithRange(p, CoveredFiles(p, pieces), lo, hi) == CoveredFiles(p, pieces + {i});
  }

  lemma PieceIn(p: Plan, pieces: set<nat>, i: nat, k: nat)
    requires ValidPlan(p) && i < p.g.count && k < |p.lengths| && p.g.pieceSize > 0
    ensures var range := RangeIn(p, PieceStart(p.g, i), PieceEnd(p.g, i), k);
            && Covered(p, pieces, k) + range == Covered(p, pieces + {i}, k)
            && (i !in pieces ==> range !! Covered(p, pieces, k))
  {
    FileInContent(p, k);
    hide Off, ValidSizes, PieceStart, PieceEnd;
    forall j: nat | j < p.lengths[k]
      ensures Between(Off(p.lengths, k), j, PieceStart(p.g, i), PieceEnd(p.g, i)) <==> Owner(p, k, j) == i
    {
      OwnerIff(p.g, Off(p.lengths, k) + j, i);
    }
    hide Owner, Between;
  }

  /** Writing a piece not yet on disk: with usable names a piece in place is written; and a piece that was
      written and not misplaced was in place, and exactly its bytes were added. */
  lemma PieceWritten(p: Plan, content: seq<byte>, fs0: map<string, seq<byte>>, d: Disk, pieces: set<nat>, i: nat)
    requires ValidPlan(p) && |content| == p.g.total && i < p.g.count && i !in pieces
    requires p.g.pieceSize > 0 && DiskInv(p, content, fs0, d, CoveredFiles(p, pieces))
    ensures var r := WritePieceF(p, d, i, PieceData(p.g, content, i));
            && (InPlace(p, i) && NamesUsable(p, fs0) ==> r.Some?)
            && (r.Some? && !Misplaced(p, i) ==>
                  InPlace(p, i) && DiskInv(p, content, fs0, r.value, CoveredFiles(p, pieces + {i})))
  {
    hide *;
    PlanFacts(p);
    var r := WritePieceF(p, d, i, PieceData(p.g, content, i));
    if r.Some? {
      WrittenSomewhere(p, content, d, i);
    }
    if InPlace(p, i) {
      var segs := PlaceIsCut(p, i);
      CutIs(p, PieceLo(p.g, i), PieceHi(p.g, i), segs);
      PieceDataIs(p.g, content, i);
      PieceIsRange(p, pieces, i);
      CoveredSize(p, pieces);
      RangeWritten(p, content, fs0, d, CoveredFiles(p, pieces), PieceStart(p.g, i), PieceEnd(p.g, i), segs);
      WritePieceUnfold(p, d, i, segs, PieceData(p.g, content, i));
    }
  }

  lemma CoveredSize(p: Plan, pieces: set<nat>)
    requires p.g.pieceSize > 0
    ensures |CoveredFiles(p, pieces)| == |p.lengths|
  {
  }

  lemma CutIs(p: Plan, lo: nat, hi: nat, segs: seq<FilePiece>)
    requires p.lengths != [] && CutOf(p, lo, hi, segs)
    ensures IterateF(p.lengths, lo, hi) == Some(segs)
    ensures Cut(p, lo, hi, segs) && NonEmptyUntil(segs, |segs|)
  {
    hide IterateF;
  }

  lemma PlanFacts(p: Plan)
    requires ValidPlan(p)
    ensures ValidSizes(p.g) && p.lengths != [] && |p.names| == |p.lengths| && Sum(p.lengths) == p.g.total
    ensures p.g.pieceSize > 0 && p.g.count > 0
  {
  }

  // ---- Writing all pieces ----

  lemma DiskAtStart(p: Plan, content: seq<byte>, fs: map<string, seq<byte>>)
    requires ValidPlan(p)
    ensures DiskInv(p, content, fs, NewDisk(fs, |p.lengths|), CoveredFiles(p, {}))
  {
    hide Off;
    assert forall k | 0 <= k < |p.lengths| :: CoveredFiles(p, {})[k] == {};
  }

  ghost predicate PiecesOf(g: Geometry, log: seq<nat>) {
    NoDup(log) && forall i | i in log :: i < g.count
  }

  /** Any order of distinct pieces: with usable names the writes succeed if all are in place; and if none is
      misplaced, what is on disk depends only on the set of pieces. */
  lemma {:induction false} AllWritten(p: Plan, content: seq<byte>, fs: map<string, seq<byte>>, log: seq<nat>)
    requires ValidPlan(p) && |content| == p.g.total && PiecesOf(p.g, log)
    ensures p.g.pieceSize > 0
    ensures var r := WriteAllF(p, content, fs, log);
            && ((forall i | i in log :: InPlace(p, i)) && NamesUsable(p, fs) ==> r.Some?)
            && (r.Some? && (forall i | i in log :: !Misplaced(p, i)) ==>
                  && (forall i | i in log :: InPlace(p, i))
                  && DiskInv(p, content, fs, r.value, CoveredFiles(p, Elems(log))))
    decreases |log|
  {
    hide ValidPlan, DiskInv, CoveredFiles, NamesUsable, InPlace, Misplaced, WritePieceF, PieceData, NewDisk;
    PlanFacts(p);
    if log == [] {
      DiskAtStart(p, content, fs);
      assert Elems(log) == {};
    } else {
      var n := |log| - 1;
      var init := log[..n];
      assert log == init + [log[n]];
      assert forall i | i in init :: i in log;
      AllWritten(p, content, fs, init);
      assert Elems(log) == Elems(init) + {log[n]};
      assert log[n] !in init;
      var before := WriteAllF(p, content, fs, init);
      assert log[n] in log;
      forall i: nat | InPlace(p, i)
        ensures !Misplaced(p, i)
      {
        OnePlace(p, i);
      }
      if before.Some? && forall i | i in init :: !Misplaced(p, i) {
        PieceWritten(p, content, fs, before.value, Elems(init), log[n]);
      }
    }
  }

  /** What the torrent file and the file system must satisfy for a download to be written: sizes below
      2^32, empty files only at the end, and free, different names. */
  ghost predicate Writable(p: Plan, fs: map<string, seq<byte>>)
    requires |p.names| == |p.lengths|
  {
    FitsIn32Bits(p.g) && EmptyFilesLast(p.lengths) && NamesUsable(p, fs)
  }

  ghost predicate CompleteLog(g: Geometry, log: seq<nat>) {
    && NoDup(log)
    && forall i: nat :: i in log <==> i < g.count
  }

  lemma EverythingCovered(p: Plan, log: seq<nat>, k: nat)
    requires ValidPlan(p) && CompleteLog(p.g, log) && k < |p.lengths|
    ensures Covered(p, Elems(log), k) == Interval(0, p.lengths[k])
  {
    PlanFacts(p);
    FileInContent(p, k);
    hide Off, ValidSizes, ValidPlan, Covered, PieceStart, PieceEnd;
    forall j: nat | j < p.lengths[k]
      ensures Owner(p, k, j) in log
    {
      var i := PieceHolding(p.g, Off(p.lengths, k) + j);
    }
    CoveredWhole(p, log, k);
  }

  lemma CoveredWhole(p: Plan, log: seq<nat>, k: nat)
    requires k < |p.lengths| && p.g.pieceSize > 0
    requires forall j: nat | j < p.lengths[k] :: Owner(p, k, j) in log
    ensures Covered(p, Elems(log), k) == Interval(0, p.lengths[k])
  {
    hide Owner;
  }

  lemma FileFinished(p: Plan, content: seq<byte>, d: Disk, k: nat)
    requires k < |p.lengths| == |p.names| == |d.files|
    requires FileInv(p, content, d, k, Interval(0, p.lengths[k]))
    requires Off(p.lengths, k) + p.lengths[k] <= |content|
    ensures FinishedFile(p, content, d, k)
  {
    hide Off;
    IntervalSize(0, p.lengths[k]);
    if p.lengths[k] > 0 {
      assert 0 in Interval(0, p.lengths[k]);
      var file := d.fs[p.names[k]];
      forall j | 0 <= j < p.lengths[k]
        ensures file[j] == content[Off(p.lengths, k) + j]
      {
        assert j in Interval(0, p.lengths[k]);
      }
    }
  }

  lemma EmptyInterval(n: nat)
    ensures n > 0 <==> Interval(0, n) != {}
  {
    if n > 0 {
      assert 0 in Interval(0, n);
    }
  }

  ghost predicate FinishedFile(p: Plan, content: seq<byte>, d: Disk, k: nat)
    requires k < |p.lengths| == |p.names| == |d.files|
  {
    && Off(p.lengths, k) + p.lengths[k] <= |content|
    && d.files[k] == Phys(None, p.lengths[k])
    && (p.lengths[k] > 0 ==>
          && p.names[k] in d.fs
          && d.fs[p.names[k]] == content[Off(p.lengths, k)..Off(p.lengths, k) + p.lengths[k]])
  }

  /** Nothing but the non-empty files of the torrent has been added to the file system. */
  ghost predicate OnlyTorrentFiles(p: Plan, fs: map<string, seq<byte>>, d: Disk)
    requires |p.names| == |p.lengths|
  {
    && (forall name | name in fs :: name in d.fs && d.fs[name] == fs[name])
    && (forall name | name in d.fs && name !in fs ::
          exists k :: 0 <= k < |p.names| && p.lengths[k] > 0 && p.names[k] == name)
  }

  /** Every file of the finished torrent: non-empty files hold their slice of the content and are
      closed, having received each byte once; nothing else in the file system has changed. */
  ghost predicate Finished(p: Plan, content: seq<byte>, fs: map<string, seq<byte>>, d: Disk) {
    && |p.names| == |p.lengths| == |d.files|
    && (forall k | 0 <= k < |p.lengths| :: FinishedFile(p, content, d, k))
    && OnlyTorrentFiles(p, fs, d)
  }

  lemma NamesFinished(p: Plan, fs: map<string, seq<byte>>, d: Disk, cov: seq<set<nat>>)
    requires |p.names| == |p.lengths| == |cov| && NamesInv(p, fs, d, cov)
    requires forall k | 0 <= k < |cov| :: p.lengths[k] > 0 <==> cov[k] != {}
    ensures NamesUsable(p, fs) && OnlyTorrentFiles(p, fs, d)
  {
  }

  lemma FinishedDisk(p: Plan, content: seq<byte>, fs: map<string, seq<byte>>, d: Disk, log: seq<nat>)
    requires ValidPlan(p) && |content| == p.g.total && CompleteLog(p.g, log)
    requires DiskInv(p, content, fs, d, CoveredFiles(p, Elems(log)))
    ensures Finished(p, content, fs, d) && NamesUsable(p, fs)
  {
    var cov := CoveredFiles(p, Elems(log));
    PlanFacts(p);
    hide Covered, Interval, ValidPlan, FileInv, CompleteLog, FinishedFile, NamesInv, OnlyTorrentFiles, NamesUsable,
         Off, Owner;
    forall k | 0 <= k < |p.lengths|
      ensures FinishedFile(p, content, d, k) && (p.lengths[k] > 0 <==> cov[k] != {})
    {
      FileInContent(p, k);
      EverythingCovered(p, log, k);
      EmptyInterval(p.lengths[k]);
      assert cov[k] == Covered(p, Elems(log), k);
      assert FileInv(p, content, d, k, cov[k]);
      FileFinished(p, content, d, k);
    }
    NamesFinished(p, fs, d, cov);
  }

  /** Writing every piece once, in any order, succeeds exactly when the download is writable, and then
      every file holds its slice of the content. */
  lemma WritingAllPieces(p: Plan, content: seq<byte>, fs: map<string, seq<byte>>, log: seq<nat>)
    requires ValidPlan(p) && |content| == p.g.total && CompleteLog(p.g, log)
    ensures var r := WriteAllF(p, content, fs, log);
            && (r.Some? <==> Writable(p, fs))
            && (r.Some? ==> Finished(p, content, fs, r.value))
  {
    hide *;
    PlanFacts(p);
    LogFacts(p.g, log);
    AllWritten(p, content, fs, log);
    var r := WriteAllF(p, content, fs, log);
    if r.Some? {
      SuccessNeedsCuts(p, content, fs, log);
      AllPiecesCutIff(p.g, p.lengths);
    }
    if FitsIn32Bits(p.g) && EmptyFilesLast(p.lengths) {
      AllInPlace(p);
      if r.Some? {
        FinishedDisk(p, content, fs, r.value, log);
      }
    }
    WritableIs(p, fs);
  }

  lemma WritableIs(p: Plan, fs: map<string, seq<byte>>)
    requires |p.names| == |p.lengths|
    ensures Writable(p, fs) <==> FitsIn32Bits(p.g) && EmptyFilesLast(p.lengths) && NamesUsable(p, fs)
  {
  }

  lemma LogFacts(g: Geometry, log: seq<nat>)
    requires CompleteLog(g, log)
    ensures PiecesOf(g, log) && forall i | i in log :: i < g.count
  {
  }

  /** Below 2^32, and with empty files last, every piece is in place. */
  lemma AllInPlace(p: Plan)
    requires ValidPlan(p) && FitsIn32Bits(p.g) && EmptyFilesLast(p.lengths)
    ensures forall i: nat | i < p.g.count :: InPlace(p, i) && !Misplaced(p, i)
  {
    forall i: nat | i < p.g.count
      ensures InPlace(p, i) && !Misplaced(p, i)
    {
      MulMonotone(i + 1, p.g.count, p.g.pieceSize);
      PieceBounds(p.g, i);
      PieceSizeExact(p.g, i);
      hide ValidSizes, PieceStart, PieceEnd, Off, Misplaced;
      OnePlace(p, i);
    }
  }

  lemma {:induction false} CutOnSuccess(p: Plan, content: seq<byte>, fs: map<string, seq<byte>>, log: seq<nat>, i: nat)
    requires p.lengths != [] && |content| == p.g.total
    requires WriteAllF(p, content, fs, log).Some? && i in log
    ensures PieceCut(p.g, p.lengths, i)
    decreases |log|
  {
    var n := |log| - 1;
    hide WritePieceF, PieceCut, PieceData, NewDisk;
    if log[n] == i {
      var before := WriteAllF(p, content, fs, log[..n]);
      CutIfWritten(p, before.value, i, PieceData(p.g, content, i));
    } else {
      assert log == log[..n] + [log[n]];
      CutOnSuccess(p, content, fs, log[..n], i);
    }
  }

  lemma CutIfWritten(p: Plan, d: Disk, i: nat, data: seq<byte>)
    requires p.lengths != [] && WritePieceF(p, d, i, data).Some?
    ensures PieceCut(p.g, p.lengths, i)
  {
    hide IterateF, PieceLo, PieceHi, WriteSegmentF;
    var segs := IterateF(p.lengths, PieceLo(p.g, i), PieceHi(p.g, i)).value;
    forall j | 0 <= j < |segs|
      ensures segs[j].bytes > 0
    {
      NonEmptyIfWritten(p, d, segs, data, j);
    }
  }

  lemma {:induction false} NonEmptyIfWritten(p: Plan, d: Disk, segs: seq<FilePiece>, data: seq<byte>, j: nat)
    requires WriteSegmentsF(p, d, segs, data).Some? && j < |segs|
    ensures segs[j].bytes > 0
    decreases |segs|
  {
    hide TryCreateF, WriteF, TryFinalizeF;
    var n := |segs| - 1;
    if j < n {
      NonEmptyIfWritten(p, d, segs[..n], data, j);
    }
  }

  lemma SuccessNeedsCuts(p: Plan, content: seq<byte>, fs: map<string, seq<byte>>, log: seq<nat>)
    requires ValidPlan(p) && |content| == p.g.total && CompleteLog(p.g, log)
    requires WriteAllF(p, content, fs, log).Some?
    ensures AllPiecesCut(p.g, p.lengths)
  {
    hide PieceCut, WriteAllF, ValidSizes;
    forall i | 0 <= i < p.g.count
      ensures PieceCut(p.g, p.lengths, i)
    {
      assert i in log;
      CutOnSuccess(p, content, fs, log, i);
    }
  }

  // ---- A misplaced piece ----

  lemma {:induction false} FileHolding(lengths: seq<nat>, b: nat) returns (k: nat)
    requires b < Sum(lengths)
    ensures k < |lengths| && Off(lengths, k) <= b < Off(lengths, k) + lengths[k]
    decreases |lengths|
  {
    var n := |lengths| - 1;
    if b < Sum(lengths[..n]) {
      k := FileHolding(lengths[..n], b);
      assert lengths[..n][..k] == lengths[..k];
    } else {
      k := n;
    }
  }

  function Ones(size: nat): seq<byte> {
    seq(size, _ => 1)
  }

  /** The bytes of the piece, and where they went. */
  lemma OnesMoved(size: nat, a: nat, b: nat, n: nat)
    requires a + n <= size && b + n <= size
    ensures Ones(size)[a..a + n] == Ones(size)[b..b + n]
  {
  }

  lemma MisplacedRange(p: Plan, i: nat)
    requires ValidPlan(p) && i < p.g.count && Misplaced(p, i)
    ensures PieceEnd(p.g, i) == PieceStart(p.g, i) + p.g.pieceSize
    ensures TWO_32 <= PieceStart(p.g, i) < p.g.total && PieceStart(p.g, i) == i * p.g.pieceSize
  {
    PieceBounds(p.g, i);
    hide NoEmptyFileIn;
    assert (i + 1) * p.g.pieceSize == i * p.g.pieceSize + p.g.pieceSize;
  }

  /** A misplaced piece, written alone, goes where another piece belongs: nothing fails, and the piece's own
      bytes are missing. */
  lemma MisplacedIsWritten(p: Plan, fs: map<string, seq<byte>>, i: nat)
    requires ValidPlan(p) && i < p.g.count && Misplaced(p, i) && NamesUsable(p, fs)
    ensures p.g.pieceSize > 0
    ensures var r := WriteAllF(p, Ones(p.g.total), fs, [i]);
            r.Some? && !DiskInv(p, Ones(p.g.total), fs, r.value, CoveredFiles(p, {i}))
  {
    hide *;
    PlanFacts(p);
    var content, none := Ones(p.g.total), CoveredFiles(p, {});
    OnesSize(p.g.total);
    DiskAtStart(p, content, fs);
    var segs := PlaceIsCut(p, i);
    var lo, hi := PieceLo(p.g, i), PieceHi(p.g, i);
    CutIs(p, lo, hi, segs);
    CutRange(p, lo, hi, segs);
    MisplacedRange(p, i);
    OnePlaceOnly(p, i);
    PieceDataIs(p.g, content, i);
    OnesMoved(p.g.total, PieceStart(p.g, i), lo, p.g.pieceSize);
    CoveredSize(p, {});
    NothingCovered(p, lo, hi);
    RangeWritten(p, content, fs, NewDisk(fs, |p.lengths|), none, lo, hi, segs);
    WritePieceUnfold(p, NewDisk(fs, |p.lengths|), i, segs, PieceData(p.g, content, i));
    WriteOne(p, content, fs, i);
    var d := WriteAllF(p, content, fs, [i]).value;
    ByteMissing(p, content, fs, d, i, lo, hi);
  }

  lemma OnesSize(size: nat)
    ensures |Ones(size)| == size && forall x | 0 <= x < size :: Ones(size)[x] == 1
  {
  }

  lemma CutRange(p: Plan, lo: nat, hi: nat, segs: seq<FilePiece>)
    requires p.lengths != [] && CutOf(p, lo, hi, segs)
    ensures lo < hi
  {
    hide IterateF, AllNonEmpty;
  }

  lemma OnePlaceOnly(p: Plan, i: nat)
    requires Misplaced(p, i)
    ensures !InPlace(p, i)
  {
    if InPlace(p, i) {
      OnePlace(p, i);
    }
  }

  lemma NothingCovered(p: Plan, lo: nat, hi: nat)
    requires p.g.pieceSize > 0 && |CoveredFiles(p, {})| == |p.lengths|
    ensures RangeFree(p, CoveredFiles(p, {}), lo, hi)
  {
    hide RangeIn, Owner;
  }

  lemma WriteOne(p: Plan, content: seq<byte>, fs: map<string, seq<byte>>, i: nat)
    requires p.lengths != [] && |content| == p.g.total
    ensures WriteAllF(p, content, fs, [i])
            == WritePieceF(p, NewDisk(fs, |p.lengths|), i, PieceData(p.g, content, i))
  {
    hide WritePieceF, PieceData, NewDisk;
    assert [i][..0] == [];
  }

  lemma NotCovered(p: Plan, content: seq<byte>, fs: map<string, seq<byte>>, d: Disk, cov: seq<set<nat>>, k: nat, j: nat)
    requires DiskInv(p, content, fs, d, cov) && k < |cov| && j < p.lengths[k] && j !in cov[k]
    ensures d.files[k].written == 0
         || (p.names[k] in d.fs && j < |d.fs[p.names[k]]| && d.fs[p.names[k]][j] == 0)
  {
    hide NamesInv, Off;
    assert FileInv(p, content, d, k, cov[k]);
  }

  lemma IsCovered(p: Plan, content: seq<byte>, fs: map<string, seq<byte>>, d: Disk, cov: seq<set<nat>>, k: nat, j: nat)
    requires DiskInv(p, content, fs, d, cov) && k < |cov| && j < p.lengths[k] && j in cov[k]
    requires Off(p.lengths, k) + j < |content|
    ensures d.files[k].written > 0
    ensures p.names[k] in d.fs && j < |d.fs[p.names[k]]| && d.fs[p.names[k]][j] == content[Off(p.lengths, k) + j]
  {
    hide NamesInv, Off;
    assert FileInv(p, content, d, k, cov[k]);
  }

  /** The first byte of the piece is in a file that was not given it. */
  lemma ByteMissing(p: Plan, content: seq<byte>, fs: map<string, seq<byte>>, d: Disk, i: nat, lo: nat, hi: nat)
    requires ValidPlan(p) && p.g.pieceSize > 0 && i < p.g.count && hi <= PieceStart(p.g, i) < p.g.total
    requires |content| == p.g.total && (forall x | 0 <= x < |content| :: content[x] == 1)
    requires |CoveredFiles(p, {})| == |p.lengths|
    requires DiskInv(p, content, fs, d, WithRange(p, CoveredFiles(p, {}), lo, hi))
    ensures !DiskInv(p, content, fs, d, CoveredFiles(p, {i}))
  {
    hide DiskInv, RangeIn, Off, ValidSizes, Owner;
    var b := PieceStart(p.g, i);
    var k := FileHolding(p.lengths, b);
    var j := b - Off(p.lengths, k);
    PieceBounds(p.g, i);
    OwnerIff(p.g, b, i);
    OwnerIs(p, k, j);
    InRangeIn(p, lo, hi, k, j);
    var wrong, right := WithRange(p, CoveredFiles(p, {}), lo, hi), CoveredFiles(p, {i});
    assert j in right[k] && j !in wrong[k];
    NotCovered(p, content, fs, d, wrong, k, j);
    hide Covered, PieceStart, PieceEnd;
    if DiskInv(p, content, fs, d, right) {
      IsCovered(p, content, fs, d, right, k, j);
    }
  }

  lemma OwnerIs(p: Plan, k: nat, j: nat)
    requires k < |p.lengths| && p.g.pieceSize > 0
    ensures Owner(p, k, j) == (Off(p.lengths, k) + j) / p.g.pieceSize
  {
  }
}
