/** The files of a torrent laid end to end, and the split of a byte range into per-file pieces. */
module Layout {
  import opened Machine
  import opened Client

  datatype FileOffset = FileOffset(start: nat, end: nat, index: nat)

  /** A part of one file inside a byte range; pieceOffset counts from the start of the range. */
  datatype FilePiece = FilePiece(index: nat, fileOffset: nat, bytes: nat, pieceOffset: nat, fileSize: nat)

  // ---- Offsets ----

  /** Where file k starts in the content. */
  function Off(lengths: seq<nat>, k: nat): nat
    requires k <= |lengths|
  {
    Sum(lengths[..k])
  }

  lemma OffStep(lengths: seq<nat>, k: nat)
    requires k < |lengths|
    ensures Off(lengths, k + 1) == Off(lengths, k) + lengths[k]
  {
    assert lengths[..k + 1][..k] == lengths[..k];
  }

  lemma {:induction false} OffMonotone(lengths: seq<nat>, j: nat, k: nat)
    requires j <= k <= |lengths|
    ensures Off(lengths, j) <= Off(lengths, k)
    decreases k
  {
    hide Off;
    if j < k {
      OffMonotone(lengths, j, k - 1);
      OffStep(lengths, k - 1);
    }
  }

  lemma OffEnds(lengths: seq<nat>)
    ensures Off(lengths, 0) == 0 && Off(lengths, |lengths|) == Sum(lengths)
  {
    assert lengths[..|lengths|] == lengths;
  }

  /** Everything about the offsets that the searches use. */
  lemma OffFacts(lengths: seq<nat>)
    ensures Off(lengths, 0) == 0 && Off(lengths, |lengths|) == Sum(lengths)
    ensures forall k {:trigger lengths[k]} | 0 <= k < |lengths| :: Off(lengths, k + 1) == Off(lengths, k) + lengths[k]
    ensures forall j, k | 0 <= j <= k <= |lengths| :: Off(lengths, j) <= Off(lengths, k)
  {
    hide Off;
    OffEnds(lengths);
    forall k | 0 <= k < |lengths|
      ensures Off(lengths, k + 1) == Off(lengths, k) + lengths[k]
    {
      OffStep(lengths, k);
    }
    forall j, k | 0 <= j <= k <= |lengths|
      ensures Off(lengths, j) <= Off(lengths, k)
    {
      OffMonotone(lengths, j, k);
    }
  }

  /** The offsets as the loop computes them, in 64-bit arithmetic. */
  function OffsetsF(lengths: seq<nat>): (offsets: seq<FileOffset>)
    ensures |offsets| == |lengths|
  {
    if lengths == [] then [] else
    var n := |lengths| - 1;
    var before := OffsetsF(lengths[..n]);
    var start := if n == 0 then 0 else before[n - 1].end;
    before + [FileOffset(start, U64(start + lengths[n]), n)]
  }

  method MakeOffsets(lengths: seq<nat>) returns (offsets: seq<FileOffset>)
    ensures offsets == OffsetsF(lengths)
  {
    offsets := [];
    var fo := FileOffset(0, 0, 0);
    for index := 0 to |lengths|
      invariant offsets == OffsetsF(lengths[..index])
      invariant fo.start == if index == 0 then 0 else offsets[index - 1].end
    {
      assert lengths[..index + 1][..index] == lengths[..index];
      fo := fo.(end := U64(fo.start + lengths[index]), index := index);
      offsets := offsets + [fo];
      fo := fo.(start := fo.end);
    }
    assert lengths[..|lengths|] == lengths;
  }

  lemma {:induction false} OffsetAt(lengths: seq<nat>, k: nat)
    requires Sum(lengths) < TWO_64 && k < |lengths|
    ensures OffsetsF(lengths)[k] == FileOffset(Off(lengths, k), Off(lengths, k + 1), k)
    decreases |lengths|
  {
    var n := |lengths| - 1;
    var init := lengths[..n];
    if k < n {
      OffsetAt(init, k);
      assert init[..k] == lengths[..k] && init[..k + 1] == lengths[..k + 1];
    } else {
      OffEnds(lengths);
      if n > 0 {
        OffsetAt(init, n - 1);
        assert init[..n] == init;
      }
    }
  }

  lemma LastOffset(lengths: seq<nat>)
    requires Sum(lengths) < TWO_64
    ensures (if lengths == [] then 0 else OffsetsF(lengths)[|lengths| - 1].end) == Sum(lengths)
  {
    if lengths != [] {
      OffsetAt(lengths, |lengths| - 1);
    }
    OffEnds(lengths);
  }

  /** The first offset that wraps around is a file that ends before it starts. */
  lemma {:induction false} SomeOffsetWraps(lengths: seq<nat>) returns (k: nat)
    requires forall i | 0 <= i < |lengths| :: lengths[i] < TWO_64
    requires Sum(lengths) >= TWO_64
    ensures k < |lengths| && OffsetsF(lengths)[k].start > OffsetsF(lengths)[k].end
    decreases |lengths|
  {
    var n := |lengths| - 1;
    var init := lengths[..n];
    if Sum(init) >= TWO_64 {
      k := SomeOffsetWraps(init);
      assert OffsetsF(lengths)[k] == OffsetsF(init)[k];
    } else {
      k := n;
      LastOffset(init);
      assert OffsetsF(lengths)[n].start == Sum(init);
      assert OffsetsF(lengths)[n].end == U64(Sum(lengths)) == Sum(lengths) - TWO_64;
    }
  }

  /** No file ends before it starts exactly when the lengths sum to less than 2^64. */
  lemma OffsetsOrderedIff(lengths: seq<nat>)
    requires forall k | 0 <= k < |lengths| :: lengths[k] < TWO_64
    ensures (forall k | 0 <= k < |lengths| :: OffsetsF(lengths)[k].start <= OffsetsF(lengths)[k].end)
            <==> Sum(lengths) < TWO_64
  {
    hide OffsetsF, Sum;
    if Sum(lengths) < TWO_64 {
      forall k | 0 <= k < |lengths|
        ensures OffsetsF(lengths)[k].start <= OffsetsF(lengths)[k].end
      {
        OffsetAt(lengths, k);
        OffStep(lengths, k);
      }
    } else {
      var k := SomeOffsetWraps(lengths);
    }
  }

  // ---- Searching ----

  /** The first position, from i on, that holds at least key. */
  function FirstAtLeast(s: seq<nat>, i: nat, key: nat): (r: nat)
    requires i <= |s|
    ensures i <= r <= |s|
    ensures forall j | i <= j < r :: s[j] < key
    ensures r < |s| ==> s[r] >= key
    decreases |s| - i
  {
    if i < |s| && s[i] < key then FirstAtLeast(s, i + 1, key) else i
  }

  /** std::lower_bound on [from, |s|), which must be sorted. */
  method LowerBound(s: seq<nat>, from: nat, key: nat) returns (r: nat)
    requires from <= |s|
    requires forall j, k | from <= j <= k < |s| :: s[j] <= s[k]
    ensures r == FirstAtLeast(s, from, key)
  {
    var low, count := from, |s| - from;
    while count > 0
      invariant from <= low <= low + count <= |s|
      invariant forall j | from <= j < low :: s[j] < key
      invariant low + count < |s| ==> s[low + count] >= key
      decreases count
    {
      var half := count / 2;
      if s[low + half] < key {
        low := low + half + 1;
        count := count - half - 1;
      } else {
        count := half;
      }
    }
    return low;
  }

  function Starts(lengths: seq<nat>): seq<nat> {
    seq(|lengths|, k requires 0 <= k < |lengths| => Off(lengths, k))
  }

  function Ends(lengths: seq<nat>): seq<nat> {
    seq(|lengths|, k requires 0 <= k < |lengths| => Off(lengths, k + 1))
  }

  /** The file the first byte of a range is looked up in. */
  function StartFile(lengths: seq<nat>, lo: nat): (a: nat)
    requires lengths != []
    ensures a < |lengths|
  {
    var r := FirstAtLeast(Starts(lengths), 0, lo);
    var a := if r == |lengths| then |lengths| - 1 else r;
    if Off(lengths, a) > lo && a > 0 then a - 1 else a
  }

  function EndFile(lengths: seq<nat>, a: nat, hi: nat): (b: nat)
    requires a <= |lengths|
    ensures a <= b <= |lengths|
  {
    FirstAtLeast(Ends(lengths), a, hi)
  }

  /** File k starts before the range ends, and ends after the range starts. */
  predicate Touches(lengths: seq<nat>, lo: nat, hi: nat, k: nat) {
    && k < |lengths|
    && Off(lengths, k) < hi && lo < Off(lengths, k + 1)
    && Off(lengths, k) <= Off(lengths, k + 1)
  }

  /** The part of the range [lo, hi) that lies in file k. */
  function Segment(lengths: seq<nat>, lo: nat, hi: nat, k: nat): FilePiece
    requires lo < hi && Touches(lengths, lo, hi, k)
  {
    var start := Max(lo, Off(lengths, k));
    FilePiece(k, start - Off(lengths, k), Min(Off(lengths, k + 1), hi) - start, start - lo, lengths[k])
  }

  /** The assertion after the first search: the byte found lies in the file found. */
  predicate StartFound(lengths: seq<nat>, lo: nat)
    requires lengths != []
  {
    var a := StartFile(lengths, lo);
    Off(lengths, a) <= lo < Off(lengths, a + 1)
  }

  /** The range cut along the file boundaries; None is a failed assertion. */
  function IterateF(lengths: seq<nat>, lo: nat, hi: nat): Option<seq<FilePiece>>
    requires lengths != []
  {
    if hi <= lo || !StartFound(lengths, lo) then None else
    var a := StartFile(lengths, lo);
    var b := EndFile(lengths, a, hi);
    if b == |lengths| then None else
    SearchesMeet(lengths, lo, hi);
    Some(seq(b + 1 - a, j requires 0 <= j < b + 1 - a => Segment(lengths, lo, hi, a + j)))
  }

  /** Between the two files found every file overlaps the range or is empty inside it. */
  lemma SearchesMeet(lengths: seq<nat>, lo: nat, hi: nat)
    requires lengths != [] && lo < hi && StartFound(lengths, lo)
    ensures var a := StartFile(lengths, lo);
            var b := EndFile(lengths, a, hi);
            b < |lengths| ==>
              && a <= b
              && (forall k | a <= k <= b :: Touches(lengths, lo, hi, k))
              && hi <= Off(lengths, b + 1)
  {
    OffFacts(lengths);
    hide Off, StartFile;
    var a := StartFile(lengths, lo);
    var b := EndFile(lengths, a, hi);
    if b < |lengths| {
      assert Ends(lengths)[b] == Off(lengths, b + 1);
      forall k | a <= k <= b
        ensures Touches(lengths, lo, hi, k)
      {
        assert Off(lengths, a + 1) <= Off(lengths, k + 1);
        if k > a {
          assert Ends(lengths)[k - 1] < hi;
        }
      }
    }
  }

  lemma OffsetsMatch(lengths: seq<nat>)
    requires Sum(lengths) < TWO_64
    ensures forall k | 0 <= k < |lengths| ::
              OffsetsF(lengths)[k] == FileOffset(Off(lengths, k), Off(lengths, k + 1), k)
  {
    hide Off, OffsetsF;
    forall k | 0 <= k < |lengths|
      ensures OffsetsF(lengths)[k] == FileOffset(Off(lengths, k), Off(lengths, k + 1), k)
    {
      OffsetAt(lengths, k);
    }
  }

  lemma SortedOffsets(lengths: seq<nat>)
    ensures forall j, k | 0 <= j <= k < |lengths| :: Starts(lengths)[j] <= Starts(lengths)[k]
    ensures forall j, k | 0 <= j <= k < |lengths| :: Ends(lengths)[j] <= Ends(lengths)[k]
  {
    OffFacts(lengths);
    hide Off;
  }

  function StartsOf(offsets: seq<FileOffset>): seq<nat> {
    seq(|offsets|, k requires 0 <= k < |offsets| => offsets[k].start)
  }

  function EndsOf(offsets: seq<FileOffset>): seq<nat> {
    seq(|offsets|, k requires 0 <= k < |offsets| => offsets[k].end)
  }

  /** What the two searches look through. */
  lemma SearchedOffsets(lengths: seq<nat>, offsets: seq<FileOffset>)
    requires Sum(lengths) < TWO_64 && offsets == OffsetsF(lengths)
    ensures StartsOf(offsets) == Starts(lengths) && EndsOf(offsets) == Ends(lengths)
    ensures |Starts(lengths)| == |Ends(lengths)| == |offsets|
    ensures forall j, k | 0 <= j <= k < |lengths| :: Starts(lengths)[j] <= Starts(lengths)[k]
    ensures forall j, k | 0 <= j <= k < |lengths| :: Ends(lengths)[j] <= Ends(lengths)[k]
  {
    OffsetsMatch(lengths);
    SortedOffsets(lengths);
    hide Off, OffsetsF, Sum;
    forall k | 0 <= k < |offsets|
      ensures offsets[k].start == Starts(lengths)[k] && offsets[k].end == Ends(lengths)[k]
    {
      assert offsets[k] == FileOffset(Off(lengths, k), Off(lengths, k + 1), k);
    }
    hide Starts, Ends;
  }

  /** The two searches; None is a failed assertion. */
  method FindFiles(lengths: seq<nat>, offsets: seq<FileOffset>, lo: nat, hi: nat) returns (r: Option<(nat, nat)>)
    requires lengths != [] && Sum(lengths) < TWO_64
    requires offsets == OffsetsF(lengths)
    requires lo < hi
    ensures r == if StartFound(lengths, lo) && EndFile(lengths, StartFile(lengths, lo), hi) < |lengths|
                 then Some((StartFile(lengths, lo), EndFile(lengths, StartFile(lengths, lo), hi)))
                 else None
  {
    hide Off, OffsetsF, Sum, Starts, Ends, FirstAtLeast, StartsOf, EndsOf;
    SearchedOffsets(lengths, offsets);
    var starts, ends := StartsOf(offsets), EndsOf(offsets);
    OffEnds(lengths);
    var itStart := LowerBound(starts, 0, lo);
    if itStart == |offsets| {
      itStart := |offsets| - 1;
    }
    OffsetAt(lengths, itStart);
    if offsets[itStart].start > lo {
      itStart := itStart - 1;
    }
    assert itStart == StartFile(lengths, lo);
    OffsetAt(lengths, itStart);
    if !(offsets[itStart].start <= lo < offsets[itStart].end) {
      return None;
    }
    var itEnd := LowerBound(ends, itStart, hi);
    if itEnd == |offsets| {
      return None;
    }
    return Some((itStart, itEnd));
  }

  lemma Touched(lengths: seq<nat>, lo: nat, hi: nat, k: nat, b: nat)
    requires Touches(lengths, lo, hi, k) && k <= b && (forall i | k <= i <= b :: Touches(lengths, lo, hi, i))
    ensures Off(lengths, k) < hi && lo < Off(lengths, k + 1) && Off(lengths, k) <= Off(lengths, k + 1)
    ensures k < b ==> Off(lengths, k + 1) < hi
  {
    hide Off;
    if k < b {
      assert Touches(lengths, lo, hi, k + 1);
    }
  }

  lemma SegmentOf(lengths: seq<nat>, lo: nat, hi: nat, k: nat)
    requires lo < hi && Touches(lengths, lo, hi, k)
    ensures var start, end := Max(lo, Off(lengths, k)), Min(Off(lengths, k + 1), hi);
            && Segment(lengths, lo, hi, k) == FilePiece(k, start - Off(lengths, k), end - start, start - lo, lengths[k])
            && start <= end
            && (Off(lengths, k + 1) < hi ==> end == Max(lo, Off(lengths, k + 1)))
  {
    hide Off;
  }

  method IterateFiles(lengths: seq<nat>, offsets: seq<FileOffset>, lo: nat, hi: nat)
    returns (r: Option<seq<FilePiece>>)
    requires lengths != [] && Sum(lengths) < TWO_64
    requires offsets == OffsetsF(lengths)
    ensures r == IterateF(lengths, lo, hi)
  {
    hide Off, OffsetsF, Sum, StartFile, EndFile, StartFound, Touches, Segment, Reached, Max, Min;
    if hi <= lo {
      return None;
    }
    var found := FindFiles(lengths, offsets, lo, hi);
    if found.None? {
      return None;
    }
    var (itStart, itEnd) := found.value;
    CutEnds(lengths, offsets, lo, hi, itStart, itEnd);
    hide *;
    CutStep(lengths, offsets, lo, hi, itStart, itEnd, itEnd);
    assert itEnd >= itStart && offsets[itEnd].start < hi <= offsets[itEnd].end;

    ghost var all := IterateF(lengths, lo, hi).value;
    var pieces: seq<FilePiece> := [];
    var dataOffset := 0;
    var it := itStart;
    while it != itEnd + 1
      invariant itStart <= it <= itEnd + 1
      invariant dataOffset == Reached(lengths, lo, hi, it, itEnd)
      invariant pieces == all[..it - itStart]
      decreases itEnd + 1 - it
    {
      CutStep(lengths, offsets, lo, hi, itStart, itEnd, it);
      var fo := offsets[it];
      var startOffset := Max(lo, fo.start);
      var endOffset := Min(fo.end, hi);
      var piece := FilePiece(fo.index, startOffset - fo.start, endOffset - startOffset, dataOffset, lengths[fo.index]);
      pieces := pieces + [piece];
      assert pieces == all[..it + 1 - itStart];
      dataOffset := dataOffset + piece.bytes;
      it := it + 1;
    }
    assert dataOffset == hi - lo by {
      RangeConsumed(lengths, lo, hi, itEnd);
    }
    assert pieces == all;
    return Some(pieces);
  }

  /** How much of the range has been consumed before file k, when the last file is b. */
  ghost function Reached(lengths: seq<nat>, lo: nat, hi: nat, k: nat, b: nat): int {
    if k == b + 1 then hi - lo else if k <= |lengths| then Max(lo, Off(lengths, k)) - lo else 0
  }

  lemma RangeConsumed(lengths: seq<nat>, lo: nat, hi: nat, b: nat)
    ensures Reached(lengths, lo, hi, b + 1, b) == hi - lo
  {
  }

  ghost predicate CutBetween(lengths: seq<nat>, offsets: seq<FileOffset>, lo: nat, hi: nat, a: nat, b: nat) {
    && lengths != [] && Sum(lengths) < TWO_64 && offsets == OffsetsF(lengths)
    && lo < hi && StartFound(lengths, lo) && a == StartFile(lengths, lo) && b == EndFile(lengths, a, hi) < |lengths|
  }

  lemma CutEnds(lengths: seq<nat>, offsets: seq<FileOffset>, lo: nat, hi: nat, a: nat, b: nat)
    requires CutBetween(lengths, offsets, lo, hi, a, b)
    ensures a <= b < |lengths| == |offsets|
    ensures Reached(lengths, lo, hi, a, b) == 0
    ensures hi <= offsets[b].end
    ensures IterateF(lengths, lo, hi).Some? && |IterateF(lengths, lo, hi).value| == b + 1 - a
  {
    OffsetsMatch(lengths);
    CutFacts(lengths, lo, hi);
    hide Off, OffsetsF, Sum, StartFile, EndFile, StartFound, IterateF, Touches, Segment;
  }

  lemma CutStep(lengths: seq<nat>, offsets: seq<FileOffset>, lo: nat, hi: nat, a: nat, b: nat, k: nat)
    requires CutBetween(lengths, offsets, lo, hi, a, b) && a <= k <= b < |offsets| == |lengths|
    requires IterateF(lengths, lo, hi).Some? && |IterateF(lengths, lo, hi).value| == b + 1 - a
    ensures offsets[k].start < hi && offsets[k].index == k
    ensures var start, end := Max(lo, offsets[k].start), Min(offsets[k].end, hi);
            && start <= end
            && start - lo == Reached(lengths, lo, hi, k, b)
            && end - lo == Reached(lengths, lo, hi, k + 1, b)
            && IterateF(lengths, lo, hi).value[k - a]
               == FilePiece(k, start - offsets[k].start, end - start, start - lo, lengths[k])
  {
    OffsetsMatch(lengths);
    CutFacts(lengths, lo, hi);
    hide Off, OffsetsF, Sum, StartFile, EndFile, StartFound, IterateF, Touches, Segment;
    Touched(lengths, lo, hi, k, b);
    SegmentOf(lengths, lo, hi, k);
    assert IterateF(lengths, lo, hi).value[k - a] == Segment(lengths, lo, hi, k);
  }

  // ---- What the pieces are ----

  /** The files found, and the pieces as the overlaps of the range with the files from a to b. */
  lemma CutFacts(lengths: seq<nat>, lo: nat, hi: nat)
    requires lengths != [] && lo < hi && StartFound(lengths, lo)
    requires EndFile(lengths, StartFile(lengths, lo), hi) < |lengths|
    ensures var a := StartFile(lengths, lo);
            var b := EndFile(lengths, a, hi);
            && a <= b
            && Off(lengths, a) <= lo && hi <= Off(lengths, b + 1)
            && (forall k | a <= k <= b :: Touches(lengths, lo, hi, k))
            && IterateF(lengths, lo, hi).Some?
            && |IterateF(lengths, lo, hi).value| == b + 1 - a
            && forall j | 0 <= j < b + 1 - a :: IterateF(lengths, lo, hi).value[j] == Segment(lengths, lo, hi, a + j)
  {
    hide Off, StartFile, EndFile, Segment, Touches;
    SearchesMeet(lengths, lo, hi);
  }

  lemma CutNeedsBothSearches(lengths: seq<nat>, lo: nat, hi: nat)
    requires lengths != [] && IterateF(lengths, lo, hi).Some?
    ensures lo < hi && StartFound(lengths, lo)
    ensures EndFile(lengths, StartFile(lengths, lo), hi) < |lengths|
  {
    hide Off, StartFile, EndFile, Segment;
  }

  lemma SegmentFacts(lengths: seq<nat>, lo: nat, hi: nat, k: nat)
    requires lo < hi && Touches(lengths, lo, hi, k)
    ensures var piece := Segment(lengths, lo, hi, k);
            && piece.index == k && piece.fileSize == lengths[k]
            && Off(lengths, k) + piece.fileOffset == lo + piece.pieceOffset
            && piece.fileOffset + piece.bytes <= lengths[k]
            && piece.pieceOffset == Max(lo, Off(lengths, k)) - lo
            && piece.pieceOffset + piece.bytes == Min(Off(lengths, k + 1), hi) - lo
            && (lengths[k] == 0 ==> piece.bytes == 0 && lo <= Off(lengths, k))
            && (lengths[k] > 0 ==> piece.bytes > 0)
  {
    OffStep(lengths, k);
    hide Off;
  }

  /** Each piece maps its bytes to the right place of the right file. */
  ghost predicate PiecesInPlace(lengths: seq<nat>, lo: nat, pieces: seq<FilePiece>) {
    forall j | 0 <= j < |pieces| ::
      && pieces[j].index == pieces[0].index + j < |lengths|
      && Off(lengths, pieces[j].index) + pieces[j].fileOffset == lo + pieces[j].pieceOffset
      && pieces[j].fileOffset + pieces[j].bytes <= lengths[pieces[j].index] == pieces[j].fileSize
  }

  /** The pieces follow one another without gaps, from 0 to size. */
  ghost predicate PiecesTile(pieces: seq<FilePiece>, size: int) {
    && |pieces| > 0
    && pieces[0].pieceOffset == 0
    && (forall j | 0 < j < |pieces| :: pieces[j - 1].pieceOffset + pieces[j - 1].bytes == pieces[j].pieceOffset)
    && pieces[|pieces| - 1].pieceOffset + pieces[|pieces| - 1].bytes == size
  }

  /** The pieces of a range cut it up, in order, and say where in the files its bytes belong. */
  lemma RangePartition(lengths: seq<nat>, lo: nat, hi: nat)
    requires lengths != [] && IterateF(lengths, lo, hi).Some?
    ensures PiecesInPlace(lengths, lo, IterateF(lengths, lo, hi).value)
    ensures PiecesTile(IterateF(lengths, lo, hi).value, hi - lo)
  {
    hide Off, StartFile, EndFile, StartFound, Segment, IterateF, Touches;
    CutNeedsBothSearches(lengths, lo, hi);
    CutFacts(lengths, lo, hi);
    var pieces := IterateF(lengths, lo, hi).value;
    var a := StartFile(lengths, lo);
    var b := EndFile(lengths, a, hi);
    SegmentFacts(lengths, lo, hi, a);
    SegmentFacts(lengths, lo, hi, b);
    forall j | 0 <= j < |pieces|
      ensures pieces[j].index == pieces[0].index + j < |lengths|
      ensures Off(lengths, pieces[j].index) + pieces[j].fileOffset == lo + pieces[j].pieceOffset
      ensures pieces[j].fileOffset + pieces[j].bytes <= lengths[pieces[j].index] == pieces[j].fileSize
    {
      SegmentFacts(lengths, lo, hi, a + j);
    }
    forall j | 0 < j < |pieces|
      ensures pieces[j - 1].pieceOffset + pieces[j - 1].bytes == pieces[j].pieceOffset
    {
      Neighbours(lengths, lo, hi, a + j - 1);
    }
  }

  lemma Neighbours(lengths: seq<nat>, lo: nat, hi: nat, k: nat)
    requires lo < hi && Touches(lengths, lo, hi, k) && Touches(lengths, lo, hi, k + 1)
    ensures Segment(lengths, lo, hi, k).pieceOffset + Segment(lengths, lo, hi, k).bytes
            == Segment(lengths, lo, hi, k + 1).pieceOffset
  {
    OffStep(lengths, k);
    OffStep(lengths, k + 1);
    hide Off;
  }

  ghost predicate Overlaps(lengths: seq<nat>, lo: nat, hi: nat, k: nat)
    requires k < |lengths|
  {
    Max(lo, Off(lengths, k)) < Min(hi, Off(lengths, k + 1))
  }

  /** File k has a piece exactly when it overlaps the range, or is empty and starts strictly inside it;
      the piece is the overlap. */
  lemma PieceOfFile(lengths: seq<nat>, lo: nat, hi: nat, k: nat)
    requires lengths != [] && IterateF(lengths, lo, hi).Some? && k < |lengths|
    ensures Off(lengths, k) <= Off(lengths, k + 1)
    ensures |IterateF(lengths, lo, hi).value| > 0
    ensures var pieces := IterateF(lengths, lo, hi).value;
            var j := k - pieces[0].index;
            && (Overlaps(lengths, lo, hi, k) ==>
                  0 <= j < |pieces| && Touches(lengths, lo, hi, k) && pieces[j] == Segment(lengths, lo, hi, k))
            && (!Overlaps(lengths, lo, hi, k) && 0 <= j < |pieces| ==> lengths[k] == 0)
            && (0 <= j < |pieces| && lengths[k] == 0 ==> pieces[j].bytes == 0 && lo <= Off(lengths, k) < hi)
            && (0 <= j < |pieces| && lengths[k] > 0 ==> pieces[j].bytes > 0)
            && (lengths[k] == 0 && lo < Off(lengths, k) < hi ==> 0 <= j < |pieces|)
  {
    hide Off, StartFile, EndFile, Segment, IterateF;
    CutNeedsBothSearches(lengths, lo, hi);
    CutFacts(lengths, lo, hi);
    var a := StartFile(lengths, lo);
    var b := EndFile(lengths, a, hi);
    var pieces := IterateF(lengths, lo, hi).value;
    assert Touches(lengths, lo, hi, a) && Touches(lengths, lo, hi, b);
    assert pieces[0] == Segment(lengths, lo, hi, a);
    SegmentFacts(lengths, lo, hi, a);
    OffStep(lengths, k);
    if k < a {
      OffMonotone(lengths, k + 1, a);
    } else if k > b {
      OffMonotone(lengths, b + 1, k);
    } else {
      assert pieces[k - a] == Segment(lengths, lo, hi, k);
      SegmentFacts(lengths, lo, hi, k);
    }
  }

  /** The first search lands on the file holding the first byte exactly when no empty file starts there. */
  lemma StartFoundIff(lengths: seq<nat>, lo: nat)
    requires lengths != [] && lo < Sum(lengths)
    ensures StartFound(lengths, lo)
            <==> forall k | 0 <= k < |lengths| :: lengths[k] == 0 ==> Off(lengths, k) != lo
  {
    OffFacts(lengths);
    hide Off;
    var n, a := |lengths|, StartFile(lengths, lo);
    var r := FirstAtLeast(Starts(lengths), 0, lo);
    assert forall k | 0 <= k < r :: Off(lengths, k) == Starts(lengths)[k] < lo;
    if r < n && Off(lengths, r) == lo {
      assert a == r;
      if lengths[r] > 0 {
        forall k | 0 <= k < n && lengths[k] == 0
          ensures Off(lengths, k) != lo
        {
          if k > r {
            assert Off(lengths, r + 1) <= Off(lengths, k);
          }
        }
      }
    } else {
      assert Off(lengths, a) < lo < Off(lengths, a + 1);
      forall k | 0 <= k < n
        ensures Off(lengths, k) != lo
      {
        if r <= k {
          assert Off(lengths, r) <= Off(lengths, k);
        }
      }
    }
  }

  lemma EndIsFound(lengths: seq<nat>, lo: nat, hi: nat)
    requires lengths != [] && lo < hi <= Sum(lengths) && StartFound(lengths, lo)
    ensures IterateF(lengths, lo, hi).Some?
  {
    OffEnds(lengths);
    hide Off, StartFile, Sum;
    var n := |lengths|;
    assert Ends(lengths)[n - 1] == Off(lengths, n) == Sum(lengths);
  }

  ghost predicate AllNonEmpty(pieces: Option<seq<FilePiece>>) {
    pieces.Some? && forall j | 0 <= j < |pieces.value| :: pieces.value[j].bytes > 0
  }

  ghost predicate NoEmptyFileIn(lengths: seq<nat>, lo: nat, hi: nat) {
    forall k | 0 <= k < |lengths| :: lengths[k] == 0 ==> !(lo <= Off(lengths, k) < hi)
  }

  /** A range is cut without a failed assertion, its pieces all non-empty, exactly when no empty file
      starts inside it. */
  lemma IterateIff(lengths: seq<nat>, lo: nat, hi: nat)
    requires lengths != [] && lo < hi <= Sum(lengths)
    ensures AllNonEmpty(IterateF(lengths, lo, hi)) <==> NoEmptyFileIn(lengths, lo, hi)
  {
    hide Off, IterateF, StartFound, Segment, Sum, Overlaps;
    StartFoundIff(lengths, lo);
    if StartFound(lengths, lo) {
      EndIsFound(lengths, lo, hi);
      RangePartition(lengths, lo, hi);
      var pieces := IterateF(lengths, lo, hi).value;
      if NoEmptyFileIn(lengths, lo, hi) {
        forall j | 0 <= j < |pieces|
          ensures pieces[j].bytes > 0
        {
          PieceOfFile(lengths, lo, hi, pieces[j].index);
        }
      }
      if AllNonEmpty(Some(pieces)) {
        forall k | 0 <= k < |lengths| && lengths[k] == 0
          ensures !(lo <= Off(lengths, k) < hi)
        {
          PieceOfFile(lengths, lo, hi, k);
        }
      }
    } else {
      NoStartNoCut(lengths, lo, hi);
    }
  }

  lemma NoStartNoCut(lengths: seq<nat>, lo: nat, hi: nat)
    requires lengths != [] && !StartFound(lengths, lo)
    ensures IterateF(lengths, lo, hi).None?
  {
    hide Off, StartFile, StartFound, EndFile, Segment;
  }

  // ---- The range of a piece, in 32-bit arithmetic ----

  function PieceLo(g: Geometry, i: nat): nat {
    U32(i * g.pieceSize)
  }

  function PieceHi(g: Geometry, i: nat): nat {
    Min(U32(U32(i + 1) * g.pieceSize), g.total)
  }

  /** The 32-bit range is the true one exactly when the end of the piece, as if full, stays below 2^32. */
  lemma PieceRangeIff(g: Geometry, i: nat)
    requires ValidSizes(g) && i < g.count
    ensures PieceLo(g, i) == PieceStart(g, i) && PieceHi(g, i) == PieceEnd(g, i)
            <==> (i + 1) * g.pieceSize < TWO_32
  {
    PieceBounds(g, i);
    WrappedOnce(i + 1);
    var start, end := i * g.pieceSize, (i + 1) * g.pieceSize;
    assert end == start + g.pieceSize;
    if start >= TWO_32 {
      assert PieceLo(g, i) < TWO_32;
    } else if end >= TWO_32 {
      CrossingPiece(g, i);
    } else {
      WrappedOnce(start);
      WrappedOnce(end);
    }
    hide U32, ValidSizes;
  }

  /** The piece that crosses 2^32 gets an end before its start. */
  lemma CrossingPiece(g: Geometry, i: nat)
    requires ValidSizes(g) && i < g.count
    requires i * g.pieceSize < TWO_32 <= (i + 1) * g.pieceSize
    ensures PieceHi(g, i) < PieceLo(g, i)
  {
    var start, end := i * g.pieceSize, (i + 1) * g.pieceSize;
    assert end == start + g.pieceSize;
    WrappedOnce(start);
    WrappedOnce(end);
    WrappedOnce(i + 1);
    hide U32;
  }

  lemma WrappedOnce(x: nat)
    requires x < 2 * TWO_32
    ensures U32(x) == if x < TWO_32 then x else x - TWO_32
  {
  }

  /** Every piece of the torrent can be cut along the files. */
  ghost predicate AllPiecesCut(g: Geometry, lengths: seq<nat>)
    requires lengths != []
  {
    forall i | 0 <= i < g.count :: PieceCut(g, lengths, i)
  }

  ghost predicate PieceCut(g: Geometry, lengths: seq<nat>, i: nat)
    requires lengths != []
  {
    AllNonEmpty(IterateF(lengths, PieceLo(g, i), PieceHi(g, i)))
  }

  /** The sizes the 32-bit ranges can handle: a caller can check them before starting. */
  predicate FitsIn32Bits(g: Geometry) {
    g.count * g.pieceSize < TWO_32
  }

  /** Empty files are only found after the last byte of the content. */
  ghost predicate EmptyFilesLast(lengths: seq<nat>) {
    forall k | 0 <= k < |lengths| :: lengths[k] == 0 ==> Off(lengths, k) == Sum(lengths)
  }

  lemma CrossingPieceExists(g: Geometry) returns (i: nat)
    requires ValidSizes(g) && !FitsIn32Bits(g)
    ensures i < g.count && i * g.pieceSize < TWO_32 <= (i + 1) * g.pieceSize
  {
    i := (TWO_32 - 1) / g.pieceSize;
    DivideUnique(TWO_32 - 1, i, g.pieceSize);
    if g.count <= i {
      MulMonotone(g.count, i, g.pieceSize);
      assert false;
    }
  }

  lemma CrossingPieceIsNotCut(g: Geometry, lengths: seq<nat>, i: nat)
    requires lengths != [] && PieceHi(g, i) < PieceLo(g, i)
    ensures !PieceCut(g, lengths, i)
  {
    hide PieceLo, PieceHi;
  }

  lemma CutNeeds32Bits(g: Geometry, lengths: seq<nat>)
    requires ValidSizes(g) && lengths != [] && AllPiecesCut(g, lengths)
    ensures FitsIn32Bits(g)
  {
    hide ValidSizes, FitsIn32Bits, PieceCut, PieceLo, PieceHi;
    if !FitsIn32Bits(g) {
      var i := CrossingPieceExists(g);
      CrossingPiece(g, i);
      CrossingPieceIsNotCut(g, lengths, i);
    }
  }

  lemma RangeFits(g: Geometry, i: nat)
    requires ValidSizes(g) && FitsIn32Bits(g) && i < g.count
    ensures PieceLo(g, i) == PieceStart(g, i) && PieceHi(g, i) == PieceEnd(g, i)
    ensures PieceStart(g, i) < PieceEnd(g, i) <= g.total
  {
    MulMonotone(i + 1, g.count, g.pieceSize);
    PieceRangeIff(g, i);
    PieceBounds(g, i);
  }

  /** The piece that holds byte b of the content. */
  lemma PieceHolding(g: Geometry, b: nat) returns (i: nat)
    requires ValidSizes(g) && b < g.total
    ensures i == b / g.pieceSize
    ensures i < g.count && PieceStart(g, i) <= b < PieceEnd(g, i)
  {
    ValidSizesMeaning(g);
    hide ValidSizes;
    i := b / g.pieceSize;
    DivideUnique(b, i, g.pieceSize);
    if g.count <= i {
      MulMonotone(g.count, i, g.pieceSize);
      assert false;
    }
  }

  lemma CutNeedsEmptyFilesLast(g: Geometry, lengths: seq<nat>, k: nat)
    requires ValidSizes(g) && lengths != [] && Sum(lengths) == g.total && AllPiecesCut(g, lengths)
    requires k < |lengths| && lengths[k] == 0
    ensures Off(lengths, k) == Sum(lengths)
  {
    hide *;
    CutNeeds32Bits(g, lengths);
    OffMonotone(lengths, k, |lengths|);
    OffEnds(lengths);
    var b := Off(lengths, k);
    if b < g.total {
      var i := PieceHolding(g, b);
      RangeFits(g, i);
      OnePieceCut(g, lengths, i);
      IterateIff(lengths, PieceStart(g, i), PieceEnd(g, i));
      NotInside(lengths, PieceStart(g, i), PieceEnd(g, i), k);
    }
  }

  lemma OnePieceCut(g: Geometry, lengths: seq<nat>, i: nat)
    requires lengths != [] && AllPiecesCut(g, lengths) && i < g.count
    ensures AllNonEmpty(IterateF(lengths, PieceLo(g, i), PieceHi(g, i)))
  {
    assert PieceCut(g, lengths, i);
  }

  lemma NotInside(lengths: seq<nat>, lo: nat, hi: nat, k: nat)
    requires NoEmptyFileIn(lengths, lo, hi) && k < |lengths| && lengths[k] == 0
    ensures !(lo <= Off(lengths, k) < hi)
  {
  }

  /** All pieces are cut without a failed assertion exactly when the sizes fit in 32 bits and empty
      files come last. */
  lemma AllPiecesCutIff(g: Geometry, lengths: seq<nat>)
    requires ValidSizes(g) && lengths != [] && Sum(lengths) == g.total
    ensures AllPiecesCut(g, lengths) <==> FitsIn32Bits(g) && EmptyFilesLast(lengths)
  {
    hide Off, IterateF, ValidSizes, FitsIn32Bits, PieceLo, PieceHi;
    if AllPiecesCut(g, lengths) {
      CutNeeds32Bits(g, lengths);
      forall k | 0 <= k < |lengths| && lengths[k] == 0
        ensures Off(lengths, k) == Sum(lengths)
      {
        CutNeedsEmptyFilesLast(g, lengths, k);
      }
    }
    if FitsIn32Bits(g) && EmptyFilesLast(lengths) {
      forall i | 0 <= i < g.count
        ensures PieceCut(g, lengths, i)
      {
        RangeFits(g, i);
        IterateIff(lengths, PieceStart(g, i), PieceEnd(g, i));
      }
    }
  }
}
