/**
 Writing pieces to disk, as functions of the disk state, and what is on disk after any
 sequence of writes. The classes in disk_files.dfy are proved equal to these functions.
 */
module Disk {
  import opened Machine
  import opened Client
  import opened Layout

  /** One open-or-closed output file and the number of bytes written to it. */
  datatype Phys = Phys(handle: Option<string>, written: nat)

  /** The file system, by name, and the output files of the torrent. A directory is an entry whose name
      ends in '/'; the current directory, which always exists, is not an entry. */
  datatype Disk = Disk(fs: map<string, seq<byte>>, files: seq<Phys>)

  /** What the torrent prescribes: piece sizes, file lengths and file names. */
  datatype Plan = Plan(g: Geometry, lengths: seq<nat>, names: seq<string>)

  ghost predicate ValidPlan(p: Plan) {
    && ValidSizes(p.g)
    && p.lengths != []
    && |p.names| == |p.lengths|
    && Sum(p.lengths) == p.g.total
  }

  function Zeros(size: nat): seq<byte> {
    seq(size, _ => 0)
  }

  /** data written at off; the file grows if it is too short. */
  function Overwrite(file: seq<byte>, off: nat, data: seq<byte>): seq<byte> {
    var padded := if off <= |file| then file else file + Zeros(off - |file|);
    padded[..off] + data + if off + |data| <= |file| then file[off + |data|..] else []
  }

  /** The directory part of a name, up to and with its last '/'; a name that ends in '/' is a directory. */
  function Parent(name: string): (d: string)
    ensures d == "" || d[|d| - 1] == '/'
    ensures name != "" && name[|name| - 1] == '/' ==> d == name
  {
    if name == "" || name[|name| - 1] == '/' then name else Parent(name[..|name| - 1])
  }

  /** A name is a directory part and a base name without '/'; the directory part is exactly what comes before. */
  lemma {:induction false} ParentIs(dir: string, base: string)
    requires dir == "" || dir[|dir| - 1] == '/'
    requires '/' !in base
    ensures Parent(dir + base) == dir
    decreases |base|
  {
    if base == "" {
      assert dir + base == dir;
    } else {
      var n := |base| - 1;
      assert base[n] in base;
      assert (dir + base)[..|dir + base| - 1] == dir + base[..n];
      ParentIs(dir, base[..n]);
    }
  }

  /** A file of that name can be created: it names a file, in a directory that exists, and there is neither a
      file nor a directory of that name. */
  predicate Creatable(fs: map<string, seq<byte>>, name: string) {
    && Parent(name) != name
    && (Parent(name) != "" ==> Parent(name) in fs)
    && name !in fs
    && name + "/" !in fs
  }

  /** What must be there, and what must not, for a file to be created. */
  lemma CreatableIff(fs: map<string, seq<byte>>, dir: string, base: string)
    requires dir == "" || dir[|dir| - 1] == '/'
    requires '/' !in base
    ensures Creatable(fs, dir + base) <==>
              && base != "" && (dir == "" || dir in fs)
              && dir + base !in fs && dir + base + "/" !in fs
  {
    ParentIs(dir, base);
    if base == "" {
      assert dir + base == dir;
    } else {
      assert |dir + base| > |dir|;
    }
  }

  /** Creation fails, with an assertion, when no file of that name can be created. */
  function TryCreateF(d: Disk, k: nat, name: string, size: nat): Option<Disk>
    requires k < |d.files|
  {
    if d.files[k].handle.Some? then Some(d)
    else if !Creatable(d.fs, name) then None
    else Some(Disk(d.fs[name := Zeros(size)], d.files[k := d.files[k].(handle := Some(name))]))
  }

  function WriteF(d: Disk, k: nat, data: seq<byte>, off: nat): Option<Disk>
    requires k < |d.files|
  {
    var file := d.files[k];
    if file.handle.None? || file.handle.value !in d.fs then None else
    var name := file.handle.value;
    Some(Disk(d.fs[name := Overwrite(d.fs[name], off, data)],
              d.files[k := file.(written := file.written + |data|)]))
  }

  /** The file is closed by the write that completes it. */
  function TryFinalizeF(d: Disk, k: nat, size: nat): Option<Disk>
    requires k < |d.files|
  {
    var file := d.files[k];
    if file.written > size then None
    else if file.written == size then Some(d.(files := d.files[k := file.(handle := None)]))
    else Some(d)
  }

  /** How a write ends: done, a failed assertion, or bytes read from outside the piece's data. */
  datatype Ending = Stored | Failed | ReadPast

  /** The assertions on the part hold and the file can be opened, but the part ends after the data. */
  predicate ReadsPast(p: Plan, d: Disk, seg: FilePiece, data: seq<byte>) {
    && seg.index < |d.files| && seg.index < |p.names|
    && seg.pieceOffset < |data| < seg.pieceOffset + seg.bytes
    && TryCreateF(d, seg.index, p.names[seg.index], seg.fileSize).Some?
  }

  /** One part of a file; None is a failed assertion or a read past the data. */
  function WriteSegmentF(p: Plan, d: Disk, seg: FilePiece, data: seq<byte>): Option<Disk> {
    if seg.index >= |d.files| || seg.index >= |p.names| || seg.bytes == 0 || seg.pieceOffset + seg.bytes > |data| then
      None
    else
      var created := TryCreateF(d, seg.index, p.names[seg.index], seg.fileSize);
      if created.None? then None else
      var part := data[seg.pieceOffset..seg.pieceOffset + seg.bytes];
      var written := WriteF(created.value, seg.index, part, seg.fileOffset);
      if written.None? then None else
      TryFinalizeF(written.value, seg.index, seg.fileSize)
  }

  function WriteSegmentsF(p: Plan, d: Disk, segs: seq<FilePiece>, data: seq<byte>): Option<Disk> {
    if segs == [] then Some(d) else
    var before := WriteSegmentsF(p, d, segs[..|segs| - 1], data);
    if before.None? then None else WriteSegmentF(p, before.value, segs[|segs| - 1], data)
  }

  /** A completed piece; None is a failed assertion or a read past the data. */
  function WritePieceF(p: Plan, d: Disk, i: nat, data: seq<byte>): Option<Disk>
    requires p.lengths != []
  {
    var segs := IterateF(p.lengths, PieceLo(p.g, i), PieceHi(p.g, i));
    if data == [] || segs.None? then None else WriteSegmentsF(p, d, segs.value, data)
  }

  /** The parts before one are written, and that one is read past the data. */
  ghost predicate PieceReadsPast(p: Plan, d: Disk, i: nat, data: seq<byte>)
    requires p.lengths != []
  {
    var segs := IterateF(p.lengths, PieceLo(p.g, i), PieceHi(p.g, i));
    data != [] && segs.Some? && exists j :: 0 <= j < |segs.value| && StopsAt(p, d, segs.value, data, j)
  }

  ghost predicate StopsAt(p: Plan, d: Disk, segs: seq<FilePiece>, data: seq<byte>, j: nat)
    requires j < |segs|
  {
    var before := WriteSegmentsF(p, d, segs[..j], data);
    before.Some? && ReadsPast(p, before.value, segs[j], data)
  }

  ghost function SegmentEnding(p: Plan, d: Disk, seg: FilePiece, data: seq<byte>): Ending {
    if WriteSegmentF(p, d, seg, data).Some? then Stored else if ReadsPast(p, d, seg, data) then ReadPast else Failed
  }

  ghost function PieceEnding(p: Plan, d: Disk, i: nat, data: seq<byte>): Ending
    requires p.lengths != []
  {
    if WritePieceF(p, d, i, data).Some? then Stored else if PieceReadsPast(p, d, i, data) then ReadPast else Failed
  }

  /** The bytes of piece i of the content. */
  function PieceData(g: Geometry, content: seq<byte>, i: nat): seq<byte>
    requires |content| == g.total
  {
    if PieceStart(g, i) <= PieceEnd(g, i) <= |content| then content[PieceStart(g, i)..PieceEnd(g, i)] else []
  }

  function NewDisk(fs: map<string, seq<byte>>, n: nat): Disk {
    Disk(fs, seq(n, _ => Phys(None, 0)))
  }

  /** The true pieces written in the order of the log. */
  function WriteAllF(p: Plan, content: seq<byte>, fs: map<string, seq<byte>>, log: seq<nat>): Option<Disk>
    requires p.lengths != [] && |content| == p.g.total
  {
    if log == [] then Some(NewDisk(fs, |p.lengths|)) else
    var n := |log| - 1;
    var before := WriteAllF(p, content, fs, log[..n]);
    if before.None? then None else WritePieceF(p, before.value, log[n], PieceData(p.g, content, log[n]))
  }

  // ---- What is on disk ----

  ghost predicate AtLeast(j: nat, a: nat) {
    a <= j
  }

  ghost function Interval(a: nat, b: nat): set<nat> {
    set j: nat | j < b && AtLeast(j, a)
  }

  lemma {:induction false} IntervalSize(a: nat, b: nat)
    requires a <= b
    ensures |Interval(a, b)| == b - a
    decreases b
  {
    if a < b {
      IntervalSize(a, b - 1);
      assert Interval(a, b) == Interval(a, b - 1) + {b - 1};
    }
  }

  lemma SubsetSize(a: set<nat>, b: set<nat>)
    requires a <= b
    ensures |a| <= |b|
    ensures |a| == |b| ==> a == b
  {
    assert b == a + (b - a);
  }

  /** The file with the name of file k holds the content's bytes at the offsets in covered, and zeros
      everywhere else. */
  ghost predicate HoldsContent(p: Plan, content: seq<byte>, fs: map<string, seq<byte>>, k: nat, covered: set<nat>)
    requires k < |p.lengths| == |p.names|
  {
    && p.names[k] in fs
    && |fs[p.names[k]]| == p.lengths[k]
    && (forall j: nat | j in covered && j < p.lengths[k] && Off(p.lengths, k) + j < |content| ::
          fs[p.names[k]][j] == content[Off(p.lengths, k) + j])
    && (forall j: nat | j !in covered && j < p.lengths[k] :: fs[p.names[k]][j] == 0)
  }

  /** File k when exactly the offsets in covered have been written, each once: its counter is their
      number, it is open while there is some but not all, and it holds the content there. */
  ghost predicate FileInv(p: Plan, content: seq<byte>, d: Disk, k: nat, covered: set<nat>)
    requires k < |p.lengths| == |p.names| == |d.files|
  {
    && covered <= Interval(0, p.lengths[k])
    && d.files[k].written == |covered|
    && d.files[k].handle == (if 0 < |covered| < p.lengths[k] then Some(p.names[k]) else None)
    && (covered != {} ==> HoldsContent(p, content, d.fs, k, covered))
  }

  /** The names of files that have been started are theirs alone and were free before. */
  ghost predicate NamesInv(p: Plan, fs0: map<string, seq<byte>>, d: Disk, cov: seq<set<nat>>)
    requires |p.lengths| == |p.names| == |cov|
  {
    && (forall k | 0 <= k < |cov| && cov[k] != {} :: Creatable(fs0, p.names[k]))
    && (forall k, k' | 0 <= k < k' < |cov| && cov[k] != {} && cov[k'] != {} :: p.names[k] != p.names[k'])
    && (forall name | name in fs0 :: name in d.fs && d.fs[name] == fs0[name])
    && (forall name | name in d.fs && name !in fs0 :: exists k :: 0 <= k < |cov| && cov[k] != {} && p.names[k] == name)
  }

  ghost predicate DiskInv(p: Plan, content: seq<byte>, fs0: map<string, seq<byte>>, d: Disk, cov: seq<set<nat>>) {
    && |p.lengths| == |p.names| == |d.files| == |cov|
    && (forall k | 0 <= k < |cov| :: FileInv(p, content, d, k, cov[k]))
    && NamesInv(p, fs0, d, cov)
  }

  /** File k can be created: nobody has its name. */
  ghost predicate NameFree(p: Plan, fs0: map<string, seq<byte>>, cov: seq<set<nat>>, k: nat)
    requires |p.names| == |cov| && k < |p.names|
  {
    Creatable(fs0, p.names[k]) && forall k' | 0 <= k' < |cov| && cov[k'] != {} :: p.names[k'] != p.names[k]
  }

  // ---- One part of one file ----

  /** The part belongs to file k, lies outside what is covered, and carries the content's bytes. */
  ghost predicate TrueSegment(p: Plan, content: seq<byte>, seg: FilePiece, data: seq<byte>, covered: set<nat>) {
    && seg.index < |p.lengths| == |p.names|
    && seg.fileSize == p.lengths[seg.index]
    && seg.bytes > 0
    && seg.fileOffset + seg.bytes <= seg.fileSize
    && seg.pieceOffset + seg.bytes <= |data|
    && Off(p.lengths, seg.index) + seg.fileSize <= |content|
    && (var at := Off(p.lengths, seg.index) + seg.fileOffset;
        data[seg.pieceOffset..seg.pieceOffset + seg.bytes] == content[at..at + seg.bytes])
    && Interval(seg.fileOffset, seg.fileOffset + seg.bytes) !! covered
  }

  /** File k open with the covered offsets written. */
  ghost predicate OpenInv(p: Plan, content: seq<byte>, d: Disk, k: nat, covered: set<nat>)
    requires k < |p.lengths| == |p.names| == |d.files|
  {
    && covered <= Interval(0, p.lengths[k])
    && d.files[k] == Phys(Some(p.names[k]), |covered|)
    && HoldsContent(p, content, d.fs, k, covered)
  }

  /** d' differs from d in file k, and in the file system at one name, only. */
  ghost predicate OnlyFile(d: Disk, d': Disk, k: nat, name: string) {
    && |d.files| == |d'.files|
    && (forall i | 0 <= i < |d.files| && i != k :: d'.files[i] == d.files[i])
    && (forall x | x in d.fs :: x in d'.fs)
    && (forall x | x in d'.fs && x != name :: x in d.fs && d'.fs[x] == d.fs[x])
  }

  lemma Created(p: Plan, content: seq<byte>, d: Disk, k: nat, covered: set<nat>)
    requires k < |p.lengths| == |p.names| == |d.files|
    requires FileInv(p, content, d, k, covered) && |covered| < p.lengths[k]
    ensures var r := TryCreateF(d, k, p.names[k], p.lengths[k]);
            && (r.Some? <==> covered != {} || Creatable(d.fs, p.names[k]))
            && (r.Some? ==> OpenInv(p, content, r.value, k, covered) && OnlyFile(d, r.value, k, p.names[k]))
  {
    hide Off;
  }

  lemma OverwriteAt(file: seq<byte>, off: nat, data: seq<byte>)
    requires off + |data| <= |file|
    ensures |Overwrite(file, off, data)| == |file|
    ensures forall j | 0 <= j < |file| ::
              Overwrite(file, off, data)[j] == if off <= j < off + |data| then data[j - off] else file[j]
  {
  }

  /** What a write leaves, inside the file or past its end: the data, the old bytes, and zeros in a gap. */
  lemma OverwriteMeans(file: seq<byte>, off: nat, data: seq<byte>)
    ensures |Overwrite(file, off, data)| == Max(|file|, off + |data|)
    ensures forall j | 0 <= j < |Overwrite(file, off, data)| ::
              Overwrite(file, off, data)[j]
              == if off <= j < off + |data| then data[j - off] else if j < |file| then file[j] else 0
  {
  }

  /** Whatever is on disk: a part that is written is counted, never beyond the size of the file, and closes the
      file exactly when it completes it. */
  lemma PartIsCounted(p: Plan, d: Disk, seg: FilePiece, data: seq<byte>)
    requires WriteSegmentF(p, d, seg, data).Some?
    ensures seg.index < |d.files|
    ensures var file, file' := d.files[seg.index], WriteSegmentF(p, d, seg, data).value.files[seg.index];
            && file'.written == file.written + seg.bytes <= seg.fileSize
            && (file'.handle == None <==> file'.written == seg.fileSize)
            && seg.bytes > 0 && seg.pieceOffset + seg.bytes <= |data|
  {
    hide Overwrite, Creatable;
  }

  lemma Written(p: Plan, content: seq<byte>, d: Disk, seg: FilePiece, data: seq<byte>, covered: set<nat>)
    requires TrueSegment(p, content, seg, data, covered)
    requires |d.files| == |p.lengths| && OpenInv(p, content, d, seg.index, covered)
    ensures var r := WriteF(d, seg.index, data[seg.pieceOffset..seg.pieceOffset + seg.bytes], seg.fileOffset);
            && r.Some?
            && OpenInv(p, content, r.value, seg.index,
                       covered + Interval(seg.fileOffset, seg.fileOffset + seg.bytes))
            && OnlyFile(d, r.value, seg.index, p.names[seg.index])
  {
    hide Off, Interval, Overwrite, HoldsContent;
    var part := data[seg.pieceOffset..seg.pieceOffset + seg.bytes];
    CoveredGrows(p.lengths[seg.index], covered, seg.fileOffset, seg.fileOffset + seg.bytes);
    FileExists(p, content, d.fs, seg.index, covered);
    OverwriteHolds(p, content, d.fs, seg, part, covered);
  }

  lemma CoveredGrows(length: nat, covered: set<nat>, a: nat, b: nat)
    requires covered <= Interval(0, length) && Interval(a, b) !! covered && a <= b <= length
    ensures covered + Interval(a, b) <= Interval(0, length)
    ensures |covered + Interval(a, b)| == |covered| + (b - a)
  {
    IntervalSize(a, b);
    assert |covered + Interval(a, b)| == |covered| + |Interval(a, b)|;
  }

  lemma FileExists(p: Plan, content: seq<byte>, fs: map<string, seq<byte>>, k: nat, covered: set<nat>)
    requires k < |p.lengths| == |p.names| && HoldsContent(p, content, fs, k, covered)
    ensures p.names[k] in fs
  {
    hide Off;
  }

  lemma OverwriteHolds(p: Plan, content: seq<byte>, fs: map<string, seq<byte>>, seg: FilePiece, part: seq<byte>,
                       covered: set<nat>)
    requires seg.index < |p.lengths| == |p.names|
    requires HoldsContent(p, content, fs, seg.index, covered)
    requires |part| == seg.bytes && seg.fileOffset + seg.bytes <= p.lengths[seg.index]
    requires var at := Off(p.lengths, seg.index) + seg.fileOffset;
             at + seg.bytes <= |content| && part == content[at..at + seg.bytes]
    ensures var name := p.names[seg.index];
            HoldsContent(p, content, fs[name := Overwrite(fs[name], seg.fileOffset, part)], seg.index,
                         covered + Interval(seg.fileOffset, seg.fileOffset + seg.bytes))
  {
    hide Off;
    OverwriteAt(fs[p.names[seg.index]], seg.fileOffset, part);
    hide Overwrite;
    var at := Off(p.lengths, seg.index) + seg.fileOffset;
    forall t | 0 <= t < |part|
      ensures part[t] == content[at + t]
    {
      assert content[at..at + seg.bytes][t] == content[at + t];
    }
  }

  lemma Finalized(p: Plan, content: seq<byte>, d: Disk, k: nat, covered: set<nat>)
    requires k < |p.lengths| == |p.names| == |d.files|
    requires OpenInv(p, content, d, k, covered) && covered != {}
    ensures var r := TryFinalizeF(d, k, p.lengths[k]);
            && r.Some?
            && FileInv(p, content, r.value, k, covered)
            && OnlyFile(d, r.value, k, p.names[k])
  {
    hide Off;
    IntervalSize(0, p.lengths[k]);
    SubsetSize(covered, Interval(0, p.lengths[k]));
    hide Interval;
  }

  lemma RoomLeft(length: nat, covered: set<nat>, a: nat, b: nat)
    requires covered <= Interval(0, length) && a < b <= length && Interval(a, b) !! covered
    ensures |covered| < length
  {
    IntervalSize(0, length);
    assert a in Interval(a, b) && a in Interval(0, length);
    SubsetSize(covered, Interval(0, length));
  }

  lemma SegmentGuards(p: Plan, content: seq<byte>, d: Disk, seg: FilePiece, data: seq<byte>, covered: set<nat>)
    requires TrueSegment(p, content, seg, data, covered) && |d.files| == |p.lengths|
    ensures seg.index < |p.lengths| == |p.names| && seg.fileSize == p.lengths[seg.index]
    ensures seg.pieceOffset + seg.bytes <= |data|
    ensures Interval(seg.fileOffset, seg.fileOffset + seg.bytes) != {}
    ensures FileInv(p, content, d, seg.index, covered) ==> |covered| < p.lengths[seg.index]
    ensures var created := TryCreateF(d, seg.index, p.names[seg.index], p.lengths[seg.index]);
            WriteSegmentF(p, d, seg, data)
            == if created.None? then None else
               var written := WriteF(created.value, seg.index,
                                     data[seg.pieceOffset..seg.pieceOffset + seg.bytes], seg.fileOffset);
               if written.None? then None else TryFinalizeF(written.value, seg.index, p.lengths[seg.index])
  {
    NotEmptyInterval(seg.fileOffset, seg.fileOffset + seg.bytes);
    if FileInv(p, content, d, seg.index, covered) {
      RoomLeft(p.lengths[seg.index], covered, seg.fileOffset, seg.fileOffset + seg.bytes);
    }
    hide FileInv, TryCreateF, WriteF, TryFinalizeF, Interval, Off;
  }

  /** The write succeeds exactly when the file is open or can be created, and adds its offsets. */
  lemma SegmentSteps(p: Plan, content: seq<byte>, d: Disk, seg: FilePiece, data: seq<byte>, covered: set<nat>)
    requires TrueSegment(p, content, seg, data, covered) && |d.files| == |p.lengths|
    requires FileInv(p, content, d, seg.index, covered)
    ensures var r := WriteSegmentF(p, d, seg, data);
            && (r.Some? <==> covered != {} || Creatable(d.fs, p.names[seg.index]))
            && (r.Some? ==>
                  && OnlyFile(d, r.value, seg.index, p.names[seg.index])
                  && FileInv(p, content, r.value, seg.index,
                             covered + Interval(seg.fileOffset, seg.fileOffset + seg.bytes)))
  {
    SegmentGuards(p, content, d, seg, data, covered);
    hide FileInv, OpenInv, OnlyFile, TrueSegment, WriteSegmentF, TryCreateF, WriteF, TryFinalizeF, Interval;
    var k, added := seg.index, Interval(seg.fileOffset, seg.fileOffset + seg.bytes);
    Created(p, content, d, k, covered);
    var created := TryCreateF(d, k, p.names[k], p.lengths[k]);
    if created.Some? {
      OnlySize(d, created.value, k, p.names[k]);
      Written(p, content, created.value, seg, data, covered);
      var written := WriteF(created.value, k, data[seg.pieceOffset..seg.pieceOffset + seg.bytes], seg.fileOffset);
      OnlySize(created.value, written.value, k, p.names[k]);
      Finalized(p, content, written.value, k, covered + added);
      OnlyTwice(d, created.value, written.value, k, p.names[k]);
      OnlyTwice(d, written.value, TryFinalizeF(written.value, k, p.lengths[k]).value, k, p.names[k]);
    }
  }

  lemma OnlySize(d: Disk, d': Disk, k: nat, name: string)
    requires OnlyFile(d, d', k, name)
    ensures |d.files| == |d'.files|
  {
  }

  lemma OnlyTwice(a: Disk, b: Disk, c: Disk, k: nat, name: string)
    requires OnlyFile(a, b, k, name) && OnlyFile(b, c, k, name)
    ensures OnlyFile(a, c, k, name)
  {
  }

  lemma NotEmptyInterval(a: nat, b: nat)
    requires a < b
    ensures Interval(a, b) != {}
  {
    assert a in Interval(a, b);
  }

  lemma NameFreeIff(p: Plan, content: seq<byte>, fs0: map<string, seq<byte>>, d: Disk, cov: seq<set<nat>>, k: nat)
    requires DiskInv(p, content, fs0, d, cov) && k < |cov|
    ensures Creatable(d.fs, p.names[k]) <==> NameFree(p, fs0, cov, k)
  {
    hide Off, Interval;
    if k' :| 0 <= k' < |cov| && cov[k'] != {} && p.names[k'] == p.names[k] {
      assert FileInv(p, content, d, k', cov[k']);
    }
  }

  lemma OtherFileKept(p: Plan, content: seq<byte>, d: Disk, d': Disk, k: nat, i: nat, covered: set<nat>)
    requires |p.lengths| == |p.names| == |d.files| && k < |d.files| && i < |d.files| && i != k
    requires FileInv(p, content, d, i, covered) && OnlyFile(d, d', k, p.names[k])
    requires covered != {} ==> p.names[i] != p.names[k]
    ensures FileInv(p, content, d', i, covered)
  {
    hide Off, Interval;
  }

  lemma NamesKept(p: Plan, fs0: map<string, seq<byte>>, d: Disk, d': Disk, cov: seq<set<nat>>, k: nat, added: set<nat>)
    requires |p.lengths| == |p.names| == |cov| && k < |cov| && added != {}
    requires NamesInv(p, fs0, d, cov) && OnlyFile(d, d', k, p.names[k])
    requires cov[k] != {} || NameFree(p, fs0, cov, k)
    ensures NamesInv(p, fs0, d', cov[k := cov[k] + added])
  {
    var cov' := cov[k := cov[k] + added];
    assert forall i | 0 <= i < |cov| && i != k :: cov'[i] == cov[i];
    assert cov'[k] != {};
    forall name | name in d'.fs && name !in fs0
      ensures exists i :: 0 <= i < |cov'| && cov'[i] != {} && p.names[i] == name
    {
      if name != p.names[k] {
        var i :| 0 <= i < |cov| && cov[i] != {} && p.names[i] == name;
        assert cov'[i] != {};
      }
    }
  }

  lemma SegmentWritten(p: Plan, content: seq<byte>, fs0: map<string, seq<byte>>, d: Disk, cov: seq<set<nat>>,
                       seg: FilePiece, data: seq<byte>)
    requires DiskInv(p, content, fs0, d, cov)
    requires seg.index < |cov| && TrueSegment(p, content, seg, data, cov[seg.index])
    ensures var r := WriteSegmentF(p, d, seg, data);
            var added := Interval(seg.fileOffset, seg.fileOffset + seg.bytes);
            && (r.Some? <==> cov[seg.index] != {} || NameFree(p, fs0, cov, seg.index))
            && (r.Some? ==> DiskInv(p, content, fs0, r.value, cov[seg.index := cov[seg.index] + added]))
  {
    var k, added := seg.index, Interval(seg.fileOffset, seg.fileOffset + seg.bytes);
    NameFreeIff(p, content, fs0, d, cov, k);
    SegmentSteps(p, content, d, seg, data, cov[k]);
    NotEmptyInterval(seg.fileOffset, seg.fileOffset + seg.bytes);
    hide WriteSegmentF, FileInv, Interval, Off;
    var r := WriteSegmentF(p, d, seg, data);
    if r.Some? {
      NamesKept(p, fs0, d, r.value, cov, k, added);
      forall i | 0 <= i < |cov| && i != k
        ensures FileInv(p, content, r.value, i, cov[i])
      {
        assert cov[i] != {} ==> p.names[i] != p.names[k];
        OtherFileKept(p, content, d, r.value, k, i, cov[i]);
      }
    }
  }
}
