/** The output files as objects that are created, written and closed in place. */
module DiskFiles {
  import opened Machine
  import opened Layout
  import opened Disk

  /** The directory the torrent is written to. */
  class FileSystem {
    var files: map<string, seq<byte>>

    constructor (files: map<string, seq<byte>>)
      ensures this.files == files
    {
      this.files := files;
    }
  }

  /** One output file: an open handle or none, and the count of bytes written. */
  class PhysicalFile {
    var handle: Option<string>
    var written: nat

    constructor ()
      ensures handle == None && written == 0
    {
      handle, written := None, 0;
    }

    function State(): Phys
      reads this
    {
      Phys(handle, written)
    }

    method Close()
      modifies this
      ensures handle == None && written == old(written)
    {
      handle := None;
    }

    /** Creates the file, full size, unless it is open already; false is a failed assertion. */
    method TryCreate(fs: FileSystem, name: string, finalSize: nat) returns (ok: bool)
      modifies this, fs
      ensures ok <==> old(handle).Some? || Creatable(old(fs.files), name)
      ensures written == old(written)
      ensures if old(handle).Some? || !ok then handle == old(handle) && fs.files == old(fs.files)
              else handle == Some(name) && fs.files == old(fs.files)[name := Zeros(finalSize)]
    {
      if handle.Some? {
        return true;
      }
      if !Creatable(fs.files, name) {
        return false;
      }
      fs.files := fs.files[name := Zeros(finalSize)];
      handle := Some(name);
      return true;
    }

    method Write(fs: FileSystem, data: seq<byte>, offset: nat) returns (ok: bool)
      modifies this, fs
      ensures ok <==> old(handle).Some? && old(handle).value in old(fs.files)
      ensures handle == old(handle)
      ensures if ok then
                && written == old(written) + |data|
                && fs.files == old(fs.files)[handle.value := Overwrite(old(fs.files)[handle.value], offset, data)]
              else written == old(written) && fs.files == old(fs.files)
    {
      if handle.None? || handle.value !in fs.files {
        return false;
      }
      fs.files := fs.files[handle.value := Overwrite(fs.files[handle.value], offset, data)];
      written := written + |data|;
      return true;
    }

    method TryFinalize(finalSize: nat) returns (ok: bool)
      modifies this
      ensures ok <==> written <= finalSize
      ensures written == old(written)
      ensures handle == if written == finalSize then None else old(handle)
    {
      if written > finalSize {
        return false;
      }
      if written == finalSize {
        Close();
      }
      return true;
    }
  }

  class FilesOnDisk {
    const plan: Plan
    const offsets: seq<FileOffset>
    const fs: FileSystem
    const files: seq<PhysicalFile>

    ghost predicate Valid() {
      && plan.lengths != []
      && |plan.names| == |plan.lengths| == |files|
      && Sum(plan.lengths) < TWO_64
      && offsets == OffsetsF(plan.lengths)
      && NoDup(files)
    }

    function Snapshot(): Disk
      reads this, fs, files
    {
      Disk(fs.files, seq(|files|, k requires 0 <= k < |files| reads files => files[k].State()))
    }

    constructor (plan: Plan, fs: FileSystem)
      requires plan.lengths != [] && |plan.names| == |plan.lengths| && Sum(plan.lengths) < TWO_64
      ensures Valid() && this.plan == plan && this.fs == fs
      ensures forall f <- files :: fresh(f)
      ensures Snapshot() == NewDisk(old(fs.files), |plan.lengths|)
    {
      var offsets := MakeOffsets(plan.lengths);
      var files: seq<PhysicalFile> := [];
      for k := 0 to |plan.lengths|
        invariant |files| == k && NoDup(files)
        invariant forall f <- files :: fresh(f) && f.handle == None && f.written == 0
      {
        var file := new PhysicalFile();
        files := files + [file];
      }
      this.plan := plan;
      this.offsets := offsets;
      this.fs := fs;
      this.files := files;
    }

    /** One part of a piece. */
    method OnWriteFilePiece(piece: FilePiece, data: seq<byte>) returns (ending: Ending)
      requires Valid()
      modifies fs, files
      ensures ending == SegmentEnding(plan, old(Snapshot()), piece, data)
      ensures ending.Stored? ==> WriteSegmentF(plan, old(Snapshot()), piece, data) == Some(Snapshot())
    {
      if piece.index >= |files| || piece.pieceOffset >= |data| || piece.bytes == 0 {
        return Failed;
      }
      var f := files[piece.index];
      ghost var before := Snapshot();
      assert forall j | 0 <= j < |files| && j != piece.index :: files[j] != f;
      var ok := f.TryCreate(fs, plan.names[piece.index], piece.fileSize);
      if !ok {
        return Failed;
      }
      ghost var created := Snapshot();
      assert created.files == before.files[piece.index := f.State()];
      assert f.State() == before.files[piece.index] ==> created.files == before.files;
      assert Some(created) == TryCreateF(before, piece.index, plan.names[piece.index], piece.fileSize);
      if piece.pieceOffset + piece.bytes > |data| {
        return ReadPast;
      }
      ok := f.Write(fs, data[piece.pieceOffset..piece.pieceOffset + piece.bytes], piece.fileOffset);
      if !ok {
        return Failed;
      }
      ghost var written := Snapshot();
      assert written.files == created.files[piece.index := f.State()];
      assert Some(written)
          == WriteF(created, piece.index, data[piece.pieceOffset..piece.pieceOffset + piece.bytes], piece.fileOffset);
      ok := f.TryFinalize(piece.fileSize);
      assert Snapshot().files == written.files[piece.index := f.State()];
      assert f.State() == written.files[piece.index] ==> Snapshot().files == written.files;
      assert ok ==> Some(Snapshot()) == TryFinalizeF(written, piece.index, piece.fileSize);
      return if ok then Stored else Failed;
    }

    /** A completed piece, cut with the 32-bit products of its index. */
    method WritePiece(index: nat, data: seq<byte>) returns (ending: Ending)
      requires Valid()
      modifies fs, files
      ensures ending == PieceEnding(plan, old(Snapshot()), index, data)
      ensures ending.Stored? ==> WritePieceF(plan, old(Snapshot()), index, data) == Some(Snapshot())
    {
      hide WriteSegmentF, IterateF, ReadsPast, StopsAt;
      if data == [] {
        return Failed;
      }
      var start := U32(index * plan.g.pieceSize);
      var end := U32(U32(index + 1) * plan.g.pieceSize);
      end := Min(end, plan.g.total);
      var pieces := IterateFiles(plan.lengths, offsets, start, end);
      if pieces.None? {
        return Failed;
      }
      ghost var before, segs := Snapshot(), pieces.value;
      for j := 0 to |pieces.value|
        invariant WriteSegmentsF(plan, before, segs[..j], data) == Some(Snapshot())
      {
        assert segs[..j + 1][..j] == segs[..j];
        ghost var midway := Snapshot();
        ending := OnWriteFilePiece(pieces.value[j], data);
        if !ending.Stored? {
          FirstFailedPart(plan, before, segs, j + 1, data);
          OnlyStop(plan, before, midway, segs, data, j);
          return;
        }
      }
      assert segs[..|segs|] == segs;
      return Stored;
    }

    method TotalWritten() returns (total: nat)
      requires Valid()
      ensures total == Sum(WrittenCounts(Snapshot()))
    {
      total := 0;
      ghost var counts := WrittenCounts(Snapshot());
      for k := 0 to |files|
        invariant total == Sum(counts[..k])
      {
        assert counts[..k + 1][..k] == counts[..k];
        total := total + files[k].written;
      }
      assert counts[..|files|] == counts;
    }
  }

  function WrittenCounts(d: Disk): seq<nat> {
    seq(|d.files|, k requires 0 <= k < |d.files| => d.files[k].written)
  }

  lemma {:induction false} FirstFailedPart(p: Plan, d: Disk, segs: seq<FilePiece>, k: nat, data: seq<byte>)
    requires k <= |segs| && WriteSegmentsF(p, d, segs[..k], data).None?
    ensures WriteSegmentsF(p, d, segs, data).None?
    decreases |segs|
  {
    hide WriteSegmentF;
    var n := |segs| - 1;
    if k <= n {
      assert segs[..n][..k] == segs[..k];
      FirstFailedPart(p, d, segs[..n], k, data);
    } else {
      assert segs[..k] == segs;
    }
  }

  /** The first part that is not written decides. */
  lemma OnlyStop(p: Plan, d: Disk, midway: Disk, segs: seq<FilePiece>, data: seq<byte>, j: nat)
    requires j < |segs| && WriteSegmentsF(p, d, segs[..j], data) == Some(midway)
    requires WriteSegmentF(p, midway, segs[j], data).None?
    ensures (exists k :: 0 <= k < |segs| && StopsAt(p, d, segs, data, k)) <==> ReadsPast(p, midway, segs[j], data)
  {
    hide WriteSegmentF, ReadsPast;
    assert StopsAt(p, d, segs, data, j) <==> ReadsPast(p, midway, segs[j], data);
    forall k | 0 <= k < |segs| && k != j
      ensures !StopsAt(p, d, segs, data, k)
    {
      if k < j {
        assert segs[..j][..k + 1] == segs[..k + 1] && segs[..k + 1][..k] == segs[..k];
        if WriteSegmentsF(p, d, segs[..k + 1], data).None? {
          FirstFailedPart(p, d, segs[..j], k + 1, data);
        }
        WrittenDoesNotReadPast(p, d, segs, data, k);
      } else {
        assert segs[..j + 1][..j] == segs[..j];
        assert segs[..k][..j + 1] == segs[..j + 1];
        FirstFailedPart(p, d, segs[..k], j + 1, data);
      }
    }
  }

  lemma WrittenDoesNotReadPast(p: Plan, d: Disk, segs: seq<FilePiece>, data: seq<byte>, k: nat)
    requires k < |segs| && WriteSegmentsF(p, d, segs[..k + 1], data).Some?
    ensures !StopsAt(p, d, segs, data, k)
  {
    hide TryCreateF, WriteF, TryFinalizeF;
    assert segs[..k + 1][..k] == segs[..k];
  }
}
