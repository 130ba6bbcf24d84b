/** From the bytes of a torrent file to the files on disk. */
module EndToEnd {
  import opened Machine
  import opened Bencode
  import opened TorrentFile
  import opened TorrentFileSpec
  import opened Client
  import opened Layout
  import opened Disk
  import opened DiskContent
  import opened Download
  import opened DownloadRuns
  import DownloadProgress

  /** The names of the files, in order. */
  function Names(m: Metainfo): seq<string> {
    match m.content
    case Unset => []
    case SingleFile(_) => [m.name]
    case MultiFile(files) => seq(|files|, k requires 0 <= k < |files| => files[k].path)
  }

  function PlanOf(client: TorrentClient): Plan {
    Plan(client.geometry, Lengths(client.meta), Names(client.meta))
  }

  lemma SumOfOne(n: nat)
    ensures Sum([n]) == n
  {
    assert [n][..0] == [];
  }

  /** A client that was made has a consistent plan, unless the file lengths add up to 2^64 or more;
      those of a single file never do. */
  lemma MadePlan(file: string)
    requires MakeF(file).Made?
    ensures var client := MakeF(file).client;
            && (ValidPlan(PlanOf(client)) <==> Sum(Lengths(client.meta)) < TWO_64)
            && (client.meta.content.SingleFile? ==> Sum(Lengths(client.meta)) < TWO_64)
  {
    hide ParseTorrentF, ValidSizes, ParseElementF;
    MadeExactly(file);
    MadeClient(file);
    AcceptedMetainfo(file);
    var m := MakeF(file).client.meta;
    if m.content.SingleFile? {
      SumOfOne(m.content.length);
    }
  }

  /** The files of the plan one after the other; files without bytes are never created. */
  function Joined(p: Plan, fs: map<string, seq<byte>>, k: nat): seq<byte>
    requires k <= |p.lengths| == |p.names|
  {
    if k == 0 then [] else
    var name := p.names[k - 1];
    Joined(p, fs, k - 1) + if p.lengths[k - 1] > 0 && name in fs then fs[name] else []
  }

  lemma {:induction false} FinishedFilesJoin(p: Plan, content: seq<byte>, fs: map<string, seq<byte>>, d: Disk, k: nat)
    requires Finished(p, content, fs, d) && k <= |p.lengths|
    ensures Off(p.lengths, k) <= |content| && Joined(p, d.fs, k) == content[..Off(p.lengths, k)]
  {
    hide OnlyTorrentFiles, Off;
    OffFacts(p.lengths);
    if k > 0 {
      FinishedFilesJoin(p, content, fs, d, k - 1);
      assert FinishedFile(p, content, d, k - 1);
    }
  }

  /** For every torrent file whose lengths sum to less than 2^64, every content of the announced size, every
      directory and every run with truthful peers: when the main loop is left, every piece was written
      exactly once, the files are closed, each holds its part of the content, laid end to end they are the
      content, and nothing else was touched. */
  lemma FinishedFilesAreTheContent(file: string, content: seq<byte>, fs: map<string, seq<byte>>, s: Download.State)
    requires MakeF(file).Made? && ValidPlan(PlanOf(MakeF(file).client))
    requires |content| == MakeF(file).client.geometry.total
    requires Reachable(World(PlanOf(MakeF(file).client), content, fs), s) && Exited(s)
    ensures var p := PlanOf(MakeF(file).client);
            && CompleteLog(p.g, s.log)
            && Finished(p, content, fs, s.disk)
            && Joined(p, s.disk.fs, |p.lengths|) == content
            && Sum(DiskFiles.WrittenCounts(s.disk)) == |content|
  {
    var p := PlanOf(MakeF(file).client);
    var w := World(p, content, fs);
    OffEnds(p.lengths);
    hide MakeF, Reachable, Exited, Finished, Off, CompleteLog, ValidSizes;
    ExitedMeansDownloaded(w, s);
    JoinedWhole(p, content, fs, s.disk);
  }

  /** How many bytes come before file k. */
  function BytesBefore(files: seq<File>, k: nat): nat
    requires k <= |files|
  {
    if k == 0 then 0 else BytesBefore(files, k - 1) + files[k - 1].length
  }

  lemma {:induction false} OffIsBytesBefore(files: seq<File>, k: nat)
    requires k <= |files|
    ensures Off(FileLengths(files), k) == BytesBefore(files, k)
  {
    if k > 0 {
      OffIsBytesBefore(files, k - 1);
      OffStep(FileLengths(files), k - 1);
    } else {
      OffEnds(FileLengths(files));
    }
    hide Off;
  }

  /** The same in the torrent's own terms: the file that is named holds the content; or each file with bytes, under
      its path, holds the bytes after those of the files before it. */
  lemma FinishedByName(file: string, content: seq<byte>, fs: map<string, seq<byte>>, s: Download.State)
    requires MakeF(file).Made? && ValidPlan(PlanOf(MakeF(file).client))
    requires |content| == MakeF(file).client.geometry.total
    requires Reachable(World(PlanOf(MakeF(file).client), content, fs), s) && Exited(s)
    ensures match MakeF(file).client.meta.content
            case Unset => false
            case SingleFile(length) =>
              var name := MakeF(file).client.meta.name;
              |content| == length > 0 && name in s.disk.fs && s.disk.fs[name] == content
            case MultiFile(files) =>
              forall k | 0 <= k < |files| && files[k].length > 0 ::
                && BytesBefore(files, k) + files[k].length <= |content|
                && files[k].path in s.disk.fs
                && s.disk.fs[files[k].path]
                   == content[BytesBefore(files, k)..BytesBefore(files, k) + files[k].length]
  {
    hide MakeF, Reachable, Exited, Finished, Off, ValidSizes, Joined;
    FinishedFilesAreTheContent(file, content, fs, s);
    PlanFacts(PlanOf(MakeF(file).client));
    var m := MakeF(file).client.meta;
    if m.content.SingleFile? {
      TotalPositive(PlanOf(MakeF(file).client).g);
      FinishedAlone(PlanOf(MakeF(file).client), content, fs, s.disk, m.content.length, m.name);
    } else if m.content.MultiFile? {
      FinishedEach(m, PlanOf(MakeF(file).client), content, fs, s.disk);
    }
  }

  lemma TotalPositive(g: Geometry)
    requires ValidSizes(g)
    ensures g.total > 0
  {
    ValidSizesMeaning(g);
    hide ValidSizes;
  }

  lemma FinishedAlone(p: Plan, content: seq<byte>, fs: map<string, seq<byte>>, d: Disk, length: nat, name: string)
    requires p.lengths == [length] && p.names == [name] && Finished(p, content, fs, d)
    requires Sum(p.lengths) == |content| > 0
    ensures |content| == length && name in d.fs && d.fs[name] == content
  {
    SumOfOne(length);
    hide OnlyTorrentFiles, Sum;
    assert FinishedFile(p, content, d, 0);
    OffEnds(p.lengths);
    hide Off;
    assert content[0..length] == content;
  }

  lemma FinishedEach(m: Metainfo, p: Plan, content: seq<byte>, fs: map<string, seq<byte>>, d: Disk)
    requires m.content.MultiFile? && p.lengths == Lengths(m) && p.names == Names(m) && Finished(p, content, fs, d)
    ensures var files := m.content.files;
            forall k | 0 <= k < |files| && files[k].length > 0 ::
              && BytesBefore(files, k) + files[k].length <= |content|
              && files[k].path in d.fs
              && d.fs[files[k].path] == content[BytesBefore(files, k)..BytesBefore(files, k) + files[k].length]
  {
    hide OnlyTorrentFiles, Off;
    var files := m.content.files;
    forall k | 0 <= k < |files| && files[k].length > 0
      ensures BytesBefore(files, k) + files[k].length <= |content| && files[k].path in d.fs
      ensures d.fs[files[k].path] == content[BytesBefore(files, k)..BytesBefore(files, k) + files[k].length]
    {
      OffIsBytesBefore(files, k);
      assert FinishedFile(p, content, d, k);
    }
  }

  lemma JoinedWhole(p: Plan, content: seq<byte>, fs: map<string, seq<byte>>, d: Disk)
    requires Finished(p, content, fs, d) && Sum(p.lengths) == |content|
    ensures |p.lengths| == |p.names| && Joined(p, d.fs, |p.lengths|) == content
  {
    FinishedFilesJoin(p, content, fs, d, |p.lengths|);
    OffEnds(p.lengths);
    hide FinishedFile, OnlyTorrentFiles;
  }

  /** Whether a torrent can be downloaded into a directory, decided before the download starts; for lengths
      that sum to less than 2^64. It is also when no run fails an assertion. */
  lemma DownloadableIff(file: string, content: seq<byte>, fs: map<string, seq<byte>>)
    requires MakeF(file).Made? && Sum(Lengths(MakeF(file).client.meta)) < TWO_64
    requires |content| == MakeF(file).client.geometry.total
    ensures var p := PlanOf(MakeF(file).client);
            && ValidPlan(p)
            && ((exists s :: Reachable(World(p, content, fs), s) && Exited(s)) <==> Writable(p, fs))
            && ((forall s | Reachable(World(p, content, fs), s) :: !s.aborted) <==> Writable(p, fs))
  {
    MadePlan(file);
    hide MakeF, Reachable, Exited, Writable, ValidSizes;
    DownloadProgress.FinishIff(World(PlanOf(MakeF(file).client), content, fs));
    DownloadProgress.NeverAbortsIff(World(PlanOf(MakeF(file).client), content, fs));
  }
}
