/** Torrent files that are accepted although the download cannot end well, one for each condition. */
module Witnesses {
  import opened Machine
  import opened Bencode
  import opened BencodePrinter
  import opened TorrentFile
  import opened TorrentPrinter
  import opened Client
  import opened Layout
  import opened Disk
  import opened DiskContent
  import opened Download
  import opened EndToEnd
  import DiskOverread
  import DownloadMisplaced

  // ---- The size of a printed file ----

  lemma {:induction false} NatTextShort(n: nat)
    ensures |NatText(n)| <= 1 + n / 10
  {
    if n >= 10 {
      NatTextShort(n / 10);
    }
  }

  lemma TokenShort(s: string)
    ensures |StringToken(s)| <= 2 * |s| + 2
  {
    NatTextShort(|s|);
  }

  lemma FileShort(f: DescribedFile)
    requires |f.parts| == 1
    ensures |Encode(FileTree(f))| <= 40 + f.length / 10 + 2 * |f.parts[0]|
  {
    var length, path := TreeEntry("length", TInt(f.length)), TreeEntry("path", TList([TStr(f.parts[0])]));
    TokenShort("length");
    TokenShort("path");
    TokenShort(f.parts[0]);
    NatTextShort(f.length);
    EncodeTwo(length, path);
    assert StrTrees(f.parts) == [TStr(f.parts[0])];
    assert EncodeItems([TStr(f.parts[0])]) == Encode(TStr(f.parts[0])) + EncodeItems([]);
  }

  lemma EncodeTwo(a: TreeEntry, b: TreeEntry)
    ensures EncodeEntries([a, b]) == StringToken(a.key) + Encode(a.value) + StringToken(b.key) + Encode(b.value)
  {
    hide StringToken, Encode;
    assert [a, b][1..] == [b] && [b][1..] == [];
    assert EncodeEntries([b]) == StringToken(b.key) + Encode(b.value) + EncodeEntries([]);
    assert EncodeEntries([]) == "";
  }

  lemma EncodeFour(a: TreeEntry, b: TreeEntry, c: TreeEntry, d: TreeEntry)
    ensures EncodeEntries([a, b, c, d])
         == StringToken(a.key) + Encode(a.value) + StringToken(b.key) + Encode(b.value)
            + (StringToken(c.key) + Encode(c.value) + StringToken(d.key) + Encode(d.value))
  {
    hide StringToken, Encode;
    EncodeTwo(c, d);
    assert [a, b, c, d][1..] == [b, c, d] && [b, c, d][1..] == [c, d];
  }

  /** One file, or two with paths of one part. */
  predicate Small(content: DescribedContent) {
    content.ManyFiles? ==>
      |content.files| == 2 && |content.files[0].parts| == 1 && |content.files[1].parts| == 1
  }

  /** The size of the content, at most, as a torrent file says it. */
  function ContentSize(content: DescribedContent): nat
    requires Small(content)
  {
    if content.OneFile? then 4 + content.length / 10
    else 100 + content.files[0].length / 10 + content.files[1].length / 10
             + 2 * |content.files[0].parts[0]| + 2 * |content.files[1].parts[0]|
  }

  lemma ContentShort(content: DescribedContent)
    requires Small(content)
    ensures |Encode(ContentEntry(content).value)| <= ContentSize(content)
  {
    if content.OneFile? {
      NatTextShort(content.length);
    } else {
      var a, b := content.files[0], content.files[1];
      FileShort(a);
      FileShort(b);
      assert FileTrees(content.files) == [FileTree(a), FileTree(b)];
      assert [FileTree(a), FileTree(b)][1..] == [FileTree(b)] && [FileTree(b)][1..] == [];
      hide FileTree;
      assert EncodeItems([FileTree(a), FileTree(b)]) == Encode(FileTree(a)) + (Encode(FileTree(b)) + EncodeItems([]));
    }
  }

  lemma TorrentShort(d: Description)
    requires d.tiers == None
    ensures |Encode(TorrentTree(d))|
         <= 200 + 2 * |d.url| + 2 * |d.name| + 2 * |d.pieces| + d.pieceLength / 10
            + |Encode(ContentEntry(d.content).value)|
  {
    var content := ContentEntry(d.content);
    TokenShort(d.url);
    TokenShort(d.name);
    TokenShort(d.pieces);
    NatTextShort(d.pieceLength);
    TokenShort("announce");
    TokenShort("info");
    TokenShort(content.key);
    TokenShort("name");
    TokenShort("piece length");
    TokenShort("pieces");
    EncodeFour(content, TreeEntry("name", TStr(d.name)), TreeEntry("piece length", TInt(d.pieceLength)),
               TreeEntry("pieces", TStr(d.pieces)));
    EncodeTwo(TreeEntry("announce", TStr(d.url)), TreeEntry("info", InfoTree(d)));
    hide StringToken, NatText, EncodeEntries;
    assert TorrentEntries(d) == [TreeEntry("announce", TStr(d.url)), TreeEntry("info", InfoTree(d))];
    assert Encode(TInt(d.pieceLength)) == "i" + NatText(d.pieceLength) + "e";
    assert Encode(TStr(d.url)) == StringToken(d.url) && Encode(TStr(d.name)) == StringToken(d.name)
        && Encode(TStr(d.pieces)) == StringToken(d.pieces);
  }

  // ---- Accepted torrents ----

  /** A printable description whose sizes agree is made into a client by its torrent file. */
  lemma MadeTorrent(d: Description)
    requires Printable(d) && |Encode(TorrentTree(d))| < TWO_64 && ValidSizes(GeometryOf(MetaOf(d)))
    ensures MakeF(Encode(TorrentTree(d))).Made?
    ensures MakeF(Encode(TorrentTree(d))).client.meta == MetaOf(d)
    ensures MakeF(Encode(TorrentTree(d))).client.geometry == GeometryOf(MetaOf(d))
  {
    var buf := Encode(TorrentTree(d));
    hide *;
    PrintedTorrent(d);
    MadeExactly(buf);
    MadeClient(buf);
  }

  function Hashes(count: nat): string {
    seq(20 * count, _ => 'h')
  }

  function Torrent(count: nat, pieceLength: nat, name: string, content: DescribedContent): Description {
    Description("http://t/", None, name, pieceLength, Hashes(count), content)
  }

  function Two(a: nat, nameA: string, b: nat, nameB: string): DescribedContent {
    ManyFiles([DescribedFile(a, [nameA]), DescribedFile(b, [nameB])])
  }

  lemma SumOfTwo(a: nat, b: nat)
    ensures Sum([a, b]) == a + b
  {
    assert [a, b][..1] == [a];
    SumOfOne(a);
  }

  /** One file of 6 GiB in pieces of 2 GiB. */
  const LARGE: Description := Torrent(3, 0x8000_0000, "a", OneFile(0x1_8000_0000))

  /** One file of 4 GiB and a byte. */
  const TRIMMED: Description := Torrent(262145, 16384, "a", OneFile(0x1_0000_0001))

  /** An empty file before the only byte. */
  const EMPTY_FIRST: Description := Torrent(1, 1, "d", Two(0, "a", 1, "b"))

  /** Two files of one name. */
  const TWINS: Description := Torrent(1, 2, "d", Two(1, "a", 1, "a"))

  /** One file without a name. */
  const NAMELESS: Description := Torrent(1, 1, "", OneFile(1))

  /** A file in a directory. */
  const NESTED: Description := Torrent(1, 2, "x", Two(1, "d/a", 1, "b"))

  /** Two files whose lengths add up to 2^64 + 1, hence to a total of 1. */
  const HUGE: Description := Torrent(1, 1, "d", Two(0x8000_0000_0000_0000, "a", 0x8000_0000_0000_0001, "b"))

  lemma MadeWith(d: Description, g: Geometry, lengths: seq<nat>, names: seq<string>)
    requires Printable(d) && d.tiers == None && Small(d.content)
    requires 200 + 2 * |d.url| + 2 * |d.name| + 2 * |d.pieces| + d.pieceLength / 10 + ContentSize(d.content) < TWO_64
    requires Lengths(MetaOf(d)) == lengths && Names(MetaOf(d)) == names
    requires PiecesCount(MetaOf(d)) == g.count && PieceSizeBytes(MetaOf(d)) == g.pieceSize
    requires U64(Sum(lengths)) == g.total && ValidSizes(g)
    ensures MakeF(Encode(TorrentTree(d))).Made?
    ensures MakeF(Encode(TorrentTree(d))).client.meta == MetaOf(d)
    ensures PlanOf(MakeF(Encode(TorrentTree(d))).client) == Plan(g, lengths, names)
  {
    ContentShort(d.content);
    TorrentShort(d);
    hide Encode, TorrentTree, MakeF, ContentEntry, Printable, ValidSizes, PiecesCount, PieceSizeBytes, Sum, MetaOf,
         Lengths, Names;
    MadeTorrent(d);
  }

  lemma OnePath(name: string)
    ensures JoinedParts([name]) == name
  {
  }

  /** What two files with paths of one part are read as. */
  lemma TwoFiles(count: nat, pieceLength: nat, name: string, a: nat, nameA: string, b: nat, nameB: string)
    ensures var m := MetaOf(Torrent(count, pieceLength, name, Two(a, nameA, b, nameB)));
            Lengths(m) == [a, b] && Names(m) == [nameA, nameB] && Sum(Lengths(m)) == a + b
  {
    OnePath(nameA);
    OnePath(nameB);
    SumOfTwo(a, b);
    hide Sum, Hashes, JoinedParts;
    var m := MetaOf(Torrent(count, pieceLength, name, Two(a, nameA, b, nameB)));
    assert m.content.files == [File(a, nameA), File(b, nameB)];
    assert Lengths(m) == [a, b];
  }

  lemma LargeIsMade()
    ensures MakeF(Encode(TorrentTree(LARGE))).Made?
    ensures PlanOf(MakeF(Encode(TorrentTree(LARGE))).client)
         == Plan(Geometry(3, 0x8000_0000, 0x1_8000_0000), [0x1_8000_0000], ["a"])
  {
    SumOfOne(0x1_8000_0000);
    hide Encode, TorrentTree, MakeF, ContentEntry, Sum, PlanOf;
    MadeWith(LARGE, Geometry(3, 0x8000_0000, 0x1_8000_0000), [0x1_8000_0000], ["a"]);
  }

  lemma TrimmedIsMade()
    ensures MakeF(Encode(TorrentTree(TRIMMED))).Made?
    ensures PlanOf(MakeF(Encode(TorrentTree(TRIMMED))).client)
         == Plan(Geometry(262145, 16384, 0x1_0000_0001), [0x1_0000_0001], ["a"])
  {
    SumOfOne(0x1_0000_0001);
    hide Encode, TorrentTree, MakeF, ContentEntry, Sum, PlanOf;
    MadeWith(TRIMMED, Geometry(262145, 16384, 0x1_0000_0001), [0x1_0000_0001], ["a"]);
  }

  lemma EmptyFirstIsMade()
    ensures MakeF(Encode(TorrentTree(EMPTY_FIRST))).Made?
    ensures PlanOf(MakeF(Encode(TorrentTree(EMPTY_FIRST))).client)
         == Plan(Geometry(1, 1, 1), [0, 1], ["a", "b"])
  {
    TwoFiles(1, 1, "d", 0, "a", 1, "b");
    hide Encode, TorrentTree, MakeF, ContentEntry, Sum, PlanOf, Lengths, Names;
    MadeWith(EMPTY_FIRST, Geometry(1, 1, 1), [0, 1], ["a", "b"]);
  }

  lemma TwinsAreMade()
    ensures MakeF(Encode(TorrentTree(TWINS))).Made?
    ensures PlanOf(MakeF(Encode(TorrentTree(TWINS))).client)
         == Plan(Geometry(1, 2, 2), [1, 1], ["a", "a"])
  {
    TwoFiles(1, 2, "d", 1, "a", 1, "a");
    hide Encode, TorrentTree, MakeF, ContentEntry, Sum, PlanOf, Lengths, Names;
    MadeWith(TWINS, Geometry(1, 2, 2), [1, 1], ["a", "a"]);
  }

  lemma NamelessIsMade()
    ensures MakeF(Encode(TorrentTree(NAMELESS))).Made?
    ensures PlanOf(MakeF(Encode(TorrentTree(NAMELESS))).client) == Plan(Geometry(1, 1, 1), [1], [""])
  {
    SumOfOne(1);
    hide Encode, TorrentTree, MakeF, ContentEntry, Sum, PlanOf;
    MadeWith(NAMELESS, Geometry(1, 1, 1), [1], [""]);
  }

  lemma NestedIsMade()
    ensures MakeF(Encode(TorrentTree(NESTED))).Made?
    ensures PlanOf(MakeF(Encode(TorrentTree(NESTED))).client)
         == Plan(Geometry(1, 2, 2), [1, 1], ["d/a", "b"])
  {
    TwoFiles(1, 2, "x", 1, "d/a", 1, "b");
    hide Encode, TorrentTree, MakeF, ContentEntry, Sum, PlanOf, Lengths, Names;
    MadeWith(NESTED, Geometry(1, 2, 2), [1, 1], ["d/a", "b"]);
  }

  lemma HugeIsMade()
    ensures MakeF(Encode(TorrentTree(HUGE))).Made?
    ensures PlanOf(MakeF(Encode(TorrentTree(HUGE))).client)
         == Plan(Geometry(1, 1, 1), [0x8000_0000_0000_0000, 0x8000_0000_0000_0001], ["a", "b"])
    ensures Lengths(MakeF(Encode(TorrentTree(HUGE))).client.meta)
         == [0x8000_0000_0000_0000, 0x8000_0000_0000_0001]
  {
    TwoFiles(1, 1, "d", 0x8000_0000_0000_0000, "a", 0x8000_0000_0000_0001, "b");
    hide Encode, TorrentTree, MakeF, ContentEntry, Sum, PlanOf, Lengths, Names;
    MadeWith(HUGE, Geometry(1, 1, 1), [0x8000_0000_0000_0000, 0x8000_0000_0000_0001], ["a", "b"]);
  }

  // ---- What becomes of them ----

  /** A torrent that is made but whose download no run can finish, in any directory. */
  ghost predicate NeverDownloaded(file: string) {
    && MakeF(file).Made?
    && ValidPlan(PlanOf(MakeF(file).client))
    && forall content: seq<byte>, fs: map<string, seq<byte>>, s |
         |content| == PlanOf(MakeF(file).client).g.total
         && Reachable(World(PlanOf(MakeF(file).client), content, fs), s) :: !Exited(s)
  }

  lemma NotWritable(file: string, p: Plan)
    requires MakeF(file).Made? && p == PlanOf(MakeF(file).client) && ValidPlan(p)
    requires forall fs :: !Writable(p, fs)
    ensures NeverDownloaded(file)
  {
    PlanFacts(p);
    hide MakeF, Reachable, Exited, Writable, ValidPlan;
    forall content: seq<byte>, fs: map<string, seq<byte>>, s |
      |content| == p.g.total && Reachable(World(p, content, fs), s)
      ensures !Exited(s)
    {
      DownloadMisplaced.WorldIs(World(p, content, fs));
      DownloadProgress.FinishIff(World(p, content, fs));
    }
  }

  /** The conditions on sizes and names are not met by every torrent that is accepted. */
  lemma AcceptedButNeverDownloaded()
    ensures NeverDownloaded(Encode(TorrentTree(LARGE)))
    ensures NeverDownloaded(Encode(TorrentTree(EMPTY_FIRST)))
    ensures NeverDownloaded(Encode(TorrentTree(TWINS)))
    ensures NeverDownloaded(Encode(TorrentTree(NAMELESS)))
  {
    LargeIsMade();
    EmptyFirstIsMade();
    TwinsAreMade();
    NamelessIsMade();
    SumOfOne(0x1_8000_0000);
    SumOfOne(1);
    SumOfTwo(0, 1);
    SumOfTwo(1, 1);
    hide MakeF, Encode, TorrentTree, PlanOf, NeverDownloaded;
    NotWritable(Encode(TorrentTree(LARGE)), Plan(Geometry(3, 0x8000_0000, 0x1_8000_0000), [0x1_8000_0000], ["a"]));
    EmptyFirstFails();
    NotWritable(Encode(TorrentTree(EMPTY_FIRST)), Plan(Geometry(1, 1, 1), [0, 1], ["a", "b"]));
    NotWritable(Encode(TorrentTree(TWINS)), Plan(Geometry(1, 2, 2), [1, 1], ["a", "a"]));
    NotWritable(Encode(TorrentTree(NAMELESS)), Plan(Geometry(1, 1, 1), [1], [""]));
  }

  /** A torrent with a file in a directory can be downloaded only where that directory is: no run creates it. */
  lemma NestedNeedsItsDirectory(content: seq<byte>, fs: map<string, seq<byte>>)
    requires |content| == 2
    ensures MakeF(Encode(TorrentTree(NESTED))).Made?
    ensures var p := PlanOf(MakeF(Encode(TorrentTree(NESTED))).client);
            && p.lengths != []
            && ((exists s :: Reachable(World(p, content, fs), s) && Exited(s))
                <==> "d/" in fs && "d/a" !in fs && "d/a/" !in fs && "b" !in fs && "b/" !in fs)
  {
    hide *;
    NestedIsMade();
    NestedWritable(fs);
    PlanFacts(Plan(Geometry(1, 2, 2), [1, 1], ["d/a", "b"]));
    DownloadMisplaced.WorldIs(World(Plan(Geometry(1, 2, 2), [1, 1], ["d/a", "b"]), content, fs));
    DownloadProgress.FinishIff(World(Plan(Geometry(1, 2, 2), [1, 1], ["d/a", "b"]), content, fs));
  }

  lemma NestedWritable(fs: map<string, seq<byte>>)
    ensures var p := Plan(Geometry(1, 2, 2), [1, 1], ["d/a", "b"]);
            && ValidPlan(p)
            && (Writable(p, fs) <==> "d/" in fs && "d/a" !in fs && "d/a/" !in fs && "b" !in fs && "b/" !in fs)
  {
    SumOfTwo(1, 1);
    assert Parent("d/a") == "d/" && Parent("b") == "" by {
      assert "d/a"[..2] == "d/" && "b"[..0] == "";
    }
    assert "d/a" + "/" == "d/a/" && "b" + "/" == "b/";
    hide Sum, Parent, Off;
    var p := Plan(Geometry(1, 2, 2), [1, 1], ["d/a", "b"]);
    assert p.names[0] == "d/a" && p.names[1] == "b" && p.lengths[0] == 1 && p.lengths[1] == 1;
  }

  lemma EmptyFirstFails()
    ensures !EmptyFilesLast([0, 1])
  {
    SumOfTwo(0, 1);
    assert Off([0, 1], 0) == 0;
  }

  /** An accepted torrent, truthful peers, no failed assertion, and yet the file does not hold the bytes of the
      piece that was completed. */
  lemma LargeIsCorrupted(fs: map<string, seq<byte>>) returns (content: seq<byte>, s: Download.State)
    requires Creatable(fs, "a")
    ensures MakeF(Encode(TorrentTree(LARGE))).Made?
    ensures var p := PlanOf(MakeF(Encode(TorrentTree(LARGE))).client);
            && ValidPlan(p) && |content| == p.g.total && p.g.pieceSize > 0
            && Reachable(World(p, content, fs), s) && !s.aborted && s.log == [2]
            && !DiskInv(p, content, fs, s.disk, CoveredFiles(p, {2}))
  {
    hide *;
    LargeIsMade();
    var p := Plan(Geometry(3, 0x8000_0000, 0x1_8000_0000), [0x1_8000_0000], ["a"]);
    LargeIsMisplaced(fs);
    OnesSize(p.g.total);
    content := Ones(p.g.total);
    s := DownloadMisplaced.MisplacedInRuns(p, fs, 2);
  }

  lemma LargeIsMisplaced(fs: map<string, seq<byte>>)
    requires Creatable(fs, "a")
    ensures var p := Plan(Geometry(3, 0x8000_0000, 0x1_8000_0000), [0x1_8000_0000], ["a"]);
            ValidPlan(p) && NamesUsable(p, fs) && Misplaced(p, 2) && 2 < p.g.count && p.g.pieceSize > 0
  {
    SumOfOne(0x1_8000_0000);
  }

  /** An accepted torrent, truthful peers, no failed assertion, and the next step reads past the only byte of a
      piece. */
  lemma TrimmedIsReadPast(fs: map<string, seq<byte>>) returns (content: seq<byte>, s: Download.State)
    requires Creatable(fs, "a")
    ensures MakeF(Encode(TorrentTree(TRIMMED))).Made?
    ensures var p := PlanOf(MakeF(Encode(TorrentTree(TRIMMED))).client);
            && ValidPlan(p) && |content| == p.g.total
            && Reachable(World(p, content, fs), s) && !s.aborted && DownloadMisplaced.AboutToReadPast(p, s, 0)
  {
    hide *;
    TrimmedIsMade();
    var p := Plan(Geometry(262145, 16384, 0x1_0000_0001), [0x1_0000_0001], ["a"]);
    TrimmedIsOverread(fs);
    OnesSize(p.g.total);
    content := Ones(p.g.total);
    s := DownloadMisplaced.OverreadInRuns(p, fs, 262144);
  }

  lemma TrimmedIsOverread(fs: map<string, seq<byte>>)
    requires Creatable(fs, "a")
    ensures var p := Plan(Geometry(262145, 16384, 0x1_0000_0001), [0x1_0000_0001], ["a"]);
            ValidPlan(p) && NamesUsable(p, fs) && DiskOverread.Overread(p, 262144) && 262144 < p.g.count
  {
    SumOfOne(0x1_0000_0001);
    var p := Plan(Geometry(262145, 16384, 0x1_0000_0001), [0x1_0000_0001], ["a"]);
    assert Off(p.lengths, 0) == 0;
    hide Sum, Off, Creatable;
    assert DiskOverread.StrictlyInside(p.lengths, 0, 1);
  }

  /** An accepted torrent whose file offsets wrap around. */
  lemma HugeOffsetsWrap()
    ensures MakeF(Encode(TorrentTree(HUGE))).Made?
    ensures var lengths := Lengths(MakeF(Encode(TorrentTree(HUGE))).client.meta);
            exists k :: 0 <= k < |lengths| && OffsetsF(lengths)[k].start > OffsetsF(lengths)[k].end
  {
    hide *;
    HugeIsMade();
    HugeWraps();
  }

  lemma HugeWraps()
    ensures var lengths := [0x8000_0000_0000_0000, 0x8000_0000_0000_0001];
            exists k :: 0 <= k < |lengths| && OffsetsF(lengths)[k].start > OffsetsF(lengths)[k].end
  {
    hide OffsetsF, Sum;
    SumOfTwo(0x8000_0000_0000_0000, 0x8000_0000_0000_0001);
    WrapsAround([0x8000_0000_0000_0000, 0x8000_0000_0000_0001]);
  }

  lemma WrapsAround(lengths: seq<nat>)
    requires forall k | 0 <= k < |lengths| :: lengths[k] < TWO_64
    ensures Sum(lengths) >= TWO_64 ==>
              exists k :: 0 <= k < |lengths| && OffsetsF(lengths)[k].start > OffsetsF(lengths)[k].end
  {
    hide OffsetsF, Sum;
    OffsetsOrderedIff(lengths);
  }

  /** A torrent file that is rejected, and accepted with its two keys the other way round. */
  lemma OrderOfKeysMatters()
    ensures ParseTorrentF(Encode(TorrentTree(NAMELESS))).Success?
    ensures ParseTorrentF(Encode(InfoFirstTree(NAMELESS))).Failure?
  {
    ContentShort(NAMELESS.content);
    TorrentShort(NAMELESS);
    SameSize(NAMELESS);
    hide Encode, TorrentTree, InfoFirstTree, ContentEntry;
    PrintedTorrent(NAMELESS);
    InfoFirstIsRejected(NAMELESS);
  }

  lemma SameSize(d: Description)
    requires d.tiers == None
    ensures |Encode(InfoFirstTree(d))| == |Encode(TorrentTree(d))|
  {
    var announce, info := TreeEntry("announce", TStr(d.url)), TreeEntry("info", InfoTree(d));
    EncodeTwo(announce, info);
    EncodeTwo(info, announce);
    hide InfoTree, StringToken, EncodeEntries;
    assert TorrentEntries(d) == [announce, info] && InfoFirstEntries(d) == [info, announce];
  }

  /** A list that parses, and is printed one character shorter. */
  lemma LeadingZeroIsDropped()
    ensures ParseListF("l01:ae", 0) == Ok(EList([EStr(View(4, 1), Pos(1, 5))], Pos(0, 6)), 6)
    ensures Encode(Value("l01:ae", ParseListF("l01:ae", 0).value)) == "l1:ae"
  {
    var buf := "l01:ae";
    assert SkipDigits(buf, 3) == 3;
    assert buf[1..3] == "01";
    assert DecimalValue("01") == 1 by {
      assert "01"[..1] == "0" && "0"[..0] == "";
    }
    var item := EStr(View(4, 1), Pos(1, 5));
    assert ParseStringF(buf, 1) == Ok(item, 5);
    assert ParseElementF(buf, 1, List) == Ok(item, 5);
    assert ParseItemsF(buf, 5) == Ok([], 5);
    assert [item] + [] == [item];
    assert ParseItemsF(buf, 1) == Ok([item], 5);
    assert Value(buf, item) == TStr("a");
    assert Values(buf, [item]) == [TStr("a")];
    assert NatText(1) == "1";
    assert EncodeItems([TStr("a")]) == "1:a";
  }
}
