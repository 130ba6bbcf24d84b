/** Torrent files printed from a description: parsing one gives the metainfo it describes. */
module TorrentPrinter {
  import opened Machine
  import opened Bencode
  import opened BencodeGrammar
  import opened BencodePrinter
  import opened TorrentFile
  import opened TorrentFileSpec
  import opened TorrentMeaning

  datatype DescribedFile = DescribedFile(length: nat, parts: seq<string>)

  datatype DescribedContent = OneFile(length: nat) | ManyFiles(files: seq<DescribedFile>)

  /** What a torrent file can say with the keys the program knows; tiers is its announce-list, if it has one. */
  datatype Description = Description(
    url: string,
    tiers: Option<seq<seq<string>>>,
    name: string,
    pieceLength: nat,
    pieces: string,
    content: DescribedContent)

  // ---- The metainfo described ----

  function JoinedParts(parts: seq<string>): string {
    if parts == [] then "" else
    var n := |parts| - 1;
    if n == 0 then parts[0] else JoinedParts(parts[..n]) + "/" + parts[n]
  }

  function FileOf(f: DescribedFile): File {
    File(f.length, JoinedParts(f.parts))
  }

  function FilesOf(files: seq<DescribedFile>): seq<File> {
    seq(|files|, k requires 0 <= k < |files| => FileOf(files[k]))
  }

  function TierOf(urls: seq<string>, tier: int): seq<Multitracker> {
    if urls == [] then [] else
    var n := |urls| - 1;
    TierOf(urls[..n], tier) + if urls[n] != "" then [Multitracker(urls[n], tier)] else []
  }

  function TiersOf(tiers: seq<seq<string>>): seq<Multitracker> {
    if tiers == [] then [] else
    var n := |tiers| - 1;
    TiersOf(tiers[..n]) + TierOf(tiers[n], I32(n))
  }

  function ContentOfDescription(content: DescribedContent): LengthOrFiles {
    if content.OneFile? then SingleFile(content.length) else MultiFile(FilesOf(content.files))
  }

  function MetaOf(d: Description): Metainfo {
    Metainfo(d.url, if d.tiers.Some? then TiersOf(d.tiers.value) else [], d.name, d.pieceLength, d.pieces,
             ContentOfDescription(d.content))
  }

  // ---- The file printed ----

  function StrTrees(strings: seq<string>): seq<Tree> {
    seq(|strings|, k requires 0 <= k < |strings| => TStr(strings[k]))
  }

  function FileTree(f: DescribedFile): Tree {
    TDict([TreeEntry("length", TInt(f.length)), TreeEntry("path", TList(StrTrees(f.parts)))])
  }

  function FileTrees(files: seq<DescribedFile>): seq<Tree> {
    seq(|files|, k requires 0 <= k < |files| => FileTree(files[k]))
  }

  function TierTrees(tiers: seq<seq<string>>): seq<Tree> {
    seq(|tiers|, k requires 0 <= k < |tiers| => TList(StrTrees(tiers[k])))
  }

  function ContentEntry(content: DescribedContent): TreeEntry {
    if content.OneFile? then TreeEntry("length", TInt(content.length))
    else TreeEntry("files", TList(FileTrees(content.files)))
  }

  function InfoTree(d: Description): Tree {
    TDict([ContentEntry(d.content), TreeEntry("name", TStr(d.name)),
           TreeEntry("piece length", TInt(d.pieceLength)), TreeEntry("pieces", TStr(d.pieces))])
  }

  function TiersEntry(d: Description): seq<TreeEntry> {
    if d.tiers.Some? then [TreeEntry("announce-list", TList(TierTrees(d.tiers.value)))] else []
  }

  function TorrentEntries(d: Description): seq<TreeEntry> {
    [TreeEntry("announce", TStr(d.url))] + TiersEntry(d) + [TreeEntry("info", InfoTree(d))]
  }

  function TorrentTree(d: Description): Tree {
    TDict(TorrentEntries(d))
  }

  /** The same dictionary with info first. */
  function InfoFirstEntries(d: Description): seq<TreeEntry> {
    [TreeEntry("info", InfoTree(d)), TreeEntry("announce", TStr(d.url))] + TiersEntry(d)
  }

  function InfoFirstTree(d: Description): Tree {
    TDict(InfoFirstEntries(d))
  }

  predicate PrintableFile(f: DescribedFile) {
    f.length < TWO_64 && "" !in f.parts
  }

  /** The checks of the parser, on the description. */
  predicate Printable(d: Description) {
    && d.url != ""
    && 0 < d.pieceLength < TWO_64
    && d.pieces != "" && |d.pieces| % SHA1_LENGTH == 0
    && (d.content.OneFile? ==> d.content.length < TWO_64)
    && (d.content.ManyFiles? ==> d.content.files != [] && forall f | f in d.content.files :: PrintableFile(f))
  }

  /** A list of strings, as a path. */
  lemma {:induction false} PartsDenote(buf: string, items: seq<Element>, parts: seq<string>)
    requires |items| == |parts| && "" !in parts
    requires forall k | 0 <= k < |parts| :: Denotes(buf, items[k], TStr(parts[k]))
    ensures CheckPathF(buf, items) == Success(()) && JoinF(buf, items) == JoinedParts(parts)
    decreases |parts|
  {
    hide Denotes, Text;
    if items != [] {
      var n := |items| - 1;
      PartsDenote(buf, items[..n], parts[..n]);
      StrDenotes(buf, items[n], parts[n]);
      assert parts[n] in parts;
    }
  }

  /** A list of strings, as a tier of trackers. */
  lemma {:induction false} TierDenotes(buf: string, items: seq<Element>, urls: seq<string>, tier: int)
    requires |items| == |urls| && forall k | 0 <= k < |urls| :: Denotes(buf, items[k], TStr(urls[k]))
    ensures TierF(buf, items, tier) == TierOf(urls, tier)
    decreases |urls|
  {
    hide Denotes, Text;
    if items != [] {
      var n := |items| - 1;
      TierDenotes(buf, items[..n], urls[..n], tier);
      StrDenotes(buf, items[n], urls[n]);
    }
  }

  lemma {:induction false} TiersDenote(buf: string, items: seq<Element>, tiers: seq<seq<string>>)
    requires |items| == |tiers| && forall k | 0 <= k < |tiers| :: Denotes(buf, items[k], TList(StrTrees(tiers[k])))
    ensures TiersF(buf, items) == TiersOf(tiers)
    decreases |tiers|
  {
    hide Denotes, TierF, TierOf, I32;
    if items != [] {
      var n := |items| - 1;
      TiersDenote(buf, items[..n], tiers[..n]);
      ListDenotes(buf, items[n], StrTrees(tiers[n]));
      TierDenotes(buf, items[n].items, tiers[n], I32(n));
    }
  }

  // ---- Files ----

  lemma FileDenotes(buf: string, e: Element, f: DescribedFile)
    requires Denotes(buf, e, FileTree(f)) && PrintableFile(f)
    ensures FileF(buf, e) == Success(FileOf(f))
  {
    hide Denotes, Lookup, AsUint64, Text, KeyAt, CheckPathF, JoinF, JoinedParts;
    DictDenotes(buf, e, [TreeEntry("length", TInt(f.length)), TreeEntry("path", TList(StrTrees(f.parts)))]);
    LookupAt(buf, e.entries, 0);
    LookupAt(buf, e.entries, 1);
    var length, path := e.entries[0].value, e.entries[1].value;
    IntDenotes(buf, length, f.length);
    ListDenotes(buf, path, StrTrees(f.parts));
    PartsDenote(buf, path.items, f.parts);
  }

  lemma {:induction false} FilesDenote(buf: string, items: seq<Element>, files: seq<DescribedFile>)
    requires |items| == |files| && forall f | f in files :: PrintableFile(f)
    requires forall k | 0 <= k < |files| :: Denotes(buf, items[k], FileTree(files[k]))
    ensures FileListF(buf, items) == Success(FilesOf(files))
    decreases |files|
  {
    hide Denotes, FileTree, FileF, PrintableFile, FileOf;
    if items != [] {
      var n := |items| - 1;
      assert forall f | f in files[..n] :: f in files;
      FilesDenote(buf, items[..n], files[..n]);
      assert files[n] in files;
      FileDenotes(buf, items[n], files[n]);
      assert FilesOf(files) == FilesOf(files[..n]) + [FileOf(files[n])];
    }
  }

  lemma ContentDenotes(buf: string, e: Element, d: Description)
    requires Printable(d) && Denotes(buf, e, ContentEntry(d.content).value)
    ensures d.content.OneFile? ==> AsUint64(buf, e) == Success(d.content.length)
    ensures d.content.ManyFiles? ==>
              e.EList? && FilesOf(d.content.files) != [] && FileListF(buf, e.items) == Success(FilesOf(d.content.files))
  {
    hide Denotes, FileTree, AsUint64, FileListF, PrintableFile, FileOf;
    if d.content.OneFile? {
      IntDenotes(buf, e, d.content.length);
    } else {
      ListDenotes(buf, e, FileTrees(d.content.files));
      FilesDenote(buf, e.items, d.content.files);
      assert |FilesOf(d.content.files)| > 0;
    }
  }

  // ---- The info dictionary and the file ----

  lemma InfoEntries(buf: string, e: Element, d: Description)
    requires Denotes(buf, e, InfoTree(d))
    ensures e.EDict? && |e.entries| == 4
    ensures var content := e.entries[0].value;
            && Denotes(buf, content, ContentEntry(d.content).value)
            && Lookup(buf, e.entries, "length") == (if d.content.OneFile? then Some(content) else None)
            && Lookup(buf, e.entries, "files") == (if d.content.ManyFiles? then Some(content) else None)
    ensures Lookup(buf, e.entries, "name") == Some(e.entries[1].value)
    ensures Lookup(buf, e.entries, "piece length") == Some(e.entries[2].value)
    ensures Lookup(buf, e.entries, "pieces") == Some(e.entries[3].value)
    ensures Denotes(buf, e.entries[1].value, TStr(d.name))
    ensures Denotes(buf, e.entries[2].value, TInt(d.pieceLength))
    ensures Denotes(buf, e.entries[3].value, TStr(d.pieces))
  {
    hide Denotes, Lookup, KeyAt, FileTrees;
    DictDenotes(buf, e, [ContentEntry(d.content), TreeEntry("name", TStr(d.name)),
                         TreeEntry("piece length", TInt(d.pieceLength)), TreeEntry("pieces", TStr(d.pieces))]);
    LookupAt(buf, e.entries, 0);
    LookupAt(buf, e.entries, 1);
    LookupAt(buf, e.entries, 2);
    LookupAt(buf, e.entries, 3);
    LookupAbsent(buf, e.entries, if d.content.OneFile? then "files" else "length");
  }

  lemma InfoDenotes(buf: string, e: Element, d: Description, m: Metainfo)
    requires Printable(d) && Denotes(buf, e, InfoTree(d))
    requires NoInfoYet(m) && m.url == MetaOf(d).url && m.trackers == MetaOf(d).trackers
    ensures InfoValueOk(buf, e)
    ensures InfoMeta(buf, m, e.entries) == MetaOf(d)
  {
    hide Denotes, Lookup, AsUint64, FileListF, Text, ContentEntry, TiersOf, FilesOf;
    InfoEntries(buf, e, d);
    ContentDenotes(buf, e.entries[0].value, d);
    StrDenotes(buf, e.entries[1].value, d.name);
    IntDenotes(buf, e.entries[2].value, d.pieceLength);
    StrDenotes(buf, e.entries[3].value, d.pieces);
  }

  /** The dictionary at the start of a printed file. */
  lemma PrintedDictionary(entries: seq<TreeEntry>) returns (e: Element)
    requires |Encode(TDict(entries))| < TWO_64
    ensures ParseDictionaryF(Encode(TDict(entries)), 0) == Ok(e, |Encode(TDict(entries))|)
    ensures Denotes(Encode(TDict(entries)), e, TDict(entries))
  {
    var buf := Encode(TDict(entries));
    e := Place(TDict(entries), 0);
    assert "" + buf + "" == buf;
    RoundTrip("", TDict(entries), "", NoElement);
    ParsesExactlyTheGrammar(buf, 0, NoElement, e, |buf|);
    hide *;
    ContainerParsesExactlyTheGrammar(buf, 0, e, |buf|);
    PlacedDict(entries);
    DenotesIs(buf, e, TDict(entries));
  }

  lemma PlacedDict(entries: seq<TreeEntry>)
    ensures Place(TDict(entries), 0).EDict?
  {
  }

  lemma DenotesIs(buf: string, e: Element, t: Tree)
    ensures Denotes(buf, e, t) <==> IsElement(buf, e) && Value(buf, e) == t
  {
    hide IsElement, Value;
  }

  lemma OuterEntries(buf: string, e: Element, d: Description)
    requires Denotes(buf, e, TorrentTree(d))
    ensures e.EDict?
    ensures Lookup(buf, e.entries, "announce").Some? && Lookup(buf, e.entries, "info").Some?
    ensures IndexOf(buf, e.entries, "announce") < IndexOf(buf, e.entries, "info")
    ensures Denotes(buf, Lookup(buf, e.entries, "announce").value, TStr(d.url))
    ensures Denotes(buf, Lookup(buf, e.entries, "info").value, InfoTree(d))
    ensures match d.tiers
            case None => Lookup(buf, e.entries, "announce-list") == None
            case Some(tiers) =>
              && Lookup(buf, e.entries, "announce-list").Some?
              && Denotes(buf, Lookup(buf, e.entries, "announce-list").value, TList(TierTrees(tiers)))
  {
    hide Denotes, Lookup, KeyAt, IndexOf, InfoTree, TierTrees;
    DictDenotes(buf, e, TorrentEntries(d));
    LookupAt(buf, e.entries, 0);
    LookupAt(buf, e.entries, 1);
    if d.tiers.Some? {
      LookupAt(buf, e.entries, 2);
    } else {
      LookupAbsent(buf, e.entries, "announce-list");
    }
  }

  lemma OuterDenotes(buf: string, e: Element, d: Description)
    requires Printable(d) && Denotes(buf, e, TorrentTree(d))
    ensures e.EDict? && TorrentKeysOk(buf, e.entries) && Lookup(buf, e.entries, "info").Some?
    ensures TorrentMeta(buf, e.entries) == MetaOf(d)
  {
    hide Denotes, Lookup, Text, InfoTree, TorrentTree, IndexOf, InfoValueOk, InfoMeta, TiersF, TiersOf, Printable,
         ContentOfDescription;
    OuterEntries(buf, e, d);
    UrlDenotes(buf, Lookup(buf, e.entries, "announce").value, d);
    if d.tiers.Some? {
      var list := Lookup(buf, e.entries, "announce-list").value;
      ListDenotes(buf, list, TierTrees(d.tiers.value));
      TiersDenote(buf, list.items, d.tiers.value);
    }
    InfoDenotes(buf, Lookup(buf, e.entries, "info").value, d,
                EMPTY.(url := d.url, trackers := MetaOf(d).trackers));
  }

  lemma UrlDenotes(buf: string, e: Element, d: Description)
    requires Printable(d) && Denotes(buf, e, TStr(d.url))
    ensures e.EStr? && Text(buf, e.text) == d.url != ""
  {
    StrDenotes(buf, e, d.url);
    hide Denotes, Text;
  }

  /** For every description that meets the checks, the printed file is accepted and gives what is described. */
  lemma PrintedTorrent(d: Description)
    requires Printable(d) && |Encode(TorrentTree(d))| < TWO_64
    ensures ParseTorrentF(Encode(TorrentTree(d))).Success?
    ensures ParseTorrentF(Encode(TorrentTree(d))).value.meta == MetaOf(d)
  {
    hide *;
    var buf := Encode(TorrentTree(d));
    TreeIs(d);
    var e := PrintedDictionary(TorrentEntries(d));
    OuterDenotes(buf, e, d);
    AcceptedExactly(buf);
  }

  lemma TreeIs(d: Description)
    ensures TorrentTree(d) == TDict(TorrentEntries(d)) && InfoFirstTree(d) == TDict(InfoFirstEntries(d))
  {
  }

  /** The same file with info before announce is rejected, whatever it says. */
  lemma InfoFirstIsRejected(d: Description)
    requires |Encode(InfoFirstTree(d))| < TWO_64
    ensures ParseTorrentF(Encode(InfoFirstTree(d))).Failure?
  {
    hide Denotes, Lookup, KeyAt, Text, InfoTree, Encode, ParseTorrentF, ParseDictionaryF, IndexOf, InfoValueOk,
         InfoMeta, TierTrees;
    var buf := Encode(InfoFirstTree(d));
    var e := PrintedDictionary(InfoFirstEntries(d));
    DictDenotes(buf, e, InfoFirstEntries(d));
    LookupAt(buf, e.entries, 0);
    LookupAt(buf, e.entries, 1);
    AcceptedExactly(buf);
  }
}
