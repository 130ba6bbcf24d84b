/**
 The .torrent metainfo layer: typed fields read out of a parsed dictionary.

 A handler is one of the parsing functions a key table points to; it takes the metainfo
 filled so far and the value of its key. The classes in torrent_file_parser.dfy run the same
 tables in place.
 */
module TorrentFile {
  import opened Machine
  import opened Bencode
  import opened BencodePrinter

  datatype File = File(length: nat, path: string)

  datatype LengthOrFiles = Unset | SingleFile(length: nat) | MultiFile(files: seq<File>)

  datatype Multitracker = Multitracker(url: string, tier: int)

  datatype Metainfo = Metainfo(
    url: string,
    trackers: seq<Multitracker>,
    name: string,
    pieceLength: nat,
    pieces: string,
    content: LengthOrFiles)

  const EMPTY: Metainfo := Metainfo("", [], "", 0, "", Unset)

  datatype MetainfoError =
    | NotString
    | NotInteger
    | NotList
    | NotDictionary
    | InvalidInteger
    | EmptyAnnounce
    | InvalidInfoPiecesLength20
    | AmbiguousMultiOrSingleTorrent
    | EmptyMultiFileName
    | MissingMultiFileProperty
    | EmptyMultiFile
    | MissingInfoProperty
    | InvalidInvariant
    | BadEncoding(error: ParseError)

  type Result<+T> = Fallible<T, MetainfoError>

  const SHA1_LENGTH := 20

  /** An unsigned 64-bit number written in decimal. */
  function ParseAsUint64(s: string): Result<nat> {
    if s != "" && Digits(s) && DecimalValue(s) < TWO_64 then Success(DecimalValue(s)) else Failure(InvalidInteger)
  }

  function AsUint64(buf: string, e: Element): Result<nat> {
    if e.EInt? then ParseAsUint64(Text(buf, e.text)) else Failure(NotInteger)
  }

  // ---- Dictionary lookup ----

  function KeyAt(buf: string, entries: seq<Entry>, i: nat): string
    requires i < |entries|
  {
    Text(buf, entries[i].key)
  }

  /** The position of the first entry with the given key. */
  function IndexOf(buf: string, entries: seq<Entry>, key: string): (i: nat)
    ensures i <= |entries|
    ensures i < |entries| ==> KeyAt(buf, entries, i) == key
    ensures forall j | 0 <= j < i :: KeyAt(buf, entries, j) != key
  {
    if entries == [] then 0 else
    var n := |entries| - 1;
    var i := IndexOf(buf, entries[..n], key);
    assert forall j | 0 <= j < n :: entries[..n][j] == entries[j];
    assert forall j | 0 <= j < n :: KeyAt(buf, entries[..n], j) == KeyAt(buf, entries, j);
    if i < n then i else if KeyAt(buf, entries, n) == key then n else n + 1
  }

  /** The value of the first entry with the given key. */
  function Lookup(buf: string, entries: seq<Entry>, key: string): Option<Element> {
    var i := IndexOf(buf, entries, key);
    if i < |entries| then Some(entries[i].value) else None
  }

  // ---- The handlers ----

  function AnnounceF(buf: string, m: Metainfo, e: Element): Result<Metainfo> {
    if !e.EStr? then Failure(NotString)
    else if Text(buf, e.text) == "" then Failure(EmptyAnnounce)
    else Success(m.(url := Text(buf, e.text)))
  }

  /** The non-empty strings of one tier. */
  function TierF(buf: string, items: seq<Element>, tier: int): seq<Multitracker> {
    if items == [] then [] else
    var last := items[|items| - 1];
    TierF(buf, items[..|items| - 1], tier)
    + if last.EStr? && Text(buf, last.text) != "" then [Multitracker(Text(buf, last.text), tier)] else []
  }

  /** The trackers of all tiers, with the number of the tier as an int; whatever is not a list of strings is
      skipped. */
  function TiersF(buf: string, tiers: seq<Element>): seq<Multitracker> {
    if tiers == [] then [] else
    var n := |tiers| - 1;
    TiersF(buf, tiers[..n]) + if tiers[n].EList? then TierF(buf, tiers[n].items, I32(n)) else []
  }

  function AnnounceListF(buf: string, m: Metainfo, e: Element): Result<Metainfo> {
    if !e.EList? then Failure(NotList) else Success(m.(trackers := m.trackers + TiersF(buf, e.items)))
  }

  function NameF(buf: string, m: Metainfo, e: Element): Result<Metainfo> {
    if !e.EStr? then Failure(NotString)
    else if Text(buf, e.text) == "" then Success(m)
    else Success(m.(name := Text(buf, e.text)))
  }

  function PieceLengthF(buf: string, m: Metainfo, e: Element): Result<Metainfo> {
    var n :- AsUint64(buf, e);
    Success(m.(pieceLength := n))
  }

  function PiecesF(buf: string, m: Metainfo, e: Element): Result<Metainfo> {
    if !e.EStr? then Failure(NotString) else
    var hashes := Text(buf, e.text);
    if |hashes| == 0 || |hashes| % SHA1_LENGTH != 0 then Failure(InvalidInfoPiecesLength20)
    else Success(m.(pieces := hashes))
  }

  function LengthF(buf: string, m: Metainfo, e: Element): Result<Metainfo> {
    if !m.content.Unset? then Failure(AmbiguousMultiOrSingleTorrent) else
    var n :- AsUint64(buf, e);
    Success(m.(content := SingleFile(n)))
  }

  /** The first path part that is not a non-empty string, as an error. */
  function CheckPathF(buf: string, parts: seq<Element>): Result<()> {
    if parts == [] then Success(()) else
    var n := |parts| - 1;
    var _ :- CheckPathF(buf, parts[..n]);
    if !parts[n].EStr? then Failure(NotString)
    else if Text(buf, parts[n].text) == "" then Failure(EmptyMultiFileName)
    else Success(())
  }

  function PartText(buf: string, e: Element): string {
    if e.EStr? then Text(buf, e.text) else ""
  }

  /** The path parts separated by '/'. */
  function JoinF(buf: string, parts: seq<Element>): string {
    if parts == [] then "" else
    var n := |parts| - 1;
    if n == 0 then PartText(buf, parts[0]) else JoinF(buf, parts[..n]) + "/" + PartText(buf, parts[n])
  }

  function FilesFileF(buf: string, length: Element, path: Element): Result<File> {
    if !length.EInt? then Failure(NotInteger)
    else if !path.EList? then Failure(NotList)
    else
      var n :- AsUint64(buf, length);
      var _ :- CheckPathF(buf, path.items);
      Success(File(n, JoinF(buf, path.items)))
  }

  function FileF(buf: string, e: Element): Result<File> {
    if !e.EDict? then Failure(NotDictionary) else
    var length, path := Lookup(buf, e.entries, "length"), Lookup(buf, e.entries, "path");
    if length.None? || path.None? then Failure(MissingMultiFileProperty)
    else FilesFileF(buf, length.value, path.value)
  }

  function FileListF(buf: string, items: seq<Element>): Result<seq<File>> {
    if items == [] then Success([]) else
    var n := |items| - 1;
    var files :- FileListF(buf, items[..n]);
    var file :- FileF(buf, items[n]);
    Success(files + [file])
  }

  function FilesF(buf: string, m: Metainfo, e: Element): Result<Metainfo> {
    if !m.content.Unset? then Failure(AmbiguousMultiOrSingleTorrent)
    else if !e.EList? then Failure(NotList)
    else
      var files :- FileListF(buf, e.items);
      if files == [] then Failure(EmptyMultiFile) else Success(m.(content := MultiFile(files)))
  }

  // ---- Key tables ----

  datatype Handler =
    | Announce
    | Info
    | AnnounceList
    | Name
    | PieceLength
    | Pieces
    | Length
    | Files

  /** One row of a key table; a tracked row also records the span of its value. */
  datatype KeyParser = KeyParser(key: string, handler: Handler, parsed: bool, tracked: bool, position: Pos)

  const TORRENT_TABLE: seq<KeyParser> := [
    KeyParser("announce", Announce, false, true, Pos(0, 0)),
    KeyParser("info", Info, false, true, Pos(0, 0)),
    KeyParser("announce-list", AnnounceList, false, false, Pos(0, 0))]

  const INFO_TABLE: seq<KeyParser> := [
    KeyParser("name", Name, false, false, Pos(0, 0)),
    KeyParser("piece length", PieceLength, false, false, Pos(0, 0)),
    KeyParser("pieces", Pieces, false, false, Pos(0, 0)),
    KeyParser("length", Length, false, false, Pos(0, 0)),
    KeyParser("files", Files, false, false, Pos(0, 0))]

  function Done(row: KeyParser, pos: Pos): KeyParser {
    if row.tracked then row.(parsed := true, position := pos) else row.(parsed := true)
  }

  /** The first row, from i on, that is waiting for the key. */
  function FindRow(table: seq<KeyParser>, key: string, i: nat): (j: nat)
    requires i <= |table|
    ensures i <= j <= |table|
    ensures j < |table| ==> !table[j].parsed && table[j].key == key
    decreases |table| - i
  {
    if i < |table| && (table[i].parsed || table[i].key != key) then FindRow(table, key, i + 1) else i
  }

  datatype State = State(table: seq<KeyParser>, meta: Metainfo)

  function ApplyF(buf: string, handler: Handler, m: Metainfo, e: Element): Result<Metainfo>
    decreases e, 1
  {
    match handler
    case Announce => AnnounceF(buf, m, e)
    case Info => InfoF(buf, m, e)
    case AnnounceList => AnnounceListF(buf, m, e)
    case Name => NameF(buf, m, e)
    case PieceLength => PieceLengthF(buf, m, e)
    case Pieces => PiecesF(buf, m, e)
    case Length => LengthF(buf, m, e)
    case Files => FilesF(buf, m, e)
  }

  /** A key no row is waiting for is ignored. */
  function InvokeF(buf: string, s: State, key: string, e: Element): (r: Result<State>)
    ensures r.Success? ==> |r.value.table| == |s.table|
    decreases e, 2
  {
    var j := FindRow(s.table, key, 0);
    if j == |s.table| then Success(s) else
    var m :- ApplyF(buf, s.table[j].handler, s.meta, e);
    Success(State(s.table[j := Done(s.table[j], e.pos)], m))
  }

  function DispatchF(buf: string, s: State, entries: seq<Entry>): (r: Result<State>)
    ensures r.Success? ==> |r.value.table| == |s.table|
    decreases entries, 0
  {
    if entries == [] then Success(s) else
    var n := |entries| - 1;
    var s' :- DispatchF(buf, s, entries[..n]);
    assert entries[n].value < entries[n];
    InvokeF(buf, s', KeyAt(buf, entries, n), entries[n].value)
  }

  /** What the info dictionary must have left in the metainfo. */
  predicate InfoComplete(m: Metainfo) {
    m.url != "" && m.pieceLength > 0 && m.pieces != "" && !m.content.Unset?
  }

  function InfoF(buf: string, m: Metainfo, e: Element): Result<Metainfo>
    decreases e, 0
  {
    if !e.EDict? then Failure(NotDictionary) else
    var s :- DispatchF(buf, State(INFO_TABLE, m), e.entries);
    if InfoComplete(s.meta) then Success(s.meta) else Failure(InvalidInvariant)
  }

  datatype TorrentFileInfo = TorrentFileInfo(meta: Metainfo, infoPosition: Pos)

  function ParseTorrentF(buf: string): Result<TorrentFileInfo> {
    match ParseDictionaryF(buf, 0)
    case Err(error) => Failure(BadEncoding(error))
    case Ok(d, _) =>
      var s :- DispatchF(buf, State(TORRENT_TABLE, EMPTY), d.entries);
      if s.table[0].position.end == 0 || s.table[1].position.end == 0 then
        Failure(MissingInfoProperty)
      else
        Success(TorrentFileInfo(s.meta, s.table[1].position))
  }
}
