/** The metainfo reader: it fills one metainfo in place while walking the parsed dictionary. */
module TorrentFileParser {
  import opened Machine
  import opened Bencode
  import opened BencodePrinter
  import opened TorrentFile
  import opened TorrentFileSpec
  import BencodeParser

  class MetainfoReader {
    const buf: string
    var meta: Metainfo

    constructor (content: string)
      ensures buf == content && meta == EMPTY
    {
      buf := content;
      meta := EMPTY;
    }

    /** A handler succeeded with the metainfo its function computes, or failed with its error. */
    ghost predicate Filled(r: Result<()>, f: Result<Metainfo>)
      reads this
    {
      match f
      case Success(m) => r.Success? && meta == m
      case Failure(error) => r == Failure(error)
    }

    method Apply(handler: Handler, e: Element) returns (r: Result<()>)
      modifies this
      ensures Filled(r, ApplyF(buf, handler, old(meta), e))
      decreases e, 1
    {
      match handler
      case Announce => r := ParseAnnounce(e);
      case Info => r := ParseInfo(e);
      case AnnounceList => r := ParseAnnounceList(e);
      case Name => r := ParseName(e);
      case PieceLength => r := ParsePieceLength(e);
      case Pieces => r := ParsePieces(e);
      case Length => r := ParseLength(e);
      case Files => r := ParseFiles(e);
    }

    method ParseAnnounce(e: Element) returns (r: Result<()>)
      modifies this
      ensures Filled(r, AnnounceF(buf, old(meta), e))
    {
      if !e.EStr? {
        return Failure(NotString);
      }
      var url := Text(buf, e.text);
      if url != "" {
        meta := meta.(url := url);
        return Success(());
      }
      return Failure(EmptyAnnounce);
    }

    method ParseAnnounceList(e: Element) returns (r: Result<()>)
      modifies this
      ensures Filled(r, AnnounceListF(buf, old(meta), e))
    {
      if !e.EList? {
        return Failure(NotList);
      }
      ghost var before := meta.trackers;
      assert before + TiersF(buf, e.items[..0]) == before;
      for i := 0 to |e.items|
        invariant meta == old(meta).(trackers := before + TiersF(buf, e.items[..i]))
      {
        assert e.items[..i + 1][..i] == e.items[..i];
        if e.items[i].EList? {
          ParseTier(e.items[i].items, I32(i));
        }
        assert meta.trackers == before + TiersF(buf, e.items[..i + 1]);
      }
      assert e.items[..|e.items|] == e.items;
      return Success(());
    }

    method ParseTier(urls: seq<Element>, tier: int)
      modifies this
      ensures meta == old(meta).(trackers := old(meta).trackers + TierF(buf, urls, tier))
    {
      assert meta.trackers + TierF(buf, urls[..0], tier) == meta.trackers;
      for i := 0 to |urls|
        invariant meta == old(meta).(trackers := old(meta).trackers + TierF(buf, urls[..i], tier))
      {
        assert urls[..i + 1][..i] == urls[..i];
        if urls[i].EStr? {
          var url := Text(buf, urls[i].text);
          if url != "" {
            meta := meta.(trackers := meta.trackers + [Multitracker(url, tier)]);
          }
        }
        assert meta.trackers == old(meta).trackers + TierF(buf, urls[..i + 1], tier);
      }
      assert urls[..|urls|] == urls;
    }

    method ParseName(e: Element) returns (r: Result<()>)
      modifies this
      ensures Filled(r, NameF(buf, old(meta), e))
    {
      if !e.EStr? {
        return Failure(NotString);
      }
      var name := Text(buf, e.text);
      if name != "" {
        meta := meta.(name := name);
      }
      return Success(());
    }

    method ParsePieceLength(e: Element) returns (r: Result<()>)
      modifies this
      ensures Filled(r, PieceLengthF(buf, old(meta), e))
    {
      if !e.EInt? {
        return Failure(NotInteger);
      }
      var length := ParseAsUint64(Text(buf, e.text));
      if length.Failure? {
        return Failure(length.error);
      }
      meta := meta.(pieceLength := length.value);
      return Success(());
    }

    method ParsePieces(e: Element) returns (r: Result<()>)
      modifies this
      ensures Filled(r, PiecesF(buf, old(meta), e))
    {
      if !e.EStr? {
        return Failure(NotString);
      }
      var hashes := Text(buf, e.text);
      if |hashes| == 0 || |hashes| % SHA1_LENGTH != 0 {
        return Failure(InvalidInfoPiecesLength20);
      }
      meta := meta.(pieces := hashes);
      return Success(());
    }

    method ParseLength(e: Element) returns (r: Result<()>)
      modifies this
      ensures Filled(r, LengthF(buf, old(meta), e))
    {
      if !meta.content.Unset? {
        return Failure(AmbiguousMultiOrSingleTorrent);
      }
      if !e.EInt? {
        return Failure(NotInteger);
      }
      var length := ParseAsUint64(Text(buf, e.text));
      if length.Failure? {
        return Failure(length.error);
      }
      meta := meta.(content := SingleFile(length.value));
      return Success(());
    }

    method ParseFiles(e: Element) returns (r: Result<()>)
      modifies this
      ensures Filled(r, FilesF(buf, old(meta), e))
    {
      if !meta.content.Unset? {
        return Failure(AmbiguousMultiOrSingleTorrent);
      }
      if !e.EList? {
        return Failure(NotList);
      }
      var files: seq<File> := [];
      for i := 0 to |e.items|
        invariant FileListF(buf, e.items[..i]) == Success(files)
        invariant meta == old(meta)
      {
        assert e.items[..i + 1][..i] == e.items[..i];
        var file := ParseFile(e.items[i]);
        if file.Failure? {
          FirstFailure(buf, e.items, i);
          return Failure(file.error);
        }
        files := files + [file.value];
      }
      assert e.items[..|e.items|] == e.items;
      if files == [] {
        return Failure(EmptyMultiFile);
      }
      meta := meta.(content := MultiFile(files));
      return Success(());
    }

    method ParseFile(e: Element) returns (r: Result<File>)
      ensures r == FileF(buf, e)
    {
      hide Lookup, IndexOf, Text, FilesFileF;
      if !e.EDict? {
        return Failure(NotDictionary);
      }
      var length: Option<Element> := None;
      var path: Option<Element> := None;
      LookupNone(buf, "length");
      LookupNone(buf, "path");
      for i := 0 to |e.entries|
        invariant length == Lookup(buf, e.entries[..i], "length")
        invariant path == Lookup(buf, e.entries[..i], "path")
      {
        assert e.entries[..i + 1][..i] == e.entries[..i];
        LookupLast(buf, e.entries[..i + 1], "length");
        LookupLast(buf, e.entries[..i + 1], "path");
        var name := KeyAt(buf, e.entries, i);
        if name == "length" && length.None? {
          length := Some(e.entries[i].value);
        } else if name == "path" && path.None? {
          path := Some(e.entries[i].value);
        }
      }
      assert e.entries[..|e.entries|] == e.entries;
      if length.None? || path.None? {
        return Failure(MissingMultiFileProperty);
      }
      r := ParseFilesFile(length.value, path.value);
    }

    method ParseFilesFile(length: Element, path: Element) returns (r: Result<File>)
      ensures r == FilesFileF(buf, length, path)
    {
      if !length.EInt? {
        return Failure(NotInteger);
      }
      if !path.EList? {
        return Failure(NotList);
      }
      var bytes := ParseAsUint64(Text(buf, length.text));
      if bytes.Failure? {
        return Failure(bytes.error);
      }
      var parts := path.items;
      for i := 0 to |parts|
        invariant CheckPathF(buf, parts[..i]) == Success(())
      {
        assert parts[..i + 1][..i] == parts[..i];
        if !parts[i].EStr? {
          FirstBadPart(buf, parts, i + 1);
          return Failure(NotString);
        }
        if Text(buf, parts[i].text) == "" {
          FirstBadPart(buf, parts, i + 1);
          return Failure(EmptyMultiFileName);
        }
      }
      assert parts[..|parts|] == parts;
      var joined := JoinParts(parts);
      return Success(File(bytes.value, joined));
    }

    method JoinParts(parts: seq<Element>) returns (path: string)
      ensures path == JoinF(buf, parts)
    {
      if parts == [] {
        return "";
      }
      hide JoinF, PartText;
      path := "";
      var n := |parts| - 1;
      for i := 0 to n
        invariant path == if i == 0 then "" else JoinF(buf, parts[..i]) + "/"
      {
        assert parts[..i + 1][..i] == parts[..i];
        path := path + PartText(buf, parts[i]);
        JoinLast(buf, parts[..i + 1]);
        path := path + "/";
      }
      JoinLast(buf, parts);
      path := path + PartText(buf, parts[n]);
    }

    method InvokeParserOptionalKey(table: array<KeyParser>, key: string, e: Element) returns (r: Result<()>)
      modifies this, table
      ensures match InvokeF(buf, State(old(table[..]), old(meta)), key, e)
              case Success(s) => r.Success? && table[..] == s.table && meta == s.meta
              case Failure(error) => r == Failure(error)
      decreases e, 2
    {
      for i := 0 to table.Length
        invariant table[..] == old(table[..]) && meta == old(meta)
        invariant FindRow(table[..], key, i) == FindRow(table[..], key, 0)
      {
        if table[i].parsed || table[i].key != key {
          continue;
        }
        r := Apply(table[i].handler, e);
        table[i] := Done(table[i], e.pos);
        return;
      }
      return Success(());
    }

    /** Runs a table over the entries of a dictionary. */
    method Dispatch(table: array<KeyParser>, entries: seq<Entry>) returns (r: Result<()>)
      modifies this, table
      ensures match DispatchF(buf, State(old(table[..]), old(meta)), entries)
              case Success(s) => r.Success? && table[..] == s.table && meta == s.meta
              case Failure(error) => r == Failure(error)
      decreases entries, 3
    {
      ghost var start := State(table[..], meta);
      for i := 0 to |entries|
        invariant DispatchF(buf, start, entries[..i]) == Success(State(table[..], meta))
      {
        assert entries[..i + 1][..i] == entries[..i];
        assert entries[i].value < entries[i];
        r := InvokeParserOptionalKey(table, KeyAt(buf, entries, i), entries[i].value);
        if r.Failure? {
          FirstFailedKey(buf, start, entries, i);
          return;
        }
      }
      assert entries[..|entries|] == entries;
      return Success(());
    }

    method ParseInfo(e: Element) returns (r: Result<()>)
      modifies this
      ensures Filled(r, InfoF(buf, old(meta), e))
      decreases e, 0
    {
      if !e.EDict? {
        return Failure(NotDictionary);
      }
      var table := new KeyParser[5](i requires 0 <= i < 5 => INFO_TABLE[i]);
      assert table[..] == INFO_TABLE;
      r := Dispatch(table, e.entries);
      if r.Failure? {
        return;
      }
      if meta.url != "" && meta.pieceLength > 0 && meta.pieces != "" && !meta.content.Unset? {
        return Success(());
      }
      return Failure(InvalidInvariant);
    }
  }

  lemma JoinLast(buf: string, parts: seq<Element>)
    requires parts != []
    ensures var n := |parts| - 1;
            JoinF(buf, parts)
            == (if n == 0 then "" else JoinF(buf, parts[..n]) + "/") + PartText(buf, parts[n])
  {
  }

  lemma {:induction false} FirstFailure(buf: string, items: seq<Element>, i: nat)
    requires i < |items|
    requires FileListF(buf, items[..i]).Success? && FileF(buf, items[i]).Failure?
    ensures FileListF(buf, items) == Failure(FileF(buf, items[i]).error)
    decreases |items|
  {
    hide FileF;
    var n := |items| - 1;
    if i < n {
      assert items[..n][..i] == items[..i];
      FirstFailure(buf, items[..n], i);
    }
  }

  lemma {:induction false} FirstBadPart(buf: string, parts: seq<Element>, k: nat)
    requires k <= |parts|
    requires CheckPathF(buf, parts[..k]).Failure?
    ensures CheckPathF(buf, parts) == CheckPathF(buf, parts[..k])
    decreases |parts|
  {
    hide Text;
    var n := |parts| - 1;
    if k <= n {
      assert parts[..n][..k] == parts[..k];
      FirstBadPart(buf, parts[..n], k);
    } else {
      assert parts[..k] == parts;
    }
  }

  lemma {:induction false} FirstFailedKey(buf: string, start: State, entries: seq<Entry>, i: nat)
    requires i < |entries|
    requires DispatchF(buf, start, entries[..i + 1]).Failure?
    ensures DispatchF(buf, start, entries) == DispatchF(buf, start, entries[..i + 1])
    decreases |entries|
  {
    hide InvokeF;
    var n := |entries| - 1;
    if i < n {
      assert entries[..n][..i + 1] == entries[..i + 1];
      FirstFailedKey(buf, start, entries[..n], i);
    } else {
      assert entries[..i + 1] == entries;
    }
  }

  method ParseTorrentFileContent(content: string) returns (r: Result<TorrentFileInfo>)
    ensures r == ParseTorrentF(content)
  {
    var data := BencodeParser.ParseDictionary(content);
    if data.Failure? {
      return Failure(BadEncoding(data.error));
    }
    var table := new KeyParser[3](i requires 0 <= i < 3 => TORRENT_TABLE[i]);
    assert table[..] == TORRENT_TABLE;
    var reader := new MetainfoReader(content);
    var ok := reader.Dispatch(table, data.value.entries);
    if ok.Failure? {
      return Failure(ok.error);
    }
    if table[0].position.end == 0 || table[1].position.end == 0 {
      return Failure(MissingInfoProperty);
    }
    return Success(TorrentFileInfo(reader.meta, table[1].position));
  }
}
