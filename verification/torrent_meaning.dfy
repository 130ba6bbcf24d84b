/**
 What a torrent file means, read off the tree it is the bencoding of: no buffer, no table, no parser. The
 metainfo layer is proved to compute it, error for error.
 */
module TorrentMeaning {
  import opened Machine
  import opened Bencode
  import opened BencodeGrammar
  import opened BencodePrinter
  import opened TorrentFile
  import opened TorrentFileSpec

  // ---- The meaning of trees ----

  /** The value of the first entry with the key. */
  function FirstValue(entries: seq<TreeEntry>, key: string): Option<Tree> {
    if entries == [] then None
    else if entries[0].key == key then Some(entries[0].value)
    else FirstValue(entries[1..], key)
  }

  function NumberMeant(t: Tree): Result<nat> {
    match t
    case TInt(n) => if 0 <= n < 0x1_0000_0000_0000_0000 then Success(n) else Failure(InvalidInteger)
    case _ => Failure(NotInteger)
  }

  /** Non-empty strings; the first item that is none decides the error. */
  function PathMeant(parts: seq<Tree>): Result<seq<string>> {
    if parts == [] then Success([]) else
    var n := |parts| - 1;
    var before :- PathMeant(parts[..n]);
    match parts[n]
    case TStr(s) => if s == "" then Failure(EmptyMultiFileName) else Success(before + [s])
    case _ => Failure(NotString)
  }

  function Slashed(parts: seq<string>): string {
    if parts == [] then "" else if |parts| == 1 then parts[0] else parts[0] + "/" + Slashed(parts[1..])
  }

  /** A file has a length and a path, found by their keys, wherever they stand and whatever else there is. */
  function FileMeant(t: Tree): Result<File> {
    match t
    case TDict(entries) =>
      (match (FirstValue(entries, "length"), FirstValue(entries, "path"))
       case (Some(length), Some(path)) =>
         if !length.TInt? then Failure(NotInteger)
         else if !path.TList? then Failure(NotList)
         else
           var n :- NumberMeant(length);
           var parts :- PathMeant(path.items);
           Success(File(n, Slashed(parts)))
       case _ => Failure(MissingMultiFileProperty))
    case _ => Failure(NotDictionary)
  }

  function FilesMeant(items: seq<Tree>): Result<seq<File>> {
    if items == [] then Success([]) else
    var n := |items| - 1;
    var before :- FilesMeant(items[..n]);
    var file :- FileMeant(items[n]);
    Success(before + [file])
  }

  function TierMeant(items: seq<Tree>, tier: int): seq<Multitracker> {
    if items == [] then [] else
    var n := |items| - 1;
    TierMeant(items[..n], tier)
    + match items[n] { case TStr(url) => (if url == "" then [] else [Multitracker(url, tier)]) case _ => [] }
  }

  function TiersMeant(items: seq<Tree>): seq<Multitracker> {
    if items == [] then [] else
    var n := |items| - 1;
    TiersMeant(items[..n])
    + match items[n] { case TList(urls) => TierMeant(urls, I32(n)) case _ => [] }
  }

  /** What a key of the info dictionary does to the metainfo read so far; None if the key is not known. */
  function InfoKeyMeant(key: string, m: Metainfo, t: Tree): Option<Result<Metainfo>> {
    if key == "name" then Some(
      match t
      case TStr(s) => Success(if s == "" then m else m.(name := s))
      case _ => Failure(NotString))
    else if key == "piece length" then Some(
      match NumberMeant(t)
      case Success(n) => Success(m.(pieceLength := n))
      case Failure(e) => Failure(e))
    else if key == "pieces" then Some(
      match t
      case TStr(s) => if s == "" || |s| % 20 != 0 then Failure(InvalidInfoPiecesLength20) else Success(m.(pieces := s))
      case _ => Failure(NotString))
    else if key == "length" then Some(
      if !m.content.Unset? then Failure(AmbiguousMultiOrSingleTorrent) else
      match NumberMeant(t)
      case Success(n) => Success(m.(content := SingleFile(n)))
      case Failure(e) => Failure(e))
    else if key == "files" then Some(
      if !m.content.Unset? then Failure(AmbiguousMultiOrSingleTorrent) else
      match t
      case TList(items) =>
        (match FilesMeant(items)
         case Success(files) =>
           if files == [] then Failure(EmptyMultiFile) else Success(m.(content := MultiFile(files)))
         case Failure(e) => Failure(e))
      case _ => Failure(NotList))
    else None
  }

  predicate HasKey(entries: seq<TreeEntry>, key: string) {
    exists i :: 0 <= i < |entries| && entries[i].key == key
  }

  /** The first occurrences of the known keys, in order of appearance, up to the first error. */
  function InfoEntriesMeant(entries: seq<TreeEntry>, m: Metainfo): Result<Metainfo> {
    if entries == [] then Success(m) else
    var n := |entries| - 1;
    var before :- InfoEntriesMeant(entries[..n], m);
    var key := entries[n].key;
    if HasKey(entries[..n], key) then Success(before) else
    match InfoKeyMeant(key, before, entries[n].value)
    case None => Success(before)
    case Some(after) => after
  }

  function InfoMeant(m: Metainfo, t: Tree): Result<Metainfo> {
    match t
    case TDict(entries) =>
      var m' :- InfoEntriesMeant(entries, m);
      if m'.url != "" && m'.pieceLength > 0 && m'.pieces != "" && !m'.content.Unset? then Success(m')
      else Failure(InvalidInvariant)
    case _ => Failure(NotDictionary)
  }

  function TorrentKeyMeant(key: string, m: Metainfo, t: Tree): Option<Result<Metainfo>> {
    if key == "announce" then Some(
      match t
      case TStr(s) => if s == "" then Failure(EmptyAnnounce) else Success(m.(url := s))
      case _ => Failure(NotString))
    else if key == "info" then Some(InfoMeant(m, t))
    else if key == "announce-list" then Some(
      match t
      case TList(items) => Success(m.(trackers := m.trackers + TiersMeant(items)))
      case _ => Failure(NotList))
    else None
  }

  function TorrentEntriesMeant(entries: seq<TreeEntry>, m: Metainfo): Result<Metainfo> {
    if entries == [] then Success(m) else
    var n := |entries| - 1;
    var before :- TorrentEntriesMeant(entries[..n], m);
    var key := entries[n].key;
    if HasKey(entries[..n], key) then Success(before) else
    match TorrentKeyMeant(key, before, entries[n].value)
    case None => Success(before)
    case Some(after) => after
  }

  /** A torrent file: announce and info must be there. */
  function TorrentMeant(entries: seq<TreeEntry>): Result<Metainfo> {
    var m :- TorrentEntriesMeant(entries, Metainfo("", [], "", 0, "", Unset));
    if HasKey(entries, "announce") && HasKey(entries, "info") then Success(m) else Failure(MissingInfoProperty)
  }

  // ---- Elements and the trees they denote ----

  ghost predicate Denotes(buf: string, e: Element, t: Tree) {
    IsElement(buf, e) && Value(buf, e) == t
  }

  lemma {:induction false} EntriesDenote(buf: string, entries: seq<Entry>, trees: seq<TreeEntry>)
    requires EntryValues(buf, entries) == trees
    ensures |entries| == |trees|
    ensures forall k | 0 <= k < |trees| ::
              KeyAt(buf, entries, k) == trees[k].key && Value(buf, entries[k].value) == trees[k].value
    decreases |entries|
  {
    hide Value, Text;
    if entries != [] {
      EntriesDenote(buf, entries[1..], trees[1..]);
      forall k | 0 < k < |trees|
        ensures KeyAt(buf, entries, k) == trees[k].key && Value(buf, entries[k].value) == trees[k].value
      {
        assert entries[k] == entries[1..][k - 1] && trees[k] == trees[1..][k - 1];
        assert KeyAt(buf, entries, k) == KeyAt(buf, entries[1..], k - 1);
      }
    }
  }

  lemma {:induction false} ItemsDenote(buf: string, items: seq<Element>, trees: seq<Tree>)
    requires Values(buf, items) == trees
    ensures |items| == |trees|
    ensures forall k | 0 <= k < |trees| :: Value(buf, items[k]) == trees[k]
    decreases |items|
  {
    hide Value;
    if items != [] {
      ItemsDenote(buf, items[1..], trees[1..]);
      forall k | 0 < k < |trees|
        ensures Value(buf, items[k]) == trees[k]
      {
        assert items[k] == items[1..][k - 1] && trees[k] == trees[1..][k - 1];
      }
    }
  }

  lemma DictDenotes(buf: string, e: Element, trees: seq<TreeEntry>)
    requires Denotes(buf, e, TDict(trees))
    ensures e.EDict? && |e.entries| == |trees|
    ensures forall k | 0 <= k < |trees| ::
              KeyAt(buf, e.entries, k) == trees[k].key && Denotes(buf, e.entries[k].value, trees[k].value)
  {
    EntriesDenote(buf, e.entries, trees);
    EntrySpans(buf, e.entries, e.pos.start + 1, e.pos.end - 1);
    hide AreEntries, IsStringToken, Text;
  }

  lemma ListDenotes(buf: string, e: Element, trees: seq<Tree>)
    requires Denotes(buf, e, TList(trees))
    ensures e.EList? && |e.items| == |trees|
    ensures forall k | 0 <= k < |trees| :: Denotes(buf, e.items[k], trees[k])
  {
    ItemsDenote(buf, e.items, trees);
    ItemSpans(buf, e.items, e.pos.start + 1, e.pos.end - 1);
    hide AreItems;
  }

  lemma StrDenotes(buf: string, e: Element, s: string)
    requires Denotes(buf, e, TStr(s))
    ensures e.EStr? && Text(buf, e.text) == s
  {
    hide IsElement, Text;
  }

  /** A number, as the handlers read it. */
  lemma NumberDenotes(buf: string, e: Element)
    requires IsElement(buf, e)
    ensures AsUint64(buf, e) == NumberMeant(Value(buf, e))
  {
    if e.EInt? {
      var text := Text(buf, e.text);
      assert CanonicalInteger(text);
      hide IsElement, DecimalValue;
      if text[0] == '-' {
        assert text[1..][0] == text[1];
        PositiveValue(text[1..]);
        assert !IsDigit(text[0]);
      }
    }
  }

  lemma IntDenotes(buf: string, e: Element, n: nat)
    requires Denotes(buf, e, TInt(n)) && n < TWO_64
    ensures e.EInt? && AsUint64(buf, e) == Success(n)
  {
    var text := Text(buf, e.text);
    assert CanonicalInteger(text) && IntValue(text) == n;
    hide IsElement, Value, DecimalValue;
    if text[0] == '-' {
      assert text[1..][0] == text[1];
      PositiveValue(text[1..]);
    }
  }

  /** The first entry with its key is the one that is looked up. */
  lemma LookupAt(buf: string, entries: seq<Entry>, i: nat)
    requires i < |entries| && forall j | 0 <= j < i :: KeyAt(buf, entries, j) != KeyAt(buf, entries, i)
    ensures IndexOf(buf, entries, KeyAt(buf, entries, i)) == i
    ensures Lookup(buf, entries, KeyAt(buf, entries, i)) == Some(entries[i].value)
  {
    hide IndexOf, KeyAt;
  }

  lemma LookupAbsent(buf: string, entries: seq<Entry>, key: string)
    requires forall j | 0 <= j < |entries| :: KeyAt(buf, entries, j) != key
    ensures Lookup(buf, entries, key) == None
  {
    hide IndexOf, KeyAt;
  }

  // ---- The handlers compute the meaning ----

  lemma MeansDict(buf: string, e: Element)
    requires IsElement(buf, e) && e.EDict?
    ensures Value(buf, e).TDict? && |Value(buf, e).entries| == |e.entries|
    ensures forall k | 0 <= k < |e.entries| ::
              && Value(buf, e).entries[k].key == KeyAt(buf, e.entries, k)
              && Value(buf, e).entries[k].value == Value(buf, e.entries[k].value)
              && IsElement(buf, e.entries[k].value)
  {
    hide IsElement, Value, KeyAt;
    DenotesValue(buf, e);
    ValueOfDict(buf, e);
    DictDenotes(buf, e, Value(buf, e).entries);
  }

  lemma ValueOfDict(buf: string, e: Element)
    ensures e.EDict? <==> Value(buf, e).TDict?
    ensures e.EList? <==> Value(buf, e).TList?
    ensures e.EStr? <==> Value(buf, e).TStr?
    ensures e.EInt? <==> Value(buf, e).TInt?
    ensures e.EStr? ==> Value(buf, e).s == Text(buf, e.text)
  {
    hide Text;
  }

  lemma DenotesValue(buf: string, e: Element)
    requires IsElement(buf, e)
    ensures Denotes(buf, e, Value(buf, e))
  {
    hide IsElement, Value;
  }

  lemma MeansList(buf: string, e: Element)
    requires IsElement(buf, e) && e.EList?
    ensures Value(buf, e).TList? && |Value(buf, e).items| == |e.items|
    ensures forall k | 0 <= k < |e.items| ::
              Value(buf, e).items[k] == Value(buf, e.items[k]) && IsElement(buf, e.items[k])
  {
    hide IsElement, Value;
    DenotesValue(buf, e);
    ValueOfDict(buf, e);
    ListDenotes(buf, e, Value(buf, e).items);
  }

  /** The trees of the entries, index by index. */
  ghost predicate SameEntries(buf: string, entries: seq<Entry>, trees: seq<TreeEntry>) {
    && |entries| == |trees|
    && forall k | 0 <= k < |trees| ::
         && KeyAt(buf, entries, k) == trees[k].key
         && IsElement(buf, entries[k].value) && Value(buf, entries[k].value) == trees[k].value
  }

  ghost predicate SameItems(buf: string, items: seq<Element>, trees: seq<Tree>) {
    && |items| == |trees|
    && forall k | 0 <= k < |trees| :: IsElement(buf, items[k]) && Value(buf, items[k]) == trees[k]
  }

  lemma SameEntriesBefore(buf: string, entries: seq<Entry>, trees: seq<TreeEntry>, n: nat)
    requires SameEntries(buf, entries, trees) && n <= |trees|
    ensures SameEntries(buf, entries[..n], trees[..n])
  {
    hide IsElement, Value, Text;
    forall k | 0 <= k < n
      ensures KeyAt(buf, entries[..n], k) == trees[..n][k].key
    {
      assert KeyAt(buf, entries[..n], k) == KeyAt(buf, entries, k);
    }
  }

  lemma {:induction false} FirstValueAt(trees: seq<TreeEntry>, key: string, i: nat)
    requires i < |trees| && trees[i].key == key && forall j | 0 <= j < i :: trees[j].key != key
    ensures FirstValue(trees, key) == Some(trees[i].value)
    decreases i
  {
    if i > 0 {
      assert trees[1..][i - 1] == trees[i];
      assert forall j | 0 <= j < i - 1 :: trees[1..][j] == trees[j + 1];
      FirstValueAt(trees[1..], key, i - 1);
    }
  }

  lemma {:induction false} FirstValueAbsent(trees: seq<TreeEntry>, key: string)
    requires forall j | 0 <= j < |trees| :: trees[j].key != key
    ensures FirstValue(trees, key) == None
  {
    if trees != [] {
      assert forall j | 0 <= j < |trees| - 1 :: trees[1..][j] == trees[j + 1];
      FirstValueAbsent(trees[1..], key);
    }
  }

  /** Looking a key up in the entries is looking it up in the trees. */
  lemma LookupMeans(buf: string, entries: seq<Entry>, trees: seq<TreeEntry>, key: string)
    requires SameEntries(buf, entries, trees)
    ensures Lookup(buf, entries, key).Some? <==> FirstValue(trees, key).Some?
    ensures Lookup(buf, entries, key).Some? <==> HasKey(trees, key)
    ensures Lookup(buf, entries, key).Some? ==>
              && IsElement(buf, Lookup(buf, entries, key).value)
              && Value(buf, Lookup(buf, entries, key).value) == FirstValue(trees, key).value
  {
    hide IsElement, Value, KeyAt, FirstValue;
    var i := IndexOf(buf, entries, key);
    hide IndexOf;
    if i < |entries| {
      FirstValueAt(trees, key, i);
      assert trees[i].key == key;
    } else {
      FirstValueAbsent(trees, key);
    }
  }

  // ---- Paths and files ----

  lemma {:induction false} SlashedSnoc(parts: seq<string>, last: string)
    requires parts != []
    ensures Slashed(parts + [last]) == Slashed(parts) + "/" + last
  {
    assert (parts + [last])[1..] == parts[1..] + [last];
    if |parts| > 1 {
      SlashedSnoc(parts[1..], last);
    } else {
      assert parts[1..] + [last] == [last];
    }
  }

  lemma {:induction false} PathMeans(buf: string, items: seq<Element>, trees: seq<Tree>)
    requires SameItems(buf, items, trees)
    ensures CheckPathF(buf, items)
         == match PathMeant(trees) case Success(_) => Success(()) case Failure(e) => Failure(e)
    ensures PathMeant(trees).Success? ==>
              |PathMeant(trees).value| == |trees| && JoinF(buf, items) == Slashed(PathMeant(trees).value)
    decreases |items|
  {
    hide IsElement, Text;
    if items != [] {
      var n := |items| - 1;
      PathMeans(buf, items[..n], trees[..n]);
      ValueOfDict(buf, items[n]);
      if PathMeant(trees[..n]).Success? && n > 0 && items[n].EStr? {
        SlashedSnoc(PathMeant(trees[..n]).value, Text(buf, items[n].text));
      }
    }
    hide Value;
  }

  lemma FileMeans(buf: string, e: Element)
    requires IsElement(buf, e)
    ensures FileF(buf, e) == FileMeant(Value(buf, e))
  {
    hide IsElement, Value, Lookup, FirstValue, CheckPathF, JoinF, PathMeant, AsUint64, NumberMeant, Slashed, HasKey,
         KeyAt;
    ValueOfDict(buf, e);
    if e.EDict? {
      MeansDict(buf, e);
      var trees := Value(buf, e).entries;
      LookupMeans(buf, e.entries, trees, "length");
      LookupMeans(buf, e.entries, trees, "path");
      if Lookup(buf, e.entries, "length").Some? && Lookup(buf, e.entries, "path").Some? {
        FileValuesMean(buf, Lookup(buf, e.entries, "length").value, Lookup(buf, e.entries, "path").value);
      }
    }
  }

  lemma FileValuesMean(buf: string, length: Element, path: Element)
    requires IsElement(buf, length) && IsElement(buf, path)
    ensures FilesFileF(buf, length, path)
         == var l, p := Value(buf, length), Value(buf, path);
            if !l.TInt? then Failure(NotInteger)
            else if !p.TList? then Failure(NotList)
            else match NumberMeant(l)
                 case Failure(e) => Failure(e)
                 case Success(n) =>
                   match PathMeant(p.items)
                   case Failure(e) => Failure(e)
                   case Success(parts) => Success(File(n, Slashed(parts)))
  {
    hide IsElement, Value, CheckPathF, JoinF, PathMeant, AsUint64, NumberMeant, Slashed;
    ValueOfDict(buf, length);
    ValueOfDict(buf, path);
    NumberDenotes(buf, length);
    if path.EList? {
      MeansList(buf, path);
      PathMeans(buf, path.items, Value(buf, path).items);
    }
  }

  lemma {:induction false} FilesMean(buf: string, items: seq<Element>, trees: seq<Tree>)
    requires SameItems(buf, items, trees)
    ensures FileListF(buf, items) == FilesMeant(trees)
    decreases |items|
  {
    hide IsElement, Value, FileF, FileMeant;
    if items != [] {
      var n := |items| - 1;
      FilesMean(buf, items[..n], trees[..n]);
      FileMeans(buf, items[n]);
    }
  }

  // ---- Trackers ----

  lemma {:induction false} TierMeans(buf: string, items: seq<Element>, trees: seq<Tree>, tier: int)
    requires SameItems(buf, items, trees)
    ensures TierF(buf, items, tier) == TierMeant(trees, tier)
    decreases |items|
  {
    hide IsElement, Value, Text;
    if items != [] {
      var n := |items| - 1;
      TierMeans(buf, items[..n], trees[..n], tier);
      ValueOfDict(buf, items[n]);
    }
  }

  lemma {:induction false} TiersMean(buf: string, items: seq<Element>, trees: seq<Tree>)
    requires SameItems(buf, items, trees)
    ensures TiersF(buf, items) == TiersMeant(trees)
    decreases |items|
  {
    hide IsElement, Value, TierF, TierMeant, I32;
    if items != [] {
      var n := |items| - 1;
      TiersMean(buf, items[..n], trees[..n]);
      ValueOfDict(buf, items[n]);
      if items[n].EList? {
        MeansList(buf, items[n]);
        TierMeans(buf, items[n].items, Value(buf, items[n]).items, I32(n));
      }
    }
  }

  // ---- The info dictionary ----

  lemma InfoHandlerMeans(buf: string, key: string, m: Metainfo, e: Element)
    requires IsElement(buf, e)
    ensures match HandlerOf(INFO_TABLE, key)
            case None => InfoKeyMeant(key, m, Value(buf, e)) == None
            case Some(handler) => InfoKeyMeant(key, m, Value(buf, e)) == Some(ApplyF(buf, handler, m, e))
  {
    hide IsElement, Value, Text, AsUint64, NumberMeant, FileListF, FilesMeant, InfoF, AnnounceF, AnnounceListF,
         HandlerOf;
    InfoHandlers(key);
    ValueOfDict(buf, e);
    NumberDenotes(buf, e);
    if e.EList? {
      MeansList(buf, e);
      FilesMean(buf, e.items, Value(buf, e).items);
    }
  }

  lemma {:induction false} InfoEntriesMean(buf: string, entries: seq<Entry>, trees: seq<TreeEntry>, m: Metainfo)
    requires SameEntries(buf, entries, trees)
    ensures FirstsF(buf, INFO_TABLE, m, entries) == InfoEntriesMeant(trees, m)
    decreases |entries|
  {
    hide IsElement, Value, FirstsF, Lookup, FirstValue, HasKey, ApplyF, InfoKeyMeant, HandlerOf, KeyAt;
    if entries == [] {
      NoEntries(buf, INFO_TABLE, m);
    } else {
      var n := |entries| - 1;
      SameEntriesBefore(buf, entries, trees, n);
      InfoEntriesMean(buf, entries[..n], trees[..n], m);
      FirstsStep(buf, INFO_TABLE, m, entries);
      LookupMeans(buf, entries[..n], trees[..n], trees[n].key);
      if InfoEntriesMeant(trees[..n], m).Success? {
        InfoHandlerMeans(buf, trees[n].key, InfoEntriesMeant(trees[..n], m).value, entries[n].value);
      }
    }
  }

  lemma NoEntries(buf: string, table: seq<KeyParser>, m: Metainfo)
    ensures FirstsF(buf, table, m, []) == Success(m)
  {
  }

  lemma InfoMeans(buf: string, m: Metainfo, e: Element)
    requires IsElement(buf, e)
    ensures InfoF(buf, m, e) == InfoMeant(m, Value(buf, e))
  {
    hide IsElement, Value, FirstsF, DispatchF, TableAfter, InfoEntriesMeant, KeyAt;
    ValueOfDict(buf, e);
    if e.EDict? {
      MeansDict(buf, e);
      InfoHandlers("");
      DispatchIsFirsts(buf, INFO_TABLE, m, e.entries);
      InfoEntriesMean(buf, e.entries, Value(buf, e).entries, m);
    }
  }

  // ---- The whole file ----

  lemma TorrentHandlerMeans(buf: string, key: string, m: Metainfo, e: Element)
    requires IsElement(buf, e)
    ensures match HandlerOf(TORRENT_TABLE, key)
            case None => TorrentKeyMeant(key, m, Value(buf, e)) == None
            case Some(handler) => TorrentKeyMeant(key, m, Value(buf, e)) == Some(ApplyF(buf, handler, m, e))
  {
    hide IsElement, Value, Text, InfoF, InfoMeant, TiersF, TiersMeant, HandlerOf, NameF, PieceLengthF, PiecesF, LengthF,
         FilesF;
    TorrentHandlers(key);
    ValueOfDict(buf, e);
    InfoMeans(buf, m, e);
    if e.EList? {
      MeansList(buf, e);
      TiersMean(buf, e.items, Value(buf, e).items);
    }
  }

  lemma {:induction false} TorrentEntriesMean(buf: string, entries: seq<Entry>, trees: seq<TreeEntry>, m: Metainfo)
    requires SameEntries(buf, entries, trees)
    ensures FirstsF(buf, TORRENT_TABLE, m, entries) == TorrentEntriesMeant(trees, m)
    decreases |entries|
  {
    hide IsElement, Value, FirstsF, Lookup, FirstValue, HasKey, ApplyF, TorrentKeyMeant, HandlerOf, KeyAt;
    if entries == [] {
      NoEntries(buf, TORRENT_TABLE, m);
    } else {
      var n := |entries| - 1;
      SameEntriesBefore(buf, entries, trees, n);
      TorrentEntriesMean(buf, entries[..n], trees[..n], m);
      FirstsStep(buf, TORRENT_TABLE, m, entries);
      LookupMeans(buf, entries[..n], trees[..n], trees[n].key);
      if TorrentEntriesMeant(trees[..n], m).Success? {
        TorrentHandlerMeans(buf, trees[n].key, TorrentEntriesMeant(trees[..n], m).value, entries[n].value);
      }
    }
  }

  /** For every text that starts with a dictionary, whatever its keys and values: the metainfo layer gives the
      metainfo its tree means, or the error; and a text that does not is rejected with the parser's error. */
  lemma TorrentMeans(buf: string)
    ensures ParseDictionaryF(buf, 0).Err? ==>
              ParseTorrentF(buf) == Failure(BadEncoding(ParseDictionaryF(buf, 0).error))
    ensures ParseDictionaryF(buf, 0).Ok? ==>
              var t := Value(buf, ParseDictionaryF(buf, 0).value);
              t.TDict? && TorrentIs(ParseTorrentF(buf), TorrentMeant(t.entries))
  {
    hide IsElement, Value, FirstsF, DispatchF, TorrentEntriesMeant, KeyAt, ParseDictionaryF, HasKey, FirstValue, Lookup;
    if ParseDictionaryF(buf, 0).Ok? {
      var Ok(d, c) := ParseDictionaryF(buf, 0);
      DictionaryIsDict(buf);
      ContainerParsesExactlyTheGrammar(buf, 0, d, c);
      MeansDict(buf, d);
      TorrentHandlers("");
      DispatchIsFirsts(buf, TORRENT_TABLE, EMPTY, d.entries);
      var trees := Value(buf, d).entries;
      TorrentEntriesMean(buf, d.entries, trees, EMPTY);
      LookupMeans(buf, d.entries, trees, "announce");
      LookupMeans(buf, d.entries, trees, "info");
      PositionsNotEmpty(buf, d, c, "announce");
      PositionsNotEmpty(buf, d, c, "info");
      IndexLookup(buf, d.entries, "announce");
      IndexLookup(buf, d.entries, "info");
    }
  }

  ghost predicate TorrentIs(r: Result<TorrentFileInfo>, meant: Result<Metainfo>) {
    match meant
    case Success(m) => r.Success? && r.value.meta == m
    case Failure(e) => r == Failure(e)
  }

  lemma DictionaryIsDict(buf: string)
    ensures ParseDictionaryF(buf, 0).Ok? ==> ParseDictionaryF(buf, 0).value.EDict?
  {
  }
}
