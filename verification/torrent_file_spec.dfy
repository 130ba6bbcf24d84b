/**
 What a .torrent file must contain, stated by looking keys up, and the proof that folding
 the key tables over a dictionary in order of appearance accepts exactly that.
 */
module TorrentFileSpec {
  import opened Machine
  import opened Bencode
  import opened BencodeGrammar
  import opened BencodePrinter
  import opened TorrentFile

  // ---- Any key table: only first occurrences count ----

  /** A table as it is before the first key: nothing parsed, no key twice. */
  ghost predicate Fresh(table: seq<KeyParser>) {
    && (forall i | 0 <= i < |table| :: !table[i].parsed)
    && (forall i, j | 0 <= i < j < |table| :: table[i].key != table[j].key)
  }

  function HandlerOf(table: seq<KeyParser>, key: string): Option<Handler> {
    var j := FindRow(table, key, 0);
    if j < |table| then Some(table[j].handler) else None
  }

  /** The handlers applied, in order of appearance, to the first occurrence of each key of the table. */
  function FirstsF(buf: string, table: seq<KeyParser>, m: Metainfo, entries: seq<Entry>): Result<Metainfo> {
    if entries == [] then Success(m) else
    var n := |entries| - 1;
    var m' :- FirstsF(buf, table, m, entries[..n]);
    var key := KeyAt(buf, entries, n);
    match HandlerOf(table, key)
    case Some(handler) =>
      if Lookup(buf, entries[..n], key).None? then ApplyF(buf, handler, m', entries[n].value) else Success(m')
    case None => Success(m')
  }

  function RowAfter(buf: string, row: KeyParser, entries: seq<Entry>): KeyParser {
    match Lookup(buf, entries, row.key)
    case Some(e) => Done(row, e.pos)
    case None => row
  }

  /** The table after the entries: a row is used up once its key has appeared. */
  function TableAfter(buf: string, table: seq<KeyParser>, entries: seq<Entry>): seq<KeyParser> {
    seq(|table|, i requires 0 <= i < |table| => RowAfter(buf, table[i], entries))
  }

  lemma LookupNone(buf: string, key: string)
    ensures Lookup(buf, [], key).None?
  {
  }

  lemma LookupLast(buf: string, entries: seq<Entry>, key: string)
    requires entries != []
    ensures var n := |entries| - 1;
            Lookup(buf, entries, key)
            == if Lookup(buf, entries[..n], key).Some? then Lookup(buf, entries[..n], key)
               else if KeyAt(buf, entries, n) == key then Some(entries[n].value)
               else None
  {
  }

  lemma {:induction false} FindRowAfter(buf: string, table: seq<KeyParser>, entries: seq<Entry>, key: string, i: nat)
    requires Fresh(table) && i <= |table|
    ensures FindRow(TableAfter(buf, table, entries), key, i)
            == if Lookup(buf, entries, key).None? then FindRow(table, key, i) else |table|
    decreases |table| - i
  {
    hide Lookup;
    if i < |table| {
      FindRowAfter(buf, table, entries, key, i + 1);
      assert TableAfter(buf, table, entries)[i] == RowAfter(buf, table[i], entries);
      if table[i].key == key {
        NoSecondRow(table, key, i);
      }
    }
  }

  lemma {:induction false} NoSecondRow(table: seq<KeyParser>, key: string, i: nat)
    requires Fresh(table) && i < |table| && table[i].key == key
    ensures FindRow(table, key, i + 1) == |table|
  {
    var j := FindRow(table, key, i + 1);
    assert j == |table|;
  }

  /** The one-shot table, folded over the dictionary, does what FirstsF says, error for error. */
  lemma {:induction false} DispatchIsFirsts(buf: string, table: seq<KeyParser>, m: Metainfo, entries: seq<Entry>)
    requires Fresh(table)
    ensures DispatchF(buf, State(table, m), entries)
            == match FirstsF(buf, table, m, entries)
               case Success(m') => Success(State(TableAfter(buf, table, entries), m'))
               case Failure(error) => Failure(error)
    decreases |entries|
  {
    if entries == [] {
      assert TableAfter(buf, table, []) == table;
    } else {
      var n := |entries| - 1;
      DispatchIsFirsts(buf, table, m, entries[..n]);
      var before := FirstsF(buf, table, m, entries[..n]);
      if before.Success? {
        InvokeIsFirst(buf, table, before.value, entries);
      }
    }
  }

  lemma InvokeIsFirst(buf: string, table: seq<KeyParser>, m: Metainfo, entries: seq<Entry>)
    requires Fresh(table) && entries != []
    ensures var n := |entries| - 1;
            var key, value := KeyAt(buf, entries, n), entries[n].value;
            InvokeF(buf, State(TableAfter(buf, table, entries[..n]), m), key, value)
            == if HandlerOf(table, key).Some? && Lookup(buf, entries[..n], key).None? then
                 match ApplyF(buf, HandlerOf(table, key).value, m, value)
                 case Success(m') => Success(State(TableAfter(buf, table, entries), m'))
                 case Failure(error) => Failure(error)
               else Success(State(TableAfter(buf, table, entries), m))
  {
    hide ApplyF, Lookup;
    var n := |entries| - 1;
    var key := KeyAt(buf, entries, n);
    var before, after := TableAfter(buf, table, entries[..n]), TableAfter(buf, table, entries);
    FindRowAfter(buf, table, entries[..n], key, 0);
    var j := FindRow(before, key, 0);
    forall i | 0 <= i < |table|
      ensures after[i] == if i == j then Done(before[i], entries[n].value.pos) else before[i]
    {
      LookupLast(buf, entries, table[i].key);
      if table[i].key == key && i != j {
        RowOfKey(table, key, i);
      }
    }
    assert after == if j < |table| then before[j := Done(before[j], entries[n].value.pos)] else before;
  }

  lemma RowOfKey(table: seq<KeyParser>, key: string, i: nat)
    requires Fresh(table) && i < |table| && table[i].key == key
    ensures FindRow(table, key, 0) == i
  {
    RowFrom(table, key, i, 0);
  }

  lemma {:induction false} RowFrom(table: seq<KeyParser>, key: string, i: nat, k: nat)
    requires Fresh(table) && k <= i < |table| && table[i].key == key
    ensures FindRow(table, key, k) == i
    decreases i - k
  {
    if k < i {
      RowFrom(table, key, i, k + 1);
    }
  }

  // ---- The info dictionary ----

  ghost predicate StringValue(o: Option<Element>) {
    o.Some? ==> o.value.EStr?
  }

  ghost predicate NumberValue(buf: string, o: Option<Element>) {
    o.Some? ==> AsUint64(buf, o.value).Success?
  }

  ghost predicate HashesValue(buf: string, o: Option<Element>) {
    o.Some? ==>
      && o.value.EStr?
      && |Text(buf, o.value.text)| > 0
      && |Text(buf, o.value.text)| % SHA1_LENGTH == 0
  }

  ghost predicate FilesValue(buf: string, o: Option<Element>) {
    o.Some? ==>
      && o.value.EList?
      && FileListF(buf, o.value.items).Success?
      && FileListF(buf, o.value.items).value != []
  }

  /** Each known key that is present has a good value, and at most one of length and files is present. */
  ghost predicate InfoKeysOk(buf: string, entries: seq<Entry>) {
    && StringValue(Lookup(buf, entries, "name"))
    && NumberValue(buf, Lookup(buf, entries, "piece length"))
    && HashesValue(buf, Lookup(buf, entries, "pieces"))
    && NumberValue(buf, Lookup(buf, entries, "length"))
    && FilesValue(buf, Lookup(buf, entries, "files"))
    && !(Lookup(buf, entries, "length").Some? && Lookup(buf, entries, "files").Some?)
  }

  ghost function NameOf(buf: string, o: Option<Element>): string
    requires StringValue(o)
  {
    if o.Some? then Text(buf, o.value.text) else ""
  }

  ghost function NumberOf(buf: string, o: Option<Element>): nat
    requires NumberValue(buf, o)
  {
    if o.Some? then AsUint64(buf, o.value).value else 0
  }

  ghost function HashesOf(buf: string, o: Option<Element>): string
    requires HashesValue(buf, o)
  {
    if o.Some? then Text(buf, o.value.text) else ""
  }

  ghost function ContentOf(buf: string, length: Option<Element>, files: Option<Element>): LengthOrFiles
    requires NumberValue(buf, length) && FilesValue(buf, files)
  {
    if length.Some? then SingleFile(AsUint64(buf, length.value).value)
    else if files.Some? then MultiFile(FileListF(buf, files.value.items).value)
    else Unset
  }

  /** The metainfo once the info dictionary has been read into one that held no info yet. */
  ghost function InfoMeta(buf: string, m: Metainfo, entries: seq<Entry>): Metainfo
    requires InfoKeysOk(buf, entries)
  {
    m.(name := NameOf(buf, Lookup(buf, entries, "name")),
       pieceLength := NumberOf(buf, Lookup(buf, entries, "piece length")),
       pieces := HashesOf(buf, Lookup(buf, entries, "pieces")),
       content := ContentOf(buf, Lookup(buf, entries, "length"), Lookup(buf, entries, "files")))
  }

  ghost predicate NoInfoYet(m: Metainfo) {
    m.name == "" && m.pieceLength == 0 && m.pieces == "" && m.content.Unset?
  }

  lemma InfoHandlers(key: string)
    ensures Fresh(INFO_TABLE)
    ensures HandlerOf(INFO_TABLE, key)
            == if key == "name" then Some(Name)
               else if key == "piece length" then Some(PieceLength)
               else if key == "pieces" then Some(Pieces)
               else if key == "length" then Some(Length)
               else if key == "files" then Some(Files)
               else None
  {
    assert FindRow(INFO_TABLE, key, 5) == 5;
    assert FindRow(INFO_TABLE, key, 4) == if key == "files" then 4 else 5;
    assert FindRow(INFO_TABLE, key, 3) == if key == "length" then 3 else FindRow(INFO_TABLE, key, 4);
    assert FindRow(INFO_TABLE, key, 2) == if key == "pieces" then 2 else FindRow(INFO_TABLE, key, 3);
    assert FindRow(INFO_TABLE, key, 1) == if key == "piece length" then 1 else FindRow(INFO_TABLE, key, 2);
    assert FindRow(INFO_TABLE, key, 0) == if key == "name" then 0 else FindRow(INFO_TABLE, key, 1);
  }

  lemma NoInfoEntries(buf: string, m: Metainfo)
    requires NoInfoYet(m)
    ensures InfoKeysOk(buf, []) && FirstsF(buf, INFO_TABLE, m, []) == Success(InfoMeta(buf, m, []))
  {
  }

  lemma FirstsStep(buf: string, table: seq<KeyParser>, m: Metainfo, entries: seq<Entry>)
    requires entries != []
    ensures var n := |entries| - 1;
            var key, before := KeyAt(buf, entries, n), FirstsF(buf, table, m, entries[..n]);
            FirstsF(buf, table, m, entries)
            == if before.Success? && HandlerOf(table, key).Some? && Lookup(buf, entries[..n], key).None? then
                 ApplyF(buf, HandlerOf(table, key).value, before.value, entries[n].value)
               else before
  {
    hide ApplyF, HandlerOf, Lookup;
  }

  lemma {:induction false} InfoFirsts(buf: string, m: Metainfo, entries: seq<Entry>)
    requires NoInfoYet(m)
    ensures FirstsF(buf, INFO_TABLE, m, entries).Success? <==> InfoKeysOk(buf, entries)
    ensures InfoKeysOk(buf, entries)
            ==> FirstsF(buf, INFO_TABLE, m, entries) == Success(InfoMeta(buf, m, entries))
    decreases |entries|
  {
    hide Lookup, Text, AsUint64, FileListF, FirstsF, HandlerOf, InfoF, Fresh;
    if entries == [] {
      NoInfoEntries(buf, m);
    } else {
      var n := |entries| - 1;
      InfoFirsts(buf, m, entries[..n]);
      InfoHandlers(KeyAt(buf, entries, n));
      FirstsStep(buf, INFO_TABLE, m, entries);
      LookupLast(buf, entries, "name");
      LookupLast(buf, entries, "piece length");
      LookupLast(buf, entries, "pieces");
      LookupLast(buf, entries, "length");
      LookupLast(buf, entries, "files");
    }
  }

  // ---- The whole file ----

  /** The value of an acceptable info key. */
  ghost predicate InfoValueOk(buf: string, e: Element) {
    && e.EDict?
    && InfoKeysOk(buf, e.entries)
    && NumberOf(buf, Lookup(buf, e.entries, "piece length")) > 0
    && Lookup(buf, e.entries, "pieces").Some?
    && (Lookup(buf, e.entries, "length").Some? || Lookup(buf, e.entries, "files").Some?)
  }

  ghost predicate UrlValue(buf: string, o: Option<Element>) {
    o.Some? ==> o.value.EStr? && Text(buf, o.value.text) != ""
  }

  ghost predicate ListValue(o: Option<Element>) {
    o.Some? ==> o.value.EList?
  }

  /** As for the info dictionary; besides, announce must come before info. */
  ghost predicate TorrentKeysOk(buf: string, entries: seq<Entry>) {
    && UrlValue(buf, Lookup(buf, entries, "announce"))
    && ListValue(Lookup(buf, entries, "announce-list"))
    && (Lookup(buf, entries, "info").Some? ==>
          && IndexOf(buf, entries, "announce") < IndexOf(buf, entries, "info")
          && InfoValueOk(buf, Lookup(buf, entries, "info").value))
  }

  ghost function OuterMeta(buf: string, entries: seq<Entry>): Metainfo
    requires TorrentKeysOk(buf, entries)
  {
    var announce, list := Lookup(buf, entries, "announce"), Lookup(buf, entries, "announce-list");
    EMPTY.(url := if announce.Some? then Text(buf, announce.value.text) else "",
           trackers := if list.Some? then TiersF(buf, list.value.items) else [])
  }

  ghost function TorrentMeta(buf: string, entries: seq<Entry>): Metainfo
    requires TorrentKeysOk(buf, entries)
  {
    var info := Lookup(buf, entries, "info");
    if info.Some? then InfoMeta(buf, OuterMeta(buf, entries), info.value.entries) else OuterMeta(buf, entries)
  }

  /** The info value is accepted exactly when it is good and a tracker URL has been read before it. */
  lemma InfoAccepted(buf: string, m: Metainfo, e: Element)
    requires NoInfoYet(m)
    ensures InfoF(buf, m, e).Success? <==> m.url != "" && InfoValueOk(buf, e)
    ensures InfoF(buf, m, e).Success? ==> InfoF(buf, m, e).value == InfoMeta(buf, m, e.entries)
  {
    hide Lookup, Text, AsUint64, FileListF, FirstsF, DispatchF, TableAfter;
    if e.EDict? {
      InfoHandlers("");
      DispatchIsFirsts(buf, INFO_TABLE, m, e.entries);
      InfoFirsts(buf, m, e.entries);
    }
  }

  lemma TorrentHandlers(key: string)
    ensures Fresh(TORRENT_TABLE)
    ensures HandlerOf(TORRENT_TABLE, key)
            == if key == "announce" then Some(Announce)
               else if key == "info" then Some(Info)
               else if key == "announce-list" then Some(AnnounceList)
               else None
  {
    assert FindRow(TORRENT_TABLE, key, 3) == 3;
    assert FindRow(TORRENT_TABLE, key, 2) == if key == "announce-list" then 2 else 3;
    assert FindRow(TORRENT_TABLE, key, 1) == if key == "info" then 1 else FindRow(TORRENT_TABLE, key, 2);
    assert FindRow(TORRENT_TABLE, key, 0) == if key == "announce" then 0 else FindRow(TORRENT_TABLE, key, 1);
  }

  lemma IndexLast(buf: string, entries: seq<Entry>, key: string)
    requires entries != []
    ensures var n := |entries| - 1;
            var i := IndexOf(buf, entries[..n], key);
            && (Lookup(buf, entries[..n], key).Some? <==> i < n)
            && IndexOf(buf, entries, key) == if i < n then i else if KeyAt(buf, entries, n) == key then n else n + 1
  {
  }

  lemma NoTorrentEntries(buf: string)
    ensures TorrentKeysOk(buf, []) && FirstsF(buf, TORRENT_TABLE, EMPTY, []) == Success(TorrentMeta(buf, []))
  {
  }

  lemma InfoMetaKeepsTrackers(buf: string, m: Metainfo, trackers: seq<Multitracker>, entries: seq<Entry>)
    requires InfoKeysOk(buf, entries)
    ensures InfoMeta(buf, m, entries).(trackers := trackers) == InfoMeta(buf, m.(trackers := trackers), entries)
    ensures InfoMeta(buf, m, entries).trackers == m.trackers && InfoMeta(buf, m, entries).url == m.url
  {
    hide InfoKeysOk;
  }

  lemma AnnounceListResult(buf: string, m: Metainfo, e: Element)
    requires m.trackers == []
    ensures AnnounceListF(buf, m, e)
            == if e.EList? then Success(m.(trackers := TiersF(buf, e.items))) else Failure(NotList)
  {
    if e.EList? {
      assert [] + TiersF(buf, e.items) == TiersF(buf, e.items);
    }
  }

  lemma {:induction false} TorrentFirsts(buf: string, entries: seq<Entry>)
    ensures FirstsF(buf, TORRENT_TABLE, EMPTY, entries).Success? <==> TorrentKeysOk(buf, entries)
    ensures TorrentKeysOk(buf, entries)
            ==> FirstsF(buf, TORRENT_TABLE, EMPTY, entries) == Success(TorrentMeta(buf, entries))
    decreases |entries|
  {
    hide Lookup, IndexOf, Text, FirstsF, HandlerOf, Fresh, InfoF, TiersF, AnnounceListF, InfoKeysOk, InfoMeta;
    if entries == [] {
      NoTorrentEntries(buf);
    } else {
      var n := |entries| - 1;
      var before, e := entries[..n], entries[n].value;
      TorrentFirsts(buf, before);
      TorrentHandlers(KeyAt(buf, entries, n));
      FirstsStep(buf, TORRENT_TABLE, EMPTY, entries);
      LookupLast(buf, entries, "announce");
      LookupLast(buf, entries, "announce-list");
      LookupLast(buf, entries, "info");
      IndexLast(buf, entries, "announce");
      IndexLast(buf, entries, "info");
      if TorrentKeysOk(buf, before) {
        var outer, info := OuterMeta(buf, before), Lookup(buf, before, "info");
        if info.Some? {
          InfoMetaKeepsTrackers(buf, outer, if e.EList? then TiersF(buf, e.items) else [], info.value.entries);
        } else {
          InfoAccepted(buf, outer, e);
        }
        if Lookup(buf, before, "announce-list").None? {
          AnnounceListResult(buf, TorrentMeta(buf, before), e);
        }
      }
    }
  }

  /** A torrent file is accepted exactly when it is a dictionary, filling a prefix of the buffer, whose
      first occurrences of the known keys are good, with info present and announce before it. */
  lemma AcceptedExactly(buf: string)
    ensures var d := ParseDictionaryF(buf, 0);
            ParseTorrentF(buf).Success? <==>
            && d.Ok?
            && TorrentKeysOk(buf, d.value.entries)
            && Lookup(buf, d.value.entries, "info").Some?
    ensures ParseTorrentF(buf).Success? ==>
              var entries := ParseDictionaryF(buf, 0).value.entries;
              ParseTorrentF(buf).value
              == TorrentFileInfo(TorrentMeta(buf, entries), Lookup(buf, entries, "info").value.pos)
  {
    hide TorrentMeta, TiersF, Lookup, FirstsF, DispatchF, InfoValueOk;
    var d := ParseDictionaryF(buf, 0);
    if d.Ok? {
      var entries := d.value.entries;
      TorrentHandlers("");
      DispatchIsFirsts(buf, TORRENT_TABLE, EMPTY, entries);
      TorrentFirsts(buf, entries);
      PositionsNotEmpty(buf, d.value, d.cur, "announce");
      PositionsNotEmpty(buf, d.value, d.cur, "info");
      IndexLookup(buf, entries, "announce");
      IndexLookup(buf, entries, "info");
    }
  }

  lemma IndexLookup(buf: string, entries: seq<Entry>, key: string)
    ensures Lookup(buf, entries, key).Some? <==> IndexOf(buf, entries, key) < |entries|
  {
  }

  lemma PositionsNotEmpty(buf: string, d: Element, c: nat, key: string)
    requires ParseDictionaryF(buf, 0) == Ok(d, c)
    ensures Lookup(buf, d.entries, key).Some? ==> Lookup(buf, d.entries, key).value.pos.end > 0
  {
    ContainerParsesExactlyTheGrammar(buf, 0, d, c);
    EntrySpans(buf, d.entries, 1, c - 1);
  }

  /** What every accepted torrent satisfies. */
  lemma AcceptedMetainfo(buf: string)
    requires ParseTorrentF(buf).Success?
    ensures var m := ParseTorrentF(buf).value.meta;
            && m.url != ""
            && 0 < m.pieceLength < TWO_64
            && |m.pieces| > 0 && |m.pieces| % SHA1_LENGTH == 0
            && (m.content.SingleFile? || (m.content.MultiFile? && m.content.files != []))
            && (m.content.SingleFile? ==> m.content.length < TWO_64)
  {
    AcceptedExactly(buf);
    var entries := ParseDictionaryF(buf, 0).value.entries;
    var info := Lookup(buf, entries, "info").value;
    IndexLookup(buf, entries, "announce");
    IndexLookup(buf, entries, "info");
    AcceptedInfo(buf, OuterMeta(buf, entries), info);
    hide Lookup, IndexOf, Text, InfoMeta, InfoValueOk;
  }

  lemma AcceptedInfo(buf: string, outer: Metainfo, info: Element)
    requires InfoValueOk(buf, info)
    ensures var m := InfoMeta(buf, outer, info.entries);
            && m.url == outer.url
            && 0 < m.pieceLength < TWO_64
            && |m.pieces| > 0 && |m.pieces| % SHA1_LENGTH == 0
            && (m.content.SingleFile? || (m.content.MultiFile? && m.content.files != []))
            && (m.content.SingleFile? ==> m.content.length < TWO_64)
  {
    hide Lookup, Text, FileListF;
  }

  /** An info dictionary with both length and files is rejected, whichever comes first. */
  lemma BothLengthAndFilesRejected(buf: string, m: Metainfo, info: Element)
    requires NoInfoYet(m) && info.EDict?
    requires Lookup(buf, info.entries, "length").Some? && Lookup(buf, info.entries, "files").Some?
    ensures InfoF(buf, m, info).Failure?
  {
    hide Lookup;
    InfoAccepted(buf, m, info);
  }

  /** The span recorded for the info key holds the bencoding of the info value and nothing else: these
      are the characters handed to the hash. */
  lemma InfoSpanIsTheInfoValue(buf: string)
    requires ParseTorrentF(buf).Success?
    ensures ParseDictionaryF(buf, 0).Ok? && Lookup(buf, ParseDictionaryF(buf, 0).value.entries, "info").Some?
    ensures var pos := ParseTorrentF(buf).value.infoPosition;
            var info := Lookup(buf, ParseDictionaryF(buf, 0).value.entries, "info").value;
            && 0 < pos.start < pos.end < |buf|
            && info.EDict? && info.pos == pos
            && ParseElementF(buf[pos.start..pos.end], 0, NoElement)
               == Ok(Rebase(info, pos.start), pos.end - pos.start)
            && IsShift(Rebase(info, pos.start), info, pos.start)
            && Value(buf[pos.start..pos.end], Rebase(info, pos.start)) == Value(buf, info)
  {
    hide ParseTorrentF, ParseDictionaryF, ParseElementF, Lookup, IsElement, IsShift, Value, Rebase;
    var info := InfoElement(buf);
    Rebased(buf, info, info.pos.start, info.pos.end);
    ElementComplete(buf[info.pos.start..info.pos.end], Rebase(info, info.pos.start), NoElement);
    RebasedSpan(info);
    ElementSpan(buf, info);
  }

  /** The value of the info key, a sentence of the grammar inside the dictionary. */
  lemma InfoElement(buf: string) returns (info: Element)
    requires ParseTorrentF(buf).Success?
    ensures ParseDictionaryF(buf, 0).Ok?
    ensures Lookup(buf, ParseDictionaryF(buf, 0).value.entries, "info") == Some(info)
    ensures info.EDict? && info.pos == ParseTorrentF(buf).value.infoPosition
    ensures IsElement(buf, info) && 0 < info.pos.start < info.pos.end < |buf|
  {
    hide TorrentKeysOk, TorrentMeta, InfoKeysOk, IsStringToken, ParseTorrentF;
    AcceptedExactly(buf);
    var Ok(d, c) := ParseDictionaryF(buf, 0);
    var i := IndexOf(buf, d.entries, "info");
    info := d.entries[i].value;
    InfoIsDictionary(buf, d.entries);
    ContainerParsesExactlyTheGrammar(buf, 0, d, c);
    EntrySpans(buf, d.entries, 1, c - 1);
    hide AreEntries;
  }

  lemma RebasedSpan(e: Element)
    requires e.pos.start <= e.pos.end
    ensures Rebase(e, e.pos.start).pos == Pos(0, e.pos.end - e.pos.start)
  {
  }

  lemma ElementSpan(buf: string, e: Element)
    requires IsElement(buf, e)
    ensures e.pos.start < e.pos.end <= |buf|
  {
  }

  lemma InfoIsDictionary(buf: string, entries: seq<Entry>)
    requires TorrentKeysOk(buf, entries) && Lookup(buf, entries, "info").Some?
    ensures Lookup(buf, entries, "info").value.EDict?
  {
  }
}
