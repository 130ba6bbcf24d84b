/**
 The bencoding of value trees, and what follows from the parser accepting exactly the
 grammar: round trip, locality of spans, canonical re-printing, prefix-freedom, size bounds.
 */
module BencodePrinter {
  import opened Machine
  import opened Bencode
  import opened BencodeGrammar

  datatype Tree =
    | TInt(n: int)
    | TStr(s: string)
    | TList(items: seq<Tree>)
    | TDict(entries: seq<TreeEntry>)

  datatype TreeEntry = TreeEntry(key: string, value: Tree)

  // ---- Decimal text ----

  function DigitChar(d: nat): char
    requires d < 10
  {
    ('0' as int + d) as char
  }

  function NatText(n: nat): string {
    if n < 10 then [DigitChar(n)] else NatText(n / 10) + [DigitChar(n % 10)]
  }

  function IntText(n: int): string {
    if n < 0 then "-" + NatText(-n) else NatText(n)
  }

  function IntValue(s: string): int {
    if |s| > 0 && s[0] == '-' then
      if Digits(s[1..]) then 0 - DecimalValue(s[1..]) else 0
    else
      if Digits(s) then DecimalValue(s) else 0
  }

  ghost predicate NoLeadingZero(s: string) {
    |s| > 0 && (s[0] == '0' ==> |s| == 1)
  }

  lemma {:induction false} NatTextValue(n: nat)
    ensures Digits(NatText(n)) && DecimalValue(NatText(n)) == n
    ensures NoLeadingZero(NatText(n)) && (n > 0 ==> NatText(n)[0] != '0')
  {
    if n < 10 {
      assert NatText(n)[..0] == "";
    } else {
      NatTextValue(n / 10);
      var s := NatText(n / 10);
      assert NatText(n)[..|NatText(n)| - 1] == s;
    }
  }

  /** Printing the value of a digit string shortens it exactly when it has leading zeros. */
  lemma {:induction false} ValueText(s: string)
    requires Digits(s) && |s| > 0
    ensures |NatText(DecimalValue(s))| <= |s|
    ensures |NatText(DecimalValue(s))| == |s| <==> NoLeadingZero(s)
    ensures NoLeadingZero(s) ==> NatText(DecimalValue(s)) == s
  {
    var n := |s| - 1;
    var init, last := s[..n], DigitValue(s[n]);
    if n == 0 {
      assert s == [DigitChar(last)];
    } else {
      ValueText(init);
      assert s == init + [DigitChar(last)];
      var v := DecimalValue(init);
      assert (v * 10 + last) / 10 == v && (v * 10 + last) % 10 == last;
      assert v == 0 ==> NatText(v) == "0";
    }
  }

  lemma IntTextCanonical(n: int)
    ensures CanonicalInteger(IntText(n)) && IntValue(IntText(n)) == n
  {
    NatTextValue(if n < 0 then -n else n);
    if n < 0 {
      assert IntText(n)[1..] == NatText(-n);
    }
  }

  lemma CanonicalIntText(s: string)
    requires CanonicalInteger(s)
    ensures IntText(IntValue(s)) == s
  {
    if s[0] == '-' {
      ValueText(s[1..]);
      PositiveValue(s[1..]);
      assert s == "-" + s[1..];
    } else {
      ValueText(s);
    }
  }

  lemma PositiveValue(s: string)
    requires Digits(s) && |s| > 0 && s[0] != '0'
    ensures DecimalValue(s) > 0
  {
    ValueText(s);
  }

  // ---- The printer ----

  function StringToken(s: string): string {
    NatText(|s|) + ":" + s
  }

  function Encode(t: Tree): string {
    match t
    case TInt(n) => "i" + IntText(n) + "e"
    case TStr(s) => StringToken(s)
    case TList(items) => "l" + EncodeItems(items) + "e"
    case TDict(entries) => "d" + EncodeEntries(entries) + "e"
  }

  function EncodeItems(items: seq<Tree>): string {
    if items == [] then "" else Encode(items[0]) + EncodeItems(items[1..])
  }

  function EncodeEntries(entries: seq<TreeEntry>): string {
    if entries == [] then "" else
    assert entries[0].value < entries[0];
    StringToken(entries[0].key) + Encode(entries[0].value) + EncodeEntries(entries[1..])
  }

  // ---- From elements to values ----

  function Text(buf: string, v: View): string {
    if v.off + v.len <= |buf| then buf[v.off..v.off + v.len] else ""
  }

  function Value(buf: string, e: Element): Tree {
    match e
    case EInt(text, _) => TInt(IntValue(Text(buf, text)))
    case EStr(text, _) => TStr(Text(buf, text))
    case EList(items, _) => TList(Values(buf, items))
    case EDict(entries, _) => TDict(EntryValues(buf, entries))
  }

  function Values(buf: string, items: seq<Element>): seq<Tree> {
    if items == [] then [] else [Value(buf, items[0])] + Values(buf, items[1..])
  }

  function EntryValues(buf: string, entries: seq<Entry>): seq<TreeEntry> {
    if entries == [] then [] else
    assert entries[0].value < entries[0];
    [TreeEntry(Text(buf, entries[0].key), Value(buf, entries[0].value))] + EntryValues(buf, entries[1..])
  }

  // ---- Substrings at a position ----

  ghost predicate At(buf: string, off: nat, s: string) {
    off + |s| <= |buf| && buf[off..off + |s|] == s
  }

  lemma AtConcat(buf: string, off: nat, a: string, b: string)
    ensures At(buf, off, a + b) <==> At(buf, off, a) && At(buf, off + |a|, b)
  {
    if At(buf, off, a + b) {
      assert buf[off..off + |a|] == (a + b)[..|a|] == a;
      assert buf[off + |a|..off + |a| + |b|] == (a + b)[|a|..] == b;
    }
    if At(buf, off, a) && At(buf, off + |a|, b) {
      assert buf[off..off + |a + b|] == buf[off..off + |a|] + buf[off + |a|..off + |a| + |b|];
    }
  }

  lemma AtConcat3(buf: string, off: nat, a: string, b: string, c: string)
    ensures At(buf, off, a + b + c)
            <==> At(buf, off, a) && At(buf, off + |a|, b) && At(buf, off + |a| + |b|, c)
  {
    AtConcat(buf, off, a + b, c);
    AtConcat(buf, off, a, b);
  }

  lemma AtChar(buf: string, off: nat, c: char)
    ensures At(buf, off, [c]) <==> off < |buf| && buf[off] == c
  {
  }

  // ---- Round trip ----

  /** The element that printing t at off leaves there. */
  function Place(t: Tree, off: nat): (e: Element)
    ensures e.pos == Pos(off, off + |Encode(t)|)
  {
    var pos := Pos(off, off + |Encode(t)|);
    match t
    case TInt(n) => EInt(View(off + 1, |IntText(n)|), pos)
    case TStr(s) => EStr(View(off + |NatText(|s|)| + 1, |s|), pos)
    case TList(items) => EList(PlaceItems(items, off + 1), pos)
    case TDict(entries) => EDict(PlaceEntries(entries, off + 1), pos)
  }

  function PlaceItems(items: seq<Tree>, off: nat): seq<Element> {
    if items == [] then [] else
    [Place(items[0], off)] + PlaceItems(items[1..], off + |Encode(items[0])|)
  }

  function PlaceEntries(entries: seq<TreeEntry>, off: nat): seq<Entry> {
    if entries == [] then [] else
    var TreeEntry(key, value) := entries[0];
    assert value < entries[0];
    var at := off + |StringToken(key)|;
    [Entry(View(off + |NatText(|key|)| + 1, |key|), Place(value, at))]
    + PlaceEntries(entries[1..], at + |Encode(value)|)
  }

  lemma StringTokenPlaced(buf: string, s: string, off: nat)
    requires |buf| < TWO_64 && At(buf, off, StringToken(s))
    ensures var v := View(off + |NatText(|s|)| + 1, |s|);
            IsStringToken(buf, off, v) && Text(buf, v) == s
  {
    NatTextValue(|s|);
    AtConcat3(buf, off, NatText(|s|), ":", s);
    AtChar(buf, off + |NatText(|s|)|, ':');
  }

  /** The parts of an encoding that opens with a letter and closes with 'e'. */
  lemma BracketsAt(buf: string, off: nat, open: char, body: string)
    ensures At(buf, off, [open] + body + "e")
            <==> && off + |body| + 1 < |buf|
                 && buf[off] == open
                 && At(buf, off + 1, body)
                 && buf[off + |body| + 1] == 'e'
  {
    AtConcat3(buf, off, [open], body, "e");
    AtChar(buf, off, open);
    AtChar(buf, off + 1 + |body|, 'e');
  }

  lemma IntPlaced(buf: string, n: int, off: nat)
    requires At(buf, off, Encode(TInt(n)))
    ensures IsElement(buf, Place(TInt(n), off)) && Value(buf, Place(TInt(n), off)) == TInt(n)
  {
    hide CanonicalInteger, IntValue, IntText;
    IntTextCanonical(n);
    BracketsAt(buf, off, 'i', IntText(n));
  }

  lemma StrPlaced(buf: string, s: string, off: nat)
    requires |buf| < TWO_64 && At(buf, off, Encode(TStr(s)))
    ensures IsElement(buf, Place(TStr(s), off)) && Value(buf, Place(TStr(s), off)) == TStr(s)
  {
    hide IsStringToken, Text, At, NatText;
    StringTokenPlaced(buf, s, off);
    NatTextNotEmpty(|s|);
    TokenInside(buf, off, View(off + |NatText(|s|)| + 1, |s|));
  }

  lemma NatTextNotEmpty(n: nat)
    ensures |NatText(n)| > 0
  {
  }

  lemma TokenInside(buf: string, start: nat, v: View)
    requires IsStringToken(buf, start, v)
    ensures start + 1 < v.off && v.off + v.len <= |buf|
  {
    hide Digits, DecimalValue;
  }

  lemma ListPlaced(buf: string, items: seq<Tree>, off: nat)
    requires At(buf, off, Encode(TList(items)))
    ensures At(buf, off + 1, EncodeItems(items))
    ensures AreItems(buf, PlaceItems(items, off + 1), off + 1, off + 1 + |EncodeItems(items)|)
            && Values(buf, PlaceItems(items, off + 1)) == items
            ==> IsElement(buf, Place(TList(items), off)) && Value(buf, Place(TList(items), off)) == TList(items)
  {
    hide At, EncodeItems, AreItems, PlaceItems, Values;
    BracketsAt(buf, off, 'l', EncodeItems(items));
  }

  lemma DictPlaced(buf: string, entries: seq<TreeEntry>, off: nat)
    requires At(buf, off, Encode(TDict(entries)))
    ensures At(buf, off + 1, EncodeEntries(entries))
    ensures AreEntries(buf, PlaceEntries(entries, off + 1), off + 1, off + 1 + |EncodeEntries(entries)|)
            && EntryValues(buf, PlaceEntries(entries, off + 1)) == entries
            ==> IsElement(buf, Place(TDict(entries), off)) && Value(buf, Place(TDict(entries), off)) == TDict(entries)
  {
    hide At, EncodeEntries, AreEntries, PlaceEntries, EntryValues;
    BracketsAt(buf, off, 'd', EncodeEntries(entries));
  }

  lemma {:induction false} Placed(buf: string, t: Tree, off: nat)
    requires |buf| < TWO_64 && At(buf, off, Encode(t))
    ensures IsElement(buf, Place(t, off)) && Value(buf, Place(t, off)) == t
    decreases t
  {
    hide *;
    match t
    case TInt(n) => IntPlaced(buf, n, off);
    case TStr(s) => StrPlaced(buf, s, off);
    case TList(items) =>
      ListPlaced(buf, items, off);
      ItemsPlaced(buf, items, off + 1);
    case TDict(entries) =>
      DictPlaced(buf, entries, off);
      EntriesPlaced(buf, entries, off + 1);
  }

  lemma AreItemsCons(buf: string, e: Element, rest: seq<Element>, b: nat)
    requires IsElement(buf, e) && AreItems(buf, rest, e.pos.end, b)
    ensures AreItems(buf, [e] + rest, e.pos.start, b)
    ensures Values(buf, [e] + rest) == [Value(buf, e)] + Values(buf, rest)
  {
    hide IsElement, Value;
    assert ([e] + rest)[1..] == rest;
  }

  lemma AreEntriesCons(buf: string, a: nat, entry: Entry, rest: seq<Entry>, b: nat)
    requires IsStringToken(buf, a, entry.key) && IsElement(buf, entry.value)
    requires entry.value.pos.start == entry.key.off + entry.key.len
    requires AreEntries(buf, rest, entry.value.pos.end, b)
    ensures AreEntries(buf, [entry] + rest, a, b)
    ensures EntryValues(buf, [entry] + rest)
            == [TreeEntry(Text(buf, entry.key), Value(buf, entry.value))] + EntryValues(buf, rest)
  {
    hide IsStringToken, IsElement, Value, Text;
    assert ([entry] + rest)[1..] == rest;
  }

  lemma NothingPlaced(buf: string, off: nat)
    ensures EncodeItems([]) == "" && AreItems(buf, PlaceItems([], off), off, off)
    ensures EncodeEntries([]) == "" && AreEntries(buf, PlaceEntries([], off), off, off)
    ensures Values(buf, PlaceItems([], off)) == [] && EntryValues(buf, PlaceEntries([], off)) == []
  {
  }

  lemma UnfoldItems(items: seq<Tree>, off: nat)
    requires items != []
    ensures EncodeItems(items) == Encode(items[0]) + EncodeItems(items[1..])
    ensures PlaceItems(items, off)
            == [Place(items[0], off)] + PlaceItems(items[1..], off + |Encode(items[0])|)
  {
    hide Encode, Place;
  }

  lemma UnfoldEntries(entries: seq<TreeEntry>, off: nat)
    requires entries != []
    ensures entries[0].value < entries[0]
    ensures var TreeEntry(key, value) := entries[0];
            var token, code := StringToken(key), Encode(value);
            var entry := Entry(View(off + |NatText(|key|)| + 1, |key|), Place(value, off + |token|));
            && |token| == |NatText(|key|)| + 1 + |key|
            && EncodeEntries(entries) == token + code + EncodeEntries(entries[1..])
            && PlaceEntries(entries, off) == [entry] + PlaceEntries(entries[1..], off + |token| + |code|)
  {
    hide Encode, Place;
  }

  lemma {:induction false} ItemsPlaced(buf: string, items: seq<Tree>, off: nat)
    requires |buf| < TWO_64 && At(buf, off, EncodeItems(items))
    ensures AreItems(buf, PlaceItems(items, off), off, off + |EncodeItems(items)|)
    ensures Values(buf, PlaceItems(items, off)) == items
    decreases items
  {
    hide *;
    if items == [] {
      NothingPlaced(buf, off);
    } else {
      var t, rest := items[0], items[1..];
      var next := off + |Encode(t)|;
      UnfoldItems(items, off);
      AtConcat(buf, off, Encode(t), EncodeItems(rest));
      Placed(buf, t, off);
      ItemsPlaced(buf, rest, next);
      AreItemsCons(buf, Place(t, off), PlaceItems(rest, next), next + |EncodeItems(rest)|);
      assert items == [t] + rest;
    }
  }

  lemma {:induction false} EntriesPlaced(buf: string, entries: seq<TreeEntry>, off: nat)
    requires |buf| < TWO_64 && At(buf, off, EncodeEntries(entries))
    ensures AreEntries(buf, PlaceEntries(entries, off), off, off + |EncodeEntries(entries)|)
    ensures EntryValues(buf, PlaceEntries(entries, off)) == entries
    decreases entries
  {
    hide *;
    if entries == [] {
      NothingPlaced(buf, off);
    } else {
      var TreeEntry(key, value) := entries[0];
      var rest, token, code := entries[1..], StringToken(key), Encode(value);
      var next := off + |token| + |code|;
      var entry := Entry(View(off + |NatText(|key|)| + 1, |key|), Place(value, off + |token|));
      UnfoldEntries(entries, off);
      AtConcat3(buf, off, token, code, EncodeEntries(rest));
      StringTokenPlaced(buf, key, off);
      Placed(buf, value, off + |token|);
      EntriesPlaced(buf, rest, next);
      AreEntriesCons(buf, off, entry, PlaceEntries(rest, next), next + |EncodeEntries(rest)|);
      assert entries == [entries[0]] + rest;
    }
  }

  /** Parsing at the start of an encoding, whatever stands before and after it, gives the tree back
      and stops right after it. */
  lemma RoundTrip(before: string, t: Tree, after: string, parent: ElementId)
    requires |before + Encode(t) + after| < TWO_64
    ensures var buf := before + Encode(t) + after;
            && ParseElementF(buf, |before|, parent) == Ok(Place(t, |before|), |before| + |Encode(t)|)
            && Value(buf, Place(t, |before|)) == t
  {
    var buf := before + Encode(t) + after;
    assert At(buf, |before|, Encode(t));
    Placed(buf, t, |before|);
    ElementComplete(buf, Place(t, |before|), parent);
  }

  /** No encoding is a proper prefix of another, and different trees have different encodings. */
  lemma PrefixFree(t: Tree, u: Tree)
    requires |Encode(u)| < TWO_64
    requires Encode(t) <= Encode(u)
    ensures t == u
  {
    hide *;
    var after := Encode(u)[|Encode(t)|..];
    assert "" + Encode(t) + after == Encode(u) == "" + Encode(u) + "";
    RoundTrip("", t, after, NoElement);
    RoundTrip("", u, "", NoElement);
  }

  lemma EncodeNotEmpty(t: Tree)
    ensures |Encode(t)| >= 2
  {
    if t.TStr? {
      NatTextValue(|t.s|);
    }
  }

  lemma ParseTopStep(buf: string, cur: nat, e: Element, c: nat)
    requires ParseElementF(buf, cur, NoElement) == Ok(e, c)
    ensures c >= |buf| ==> ParseTopF(buf, cur) == Ok([e], c)
    ensures c < |buf| && ParseTopF(buf, c).Ok?
            ==> ParseTopF(buf, cur) == Ok([e] + ParseTopF(buf, c).value, ParseTopF(buf, c).cur)
  {
    hide ParseElementF;
  }

  /** A concatenation of encodings parses at the top level into exactly those trees. */
  lemma {:induction false} ConcatenationRoundTrip(before: string, ts: seq<Tree>)
    requires |ts| > 0 && |before + EncodeItems(ts)| < TWO_64
    ensures var buf := before + EncodeItems(ts);
            && ParseTopF(buf, |before|) == Ok(PlaceItems(ts, |before|), |buf|)
            && Values(buf, PlaceItems(ts, |before|)) == ts
    decreases |ts|
  {
    hide *;
    var buf, t, rest := before + EncodeItems(ts), ts[0], ts[1..];
    UnfoldItems(ts, |before|);
    assert buf == before + Encode(t) + EncodeItems(rest);
    assert At(buf, |before|, EncodeItems(ts)) by {
      AtEnd(before, EncodeItems(ts));
    }
    ItemsPlaced(buf, ts, |before|);
    RoundTrip(before, t, EncodeItems(rest), NoElement);
    ParseTopStep(buf, |before|, Place(t, |before|), |before| + |Encode(t)|);
    if rest == [] {
      NothingPlaced(buf, |before| + |Encode(t)|);
      EmptyPlace(|before| + |Encode(t)|);
      assert [Place(t, |before|)] + [] == [Place(t, |before|)];
    } else {
      UnfoldItems(rest, 0);
      EncodeNotEmpty(rest[0]);
      assert before + Encode(t) + EncodeItems(rest) == (before + Encode(t)) + EncodeItems(rest);
      ConcatenationRoundTrip(before + Encode(t), rest);
    }
  }

  lemma AtEnd(before: string, s: string)
    ensures At(before + s, |before|, s)
  {
  }

  lemma EmptyPlace(off: nat)
    ensures PlaceItems([], off) == []
  {
  }

  // ---- Canonical re-printing ----

  /** No string length inside the element is written with leading zeros. */
  ghost predicate MinimalLengths(buf: string, e: Element) {
    match e
    case EInt(_, _) => true
    case EStr(text, pos) => MinimalToken(buf, pos.start, text)
    case EList(items, _) => MinimalItems(buf, items)
    case EDict(entries, pos) => MinimalEntries(buf, entries, pos.start + 1)
  }

  ghost predicate MinimalItems(buf: string, items: seq<Element>) {
    forall i | 0 <= i < |items| :: MinimalLengths(buf, items[i])
  }

  ghost predicate MinimalEntries(buf: string, entries: seq<Entry>, a: nat) {
    entries == [] ||
    (assert entries[0].value < entries[0];
     && MinimalToken(buf, a, entries[0].key)
     && MinimalLengths(buf, entries[0].value)
     && MinimalEntries(buf, entries[1..], entries[0].value.pos.end))
  }

  ghost predicate MinimalToken(buf: string, start: nat, text: View) {
    start < text.off <= |buf| && NoLeadingZero(buf[start..text.off - 1])
  }

  /** What re-printing says of a span [a, b) and the text s printed for it. */
  ghost predicate Reprinted(buf: string, a: nat, b: nat, s: string, minimal: bool) {
    && a + |s| <= b
    && (a + |s| == b <==> minimal)
    && (minimal ==> At(buf, a, s))
  }

  lemma ReprintedConcat(buf: string, a: nat, b: nat, c: nat, s: string, t: string, p: bool, q: bool)
    requires Reprinted(buf, a, b, s, p) && Reprinted(buf, b, c, t, q)
    ensures Reprinted(buf, a, c, s + t, p && q)
  {
    hide At;
    AtConcat(buf, a, s, t);
  }

  lemma TokenReprints(buf: string, start: nat, v: View)
    requires IsStringToken(buf, start, v)
    ensures Reprinted(buf, start, v.off + v.len, StringToken(Text(buf, v)), MinimalToken(buf, start, v))
  {
    var digits := buf[start..v.off - 1];
    ValueText(digits);
    if MinimalToken(buf, start, v) {
      TokenAt(buf, start, v);
    }
  }

  lemma TokenAt(buf: string, start: nat, v: View)
    requires start + 1 < v.off && v.off + v.len <= |buf| && buf[v.off - 1] == ':'
    ensures At(buf, start, buf[start..v.off - 1] + ":" + Text(buf, v))
  {
    AtConcat3(buf, start, buf[start..v.off - 1], ":", Text(buf, v));
  }

  lemma IntReprints(buf: string, e: Element)
    requires e.EInt? && IsElement(buf, e)
    ensures Reprinted(buf, e.pos.start, e.pos.end, Encode(Value(buf, e)), true)
  {
    hide CanonicalInteger, IntValue, IntText;
    var text := Text(buf, e.text);
    CanonicalIntText(text);
    BracketsAt(buf, e.pos.start, 'i', text);
  }

  lemma BracketsReprint(buf: string, e: Element, open: char, body: string, minimal: bool)
    requires e.pos.start + 2 <= e.pos.end <= |buf|
    requires buf[e.pos.start] == open && buf[e.pos.end - 1] == 'e'
    requires Reprinted(buf, e.pos.start + 1, e.pos.end - 1, body, minimal)
    ensures Reprinted(buf, e.pos.start, e.pos.end, [open] + body + "e", minimal)
  {
    hide At;
    BracketsAt(buf, e.pos.start, open, body);
  }

  lemma ListReprints(buf: string, e: Element)
    requires e.EList? && IsElement(buf, e)
    requires Reprinted(buf, e.pos.start + 1, e.pos.end - 1, EncodeItems(Values(buf, e.items)),
                       MinimalItems(buf, e.items))
    ensures Reprinted(buf, e.pos.start, e.pos.end, Encode(Value(buf, e)), MinimalLengths(buf, e))
  {
    hide Reprinted, AreItems, Values, EncodeItems;
    BracketsReprint(buf, e, 'l', EncodeItems(Values(buf, e.items)), MinimalItems(buf, e.items));
  }

  lemma DictReprints(buf: string, e: Element)
    requires e.EDict? && IsElement(buf, e)
    requires Reprinted(buf, e.pos.start + 1, e.pos.end - 1, EncodeEntries(EntryValues(buf, e.entries)),
                       MinimalEntries(buf, e.entries, e.pos.start + 1))
    ensures Reprinted(buf, e.pos.start, e.pos.end, Encode(Value(buf, e)), MinimalLengths(buf, e))
  {
    hide Reprinted, AreEntries, EntryValues, EncodeEntries, MinimalEntries;
    BracketsReprint(buf, e, 'd', EncodeEntries(EntryValues(buf, e.entries)),
                    MinimalEntries(buf, e.entries, e.pos.start + 1));
  }

  lemma ContainerParts(buf: string, e: Element)
    requires IsElement(buf, e)
    ensures e.pos.start + 2 <= e.pos.end <= |buf|
    ensures e.EStr? ==> IsStringToken(buf, e.pos.start, e.text) && e.pos.end == e.text.off + e.text.len
    ensures e.EList? ==> AreItems(buf, e.items, e.pos.start + 1, e.pos.end - 1)
    ensures e.EDict? ==> AreEntries(buf, e.entries, e.pos.start + 1, e.pos.end - 1)
  {
  }

  lemma {:induction false} Reprints(buf: string, e: Element)
    requires IsElement(buf, e)
    ensures Reprinted(buf, e.pos.start, e.pos.end, Encode(Value(buf, e)), MinimalLengths(buf, e))
    decreases e
  {
    hide *;
    ContainerParts(buf, e);
    match e
    case EInt(_, _) =>
      IntReprints(buf, e);
      IntMinimal(buf, e);
    case EStr(text, pos) => StrReprints(buf, e);
    case EList(items, pos) =>
      ItemsReprint(buf, items, pos.start + 1, pos.end - 1);
      ListReprints(buf, e);
    case EDict(entries, pos) =>
      EntriesReprint(buf, entries, pos.start + 1, pos.end - 1);
      DictReprints(buf, e);
  }

  lemma IntMinimal(buf: string, e: Element)
    requires e.EInt?
    ensures MinimalLengths(buf, e)
  {
  }

  lemma StrReprints(buf: string, e: Element)
    requires e.EStr? && IsStringToken(buf, e.pos.start, e.text) && e.pos.end == e.text.off + e.text.len
    ensures Reprinted(buf, e.pos.start, e.pos.end, Encode(Value(buf, e)), MinimalLengths(buf, e))
  {
    hide IsStringToken, MinimalToken, StringToken, Text, At;
    TokenReprints(buf, e.pos.start, e.text);
  }

  lemma NothingReprinted(buf: string, a: nat, b: nat)
    requires b <= |buf|
    ensures AreItems(buf, [], a, b) ==> Reprinted(buf, a, b, EncodeItems(Values(buf, [])), MinimalItems(buf, []))
    ensures AreEntries(buf, [], a, b)
            ==> Reprinted(buf, a, b, EncodeEntries(EntryValues(buf, [])), MinimalEntries(buf, [], a))
  {
  }

  lemma UnfoldItemValues(buf: string, items: seq<Element>, a: nat, b: nat)
    requires items != [] && AreItems(buf, items, a, b)
    ensures items[0].pos.start == a && IsElement(buf, items[0])
    ensures AreItems(buf, items[1..], items[0].pos.end, b)
    ensures EncodeItems(Values(buf, items)) == Encode(Value(buf, items[0])) + EncodeItems(Values(buf, items[1..]))
    ensures MinimalItems(buf, items) <==> MinimalLengths(buf, items[0]) && MinimalItems(buf, items[1..])
  {
    hide IsElement, Encode, Value, MinimalLengths;
    assert Values(buf, items)[1..] == Values(buf, items[1..]);
    assert forall i | 0 < i < |items| :: items[i] == items[1..][i - 1];
    assert forall i | 0 <= i < |items| - 1 :: items[1..][i] == items[i + 1];
  }

  lemma UnfoldEntryValues(buf: string, entries: seq<Entry>, a: nat, b: nat)
    requires entries != [] && AreEntries(buf, entries, a, b)
    ensures entries[0].value < entries[0]
    ensures IsStringToken(buf, a, entries[0].key) && IsElement(buf, entries[0].value)
    ensures entries[0].value.pos.start == entries[0].key.off + entries[0].key.len
    ensures AreEntries(buf, entries[1..], entries[0].value.pos.end, b)
    ensures EncodeEntries(EntryValues(buf, entries))
            == StringToken(Text(buf, entries[0].key)) + Encode(Value(buf, entries[0].value))
               + EncodeEntries(EntryValues(buf, entries[1..]))
    ensures MinimalEntries(buf, entries, a)
            <==> && MinimalToken(buf, a, entries[0].key)
                 && MinimalLengths(buf, entries[0].value)
                 && MinimalEntries(buf, entries[1..], entries[0].value.pos.end)
  {
    hide IsElement, IsStringToken, Encode, StringToken, Text, Value, MinimalLengths, MinimalToken;
    assert EntryValues(buf, entries)[1..] == EntryValues(buf, entries[1..]);
  }

  lemma {:induction false} ItemsReprint(buf: string, items: seq<Element>, a: nat, b: nat)
    requires AreItems(buf, items, a, b) && b <= |buf|
    ensures Reprinted(buf, a, b, EncodeItems(Values(buf, items)), MinimalItems(buf, items))
    decreases items
  {
    hide *;
    if items == [] {
      NothingReprinted(buf, a, b);
    } else {
      var item, rest := items[0], items[1..];
      UnfoldItemValues(buf, items, a, b);
      Reprints(buf, item);
      ItemsReprint(buf, rest, item.pos.end, b);
      ReprintedConcat(buf, a, item.pos.end, b, Encode(Value(buf, item)), EncodeItems(Values(buf, rest)),
                      MinimalLengths(buf, item), MinimalItems(buf, rest));
    }
  }

  lemma {:induction false} EntriesReprint(buf: string, entries: seq<Entry>, a: nat, b: nat)
    requires AreEntries(buf, entries, a, b) && b <= |buf|
    ensures Reprinted(buf, a, b, EncodeEntries(EntryValues(buf, entries)), MinimalEntries(buf, entries, a))
    decreases entries
  {
    hide *;
    if entries == [] {
      NothingReprinted(buf, a, b);
    } else {
      var Entry(key, value) := entries[0];
      var rest := entries[1..];
      UnfoldEntryValues(buf, entries, a, b);
      TokenReprints(buf, a, key);
      Reprints(buf, value);
      EntriesReprint(buf, rest, value.pos.end, b);
      ReprintedConcat(buf, a, value.pos.start, value.pos.end, StringToken(Text(buf, key)), Encode(Value(buf, value)),
                      MinimalToken(buf, a, key), MinimalLengths(buf, value));
      ReprintedConcat(buf, a, value.pos.end, b, StringToken(Text(buf, key)) + Encode(Value(buf, value)),
                      EncodeEntries(EntryValues(buf, rest)),
                      MinimalToken(buf, a, key) && MinimalLengths(buf, value),
                      MinimalEntries(buf, rest, value.pos.end));
    }
  }

  /** Printing what was parsed gives back the consumed characters exactly when no length has leading zeros. */
  lemma ReprintIff(buf: string, cur: nat, parent: ElementId)
    requires ParseElementF(buf, cur, parent).Ok? && ParseElementF(buf, cur, parent).cur <= |buf|
    ensures var Ok(e, c) := ParseElementF(buf, cur, parent);
            Encode(Value(buf, e)) == buf[cur..c] <==> MinimalLengths(buf, e)
  {
    ElementSound(buf, cur, parent);
    Reprints(buf, ParseElementF(buf, cur, parent).value);
  }

  // ---- Locality ----

  /** e is e' with every position moved d to the right. */
  ghost predicate IsShift(e': Element, e: Element, d: nat) {
    && e.pos == Pos(e'.pos.start + d, e'.pos.end + d)
    && match e
       case EInt(text, _) => e'.EInt? && text == View(e'.text.off + d, e'.text.len)
       case EStr(text, _) => e'.EStr? && text == View(e'.text.off + d, e'.text.len)
       case EList(items, _) =>
         && e'.EList? && |e'.items| == |items|
         && forall i | 0 <= i < |items| :: IsShift(e'.items[i], items[i], d)
       case EDict(entries, _) =>
         && e'.EDict? && |e'.entries| == |entries|
         && forall i | 0 <= i < |entries| ::
              && entries[i].key == View(e'.entries[i].key.off + d, e'.entries[i].key.len)
              && IsShift(e'.entries[i].value, entries[i].value, d)
  }

  function Back(x: nat, d: nat): nat {
    if d <= x then x - d else 0
  }

  /** e with every position moved d to the left. */
  function Rebase(e: Element, d: nat): (r: Element)
    ensures r.pos == Pos(Back(e.pos.start, d), Back(e.pos.end, d))
  {
    var pos := Pos(Back(e.pos.start, d), Back(e.pos.end, d));
    match e
    case EInt(text, _) => EInt(View(Back(text.off, d), text.len), pos)
    case EStr(text, _) => EStr(View(Back(text.off, d), text.len), pos)
    case EList(items, _) => EList(RebaseItems(items, d), pos)
    case EDict(entries, _) => EDict(RebaseEntries(entries, d), pos)
  }

  function RebaseItems(items: seq<Element>, d: nat): seq<Element> {
    if items == [] then [] else [Rebase(items[0], d)] + RebaseItems(items[1..], d)
  }

  function RebaseEntries(entries: seq<Entry>, d: nat): seq<Entry> {
    if entries == [] then [] else
    var Entry(key, value) := entries[0];
    assert value < entries[0];
    [Entry(View(Back(key.off, d), key.len), Rebase(value, d))] + RebaseEntries(entries[1..], d)
  }

  lemma TokenRebased(buf: string, start: nat, v: View, a: nat, b: nat)
    requires IsStringToken(buf, start, v)
    requires a <= start && v.off + v.len <= b <= |buf|
    ensures IsStringToken(buf[a..b], start - a, View(v.off - a, v.len))
    ensures Text(buf[a..b], View(v.off - a, v.len)) == Text(buf, v)
  {
    hide Digits, DecimalValue;
    SubSlice(buf, a, b, start - a, v.off - 1 - a);
    SubSlice(buf, a, b, v.off - a, v.off + v.len - a);
    assert buf[a..b][v.off - 1 - a] == buf[v.off - 1];
  }

  /** What moving an element of buf into the slice buf[a..b] keeps. */
  ghost predicate Moved(buf: string, e: Element, a: nat, b: nat)
    requires a <= b <= |buf|
  {
    && IsElement(buf[a..b], Rebase(e, a))
    && IsShift(Rebase(e, a), e, a)
    && Value(buf[a..b], Rebase(e, a)) == Value(buf, e)
  }

  lemma IntMoved(buf: string, e: Element, a: nat, b: nat)
    requires e.EInt? && IsElement(buf, e) && a <= e.pos.start && e.pos.end <= b <= |buf|
    ensures Moved(buf, e, a, b)
  {
    hide CanonicalInteger, IntValue;
    assert buf[a..b][e.pos.start - a] == buf[e.pos.start] && buf[a..b][e.pos.end - a - 1] == buf[e.pos.end - 1];
    SubSlice(buf, a, b, e.text.off - a, e.text.off + e.text.len - a);
  }

  lemma StrMoved(buf: string, e: Element, a: nat, b: nat)
    requires e.EStr? && IsElement(buf, e) && a <= e.pos.start && e.pos.end <= b <= |buf|
    ensures Moved(buf, e, a, b)
  {
    TokenRebased(buf, e.pos.start, e.text, a, b);
    TokenOrder(buf, e.pos.start, e.text);
    hide IsStringToken, Text;
  }

  lemma TokenOrder(buf: string, start: nat, v: View)
    requires IsStringToken(buf, start, v)
    ensures start + 1 < v.off && v.off + v.len <= |buf|
  {
  }

  lemma ContainerMoved(buf: string, e: Element, a: nat, b: nat)
    requires (e.EList? || e.EDict?) && IsElement(buf, e) && a <= e.pos.start && e.pos.end <= b <= |buf|
    requires e.EList? ==> ItemsMoved(buf, e.items, e.pos.start + 1, e.pos.end - 1, a, b)
    requires e.EDict? ==> EntriesMoved(buf, e.entries, e.pos.start + 1, e.pos.end - 1, a, b)
    ensures Moved(buf, e, a, b)
  {
    hide AreItems, AreEntries, Values, EntryValues, RebaseItems, RebaseEntries;
    assert buf[a..b][e.pos.start - a] == buf[e.pos.start] && buf[a..b][e.pos.end - a - 1] == buf[e.pos.end - 1];
  }

  lemma {:induction false} Rebased(buf: string, e: Element, a: nat, b: nat)
    requires IsElement(buf, e) && a <= e.pos.start && e.pos.end <= b <= |buf|
    ensures Moved(buf, e, a, b)
    decreases e
  {
    hide *;
    ContainerParts(buf, e);
    match e
    case EInt(_, _) => IntMoved(buf, e, a, b);
    case EStr(_, _) => StrMoved(buf, e, a, b);
    case EList(items, pos) =>
      ItemsRebased(buf, items, pos.start + 1, pos.end - 1, a, b);
      ContainerMoved(buf, e, a, b);
    case EDict(entries, pos) =>
      EntriesRebased(buf, entries, pos.start + 1, pos.end - 1, a, b);
      ContainerMoved(buf, e, a, b);
  }

  ghost predicate ItemsMoved(buf: string, items: seq<Element>, x: nat, y: nat, a: nat, b: nat)
    requires a <= x <= y <= b <= |buf|
  {
    && AreItems(buf[a..b], RebaseItems(items, a), x - a, y - a)
    && |RebaseItems(items, a)| == |items|
    && (forall i | 0 <= i < |items| :: IsShift(RebaseItems(items, a)[i], items[i], a))
    && Values(buf[a..b], RebaseItems(items, a)) == Values(buf, items)
  }

  ghost predicate EntriesMoved(buf: string, entries: seq<Entry>, x: nat, y: nat, a: nat, b: nat)
    requires a <= x <= y <= b <= |buf|
  {
    && AreEntries(buf[a..b], RebaseEntries(entries, a), x - a, y - a)
    && |RebaseEntries(entries, a)| == |entries|
    && (forall i | 0 <= i < |entries| ::
          && entries[i].key == View(RebaseEntries(entries, a)[i].key.off + a, RebaseEntries(entries, a)[i].key.len)
          && IsShift(RebaseEntries(entries, a)[i].value, entries[i].value, a))
    && EntryValues(buf[a..b], RebaseEntries(entries, a)) == EntryValues(buf, entries)
  }

  lemma ItemsMovedCons(buf: string, items: seq<Element>, y: nat, a: nat, b: nat)
    requires items != [] && a <= items[0].pos.start <= items[0].pos.end <= y <= b <= |buf|
    requires Moved(buf, items[0], a, b)
    requires ItemsMoved(buf, items[1..], items[0].pos.end, y, a, b)
    ensures ItemsMoved(buf, items, items[0].pos.start, y, a, b)
  {
    hide IsElement, IsShift, Value, Rebase;
    var e, rest := items[0], items[1..];
    assert RebaseItems(items, a) == [Rebase(e, a)] + RebaseItems(rest, a);
    AreItemsCons(buf[a..b], Rebase(e, a), RebaseItems(rest, a), y - a);
    assert Values(buf, items) == [Value(buf, e)] + Values(buf, rest);
    assert forall i | 0 < i < |items| :: items[i] == rest[i - 1];
  }

  lemma EntriesMovedCons(buf: string, x: nat, entries: seq<Entry>, y: nat, a: nat, b: nat)
    requires entries != []
    requires a <= x < entries[0].key.off
    requires entries[0].value.pos.start == entries[0].key.off + entries[0].key.len
    requires entries[0].value.pos.start <= entries[0].value.pos.end <= y <= b <= |buf|
    requires IsStringToken(buf[a..b], x - a, View(entries[0].key.off - a, entries[0].key.len))
    requires Text(buf[a..b], View(entries[0].key.off - a, entries[0].key.len)) == Text(buf, entries[0].key)
    requires Moved(buf, entries[0].value, a, b)
    requires EntriesMoved(buf, entries[1..], entries[0].value.pos.end, y, a, b)
    ensures EntriesMoved(buf, entries, x, y, a, b)
  {
    hide IsElement, IsStringToken, IsShift, Value, Rebase, Text;
    var Entry(key, value) := entries[0];
    var rest := entries[1..];
    var entry := Entry(View(key.off - a, key.len), Rebase(value, a));
    assert RebaseEntries(entries, a) == [entry] + RebaseEntries(rest, a);
    AreEntriesCons(buf[a..b], x - a, entry, RebaseEntries(rest, a), y - a);
    assert EntryValues(buf, entries) == [TreeEntry(Text(buf, key), Value(buf, value))] + EntryValues(buf, rest);
    assert forall i | 0 < i < |entries| :: entries[i] == rest[i - 1];
  }

  lemma NothingMoved(buf: string, x: nat, y: nat, a: nat, b: nat)
    requires a <= x <= y <= b <= |buf|
    ensures x == y ==> ItemsMoved(buf, [], x, y, a, b) && EntriesMoved(buf, [], x, y, a, b)
  {
  }

  lemma UnfoldNothing(buf: string, x: nat, y: nat)
    ensures AreItems(buf, [], x, y) <==> x == y
    ensures AreEntries(buf, [], x, y) <==> x == y
  {
  }

  lemma {:induction false} ItemsRebased(buf: string, items: seq<Element>, x: nat, y: nat, a: nat, b: nat)
    requires AreItems(buf, items, x, y) && a <= x <= y <= b <= |buf|
    ensures ItemsMoved(buf, items, x, y, a, b)
    decreases items
  {
    hide *;
    if items == [] {
      UnfoldNothing(buf, x, y);
      NothingMoved(buf, x, y, a, b);
    } else {
      UnfoldItemValues(buf, items, x, y);
      ContainerParts(buf, items[0]);
      ItemSpans(buf, items[1..], items[0].pos.end, y);
      Rebased(buf, items[0], a, b);
      ItemsRebased(buf, items[1..], items[0].pos.end, y, a, b);
      ItemsMovedCons(buf, items, y, a, b);
    }
  }

  lemma {:induction false} EntriesRebased(buf: string, entries: seq<Entry>, x: nat, y: nat, a: nat, b: nat)
    requires AreEntries(buf, entries, x, y) && a <= x <= y <= b <= |buf|
    ensures EntriesMoved(buf, entries, x, y, a, b)
    decreases entries
  {
    hide *;
    if entries == [] {
      UnfoldNothing(buf, x, y);
      NothingMoved(buf, x, y, a, b);
    } else {
      var Entry(key, value) := entries[0];
      UnfoldEntryValues(buf, entries, x, y);
      ContainerParts(buf, value);
      EntrySpans(buf, entries[1..], value.pos.end, y);
      TokenOrder(buf, x, key);
      TokenRebased(buf, x, key, a, b);
      Rebased(buf, value, a, b);
      EntriesRebased(buf, entries[1..], value.pos.end, y, a, b);
      EntriesMovedCons(buf, x, entries, y, a, b);
    }
  }

  /** Any node of a parsed container, parsed again from its own span alone, is the same node with its
      positions counted from the start of the span, and the whole span is consumed. */
  lemma SpanLocality(buf: string, cur: nat, parent: ElementId, x: Element, parent': ElementId)
    requires ParseElementF(buf, cur, parent).Ok? && IsContainer(ParseElementF(buf, cur, parent).value)
    requires Within(x, ParseElementF(buf, cur, parent).value)
    ensures x.pos.start < x.pos.end <= |buf|
    ensures var slice := buf[x.pos.start..x.pos.end];
            && ParseElementF(slice, 0, parent') == Ok(Rebase(x, x.pos.start), |slice|)
            && IsShift(Rebase(x, x.pos.start), x, x.pos.start)
            && Value(slice, Rebase(x, x.pos.start)) == Value(buf, x)
  {
    var e := ParseElementF(buf, cur, parent).value;
    ElementSound(buf, cur, parent);
    NodesAreNested(buf, x, e);
    Rebased(buf, x, x.pos.start, x.pos.end);
    ElementComplete(buf[x.pos.start..x.pos.end], Rebase(x, x.pos.start), parent');
  }

  // ---- Size ----

  /** Tokens parsed: elements and dictionary keys. */
  function NodeCount(e: Element): nat {
    match e
    case EInt(_, _) => 1
    case EStr(_, _) => 1
    case EList(items, _) => 1 + ItemCount(items)
    case EDict(entries, _) => 1 + EntryCount(entries)
  }

  function ItemCount(items: seq<Element>): nat {
    if items == [] then 0 else NodeCount(items[0]) + ItemCount(items[1..])
  }

  function EntryCount(entries: seq<Entry>): nat {
    if entries == [] then 0 else
    assert entries[0].value < entries[0];
    1 + NodeCount(entries[0].value) + EntryCount(entries[1..])
  }

  function Depth(e: Element): nat {
    match e
    case EInt(_, _) => 1
    case EStr(_, _) => 1
    case EList(items, _) => 1 + ItemDepth(items)
    case EDict(entries, _) => 1 + EntryDepth(entries)
  }

  function ItemDepth(items: seq<Element>): nat {
    if items == [] then 0 else Max(Depth(items[0]), ItemDepth(items[1..]))
  }

  function EntryDepth(entries: seq<Entry>): nat {
    if entries == [] then 0 else
    assert entries[0].value < entries[0];
    Max(Depth(entries[0].value), EntryDepth(entries[1..]))
  }

  lemma {:induction false} SizeBound(buf: string, e: Element)
    requires IsElement(buf, e)
    ensures 2 * NodeCount(e) <= e.pos.end - e.pos.start
    ensures 2 * Depth(e) <= e.pos.end - e.pos.start
    decreases e
  {
    if e.EList? {
      ItemsSizeBound(buf, e.items, e.pos.start + 1, e.pos.end - 1);
    } else if e.EDict? {
      EntriesSizeBound(buf, e.entries, e.pos.start + 1, e.pos.end - 1);
    }
  }

  lemma {:induction false} ItemsSizeBound(buf: string, items: seq<Element>, a: nat, b: nat)
    requires AreItems(buf, items, a, b)
    ensures 2 * ItemCount(items) <= b - a
    ensures 2 * ItemDepth(items) <= b - a
    decreases items
  {
    if items != [] {
      SizeBound(buf, items[0]);
      ItemsSizeBound(buf, items[1..], items[0].pos.end, b);
    }
  }

  lemma {:induction false} EntriesSizeBound(buf: string, entries: seq<Entry>, a: nat, b: nat)
    requires AreEntries(buf, entries, a, b)
    ensures 2 * EntryCount(entries) <= b - a
    ensures 2 * EntryDepth(entries) <= b - a
    decreases entries
  {
    if entries != [] {
      assert entries[0].value < entries[0];
      SizeBound(buf, entries[0].value);
      EntriesSizeBound(buf, entries[1..], entries[0].value.pos.end, b);
    }
  }

  /** A parsed container holds at most half as many nodes, and levels, as characters consumed. */
  lemma ContainerSizeBound(buf: string, cur: nat, parent: ElementId)
    requires ParseElementF(buf, cur, parent).Ok? && IsContainer(ParseElementF(buf, cur, parent).value)
    ensures var Ok(e, c) := ParseElementF(buf, cur, parent);
            && 2 * NodeCount(e) <= c - cur <= |buf| - cur
            && 2 * Depth(e) <= c - cur
  {
    ElementSound(buf, cur, parent);
    SizeBound(buf, ParseElementF(buf, cur, parent).value);
  }
}
