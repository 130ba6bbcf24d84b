/**
 The grammar of the accepted language, stated over element trees with their spans and
 without reference to the parser, and the theorem that the parser accepts exactly it.
 */
module BencodeGrammar {
  import opened Machine
  import opened Bencode

  /** A string token from start to the end of its text: decimal length, ':', text. */
  ghost predicate IsStringToken(buf: string, start: nat, text: View) {
    && start + 1 < text.off
    && text.off + text.len <= |buf|
    && buf[text.off - 1] == ':'
    && Digits(buf[start..text.off - 1])
    && DecimalValue(buf[start..text.off - 1]) == text.len
    && text.len < TWO_64
  }

  /** The characters of the element's span are the bencoding of the element. */
  ghost predicate IsElement(buf: string, e: Element) {
    && e.pos.start + 2 <= e.pos.end <= |buf|
    && match e
       case EInt(text, pos) =>
         && text.off == pos.start + 1
         && text.off + text.len + 1 == pos.end
         && buf[pos.start] == 'i'
         && buf[pos.end - 1] == 'e'
         && CanonicalInteger(buf[text.off..text.off + text.len])
       case EStr(text, pos) =>
         && IsStringToken(buf, pos.start, text)
         && pos.end == text.off + text.len
       case EList(items, pos) =>
         && buf[pos.start] == 'l'
         && buf[pos.end - 1] == 'e'
         && AreItems(buf, items, pos.start + 1, pos.end - 1)
       case EDict(entries, pos) =>
         && buf[pos.start] == 'd'
         && buf[pos.end - 1] == 'e'
         && AreEntries(buf, entries, pos.start + 1, pos.end - 1)
  }

  /** The items tile [a, b) from left to right. */
  ghost predicate AreItems(buf: string, items: seq<Element>, a: nat, b: nat) {
    if items == [] then a == b else
    && items[0].pos.start == a
    && IsElement(buf, items[0])
    && AreItems(buf, items[1..], items[0].pos.end, b)
  }

  /** Keys and values tile [a, b) from left to right. */
  ghost predicate AreEntries(buf: string, entries: seq<Entry>, a: nat, b: nat) {
    if entries == [] then a == b else
    assert entries[0].value < entries[0];
    && IsStringToken(buf, a, entries[0].key)
    && entries[0].value.pos.start == entries[0].key.off + entries[0].key.len
    && IsElement(buf, entries[0].value)
    && AreEntries(buf, entries[1..], entries[0].value.pos.end, b)
  }

  ghost predicate IsContainer(e: Element) {
    e.EList? || e.EDict?
  }

  // ---- Soundness ----

  /** A parse that leaves the cursor inside the buffer consumed a sentence of the grammar. */
  lemma {:induction false} ElementSound(buf: string, cur: nat, parent: ElementId)
    requires ParseElementF(buf, cur, parent).Ok?
    requires ParseElementF(buf, cur, parent).cur <= |buf|
    ensures IsElement(buf, ParseElementF(buf, cur, parent).value)
    decreases Left(buf, cur), 1
  {
    match buf[cur]
    case 'i' =>
    case 'l' => ItemsSound(buf, cur + 1);
    case 'd' => EntriesSound(buf, cur + 1);
    case _ =>
  }

  lemma {:induction false} ItemsSound(buf: string, cur: nat)
    requires ParseItemsF(buf, cur).Ok?
    requires ParseItemsF(buf, cur).cur <= |buf|
    ensures AreItems(buf, ParseItemsF(buf, cur).value, cur, ParseItemsF(buf, cur).cur)
    decreases Left(buf, cur), 2
  {
    if cur < |buf| && buf[cur] != 'e' {
      ElementSound(buf, cur, List);
      ItemsSound(buf, ParseElementF(buf, cur, List).cur);
    }
  }

  lemma {:induction false} EntriesSound(buf: string, cur: nat)
    requires ParseEntriesF(buf, cur).Ok?
    requires ParseEntriesF(buf, cur).cur <= |buf|
    ensures AreEntries(buf, ParseEntriesF(buf, cur).value, cur, ParseEntriesF(buf, cur).cur)
    decreases Left(buf, cur), 2
  {
    if cur < |buf| && buf[cur] != 'e' {
      var entry := ParseEntryF(buf, cur);
      var key := ParseElementF(buf, cur, Dictionary);
      ElementSound(buf, cur, Dictionary);
      ElementSound(buf, key.cur, Dictionary);
      EntriesSound(buf, entry.cur);
    }
  }

  // ---- Completeness ----

  lemma SkipDigitsStopsAt(buf: string, cur: nat, last: nat)
    requires cur <= last < |buf|
    requires Digits(buf[cur..last])
    requires !IsDigit(buf[last])
    ensures SkipDigits(buf, cur) == last
  {
    forall j | cur <= j < last
      ensures IsDigit(buf[j])
    {
      assert buf[cur..last][j - cur] == buf[j];
    }
    hide IsDigit, Digits;
  }

  lemma StringTokenParses(buf: string, start: nat, text: View)
    requires IsStringToken(buf, start, text)
    ensures ParseStringF(buf, start)
            == Ok(EStr(text, Pos(start, text.off + text.len)), text.off + text.len)
    ensures IsDigit(buf[start])
  {
    SkipDigitsStopsAt(buf, start, text.off - 1);
    assert buf[start] == buf[start..text.off - 1][0];
  }

  lemma IntegerParses(buf: string, e: Element)
    requires e.EInt? && IsElement(buf, e)
    ensures ParseIntegerF(buf, e.pos.start) == Ok(e, e.pos.end)
  {
    var begin := e.text.off;
    var last := e.text.off + e.text.len;
    var text := buf[begin..last];
    assert text[0] == buf[begin];
    if text[0] == '-' {
      assert text[1..] == buf[begin + 1..last];
      SkipDigitsStopsAt(buf, begin + 1, last);
    } else {
      SkipDigitsStopsAt(buf, begin, last);
    }
  }

  /** Every sentence of the grammar is parsed, with its tree, by consuming exactly its span. */
  lemma {:induction false} ElementComplete(buf: string, e: Element, parent: ElementId)
    requires IsElement(buf, e)
    ensures ParseElementF(buf, e.pos.start, parent) == Ok(e, e.pos.end)
    ensures buf[e.pos.start] != 'e'
    decreases e
  {
    if e.EInt? {
      IntegerParses(buf, e);
    } else if e.EStr? {
      StringTokenParses(buf, e.pos.start, e.text);
    } else if e.EList? {
      ItemsComplete(buf, e.items, e.pos.start + 1, e.pos.end - 1);
    } else {
      EntriesComplete(buf, e.entries, e.pos.start + 1, e.pos.end - 1);
    }
  }

  lemma {:induction false} ItemsComplete(buf: string, items: seq<Element>, a: nat, b: nat)
    requires AreItems(buf, items, a, b)
    requires b < |buf| && buf[b] == 'e'
    ensures ParseItemsF(buf, a) == Ok(items, b)
    decreases items
  {
    if items != [] {
      ElementComplete(buf, items[0], List);
      ItemsComplete(buf, items[1..], items[0].pos.end, b);
      assert items == [items[0]] + items[1..];
    }
  }

  lemma {:induction false} EntriesComplete(buf: string, entries: seq<Entry>, a: nat, b: nat)
    requires AreEntries(buf, entries, a, b)
    requires b < |buf| && buf[b] == 'e'
    ensures ParseEntriesF(buf, a) == Ok(entries, b)
    decreases entries
  {
    if entries != [] {
      var Entry(key, value) := entries[0];
      assert value < entries[0];
      StringTokenParses(buf, a, key);
      ElementComplete(buf, value, Dictionary);
      assert ParseEntryF(buf, a) == Ok(entries[0], value.pos.end);
      EntriesComplete(buf, entries[1..], value.pos.end, b);
      assert entries == [entries[0]] + entries[1..];
    }
  }

  // ---- The parser accepts exactly the grammar ----

  /** Any element, as long as the cursor stays in the buffer. */
  lemma ParsesExactlyTheGrammar(buf: string, cur: nat, parent: ElementId, e: Element, c: nat)
    ensures ParseElementF(buf, cur, parent) == Ok(e, c) && c <= |buf|
            <==> IsElement(buf, e) && e.pos == Pos(cur, c)
  {
    if ParseElementF(buf, cur, parent) == Ok(e, c) && c <= |buf| {
      ElementSound(buf, cur, parent);
    }
    if IsElement(buf, e) && e.pos == Pos(cur, c) {
      ElementComplete(buf, e, parent);
    }
  }

  /** Containers, unconditionally: an overrun string makes every enclosing container fail. */
  lemma ContainerParsesExactlyTheGrammar(buf: string, cur: nat, e: Element, c: nat)
    requires cur <= |buf|
    ensures ParseListF(buf, cur) == Ok(e, c) <==> e.EList? && IsElement(buf, e) && e.pos == Pos(cur, c)
    ensures ParseDictionaryF(buf, cur) == Ok(e, c) <==> e.EDict? && IsElement(buf, e) && e.pos == Pos(cur, c)
  {
    if cur < |buf| && (buf[cur] == 'l' || buf[cur] == 'd') {
      ParsesExactlyTheGrammar(buf, cur, NoElement, e, c);
    }
  }

  lemma {:induction false} TopLevelSound(buf: string, cur: nat)
    requires ParseTopF(buf, cur).Ok? && ParseTopF(buf, cur).cur <= |buf|
    ensures AreItems(buf, ParseTopF(buf, cur).value, cur, |buf|) && ParseTopF(buf, cur).cur == |buf|
    decreases |buf| - cur
  {
    ElementSound(buf, cur, NoElement);
    var Ok(e, c) := ParseElementF(buf, cur, NoElement);
    if c < |buf| {
      TopLevelSound(buf, c);
    }
  }

  lemma {:induction false} TopLevelComplete(buf: string, cur: nat, items: seq<Element>)
    requires items != [] && AreItems(buf, items, cur, |buf|)
    ensures ParseTopF(buf, cur) == Ok(items, |buf|)
    decreases items
  {
    var e, rest := items[0], items[1..];
    ElementComplete(buf, e, NoElement);
    ItemSpans(buf, items, cur, |buf|);
    if rest == [] {
      assert items == [e];
    } else {
      assert items == [e] + rest;
      assert items[1].pos.start == e.pos.end;
      TopLevelComplete(buf, e.pos.end, rest);
    }
  }

  /** The top level, as long as the last element stays in the buffer: the elements fill it. */
  lemma TopLevelParsesExactlyTheGrammar(buf: string, items: seq<Element>, c: nat)
    ensures ParseTopF(buf, 0) == Ok(items, c) && c <= |buf|
            <==> items != [] && AreItems(buf, items, 0, |buf|) && c == |buf|
  {
    if ParseTopF(buf, 0) == Ok(items, c) && c <= |buf| {
      TopLevelSound(buf, 0);
    }
    if items != [] && AreItems(buf, items, 0, |buf|) {
      TopLevelComplete(buf, 0, items);
    }
  }

  // ---- Strings outside a container: where the loose bound shows ----

  /** The bound the cursor test was meant to be. */
  ghost predicate StringFits(buf: string, cur: nat)
    requires cur <= |buf|
  {
    var last := SkipDigits(buf, cur);
    cur < last < |buf| && buf[last] == ':' && DecimalValue(buf[cur..last]) <= |buf| - (last + 1)
  }

  /** A string that parses stays inside the buffer exactly when its length is at most what is left. */
  lemma StringInBoundsIff(buf: string, cur: nat)
    requires cur <= |buf|
    requires ParseStringF(buf, cur).Ok?
    ensures ParseStringF(buf, cur).cur <= |buf| <==> StringFits(buf, cur)
    ensures IsElement(buf, ParseStringF(buf, cur).value) <==> StringFits(buf, cur)
  {
  }

  /** "3:ab" is accepted at the top level with a view that ends past the buffer. */
  lemma StringOverrunExample()
    ensures ParseStringF("3:ab", 0) == Ok(EStr(View(2, 3), Pos(0, 5)), 5)
    ensures !StringFits("3:ab", 0)
  {
    SkipDigitsStopsAt("3:ab", 0, 1);
    assert "3:ab"[0..1] == "3";
    assert "3"[..0] == "";
    assert DecimalValue("3") == 3;
  }

  // ---- Spans ----

  /** Neighbouring items share an end point; together they fill the container. */
  lemma {:induction false} ItemSpans(buf: string, items: seq<Element>, a: nat, b: nat)
    requires AreItems(buf, items, a, b)
    ensures a <= b
    ensures forall i | 0 <= i < |items| ::
              && IsElement(buf, items[i])
              && a <= items[i].pos.start < items[i].pos.end <= b
              && items[i].pos.start == (if i == 0 then a else items[i - 1].pos.end)
              && (i == |items| - 1 ==> items[i].pos.end == b)
    ensures forall i, j | 0 <= i < j < |items| :: items[i].pos.end <= items[j].pos.start
    decreases items
  {
    if items != [] {
      var rest := items[1..];
      ItemSpans(buf, rest, items[0].pos.end, b);
      forall i | 0 < i < |items|
        ensures items[i] == rest[i - 1]
      {
      }
    }
  }

  lemma {:induction false} EntrySpans(buf: string, entries: seq<Entry>, a: nat, b: nat)
    requires AreEntries(buf, entries, a, b)
    ensures a <= b
    ensures forall i | 0 <= i < |entries| ::
              && IsElement(buf, entries[i].value)
              && a <= entries[i].key.off
              && entries[i].key.off + entries[i].key.len == entries[i].value.pos.start < entries[i].value.pos.end <= b
              && IsStringToken(buf, if i == 0 then a else entries[i - 1].value.pos.end, entries[i].key)
              && (i == |entries| - 1 ==> entries[i].value.pos.end == b)
    ensures forall i, j | 0 <= i < j < |entries| :: entries[i].value.pos.end <= entries[j].key.off
    decreases entries
  {
    if entries != [] {
      var rest := entries[1..];
      EntrySpans(buf, rest, entries[0].value.pos.end, b);
      forall i | 0 < i < |entries|
        ensures entries[i] == rest[i - 1]
      {
      }
    }
  }

  /** x is e or lies somewhere below it. */
  ghost predicate Within(x: Element, e: Element) {
    || x == e
    || match e
       case EList(items, _) => exists i :: 0 <= i < |items| && Within(x, items[i])
       case EDict(entries, _) => exists i :: 0 <= i < |entries| && Within(x, entries[i].value)
       case _ => false
  }

  /** Every node below a parsed element is itself a sentence, inside the span of the element. */
  lemma {:induction false} NodesAreNested(buf: string, x: Element, e: Element)
    requires IsElement(buf, e) && Within(x, e)
    ensures IsElement(buf, x)
    ensures e.pos.start <= x.pos.start < x.pos.end <= e.pos.end
    ensures x != e ==> e.pos.start < x.pos.start && x.pos.end < e.pos.end
    decreases e
  {
    if x != e {
      match e
      case EList(items, pos) =>
        var i :| 0 <= i < |items| && Within(x, items[i]);
        ItemSpans(buf, items, pos.start + 1, pos.end - 1);
        NodesAreNested(buf, x, items[i]);
      case EDict(entries, pos) =>
        var i :| 0 <= i < |entries| && Within(x, entries[i].value);
        EntrySpans(buf, entries, pos.start + 1, pos.end - 1);
        NodesAreNested(buf, x, entries[i].value);
    }
  }
}
