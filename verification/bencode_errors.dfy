/** Which texts the parser rejects, with which error, at which position. */
module BencodeErrors {
  import opened Machine
  import opened Bencode
  import opened BencodeGrammar

  /** The digits from cur on end at last. */
  predicate DigitsEnd(buf: string, cur: nat, last: nat) {
    cur <= last <= |buf| && Digits(buf[cur..last]) && (last < |buf| ==> !IsDigit(buf[last]))
  }

  lemma DigitsEndThere(buf: string, cur: nat, last: nat)
    requires DigitsEnd(buf, cur, last)
    ensures SkipDigits(buf, cur) == last
  {
    if last < |buf| {
      SkipDigitsStopsAt(buf, cur, last);
    } else {
      forall j | cur <= j < last
        ensures IsDigit(buf[j])
      {
        assert buf[cur..last][j - cur] == buf[j];
      }
    }
    hide IsDigit, Digits;
  }

  // ---- Strings ----

  /** A string by its digits and what follows them. */
  lemma StringOutcome(buf: string, cur: nat, last: nat)
    requires DigitsEnd(buf, cur, last)
    ensures last == cur ==> ParseStringF(buf, cur) == Err(ParseError(UnexpectedStringLength, cur, String))
    ensures last < |buf| && buf[last] != ':' ==>
              ParseStringF(buf, cur) == Err(ParseError(UnexpectedStringLength, last, String))
    ensures cur < last == |buf| ==> ParseStringF(buf, cur) == Err(ParseError(MissingStringStart, |buf|, String))
    ensures cur < last < |buf| && buf[last] == ':' ==>
              var length := DecimalValue(buf[cur..last]);
              ParseStringF(buf, cur)
              == if length >= 0x1_0000_0000_0000_0000 then Err(ParseError(BadStringLength, last + 1, String))
                 else if length >= |buf| then Err(ParseError(StringOutOfBound, last + 1, String))
                 else Ok(EStr(View(last + 1, length), Pos(cur, last + 1 + length)), last + 1 + length)
  {
    DigitsEndThere(buf, cur, last);
    hide SkipDigits, DecimalValue;
  }

  /** A string token is out of bounds, for the parser, exactly when its length is at least that of the whole
      buffer. */
  lemma StringOutOfBoundIff(buf: string, cur: nat, last: nat)
    requires DigitsEnd(buf, cur, last) && cur < last < |buf| && buf[last] == ':'
    requires DecimalValue(buf[cur..last]) < 0x1_0000_0000_0000_0000
    ensures ParseStringF(buf, cur) == Err(ParseError(StringOutOfBound, last + 1, String))
            <==> DecimalValue(buf[cur..last]) >= |buf|
    ensures ParseStringF(buf, cur).Err? <==> DecimalValue(buf[cur..last]) >= |buf|
  {
    StringOutcome(buf, cur, last);
    hide SkipDigits, DecimalValue, ParseStringF;
  }

  /** A parse that leaves the buffer is that of a string whose length is less than the whole buffer's and more
      than what is left. */
  lemma OverrunExactly(buf: string, cur: nat, parent: ElementId, e: Element, c: nat)
    requires c > |buf|
    ensures ParseElementF(buf, cur, parent) == Ok(e, c) <==>
              exists last: nat :: IsOverrun(buf, cur, last, e, c)
  {
    hide ParseListF, ParseDictionaryF, ParseIntegerF, DecimalValue;
    if ParseElementF(buf, cur, parent) == Ok(e, c) {
      var last := SkipDigits(buf, cur);
      assert IsOverrun(buf, cur, last, e, c);
    }
    if last: nat :| IsOverrun(buf, cur, last, e, c) {
      StringOutcome(buf, cur, last);
      assert IsDigit(buf[cur]) by {
        assert buf[cur..last][0] == buf[cur];
      }
    }
  }

  ghost predicate IsOverrun(buf: string, cur: nat, last: nat, e: Element, c: nat) {
    && DigitsEnd(buf, cur, last) && cur < last < |buf| && buf[last] == ':'
    && (var length := DecimalValue(buf[cur..last]);
        length < 0x1_0000_0000_0000_0000 && length < |buf| && c == last + 1 + length
        && e == EStr(View(last + 1, length), Pos(cur, c)))
  }

  // ---- Integers ----

  /** An integer by its sign and digits and what follows them. */
  lemma IntegerOutcome(buf: string, cur: nat, last: nat)
    requires cur < |buf| && buf[cur] == 'i'
    requires DigitsEnd(buf, if cur + 1 < |buf| && buf[cur + 1] == '-' then cur + 2 else cur + 1, last)
    ensures last == |buf| || buf[last] != 'e' ==>
              ParseIntegerF(buf, cur) == Err(ParseError(BadInteger, last, Integer))
    ensures last < |buf| && buf[last] == 'e' ==>
              ParseIntegerF(buf, cur)
              == if CanonicalInteger(buf[cur + 1..last]) then
                   Ok(EInt(View(cur + 1, last - cur - 1), Pos(cur, last + 1)), last + 1)
                 else Err(ParseError(BadInteger, last + 1, Integer))
  {
    DigitsEndThere(buf, if cur + 1 < |buf| && buf[cur + 1] == '-' then cur + 2 else cur + 1, last);
    hide SkipDigits, CanonicalInteger;
  }

  /** What no element starts with, and the end of the buffer. */
  lemma NoElementStarts(buf: string, cur: nat, parent: ElementId)
    ensures cur >= |buf| ==> ParseElementF(buf, cur, parent) == Err(ParseError(UnexpectedEnd, cur, parent))
    ensures cur < |buf| && !IsDigit(buf[cur]) && buf[cur] != 'i' && buf[cur] != 'l' && buf[cur] != 'd' ==>
              ParseElementF(buf, cur, parent) == Err(ParseError(UnexpectedStringLength, cur, String))
  {
    if cur < |buf| && !IsDigit(buf[cur]) {
      StringOutcome(buf, cur, cur);
    }
    hide ParseListF, ParseDictionaryF, ParseIntegerF, ParseStringF;
  }

  /** The parsing functions that are called for one kind of element, on a text of another. */
  lemma WrongStart(buf: string, cur: nat)
    requires cur <= |buf|
    ensures cur == |buf| || buf[cur] != 'i' ==>
              ParseIntegerF(buf, cur) == Err(ParseError(MissingIntegerStart, cur, Integer))
    ensures cur == |buf| || buf[cur] != 'l' ==>
              ParseListF(buf, cur) == Err(ParseError(MissingListStart, cur, String))
    ensures cur == |buf| || buf[cur] != 'd' ==>
              ParseDictionaryF(buf, cur) == Err(ParseError(MissingDictionaryStart, cur, Dictionary))
  {
  }

  // ---- Lists ----

  /** Elements parsed one after the other from a on, up to c. */
  ghost predicate Sequence(buf: string, items: seq<Element>, a: nat, c: nat) {
    if items == [] then a == c else
    && a < |buf| && buf[a] != 'e'
    && ParseElementF(buf, a, List) == Ok(items[0], items[0].pos.end)
    && Sequence(buf, items[1..], items[0].pos.end, c)
  }

  /** The list has no end, or the element at c is bad. */
  ghost predicate ListBreaks(buf: string, c: nat, e: ParseError) {
    if c >= |buf| then e == ParseError(MissingListEnd, c, String)
    else buf[c] != 'e' && ParseElementF(buf, c, List) == Err(e)
  }

  lemma {:induction false} ItemsAfter(buf: string, items: seq<Element>, a: nat, c: nat)
    requires Sequence(buf, items, a, c)
    ensures ParseItemsF(buf, a)
         == match ParseItemsF(buf, c)
            case Err(e) => Err(e)
            case Ok(more, end) => Ok(items + more, end)
    decreases |items|
  {
    hide ParseElementF;
    var rest := ParseItemsF(buf, c);
    if items != [] {
      ItemsAfter(buf, items[1..], items[0].pos.end, c);
      assert rest.Ok? ==> [items[0]] + (items[1..] + rest.value) == items + rest.value;
    }
    assert rest.Ok? ==> [] + rest.value == rest.value;
  }

  lemma {:induction false} ItemsRun(buf: string, a: nat) returns (items: seq<Element>, c: nat)
    ensures Sequence(buf, items, a, c)
    ensures c >= |buf| || buf[c] == 'e' || ParseElementF(buf, c, List).Err?
    decreases Left(buf, a)
  {
    if a >= |buf| || buf[a] == 'e' || ParseElementF(buf, a, List).Err? {
      items, c := [], a;
    } else {
      var item := ParseElementF(buf, a, List).value;
      var rest;
      rest, c := ItemsRun(buf, item.pos.end);
      items := [item] + rest;
      assert items[1..] == rest;
    }
    hide ParseElementF;
  }

  /** Elements parse from a up to c, and there the list breaks. */
  ghost predicate ListBreaksAfter(buf: string, a: nat, items: seq<Element>, c: nat, e: ParseError) {
    Sequence(buf, items, a, c) && ListBreaks(buf, c, e)
  }

  /** A list is rejected, with an error, exactly when some elements parse and then it breaks with that error. */
  lemma ListFailsIff(buf: string, cur: nat, a: nat, e: ParseError)
    requires cur < |buf| && buf[cur] == 'l' && a == cur + 1
    ensures ParseListF(buf, cur) == Err(e) <==> exists items, c: nat :: ListBreaksAfter(buf, a, items, c, e)
  {
    hide ParseElementF, Sequence;
    if items, c: nat :| ListBreaksAfter(buf, a, items, c, e) {
      ItemsAfter(buf, items, a, c);
    }
    if ParseListF(buf, cur) == Err(e) {
      var items, c := ItemsRun(buf, a);
      ItemsAfter(buf, items, a, c);
      assert ListBreaksAfter(buf, a, items, c, e);
    }
  }

  // ---- Dictionaries ----

  ghost predicate EntrySequence(buf: string, entries: seq<Entry>, a: nat, c: nat) {
    if entries == [] then a == c else
    var Entry(key, value) := entries[0];
    && a < |buf| && buf[a] != 'e'
    && ParseElementF(buf, a, Dictionary) == Ok(EStr(key, Pos(a, key.off + key.len)), key.off + key.len)
    && ParseElementF(buf, key.off + key.len, Dictionary) == Ok(value, value.pos.end)
    && EntrySequence(buf, entries[1..], value.pos.end, c)
  }

  /** The dictionary has no end, or the key at c is bad or not a string, or its value is bad. */
  ghost predicate DictionaryBreaks(buf: string, c: nat, e: ParseError) {
    if c >= |buf| then e == ParseError(MissingDictionaryEnd, c, Dictionary)
    else
      && buf[c] != 'e'
      && match ParseElementF(buf, c, Dictionary)
         case Err(bad) => e == bad
         case Ok(key, k) =>
           if key.EStr? then ParseElementF(buf, k, Dictionary) == Err(e)
           else e == ParseError(NonStringAsDictionaryKey, k, Dictionary)
  }

  lemma StringEnds(buf: string, a: nat)
    requires ParseElementF(buf, a, Dictionary).Ok? && ParseElementF(buf, a, Dictionary).value.EStr?
    ensures var Ok(key, k) := ParseElementF(buf, a, Dictionary);
            k == key.text.off + key.text.len && key == EStr(key.text, Pos(a, k))
  {
    hide ParseListF, ParseDictionaryF, ParseIntegerF, DecimalValue;
  }

  lemma {:induction false} EntriesAfter(buf: string, entries: seq<Entry>, a: nat, c: nat)
    requires EntrySequence(buf, entries, a, c)
    ensures ParseEntriesF(buf, a)
         == match ParseEntriesF(buf, c)
            case Err(e) => Err(e)
            case Ok(more, end) => Ok(entries + more, end)
    decreases |entries|
  {
    hide ParseElementF;
    var rest := ParseEntriesF(buf, c);
    if entries != [] {
      EntriesAfter(buf, entries[1..], entries[0].value.pos.end, c);
      assert rest.Ok? ==> [entries[0]] + (entries[1..] + rest.value) == entries + rest.value;
    }
    assert rest.Ok? ==> [] + rest.value == rest.value;
  }

  lemma EntryIs(buf: string, a: nat)
    requires a < |buf| && buf[a] != 'e'
    ensures ParseEntryF(buf, a).Ok? ==>
              var Ok(entry, end) := ParseEntryF(buf, a);
              var k := entry.key.off + entry.key.len;
              && ParseElementF(buf, a, Dictionary) == Ok(EStr(entry.key, Pos(a, k)), k)
              && ParseElementF(buf, k, Dictionary) == Ok(entry.value, entry.value.pos.end)
              && end == entry.value.pos.end && a < end
  {
    hide ParseElementF;
    if ParseElementF(buf, a, Dictionary).Ok? && ParseElementF(buf, a, Dictionary).value.EStr? {
      StringEnds(buf, a);
    }
  }

  lemma EntryBreaks(buf: string, a: nat, e: ParseError)
    requires a < |buf| && buf[a] != 'e'
    ensures ParseEntryF(buf, a) == Err(e) <==> DictionaryBreaks(buf, a, e)
  {
    hide ParseElementF;
  }

  lemma {:induction false} EntriesRun(buf: string, a: nat) returns (entries: seq<Entry>, c: nat)
    ensures EntrySequence(buf, entries, a, c)
    ensures c >= |buf| || buf[c] == 'e' || ParseEntryF(buf, c).Err?
    decreases Left(buf, a)
  {
    hide ParseElementF, ParseEntryF, DictionaryBreaks;
    if a >= |buf| || buf[a] == 'e' || ParseEntryF(buf, a).Err? {
      entries, c := [], a;
    } else {
      EntryIs(buf, a);
      var Ok(entry, end) := ParseEntryF(buf, a);
      var rest;
      rest, c := EntriesRun(buf, end);
      entries := [entry] + rest;
      assert entries[1..] == rest;
    }
  }

  ghost predicate DictionaryBreaksAfter(buf: string, a: nat, entries: seq<Entry>, c: nat, e: ParseError) {
    EntrySequence(buf, entries, a, c) && DictionaryBreaks(buf, c, e)
  }

  /** The same for dictionaries. */
  lemma DictionaryFailsIff(buf: string, cur: nat, a: nat, e: ParseError)
    requires cur < |buf| && buf[cur] == 'd' && a == cur + 1
    ensures ParseDictionaryF(buf, cur) == Err(e)
            <==> exists entries, c: nat :: DictionaryBreaksAfter(buf, a, entries, c, e)
  {
    hide ParseElementF, ParseEntryF, EntrySequence;
    if entries, c: nat :| DictionaryBreaksAfter(buf, a, entries, c, e) {
      EntriesAfter(buf, entries, a, c);
      EntriesStop(buf, c);
    }
    if ParseDictionaryF(buf, cur) == Err(e) {
      var entries, c := EntriesRun(buf, a);
      EntriesAfter(buf, entries, a, c);
      EntriesStop(buf, c);
      assert DictionaryBreaksAfter(buf, a, entries, c, e);
    }
  }

  lemma EntriesStop(buf: string, c: nat)
    ensures c >= |buf| || buf[c] == 'e' ==> ParseEntriesF(buf, c) == Ok([], c)
    ensures c < |buf| && buf[c] != 'e' ==>
              forall e :: DictionaryBreaks(buf, c, e) <==> ParseEntryF(buf, c) == Err(e)
    ensures c < |buf| && buf[c] != 'e' && ParseEntryF(buf, c).Err? ==>
              ParseEntriesF(buf, c) == Err(ParseEntryF(buf, c).error)
  {
    hide ParseElementF, ParseEntryF, DictionaryBreaks;
    if c < |buf| && buf[c] != 'e' {
      forall e
        ensures DictionaryBreaks(buf, c, e) <==> ParseEntryF(buf, c) == Err(e)
      {
        EntryBreaks(buf, c, e);
      }
    }
  }

  // ---- The top level ----

  /** Elements parsed one after the other; all but the last end inside the buffer. */
  ghost predicate TopSequence(buf: string, items: seq<Element>, a: nat, c: nat) {
    if items == [] then a == c else
    && ParseElementF(buf, a, NoElement) == Ok(items[0], items[0].pos.end)
    && (|items| > 1 ==> items[0].pos.end < |buf|)
    && TopSequence(buf, items[1..], items[0].pos.end, c)
  }

  lemma {:induction false} TopAfter(buf: string, items: seq<Element>, a: nat, c: nat)
    requires TopSequence(buf, items, a, c)
    ensures c >= |buf| && items != [] ==> ParseTopF(buf, a) == Ok(items, c)
    ensures (c < |buf| || items == []) && ParseElementF(buf, c, NoElement).Err? ==>
              ParseTopF(buf, a) == Err(ParseElementF(buf, c, NoElement).error)
    decreases |items|
  {
    hide ParseElementF;
    if items != [] {
      assert items == [items[0]] + items[1..];
      assert |items| == 1 ==> items[1..] == [];
      TopAfter(buf, items[1..], items[0].pos.end, c);
      if |items| == 1 {
        assert c == items[0].pos.end && items == [items[0]];
      }
    }
  }

  lemma {:induction false} TopRun(buf: string, a: nat) returns (items: seq<Element>, c: nat)
    ensures TopSequence(buf, items, a, c)
    ensures if c >= |buf| && items != [] then true else ParseElementF(buf, c, NoElement).Err?
    decreases Left(buf, a)
  {
    match ParseElementF(buf, a, NoElement) {
      case Err(_) => items, c := [], a;
      case Ok(item, end) =>
        if end >= |buf| {
          items, c := [item], end;
          assert items[1..] == [];
        } else {
          var rest;
          rest, c := TopRun(buf, end);
          items := [item] + rest;
          assert items[1..] == rest;
        }
    }
    hide ParseElementF;
  }

  /** Elements parse up to k, and the next one is bad. */
  ghost predicate TopBreaksAfter(buf: string, items: seq<Element>, k: nat, e: ParseError) {
    && TopSequence(buf, items, 0, k) && (items == [] || k < |buf|)
    && ParseElementF(buf, k, NoElement) == Err(e)
  }

  /** The top level accepts one element or more that reach the end of the buffer, or pass it, and rejects the
      rest with the error of the first element that is bad. */
  lemma TopLevelExactly(buf: string, items: seq<Element>, c: nat, e: ParseError)
    ensures ParseTopF(buf, 0) == Ok(items, c)
            <==> items != [] && TopSequence(buf, items, 0, c) && c >= |buf|
    ensures ParseTopF(buf, 0) == Err(e) <==> exists before, k: nat :: TopBreaksAfter(buf, before, k, e)
  {
    hide ParseElementF, TopSequence, ParseTopF;
    var run, end := TopRun(buf, 0);
    TopAfter(buf, run, 0, end);
    if TopSequence(buf, items, 0, c) {
      TopAfter(buf, items, 0, c);
    }
    if before, k: nat :| TopBreaksAfter(buf, before, k, e) {
      TopAfter(buf, before, 0, k);
    }
    if ParseTopF(buf, 0) == Err(e) {
      assert TopBreaksAfter(buf, run, end, e);
    }
  }
}
