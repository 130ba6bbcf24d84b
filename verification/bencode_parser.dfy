/** The recursive-descent parser: a class that moves a cursor over a buffer. */
module BencodeParser {
  import opened Machine
  import opened Bencode

  type Result<+T> = Fallible<T, ParseError>

  class Parser {
    const buf: string
    var current: nat

    constructor (bencoded: string)
      ensures buf == bencoded && current == 0
    {
      buf := bencoded;
      current := 0;
    }

    /** The result and the cursor are those of a parsing function; an error is reported at the cursor. */
    ghost predicate Agrees<T>(r: Result<T>, f: Parsed<T>)
      reads this
    {
      match f
      case Ok(value, cur) => r == Success(value) && current == cur
      case Err(error) => r == Failure(error) && current == error.position
    }

    predicate HasData()
      reads this
    {
      current < |buf|
    }

    function MakeError(element: ElementId, code: ErrorCode): ParseError
      reads this
    {
      ParseError(code, current, element)
    }

    method Consume(c: char) returns (ok: bool)
      modifies this
      ensures ok <==> old(current) < |buf| && buf[old(current)] == c
      ensures current == if ok then old(current) + 1 else old(current)
    {
      ok := false;
      if HasData() && buf[current] == c {
        current := current + 1;
        ok := true;
      }
    }

    method ConsumeN(count: nat) returns (ok: bool)
      modifies this
      ensures ok <==> ConsumeFits(buf, count)
      ensures current == if ok then old(current) + count else old(current)
    {
      ok := count < |buf|;
      if ok {
        current := current + count;
      }
    }

    method ParseElement(parent: ElementId) returns (r: Result<Element>)
      modifies this
      ensures Agrees(r, ParseElementF(buf, old(current), parent))
      decreases Left(buf, current), 1
    {
      if current >= |buf| {
        return Failure(MakeError(parent, UnexpectedEnd));
      }
      match buf[current]
      case 'i' => r := ParseInteger();
      case 'l' => r := ParseList();
      case 'd' => r := ParseDictionary();
      case _ => r := ParseString();
    }

    method ParseInteger() returns (r: Result<Element>)
      requires current <= |buf|
      modifies this
      ensures Agrees(r, ParseIntegerF(buf, old(current)))
    {
      var start := current;
      var ok := Consume('i');
      if !ok {
        return Failure(MakeError(Integer, MissingIntegerStart));
      }
      var begin := current;
      var hasSign := HasData() && buf[begin] == '-';
      if hasSign {
        current := current + 1;
      }
      ghost var first := current;
      while HasData() && buf[current] != 'e'
        invariant first <= current <= |buf|
        invariant SkipDigits(buf, current) == SkipDigits(buf, first)
        decreases |buf| - current
      {
        if IsDigit(buf[current]) {
          current := current + 1;
        } else {
          return Failure(MakeError(Integer, BadInteger));
        }
      }
      var last := current;
      ok := Consume('e');
      if !ok {
        return Failure(MakeError(Integer, BadInteger));
      }
      TextChecks(buf, begin, last, hasSign);
      if begin == last {
        // No digits at all: "ie".
        return Failure(MakeError(Integer, BadInteger));
      } else if hasSign && last == begin + 1 {
        // Only the sign: "i-e".
        return Failure(MakeError(Integer, BadInteger));
      } else if hasSign && buf[begin + 1] == '0' {
        // "i-0e" and "i-01e".
        return Failure(MakeError(Integer, BadInteger));
      } else if buf[begin] == '0' && last > begin + 1 {
        // "i03e".
        return Failure(MakeError(Integer, BadInteger));
      }
      return Success(EInt(View(begin, last - begin), Pos(start, current)));
    }

    method ParseList() returns (r: Result<Element>)
      requires current <= |buf|
      modifies this
      ensures Agrees(r, ParseListF(buf, old(current)))
      decreases Left(buf, current), 0
    {
      var start := current;
      var ok := Consume('l');
      if !ok {
        return Failure(MakeError(String, MissingListStart));
      }
      var items: seq<Element> := [];
      ContinuesFromStart(ParseItemsF(buf, current));
      while HasData() && buf[current] != 'e'
        invariant start < current
        invariant Continues(ParseItemsF(buf, start + 1), items, ParseItemsF(buf, current))
        decreases Left(buf, current)
      {
        ghost var at := current;
        var element := ParseElement(List);
        if element.Failure? {
          return element;
        }
        ContinuesWith(ParseItemsF(buf, start + 1), items, element.value,
                      ParseItemsF(buf, at), ParseItemsF(buf, current));
        items := items + [element.value];
      }
      assert items + [] == items;
      ok := Consume('e');
      if !ok {
        return Failure(MakeError(String, MissingListEnd));
      }
      return Success(EList(items, Pos(start, current)));
    }

    method ParseDictionary() returns (r: Result<Element>)
      requires current <= |buf|
      modifies this
      ensures Agrees(r, ParseDictionaryF(buf, old(current)))
      decreases Left(buf, current), 0
    {
      var start := current;
      var ok := Consume('d');
      if !ok {
        return Failure(MakeError(Dictionary, MissingDictionaryStart));
      }
      var entries: seq<Entry> := [];
      ContinuesFromStart(ParseEntriesF(buf, current));
      while HasData() && buf[current] != 'e'
        invariant start < current
        invariant Continues(ParseEntriesF(buf, start + 1), entries, ParseEntriesF(buf, current))
        decreases Left(buf, current)
      {
        ghost var at, entry := current, ParseEntryF(buf, current);
        var key := ParseElement(Dictionary);
        if key.Failure? {
          return key;
        }
        if !key.value.EStr? {
          return Failure(MakeError(Dictionary, NonStringAsDictionaryKey));
        }
        var value := ParseElement(Dictionary);
        if value.Failure? {
          return value;
        }
        ContinuesWith(ParseEntriesF(buf, start + 1), entries, Entry(key.value.text, value.value),
                      ParseEntriesF(buf, at), ParseEntriesF(buf, current));
        entries := entries + [Entry(key.value.text, value.value)];
      }
      assert entries + [] == entries;
      ok := Consume('e');
      if !ok {
        return Failure(MakeError(Dictionary, MissingDictionaryEnd));
      }
      return Success(EDict(entries, Pos(start, current)));
    }

    method ParseString() returns (r: Result<Element>)
      requires current <= |buf|
      modifies this
      ensures Agrees(r, ParseStringF(buf, old(current)))
    {
      var start := current;
      var digits := ParseStringLength();
      if digits.Failure? {
        return Failure(digits.error);
      }
      var length := DecimalValue(buf[digits.value.off..digits.value.off + digits.value.len]);
      if length >= TWO_64 {
        return Failure(MakeError(String, BadStringLength));
      }
      var begin := current;
      var ok := ConsumeN(length);
      if !ok {
        return Failure(MakeError(String, StringOutOfBound));
      }
      return Success(EStr(View(begin, length), Pos(start, current)));
    }

    /** The view of the digits before the ':'; the cursor ends up after the ':'. */
    method ParseStringLength() returns (r: Result<View>)
      requires current <= |buf|
      modifies this
      ensures var last := SkipDigits(buf, old(current));
              match r
              case Success(v) =>
                && old(current) < last < |buf| && buf[last] == ':'
                && v == View(old(current), last - old(current)) && current == last + 1
              case Failure(error) =>
                && current == last
                && error == ParseError(
                              if old(current) < last == |buf| then MissingStringStart else UnexpectedStringLength,
                              last, String)
                && (last == |buf| || buf[last] != ':' || last == old(current))
    {
      var begin := current;
      while HasData()
        invariant begin <= current <= |buf|
        invariant SkipDigits(buf, current) == SkipDigits(buf, begin)
        decreases |buf| - current
      {
        if IsDigit(buf[current]) {
          current := current + 1;
        } else if buf[current] == ':' {
          break;
        } else {
          return Failure(MakeError(String, UnexpectedStringLength));
        }
      }
      if begin == current {
        return Failure(MakeError(String, UnexpectedStringLength));
      }
      var ok := Consume(':');
      if !ok {
        return Failure(MakeError(String, MissingStringStart));
      }
      return Success(View(begin, current - begin - 1));
    }
  }

  /** f is what remains to be parsed after the items already collected by a loop that computes whole. */
  ghost predicate Continues<T>(whole: Parsed<seq<T>>, items: seq<T>, f: Parsed<seq<T>>) {
    match f
    case Ok(more, cur) => whole == Ok(items + more, cur)
    case Err(error) => whole == Err(error)
  }

  lemma ContinuesFromStart<T>(whole: Parsed<seq<T>>)
    ensures Continues(whole, [], whole)
  {
    if whole.Ok? {
      assert [] + whole.value == whole.value;
    }
  }

  lemma ContinuesWith<T>(whole: Parsed<seq<T>>, items: seq<T>, item: T, f: Parsed<seq<T>>, g: Parsed<seq<T>>)
    requires Continues(whole, items, f)
    requires f == match g case Ok(more, cur) => Ok([item] + more, cur) case Err(error) => Err(error)
    ensures Continues(whole, items + [item], g)
  {
    if g.Ok? {
      assert items + [item] + g.value == items + ([item] + g.value);
    }
  }

  /** The four textual checks of the integer parser are CanonicalInteger, given that only digits
      follow the sign. */
  lemma TextChecks(buf: string, begin: nat, last: nat, hasSign: bool)
    requires begin <= last <= |buf|
    requires hasSign ==> begin < last && buf[begin] == '-'
    requires !hasSign && begin < last ==> buf[begin] != '-'
    requires Digits(buf[if hasSign then begin + 1 else begin..last])
    ensures CanonicalInteger(buf[begin..last]) <==>
            !(|| begin == last
              || (hasSign && last == begin + 1)
              || (hasSign && buf[begin + 1] == '0')
              || (buf[begin] == '0' && last > begin + 1))
  {
    if hasSign {
      assert buf[begin..last][1..] == buf[begin + 1..last];
    }
  }

  method Parse(bencoded: string) returns (r: Result<seq<Element>>)
    ensures match ParseTopF(bencoded, 0)
            case Ok(items, cur) => r == Success(items)
            case Err(error) => r == Failure(error)
  {
    var decoder := new Parser(bencoded);
    var elements: seq<Element> := [];
    var more := true;
    ContinuesFromStart(ParseTopF(bencoded, 0));
    while more
      invariant decoder.buf == bencoded
      invariant more ==> Continues(ParseTopF(bencoded, 0), elements, ParseTopF(bencoded, decoder.current))
      invariant !more ==> ParseTopF(bencoded, 0) == Ok(elements, decoder.current)
      decreases if more then 1 + Left(bencoded, decoder.current) else 0
    {
      ghost var at := decoder.current;
      var element := decoder.ParseElement(NoElement);
      if element.Failure? {
        return Failure(element.error);
      }
      more := decoder.HasData();
      if more {
        ContinuesWith(ParseTopF(bencoded, 0), elements, element.value,
                      ParseTopF(bencoded, at), ParseTopF(bencoded, decoder.current));
      }
      elements := elements + [element.value];
    }
    return Success(elements);
  }

  method ParseDictionary(bencoded: string) returns (r: Result<Element>)
    ensures match ParseDictionaryF(bencoded, 0)
            case Ok(d, cur) => r == Success(d)
            case Err(error) => r == Failure(error)
  {
    var decoder := new Parser(bencoded);
    r := decoder.ParseDictionary();
  }
}
