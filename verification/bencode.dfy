/**
 Bencoded elements as the parser stores them, and the parser itself as functions of
 a buffer and a cursor. The class in bencode_parser.dfy is proved equal to these functions.

 Strings and integers are views into the buffer (offset and length), so a view that
 runs past the end of the buffer can be expressed.
 */
module Bencode {
  import opened Machine

  datatype ElementId = NoElement | Integer | String | List | Dictionary

  datatype ErrorCode =
    | UnexpectedEnd
    | UnexpectedStringLength
    | BadInteger
    | BadStringLength
    | StringOutOfBound
    | NonStringAsDictionaryKey
    | MissingListStart
    | MissingListEnd
    | MissingDictionaryStart
    | MissingDictionaryEnd
    | MissingIntegerStart
    | MissingStringStart

  datatype ParseError = ParseError(code: ErrorCode, position: nat, element: ElementId)

  /** Characters [off, off + len) of the buffer. */
  datatype View = View(off: nat, len: nat)

  /** The span [start, end) an element was parsed from. */
  datatype Pos = Pos(start: nat, end: nat)

  datatype Element =
    | EInt(text: View, pos: Pos)
    | EStr(text: View, pos: Pos)
    | EList(items: seq<Element>, pos: Pos)
    | EDict(entries: seq<Entry>, pos: Pos)

  datatype Entry = Entry(key: View, value: Element)

  /** What a parsing function returns: a value and the cursor after it, or an error. */
  datatype Parsed<+T> = Ok(value: T, cur: nat) | Err(error: ParseError)

  predicate IsDigit(c: char) {
    '0' <= c <= '9'
  }

  predicate Digits(s: string) {
    forall i | 0 <= i < |s| :: IsDigit(s[i])
  }

  function DigitValue(c: char): nat
    requires IsDigit(c)
  {
    c as int - '0' as int
  }

  /** The number a string of decimal digits denotes; leading zeros are accepted. */
  function DecimalValue(s: string): nat
    requires Digits(s)
  {
    if s == "" then 0 else DecimalValue(s[..|s| - 1]) * 10 + DigitValue(s[|s| - 1])
  }

  /** The integer texts the parser accepts between 'i' and 'e'. */
  predicate CanonicalInteger(s: string) {
    if |s| > 0 && s[0] == '-' then
      |s| > 1 && s[1] != '0' && Digits(s[1..])
    else
      |s| > 0 && Digits(s) && (s[0] == '0' ==> |s| == 1)
  }

  /** The first position at or after cur that does not hold a digit. */
  function SkipDigits(buf: string, cur: nat): (last: nat)
    requires cur <= |buf|
    ensures cur <= last <= |buf|
    ensures forall j | cur <= j < last :: IsDigit(buf[j])
    ensures Digits(buf[cur..last])
    ensures last < |buf| ==> !IsDigit(buf[last])
    decreases |buf| - cur
  {
    if cur < |buf| && IsDigit(buf[cur]) then SkipDigits(buf, cur + 1) else cur
  }

  function ParseIntegerF(buf: string, cur: nat): (r: Parsed<Element>)
    requires cur <= |buf|
    ensures r.Ok? ==> r.value.EInt? && r.value.pos == Pos(cur, r.cur) && cur + 3 <= r.cur <= |buf|
  {
    if cur == |buf| || buf[cur] != 'i' then
      Err(ParseError(MissingIntegerStart, cur, Integer))
    else
      var begin := cur + 1;
      var sign := begin < |buf| && buf[begin] == '-';
      var last := SkipDigits(buf, if sign then begin + 1 else begin);
      if last == |buf| || buf[last] != 'e' then
        Err(ParseError(BadInteger, last, Integer))
      else if CanonicalInteger(buf[begin..last]) then
        Ok(EInt(View(begin, last - begin), Pos(cur, last + 1)), last + 1)
      else
        Err(ParseError(BadInteger, last + 1, Integer))
  }

  /** Whether the parser moves past count more characters: the bound as the code tests it,
      against the start of the buffer and not against the cursor. */
  predicate ConsumeFits(buf: string, count: nat) {
    count < |buf|
  }

  function ParseStringF(buf: string, cur: nat): (r: Parsed<Element>)
    requires cur <= |buf|
    ensures r.Ok? ==> r.value.EStr? && r.value.pos == Pos(cur, r.cur) && cur + 2 <= r.cur
  {
    var last := SkipDigits(buf, cur);
    if last < |buf| && buf[last] != ':' then
      Err(ParseError(UnexpectedStringLength, last, String))
    else if last == cur then
      Err(ParseError(UnexpectedStringLength, last, String))
    else if last == |buf| then
      Err(ParseError(MissingStringStart, last, String))
    else
      var length := DecimalValue(buf[cur..last]);
      if length >= TWO_64 then
        Err(ParseError(BadStringLength, last + 1, String))
      else if !ConsumeFits(buf, length) then
        Err(ParseError(StringOutOfBound, last + 1, String))
      else
        Ok(EStr(View(last + 1, length), Pos(cur, last + 1 + length)), last + 1 + length)
  }

  /** What is left to read; zero once the cursor has run past the end. */
  function Left(buf: string, cur: nat): nat {
    if cur <= |buf| then |buf| - cur else 0
  }

  /** Every successful parse moves the cursor forward by at least two characters. */
  function ParseElementF(buf: string, cur: nat, parent: ElementId): (r: Parsed<Element>)
    ensures r.Ok? ==> r.value.pos == Pos(cur, r.cur) && cur + 2 <= r.cur
    ensures r.Ok? ==> r.cur <= |buf| || r.value.EStr?
    decreases Left(buf, cur), 1
  {
    if cur >= |buf| then
      Err(ParseError(UnexpectedEnd, cur, parent))
    else match buf[cur]
      case 'i' => ParseIntegerF(buf, cur)
      case 'l' => ParseListF(buf, cur)
      case 'd' => ParseDictionaryF(buf, cur)
      case _ => ParseStringF(buf, cur)
  }

  function ParseListF(buf: string, cur: nat): (r: Parsed<Element>)
    requires cur <= |buf|
    ensures r.Ok? ==> r.value.EList? && r.value.pos == Pos(cur, r.cur) && cur + 2 <= r.cur <= |buf|
    decreases Left(buf, cur), 0
  {
    if cur == |buf| || buf[cur] != 'l' then
      Err(ParseError(MissingListStart, cur, String))
    else
      match ParseItemsF(buf, cur + 1)
      case Err(e) => Err(e)
      case Ok(items, c) =>
        if c < |buf| && buf[c] == 'e' then
          Ok(EList(items, Pos(cur, c + 1)), c + 1)
        else
          Err(ParseError(MissingListEnd, c, String))
  }

  /** The elements up to the closing 'e' or the end of the buffer. */
  function ParseItemsF(buf: string, cur: nat): (r: Parsed<seq<Element>>)
    ensures r.Ok? ==> cur <= r.cur
    decreases Left(buf, cur), 2
  {
    if cur < |buf| && buf[cur] != 'e' then
      match ParseElementF(buf, cur, List)
      case Err(e) => Err(e)
      case Ok(item, c) =>
        match ParseItemsF(buf, c)
        case Err(e) => Err(e)
        case Ok(items, c') => Ok([item] + items, c')
    else
      Ok([], cur)
  }

  function ParseDictionaryF(buf: string, cur: nat): (r: Parsed<Element>)
    requires cur <= |buf|
    ensures r.Ok? ==> r.value.EDict? && r.value.pos == Pos(cur, r.cur) && cur + 2 <= r.cur <= |buf|
    decreases Left(buf, cur), 0
  {
    if cur == |buf| || buf[cur] != 'd' then
      Err(ParseError(MissingDictionaryStart, cur, Dictionary))
    else
      match ParseEntriesF(buf, cur + 1)
      case Err(e) => Err(e)
      case Ok(entries, c) =>
        if c < |buf| && buf[c] == 'e' then
          Ok(EDict(entries, Pos(cur, c + 1)), c + 1)
        else
          Err(ParseError(MissingDictionaryEnd, c, Dictionary))
  }

  /** One key and its value. */
  function ParseEntryF(buf: string, cur: nat): (r: Parsed<Entry>)
    requires cur < |buf|
    ensures r.Ok? ==> cur + 4 <= r.cur
    decreases Left(buf, cur), 2
  {
    match ParseElementF(buf, cur, Dictionary)
    case Err(e) => Err(e)
    case Ok(key, c) =>
      if !key.EStr? then
        Err(ParseError(NonStringAsDictionaryKey, c, Dictionary))
      else
        match ParseElementF(buf, c, Dictionary)
        case Err(e) => Err(e)
        case Ok(value, c') => Ok(Entry(key.text, value), c')
  }

  function ParseEntriesF(buf: string, cur: nat): (r: Parsed<seq<Entry>>)
    ensures r.Ok? ==> cur <= r.cur
    decreases Left(buf, cur), 3
  {
    if cur < |buf| && buf[cur] != 'e' then
      match ParseEntryF(buf, cur)
      case Err(e) => Err(e)
      case Ok(entry, c) =>
        match ParseEntriesF(buf, c)
        case Err(e) => Err(e)
        case Ok(entries, c') => Ok([entry] + entries, c')
    else
      Ok([], cur)
  }

  /** The top level: one element or more, until the cursor reaches the end. */
  function ParseTopF(buf: string, cur: nat): (r: Parsed<seq<Element>>)
    ensures r.Ok? ==> |r.value| > 0 && cur + 2 <= r.cur
    decreases Left(buf, cur)
  {
    match ParseElementF(buf, cur, NoElement)
    case Err(e) => Err(e)
    case Ok(item, c) =>
      if c < |buf| then
        match ParseTopF(buf, c)
        case Err(e) => Err(e)
        case Ok(items, c') => Ok([item] + items, c')
      else
        Ok([item], c)
  }
}
