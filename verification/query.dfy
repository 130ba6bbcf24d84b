/** The tracker query string: the encoder of the client and a form-data parser as its inverse. */
module Query {
  import opened Machine

  const SPACE: byte := 0x20
  const PERCENT: byte := 0x25
  const AMPERSAND: byte := 0x26
  const PLUS: byte := 0x2B
  const SEMICOLON: byte := 0x3B
  const EQUALS: byte := 0x3D
  const QUESTION: byte := 0x3F

  /** The character classes of the URL library's table. */
  function CharClass(c: byte): bv8 {
    if c == 0x21 || c == 0x24 || 0x26 <= c <= 0x2E then 0x01        // ! $ & ' ( ) * + , - .
    else if c == 0x25 then 0x20                                     // %
    else if c == 0x2F then 0x08                                     // /
    else if 0x30 <= c <= 0x39 || c == 0x3B || c == 0x3D then 0x01   // 0-9 ; =
    else if c == 0x3A then 0x04                                     // :
    else if c == 0x3F then 0x10                                     // ?
    else if c == 0x40 then 0x02                                     // @
    else if 0x41 <= c <= 0x5A || c == 0x5F then 0x01                // A-Z _
    else if 0x61 <= c <= 0x7A || c == 0x7E then 0x01                // a-z ~
    else 0x00
  }

  predicate IsChar(c: byte, mask: bv8) {
    CharClass(c) & mask != 0
  }

  const QUERY_MASK: bv8 := 0x1F

  function HexDigit(n: nat): byte
    requires n < 16
  {
    if n < 10 then 0x30 + n else 0x41 + (n - 10)
  }

  /** One character of a key or a value; only keys escape '='. */
  function EncodeByte(c: byte, isKey: bool): seq<byte> {
    if c == SPACE then [PLUS]
    else if c == PLUS then [PERCENT, 0x32, 0x42]
    else if isKey && c == EQUALS then [PERCENT, 0x33, 0x44]
    else if c == AMPERSAND then [PERCENT, 0x32, 0x36]
    else if c == SEMICOLON then [PERCENT, 0x33, 0x42]
    else if IsChar(c, QUERY_MASK) then [c]
    else [PERCENT, HexDigit(c / 16), HexDigit(c % 16)]
  }

  function EncodeF(s: seq<byte>, isKey: bool): seq<byte> {
    if s == [] then [] else EncodeByte(s[0], isKey) + EncodeF(s[1..], isKey)
  }

  datatype Entry = Entry(key: seq<byte>, value: seq<byte>)

  /** An empty value leaves the '=' out. */
  function EncodeEntry(e: Entry): seq<byte> {
    EncodeF(e.key, true) + if e.value == [] then [] else [EQUALS] + EncodeF(e.value, false)
  }

  function JoinEntries(entries: seq<Entry>): seq<byte>
    requires entries != []
  {
    if |entries| == 1 then EncodeEntry(entries[0])
    else EncodeEntry(entries[0]) + [AMPERSAND] + JoinEntries(entries[1..])
  }

  predicate AllKeysNamed(entries: seq<Entry>) {
    forall i | 0 <= i < |entries| :: entries[i].key != []
  }

  lemma EncodeStep(s: seq<byte>, isKey: bool, i: nat, out: seq<byte>)
    requires i < |s|
    ensures out + EncodeF(s[i..], isKey) == out + EncodeByte(s[i], isKey) + EncodeF(s[i + 1..], isKey)
  {
    hide EncodeByte;
    assert s[i..][1..] == s[i + 1..];
  }

  /** The stream operators of the key and value encoders. */
  method Encode(s: seq<byte>, isKey: bool) returns (out: seq<byte>)
    ensures out == EncodeF(s, isKey)
  {
    hide EncodeByte;
    out := [];
    for i := 0 to |s|
      invariant out + EncodeF(s[i..], isKey) == EncodeF(s, isKey)
    {
      EncodeStep(s, isKey, i, out);
      out := out + EncodeByte(s[i], isKey);
    }
  }

  /** Writes one entry of the query. */
  method AppendEntry(str: seq<byte>, e: Entry) returns (r: seq<byte>)
    ensures r == str + EncodeEntry(e)
  {
    hide EncodeF;
    var key := Encode(e.key, true);
    r := str + key;
    if e.value != [] {
      var value := Encode(e.value, false);
      r := r + [EQUALS] + value;
    }
  }

  /** None stands for the build error on an entry without a key. */
  method BuildQueryStr(query: seq<Entry>) returns (r: Option<seq<byte>>)
    requires query != []
    ensures r.Some? <==> AllKeysNamed(query)
    ensures r.Some? ==> r.value == [0x3F] + JoinEntries(query)
  {
    hide EncodeEntry, JoinEntries;
    var str := [QUESTION];
    if query[0].key == [] {
      return None;
    }
    str := AppendEntry(str, query[0]);
    JoinStart(query, str);
    var i := 1;
    while i < |query|
      invariant 1 <= i <= |query|
      invariant forall k | 0 <= k < i :: query[k].key != []
      invariant Joined(query, i, str)
    {
      if query[i].key == [] {
        return None;
      }
      ghost var before := str;
      str := AppendEntry(str + [AMPERSAND], query[i]);
      JoinStep(query, i, before, str);
      i := i + 1;
    }
    return Some(str);
  }

  /** str is the query string of the first i entries; what is left follows after a '&'. */
  ghost predicate Joined(query: seq<Entry>, i: nat, str: seq<byte>)
    requires query != [] && i <= |query|
  {
    [QUESTION] + JoinEntries(query) == if i == |query| then str else str + [AMPERSAND] + JoinEntries(query[i..])
  }

  lemma JoinStart(query: seq<Entry>, str: seq<byte>)
    requires query != [] && str == [QUESTION] + EncodeEntry(query[0])
    ensures Joined(query, 1, str)
  {
    hide EncodeEntry;
    if |query| > 1 {
      assert [QUESTION] + (EncodeEntry(query[0]) + [AMPERSAND] + JoinEntries(query[1..]))
          == str + [AMPERSAND] + JoinEntries(query[1..]);
    }
  }

  lemma JoinStep(query: seq<Entry>, i: nat, before: seq<byte>, str: seq<byte>)
    requires 0 < i < |query| && Joined(query, i, before)
    requires str == before + [AMPERSAND] + EncodeEntry(query[i])
    ensures Joined(query, i + 1, str)
  {
    hide EncodeEntry;
    assert query[i..][0] == query[i] && query[i..][1..] == query[i + 1..];
    if i + 1 < |query| {
      assert before + [AMPERSAND] + (EncodeEntry(query[i]) + [AMPERSAND] + JoinEntries(query[i + 1..]))
          == str + [AMPERSAND] + JoinEntries(query[i + 1..]);
    }
  }

  // ---- The inverse: application/x-www-form-urlencoded parsing ----

  /** The position of the first sep, or the length. */
  function IndexOf(s: seq<byte>, sep: byte): (i: nat)
    ensures i <= |s|
    ensures i < |s| ==> s[i] == sep
    ensures forall j | 0 <= j < i :: s[j] != sep
  {
    if s == [] || s[0] == sep then 0 else 1 + IndexOf(s[1..], sep)
  }

  function Split(s: seq<byte>, sep: byte): seq<seq<byte>>
    decreases |s|
  {
    var i := IndexOf(s, sep);
    if i == |s| then [s] else [s[..i]] + Split(s[i + 1..], sep)
  }

  function HexValue(c: byte): Option<nat> {
    if 0x30 <= c <= 0x39 then Some(c - 0x30)
    else if 0x41 <= c <= 0x46 then Some(c - 0x41 + 10)
    else if 0x61 <= c <= 0x66 then Some(c - 0x61 + 10)
    else None
  }

  /** '+' is a space; '%' with two hexadecimal digits is that byte; anything else stands for itself. */
  function Decode(s: seq<byte>): seq<byte> {
    if s == [] then []
    else if s[0] == PLUS then [SPACE] + Decode(s[1..])
    else if s[0] == PERCENT && |s| >= 3 && HexValue(s[1]).Some? && HexValue(s[2]).Some? then
      [ByteOf(HexValue(s[1]).value, HexValue(s[2]).value)] + Decode(s[3..])
    else [s[0]] + Decode(s[1..])
  }

  function ByteOf(high: nat, low: nat): byte {
    (high * 16 + low) % 256
  }

  function ParseEntry(s: seq<byte>): Entry {
    var i := IndexOf(s, EQUALS);
    Entry(Decode(s[..i]), if i == |s| then [] else Decode(s[i + 1..]))
  }

  function ParseQuery(s: seq<byte>): seq<Entry> {
    var parts := Split(s, AMPERSAND);
    seq(|parts|, i requires 0 <= i < |parts| => ParseEntry(parts[i]))
  }

  // ---- Decoding undoes encoding ----

  lemma DecodeEncodedByte(c: byte, isKey: bool, rest: seq<byte>)
    ensures Decode(EncodeByte(c, isKey) + rest) == [c] + Decode(rest)
  {
    var code := EncodeByte(c, isKey);
    if |code| == 3 {
      assert (code + rest)[3..] == rest;
      assert code[0] == PERCENT;
      assert ByteOf(HexValue(code[1]).value, HexValue(code[2]).value) == c;
    } else {
      assert (code + rest)[1..] == rest;
      assert code == [if c == SPACE then PLUS else c];
      assert !IsChar(PERCENT, QUERY_MASK);
    }
  }

  lemma {:induction false} DecodeEncoded(s: seq<byte>, isKey: bool)
    ensures Decode(EncodeF(s, isKey)) == s
  {
    if s != [] {
      DecodeEncodedByte(s[0], isKey, EncodeF(s[1..], isKey));
      DecodeEncoded(s[1..], isKey);
    }
  }

  // ---- Separators do not occur inside the parts ----

  ghost predicate Without(s: seq<byte>, sep: byte) {
    forall i | 0 <= i < |s| :: s[i] != sep
  }

  lemma EncodedByteIsSafe(c: byte, isKey: bool)
    ensures Without(EncodeByte(c, isKey), AMPERSAND)
    ensures isKey ==> Without(EncodeByte(c, isKey), EQUALS)
    ensures |EncodeByte(c, isKey)| > 0
  {
  }

  lemma {:induction false} EncodedIsSafe(s: seq<byte>, isKey: bool)
    ensures Without(EncodeF(s, isKey), AMPERSAND)
    ensures isKey ==> Without(EncodeF(s, isKey), EQUALS)
    ensures s != [] ==> EncodeF(s, isKey) != []
  {
    if s != [] {
      EncodedByteIsSafe(s[0], isKey);
      EncodedIsSafe(s[1..], isKey);
      hide EncodeByte;
    }
  }

  lemma EncodedEntryIsSafe(e: Entry)
    ensures Without(EncodeEntry(e), AMPERSAND)
  {
    EncodedIsSafe(e.key, true);
    EncodedIsSafe(e.value, false);
    hide EncodeF;
  }

  lemma FirstSeparator(before: seq<byte>, sep: byte, after: seq<byte>)
    requires Without(before, sep)
    ensures IndexOf(before + [sep] + after, sep) == |before|
    ensures IndexOf(before, sep) == |before|
  {
    var s := before + [sep] + after;
    assert s[|before|] == sep;
    assert forall j | 0 <= j < |before| :: s[j] == before[j];
  }

  lemma SplitFirst(before: seq<byte>, sep: byte, after: seq<byte>)
    requires Without(before, sep)
    ensures Split(before + [sep] + after, sep) == [before] + Split(after, sep)
    ensures Split(before, sep) == [before]
  {
    FirstSeparator(before, sep, after);
    var s := before + [sep] + after;
    assert s[..|before|] == before && s[|before| + 1..] == after;
    hide IndexOf;
  }

  lemma ParsePair(key: seq<byte>, value: seq<byte>)
    requires Without(key, EQUALS)
    ensures ParseEntry(key) == Entry(Decode(key), [])
    ensures ParseEntry(key + [EQUALS] + value) == Entry(Decode(key), Decode(value))
  {
    FirstSeparator(key, EQUALS, value);
    hide Decode, IndexOf, Without;
    var s := key + [EQUALS] + value;
    assert s[..|key|] == key && s[|key| + 1..] == value && key[..|key|] == key;
  }

  lemma ParseEncodedEntry(e: Entry)
    ensures ParseEntry(EncodeEntry(e)) == e
  {
    var key, value := EncodeF(e.key, true), EncodeF(e.value, false);
    hide EncodeF, Decode, ParseEntry, Without;
    EncodedIsSafe(e.key, true);
    DecodeEncoded(e.key, true);
    DecodeEncoded(e.value, false);
    ParsePair(key, value);
    assert key + [] == key;
    assert key + ([EQUALS] + value) == key + [EQUALS] + value;
  }

  ghost function EncodedEntries(entries: seq<Entry>): seq<seq<byte>> {
    seq(|entries|, i requires 0 <= i < |entries| => EncodeEntry(entries[i]))
  }

  lemma {:induction false} SplitJoined(entries: seq<Entry>)
    requires entries != []
    ensures Split(JoinEntries(entries), AMPERSAND) == EncodedEntries(entries)
    decreases |entries|
  {
    hide Split, IndexOf, EncodeEntry, Without;
    var first, rest := entries[0], entries[1..];
    EncodedEntryIsSafe(first);
    if rest == [] {
      SplitFirst(EncodeEntry(first), AMPERSAND, []);
      assert EncodedEntries(entries) == [EncodeEntry(first)];
    } else {
      SplitFirst(EncodeEntry(first), AMPERSAND, JoinEntries(rest));
      SplitJoined(rest);
      assert EncodedEntries(entries) == [EncodeEntry(first)] + EncodedEntries(rest);
    }
  }

  /** Splitting the built string on '&', each part on its first '=', and decoding, recovers every key and
      value, arbitrary bytes included. */
  lemma QueryRoundTrip(entries: seq<Entry>)
    requires entries != []
    ensures ParseQuery(JoinEntries(entries)) == entries
  {
    hide Split, JoinEntries, EncodeEntry, ParseEntry;
    SplitJoined(entries);
    forall i | 0 <= i < |entries|
      ensures ParseEntry(EncodeEntry(entries[i])) == entries[i]
    {
      ParseEncodedEntry(entries[i]);
    }
  }

  /** Different queries are built into different strings. */
  lemma QueryInjective(a: seq<Entry>, b: seq<Entry>)
    requires a != [] && b != [] && JoinEntries(a) == JoinEntries(b)
    ensures a == b
  {
    hide ParseQuery, JoinEntries;
    QueryRoundTrip(a);
    QueryRoundTrip(b);
  }

  /** No part of the built string is empty, so parsers that skip empty parts agree. */
  lemma PartsAreNotEmpty(e: Entry)
    requires e.key != []
    ensures EncodeEntry(e) != []
  {
    EncodedIsSafe(e.key, true);
  }

  // ---- Which characters are written ----

  const OTHER_UNESCAPED: string := "!$'()*,-./:?@_~"
  const UPPER_HEX: string := "0123456789ABCDEF"

  /** Letters, digits and the other characters that stand for themselves; '=' does so in a value only. */
  predicate IsUnescaped(c: byte, isKey: bool) {
    || 'A' <= c as char <= 'Z' || 'a' <= c as char <= 'z' || '0' <= c as char <= '9'
    || c as char in OTHER_UNESCAPED
    || (!isKey && c as char == '=')
  }

  lemma OtherUnescaped(c: byte)
    ensures c as char in OTHER_UNESCAPED <==>
              || c == 0x21 || c == 0x24 || 0x27 <= c <= 0x2A || 0x2C <= c <= 0x2F || c == 0x3A || c == 0x3F || c == 0x40
              || c == 0x5F || c == 0x7E
  {
    var all := OTHER_UNESCAPED;
    assert all[0] == '!' && all[1] == '$' && all[2] == '\'' && all[3] == '(' && all[4] == ')' && all[5] == '*';
    assert all[6] == ',' && all[7] == '-' && all[8] == '.' && all[9] == '/' && all[10] == ':' && all[11] == '?';
    assert all[12] == '@' && all[13] == '_' && all[14] == '~';
  }

  lemma UpperHex(n: nat)
    requires n < 16
    ensures HexDigit(n) == UPPER_HEX[n] as int
  {
  }

  /** What each byte is written as: itself, '+', or '%' and the two upper-case digits of its value. */
  lemma EscapedExactly(c: byte, isKey: bool)
    ensures EncodeByte(c, isKey)
         == if IsUnescaped(c, isKey) then [c]
            else if c == 0x20 then [0x2B]
            else [0x25, UPPER_HEX[c / 16] as int, UPPER_HEX[c % 16] as int]
    ensures EncodeByte(c, isKey) == [c] <==> IsUnescaped(c, isKey)
  {
    OtherUnescaped(c);
    UpperHex(c / 16);
    UpperHex(c % 16);
    hide HexDigit;
  }

  /** A character that needs no escaping in a query: those above, and the four this encoding uses. */
  predicate IsQueryChar(c: byte) {
    IsUnescaped(c, false) || c as char in "+%&"
  }

  lemma {:induction false} EncodedIsQuery(s: seq<byte>, isKey: bool)
    ensures forall c | c in EncodeF(s, isKey) :: IsQueryChar(c) && c != 0x26
    ensures isKey ==> 0x3D !in EncodeF(s, isKey)
  {
    if s != [] {
      EncodedIsQuery(s[1..], isKey);
      ByteIsQuery(s[0], isKey);
    }
    hide EncodeByte, IsQueryChar;
  }

  lemma ByteIsQuery(c: byte, isKey: bool)
    ensures forall d | d in EncodeByte(c, isKey) :: IsQueryChar(d) && d != 0x26
    ensures isKey ==> 0x3D !in EncodeByte(c, isKey)
  {
    EscapedExactly(c, isKey);
    OtherUnescaped(c);
    assert "+%&"[0] == '+' && "+%&"[1] == '%';
    hide EncodeByte;
  }

  /** '=' is written exactly when there is a value. */
  lemma EqualsIffValue(e: Entry)
    ensures 0x3D in EncodeEntry(e) <==> e.value != []
    ensures forall c | c in EncodeEntry(e) :: IsQueryChar(c) && c != 0x26
  {
    EncodedIsQuery(e.key, true);
    EncodedIsQuery(e.value, false);
    hide EncodeF;
  }

  /** Every byte of the query is one that may stand there, whatever the keys and values hold. */
  lemma {:induction false} EveryByteIsQuery(entries: seq<Entry>)
    requires entries != []
    ensures forall c | c in JoinEntries(entries) :: IsQueryChar(c)
  {
    EqualsIffValue(entries[0]);
    if |entries| > 1 {
      EveryByteIsQuery(entries[1..]);
    }
    assert "+%&"[2] == '&';
    hide EncodeEntry;
  }

  /** Entries are separated by '&'. */
  lemma {:induction false} JoinOfTwo(a: seq<Entry>, b: seq<Entry>)
    requires a != [] && b != []
    ensures JoinEntries(a + b) == JoinEntries(a) + [0x26] + JoinEntries(b)
  {
    hide EncodeEntry;
    assert (a + b)[1..] == a[1..] + b;
    if |a| > 1 {
      JoinOfTwo(a[1..], b);
    }
  }
}
