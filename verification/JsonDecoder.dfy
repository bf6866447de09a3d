/**
 * A JSON text decoder following sections 2 to 7 of RFC 8259, for numbers without fraction or
 * exponent. It knows nothing about the printer: it is the reference that the printer's
 * output is read back with.
 */
module JsonDecoder {
  import opened CanonicalJson

  datatype Parsed<+T> = Done(value: T, rest: string) | Failed

  /** `first`, then what was read after it. */
  function Prepend<T>(first: T, tail: Parsed<seq<T>>): Parsed<seq<T>> {
    if tail.Failed? then Failed else Done([first] + tail.value, tail.rest)
  }

  // ----- Lexical elements (sections 2, 6 and 7) -----

  predicate IsWhitespace(c: char) { c == ' ' || c == '\t' || c == '\n' || c == '\r' }

  function SkipWhitespace(s: string): (r: string)
    ensures |r| <= |s|
    ensures r != [] ==> !IsWhitespace(r[0])
  {
    if s != [] && IsWhitespace(s[0]) then SkipWhitespace(s[1..]) else s
  }

  predicate IsDecimalDigit(c: char) { '0' <= c <= '9' }

  function HexValue(c: char): (v: int)
    ensures -1 <= v < 16
  {
    if '0' <= c <= '9' then c as int - '0' as int
    else if 'a' <= c <= 'f' then c as int - 'a' as int + 10
    else if 'A' <= c <= 'F' then c as int - 'A' as int + 10
    else -1
  }

  /** The code unit written by the four hex digits at the start of `s`, or -1. */
  function CodeUnit(s: string): (u: int)
    ensures -1 <= u < 0x1_0000
    ensures u >= 0 ==> |s| >= 4
  {
    if |s| >= 4 && HexValue(s[0]) >= 0 && HexValue(s[1]) >= 0 && HexValue(s[2]) >= 0 && HexValue(s[3]) >= 0 then
      HexValue(s[0]) * 0x1000 + HexValue(s[1]) * 0x100 + HexValue(s[2]) * 0x10 + HexValue(s[3])
    else -1
  }

  predicate IsHighSurrogate(u: int) { 0xD800 <= u < 0xDC00 }

  predicate IsLowSurrogate(u: int) { 0xDC00 <= u < 0xE000 }

  /** The character written after a backslash; `\u` escapes above the BMP come as surrogate pairs. */
  function ParseEscape(s: string): (r: Parsed<char>)
    ensures r.Done? ==> |r.rest| < |s|
  {
    if s == [] then Failed
    else if s[0] == '"' || s[0] == '\\' || s[0] == '/' then Done(s[0], s[1..])
    else if s[0] == 'b' then Done(8 as char, s[1..])
    else if s[0] == 'f' then Done(12 as char, s[1..])
    else if s[0] == 'n' then Done('\n', s[1..])
    else if s[0] == 'r' then Done('\r', s[1..])
    else if s[0] == 't' then Done('\t', s[1..])
    else if s[0] != 'u' then Failed
    else
      var u := CodeUnit(s[1..]);
      if u < 0 || IsLowSurrogate(u) then Failed
      else if !IsHighSurrogate(u) then Done(u as char, s[5..])
      else if |s| < 7 || s[5] != '\\' || s[6] != 'u' then Failed
      else
        var w := CodeUnit(s[7..]);
        if !IsLowSurrogate(w) then Failed
        else Done((0x1_0000 + (u - 0xD800) * 0x400 + (w - 0xDC00)) as char, s[11..])
  }

  /** The characters up to the closing quotation mark. */
  function ParseCharacters(s: string): (r: Parsed<string>)
    ensures r.Done? ==> |r.rest| < |s|
    decreases |s|
  {
    if s == [] || s[0] as int < 0x20 then Failed
    else if s[0] == '"' then Done([], s[1..])
    else
      var first := if s[0] == '\\' then ParseEscape(s[1..]) else Done(s[0], s[1..]);
      if first.Failed? then Failed else Prepend(first.value, ParseCharacters(first.rest))
  }

  function ParseString(s: string): (r: Parsed<string>)
    ensures r.Done? ==> |r.rest| < |s|
  {
    if s == [] || s[0] != '"' then Failed else ParseCharacters(s[1..])
  }

  function ScanDigits(s: string, acc: nat): (r: (nat, string))
    ensures |r.1| <= |s|
  {
    if s != [] && IsDecimalDigit(s[0])
    then ScanDigits(s[1..], acc * 10 + (s[0] as int - '0' as int))
    else (acc, s)
  }

  /** int = zero / ( digit1-9 *DIGIT ); a fraction or an exponent is not an integer. */
  function ParseMagnitude(s: string): (r: Parsed<nat>)
    ensures r.Done? ==> |r.rest| < |s|
  {
    if s == [] || !IsDecimalDigit(s[0]) then Failed
    else
      var (n, rest) := if s[0] == '0' then (0, s[1..]) else ScanDigits(s[1..], s[0] as int - '0' as int);
      if rest != [] && ContinuesNumber(rest[0]) then Failed else Done(n, rest)
  }

  predicate ContinuesNumber(c: char) { c == '.' || c == 'e' || c == 'E' }

  function ParseNumber(s: string): (r: Parsed<Value>)
    ensures r.Done? ==> |r.rest| < |s|
  {
    if s != [] && s[0] == '-' then
      var m := ParseMagnitude(s[1..]);
      if m.Failed? then Failed else Done(Integer(0 - m.value), m.rest)
    else
      var m := ParseMagnitude(s);
      if m.Failed? then Failed else Done(Integer(m.value), m.rest)
  }

  // ----- Values (sections 3 to 5) -----

  function ParseValue(text: string): (r: Parsed<Value>)
    ensures r.Done? ==> |r.rest| < |text|
    decreases |text|, 0
  {
    var s := SkipWhitespace(text);
    if s == [] then Failed
    else if s[0] == '[' then
      var t := SkipWhitespace(s[1..]);
      if t != [] && t[0] == ']' then Done(Array([]), t[1..]) else
      var items := ParseElements(s[1..]);
      if items.Failed? then Failed else Done(Array(items.value), items.rest)
    else if s[0] == '{' then
      var t := SkipWhitespace(s[1..]);
      if t != [] && t[0] == '}' then Done(Object([]), t[1..]) else
      var members := ParseMembers(s[1..]);
      if members.Failed? then Failed else Done(Object(members.value), members.rest)
    else if s[0] == '"' then
      var str := ParseString(s);
      if str.Failed? then Failed else Done(String(str.value), str.rest)
    else if "null" <= s then Done(Null, s[4..])
    else if "true" <= s then Done(Bool(true), s[4..])
    else if "false" <= s then Done(Bool(false), s[5..])
    else ParseNumber(s)
  }

  /** value *( value-separator value ) end-array */
  function ParseElements(s: string): (r: Parsed<seq<Value>>)
    ensures r.Done? ==> |r.rest| < |s|
    decreases |s|, 1
  {
    var first := ParseValue(s);
    if first.Failed? then Failed else
    var t := SkipWhitespace(first.rest);
    if t == [] then Failed
    else if t[0] == ']' then Done([first.value], t[1..])
    else if t[0] != ',' then Failed
    else Prepend(first.value, ParseElements(t[1..]))
  }

  /** string name-separator value */
  function ParseMember(text: string): (r: Parsed<Member>)
    ensures r.Done? ==> |r.rest| < |text|
    decreases |text|, 0
  {
    var key := ParseString(SkipWhitespace(text));
    if key.Failed? then Failed else
    var t := SkipWhitespace(key.rest);
    if t == [] || t[0] != ':' then Failed else
    var v := ParseValue(t[1..]);
    if v.Failed? then Failed else Done(Member(key.value, v.value), v.rest)
  }

  /** member *( value-separator member ) end-object */
  function ParseMembers(s: string): (r: Parsed<seq<Member>>)
    ensures r.Done? ==> |r.rest| < |s|
    decreases |s|, 1
  {
    var first := ParseMember(s);
    if first.Failed? then Failed else
    var t := SkipWhitespace(first.rest);
    if t == [] then Failed
    else if t[0] == '}' then Done([first.value], t[1..])
    else if t[0] != ',' then Failed
    else Prepend(first.value, ParseMembers(t[1..]))
  }

  /** A JSON text: one value, with nothing but whitespace after it. */
  function Decode(text: string): (r: Parsed<Value>)
  {
    var v := ParseValue(text);
    if v.Done? && SkipWhitespace(v.rest) == [] then Done(v.value, []) else Failed
  }
}
