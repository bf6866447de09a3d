/** What the decoder reads is what the printer wrote. */
module CanonicalRoundTrip {
  import opened CanonicalJson
  import opened JsonDecoder

  /** What may follow a number without being taken for a part of it. */
  predicate EndsNumber(rest: string) {
    rest != [] ==> !IsDecimalDigit(rest[0]) && !ContinuesNumber(rest[0])
  }

  // ----- Numbers -----

  lemma {:induction false} DecimalIsScanned(n: nat, rest: string)
    ensures ScanDigits(DecimalNat(n) + rest, 0) == ScanDigits(rest, n)
  {
    var d := Digit(n % 10);
    assert IsDecimalDigit(d) && d as int - '0' as int == n % 10;
    assert ([d] + rest)[0] == d && ([d] + rest)[1..] == rest;
    if n >= 10 {
      DecimalIsScanned(n / 10, [d] + rest);
      assert DecimalNat(n) + rest == DecimalNat(n / 10) + ([d] + rest);
    }
  }

  lemma {:induction false} DecimalStarts(n: nat)
    ensures IsDecimalDigit(DecimalNat(n)[0])
    ensures DecimalNat(n)[0] == '0' <==> n == 0
    ensures n == 0 ==> DecimalNat(n) == "0"
  {
    if n >= 10 {
      DecimalStarts(n / 10);
    }
  }

  lemma MagnitudeIsRead(n: nat, rest: string)
    requires EndsNumber(rest)
    ensures ParseMagnitude(DecimalNat(n) + rest) == Done(n, rest)
  {
    var s := DecimalNat(n) + rest;
    DecimalStarts(n);
    DecimalIsScanned(n, rest);
    assert s[0] == DecimalNat(n)[0];
    if n == 0 {
      assert s[1..] == rest;
    } else {
      assert ScanDigits(s, 0) == ScanDigits(s[1..], s[0] as int - '0' as int);
    }
  }

  lemma NumberIsRead(n: int, rest: string)
    requires EndsNumber(rest)
    ensures ParseNumber(Decimal(n) + rest) == Done(Integer(n), rest)
  {
    var s := Decimal(n) + rest;
    var m: nat := if n < 0 then -n else n;
    MagnitudeIsRead(m, rest);
    DecimalStarts(m);
    hide DecimalNat, ParseMagnitude, EndsNumber;
    if n < 0 {
      assert s[0] == '-' && s[1..] == DecimalNat(m) + rest;
    } else {
      assert s[0] == DecimalNat(n)[0];
    }
  }

  // ----- Strings -----

  lemma DigitIsHex(d: nat)
    requires d < 16
    ensures HexValue(Digit(d)) == d
  {
  }

  lemma HexDigitsAddUp(n: nat)
    requires n < 0x1_0000
    ensures n == n / 0x1000 * 0x1000 + n / 0x100 % 0x10 * 0x100 + n / 0x10 % 0x10 * 0x10 + n % 0x10
  {
    assert n / 0x100 == n / 0x10 / 0x10 && n / 0x1000 == n / 0x100 / 0x10;
  }

  lemma {:induction false} EscapeIsCodeUnit(n: nat, s: string)
    requires n < 0x1_0000 && |s| >= 6 && s[..6] == UnicodeEscape(n)
    ensures CodeUnit(s[2..]) == n
  {
    var digits := s[2..];
    assert digits[0] == s[..6][2] && digits[1] == s[..6][3] && digits[2] == s[..6][4] && digits[3] == s[..6][5];
    DigitIsHex(n / 0x1000);
    DigitIsHex(n / 0x100 % 0x10);
    DigitIsHex(n / 0x10 % 0x10);
    DigitIsHex(n % 0x10);
    HexDigitsAddUp(n);
  }

  /** A supplementary character is recovered from its surrogate pair. */
  lemma {:induction false} SurrogatesAreRead(c: char, s: string)
    requires c as int > 0xFFFF && |s| >= 12 && s[..12] == EscapeChar(c)
    ensures ParseEscape(s[1..]) == Done(c, s[12..])
  {
    var code := c as int - 0x1_0000;
    var high, low := 0xD800 + code / 0x400, 0xDC00 + code % 0x400;
    var e := s[1..];
    assert s[..6] == s[..12][..6] == UnicodeEscape(high);
    assert s[6..12] == s[..12][6..] == UnicodeEscape(low);
    EscapeIsCodeUnit(high, s);
    EscapeIsCodeUnit(low, s[6..]);
    assert e[0] == s[..6][1] && e[5] == s[6..12][0] && e[6] == s[6..12][1];
    assert e[1..] == s[2..] && e[7..] == s[6..][2..] && e[11..] == s[12..];
    assert code / 0x400 * 0x400 + code % 0x400 == code;
  }

  lemma {:induction false} EscapedIsRead(c: char, rest: string)
    requires EscapeChar(c)[0] == '\\'
    ensures ParseEscape((EscapeChar(c) + rest)[1..]) == Done(c, rest)
  {
    var s := EscapeChar(c) + rest;
    var length := |EscapeChar(c)|;
    assert s[..length] == EscapeChar(c) && s[length..] == rest;
    if c as int > 0xFFFF {
      SurrogatesAreRead(c, s);
    } else if length == 2 {
      assert s[1] == EscapeChar(c)[1] && s[1..][1..] == rest;
    } else {
      EscapeIsCodeUnit(c as int, s);
      assert s[1] == 'u' && s[1..][1..] == s[2..] && s[1..][5..] == rest;
    }
  }

  lemma {:induction false} CharacterIsRead(c: char, tail: string)
    ensures ParseCharacters(EscapeChar(c) + tail) == Prepend(c, ParseCharacters(tail))
  {
    var s := EscapeChar(c) + tail;
    assert s[0] == EscapeChar(c)[0];
    if EscapeChar(c)[0] == '\\' {
      EscapedIsRead(c, tail);
    } else {
      assert s[1..] == tail;
    }
  }

  lemma QuoteIsRead(rest: string)
    ensures ParseCharacters(['"'] + rest) == Done([], rest)
  {
    assert (['"'] + rest)[1..] == rest;
  }

  lemma {:induction false} CharactersAreRead(str: string, end: string)
    requires ParseCharacters(end).Done? && ParseCharacters(end).value == []
    ensures ParseCharacters(Escaped(str) + end) == Done(str, ParseCharacters(end).rest)
  {
    hide ParseCharacters;
    if str == [] {
      assert Escaped(str) + end == end;
    } else {
      var tail := Escaped(str[1..]) + end;
      CharactersAreRead(str[1..], end);
      CharacterIsRead(str[0], tail);
      assert Escaped(str) + end == EscapeChar(str[0]) + tail;
      assert str == [str[0]] + str[1..];
    }
  }

  lemma StringIsRead(str: string, rest: string)
    ensures ParseString(Quoted(str) + rest) == Done(str, rest)
  {
    assert (Quoted(str) + rest)[1..] == Escaped(str) + (['"'] + rest);
    QuoteIsRead(rest);
    CharactersAreRead(str, ['"'] + rest);
  }

  // ----- Values -----

  lemma ValueStarts(v: Value)
    requires !HasFloat(v)
    ensures Text(v) != [] && !IsWhitespace(Text(v)[0]) && Text(v)[0] != ']'
  {
    match v
    case Integer(n) =>
      DecimalStarts(if n < 0 then -n else n);
    case _ =>
  }

  /** Reading back a printed value, whatever follows it. */
  lemma {:induction false} ValueIsRead(v: Value, rest: string)
    requires !HasFloat(v)
    requires EndsNumber(rest)
    ensures ParseValue(Text(v) + rest) == Done(v, rest)
    decreases v, 0
  {
    match v
    case Array(items) =>
      ArrayIsRead(items, rest);
    case Object(members) =>
      ObjectIsRead(members, rest);
    case _ =>
      ScalarIsRead(v, rest);
  }

  lemma ScalarIsRead(v: Value, rest: string)
    requires !HasFloat(v) && !v.Array? && !v.Object?
    requires EndsNumber(rest)
    ensures ParseValue(Text(v) + rest) == Done(v, rest)
  {
    var s := Text(v) + rest;
    ValueStarts(v);
    assert s[0] == Text(v)[0];
    match v
    case Null =>
      hide ParseNumber, ParseString, ParseElements, ParseMembers;
      assert "null" <= s && s[4..] == rest;
    case Bool(b) =>
      hide ParseNumber, ParseString, ParseElements, ParseMembers;
      if b {
        assert "true" <= s && s[4..] == rest;
      } else {
        assert "false" <= s && s[5..] == rest;
      }
    case Integer(n) =>
      hide ParseNumber, ParseString, ParseElements, ParseMembers;
      DecimalStarts(if n < 0 then -n else n);
      NumberIsRead(n, rest);
    case String(str) =>
      hide ParseNumber, ParseString, ParseElements, ParseMembers, Escaped;
      StringIsRead(str, rest);
  }

  lemma {:induction false} ArrayIsRead(items: seq<Value>, rest: string)
    requires forall i :: 0 <= i < |items| ==> !HasFloat(items[i])
    ensures ParseValue(Text(Array(items)) + rest) == Done(Array(items), rest)
    decreases items, 2
  {
    var s := Text(Array(items)) + rest;
    if items == [] {
      assert s[1..] == [']'] + rest && (([']'] + rest)[1..] == rest);
    } else {
      var t := Text(items[0]) + (ItemsTail(items[1..]) + ([']'] + rest));
      assert s[1..] == t;
      ValueStarts(items[0]);
      assert t[0] == Text(items[0])[0];
      ElementsAreRead(items, rest);
    }
  }

  lemma {:induction false} ObjectIsRead(members: seq<Member>, rest: string)
    requires forall i :: 0 <= i < |members| ==> !HasFloat(members[i].value)
    ensures ParseValue(Text(Object(members)) + rest) == Done(Object(members), rest)
    decreases members, 2
  {
    hide ParseMembers, ParseNumber, ParseString;
    var s := Text(Object(members)) + rest;
    if members == [] {
      assert s[1..] == ['}'] + rest && (['}'] + rest)[1..] == rest;
    } else {
      var t := MemberText(members[0]) + (MembersTail(members[1..]) + (['}'] + rest));
      assert s[1..] == t && t[0] == '"';
      MembersAreRead(members, rest);
    }
  }

  lemma {:induction false} ElementsAreRead(items: seq<Value>, rest: string)
    requires items != [] && forall i :: 0 <= i < |items| ==> !HasFloat(items[i])
    ensures ParseElements(Text(items[0]) + (ItemsTail(items[1..]) + ([']'] + rest))) == Done(items, rest)
    decreases items, 1
  {
    hide ParseValue, Text;
    var more := ItemsTail(items[1..]) + ([']'] + rest);
    if |items| == 1 {
      assert more == [']'] + rest && more[1..] == rest;
      ValueIsRead(items[0], more);
      assert items == [items[0]];
    } else {
      var tail := items[1..];
      var next := Text(tail[0]) + (ItemsTail(tail[1..]) + ([']'] + rest));
      assert more == [','] + next && more[1..] == next;
      ElementsAreRead(tail, rest);
      ValueIsRead(items[0], more);
      assert items == [items[0]] + tail;
    }
  }

  lemma {:induction false} MemberIsRead(m: Member, rest: string)
    requires !HasFloat(m.value)
    requires EndsNumber(rest)
    ensures ParseMember(MemberText(m) + rest) == Done(m, rest)
    decreases m, 0
  {
    var afterKey := [':'] + (Text(m.value) + rest);
    assert MemberText(m) + rest == Quoted(m.key) + afterKey;
    hide ParseString, Quoted, Text, ParseValue, EndsNumber;
    StringIsRead(m.key, afterKey);
    assert afterKey[0] == ':' && afterKey[1..] == Text(m.value) + rest;
    ValueIsRead(m.value, rest);
  }

  lemma {:induction false} MembersAreRead(members: seq<Member>, rest: string)
    requires members != [] && forall i :: 0 <= i < |members| ==> !HasFloat(members[i].value)
    ensures ParseMembers(MemberText(members[0]) + (MembersTail(members[1..]) + (['}'] + rest))) == Done(members, rest)
    decreases members, 1
  {
    hide ParseMember, MemberText;
    var more := MembersTail(members[1..]) + (['}'] + rest);
    if |members| == 1 {
      assert more == ['}'] + rest && more[1..] == rest;
      MemberIsRead(members[0], more);
      assert members == [members[0]];
    } else {
      var tail := members[1..];
      var next := MemberText(tail[0]) + (MembersTail(tail[1..]) + (['}'] + rest));
      assert more == [','] + next && more[1..] == next;
      MembersAreRead(tail, rest);
      MemberIsRead(members[0], more);
      assert members == [members[0]] + tail;
    }
  }
}
