/** The canonical text, written out: which escapes, which digits, which separators and which order. */
module CanonicalForm {
  import opened Strings
  import opened CanonicalJson
  import opened JsonDecoder
  import opened CanonicalRoundTrip
  import opened CanonicalOrder

  /** An escape of one code unit: four hex digits, the letters in lower case. */
  ghost predicate IsUnicodeEscape(s: string, unit: nat) {
    && |s| == 6 && s[0] == '\\' && s[1] == 'u' && CodeUnit(s[2..]) == unit
    && forall i :: 2 <= i < 6 ==> !('A' <= s[i] <= 'F')
  }

  lemma {:induction false} UnicodeEscapeMeans(n: nat)
    requires n < 0x1_0000
    ensures IsUnicodeEscape(UnicodeEscape(n), n)
  {
    var s := UnicodeEscape(n);
    assert s[..6] == s;
    EscapeIsCodeUnit(n, s);
  }

  /**
   * Quotation mark, backslash and three control characters have short escapes, the rest of ASCII from the blank to DEL
   * stands for itself, and everything else is escaped by its code unit or its two surrogates.
   */
  lemma {:induction false} EscapesMean(c: char)
    ensures
      var e, code := EscapeChar(c), c as int;
      && (c == '"' || c == '\\' ==> e == ['\\', c])
      && (c == '\n' ==> e == ['\\', 'n']) && (c == '\r' ==> e == ['\\', 'r']) && (c == '\t' ==> e == ['\\', 't'])
      && (0x20 <= code <= 0x7F && c != '"' && c != '\\' ==> e == [c])
      && ((code < 0x20 && c != '\n' && c != '\r' && c != '\t') || 0x7F < code <= 0xFFFF ==> IsUnicodeEscape(e, code))
      && (0xFFFF < code ==>
            && |e| == 12
            && IsUnicodeEscape(e[..6], 0xD800 + (code - 0x1_0000) / 0x400)
            && IsUnicodeEscape(e[6..], 0xDC00 + (code - 0x1_0000) % 0x400))
  {
    var code := c as int;
    hide UnicodeEscape, IsUnicodeEscape;
    if code < 0x20 || 0x7F < code <= 0xFFFF {
      UnicodeEscapeMeans(code);
    }
    if 0xFFFF < code {
      var high, low := 0xD800 + (code - 0x1_0000) / 0x400, 0xDC00 + (code - 0x1_0000) % 0x400;
      UnicodeEscapeMeans(high);
      UnicodeEscapeMeans(low);
      UnicodeLength(high);
      UnicodeLength(low);
      assert EscapeChar(c)[..6] == UnicodeEscape(high) && EscapeChar(c)[6..] == UnicodeEscape(low);
    }
  }

  lemma UnicodeLength(n: nat)
    requires n < 0x1_0000
    ensures |UnicodeEscape(n)| == 6
  {
  }

  /** An integer has a sign exactly if it is negative, no leading zero, and nothing but digits. */
  lemma DecimalMeans(n: int)
    ensures Decimal(n) != []
    ensures Decimal(n)[0] == '-' <==> n < 0
    ensures
      var digits := if n < 0 then Decimal(n)[1..] else Decimal(n);
      && digits != [] && (digits[0] == '0' ==> digits == "0" && n == 0)
      && forall i :: 0 <= i < |digits| ==> '0' <= digits[i] <= '9'
  {
    DigitsMean(if n < 0 then -n else n);
  }

  lemma {:induction false} DigitsMean(n: nat)
    ensures DecimalNat(n)[0] == '0' ==> DecimalNat(n) == "0" && n == 0
    ensures forall i :: 0 <= i < |DecimalNat(n)| ==> '0' <= DecimalNat(n)[i] <= '9'
  {
    if n >= 10 {
      DigitsMean(n / 10);
    }
  }

  function Joined(parts: seq<string>): string {
    if parts == [] then "" else if |parts| == 1 then parts[0] else parts[0] + "," + Joined(parts[1..])
  }

  function ItemTexts(items: seq<Value>): seq<string>
    requires forall i :: 0 <= i < |items| ==> !HasFloat(items[i])
  {
    seq(|items|, i requires 0 <= i < |items| => Text(items[i]))
  }

  function MemberTexts(members: seq<Member>): seq<string>
    requires forall i :: 0 <= i < |members| ==> !HasFloat(members[i].value)
  {
    seq(|members|, i requires 0 <= i < |members| => Quoted(members[i].key) + ":" + Text(members[i].value))
  }

  lemma JoinedCons(first: string, rest: seq<string>)
    ensures Joined([first] + rest) == if rest == [] then first else first + "," + Joined(rest)
  {
    assert ([first] + rest)[1..] == rest;
  }

  lemma Appended(a: string, b: string, tail: string)
    ensures a + ([','] + b + tail) == a + "," + (b + tail)
  {
  }

  lemma {:induction false} ItemsAreJoined(item: Value, rest: seq<Value>)
    requires !HasFloat(item) && forall i :: 0 <= i < |rest| ==> !HasFloat(rest[i])
    ensures Text(item) + ItemsTail(rest) == Joined([Text(item)] + ItemTexts(rest))
    decreases |rest|
  {
    hide Text, HasFloat, Joined;
    JoinedCons(Text(item), ItemTexts(rest));
    if rest != [] {
      ItemsAreJoined(rest[0], rest[1..]);
      assert ItemTexts(rest) == [Text(rest[0])] + ItemTexts(rest[1..]);
      Appended(Text(item), Text(rest[0]), ItemsTail(rest[1..]));
    }
  }

  lemma {:induction false} MembersAreJoined(m: Member, rest: seq<Member>)
    requires !HasFloat(m.value) && forall i :: 0 <= i < |rest| ==> !HasFloat(rest[i].value)
    ensures MemberText(m) + MembersTail(rest) == Joined([MemberText(m)] + MemberTexts(rest))
    decreases |rest|
  {
    hide Text, Quoted, HasFloat, Joined;
    JoinedCons(MemberText(m), MemberTexts(rest));
    if rest != [] {
      MembersAreJoined(rest[0], rest[1..]);
      assert MemberTexts(rest) == [MemberText(rest[0])] + MemberTexts(rest[1..]);
      Appended(MemberText(m), MemberText(rest[0]), MembersTail(rest[1..]));
    }
  }

  /** Brackets, a comma between items, a colon behind a key, no blanks. */
  lemma ArrayTextMeans(items: seq<Value>)
    requires !HasFloat(Array(items))
    ensures Text(Array(items)) == "[" + Joined(ItemTexts(items)) + "]"
  {
    if items != [] {
      ItemsAreJoined(items[0], items[1..]);
      assert ItemTexts(items) == [Text(items[0])] + ItemTexts(items[1..]);
    }
  }

  lemma ObjectTextMeans(members: seq<Member>)
    requires !HasFloat(Object(members))
    ensures Text(Object(members)) == "{" + Joined(MemberTexts(members)) + "}"
  {
    if members != [] {
      MembersAreJoined(members[0], members[1..]);
      assert MemberTexts(members) == [MemberText(members[0])] + MemberTexts(members[1..]);
    }
  }

  ghost predicate DiffersAt(a: string, b: string, i: nat) {
    i <= |a| && i < |b| && a[..i] == b[..i] && (i == |a| || a[i] < b[i])
  }

  /** The order of keys: at the first difference the smaller code point or the shorter key is before. */
  lemma {:induction false} BeforeMeans(a: string, b: string)
    ensures Before(a, b) <==> exists i: nat :: DiffersAt(a, b, i)
  {
    if a == [] || b == [] || a[0] != b[0] {
      if Before(a, b) { assert DiffersAt(a, b, 0); }
    } else {
      BeforeMeans(a[1..], b[1..]);
      if i: nat :| DiffersAt(a[1..], b[1..], i) {
        assert a[..i + 1] == [a[0]] + a[1..][..i] && b[..i + 1] == [b[0]] + b[1..][..i];
        assert DiffersAt(a, b, i + 1);
      }
      if i: nat :| DiffersAt(a, b, i) {
        assert i > 0;
        assert a[1..][..i - 1] == a[..i][1..] && b[1..][..i - 1] == b[..i][1..];
        assert DiffersAt(a[1..], b[1..], i - 1);
      }
    }
  }

  ghost predicate IsLastMember(members: seq<Member>, i: nat, key: string) {
    i < |members| && members[i].key == key && forall j :: i < j < |members| ==> members[j].key != key
  }

  /** What an object means for a key: the value of the last member with it, and nothing without one. */
  lemma {:induction false} MembersMean(members: seq<Member>, key: string)
    ensures key in Lookup(members) <==> exists i: nat :: IsLastMember(members, i, key)
    ensures forall i: nat :: IsLastMember(members, i, key) ==>
      key in Lookup(members) && Lookup(members)[key] == members[i].value
  {
    if members != [] {
      var n := |members| - 1;
      var earlier, last := members[..n], members[n];
      assert members == earlier + [last];
      LookupLast(earlier, last);
      hide Lookup;
      MembersMean(earlier, key);
      if last.key == key {
        assert IsLastMember(members, n, key);
      } else {
        forall i: nat ensures IsLastMember(members, i, key) <==> IsLastMember(earlier, i, key) {
          EarlierMember(members, i, key);
        }
      }
    }
  }

  lemma EarlierMember(members: seq<Member>, i: nat, key: string)
    requires members != [] && members[|members| - 1].key != key
    ensures IsLastMember(members, i, key) <==> IsLastMember(members[..|members| - 1], i, key)
  {
    var earlier := members[..|members| - 1];
    assert forall j :: 0 <= j < |earlier| ==> earlier[j] == members[j];
  }
}
