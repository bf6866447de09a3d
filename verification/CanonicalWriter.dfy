/**
 * The writer of rust/noe_core/src/hash.rs, statement by statement, and what its output is good
 * for: it can be decoded, it is ASCII, and it commits to the value denoted and to nothing else.
 */
module CanonicalWriter {
  import opened Strings
  import opened CanonicalJson
  import opened JsonDecoder
  import opened CanonicalRoundTrip
  import opened CanonicalOrder

  /** `out: &mut String` */
  class Output {
    var text: string

    constructor ()
      ensures text == []
    {
      text := [];
    }

    method Push(c: char)
      modifies this
      ensures text == old(text) + [c]
    {
      text := text + [c];
    }

    method PushStr(s: string)
      modifies this
      ensures text == old(text) + s
    {
      text := text + s;
    }
  }

  /** Moving one written piece from what is pending to what is out. */
  lemma Moved<T>(done: seq<T>, piece: seq<T>, pending: seq<T>)
    ensures (done + piece) + pending == done + (piece + pending)
  {
  }

  method WriteString(s: string, out: Output)
    modifies out
    ensures out.text == old(out.text) + Quoted(s)
  {
    hide EscapeChar;
    ghost var start := out.text + ['"'];
    out.Push('"');
    for i := 0 to |s|
      invariant out.text + Escaped(s[i..]) == start + Escaped(s)
    {
      assert s[i..][0] == s[i] && s[i..][1..] == s[i + 1..];
      Moved(out.text, EscapeChar(s[i]), Escaped(s[i + 1..]));
      out.PushStr(EscapeChar(s[i]));
    }
    assert Escaped(s[|s|..]) == [];
    assert out.text == start + Escaped(s);
    out.Push('"');
  }

  method WriteNumber(n: int, out: Output)
    requires IsMachineInteger(n)
    modifies out
    ensures out.text == old(out.text) + Decimal(n)
  {
    if -0x8000_0000_0000_0000 <= n < 0x8000_0000_0000_0000 {
      out.PushStr(Decimal(n));
    } else {
      out.PushStr(DecimalNat(n));
    }
  }

  method WriteValue(v: Value, out: Output)
    requires !HasFloat(v)
    modifies out
    ensures !HasFloat(Canon(v))
    ensures out.text == old(out.text) + Text(Canon(v))
    decreases v, 1
  {
    CanonKeepsFloats(v);
    match v {
      case Null => out.PushStr("null");
      case Bool(b) => out.PushStr(if b then "true" else "false");
      case Integer(n) => WriteNumber(n, out);
      case String(s) => WriteString(s, out);
      case Array(items) => WriteArray(items, out);
      case Object(members) => WriteObject(members, out);
    }
  }

  // Each loop below keeps one equation: what is out, then what is pending, is the whole text.

  method WriteArray(items: seq<Value>, out: Output)
    requires forall i :: 0 <= i < |items| ==> !HasFloat(items[i])
    modifies out
    ensures !HasFloat(Canon(Array(items)))
    ensures out.text == old(out.text) + Text(Canon(Array(items)))
    decreases items, 0
  {
    CanonKeepsFloats(Array(items));
    ghost var canon := CanonItems(items);
    ArrayText(canon, out.text);
    hide Text, HasFloat, PendingItems, CanonItems;
    ghost var target := out.text + Text(Array(canon));
    out.Push('[');
    for i := 0 to |items|
      invariant forall j :: 0 <= j < |canon| ==> !HasFloat(canon[j])
      invariant out.text + PendingItems(canon, i) == target
    {
      NextItem(canon, i, out.text);
      if i > 0 {
        out.Push(',');
      }
      WriteValue(items[i], out);
    }
    out.Push(']');
  }

  /** The text of the items from `i` on, with the separators and the bracket still to be written. */
  ghost function PendingItems(items: seq<Value>, i: nat): string
    requires i <= |items| && forall j :: 0 <= j < |items| ==> !HasFloat(items[j])
  {
    (if i == 0 && items != [] then Text(items[0]) + ItemsTail(items[1..]) else ItemsTail(items[i..])) + [']']
  }

  lemma NextItem(items: seq<Value>, i: nat, done: string)
    requires i < |items| && forall j :: 0 <= j < |items| ==> !HasFloat(items[j])
    ensures done + PendingItems(items, i)
      == ((if i == 0 then done else done + [',']) + Text(items[i])) + PendingItems(items, i + 1)
  {
    assert items[i..][1..] == items[i + 1..];
  }

  lemma ArrayText(items: seq<Value>, done: string)
    requires !HasFloat(Array(items))
    ensures done + Text(Array(items)) == (done + ['[']) + PendingItems(items, 0)
    ensures PendingItems(items, |items|) == [']']
  {
  }

  method WriteObject(members: seq<Member>, out: Output)
    requires forall i :: 0 <= i < |members| ==> !HasFloat(members[i].value)
    modifies out
    ensures !HasFloat(Canon(Object(members)))
    ensures out.text == old(out.text) + Text(Canon(Object(members)))
    decreases members, 0
  {
    CanonKeepsFloats(Object(members));
    var sorted := SortMembers(members);
    ghost var canon := CanonObject(members);
    SortCommutes(members);
    ObjectText(canon, out.text);
    hide Text, HasFloat, PendingMembers, Quoted, SortMembers, CanonObject;
    ghost var target := out.text + Text(Object(canon));
    out.Push('{');
    for i := 0 to |sorted|
      invariant forall j :: 0 <= j < |canon| ==> !HasFloat(canon[j].value)
      invariant out.text + PendingMembers(canon, i) == target
    {
      NextMember(canon, i, out.text);
      if i > 0 {
        out.Push(',');
      }
      assert sorted[i] in members;
      WriteMember(sorted[i], out);
    }
    out.Push('}');
  }

  method WriteMember(m: Member, out: Output)
    requires !HasFloat(m.value)
    modifies out
    ensures !HasFloat(Canon(m.value))
    ensures out.text == old(out.text) + MemberText(Member(m.key, Canon(m.value)))
    decreases m, 1
  {
    WriteString(m.key, out);
    out.Push(':');
    WriteValue(m.value, out);
  }

  /** The text of the members from `i` on, with the separators and the brace still to be written. */
  ghost function PendingMembers(members: seq<Member>, i: nat): string
    requires i <= |members| && forall j :: 0 <= j < |members| ==> !HasFloat(members[j].value)
  {
    (if i == 0 && members != [] then MemberText(members[0]) + MembersTail(members[1..])
     else MembersTail(members[i..])) + ['}']
  }

  lemma NextMember(members: seq<Member>, i: nat, done: string)
    requires i < |members| && forall j :: 0 <= j < |members| ==> !HasFloat(members[j].value)
    ensures done + PendingMembers(members, i)
      == ((if i == 0 then done else done + [',']) + MemberText(members[i])) + PendingMembers(members, i + 1)
  {
    assert members[i..][1..] == members[i + 1..];
  }

  lemma ObjectText(members: seq<Member>, done: string)
    requires !HasFloat(Object(members))
    ensures done + Text(Object(members)) == (done + ['{']) + PendingMembers(members, 0)
    ensures PendingMembers(members, |members|) == ['}']
  {
  }

  /** Sorting looks at keys only, so it may be done before or after the values are made canonical. */
  lemma {:induction false} SortCommutes(members: seq<Member>)
    ensures CanonObject(members) == CanonMembers(SortMembers(members))
  {
    if members != [] {
      var n := |members| - 1;
      SortCommutes(members[..n]);
      InsertCommutes(members[n], SortMembers(members[..n]));
      assert CanonMembers(members)[..n] == CanonMembers(members[..n]);
    }
  }

  lemma {:induction false} InsertCommutes(m: Member, sorted: seq<Member>)
    ensures InsertMember(Member(m.key, Canon(m.value)), CanonMembers(sorted)) == CanonMembers(InsertMember(m, sorted))
    decreases |sorted|
  {
    var c := Member(m.key, Canon(m.value));
    if sorted != [] && m.key != sorted[0].key && !Before(m.key, sorted[0].key) {
      InsertCommutes(m, sorted[1..]);
      assert CanonMembers(sorted)[1..] == CanonMembers(sorted[1..]);
      assert InsertMember(m, sorted)[1..] == InsertMember(m, sorted[1..]);
    } else {
      assert InsertMember(c, CanonMembers(sorted)) == CanonMembers(InsertMember(m, sorted));
    }
  }

  /** `check_no_floats` */
  method CheckNoFloats(v: Value) returns (ok: bool)
    ensures ok <==> !HasFloat(v)
  {
    match v {
      case Integer(n) => return -0x8000_0000_0000_0000 <= n < 0x8000_0000_0000_0000 || 0 <= n <= 0xFFFF_FFFF_FFFF_FFFF;
      case Float(_, _) => return false;
      case Array(items) =>
        for i := 0 to |items|
          invariant forall j :: 0 <= j < i ==> !HasFloat(items[j])
        {
          var itemOk := CheckNoFloats(items[i]);
          if !itemOk { return false; }
        }
        return true;
      case Object(members) =>
        for i := 0 to |members|
          invariant forall j :: 0 <= j < i ==> !HasFloat(members[j].value)
        {
          var valueOk := CheckNoFloats(members[i].value);
          if !valueOk { return false; }
        }
        return true;
      case _ => return true;
    }
  }

  /** `canonical_bytes`: an error exactly on values holding a float, else a text that decodes to the value. */
  method CanonicalBytes(v: Value) returns (r: Result<string>)
    ensures r.Err? <==> HasFloat(v)
    ensures r.Ok? ==> r.value == CanonicalText(v)
    ensures r.Ok? ==> Decode(r.value).Done? && Denote(Decode(r.value).value) == Denote(v)
  {
    var ok := CheckNoFloats(v);
    if !ok { return Err(FloatInCanonicalBytes); }
    var out := new Output();
    WriteValue(v, out);
    CanonicalTextDecodes(v);
    return Ok(out.text);
  }

  // ----- What the text commits to -----

  function CanonicalText(v: Value): string
    requires !HasFloat(v)
  {
    CanonKeepsFloats(v);
    Text(Canon(v))
  }

  /** The decoder reads the canonical text back as the canonical document, which denotes the same value. */
  lemma CanonicalTextDecodes(v: Value)
    requires !HasFloat(v)
    ensures Decode(CanonicalText(v)) == Done(Canon(v), [])
    ensures Denote(Canon(v)) == Denote(v)
  {
    CanonKeepsFloats(v);
    CanonKeepsMeaning(v);
    ValueIsRead(Canon(v), []);
    assert CanonicalText(v) + [] == CanonicalText(v);
  }

  /** Equal texts mean equal values; insertion order and repeated keys leave no trace. */
  lemma CanonicalTextIsInjective(a: Value, b: Value)
    requires !HasFloat(a) && !HasFloat(b)
    ensures CanonicalText(a) == CanonicalText(b) <==> Denote(a) == Denote(b)
  {
    CanonicalTextDecodes(a);
    CanonicalTextDecodes(b);
    if Denote(a) == Denote(b) {
      MeaningFixesCanon(a, b);
    }
  }

  // ----- ASCII -----

  ghost predicate Ascii(s: string) {
    forall i :: 0 <= i < |s| ==> s[i] as int < 128
  }

  lemma {:induction false} DecimalIsAscii(n: nat)
    ensures Ascii(DecimalNat(n))
  {
    if n >= 10 { DecimalIsAscii(n / 10); }
  }

  lemma {:induction false} QuotedIsAscii(s: string)
    ensures Ascii(Escaped(s)) && Ascii(Quoted(s))
  {
    if s != [] {
      QuotedIsAscii(s[1..]);
      assert Ascii(EscapeChar(s[0]));
    }
  }

  lemma {:induction false} TextIsAscii(v: Value)
    requires !HasFloat(v)
    ensures Ascii(Text(v))
    decreases v, 0
  {
    match v
    case Integer(n) => DecimalIsAscii(if n < 0 then -n else n);
    case String(s) => QuotedIsAscii(s);
    case Array(items) => ArrayIsAscii(items);
    case Object(members) => ObjectIsAscii(members);
    case _ =>
  }

  lemma {:induction false} ArrayIsAscii(items: seq<Value>)
    requires forall i :: 0 <= i < |items| ==> !HasFloat(items[i])
    ensures Ascii(Text(Array(items)))
    decreases items, 2
  {
    if items != [] {
      TextIsAscii(items[0]);
      ItemsTailIsAscii(items[1..]);
    }
  }

  lemma {:induction false} ObjectIsAscii(members: seq<Member>)
    requires forall i :: 0 <= i < |members| ==> !HasFloat(members[i].value)
    ensures Ascii(Text(Object(members)))
    decreases members, 2
  {
    if members != [] {
      QuotedIsAscii(members[0].key);
      TextIsAscii(members[0].value);
      MembersTailIsAscii(members[1..]);
    }
  }

  lemma {:induction false} ItemsTailIsAscii(items: seq<Value>)
    requires forall i :: 0 <= i < |items| ==> !HasFloat(items[i])
    ensures Ascii(ItemsTail(items))
    decreases items, 1
  {
    if items != [] {
      TextIsAscii(items[0]);
      ItemsTailIsAscii(items[1..]);
    }
  }

  lemma {:induction false} MembersTailIsAscii(members: seq<Member>)
    requires forall i :: 0 <= i < |members| ==> !HasFloat(members[i].value)
    ensures Ascii(MembersTail(members))
    decreases members, 1
  {
    if members != [] {
      QuotedIsAscii(members[0].key);
      TextIsAscii(members[0].value);
      MembersTailIsAscii(members[1..]);
    }
  }
}
