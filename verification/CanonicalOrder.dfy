/** Sorting members loses nothing but their order: two documents have one canonical form iff they denote one value. */
module CanonicalOrder {
  import opened Strings
  import opened CanonicalJson
  import J = Json

  /** The map a list of members stands for; a repeated key keeps its last value. */
  function Lookup(members: seq<Member>): (f: map<string, Value>)
    ensures forall k :: k in f ==> Member(k, f[k]) in members
  {
    if members == [] then map[] else map[members[0].key := members[0].value] + Lookup(members[1..])
  }

  /** The value a document denotes, in which objects are maps. */
  function Denote(v: Value): J.Json {
    match v
    case Null => J.Null
    case Bool(b) => J.Bool(b)
    case Integer(n) => J.Num(n)
    case Float(mantissa, exponent) => J.Real(mantissa, exponent)
    case String(s) => J.Str(s)
    case Array(items) => J.Arr(seq(|items|, i requires 0 <= i < |items| => Denote(items[i])))
    case Object(members) => J.Obj(map k | k in Lookup(members) :: Denote(Lookup(members)[k]))
  }

  function Keys(members: seq<Member>): (r: seq<string>)
    ensures |r| == |members|
  {
    seq(|members|, i requires 0 <= i < |members| => members[i].key)
  }

  // ----- Insertion and sorting -----

  lemma LookupCons(m: Member, rest: seq<Member>)
    ensures Lookup([m] + rest) == map[m.key := m.value] + Lookup(rest)
  {
    assert ([m] + rest)[1..] == rest;
  }

  lemma UpdateLast<K, V>(f: map<K, V>, g: map<K, V>, k: K, v: V)
    ensures f + g[k := v] == (f + g)[k := v]
  {
  }

  lemma {:induction false} LookupLast(members: seq<Member>, last: Member)
    ensures Lookup(members + [last]) == Lookup(members)[last.key := last.value]
  {
    if members == [] {
      LookupCons(last, []);
      assert members + [last] == [last] + [];
    } else {
      hide Lookup;
      var head, rest := members[0], members[1..];
      LookupLast(rest, last);
      LookupCons(head, rest);
      LookupCons(head, rest + [last]);
      assert members == [head] + rest && members + [last] == [head] + (rest + [last]);
      UpdateLast(map[head.key := head.value], Lookup(rest), last.key, last.value);
    }
  }

  lemma {:induction false} InsertStaysSorted(m: Member, sorted: seq<Member>)
    requires Increasing(Keys(sorted))
    ensures Increasing(Keys(InsertMember(m, sorted)))
    decreases |sorted|
  {
    hide Before, Increasing, Keys;
    if sorted == [] {
      IncreasingSingle(m);
    } else if m.key == sorted[0].key {
      IncreasingHead(m, sorted);
    } else if Before(m.key, sorted[0].key) {
      IncreasingCons(m, sorted);
    } else {
      var rest := InsertMember(m, sorted[1..]);
      BeforeIsTotal(m.key, sorted[0].key);
      IncreasingTail(sorted);
      InsertStaysSorted(m, sorted[1..]);
      forall x | x in rest ensures Before(sorted[0].key, x.key) {
        if x != m { AboveHead(sorted, x); }
      }
      IncreasingCons(sorted[0], rest);
    }
  }

  lemma IncreasingSingle(m: Member)
    ensures Increasing(Keys([m]))
  {
  }

  lemma IncreasingHead(m: Member, sorted: seq<Member>)
    requires Increasing(Keys(sorted)) && sorted != [] && m.key == sorted[0].key
    ensures Increasing(Keys([m] + sorted[1..]))
  {
    assert Keys([m] + sorted[1..]) == Keys(sorted);
  }

  lemma UpdateAfter<K, V>(k0: K, v0: V, f: map<K, V>, k: K, v: V)
    requires k != k0
    ensures map[k0 := v0] + f[k := v] == (map[k0 := v0] + f)[k := v]
  {
  }

  lemma UpdateAtHead<K, V>(k: K, v0: V, f: map<K, V>, v: V)
    requires k !in f
    ensures map[k := v] + f == f[k := v] == (map[k := v0] + f)[k := v]
  {
  }

  lemma {:induction false} InsertUpdates(m: Member, sorted: seq<Member>)
    requires Increasing(Keys(sorted))
    ensures Lookup(InsertMember(m, sorted)) == Lookup(sorted)[m.key := m.value]
    decreases |sorted|
  {
    hide Before, Increasing, Keys, Lookup;
    if sorted == [] {
      LookupCons(m, []);
      assert [m] + [] == [m];
    } else {
      var head, rest := sorted[0], sorted[1..];
      LookupCons(head, rest);
      assert sorted == [head] + rest;
      if m.key == head.key {
        LookupAbove(sorted);
        LookupCons(m, rest);
        UpdateAtHead(m.key, head.value, Lookup(rest), m.value);
      } else if Before(m.key, head.key) {
        MissingBelow(m.key, sorted);
        LookupCons(m, sorted);
        UpdateAtHead(m.key, m.value, Lookup(sorted), m.value);
      } else {
        IncreasingTail(sorted);
        InsertUpdates(m, rest);
        LookupCons(head, InsertMember(m, rest));
        UpdateAfter(head.key, head.value, Lookup(rest), m.key, m.value);
      }
    }
  }

  lemma AboveHead(sorted: seq<Member>, x: Member)
    requires Increasing(Keys(sorted)) && sorted != [] && x in sorted[1..]
    ensures Before(sorted[0].key, x.key)
  {
    var p :| 0 <= p < |sorted| - 1 && sorted[1..][p] == x;
    assert Keys(sorted)[0] == sorted[0].key && Keys(sorted)[p + 1] == x.key;
  }

  lemma IncreasingCons(m: Member, sorted: seq<Member>)
    requires Increasing(Keys(sorted))
    requires (sorted != [] && Before(m.key, sorted[0].key)) || forall x :: x in sorted ==> Before(m.key, x.key)
    ensures Increasing(Keys([m] + sorted))
  {
    var r := Keys([m] + sorted);
    assert r == [m.key] + Keys(sorted);
    forall j | 0 < j < |r| ensures Before(m.key, r[j]) {
      assert r[j] == sorted[j - 1].key == Keys(sorted)[j - 1];
      if j > 1 && Before(m.key, sorted[0].key) {
        assert Keys(sorted)[0] == sorted[0].key;
        BeforeIsTransitive(m.key, sorted[0].key, r[j]);
      }
    }
  }

  lemma IncreasingTail(sorted: seq<Member>)
    requires Increasing(Keys(sorted)) && sorted != []
    ensures Increasing(Keys(sorted[1..]))
  {
    assert Keys(sorted[1..]) == Keys(sorted)[1..];
  }

  /** The first key of a sorted list does not occur again. */
  lemma LookupAbove(sorted: seq<Member>)
    requires Increasing(Keys(sorted)) && sorted != []
    ensures sorted[0].key !in Lookup(sorted[1..])
  {
    var rest := sorted[1..];
    if sorted[0].key in Lookup(rest) {
      var i :| 0 <= i < |rest| && rest[i].key == sorted[0].key;
      assert Keys(sorted)[i + 1] == Keys(sorted)[0];
      BeforeIsAsymmetric(Keys(sorted)[0], Keys(sorted)[i + 1]);
    }
  }

  lemma {:induction false} MissingBelow(k: string, sorted: seq<Member>)
    requires Increasing(Keys(sorted)) && sorted != [] && Before(k, sorted[0].key)
    ensures k !in Lookup(sorted)
  {
    if k in Lookup(sorted) {
      var i :| 0 <= i < |sorted| && sorted[i].key == k;
      assert Keys(sorted)[i] == k && Keys(sorted)[0] == sorted[0].key;
      BeforeIsAsymmetric(k, sorted[0].key);
    }
  }

  lemma {:induction false} SortKeepsLookup(members: seq<Member>)
    ensures Increasing(Keys(SortMembers(members)))
    ensures Lookup(SortMembers(members)) == Lookup(members)
  {
    if members != [] {
      var n := |members| - 1;
      SortKeepsLookup(members[..n]);
      InsertStaysSorted(members[n], SortMembers(members[..n]));
      InsertUpdates(members[n], SortMembers(members[..n]));
      LookupLast(members[..n], members[n]);
      assert members == members[..n] + [members[n]];
    }
  }

  // ----- Sorted lists are determined by their map -----

  lemma {:induction false} SortedLookup(sorted: seq<Member>, i: nat)
    requires Increasing(Keys(sorted)) && i < |sorted|
    ensures sorted[i].key in Lookup(sorted) && Lookup(sorted)[sorted[i].key] == sorted[i].value
  {
    LookupAbove(sorted);
    if i > 0 {
      IncreasingTail(sorted);
      SortedLookup(sorted[1..], i - 1);
    }
  }

  lemma {:induction false} LookupKeys(sorted: seq<Member>, k: string)
    requires Increasing(Keys(sorted))
    ensures k in Lookup(sorted) <==> k in Keys(sorted)
  {
    if k in Lookup(sorted) {
      var i :| 0 <= i < |sorted| && sorted[i].key == k;
      assert Keys(sorted)[i] == k;
    }
    if k in Keys(sorted) {
      var i :| 0 <= i < |sorted| && Keys(sorted)[i] == k;
      SortedLookup(sorted, i);
    }
  }

  lemma SortedIsDetermined(a: seq<Member>, b: seq<Member>)
    requires Increasing(Keys(a)) && Increasing(Keys(b))
    requires Lookup(a) == Lookup(b)
    ensures a == b
  {
    forall k ensures k in Keys(a) <==> k in Keys(b) {
      LookupKeys(a, k);
      LookupKeys(b, k);
    }
    IncreasingIsUnique(Keys(a), Keys(b));
    assert |a| == |b| by { assert |Keys(a)| == |Keys(b)|; }
    forall i | 0 <= i < |a| ensures a[i] == b[i] {
      assert a[i].key == Keys(a)[i] == Keys(b)[i] == b[i].key;
      SortedLookup(a, i);
      SortedLookup(b, i);
    }
  }

  // ----- Canonical forms -----

  lemma {:induction false} CanonLookup(members: seq<Member>)
    ensures Lookup(CanonMembers(members)).Keys == Lookup(members).Keys
    ensures forall k :: k in Lookup(members) ==> Lookup(CanonMembers(members))[k] == Canon(Lookup(members)[k])
  {
    if members != [] {
      CanonLookup(members[1..]);
      assert CanonMembers(members)[1..] == CanonMembers(members[1..]);
    }
  }

  /** The members of a canonical object: increasing keys over the canonical values. */
  lemma CanonObjectLookup(members: seq<Member>)
    ensures Increasing(Keys(CanonObject(members)))
    ensures Lookup(CanonObject(members)).Keys == Lookup(members).Keys
    ensures forall k :: k in Lookup(members) ==> Lookup(CanonObject(members))[k] == Canon(Lookup(members)[k])
  {
    SortKeepsLookup(CanonMembers(members));
    CanonLookup(members);
  }

  lemma {:induction false} CanonKeepsMeaning(v: Value)
    ensures Denote(Canon(v)) == Denote(v)
  {
    match v
    case Array(items) =>
      forall i | 0 <= i < |items| ensures Denote(CanonItems(items)[i]) == Denote(items[i]) {
        CanonKeepsMeaning(items[i]);
      }
    case Object(members) =>
      forall k | k in Lookup(members) ensures Denote(Canon(Lookup(members)[k])) == Denote(Lookup(members)[k]) {
        assert Member(k, Lookup(members)[k]) in members;
        CanonKeepsMeaning(Lookup(members)[k]);
      }
      ObjectMeaning(members);
    case _ =>
  }

  lemma ObjectMeaning(members: seq<Member>)
    requires forall k :: k in Lookup(members) ==> Denote(Canon(Lookup(members)[k])) == Denote(Lookup(members)[k])
    ensures Denote(Object(CanonObject(members))) == Denote(Object(members))
  {
    hide CanonObject, Lookup, Canon, Increasing, Keys;
    CanonObjectLookup(members);
    assert Denote(Object(CanonObject(members))).fields == Denote(Object(members)).fields;
  }

  lemma {:induction false} MeaningFixesCanon(a: Value, b: Value)
    requires Denote(a) == Denote(b)
    ensures Canon(a) == Canon(b)
    decreases a
  {
    match a
    case Array(items) =>
      assert |items| == |Denote(a).items| == |b.items|;
      forall i | 0 <= i < |items| ensures CanonItems(items)[i] == CanonItems(b.items)[i] {
        assert Denote(items[i]) == Denote(a).items[i] == Denote(b).items[i] == Denote(b.items[i]);
        MeaningFixesCanon(items[i], b.items[i]);
      }
    case Object(members) =>
      var f, g := Lookup(members), Lookup(b.members);
      assert f.Keys == Denote(a).fields.Keys == Denote(b).fields.Keys == g.Keys;
      forall k | k in f ensures Canon(f[k]) == Canon(g[k]) {
        assert Member(k, f[k]) in members;
        assert Denote(f[k]) == Denote(a).fields[k] == Denote(b).fields[k] == Denote(g[k]);
        MeaningFixesCanon(f[k], g[k]);
      }
      SameObject(members, b.members);
    case _ =>
  }

  lemma {:induction false} SameObject(a: seq<Member>, b: seq<Member>)
    requires Lookup(a).Keys == Lookup(b).Keys
    requires forall k :: k in Lookup(a) ==> Canon(Lookup(a)[k]) == Canon(Lookup(b)[k])
    ensures Canon(Object(a)) == Canon(Object(b))
  {
    hide CanonObject;
    var ca, cb := CanonObject(a), CanonObject(b);
    CanonObjectLookup(a);
    CanonObjectLookup(b);
    assert Lookup(ca) == Lookup(cb);
    SortedIsDetermined(ca, cb);
  }

  lemma {:induction false} CanonKeepsFloats(v: Value)
    requires !HasFloat(v)
    ensures !HasFloat(Canon(v))
  {
    match v
    case Array(items) =>
      forall i | 0 <= i < |items| ensures !HasFloat(CanonItems(items)[i]) {
        CanonKeepsFloats(items[i]);
      }
    case Object(members) =>
      var sorted := SortMembers(CanonMembers(members));
      forall i | 0 <= i < |sorted| ensures !HasFloat(sorted[i].value) {
        assert sorted[i] in CanonMembers(members);
        var j :| 0 <= j < |members| && CanonMembers(members)[j] == sorted[i];
        CanonKeepsFloats(members[j].value);
      }
    case _ =>
  }
}
