/** Layered merge of JSON objects: `_deep_merge` in Python, `deep_merge` in Rust, and the laws both obey. */
module DeepMerge {
  import opened Json

  /** Objects merge key by key; anything else is replaced by the overlay. */
  function Merge(base: Json, overlay: Json): Json
    decreases overlay
  {
    if base.Obj? && overlay.Obj? then
      Obj(map k | k in base.fields.Keys + overlay.fields.Keys ::
        if k !in overlay.fields then base.fields[k]
        else if k !in base.fields then overlay.fields[k]
        else Merge(base.fields[k], overlay.fields[k]))
    else overlay
  }

  const EMPTY := Obj(map[])

  // ----- Laws -----

  lemma {:induction false} EmptyIsIdentity(a: Json)
    requires a.Obj?
    ensures Merge(EMPTY, a) == a == Merge(a, EMPTY)
  {
    assert Merge(EMPTY, a).fields == a.fields;
    assert Merge(a, EMPTY).fields == a.fields;
  }

  lemma {:induction false} MergeIsIdempotent(a: Json)
    ensures Merge(a, a) == a
  {
    if a.Obj? {
      forall k | k in a.fields ensures Merge(a.fields[k], a.fields[k]) == a.fields[k] {
        MergeIsIdempotent(a.fields[k]);
      }
      assert Merge(a, a).fields == a.fields;
    }
  }

  /** `overlay` leaves no trace of `base`: wherever both are objects, it has every key `base` has. */
  predicate Absorbs(overlay: Json, base: Json) {
    base.Obj? && overlay.Obj? ==>
      forall k :: k in base.fields ==> k in overlay.fields && Absorbs(overlay.fields[k], base.fields[k])
  }

  lemma {:induction false} AbsorbsExactly(overlay: Json, base: Json)
    ensures Absorbs(overlay, base) <==> Merge(base, overlay) == overlay
    decreases overlay
  {
    if base.Obj? && overlay.Obj? {
      forall k | k in base.fields && k in overlay.fields
        ensures Absorbs(overlay.fields[k], base.fields[k]) <==>
          Merge(base.fields[k], overlay.fields[k]) == overlay.fields[k]
      {
        AbsorbsExactly(overlay.fields[k], base.fields[k]);
      }
      var m := Merge(base, overlay);
      if Absorbs(overlay, base) {
        assert m.fields == overlay.fields;
      }
      if m == overlay {
        forall k | k in base.fields ensures k in overlay.fields && Absorbs(overlay.fields[k], base.fields[k]) {
          assert k in m.fields;
          assert m.fields[k] == Merge(base.fields[k], overlay.fields[k]);
        }
      }
    }
  }

  /** Merging the same overlay twice changes nothing more. */
  lemma {:induction false} MergeAbsorbsOverlay(a: Json, b: Json)
    ensures Merge(Merge(a, b), b) == Merge(a, b)
    decreases b
  {
    if a.Obj? && b.Obj? {
      var m := Merge(a, b);
      forall k | k in b.fields ensures Merge(m.fields[k], b.fields[k]) == m.fields[k] {
        if k in a.fields {
          MergeAbsorbsOverlay(a.fields[k], b.fields[k]);
        } else {
          MergeIsIdempotent(b.fields[k]);
        }
      }
      assert Merge(m, b).fields == m.fields;
    } else {
      MergeIsIdempotent(b);
    }
  }

  /**
   * No object of `a` is replaced by a non-object of `b` that an object of `c` replaces in turn,
   * unless that object of `c` absorbs the one of `a` anyway.
   */
  predicate KeepsObjects(a: Json, b: Json, c: Json) {
    a.Obj? && c.Obj? ==>
      if b.Obj? then
        forall k :: k in a.fields && k in b.fields && k in c.fields ==>
          KeepsObjects(a.fields[k], b.fields[k], c.fields[k])
      else Absorbs(c, a)
  }

  /** Merge is associative exactly there. */
  lemma {:induction false} AssociativeExactly(a: Json, b: Json, c: Json)
    ensures KeepsObjects(a, b, c) <==> Merge(Merge(a, b), c) == Merge(a, Merge(b, c))
    decreases c
  {
    if a.Obj? && b.Obj? && c.Obj? {
      forall k | k in a.fields && k in b.fields && k in c.fields
        ensures KeepsObjects(a.fields[k], b.fields[k], c.fields[k]) <==>
          AtKey(Merge(Merge(a, b), c), k) == AtKey(Merge(a, Merge(b, c)), k)
      {
        AssociativeExactly(a.fields[k], b.fields[k], c.fields[k]);
      }
      AssociativeByKey(a, b, c);
    } else if a.Obj? && c.Obj? {
      AbsorbsExactly(c, a);
    }
  }

  function AtKey(v: Json, k: string): Json
    requires v.Obj? && k in v.fields
  {
    v.fields[k]
  }

  lemma AssociativeByKey(a: Json, b: Json, c: Json)
    requires a.Obj? && b.Obj? && c.Obj?
    requires forall k :: k in a.fields && k in b.fields && k in c.fields ==>
      (KeepsObjects(a.fields[k], b.fields[k], c.fields[k]) <==>
       AtKey(Merge(Merge(a, b), c), k) == AtKey(Merge(a, Merge(b, c)), k))
    ensures KeepsObjects(a, b, c) <==> Merge(Merge(a, b), c) == Merge(a, Merge(b, c))
  {
    var left, right := Merge(Merge(a, b), c), Merge(a, Merge(b, c));
    assert left.fields.Keys == right.fields.Keys;
    forall k | k in left.fields && !(k in a.fields && k in b.fields && k in c.fields)
      ensures AtKey(left, k) == AtKey(right, k)
    {
    }
    if KeepsObjects(a, b, c) {
      assert left.fields == right.fields;
    }
  }

  /** A non-empty object under a scalar under an empty object: one order uncovers it, the other does not. */
  lemma AssociativityFails(k: string, inner: map<string, Json>, scalar: Json)
    requires inner != map[] && !scalar.Obj?
    ensures
      var a, b, c := Obj(map[k := Obj(inner)]), Obj(map[k := scalar]), Obj(map[k := EMPTY]);
      Merge(Merge(a, b), c) != Merge(a, Merge(b, c))
  {
    var a, b, c := Obj(map[k := Obj(inner)]), Obj(map[k := scalar]), Obj(map[k := EMPTY]);
    assert !Absorbs(EMPTY, Obj(inner)) by {
      var x :| x in inner;
      assert x in Obj(inner).fields && x !in EMPTY.fields;
    }
    assert k in a.fields && k in b.fields && k in c.fields;
    assert !KeepsObjects(a.fields[k], b.fields[k], c.fields[k]);
    AssociativeExactly(a, b, c);
  }

  // ----- Paths -----

  function At(v: Json, path: seq<string>): (r: Json)
    requires Has(v, path)
    decreases |path|
  {
    if path == [] then v else At(v.fields[path[0]], path[1..])
  }

  predicate Has(v: Json, path: seq<string>)
    decreases |path|
  {
    path == [] || (v.Obj? && path[0] in v.fields && Has(v.fields[path[0]], path[1..]))
  }

  /** A leaf of the overlay is found at its path in the merge, whatever the base was. */
  lemma {:induction false} OverlayLeafWins(base: Json, overlay: Json, path: seq<string>)
    requires Has(overlay, path) && !At(overlay, path).Obj?
    ensures Has(Merge(base, overlay), path) && At(Merge(base, overlay), path) == At(overlay, path)
    decreases |path|
  {
    if path != [] && base.Obj? && path[0] in base.fields {
      OverlayLeafWins(base.fields[path[0]], overlay.fields[path[0]], path[1..]);
    }
  }

  /** The overlay is an object, or absent, all along the path, and does not have its end. */
  predicate Spares(overlay: Json, path: seq<string>)
    decreases |path|
  {
    path != [] && overlay.Obj? && (path[0] in overlay.fields ==> Spares(overlay.fields[path[0]], path[1..]))
  }

  /** What an overlay does not mention stays. */
  lemma {:induction false} SparedPathStays(base: Json, overlay: Json, path: seq<string>)
    requires Has(base, path) && Spares(overlay, path)
    ensures Has(Merge(base, overlay), path) && At(Merge(base, overlay), path) == At(base, path)
    decreases |path|
  {
    if path[0] in overlay.fields {
      SparedPathStays(base.fields[path[0]], overlay.fields[path[0]], path[1..]);
    }
  }

  // ----- noe/context_manager.py -----

  /** The fields while some of the overlay's items are still to come. */
  ghost predicate PartlyMerged(result: map<string, Json>, base: Json, overlay: Json, pending: set<string>)
    requires base.Obj? && overlay.Obj?
  {
    && result.Keys == base.fields.Keys + (overlay.fields.Keys - pending)
    && (forall k :: k in result && k in pending ==> k in base.fields && result[k] == base.fields[k])
    && (forall k :: k in result && k !in pending ==> result[k] == Merge(base, overlay).fields[k])
  }

  /** One item of the overlay. */
  lemma ItemMerges(result: map<string, Json>, base: Json, overlay: Json, pending: set<string>, k: string)
    requires base.Obj? && overlay.Obj? && pending <= overlay.fields.Keys && k in pending
    requires PartlyMerged(result, base, overlay, pending)
    ensures PartlyMerged(
      result[k := if k in result then Merge(result[k], overlay.fields[k]) else overlay.fields[k]],
      base, overlay, pending - {k})
  {
    var m := Merge(base, overlay).fields;
    assert k in m && m[k] == if k in result then Merge(result[k], overlay.fields[k]) else overlay.fields[k];
    hide Merge;
  }

  lemma {:induction false} AllMerged(result: map<string, Json>, base: Json, overlay: Json)
    requires base.Obj? && overlay.Obj? && PartlyMerged(result, base, overlay, {})
    ensures Obj(result) == Merge(base, overlay)
  {
    assert result.Keys == Merge(base, overlay).fields.Keys;
    assert result == Merge(base, overlay).fields;
  }

  /** `_deep_merge`: a shallow copy of the base, then the overlay's items one by one. */
  method DeepMerge(base: Json, overlay: Json) returns (r: Json)
    ensures r == Merge(base, overlay)
    decreases overlay
  {
    if !base.Obj? || !overlay.Obj? {
      return overlay;
    }
    hide PartlyMerged;
    var result := base.fields;
    var pending := overlay.fields.Keys;
    NothingMerged(base, overlay);
    while pending != {}
      invariant pending <= overlay.fields.Keys
      invariant PartlyMerged(result, base, overlay, pending)
      decreases |pending|
    {
      var k :| k in pending;
      var v := overlay.fields[k];
      assert v < overlay;
      ItemMerges(result, base, overlay, pending, k);
      if k in result && result[k].Obj? && v.Obj? {
        v := DeepMerge(result[k], v);
      }
      result := result[k := v];
      pending := pending - {k};
    }
    AllMerged(result, base, overlay);
    return Obj(result);
  }

  lemma NothingMerged(base: Json, overlay: Json)
    requires base.Obj? && overlay.Obj?
    ensures PartlyMerged(base.fields, base, overlay, overlay.fields.Keys)
  {
  }

  /** The layers as an evaluation sees them: root, then domain, then local on top. */
  function View(root: Json, domain: Json, local: Json): Json {
    Merge(Merge(Merge(EMPTY, root), domain), local)
  }

  /** What local says at a path stands, then what domain says where local is silent, then root where both are. */
  lemma LocalThenDomainThenRoot(root: Json, domain: Json, local: Json, path: seq<string>)
    requires root.Obj?
    ensures Has(local, path) && !At(local, path).Obj? ==>
      Has(View(root, domain, local), path) && At(View(root, domain, local), path) == At(local, path)
    ensures Has(domain, path) && !At(domain, path).Obj? && Spares(local, path) ==>
      Has(View(root, domain, local), path) && At(View(root, domain, local), path) == At(domain, path)
    ensures Has(root, path) && Spares(domain, path) && Spares(local, path) ==>
      Has(View(root, domain, local), path) && At(View(root, domain, local), path) == At(root, path)
  {
    var lower := Merge(Merge(EMPTY, root), domain);
    EmptyIsIdentity(root);
    if Has(local, path) && !At(local, path).Obj? {
      OverlayLeafWins(lower, local, path);
    }
    if Has(domain, path) && !At(domain, path).Obj? && Spares(local, path) {
      OverlayLeafWins(root, domain, path);
      SparedPathStays(lower, local, path);
    }
    if Has(root, path) && Spares(domain, path) && Spares(local, path) {
      SparedPathStays(root, domain, path);
      SparedPathStays(lower, local, path);
    }
  }

  /** Patching the local layer is patching the view, exactly where nothing lower is uncovered. */
  lemma ViewIsIncremental(root: Json, domain: Json, local: Json, delta: Json)
    ensures View(root, domain, Merge(local, delta)) == Merge(View(root, domain, local), delta) <==>
      KeepsObjects(Merge(Merge(EMPTY, root), domain), local, delta)
  {
    AssociativeExactly(Merge(Merge(EMPTY, root), domain), local, delta);
  }

  // ----- rust/noe_core/src/context.rs -----

  /** A `&mut Value`: exclusive access to one place holding a value. */
  class Place {
    var value: Json

    constructor (initial: Json)
      ensures value == initial
    {
      value := initial;
    }
  }

  /** `deep_merge`: updates the base where it is. */
  method DeepMergeInPlace(base: Place, overlay: Json)
    modifies base
    ensures base.value == Merge(old(base.value), overlay)
    decreases overlay
  {
    if !base.value.Obj? || !overlay.Obj? {
      base.value := overlay;
      return;
    }
    hide PartlyMerged;
    ghost var start := base.value;
    var pending := overlay.fields.Keys;
    NothingMerged(start, overlay);
    while pending != {}
      invariant pending <= overlay.fields.Keys
      invariant base.value.Obj? && PartlyMerged(base.value.fields, start, overlay, pending)
      decreases |pending|
    {
      var k :| k in pending;
      var v := overlay.fields[k];
      assert v < overlay;
      ItemMerges(base.value.fields, start, overlay, pending, k);
      var entry := new Place(if k in base.value.fields then base.value.fields[k] else Null);
      if entry.value.Obj? && v.Obj? {
        DeepMergeInPlace(entry, v);
      } else {
        entry.value := v;
      }
      base.value := Obj(base.value.fields[k := entry.value]);
      pending := pending - {k};
    }
    AllMerged(base.value.fields, start, overlay);
  }

  /** The merged layers of `parse_context` are the view of the Python snapshot. */
  method MergedLayers(root: Json, domain: Json, local: Json) returns (merged: Json)
    ensures merged == View(root, domain, local)
  {
    var m := new Place(EMPTY);
    DeepMergeInPlace(m, root);
    DeepMergeInPlace(m, domain);
    DeepMergeInPlace(m, local);
    merged := m.value;
  }
}
