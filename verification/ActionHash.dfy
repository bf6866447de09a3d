/** Action identity (noe/provenance.py): normalization, the pointer-semantics hash, and what the hash binds. */
module ActionHash {
  import opened Json

  type Fields = map<string, Json>

  /** SHA-256 of the canonical bytes, in hex. */
  type Digest = Json -> string

  ghost predicate Injective(digest: Digest) {
    forall x, y :: digest(x) == digest(y) ==> x == y
  }

  // ----- Normalization -----

  const OUTCOME_FLAG := "_include_outcome_in_hash"

  predicate IsOutcome(k: string) {
    k == "status" || k == "verified" || k == "audit_status" || k == "expires_at_ms" || k == "observed_at_ms"
  }

  predicate IsMetadata(k: string) {
    || k == "hash" || k == "meta" || k == "action_hash" || k == "provenance"
    || k == "child_event_hash" || k == "event_hash"
  }

  predicate IsInternal(k: string) {
    k != "" && k[0] == '_'
  }

  predicate IncludesOutcome(f: Fields) {
    OUTCOME_FLAG in f && Truthy(f[OUTCOME_FLAG])
  }

  /** Dropped from the identity of any object with this outcome setting. */
  predicate Ignored(f: Fields, k: string) {
    IsInternal(k) || IsMetadata(k) || (IsOutcome(k) && !IncludesOutcome(f))
  }

  predicate Kept(f: Fields, k: string) {
    k in f && !Ignored(f, k) && !(k == "target" && "child_action_hash" in f)
  }

  /** `_normalize_action` */
  function Normalize(j: Json): Json {
    match j
    case Obj(f) => Obj(map k | k in f && Kept(f, k) :: Normalize(f[k]))
    case Arr(items) => Arr(seq(|items|, i requires 0 <= i < |items| => Normalize(items[i])))
    case _ => j
  }

  predicate HasFloat(j: Json) {
    match j
    case Real(_, _) => true
    case Arr(items) => exists i :: 0 <= i < |items| && HasFloat(items[i])
    case Obj(f) => exists k :: k in f && HasFloat(f[k])
    case _ => false
  }

  // ----- Hashing -----

  predicate IsAction(j: Json) {
    j.Obj? && "type" in j.fields && j.fields["type"] == Str("action")
  }

  predicate Nests(f: Fields) {
    "target" in f && IsAction(f["target"])
  }

  datatype HashResult = Hashed(hash: string, action: Json) | FloatError

  /** `compute_action_hash`: the hash, and the action with the hashes written into it. */
  function Compute(digest: Digest, j: Json): (r: HashResult)
    requires j.Obj?
    ensures r.Hashed? ==> r.action.Obj?
  {
    var f := j.fields;
    var filled :=
      if !Nests(f) then Hashed("", j)
      else if "action_hash" in f["target"].fields then
        Hashed("", Obj(f["child_action_hash" := f["target"].fields["action_hash"]]))
      else
        var child := Compute(digest, f["target"]);
        if child.FloatError? then FloatError else
        var target := Obj(child.action.fields["action_hash" := Str(child.hash)]);
        Hashed("", Obj(f["target" := target]["child_action_hash" := Str(child.hash)]));
    if filled.FloatError? || HasFloat(Normalize(filled.action)) then FloatError
    else Hashed(digest(Normalize(filled.action)), filled.action)
  }

  /** The hash of an action from its content alone: a nested action counts through its own hash. */
  function Identity(digest: Digest, j: Json): string
    requires j.Obj?
  {
    var f := j.fields;
    if Nests(f) then digest(Normalize(Obj(f["child_action_hash" := Str(Identity(digest, f["target"]))])))
    else digest(Normalize(j))
  }

  /** Child pointers only point at the nested action, and hashes already present are the nested action's own. */
  ghost predicate Genuine(digest: Digest, j: Json) {
    && j.Obj?
    && ("child_action_hash" in j.fields ==> Nests(j.fields))
    && (Nests(j.fields) ==>
          && Genuine(digest, j.fields["target"])
          && HashIfPresent(digest, j.fields["target"]))
  }

  ghost predicate HashIfPresent(digest: Digest, j: Json)
    requires j.Obj?
  {
    "action_hash" in j.fields ==> j.fields["action_hash"] == Str(Identity(digest, j))
  }

  // ----- What normalization forgets -----

  lemma SameKept(f: Fields, g: Fields)
    requires forall k :: Kept(f, k) <==> Kept(g, k)
    requires forall k :: Kept(f, k) ==> k in g && f[k] == g[k]
    ensures Normalize(Obj(f)) == Normalize(Obj(g))
  {
    assert Normalize(Obj(f)).fields == Normalize(Obj(g)).fields;
  }

  /** Writing an ignored field (the outcome flag aside) leaves the identity alone. */
  lemma IgnoredFieldIsIrrelevant(digest: Digest, f: Fields, k: string, v: Json)
    requires IsMetadata(k) || (IsOutcome(k) && !IncludesOutcome(f)) || (IsInternal(k) && k != OUTCOME_FLAG)
    ensures Identity(digest, Obj(f[k := v])) == Identity(digest, Obj(f))
  {
    assert k != "target" && k != "child_action_hash" && k != OUTCOME_FLAG;
    var g := f[k := v];
    assert IncludesOutcome(g) == IncludesOutcome(f) && Nests(g) == Nests(f);
    if Nests(f) {
      var h := Str(Identity(digest, f["target"]));
      SameKept(f["child_action_hash" := h], g["child_action_hash" := h]);
    } else {
      SameKept(f, g);
    }
  }

  /** `any(field in action_obj for field in OUTCOME_FIELDS)` */
  predicate HasOutcome(f: Fields) {
    exists k :: k in f && IsOutcome(k)
  }

  /**
   * The outcome flag is the exception among the internal keys: writing it leaves the identity alone exactly when
   * it means what it meant before, or there is no outcome for it to include.
   */
  lemma OutcomeFlagMatters(digest: Digest, f: Fields, v: Json)
    requires Injective(digest)
    ensures Identity(digest, Obj(f[OUTCOME_FLAG := v])) == Identity(digest, Obj(f)) <==>
      Truthy(v) == IncludesOutcome(f) || !HasOutcome(f)
  {
    var g := f[OUTCOME_FLAG := v];
    FlagIsNoPointer();
    assert IncludesOutcome(g) == Truthy(v);
    var p, q := Pointed(digest, f), Pointed(digest, g);
    assert q == p[OUTCOME_FLAG := v];
    hide Truthy, Identity, Normalize, IsOutcome, IsMetadata;
    if Truthy(v) == IncludesOutcome(f) {
      SameKept(p, q);
    } else if HasOutcome(f) {
      var k :| k in f && IsOutcome(k);
      OutcomeIsKept(p, k);
      OutcomeIsKept(q, k);
      KeptIsThere(p, k);
      KeptIsThere(q, k);
    } else {
      assert forall k :: IsOutcome(k) ==> k !in p && k !in q by { OutcomesAreOwn(); }
      SameKept(p, q);
    }
  }

  lemma FlagIsNoPointer()
    ensures OUTCOME_FLAG != "target" && OUTCOME_FLAG != "child_action_hash" && IsInternal(OUTCOME_FLAG)
  {
    assert OUTCOME_FLAG[0] == '_';
  }

  lemma OutcomesAreOwn()
    ensures !IsOutcome(OUTCOME_FLAG) && !IsOutcome("child_action_hash") && !IsOutcome("target")
  {
    assert OUTCOME_FLAG[0] == '_';
  }

  lemma OutcomeIsKept(f: Fields, k: string)
    requires k in f && IsOutcome(k)
    ensures Kept(f, k) <==> IncludesOutcome(f)
  {
  }

  lemma KeptIsThere(f: Fields, k: string)
    ensures k in Normalize(Obj(f)).fields <==> Kept(f, k)
  {
  }

  // ----- compute_action_hash computes the identity -----

  /** Replacing the nested action by one of the same identity, and pointing at it. */
  lemma Retarget(digest: Digest, f: Fields, t: Json)
    requires Nests(f) && IsAction(t) && Identity(digest, t) == Identity(digest, f["target"])
    ensures var g := f["target" := t]["child_action_hash" := Str(Identity(digest, t))];
      && Nests(g)
      && digest(Normalize(Obj(g))) == Identity(digest, Obj(g)) == Identity(digest, Obj(f))
  {
    var h := Str(Identity(digest, t));
    var g := f["target" := t]["child_action_hash" := h];
    assert g["child_action_hash" := h] == g;
    SameKept(f["child_action_hash" := h], g);
  }

  lemma {:induction false} ComputeIsIdentity(digest: Digest, j: Json)
    requires Genuine(digest, j) && Compute(digest, j).Hashed?
    ensures Compute(digest, j).hash == Identity(digest, j)
    ensures Genuine(digest, Compute(digest, j).action)
    ensures Identity(digest, Compute(digest, j).action) == Identity(digest, j)
    ensures Nests(Compute(digest, j).action.fields) == Nests(j.fields)
    ensures Nests(j.fields) ==> PointsAt(Compute(digest, j).action.fields, Identity(digest, j.fields["target"]))
  {
    var f := j.fields;
    if Nests(f) {
      var t := f["target"];
      if "action_hash" in t.fields {
        Retarget(digest, f, t);
        assert f["target" := t] == f;
      } else {
        ComputeIsIdentity(digest, t);
        TypeSurvives(digest, t);
        var child := Compute(digest, t);
        var h := Str(child.hash);
        IgnoredFieldIsIrrelevant(digest, child.action.fields, "action_hash", h);
        StampedIsGenuine(digest, child.action.fields, h);
        Retarget(digest, f, Obj(child.action.fields["action_hash" := h]));
      }
    }
  }

  /** The nested action carries this hash, and so does the pointer to it. */
  predicate PointsAt(f: Fields, h: string) {
    && Nests(f)
    && "action_hash" in f["target"].fields && f["target"].fields["action_hash"] == Str(h)
    && "child_action_hash" in f && f["child_action_hash"] == Str(h)
  }

  lemma StampedIsGenuine(digest: Digest, f: Fields, h: Json)
    requires Genuine(digest, Obj(f))
    ensures Genuine(digest, Obj(f["action_hash" := h]))
  {
    assert Nests(f["action_hash" := h]) == Nests(f);
  }

  lemma TypeSurvives(digest: Digest, j: Json)
    requires j.Obj? && Compute(digest, j).Hashed?
    ensures IsAction(Compute(digest, j).action) == IsAction(j)
  {
  }

  // ----- What the identity binds -----

  /** Equal up to the fields that normalization drops, at every depth. */
  ghost predicate SameData(a: Json, b: Json) {
    match (a, b)
    case (Obj(f), Obj(g)) =>
      && (forall k :: Kept(f, k) <==> Kept(g, k))
      && (forall k :: k in f && Kept(f, k) ==> SameData(f[k], g[k]))
    case (Arr(x), Arr(y)) => |x| == |y| && forall i :: 0 <= i < |x| ==> SameData(x[i], y[i])
    case _ => a == b
  }

  lemma {:induction false} NormalizeBinds(a: Json, b: Json)
    ensures Normalize(a) == Normalize(b) <==> SameData(a, b)
  {
    match (a, b)
    case (Obj(f), Obj(g)) =>
      var m, n := Normalize(a).fields, Normalize(b).fields;
      assert forall k :: k in m <==> Kept(f, k);
      assert forall k :: k in n <==> Kept(g, k);
      forall k | k in f && Kept(f, k) && Kept(g, k) ensures m[k] == n[k] <==> SameData(f[k], g[k]) {
        NormalizeBinds(f[k], g[k]);
      }
      if SameData(a, b) { assert m == n; }
    case (Arr(x), Arr(y)) =>
      var m, n := Normalize(a).items, Normalize(b).items;
      if |x| == |y| {
        forall i | 0 <= i < |x| ensures m[i] == n[i] <==> SameData(x[i], y[i]) {
          NormalizeBinds(x[i], y[i]);
        }
      }
    case _ =>
  }

  /** The fields of an action's own proposal, its nested action aside. */
  predicate InProposal(f: Fields, k: string) {
    k in f && !Ignored(f, k) && k != "child_action_hash" && !(k == "target" && Nests(f))
  }

  /** The same proposals all the way down the chain of nested actions. */
  ghost predicate SameProposal(a: Json, b: Json) {
    && a.Obj? && b.Obj?
    && (forall k :: InProposal(a.fields, k) <==> InProposal(b.fields, k))
    && (forall k :: InProposal(a.fields, k) ==> SameData(a.fields[k], b.fields[k]))
    && (Nests(a.fields) <==> Nests(b.fields))
    && (Nests(a.fields) ==> SameProposal(a.fields["target"], b.fields["target"]))
  }

  /** What is hashed for an action: its fields, with the pointer to the nested action in place of it. */
  ghost function Pointed(digest: Digest, f: Fields): Fields {
    if Nests(f) then f["child_action_hash" := Str(Identity(digest, f["target"]))] else f
  }

  lemma KeptWhenPointed(digest: Digest, j: Json, k: string)
    requires Genuine(digest, j)
    ensures Kept(Pointed(digest, j.fields), k) <==>
      InProposal(j.fields, k) || (k == "child_action_hash" && Nests(j.fields))
    ensures InProposal(j.fields, k) ==> k != "child_action_hash" && Pointed(digest, j.fields)[k] == j.fields[k]
  {
  }

  /** Two genuine actions have one hash iff they make the same proposals down the whole chain. */
  lemma {:induction false} IdentityBindsProposal(digest: Digest, a: Json, b: Json)
    requires Injective(digest) && Genuine(digest, a) && Genuine(digest, b)
    ensures Identity(digest, a) == Identity(digest, b) <==> SameProposal(a, b)
  {
    var f, g := a.fields, b.fields;
    var x, y := Pointed(digest, f), Pointed(digest, g);
    NormalizeBinds(Obj(x), Obj(y));
    assert Identity(digest, a) == digest(Normalize(Obj(x))) && Identity(digest, b) == digest(Normalize(Obj(y)));
    if Nests(f) && Nests(g) {
      IdentityBindsProposal(digest, f["target"], g["target"]);
    }
    SameDataIsSameProposal(digest, a, b);
  }

  lemma {:induction false} SameDataIsSameProposal(digest: Digest, a: Json, b: Json)
    requires Genuine(digest, a) && Genuine(digest, b)
    requires Nests(a.fields) && Nests(b.fields) ==>
      (Identity(digest, a.fields["target"]) == Identity(digest, b.fields["target"]) <==>
       SameProposal(a.fields["target"], b.fields["target"]))
    ensures SameData(Obj(Pointed(digest, a.fields)), Obj(Pointed(digest, b.fields))) <==> SameProposal(a, b)
  {
    var f, g := a.fields, b.fields;
    var x, y := Pointed(digest, f), Pointed(digest, g);
    forall k
      ensures Kept(x, k) <==> InProposal(f, k) || (k == "child_action_hash" && Nests(f))
      ensures Kept(y, k) <==> InProposal(g, k) || (k == "child_action_hash" && Nests(g))
      ensures InProposal(f, k) ==> k != "child_action_hash" && x[k] == f[k]
      ensures InProposal(g, k) ==> k != "child_action_hash" && y[k] == g[k]
    {
      KeptWhenPointed(digest, a, k);
      KeptWhenPointed(digest, b, k);
    }
    ComparePointed(f, g, x, y, "child_action_hash");
  }

  lemma ComparePointed(f: Fields, g: Fields, x: Fields, y: Fields, c: string)
    requires forall k :: Kept(x, k) <==> InProposal(f, k) || (k == c && Nests(f))
    requires forall k :: Kept(y, k) <==> InProposal(g, k) || (k == c && Nests(g))
    requires forall k :: InProposal(f, k) ==> k != c && k in x && x[k] == f[k]
    requires forall k :: InProposal(g, k) ==> k != c && k in y && y[k] == g[k]
    requires Nests(f) && Nests(g) ==>
      c in x && c in y && (SameData(x[c], y[c]) <==> SameProposal(f["target"], g["target"]))
    ensures SameData(Obj(x), Obj(y)) <==> SameProposal(Obj(f), Obj(g))
  {
    hide Ignored;
    if SameData(Obj(x), Obj(y)) {
      assert Kept(x, c) <==> Kept(y, c);
      forall k ensures InProposal(f, k) <==> InProposal(g, k) {
        assert Kept(x, k) <==> Kept(y, k);
      }
      assert SameProposal(Obj(f), Obj(g));
    }
    if SameProposal(Obj(f), Obj(g)) {
      forall k ensures Kept(x, k) <==> Kept(y, k) {
        assert InProposal(f, k) <==> InProposal(g, k);
      }
      forall k | k in x && Kept(x, k) ensures SameData(x[k], y[k]) {
        if k != c { assert InProposal(f, k); }
      }
    }
  }
}
