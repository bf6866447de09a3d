/** What action hash and event hash commit to, field by field. */
module Commitments {
  import opened Options
  import opened Json
  import opened ActionHash
  import opened ProposalDag

  // ----- Truth and floats -----

  /** Everything is truthy but these. */
  lemma FalsyValues(j: Json)
    ensures !Truthy(j) <==>
      j in {Null, Bool(false), Num(0), Str(""), Arr([]), Obj(map[])} || (j.Real? && j.mantissa == 0)
  {
  }

  datatype Step = Key(k: string) | Index(i: nat)

  /** What lies at the end of a path into a value. */
  function Follow(j: Json, path: seq<Step>): Option<Json> {
    if path == [] then Some(j)
    else match (path[0], j)
      case (Key(k), Obj(f)) => if k in f then Follow(f[k], path[1..]) else None
      case (Index(i), Arr(items)) => if i < |items| then Follow(items[i], path[1..]) else None
      case _ => None
  }

  predicate FloatAt(j: Json, path: seq<Step>) {
    Follow(j, path).Some? && Follow(j, path).value.Real?
  }

  lemma {:induction false} FloatsAreFound(j: Json)
    ensures HasFloat(j) <==> exists path :: FloatAt(j, path)
  {
    if HasFloat(j) {
      var path := FloatPath(j);
    }
    if path :| FloatAt(j, path) {
      FloatOnPath(j, path);
    }
  }

  lemma {:induction false} FloatPath(j: Json) returns (path: seq<Step>)
    requires HasFloat(j)
    ensures FloatAt(j, path)
  {
    match j
    case Arr(items) =>
      var i :| 0 <= i < |items| && HasFloat(items[i]);
      var rest := FloatPath(items[i]);
      path := [Index(i)] + rest;
      assert path[1..] == rest;
    case Obj(f) =>
      var k :| k in f && HasFloat(f[k]);
      var rest := FloatPath(f[k]);
      path := [Key(k)] + rest;
      assert path[1..] == rest;
    case _ => path := [];
  }

  lemma {:induction false} FloatOnPath(j: Json, path: seq<Step>)
    requires FloatAt(j, path)
    ensures HasFloat(j)
    decreases |path|
  {
    if path != [] {
      match (path[0], j)
      case (Key(k), Obj(f)) => FloatOnPath(f[k], path[1..]);
      case (Index(i), Arr(items)) => FloatOnPath(items[i], path[1..]);
    }
  }

  lemma {:induction false} NormalizeAddsNoFloat(j: Json)
    ensures HasFloat(Normalize(j)) ==> HasFloat(j)
  {
    match j
    case Arr(items) =>
      forall i | 0 <= i < |items| ensures HasFloat(Normalize(items[i])) ==> HasFloat(items[i]) {
        NormalizeAddsNoFloat(items[i]);
      }
    case Obj(f) =>
      forall k | k in f ensures HasFloat(Normalize(f[k])) ==> HasFloat(f[k]) {
        NormalizeAddsNoFloat(f[k]);
      }
    case _ =>
  }

  /** Without a float there is always a hash, and the hashes written in on the way are no floats. */
  lemma {:induction false} FloatFreeIsHashed(digest: Digest, j: Json)
    requires j.Obj? && !HasFloat(j)
    ensures Compute(digest, j).Hashed? && !HasFloat(Compute(digest, j).action)
  {
    var f := j.fields;
    if Nests(f) {
      FloatFreeIsHashed(digest, f["target"]);
      var child := Compute(digest, f["target"]);
      var hash := if "action_hash" in f["target"].fields then f["target"].fields["action_hash"] else Str(child.hash);
      var t := if "action_hash" in f["target"].fields then f["target"]
               else Obj(child.action.fields["action_hash" := hash]);
      assert !HasFloat(t) && !HasFloat(hash);
      var filled := Obj(f["target" := t]["child_action_hash" := hash]);
      assert !HasFloat(filled);
      assert f["target" := f["target"]] == f;
      hide Normalize, HasFloat;
      NormalizeAddsNoFloat(filled);
    } else {
      NormalizeAddsNoFloat(j);
    }
  }

  /** A float anywhere in what a field is hashed as is refused. */
  lemma FloatIsRefused(digest: Digest, j: Json, k: string)
    requires j.Obj? && Kept(j.fields, k) && k != "child_action_hash" && !Nests(j.fields)
    requires HasFloat(Normalize(j.fields[k]))
    ensures Compute(digest, j).FloatError?
  {
    var n := Normalize(j).fields;
    assert k in n && n[k] == Normalize(j.fields[k]);
  }

  lemma {:induction false} FloatFreeHasEntry(digest: Digest, j: Json)
    requires IsProposal(j) && !HasFloat(j)
    ensures Entry(digest, j).Some?
  {
    FloatFreeIsHashed(digest, j);
    var r := Compute(digest, j);
    var f := r.action.fields["action_hash" := Str(r.hash)];
    assert !HasFloat(Obj(f)) && !HasFloat(Obj(f[OUTCOME_FLAG := Bool(true)]));
    hide Compute, HasFloat;
    FloatFreeIsHashed(digest, Obj(f[OUTCOME_FLAG := Bool(true)]));
  }

  /** So a proposal without floats is always entered, under its own hash and with the edge to its nested action. */
  lemma {:induction false} FloatFreeIsEntered(digest: Digest, dag: Dag, j: Json)
    requires Genuine(digest, j) && !HasFloat(j)
    requires IsAction(j) && "verb" in j.fields && "target" in j.fields
    requires j.fields["target"] != Str("undefined")
    requires !(j.fields["target"].Obj? && "domain" in j.fields["target"].fields &&
               j.fields["target"].fields["domain"] == Str("undefined"))
    ensures Entry(digest, j).Some? && Str(Identity(digest, j)) in DagStep(digest, dag, j)
    ensures Nests(j.fields) && Identity(digest, j.fields["target"]) != "" ==>
      Str(Identity(digest, j.fields["target"])) in DagStep(digest, dag, j)[Str(Identity(digest, j))]
  {
    FloatFreeHasEntry(digest, j);
    EntryOfGenuine(digest, j);
    hide Entry, Compute, Identity, ChildEdge, Genuine;
  }

  ghost predicate IsEntered(digest: Digest, actions: seq<Json>, i: nat, n: Json) {
    i < |actions| && Entry(digest, actions[i]).Some? && n == Str(Identity(digest, actions[i]))
  }

  /** Over a run, the nodes of the DAG are the hashes of the actions entered: none is missing, none is made up. */
  lemma {:induction false} RunEntersExactly(digest: Digest, actions: seq<Json>, n: Json)
    requires forall i :: 0 <= i < |actions| ==> Genuine(digest, actions[i])
    ensures n in Run(digest, actions) <==> exists i: nat :: IsEntered(digest, actions, i, n)
  {
    if actions != [] {
      var last := |actions| - 1;
      var before := actions[..last];
      RunEntersExactly(digest, before, n);
      assert Run(digest, actions) == DagStep(digest, Run(digest, before), actions[last]);
      StepEnters(digest, Run(digest, before), actions[last], n);
      hide *;
      EarlierOrLast(digest, actions, n);
    }
  }

  lemma {:induction false} StepEnters(digest: Digest, dag: Dag, j: Json, n: Json)
    requires Genuine(digest, j)
    ensures n in DagStep(digest, dag, j) <==> n in dag || (Entry(digest, j).Some? && n == Str(Identity(digest, j)))
  {
    if Entry(digest, j).Some? { EntryOfGenuine(digest, j); }
    hide Entry, Identity, Genuine, ChildEdge;
  }

  lemma EarlierOrLast(digest: Digest, actions: seq<Json>, n: Json)
    requires actions != [] && forall i :: 0 <= i < |actions| ==> Genuine(digest, actions[i])
    ensures
      var last := |actions| - 1;
      (exists i: nat :: IsEntered(digest, actions, i, n)) <==>
        || (exists i: nat :: IsEntered(digest, actions[..last], i, n))
        || (Entry(digest, actions[last]).Some? && n == Str(Identity(digest, actions[last])))
  {
    hide Entry, Identity, Genuine;
    var last := |actions| - 1;
    if i: nat :| IsEntered(digest, actions, i, n) {
      if i < last { assert IsEntered(digest, actions[..last], i, n); }
    }
    if i: nat :| IsEntered(digest, actions[..last], i, n) {
      assert IsEntered(digest, actions, i, n);
    }
    if Entry(digest, actions[last]).Some? && n == Str(Identity(digest, actions[last])) {
      assert IsEntered(digest, actions, last, n);
    }
  }

  // ----- The action hash -----

  lemma OneFieldApart(f: Fields, k: string, v: Json)
    requires forall x :: x != k ==> (Kept(f, x) <==> Kept(f[k := v], x))
    ensures Normalize(Obj(f[k := v])) == Normalize(Obj(f)) <==>
      (Kept(f, k) <==> Kept(f[k := v], k)) && (Kept(f, k) ==> SameData(f[k], v))
  {
    var g := f[k := v];
    NormalizeBinds(Obj(g), Obj(f));
    SameDataIsSymmetric(Obj(g), Obj(f));
    hide Normalize, Ignored;
    forall x | x in f && x != k ensures SameData(f[x], g[x]) {
      SameDataIsReflexive(f[x]);
    }
  }

  lemma SameDataIsReflexive(a: Json)
    ensures SameData(a, a)
  {
    NormalizeBinds(a, a);
  }

  lemma SameDataIsSymmetric(a: Json, b: Json)
    ensures SameData(a, b) <==> SameData(b, a)
  {
    NormalizeBinds(a, b);
    NormalizeBinds(b, a);
  }

  /**
   * Writing a field leaves the action hash alone exactly when it is an underscore key, one of the six metadata keys,
   * an outcome that is not asked for, or the pointer beside a nested action, or when the field already held the same.
   */
  lemma FieldCounts(digest: Digest, f: Fields, k: string, v: Json)
    requires Injective(digest) && k != "target" && k != "_include_outcome_in_hash"
    ensures Identity(digest, Obj(f[k := v])) == Identity(digest, Obj(f)) <==>
      || (k != "" && k[0] == '_')
      || k in {"hash", "meta", "action_hash", "provenance", "child_event_hash", "event_hash"}
      || (k in {"status", "verified", "audit_status", "expires_at_ms", "observed_at_ms"} &&
          !("_include_outcome_in_hash" in f && Truthy(f["_include_outcome_in_hash"])))
      || (k == "child_action_hash" && "target" in f && IsAction(f["target"]))
      || (k in f && SameData(f[k], v))
  {
    var g := f[k := v];
    var p, q := Pointed(digest, f), Pointed(digest, g);
    assert Identity(digest, Obj(f)) == digest(Normalize(Obj(p)));
    assert Identity(digest, Obj(g)) == digest(Normalize(Obj(q)));
    hide Identity, Normalize, SameData, Ignored;
    if k == "child_action_hash" && Nests(f) {
      assert q == p;
    } else {
      assert q == p[k := v];
      assert IncludesOutcome(p) == IncludesOutcome(f) by { FlagIsNoPointer(); }
      if k == "child_action_hash" && k !in f {
        PointerIsKept(p, q);
      } else {
        assert k in p ==> k in f && p[k] == f[k];
        PlainFieldCounts(p, k, v);
      }
    }
  }

  lemma {:induction false} PlainFieldCounts(p: Fields, k: string, v: Json)
    requires k != "target" && k != "_include_outcome_in_hash" && (k == "child_action_hash" ==> k in p)
    ensures Normalize(Obj(p[k := v])) == Normalize(Obj(p)) <==>
      || (k != "" && k[0] == '_')
      || k in {"hash", "meta", "action_hash", "provenance", "child_event_hash", "event_hash"}
      || (k in {"status", "verified", "audit_status", "expires_at_ms", "observed_at_ms"} && !IncludesOutcome(p))
      || (k in p && SameData(p[k], v))
  {
    OthersStay(p, k, v);
    KeptByName(p, k);
    KeptByName(p[k := v], k);
    hide Normalize, SameData, Ignored, Kept;
    OneFieldApart(p, k, v);
  }

  lemma PointerIsKept(p: Fields, q: Fields)
    requires "child_action_hash" !in p && "child_action_hash" in q
    ensures Normalize(Obj(p)) != Normalize(Obj(q))
  {
    KeptIsThere(p, "child_action_hash");
    KeptIsThere(q, "child_action_hash");
  }

  /** Which fields of an object count, by name. */
  lemma KeptByName(f: Fields, k: string)
    ensures Kept(f, k) <==>
      && k in f
      && (k == "" || k[0] != '_')
      && k !in {"hash", "meta", "action_hash", "provenance", "child_event_hash", "event_hash"}
      && (k in {"status", "verified", "audit_status", "expires_at_ms", "observed_at_ms"} ==>
            "_include_outcome_in_hash" in f && Truthy(f["_include_outcome_in_hash"]))
      && (k == "target" ==> "child_action_hash" !in f)
  {
  }

  lemma OthersStay(f: Fields, k: string, v: Json)
    requires k != "_include_outcome_in_hash" && (k == "child_action_hash" ==> k in f)
    ensures forall x :: x != k ==> (Kept(f, x) <==> Kept(f[k := v], x))
  {
    var g := f[k := v];
    assert IncludesOutcome(g) == IncludesOutcome(f);
    assert "child_action_hash" in g <==> "child_action_hash" in f;
  }

  /** Writing the target leaves the hash alone exactly when the same is named, or actions of one hash are nested. */
  lemma TargetCounts(digest: Digest, f: Fields, v: Json)
    requires Injective(digest) && "target" in f && "child_action_hash" !in f
    ensures Identity(digest, Obj(f["target" := v])) == Identity(digest, Obj(f)) <==>
      if IsAction(v) && IsAction(f["target"]) then Identity(digest, v) == Identity(digest, f["target"])
      else !IsAction(v) && !IsAction(f["target"]) && SameData(f["target"], v)
  {
    var g := f["target" := v];
    var p, q := Pointed(digest, f), Pointed(digest, g);
    assert Identity(digest, Obj(f)) == digest(Normalize(Obj(p)));
    assert Identity(digest, Obj(g)) == digest(Normalize(Obj(q)));
    if Nests(f) != Nests(g) {
      assert "child_action_hash" in p <==> "child_action_hash" !in q;
      if Nests(g) { PointerIsKept(p, q); } else { PointerIsKept(q, p); }
    } else if Nests(f) {
      PointersBind(p, q, Str(Identity(digest, f["target"])), Str(Identity(digest, v)));
    } else {
      OthersStay(f, "target", v);
      OneFieldApart(f, "target", v);
      KeptByName(f, "target");
      KeptByName(g, "target");
    }
  }

  /** Two objects that differ in their targets only, which their pointers stand for. */
  lemma PointersBind(p: Fields, q: Fields, x: Json, y: Json)
    requires x.Str? && y.Str?
    requires "child_action_hash" in p && p["child_action_hash"] == x
    requires "child_action_hash" in q && q["child_action_hash"] == y
    requires p.Keys == q.Keys && forall k :: k in p && k != "target" && k != "child_action_hash" ==> p[k] == q[k]
    ensures Normalize(Obj(p)) == Normalize(Obj(q)) <==> x == y
  {
    if x == y {
      SameKept(p, q);
    } else {
      KeptByName(p, "child_action_hash");
      KeptByName(q, "child_action_hash");
      assert Normalize(Obj(p)).fields["child_action_hash"] == x;
      assert Normalize(Obj(q)).fields["child_action_hash"] == y;
    }
  }

  /** Equal hashes mean equal fields, down to the dropped ones inside them: the verb, a plain target, any other. */
  lemma {:induction false} HashFixesFields(digest: Digest, a: Json, b: Json, k: string)
    requires Injective(digest) && Genuine(digest, a) && Genuine(digest, b)
    requires Compute(digest, a).Hashed? && Compute(digest, b).Hashed?
    requires Compute(digest, a).hash == Compute(digest, b).hash
    requires (k == "" || k[0] != '_') && k != "child_action_hash"
    requires k !in {"hash", "meta", "action_hash", "provenance", "child_event_hash", "event_hash",
      "status", "verified", "audit_status", "expires_at_ms", "observed_at_ms"}
    requires k == "target" ==> !Nests(a.fields) || !Nests(b.fields)
    ensures k in a.fields <==> k in b.fields
    ensures k in a.fields ==> SameData(a.fields[k], b.fields[k])
  {
    hide Compute, Identity, Genuine, Normalize;
    ComputeIsIdentity(digest, a);
    ComputeIsIdentity(digest, b);
    IdentityBindsProposal(digest, a, b);
    assert InProposal(a.fields, k) <==> InProposal(b.fields, k);
  }

  /** So actions that differ in verb or in the name of their target have different hashes. */
  lemma VerbAndTargetAreBound(digest: Digest, a: Json, b: Json, verb: string, target: string, u: string, t: string)
    requires Injective(digest) && Genuine(digest, a) && Genuine(digest, b)
    requires Compute(digest, a).Hashed? && Compute(digest, b).Hashed?
    requires "verb" in a.fields && a.fields["verb"] == Str(verb) && "verb" in b.fields && b.fields["verb"] == Str(u)
    requires "target" in a.fields && a.fields["target"] == Str(target)
    requires "target" in b.fields && b.fields["target"] == Str(t)
    ensures Compute(digest, a).hash == Compute(digest, b).hash ==> verb == u && target == t
  {
    if Compute(digest, a).hash == Compute(digest, b).hash {
      HashFixesFields(digest, a, b, "verb");
      HashFixesFields(digest, a, b, "target");
    }
  }

  // ----- The event hash -----

  function WithOutcome(j: Json): Json
    requires j.Obj?
  {
    Obj(j.fields[OUTCOME_FLAG := Bool(true)])
  }

  /** The computed action differs from the original in its target and the pointer only. */
  lemma ComputeKeepsFields(digest: Digest, j: Json)
    requires j.Obj? && Compute(digest, j).Hashed?
    ensures
      var f := Compute(digest, j).action.fields;
      && (forall k :: k != "target" && k != "child_action_hash" ==> (k in f <==> k in j.fields))
      && (forall k :: k != "target" && k != "child_action_hash" && k in f ==> f[k] == j.fields[k])
      && (!Nests(j.fields) ==> f == j.fields)
  {
    hide Normalize, HasFloat;
  }

  lemma SamePointed(digest: Digest, f: Fields, g: Fields, k: string, v: Json)
    requires forall x :: x != "target" && x != "child_action_hash" ==> (x in f <==> x in g)
    requires forall x :: x != "target" && x != "child_action_hash" && x in f ==> f[x] == g[x]
    requires Nests(f) && Nests(g) && Identity(digest, f["target"]) == Identity(digest, g["target"])
    requires k != "target" && k != "child_action_hash"
    ensures Identity(digest, Obj(f[k := v])) == Identity(digest, Obj(g[k := v]))
  {
    var p, q := Pointed(digest, f[k := v]), Pointed(digest, g[k := v]);
    assert forall x :: x != "target" ==> (x in p <==> x in q);
    assert forall x :: x != "target" && x in p ==> p[x] == q[x];
    assert Identity(digest, Obj(f[k := v])) == digest(Normalize(Obj(p)));
    assert Identity(digest, Obj(g[k := v])) == digest(Normalize(Obj(q)));
    assert "child_action_hash" in p && "child_action_hash" in q;
    hide Identity, Normalize, Nests, Pointed;
    SameKept(p, q);
  }

  /** Under the outcome flag the computed action is still the original. */
  lemma {:induction false} ComputeUnderFlag(digest: Digest, j: Json)
    requires Genuine(digest, j) && Compute(digest, j).Hashed?
    ensures Identity(digest, WithOutcome(Compute(digest, j).action)) == Identity(digest, WithOutcome(j))
    ensures Genuine(digest, WithOutcome(Compute(digest, j).action))
  {
    var f := Compute(digest, j).action.fields;
    ComputeKeepsFields(digest, j);
    ComputeIsIdentity(digest, j);
    FlagIsNoPointer();
    if Nests(j.fields) {
      assert Identity(digest, f["target"]) == Identity(digest, j.fields["target"]);
      SamePointed(digest, f, j.fields, OUTCOME_FLAG, Bool(true));
    }
    FlaggedIsGenuine(digest, Compute(digest, j).action);
  }

  lemma FlaggedIsGenuine(digest: Digest, j: Json)
    requires Genuine(digest, j)
    ensures Genuine(digest, WithOutcome(j)) && Nests(WithOutcome(j).fields) == Nests(j.fields)
  {
    FlagIsNoPointer();
  }

  /** The event hash is the action's own hash with its outcome among the fields. */
  lemma EventIsIdentity(digest: Digest, j: Json)
    requires Injective(digest) && Genuine(digest, j) && Entry(digest, j).Some?
    ensures
      var (h, f) := Entry(digest, j).value;
      EventHash(digest, f, h) == Some(Identity(digest, WithOutcome(j)))
  {
    var (h, f) := Entry(digest, j).value;
    var a := Compute(digest, j).action;
    assert h == Compute(digest, j).hash && f == a.fields["action_hash" := Str(h)];
    ComputeUnderFlag(digest, j);
    ComputeIsIdentity(digest, j);
    SameOutcomes(digest, j, h);
    hide Compute, Identity, Genuine, Entry, IsOutcome;
    OutcomeFlagMatters(digest, j.fields, Bool(true));
    if HasOutcome(f) {
      EventOfStamped(digest, a, h);
    }
  }

  lemma EventOfStamped(digest: Digest, a: Json, h: string)
    requires a.Obj? && Genuine(digest, WithOutcome(a))
    ensures
      var r := Compute(digest, Obj(a.fields["action_hash" := Str(h)][OUTCOME_FLAG := Bool(true)]));
      r.Hashed? ==> r.hash == Identity(digest, WithOutcome(a))
  {
    var g := WithOutcome(a).fields;
    var f := a.fields["action_hash" := Str(h)][OUTCOME_FLAG := Bool(true)];
    FlagIsNoPointer();
    assert f == g["action_hash" := Str(h)];
    hide Compute, Identity, Genuine;
    IgnoredFieldIsIrrelevant(digest, g, "action_hash", Str(h));
    StampedIsGenuine(digest, g, Str(h));
    if Compute(digest, Obj(f)).Hashed? { ComputeIsIdentity(digest, Obj(f)); }
  }

  lemma SameOutcomes(digest: Digest, j: Json, h: string)
    requires j.Obj? && Compute(digest, j).Hashed?
    ensures HasOutcome(Compute(digest, j).action.fields["action_hash" := Str(h)]) == HasOutcome(j.fields)
  {
    var f := Compute(digest, j).action.fields["action_hash" := Str(h)];
    ComputeKeepsFields(digest, j);
    assert !IsOutcome("action_hash");
    forall k | IsOutcome(k) ensures k in f <==> k in j.fields {
      assert k != "target" && k != "child_action_hash" by { OutcomesAreOwn(); }
    }
  }

  /** The fields of the proposal, by name. */
  lemma InProposalByName(f: Fields, k: string)
    ensures InProposal(f, k) <==>
      && k in f
      && (k == "" || k[0] != '_')
      && k !in {"hash", "meta", "action_hash", "provenance", "child_event_hash", "event_hash", "child_action_hash"}
      && (k in {"status", "verified", "audit_status", "expires_at_ms", "observed_at_ms"} ==>
            "_include_outcome_in_hash" in f && Truthy(f["_include_outcome_in_hash"]))
      && (k == "target" ==> !IsAction(f["target"]))
  {
  }

  ghost predicate SameField(f: Fields, g: Fields, k: string) {
    (k in f <==> k in g) && (k in f ==> SameData(f[k], g[k]))
  }

  lemma {:induction false} EventIsLeft(e: Evaluator, a: Json, x: Fields, now: Option<int>)
    requires Injective(e.digest) && Genuine(e.digest, a) && e.IsLeft(a, x, now)
    ensures "event_hash" in x && x["event_hash"] == Str(Identity(e.digest, WithOutcome(a)))
  {
    EventIsIdentity(e.digest, a);
    hide Compute, Identity, Genuine, Entry, EventHash, IsFinalized;
  }

  lemma ProposalAndOutcome(a: Json, b: Json)
    requires a.Obj? && b.Obj? && OUTCOME_FLAG !in a.fields && OUTCOME_FLAG !in b.fields
    ensures SameProposal(WithOutcome(a), WithOutcome(b)) <==>
      SameProposal(a, b) && forall k :: IsOutcome(k) ==> SameField(a.fields, b.fields, k)
  {
    var f, g := a.fields, b.fields;
    var x, y := WithOutcome(a).fields, WithOutcome(b).fields;
    FlagIsNoPointer();
    assert Nests(x) == Nests(f) && Nests(y) == Nests(g);
    assert Nests(f) ==> x["target"] == f["target"];
    assert Nests(g) ==> y["target"] == g["target"];
    hide InProposal, IsOutcome, Nests;
    forall k
      ensures InProposal(x, k) <==> InProposal(f, k) || (k in f && IsOutcome(k))
      ensures InProposal(y, k) <==> InProposal(g, k) || (k in g && IsOutcome(k))
      ensures InProposal(f, k) || InProposal(g, k) ==> !IsOutcome(k)
      ensures InProposal(x, k) ==> x[k] == f[k]
      ensures InProposal(y, k) ==> y[k] == g[k]
    {
      OutcomeJoins(f, k);
      OutcomeJoins(g, k);
    }
    if SameProposal(WithOutcome(a), WithOutcome(b)) {
      forall k | IsOutcome(k) ensures SameField(f, g, k) {
        assert InProposal(x, k) <==> InProposal(y, k);
      }
    }
  }

  lemma OutcomeJoins(f: Fields, k: string)
    requires OUTCOME_FLAG !in f
    ensures
      var x := f[OUTCOME_FLAG := Bool(true)];
      && (InProposal(x, k) <==> InProposal(f, k) || (k in f && IsOutcome(k)))
      && (InProposal(x, k) ==> x[k] == f[k])
      && (InProposal(f, k) ==> !IsOutcome(k))
  {
    FlagIsNoPointer();
    OutcomesAreOwn();
    assert IncludesOutcome(f[OUTCOME_FLAG := Bool(true)]) && !IncludesOutcome(f);
  }

  /**
   * Two genuine actions leave evaluators with one event hash exactly when they make the same proposal, all the way
   * down the chain of nested actions, and came to the same outcome.
   */
  lemma {:induction false} EventHashBindsOutcome(e: Evaluator, d: Evaluator, a: Json, b: Json, x: Fields, y: Fields,
                                                 now: Option<int>, later: Option<int>)
    requires e.digest == d.digest && Injective(e.digest) && Genuine(e.digest, a) && Genuine(e.digest, b)
    requires "_include_outcome_in_hash" !in a.fields && "_include_outcome_in_hash" !in b.fields
    requires e.IsLeft(a, x, now) && d.IsLeft(b, y, later)
    ensures "event_hash" in x && "event_hash" in y
    ensures x["event_hash"] == y["event_hash"] <==>
      && SameProposal(a, b)
      && forall k | k in {"status", "verified", "audit_status", "expires_at_ms", "observed_at_ms"} ::
           SameField(a.fields, b.fields, k)
  {
    EventIsLeft(e, a, x, now);
    EventIsLeft(d, b, y, later);
    FlaggedIsGenuine(e.digest, a);
    FlaggedIsGenuine(e.digest, b);
    assert forall k :: IsOutcome(k) <==> k in {"status", "verified", "audit_status", "expires_at_ms", "observed_at_ms"};
    hide Compute, Identity, Genuine, Entry, EventHash, IsFinalized, SameField, SameProposal, IsOutcome;
    IdentityBindsProposal(e.digest, WithOutcome(a), WithOutcome(b));
    ProposalAndOutcome(a, b);
  }

  lemma NoOutcome(f: Fields)
    ensures !HasOutcome(f) <==>
      forall k | k in {"status", "verified", "audit_status", "expires_at_ms", "observed_at_ms"} :: k !in f
  {
    assert forall k :: IsOutcome(k) <==> k in {"status", "verified", "audit_status", "expires_at_ms", "observed_at_ms"};
  }

  lemma FlagIsTrue(f: Fields)
    requires "_include_outcome_in_hash" !in f
    ensures Truthy(Bool(true)) && !IncludesOutcome(f)
  {
  }

  /** An event hash is the action hash exactly for an action without an outcome. */
  lemma {:induction false} OutcomePartsHashes(e: Evaluator, a: Json, x: Fields, now: Option<int>)
    requires Injective(e.digest) && Genuine(e.digest, a) && e.IsLeft(a, x, now)
    requires "_include_outcome_in_hash" !in a.fields
    ensures "event_hash" in x && "action_hash" in x && x["action_hash"] == Str(Identity(e.digest, a))
    ensures x["event_hash"] == x["action_hash"] <==>
      forall k | k in {"status", "verified", "audit_status", "expires_at_ms", "observed_at_ms"} :: k !in a.fields
  {
    EventIsLeft(e, a, x, now);
    StampIsGenuine(e.digest, a);
    StampIsFinal(Entry(e.digest, a).value.1, x);
    NoOutcome(a.fields);
    hide *;
    OutcomeFlagMatters(e.digest, a.fields, Bool(true));
    FlagIsTrue(a.fields);
  }

  /** The provenance names both hashes of the action, the context, the source and, for what was observed, the time. */
  lemma ProvenanceSays(e: Evaluator, a: Json, x: Fields, now: Option<int>)
    requires e.IsLeft(a, x, now)
    ensures "provenance" in x && x["provenance"].Obj? && "action_hash" in x && "event_hash" in x
    ensures
      var p := x["provenance"].fields;
      && p.Keys == {"action_hash", "event_hash", "context_hash", "source"} +
                   (if "observed_at_ms" in p then {"observed_at_ms"} else {})
      && p["action_hash"] == x["action_hash"] && p["event_hash"] == x["event_hash"]
      && p["context_hash"] == Str(e.contextHash) && p["source"] == Str(e.source)
      && ("observed_at_ms" in p <==>
            && now.Some? && now.value != 0
            && "kind" in a.fields && a.fields["kind"] in {Str("delivery"), Str("observation")})
      && ("observed_at_ms" in p ==> p["observed_at_ms"] == Num(now.value))
  {
    var (h, f) := Entry(e.digest, a).value;
    var event := EventHash(e.digest, f, h).value;
    ComputeKeepsFields(e.digest, a);
    assert "action_hash" in f && f["action_hash"] == Str(h);
    assert "kind" in f <==> "kind" in a.fields;
    assert "kind" in f ==> f["kind"] == a.fields["kind"];
    hide Compute, EventHash, Entry, Provenance;
    ProvenanceFields(h, event, e.contextHash, e.source,
      if now.Some? && now.value != 0 && IsObservation(f) then now else None);
  }

  lemma ProvenanceFields(hash: string, event: string, contextHash: string, source: string, observedAt: Option<int>)
    ensures
      var p := Provenance(hash, event, contextHash, source, observedAt).fields;
      && p.Keys == {"action_hash", "event_hash", "context_hash", "source"} +
                   (if observedAt.Some? then {"observed_at_ms"} else {})
      && ("observed_at_ms" in p <==> observedAt.Some?)
      && p["action_hash"] == Str(hash) && p["event_hash"] == Str(event)
      && p["context_hash"] == Str(contextHash) && p["source"] == Str(source)
      && (observedAt.Some? ==> p["observed_at_ms"] == Num(observedAt.value))
  {
    assert |"action_hash"| == 11 && |"event_hash"| == 10 && |"context_hash"| == 12 && |"source"| == 6 &&
      |"observed_at_ms"| == 14;
  }
}
