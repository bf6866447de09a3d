/**
 * The choke point every action passes (noe/noe_parser.py, `_finalize_action_static`) and the
 * proposal DAG it builds, over whole runs of one evaluator.
 */
module ProposalDag {
  import opened Options
  import opened Json
  import opened ActionHash
  import opened ActionObjects
  import opened CycleCheck

  /** `dag`: an action hash is a JSON string; its edges are the children's hashes. */
  type Dag = map<Json, seq<Json>>

  datatype Outcome = Finalized | PassedThrough | Undefined | RaisedFloatError | Rejected(code: string)

  predicate IsUndefinedTarget(j: Json) {
    j == Str("undefined") || (j.Obj? && "domain" in j.fields && j.fields["domain"] == Str("undefined"))
  }

  /** The minimal schema. */
  predicate IsProposal(j: Json) {
    IsAction(j) && "verb" in j.fields && "target" in j.fields && !IsUndefinedTarget(j.fields["target"])
  }

  /** The hash of proposal and outcome, from the fields with their action hash in place. */
  function EventHash(digest: Digest, f: Fields, hash: string): Option<string> {
    if !HasOutcome(f) then Some(hash) else
    match Compute(digest, Obj(f[OUTCOME_FLAG := Bool(true)]))
    case Hashed(h, _) => Some(h)
    case FloatError => None
  }

  /** The hash under which an action is entered in the DAG; None if it does not get that far. */
  function Entry(digest: Digest, j: Json): (r: Option<(string, Fields)>)
    ensures r.Some? ==> j.Obj? && Compute(digest, j).Hashed?
  {
    if !IsProposal(j) then None else
    match Compute(digest, j)
    case FloatError => None
    case Hashed(h, a) =>
      var f := a.fields["action_hash" := Str(h)];
      if EventHash(digest, f, h).None? then None else Some((h, f))
  }

  function ChildEdge(f: Fields): Option<Json> {
    if Nests(f) && "action_hash" in f["target"].fields && Truthy(f["target"].fields["action_hash"])
    then Some(f["target"].fields["action_hash"]) else None
  }

  function Register(dag: Dag, node: Json, child: Option<Json>): Dag {
    var edges := Children(dag, node);
    dag[node := if child.Some? && child.value !in edges then edges + [child.value] else edges]
  }

  function DagStep(digest: Digest, dag: Dag, j: Json): Dag {
    match Entry(digest, j)
    case None => dag
    case Some((h, f)) => Register(dag, Str(h), ChildEdge(f))
  }

  function Provenance(hash: string, event: string, contextHash: string, source: string, observedAt: Option<int>): Json {
    var p := map["action_hash" := Str(hash), "event_hash" := Str(event), "context_hash" := Str(contextHash),
      "source" := Str(source)];
    Obj(if observedAt.Some? then p["observed_at_ms" := Num(observedAt.value)] else p)
  }

  predicate IsObservation(f: Fields) {
    "kind" in f && (f["kind"] == Str("delivery") || f["kind"] == Str("observation"))
  }

  /** What the provenance of an action says: the time of observation only for deliveries and observations. */
  function ProvenanceOf(f: Fields, hash: string, event: string, contextHash: string, source: string,
                        nowMs: Option<int>): Json {
    Provenance(hash, event, contextHash, source,
      if nowMs.Some? && nowMs.value != 0 && IsObservation(f) then nowMs else None)
  }

  ghost predicate Carries(final: Fields, event: string, provenance: Json) {
    && "event_hash" in final && final["event_hash"] == Str(event)
    && "provenance" in final && final["provenance"] == provenance
  }

  class Evaluator {
    const digest: Digest
    const strict: bool
    const contextHash: string
    const source: string
    var dag: Dag

    constructor (digest: Digest, strict: bool, contextHash: string, source: string)
      ensures this.digest == digest && this.strict == strict && dag == map[]
      ensures this.contextHash == contextHash && this.source == source
    {
      this.digest, this.strict, this.contextHash, this.source := digest, strict, contextHash, source;
      dag := map[];
    }

    /** What finalizing leaves of an action that it has entered in the DAG. */
    ghost predicate IsLeft(j: Json, final: Fields, nowMs: Option<int>) {
      && Entry(digest, j).Some?
      && var (h, f) := Entry(digest, j).value;
      && IsFinalized(f, final)
      && Carries(final, EventHash(digest, f, h).value,
                 ProvenanceOf(f, h, EventHash(digest, f, h).value, contextHash, source, nowMs))
    }

    method Finalize(node: ActionNode, nowMs: Option<int>) returns (r: Outcome)
      requires node.Valid()
      modifies this, node.Repr
      ensures node.Valid()
      ensures dag == DagStep(digest, old(dag), old(node.Value()))
      ensures !IsAction(old(node.Value())) ==> r == PassedThrough
      ensures
        var v := old(node.Value());
        IsAction(v) && ("verb" !in v.fields || "target" !in v.fields) ==>
          r == if strict then Rejected("ERR_INVALID_ACTION") else Undefined
      ensures
        var v := old(node.Value());
        IsAction(v) && "verb" in v.fields && "target" in v.fields ==>
          var t := v.fields["target"];
          t == Str("undefined") || (t.Obj? && "domain" in t.fields && t.fields["domain"] == Str("undefined")) ==>
            r == if strict then Rejected("ERR_UNDEFINED_TARGET") else Undefined
      ensures IsProposal(old(node.Value())) && Entry(digest, old(node.Value())).None? ==> r == RaisedFloatError
      ensures Entry(digest, old(node.Value())).Some? ==>
        if ReachesCycle(dag, Str(Entry(digest, old(node.Value())).value.0))
        then r == if strict then Rejected("ERR_ACTION_CYCLE") else Undefined
        else r == Finalized && IsLeft(old(node.Value()), node.Value().fields, nowMs)
    {
      hide Entry, Register, ChildEdge, Compute, IsFinalized, SameButEvent, ReachesCycle, Carries, EventHash,
        ProvenanceOf;
      ghost var v := node.Value();
      NoEntry(digest, v);
      var f := node.Value().fields;
      if "type" !in f || f["type"] != Str("action") { return PassedThrough; }
      if "verb" !in f || "target" !in f {
        return if strict then Rejected("ERR_INVALID_ACTION") else Undefined;
      }
      if IsUndefinedTarget(f["target"]) {
        return if strict then Rejected("ERR_UNDEFINED_TARGET") else Undefined;
      }
      var hashes := HashAction(node);
      if hashes.None? { return RaisedFloatError; }
      var (hash, event) := hashes.value;
      SameEdge(Entry(digest, v).value.1, node.Value().fields);
      dag := Register(dag, Str(hash), ChildEdge(node.Value().fields));
      var cycle := HasCycle(dag, Str(hash));
      if cycle {
        return if strict then Rejected("ERR_ACTION_CYCLE") else Undefined;
      }
      ghost var g := node.Value().fields;
      HasEvent(Entry(digest, v).value.1, g);
      SameObservation(Entry(digest, v).value.1, g, hash, event, contextHash, source, nowMs);
      AttachProvenance(node, hash, event, nowMs);
      FinalizedThrough(Entry(digest, v).value.1, g, node.Value().fields);
      return Finalized;
    }

    /** Writes the action hash, then the event hash, into the action. */
    method HashAction(node: ActionNode) returns (r: Option<(string, string)>)
      requires node.Valid() && IsProposal(node.Value())
      modifies node.Repr
      ensures node.Valid() && node.Repr == old(node.Repr)
      ensures r.Some? <==> Entry(digest, old(node.Value())).Some?
      ensures r.Some? ==>
        var (h, f) := Entry(digest, old(node.Value())).value;
        && r.value.0 == h && Some(r.value.1) == EventHash(digest, f, h)
        && SameButEvent(f, node.Value().fields)
        && "event_hash" in node.Value().fields && node.Value().fields["event_hash"] == Str(r.value.1)
    {
      var hash := node.ComputeActionHash(digest);
      if hash.None? { return None; }
      ComputeLinks(digest, old(node.Value()));
      node.Set("action_hash", Str(hash.value));
      ghost var f := node.Value().fields;
      var event := ComputeEventHash(node, hash.value);
      if event.None? { return None; }
      ghost var g := node.Value().fields;
      node.Set("event_hash", Str(event.value));
      EventOnly(f, g, Str(event.value));
      return Some((hash.value, event.value));
    }

    method AttachProvenance(node: ActionNode, hash: string, event: string, nowMs: Option<int>)
      requires node.Valid() && "event_hash" in node.Value().fields && node.Value().fields["event_hash"] == Str(event)
      modifies node
      ensures node.Valid()
      ensures IsFinalized(old(node.Value()).fields, node.Value().fields)
      ensures Carries(node.Value().fields, event,
                      ProvenanceOf(old(node.Value()).fields, hash, event, contextHash, source, nowMs))
    {
      var observed := if nowMs.Some? && nowMs.value != 0 && IsObservation(node.Value().fields) then nowMs else None;
      node.Set("provenance", Provenance(hash, event, contextHash, source, observed));
      node.StripInternal();
    }

    method ComputeEventHash(node: ActionNode, hash: string) returns (event: Option<string>)
      requires node.Valid() && Linked(node.Value().fields)
      modifies node.Repr
      ensures node.Valid() && node.Repr == old(node.Repr)
      ensures event.Some? ==> node.Value().fields - {OUTCOME_FLAG} == old(node.Value()).fields - {OUTCOME_FLAG}
      ensures event == EventHash(digest, old(node.Value()).fields, hash)
    {
      FlagComesOff(digest, node.Value().fields);
      hide Compute, Linked, IsOutcome, Nests, IsAction;
      if exists k :: k in node.Value().fields && IsOutcome(k) {
        node.Set(OUTCOME_FLAG, Bool(true));
        event := node.ComputeActionHash(digest);
        node.Remove(OUTCOME_FLAG);
      } else {
        event := Some(hash);
      }
    }
  }

  /** The pointer to the nested action holds the hash found on it. */
  predicate Linked(f: Fields) {
    Nests(f) ==>
      && "action_hash" in f["target"].fields && "child_action_hash" in f
      && f["child_action_hash"] == f["target"].fields["action_hash"]
  }

  /** Hashing under the outcome flag writes nothing new into an action already linked. */
  lemma FlagComesOff(digest: Digest, f: Fields)
    requires Linked(f)
    ensures
      var r := Compute(digest, Obj(f[OUTCOME_FLAG := Bool(true)]));
      r.Hashed? ==> r.action.fields - {OUTCOME_FLAG} == f - {OUTCOME_FLAG}
  {
    var g := f[OUTCOME_FLAG := Bool(true)];
    assert OUTCOME_FLAG != "target" && OUTCOME_FLAG != "child_action_hash" by { assert OUTCOME_FLAG[0] == '_'; }
    assert Nests(g) == Nests(f);
    hide Normalize, HasFloat;
  }

  lemma ComputeLinks(digest: Digest, j: Json)
    requires j.Obj? && Compute(digest, j).Hashed?
    ensures Linked(Compute(digest, j).action.fields)
  {
  }

  /** Equal but for the event hash and the internal keys. */
  ghost predicate SameButEvent(f: Fields, g: Fields) {
    && (forall k :: k != "event_hash" && !IsInternal(k) ==> (k in f <==> k in g))
    && (forall k :: k != "event_hash" && !IsInternal(k) && k in f ==> f[k] == g[k])
    && "event_hash" in g
  }

  lemma NoEntry(digest: Digest, j: Json)
    ensures !IsProposal(j) ==> Entry(digest, j).None?
  {
  }

  lemma SameEdge(f: Fields, g: Fields)
    requires SameButEvent(f, g)
    ensures ChildEdge(f) == ChildEdge(g)
  {
  }

  lemma SameObservation(f: Fields, g: Fields, hash: string, event: string, contextHash: string, source: string,
                        nowMs: Option<int>)
    requires SameButEvent(f, g)
    ensures ProvenanceOf(f, hash, event, contextHash, source, nowMs) ==
      ProvenanceOf(g, hash, event, contextHash, source, nowMs)
  {
  }

  lemma HasEvent(f: Fields, g: Fields)
    requires SameButEvent(f, g)
    ensures "event_hash" in g
  {
  }

  lemma FinalizedThrough(f: Fields, g: Fields, final: Fields)
    requires SameButEvent(f, g) && IsFinalized(g, final)
    ensures IsFinalized(f, final)
  {
  }

  lemma EventOnly(f: Fields, g: Fields, event: Json)
    requires g - {OUTCOME_FLAG} == f - {OUTCOME_FLAG}
    ensures SameButEvent(f, g["event_hash" := event])
  {
    forall k | k != OUTCOME_FLAG ensures k in f <==> k in g {
      assert k in f - {OUTCOME_FLAG} <==> k in g - {OUTCOME_FLAG};
    }
    forall k | k != OUTCOME_FLAG && k in f ensures f[k] == g[k] {
      assert (f - {OUTCOME_FLAG})[k] == (g - {OUTCOME_FLAG})[k];
    }
  }

  /** What finalizing leaves of an action: event hash and provenance added, internal keys gone. */
  ghost predicate IsFinalized(hashed: Fields, final: Fields) {
    && (forall k :: k != "event_hash" && k != "provenance" ==> (k in final <==> k in hashed && !IsInternal(k)))
    && (forall k :: k != "event_hash" && k != "provenance" && k in final ==> final[k] == hashed[k])
    && "event_hash" in final && "provenance" in final
  }

  // ----- Runs -----

  /** The DAG after finalizing these actions, in order, in one evaluator. */
  ghost function Run(digest: Digest, actions: seq<Json>): Dag {
    if actions == [] then map[]
    else DagStep(digest, Run(digest, actions[..|actions| - 1]), actions[|actions| - 1])
  }

  ghost function EdgesOf(digest: Digest, a: Json): seq<Json>
    requires a.Obj?
  {
    if Nests(a.fields) && Identity(digest, a.fields["target"]) != ""
    then [Str(Identity(digest, a.fields["target"]))] else []
  }

  ghost predicate Explains(digest: Digest, dag: Dag, n: Json, a: Json) {
    Genuine(digest, a) && n == Str(Identity(digest, a)) && n in dag && dag[n] == EdgesOf(digest, a)
  }

  /** Every node is the hash of a genuine action, and has the edge of that action only. */
  ghost predicate GenuineDag(digest: Digest, dag: Dag) {
    forall n :: n in dag ==> exists a :: Explains(digest, dag, n, a)
  }

  lemma SameIdentitySameEdges(digest: Digest, a: Json, b: Json)
    requires Injective(digest) && Genuine(digest, a) && Genuine(digest, b)
    requires Identity(digest, a) == Identity(digest, b)
    ensures EdgesOf(digest, a) == EdgesOf(digest, b) && Depth(a) == Depth(b)
  {
    IdentityBindsProposal(digest, a, b);
    SameDepth(a, b);
    if Nests(a.fields) {
      IdentityBindsProposal(digest, a.fields["target"], b.fields["target"]);
    }
  }

  /** How many actions are nested below this one. */
  ghost function Depth(a: Json): nat
    requires a.Obj?
  {
    if Nests(a.fields) then 1 + Depth(a.fields["target"]) else 0
  }

  lemma {:induction false} SameDepth(a: Json, b: Json)
    requires SameProposal(a, b)
    ensures Depth(a) == Depth(b)
  {
    if Nests(a.fields) {
      SameDepth(a.fields["target"], b.fields["target"]);
    }
  }

  lemma EntryOfGenuine(digest: Digest, j: Json)
    requires Genuine(digest, j) && Entry(digest, j).Some?
    ensures Entry(digest, j).value.0 == Identity(digest, j)
    ensures ChildEdge(Entry(digest, j).value.1).Some? <==> EdgesOf(digest, j) != []
    ensures EdgesOf(digest, j) != [] ==> EdgesOf(digest, j) == [ChildEdge(Entry(digest, j).value.1).value]
  {
    ComputeIsIdentity(digest, j);
  }

  lemma StepKeepsGenuine(digest: Digest, dag: Dag, j: Json)
    requires Injective(digest) && GenuineDag(digest, dag) && Genuine(digest, j)
    ensures GenuineDag(digest, DagStep(digest, dag, j))
  {
    if Entry(digest, j).Some? {
      var next := DagStep(digest, dag, j);
      var node := Str(Identity(digest, j));
      EntryOfGenuine(digest, j);
      if node in dag {
        var w :| Explains(digest, dag, node, w);
        SameIdentitySameEdges(digest, w, j);
      }
      assert Explains(digest, next, node, j);
      forall n | n in next ensures exists a :: Explains(digest, next, n, a) {
        if n != node {
          var a :| Explains(digest, dag, n, a);
          assert Explains(digest, next, n, a);
        }
      }
    }
  }

  lemma EdgeGoesToNested(digest: Digest, dag: Dag, a: Json, child: Json)
    requires Injective(digest) && GenuineDag(digest, dag) && Genuine(digest, a)
    requires child in Children(dag, Str(Identity(digest, a)))
    ensures Nests(a.fields) && child == Str(Identity(digest, a.fields["target"])) && Genuine(digest, a.fields["target"])
  {
    var w :| Explains(digest, dag, Str(Identity(digest, a)), w);
    SameIdentitySameEdges(digest, w, a);
  }

  /** Along a path the nesting depth falls by one at each edge, whatever actions explain its nodes. */
  lemma {:induction false} PathFallsInDepth(digest: Digest, dag: Dag, p: seq<Json>, a: Json) returns (b: Json)
    requires Injective(digest) && GenuineDag(digest, dag) && IsPath(dag, p)
    requires Genuine(digest, a) && p[0] == Str(Identity(digest, a))
    ensures Genuine(digest, b) && p[|p| - 1] == Str(Identity(digest, b))
    ensures Depth(b) + |p| - 1 == Depth(a)
    decreases |p|
  {
    if |p| == 1 {
      b := a;
    } else {
      EdgeGoesToNested(digest, dag, a, p[1]);
      hide Genuine, Identity, GenuineDag;
      assert forall i :: 0 <= i < |p| - 1 ==> p[1..][i] == p[i + 1];
      b := PathFallsInDepth(digest, dag, p[1..], a.fields["target"]);
    }
  }

  lemma GenuineDagIsAcyclic(digest: Digest, dag: Dag, n: Json)
    requires Injective(digest) && GenuineDag(digest, dag)
    ensures |Children(dag, n)| <= 1
    ensures !ReachesCycle(dag, n)
  {
    if n in dag {
      var w :| Explains(digest, dag, n, w);
    }
    forall m ensures !OnCycle(dag, m) {
      if OnCycle(dag, m) {
        var p :| |p| >= 2 && Joins(dag, p, m, m);
        assert p[1] in Children(dag, p[0]);
        var a :| Explains(digest, dag, m, a);
        var b := PathFallsInDepth(digest, dag, p, a);
        SameIdentitySameEdges(digest, a, b);
      }
    }
  }

  /** Over any run of genuine actions: at most one child per node, and no cycle anywhere, ever. */
  lemma {:induction false} RunStaysAcyclic(digest: Digest, actions: seq<Json>)
    requires Injective(digest) && forall i :: 0 <= i < |actions| ==> Genuine(digest, actions[i])
    ensures GenuineDag(digest, Run(digest, actions))
    ensures forall n :: |Children(Run(digest, actions), n)| <= 1 && !ReachesCycle(Run(digest, actions), n)
  {
    if actions != [] {
      var before := actions[..|actions| - 1];
      RunStaysAcyclic(digest, before);
      StepKeepsGenuine(digest, Run(digest, before), actions[|actions| - 1]);
    }
    forall n ensures |Children(Run(digest, actions), n)| <= 1 && !ReachesCycle(Run(digest, actions), n) {
      GenuineDagIsAcyclic(digest, Run(digest, actions), n);
    }
  }

  /** What finalizing returns is genuine again, under its own hash, and so is an action built around it. */
  lemma FinalizedIsGenuine(digest: Digest, j: Json, final: Fields, verb: Json)
    requires Genuine(digest, j) && Entry(digest, j).Some? && OUTCOME_FLAG !in j.fields
    requires IsFinalized(Entry(digest, j).value.1, final)
    ensures Genuine(digest, Obj(final)) && Identity(digest, Obj(final)) == Identity(digest, j)
    ensures "action_hash" in final && final["action_hash"] == Str(Identity(digest, j))
    ensures Genuine(digest, Obj(map["type" := Str("action"), "verb" := verb, "target" := Obj(final)]))
  {
    var f := Entry(digest, j).value.1;
    StampIsGenuine(digest, j);
    FinalKeepsIdentity(digest, f, final);
    hide Genuine, Identity, Entry;
    assert "action_hash" in final && final["action_hash"] == f["action_hash"] by { StampIsFinal(f, final); }
    NestIsGenuine(digest, Obj(final), verb);
  }

  /** What is entered is genuine, with its own identity stamped on it. */
  lemma StampIsGenuine(digest: Digest, j: Json)
    requires Genuine(digest, j) && Entry(digest, j).Some? && OUTCOME_FLAG !in j.fields
    ensures
      var f := Entry(digest, j).value.1;
      && Genuine(digest, Obj(f)) && Identity(digest, Obj(f)) == Identity(digest, j) && OUTCOME_FLAG !in f
      && "action_hash" in f && f["action_hash"] == Str(Identity(digest, j))
  {
    var a := Compute(digest, j).action.fields;
    ComputeIsIdentity(digest, j);
    ComputeKeepsFlag(digest, j);
    assert Entry(digest, j).value.1 == a["action_hash" := Str(Identity(digest, j))];
    hide Compute, Entry, Normalize;
    IgnoredFieldIsIrrelevant(digest, a, "action_hash", Str(Identity(digest, j)));
    StampedIsGenuine(digest, a, Str(Identity(digest, j)));
    assert "action_hash" != OUTCOME_FLAG by { assert OUTCOME_FLAG[0] == '_'; }
  }

  lemma StampIsFinal(f: Fields, final: Fields)
    requires IsFinalized(f, final) && "action_hash" in f
    ensures "action_hash" in final && final["action_hash"] == f["action_hash"]
  {
  }

  lemma NestIsGenuine(digest: Digest, t: Json, verb: Json)
    requires Genuine(digest, t) && HashIfPresent(digest, t)
    ensures Genuine(digest, Obj(map["type" := Str("action"), "verb" := verb, "target" := t]))
  {
    var f: Fields := map["type" := Str("action"), "verb" := verb, "target" := t];
    assert "child_action_hash" !in f && f["target"] == t by {
      assert |"type"| == |"verb"| == 4 && |"target"| == 6 && |"child_action_hash"| == 17;
    }
    hide HashIfPresent;
  }

  lemma ComputeKeepsFlag(digest: Digest, j: Json)
    requires j.Obj? && Compute(digest, j).Hashed? && OUTCOME_FLAG !in j.fields
    ensures OUTCOME_FLAG !in Compute(digest, j).action.fields
  {
  }

  lemma FinalKeepsIdentity(digest: Digest, f: Fields, final: Fields)
    requires Genuine(digest, Obj(f)) && OUTCOME_FLAG !in f && IsFinalized(f, final)
    ensures Genuine(digest, Obj(final)) && Identity(digest, Obj(final)) == Identity(digest, Obj(f))
  {
    assert forall k :: k == "target" || k == "child_action_hash" ==> (k in final <==> k in f);
    assert Nests(final) == Nests(f);
    SameKept(Pointed(digest, final), Pointed(digest, f));
  }
}
