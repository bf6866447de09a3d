/** `build_safe_context`: merge, extract the evidence, project it, check it in strict mode, rebuild the context. */
module SafeBuild {
  import opened Options
  import opened Json
  import opened DeepMerge
  import opened Projection
  import opened SafeContext

  /** What Python's own conversions and serializers do. */
  datatype Env = Env(
    parseInt: string -> Option<int>,        // int() of a string
    confidence: Json -> Option<int>,        // float(), scaled; None when it fails or is not finite
    theta: int,                             // the confidence threshold, on the same scale
    sourceName: Json -> string,
    canon: Json -> string,                  // canonical JSON
    hash: Json -> string)                   // the hex digest of the canonical JSON

  /** The integer part of a mantissa times a power of two. */
  function Scaled(m: nat, e: int): int
    decreases if e < 0 then -e else e
  {
    if e == 0 then m else if e > 0 then Scaled(2 * m, e - 1) else Scaled(m / 2, e + 1)
  }

  /** `int(v)`, which truncates */
  function ToInt(v: Json, env: Env): Option<int> {
    match v
    case Num(n) => Some(n)
    case Bool(b) => Some(if b then 1 else 0)
    case Real(m, e) => Some(if m < 0 then -Scaled(-m, e) else Scaled(m, e))
    case Str(s) => env.parseInt(s)
    case _ => None
  }

  // ----- Evidence -----

  function FieldOr(v: Json, k: string, other: Json): Json {
    if v.Obj? && k in v.fields then v.fields[k] else other
  }

  /** A JSON value as the vote sees it. */
  function ReadingOf(v: Json, env: Env): Reading {
    match v
    case Null => Hashable("NoneType", v)
    case Bool(_) => Hashable("bool", v)
    case Num(_) => Hashable("int", v)
    case Real(_, _) => Hashable("float", v)
    case Str(_) => Hashable("str", v)
    case _ => Structured(env.canon(v), v)
  }

  /** A timestamp or a confidence that is missing or does not convert discards the entry. */
  function AnnotatedOf(p: string, entry: Json, env: Env): Option<Annotated> {
    if !entry.Obj? then None else
    var timestamp, confidence := FieldOr(entry, "timestamp", Null), FieldOr(entry, "confidence", Null);
    if timestamp.Null? || confidence.Null? then None else
    var t, c := ToInt(timestamp, env), env.confidence(confidence);
    if t.None? || c.None? then None else
    Some(Annotated(
      p, ReadingOf(FieldOr(entry, "value", Null), env), t.value,
      env.sourceName(FieldOr(entry, "source", Str("unknown"))), Finite(c.value)))
  }

  /** The evidence maps of a context; None when the original raises on what it finds there. */
  function Shards(rich: Fields): Option<seq<Fields>> {
    if ROOT in rich && "domain" in rich && "local" in rich then
      if !rich[ROOT].Obj? || !rich["domain"].Obj? || !rich["local"].Obj? then None
      else Some([ShardOf(rich[ROOT]), ShardOf(rich["domain"]), ShardOf(rich["local"])])
    else
      var evidence := if EVIDENCE in rich then rich[EVIDENCE] else EMPTY;
      if !Truthy(evidence) then Some([]) else if evidence.Obj? then Some([evidence.fields]) else None
  }

  function ShardOf(layer: Json): Fields {
    var evidence := FieldOr(layer, EVIDENCE, EMPTY);
    if evidence.Obj? then evidence.fields else map[]
  }

  ghost predicate IsEntry(p: string, entry: Json, shards: seq<Fields>) {
    exists i :: 0 <= i < |shards| && p in shards[i] && shards[i][p].Arr? && entry in shards[i][p].items
  }

  ghost predicate IsEvidence(x: Annotated, shards: seq<Fields>, env: Env) {
    exists entry :: IsEntry(x.predicateName, entry, shards) && AnnotatedOf(x.predicateName, entry, env) == Some(x)
  }

  ghost predicate Lists(evidence: seq<Annotated>, shards: seq<Fields>, env: Env) {
    forall x :: x in evidence <==> IsEvidence(x, shards, env)
  }

  method ExtractEvidence(shards: seq<Fields>, env: Env) returns (evidence: seq<Annotated>)
    ensures Lists(evidence, shards, env)
  {
    evidence := [];
    for i := 0 to |shards|
      invariant Lists(evidence, shards[..i], env)
    {
      var more := ExtractShard(shards[i], env);
      OneMoreShard(evidence, more, shards, i, env);
      evidence := evidence + more;
    }
    assert shards[..|shards|] == shards;
  }

  lemma OneMoreShard(evidence: seq<Annotated>, more: seq<Annotated>, shards: seq<Fields>, i: nat, env: Env)
    requires i < |shards| && Lists(evidence, shards[..i], env) && Lists(more, [shards[i]], env)
    ensures Lists(evidence + more, shards[..i + 1], env)
  {
    hide AnnotatedOf;
    forall p, entry
      ensures IsEntry(p, entry, shards[..i + 1]) <==> IsEntry(p, entry, shards[..i]) || IsEntry(p, entry, [shards[i]])
    {
      SplitEntry(p, entry, shards, i);
    }
    hide IsEntry;
    forall x ensures IsEvidence(x, shards[..i + 1], env) <==>
      IsEvidence(x, shards[..i], env) || IsEvidence(x, [shards[i]], env) {
    }
  }

  lemma SplitEntry(p: string, entry: Json, shards: seq<Fields>, i: nat)
    requires i < |shards|
    ensures IsEntry(p, entry, shards[..i + 1]) <==> IsEntry(p, entry, shards[..i]) || IsEntry(p, entry, [shards[i]])
  {
    var upTo, before, one := shards[..i + 1], shards[..i], [shards[i]];
    if IsEntry(p, entry, upTo) {
      var j :| 0 <= j < |upTo| && p in upTo[j] && upTo[j][p].Arr? && entry in upTo[j][p].items;
      assert if j < i then before[j] == upTo[j] else one[0] == upTo[j];
    }
    if IsEntry(p, entry, before) {
      var j :| 0 <= j < |before| && p in before[j] && before[j][p].Arr? && entry in before[j][p].items;
      assert upTo[j] == before[j];
    }
    if IsEntry(p, entry, one) {
      assert upTo[i] == one[0];
    }
  }

  method ExtractShard(shard: Fields, env: Env) returns (evidence: seq<Annotated>)
    ensures Lists(evidence, [shard], env)
  {
    evidence := [];
    var pending := shard.Keys;
    while pending != {}
      invariant pending <= shard.Keys
      invariant forall x :: x in evidence <==> x.predicateName !in pending && IsEvidence(x, [shard], env)
      decreases |pending|
    {
      var p :| p in pending;
      var more := [];
      if shard[p].Arr? {
        more := ExtractEntries(p, shard[p].items, env);
      }
      EntriesOfShard(shard, p, more, env);
      evidence := evidence + more;
      pending := pending - {p};
    }
    forall x | IsEvidence(x, [shard], env) ensures x.predicateName !in pending {
    }
  }

  ghost predicate FromEntries(x: Annotated, p: string, entries: seq<Json>, env: Env) {
    exists entry :: entry in entries && AnnotatedOf(p, entry, env) == Some(x)
  }

  lemma EntriesOfShard(shard: Fields, p: string, more: seq<Annotated>, env: Env)
    requires p in shard
    requires if shard[p].Arr? then forall x :: x in more <==> FromEntries(x, p, shard[p].items, env) else more == []
    ensures forall x :: x in more <==> x.predicateName == p && IsEvidence(x, [shard], env)
  {
    forall q, entry ensures IsEntry(q, entry, [shard]) <==> q in shard && shard[q].Arr? && entry in shard[q].items {
      if q in shard && shard[q].Arr? && entry in shard[q].items {
        assert [shard][0] == shard;
      }
    }
    assert forall entry :: AnnotatedOf(p, entry, env).Some? ==> AnnotatedOf(p, entry, env).value.predicateName == p;
    hide IsEntry, AnnotatedOf;
  }

  method ExtractEntries(p: string, entries: seq<Json>, env: Env) returns (evidence: seq<Annotated>)
    ensures forall x :: x in evidence <==> FromEntries(x, p, entries, env)
  {
    evidence := [];
    for i := 0 to |entries|
      invariant forall x :: x in evidence <==> FromEntries(x, p, entries[..i], env)
    {
      assert entries[..i + 1] == entries[..i] + [entries[i]];
      var x := AnnotatedOf(p, entries[i], env);
      hide AnnotatedOf;
      if x.Some? {
        evidence := evidence + [x.value];
      }
    }
    assert entries[..|entries|] == entries;
  }

  // ----- The rule for the whole context -----

  /** The merged layers; a layer that is not a dict counts as empty. */
  function Rich(root: Json, domain: Json, local: Json): Fields {
    var v := View(OrEmpty(root), OrEmpty(domain), OrEmpty(local));
    if v.Obj? then v.fields else map[]
  }

  function OrEmpty(layer: Json): Json {
    if layer.Obj? then layer else EMPTY
  }

  function ResolveNow(rich: Fields, nowMs: int, env: Env): int {
    if "temporal" in rich && rich["temporal"].Obj? && "now" in rich["temporal"].fields then
      var now := ToInt(rich["temporal"].fields["now"], env);
      if now.Some? then now.value else nowMs
    else nowMs
  }

  /** `ProjectionConfig()`, no allow-lists, no required context. */
  function SettingOf(rich: Fields, nowMs: int, env: Env): Setting {
    Setting(Config(1000, env.theta, 100), ResolveNow(rich, nowMs, env), None, p => true)
  }

  ghost predicate IsReported(rich: Fields, p: string, env: Env)
    requires Shards(rich).Some?
  {
    exists x :: IsEvidence(x, Shards(rich).value, env) && x.predicateName == p
  }

  /** The evidence of the context agrees on this value for the predicate. */
  ghost predicate Agrees(rich: Fields, nowMs: int, p: string, v: Json, env: Env)
    requires Shards(rich).Some?
  {
    exists evidence ::
      && Lists(evidence, Shards(rich).value, env)
      && HasConsensus(evidence, p, KeyOf(ReadingOf(v, env)).value, SettingOf(rich, nowMs, env))
  }

  /** The consensus values: for every predicate that has one, and no other. */
  ghost predicate IsProjection(projected: Fields, rich: Fields, nowMs: int, env: Env)
    requires Shards(rich).Some?
  {
    && (forall p :: p in projected ==> Agrees(rich, nowMs, p, projected[p], env))
    && (forall p, v :: Agrees(rich, nowMs, p, v, env) ==> p in projected)
  }

  /** The hashes of the raw layers. */
  datatype LayerHashes = LayerHashes(root: string, domain: string, local: string)

  function HashesOf(root: Json, domain: Json, local: Json, env: Env): LayerHashes {
    LayerHashes(env.hash(OrEmpty(root)), env.hash(OrEmpty(domain)), env.hash(OrEmpty(local)))
  }

  /** The informational part of a safe context. */
  function MetaOf(hashes: LayerHashes, hSafe: string): Json {
    Obj(map["h_root" := Str(hashes.root), "h_domain" := Str(hashes.domain), "h_local" := Str(hashes.local),
      "h_safe" := Str(hSafe)])
  }

  datatype Build =
    | Raised                                    // evidence that is not a dict of lists
    | Stale(hashes: LayerHashes)
    | Safe(cSafe: Fields, hashes: LayerHashes, hSafe: string)

  ghost predicate IsBuild(b: Build, rich: Fields, hashes: LayerHashes, strict: bool, nowMs: int, env: Env) {
    match b
    case Raised => Shards(rich).None?
    case Stale(h) =>
      && Shards(rich).Some? && strict && h == hashes
      && exists p :: IsReported(rich, p, env) && forall v :: !Agrees(rich, nowMs, p, v, env)
    case Safe(cSafe, h, hSafe) =>
      && Shards(rich).Some? && h == hashes
      && (strict ==> forall p :: IsReported(rich, p, env) ==> exists v :: Agrees(rich, nowMs, p, v, env))
      && exists projected ::
        && IsProjection(projected, rich, nowMs, env)
        && cSafe == Published(SafeFields(rich, projected), MetaOf(hashes, hSafe))
        && hSafe == env.hash(Obj(SafeFields(rich, projected)))
  }

  lemma ConsensusIsAgreement(evidence: seq<Annotated>, rich: Fields, nowMs: int, p: string, v: Json, env: Env)
    requires Shards(rich).Some? && Lists(evidence, Shards(rich).value, env)
    ensures Agrees(rich, nowMs, p, v, env) <==>
      HasConsensus(evidence, p, KeyOf(ReadingOf(v, env)).value, SettingOf(rich, nowMs, env))
  {
    var s := SettingOf(rich, nowMs, env);
    hide HasConsensus, SettingOf;
    forall other | Lists(other, Shards(rich).value, env)
      ensures HasConsensus(other, p, KeyOf(ReadingOf(v, env)).value, s) <==>
        HasConsensus(evidence, p, KeyOf(ReadingOf(v, env)).value, s)
    {
      ConsensusIgnoresOrder(other, evidence, p, KeyOf(ReadingOf(v, env)).value, s);
    }
  }

  function ContentOf(r: Reading): Json {
    match r
    case Hashable(_, content) => content
    case Structured(_, content) => content
    case _ => Null
  }

  lemma EvidenceIsJson(x: Annotated, shards: seq<Fields>, env: Env)
    requires IsEvidence(x, shards, env)
    ensures x.value == ReadingOf(ContentOf(x.value), env)
  {
    var entry :| IsEntry(x.predicateName, entry, shards) && AnnotatedOf(x.predicateName, entry, env) == Some(x);
    hide IsEntry;
  }

  /** What the projection promotes is what the evidence agrees on. */
  lemma PromotedAgrees(evidence: seq<Annotated>, safe: seq<Bare>, rich: Fields, nowMs: int, b: Bare, env: Env)
    requires Shards(rich).Some? && Lists(evidence, Shards(rich).value, env) && b in safe
    requires IsWitnessed(b, evidence, SettingOf(rich, nowMs, env))
    requires forall p, k :: Promotes(safe, p, k) <==> HasConsensus(evidence, p, k, SettingOf(rich, nowMs, env))
    ensures b.value == ReadingOf(ContentOf(b.value), env)
    ensures Agrees(rich, nowMs, b.predicateName, ContentOf(b.value), env)
  {
    var s := SettingOf(rich, nowMs, env);
    var x :| InLeadingEdge(x, evidence, b.predicateName, s) && x.value == b.value;
    EvidenceIsJson(x, Shards(rich).value, env);
    ConsensusIsAgreement(evidence, rich, nowMs, b.predicateName, ContentOf(b.value), env);
    assert Promotes(safe, b.predicateName, KeyOf(b.value).value);
  }

  /** A predicate that the evidence agrees on is promoted. */
  lemma AgreedIsPromoted(evidence: seq<Annotated>, safe: seq<Bare>, rich: Fields, nowMs: int, p: string, v: Json,
                         env: Env)
    requires Shards(rich).Some? && Lists(evidence, Shards(rich).value, env)
    requires forall p, k :: Promotes(safe, p, k) <==> HasConsensus(evidence, p, k, SettingOf(rich, nowMs, env))
    requires Agrees(rich, nowMs, p, v, env)
    ensures exists b :: b in safe && b.predicateName == p
  {
    ConsensusIsAgreement(evidence, rich, nowMs, p, v, env);
    assert Promotes(safe, p, KeyOf(ReadingOf(v, env)).value);
  }

  /** `projected_literals`, which are the projected knowledge too. */
  method ProjectedValues(safe: seq<Bare>) returns (projected: Fields)
    requires forall i, j :: 0 <= i < j < |safe| ==> safe[i].predicateName != safe[j].predicateName
    ensures forall b :: b in safe ==> b.predicateName in projected && projected[b.predicateName] == ContentOf(b.value)
    ensures forall p :: p in projected ==> exists b :: b in safe && b.predicateName == p
  {
    projected := map[];
    for i := 0 to |safe|
      invariant forall j :: 0 <= j < i ==>
        safe[j].predicateName in projected && projected[safe[j].predicateName] == ContentOf(safe[j].value)
      invariant forall p :: p in projected ==> exists b :: b in safe && b.predicateName == p
    {
      assert safe[i] in safe;
      projected := projected[safe[i].predicateName := ContentOf(safe[i].value)];
    }
  }

  /** `raw_preds - safe_pred_set` is not empty. */
  method IsSuppressed(evidence: seq<Annotated>, projected: Fields) returns (suppressed: bool)
    ensures suppressed <==> exists x :: x in evidence && x.predicateName !in projected
  {
    for i := 0 to |evidence|
      invariant forall x :: x in evidence[..i] ==> x.predicateName in projected
    {
      if evidence[i].predicateName !in projected {
        assert evidence[i] in evidence;
        return true;
      }
    }
    assert evidence[..|evidence|] == evidence;
    return false;
  }

  /** The sections, copied one by one into an empty dict. */
  method CopySections(rich: Fields) returns (sections: Fields)
    ensures sections == Sections(rich)
  {
    var from := WithRel(rich);
    sections := map[];
    var pending := from.Keys;
    hide Section;
    while pending != {}
      invariant pending <= from.Keys
      invariant forall k :: k in sections <==> k in from && k !in pending && Section(k, from[k]).Some?
      invariant forall k :: k in sections ==> sections[k] == Section(k, from[k]).value
      decreases |pending|
    {
      var k :| k in pending;
      var kept := Section(k, from[k]);
      if kept.Some? {
        sections := sections[k := kept.value];
      }
      pending := pending - {k};
    }
    assert sections == PickFields(Section, from);
  }

  /** The layers a call passes are merged even when they are not dicts: those count as empty. */
  method BuildSafeContext(root: Json, domain: Json, local: Json, strict: bool, nowMs: int, env: Env) returns (b: Build)
    ensures IsBuild(b, Rich(root, domain, local), HashesOf(root, domain, local, env), strict, nowMs, env)
    ensures b.Stale? || b.Safe? ==>
      && b.hashes.root == env.hash(if root.Obj? then root else Obj(map[]))
      && b.hashes.domain == env.hash(if domain.Obj? then domain else Obj(map[]))
      && b.hashes.local == env.hash(if local.Obj? then local else Obj(map[]))
  {
    var merged := DeepMerge.DeepMerge(EMPTY, OrEmpty(root));
    merged := DeepMerge.DeepMerge(merged, OrEmpty(domain));
    merged := DeepMerge.DeepMerge(merged, OrEmpty(local));
    var rich := merged.fields;
    b := BuildFrom(rich, HashesOf(root, domain, local, env), strict, nowMs, env);
  }

  /** From the merged context on. */
  method BuildFrom(rich: Fields, hashes: LayerHashes, strict: bool, nowMs: int, env: Env) returns (b: Build)
    ensures IsBuild(b, rich, hashes, strict, nowMs, env)
  {
    hide *;
    var shards := Shards(rich);
    if shards.None? {
      NoShards(rich, hashes, strict, nowMs, env);
      return Raised;
    }
    var setting := SettingOf(rich, nowMs, env);
    var evidence := ExtractEvidence(shards.value, env);
    var projected := Project(evidence, rich, nowMs, env);
    var suppressed := IsSuppressed(evidence, projected);
    if suppressed && strict {
      SuppressedIsStale(evidence, projected, rich, hashes, nowMs, env);
      return Stale(hashes);
    }
    var cSafe := Rebuild(rich, projected);
    var hSafe := env.hash(Obj(cSafe));
    SettledIsSafe(evidence, projected, rich, hashes, strict, nowMs, env);
    return Safe(Published(cSafe, MetaOf(hashes, hSafe)), hashes, hSafe);
  }

  lemma NoShards(rich: Fields, hashes: LayerHashes, strict: bool, nowMs: int, env: Env)
    requires Shards(rich).None?
    ensures IsBuild(Raised, rich, hashes, strict, nowMs, env)
  {
  }

  method Project(evidence: seq<Annotated>, rich: Fields, nowMs: int, env: Env) returns (projected: Fields)
    requires Shards(rich).Some? && Lists(evidence, Shards(rich).value, env)
    ensures IsProjection(projected, rich, nowMs, env)
  {
    var safe := PiSafe(evidence, SettingOf(rich, nowMs, env), map[]);
    projected := ProjectedValues(safe);
    ProjectionIsExact(evidence, safe, projected, rich, nowMs, env);
  }

  method Rebuild(rich: Fields, projected: Fields) returns (cSafe: Fields)
    ensures cSafe == SafeFields(rich, projected)
  {
    var sections := CopySections(rich);
    hide Sections;
    var modal := FieldsOf(sections, MODAL);
    cSafe := sections[LITERALS := Obj(FieldsOf(sections, LITERALS) + projected)];
    cSafe := cSafe[MODAL := Obj(modal[KNOWLEDGE := Obj(FieldsOf(modal, KNOWLEDGE) + projected)])];
    cSafe := cSafe[AXIOMS := Obj(FieldsOf(sections, AXIOMS))];
  }

  lemma SettledIsSafe(evidence: seq<Annotated>, projected: Fields, rich: Fields, hashes: LayerHashes, strict: bool,
                      nowMs: int, env: Env)
    requires Shards(rich).Some? && Lists(evidence, Shards(rich).value, env) && IsProjection(projected, rich, nowMs, env)
    requires strict ==> forall x :: x in evidence ==> x.predicateName in projected
    ensures
      var hSafe := env.hash(Obj(SafeFields(rich, projected)));
      IsBuild(Safe(Published(SafeFields(rich, projected), MetaOf(hashes, hSafe)), hashes, hSafe), rich, hashes,
        strict, nowMs, env)
  {
    hide Agrees, IsEvidence, SafeFields, Published, MetaOf;
    if strict {
      forall p | IsReported(rich, p, env) ensures exists v :: Agrees(rich, nowMs, p, v, env) {
        var x :| IsEvidence(x, Shards(rich).value, env) && x.predicateName == p;
        assert x in evidence;
        assert Agrees(rich, nowMs, p, projected[p], env);
      }
    }
  }

  lemma ProjectionIsExact(evidence: seq<Annotated>, safe: seq<Bare>, projected: Fields, rich: Fields, nowMs: int,
                          env: Env)
    requires Shards(rich).Some? && Lists(evidence, Shards(rich).value, env)
    requires forall p, k :: Promotes(safe, p, k) <==> HasConsensus(evidence, p, k, SettingOf(rich, nowMs, env))
    requires forall b :: b in safe ==> IsWitnessed(b, evidence, SettingOf(rich, nowMs, env))
    requires forall b :: b in safe ==> b.predicateName in projected && projected[b.predicateName] == ContentOf(b.value)
    requires forall p :: p in projected ==> exists b :: b in safe && b.predicateName == p
    ensures IsProjection(projected, rich, nowMs, env)
  {
    hide Agrees, IsWitnessed, HasConsensus, Promotes, Lists, Shards, SettingOf;
    forall p | p in projected ensures Agrees(rich, nowMs, p, projected[p], env) {
      var b :| b in safe && b.predicateName == p;
      PromotedAgrees(evidence, safe, rich, nowMs, b, env);
    }
    forall p, v | Agrees(rich, nowMs, p, v, env) ensures p in projected {
      AgreedIsPromoted(evidence, safe, rich, nowMs, p, v, env);
    }
  }

  lemma SuppressedIsStale(evidence: seq<Annotated>, projected: Fields, rich: Fields, hashes: LayerHashes,
                          nowMs: int, env: Env)
    requires Shards(rich).Some? && Lists(evidence, Shards(rich).value, env) && IsProjection(projected, rich, nowMs, env)
    requires exists x :: x in evidence && x.predicateName !in projected
    ensures IsBuild(Stale(hashes), rich, hashes, true, nowMs, env)
  {
    hide Agrees, IsEvidence;
    var x :| x in evidence && x.predicateName !in projected;
    assert IsReported(rich, x.predicateName, env);
  }

  // ----- What a safe context guarantees -----

  function IfScalar(v: Option<Json>): Option<Json> {
    if v.Some? && IsScalar(v.value) then v else None
  }

  lemma CleanedLiterals(rich: Fields, p: string)
    ensures Find(FieldsOf(Sections(rich), LITERALS), p) == IfScalar(Find(FieldsOf(rich, LITERALS), p))
  {
    DistinctNames();
    var w := WithRel(rich);
    assert Find(w, LITERALS) == Find(rich, LITERALS);
    if LITERALS in w {
      ModalSection(w[LITERALS]);
    }
    hide Section;
  }

  lemma CleanedKnowledge(rich: Fields, p: string)
    ensures Find(FieldsOf(FieldsOf(Sections(rich), MODAL), KNOWLEDGE), p)
      == IfScalar(Find(FieldsOf(FieldsOf(rich, MODAL), KNOWLEDGE), p))
  {
    DistinctNames();
    var w := WithRel(rich);
    assert Find(w, MODAL) == Find(rich, MODAL);
    if MODAL in w {
      ModalSection(w[MODAL]);
    }
    hide Section;
  }

  /**
   * The literals and the knowledge of a safe context, entry by entry: the consensus value where there is one,
   * else the scalar the merged layers hold, else nothing.
   */
  lemma {:induction false} SafeEntries(rich: Fields, projected: Fields, meta: Json, p: string)
    ensures
      var cSafe := Published(SafeFields(rich, projected), meta);
      && Find(FieldsOf(cSafe, LITERALS), p) == (
           if p in projected then Some(projected[p]) else IfScalar(Find(FieldsOf(rich, LITERALS), p)))
      && Find(FieldsOf(FieldsOf(cSafe, MODAL), KNOWLEDGE), p) == (
           if p in projected then Some(projected[p]) else IfScalar(Find(FieldsOf(FieldsOf(rich, MODAL), KNOWLEDGE), p)))
  {
    DistinctNames();
    CleanedLiterals(rich, p);
    CleanedKnowledge(rich, p);
    hide Sections, IfScalar;
  }

  /** Nothing but the nine canonical subtrees and the informational part gets through, the evidence least of all. */
  lemma OnlyCanonicalSubtrees(rich: Fields, projected: Fields, meta: Json, k: string)
    requires k in Published(SafeFields(rich, projected), meta)
    ensures k in {LITERALS, "temporal", MODAL, AXIOMS, "spatial", "entities", REL, "audit", "delivery", META}
    ensures k != EVIDENCE && k != RELATIONS
  {
    NamesDiffer();
    if k in Sections(rich) {
      Names(k, WithRel(rich)[k]);
    }
    hide Pick, NonEmpty;
  }

  /**
   * Strict mode is sound: when a safe context comes out, every predicate with evidence, however old or doubtful that
   * evidence was, has a consensus, and its consensus value is what the knowledge and the literals hold.
   */
  lemma {:induction false} StrictIsSound(b: Build, rich: Fields, hashes: LayerHashes, nowMs: int, env: Env, p: string)
    requires IsBuild(b, rich, hashes, true, nowMs, env) && b.Safe? && IsReported(rich, p, env)
    ensures
      var knowledge := FieldsOf(FieldsOf(b.cSafe, MODAL), KNOWLEDGE);
      p in knowledge && Agrees(rich, nowMs, p, knowledge[p], env) &&
        Find(FieldsOf(b.cSafe, LITERALS), p) == Some(knowledge[p])
  {
    hide Agrees, IsReported, SafeFields, MetaOf;
    var projected :| IsProjection(projected, rich, nowMs, env)
      && b.cSafe == Published(SafeFields(rich, projected), MetaOf(hashes, b.hSafe))
      && b.hSafe == env.hash(Obj(SafeFields(rich, projected)));
    SafeEntries(rich, projected, MetaOf(hashes, b.hSafe), p);
  }

  lemma NothingAgrees(rich: Fields, nowMs: int, p: string, v: Json, env: Env)
    requires Shards(rich) == Some([])
    ensures !Agrees(rich, nowMs, p, v, env)
  {
    var none: seq<Annotated> := [];
    assert Lists(none, [], env);
    ConsensusIsAgreement(none, rich, nowMs, p, v, env);
  }

  lemma NothingReported(rich: Fields, p: string, env: Env)
    requires Shards(rich) == Some([])
    ensures !IsReported(rich, p, env)
  {
  }

  /** Behind a value the evidence agrees on is an entry that is recent and confident enough. */
  lemma AgreementHasWitness(rich: Fields, nowMs: int, p: string, v: Json, env: Env)
    requires Shards(rich).Some? && Agrees(rich, nowMs, p, v, env)
    ensures exists x ::
      && IsEvidence(x, Shards(rich).value, env) && x.predicateName == p && KeyOf(x.value) == KeyOf(ReadingOf(v, env))
      && -MAX_CLOCK_SKEW_MS <= ResolveNow(rich, nowMs, env) - x.timestamp <= 1000
      && x.confidence.Finite? && x.confidence.level >= env.theta
  {
    hide IsEvidence, ResolveNow;
    var evidence :| Lists(evidence, Shards(rich).value, env)
      && HasConsensus(evidence, p, KeyOf(ReadingOf(v, env)).value, SettingOf(rich, nowMs, env));
    ConsensusHasWitness(evidence, p, KeyOf(ReadingOf(v, env)).value, SettingOf(rich, nowMs, env));
  }

  /** The safe context carries no evidence, so nothing is projected from it. */
  lemma SafeHasNoEvidence(rich: Fields, projected: Fields, meta: Json)
    ensures Shards(Published(SafeFields(rich, projected), meta)) == Some([])
  {
    NoSuchKey(rich, projected, EVIDENCE);
    NoSuchKey(rich, projected, ROOT);
    NamesDiffer();
  }

  lemma RichOfLocal(local: Fields)
    ensures Rich(EMPTY, EMPTY, Obj(local)) == local
  {
    EmptyIsIdentity(EMPTY);
    EmptyIsIdentity(Obj(local));
  }

  lemma MetaComesOff(rich: Fields, projected: Fields, meta: Json)
    ensures Published(SafeFields(rich, projected), meta) - {META} == SafeFields(rich, projected)
  {
    DistinctNames();
    if META in Sections(rich) {
      Names(META, WithRel(rich)[META]);
    }
  }

  /**
   * A safe context fed back as the local layer, under any clock and in either mode, builds the same safe context
   * with the same H_safe, exactly when all consensus values were scalars.
   */
  lemma BuildIsIdempotent(rich: Fields, projected: Fields, meta: Json, hashes: LayerHashes, strict: bool,
                          nowMs: int, env: Env, second: Build)
    requires IsBuild(second, Rich(EMPTY, EMPTY, Obj(Published(SafeFields(rich, projected), meta))), hashes, strict,
      nowMs, env)
    ensures second.Safe?
    ensures second.cSafe - {META} == SafeFields(rich, projected) <==> AllScalar(projected)
    ensures AllScalar(projected) ==> second.hSafe == env.hash(Obj(SafeFields(rich, projected)))
  {
    var first := Published(SafeFields(rich, projected), meta);
    RichOfLocal(first);
    SafeHasNoEvidence(rich, projected, meta);
    hide Agrees, IsReported, SafeFields, Shards, Rich, MetaOf;
    forall p, v ensures !Agrees(first, nowMs, p, v, env) {
      NothingAgrees(first, nowMs, p, v, env);
    }
    forall p ensures !IsReported(first, p, env) {
      NothingReported(first, p, env);
    }
    var again :| IsProjection(again, first, nowMs, env)
      && second.cSafe == Published(SafeFields(first, again), MetaOf(hashes, second.hSafe))
      && second.hSafe == env.hash(Obj(SafeFields(first, again)));
    assert again == map[];
    MetaComesOff(first, again, MetaOf(hashes, second.hSafe));
    SafeContextIsFixed(rich, projected, meta);
  }
}
