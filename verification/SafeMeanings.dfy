/** What the safe context counts and keeps, written out: readings and limits by number, sections and fields by name. */
module SafeMeanings {
  import opened Options
  import opened Json
  import opened DeepMerge
  import opened Projection
  import opened SafeContext
  import opened SafeBuild

  // ----- Numbers and values -----

  function Power(e: nat): nat {
    if e == 0 then 1 else 2 * Power(e - 1)
  }

  lemma {:induction false} ScaledUp(m: nat, e: nat)
    ensures Scaled(m, e) == m * Power(e)
    decreases e
  {
    if e > 0 {
      ScaledUp(2 * m, e - 1);
    }
  }

  lemma {:induction false} ScaledDown(m: nat, e: int)
    requires e >= 0
    ensures Scaled(m, -e) >= 0
    ensures Scaled(m, -e) * Power(e) <= m < (Scaled(m, -e) + 1) * Power(e)
    decreases e
  {
    if e > 0 {
      ScaledDown(m / 2, e - 1);
      assert Scaled(m, -e) == Scaled(m / 2, -(e - 1));
      Doubled(m, Scaled(m, -e), Power(e - 1));
    }
  }

  lemma Doubled(m: nat, q: int, w: nat)
    requires q * w <= m / 2 < (q + 1) * w
    ensures q * (2 * w) <= m < (q + 1) * (2 * w)
  {
    assert q * (2 * w) == 2 * (q * w) && (q + 1) * (2 * w) == 2 * ((q + 1) * w);
  }

  /** A whole float converts to its value. */
  lemma WholeMeans(m: int, e: nat, env: Env)
    ensures ToInt(Real(m, e), env) == Some(m * Power(e))
  {
    var a: nat := if m < 0 then -m else m;
    ScaledUp(a, e);
    hide Power, Scaled;
    assert -(a * Power(e)) == (-(a as int)) * Power(e);
  }

  /** Converting to an integer cuts off what is behind the point, towards zero on either side. */
  lemma TruncationMeans(m: int, e: int, env: Env)
    requires e >= 0
    ensures
      var r := ToInt(Real(m, -e), env);
      && r.Some?
      && (m >= 0 ==> r.value * Power(e) <= m < (r.value + 1) * Power(e))
      && (m < 0 ==> (r.value - 1) * Power(e) < m <= r.value * Power(e))
  {
    hide Power, Scaled;
    if m < 0 {
      ScaledDown(-m, e);
      Mirrored(-m, Scaled(-m, -e), Power(e));
    } else {
      ScaledDown(m, e);
    }
  }

  lemma Mirrored(a: int, q: int, w: int)
    requires q * w <= a < (q + 1) * w
    ensures (-q - 1) * w < -a <= -q * w
  {
    assert (-q - 1) * w == -((q + 1) * w);
  }

  /** The clock is what the context says the time is, if it says so and that converts, and else the caller's. */
  lemma ClockMeans(rich: Fields, nowMs: int, env: Env)
    ensures
      var temporal := if "temporal" in rich && rich["temporal"].Obj? then rich["temporal"].fields else map[];
      var now := ResolveNow(rich, nowMs, env);
      if "now" !in temporal then now == nowMs
      else match temporal["now"]
        case Num(n) => now == n
        case Real(_, _) => ToInt(temporal["now"], env) == Some(now)
        case Bool(b) => now == if b then 1 else 0
        case Str(s) => now == if env.parseInt(s).Some? then env.parseInt(s).value else nowMs
        case _ => now == nowMs
  {
  }

  /** Two JSON values count as one reading if they are the same scalar, or objects or lists with one canonical text. */
  lemma ReadingsMean(v: Json, w: Json, env: Env)
    ensures KeyOf(ReadingOf(v, env)).Some?
    ensures KeyOf(ReadingOf(v, env)) == KeyOf(ReadingOf(w, env)) <==>
      if v.Obj? || v.Arr? then (w.Obj? || w.Arr?) && env.canon(v) == env.canon(w) else v == w
  {
    assert |"NoneType"| == 8 && |"bool"| == 4 && |"int"| == |"str"| == 3 && |"float"| == 5;
    assert "int"[0] == 'i' && "str"[0] == 's';
  }

  // ----- Evidence -----

  /** An entry is a reading exactly if it is a dict with a timestamp and a confidence that convert. */
  lemma EntryMeans(p: string, entry: Json, env: Env, x: Annotated)
    ensures AnnotatedOf(p, entry, env) == Some(x) <==>
      && entry.Obj?
      && var f := entry.fields;
      && "timestamp" in f && f["timestamp"] != Null && ToInt(f["timestamp"], env) == Some(x.timestamp)
      && "confidence" in f && f["confidence"] != Null
      && x.confidence.Finite? && env.confidence(f["confidence"]) == Some(x.confidence.level)
      && x.predicateName == p
      && x.value == ReadingOf(if "value" in f then f["value"] else Null, env)
      && x.source == env.sourceName(if "source" in f then f["source"] else Str("unknown"))
  {
  }

  /** The evidence of a flat context is what its own map holds; of a layered one, what the maps of its layers hold. */
  lemma ShardsMean(rich: Fields)
    ensures
      var layered := "root" in rich && "domain" in rich && "local" in rich;
      && (!layered && "evidence" !in rich ==> Shards(rich) == Some([]))
      && (!layered && "evidence" in rich && rich["evidence"].Obj? ==>
            Shards(rich) == Some(if rich["evidence"].fields == map[] then [] else [rich["evidence"].fields]))
      && (!layered && "evidence" in rich && !rich["evidence"].Obj? ==>
            Shards(rich) == if Truthy(rich["evidence"]) then None else Some([]))
      && (layered && rich["root"].Obj? && rich["domain"].Obj? && rich["local"].Obj? ==>
            Shards(rich) == Some([EvidenceOf(rich["root"].fields), EvidenceOf(rich["domain"].fields),
                                  EvidenceOf(rich["local"].fields)]))
      && (layered && !(rich["root"].Obj? && rich["domain"].Obj? && rich["local"].Obj?) ==> Shards(rich) == None)
  {
  }

  function EvidenceOf(layer: Fields): Fields {
    if "evidence" in layer && layer["evidence"].Obj? then layer["evidence"].fields else map[]
  }

  // ----- The layers and the hashes -----

  /** What is read of the layers: root under domain under local, path by path; a layer that is no dict is silent. */
  lemma LayersMean(root: Json, domain: Json, local: Json, path: seq<string>)
    requires path != []
    ensures
      var r := if root.Obj? then root else Obj(map[]);
      var d := if domain.Obj? then domain else Obj(map[]);
      var l := if local.Obj? then local else Obj(map[]);
      var rich := Obj(Rich(root, domain, local));
      && (Has(l, path) && !At(l, path).Obj? ==> Has(rich, path) && At(rich, path) == At(l, path))
      && (Has(d, path) && !At(d, path).Obj? && Spares(l, path) ==> Has(rich, path) && At(rich, path) == At(d, path))
      && (Has(r, path) && Spares(d, path) && Spares(l, path) ==> Has(rich, path) && At(rich, path) == At(r, path))
  {
    LocalThenDomainThenRoot(OrEmpty(root), OrEmpty(domain), OrEmpty(local), path);
    assert View(OrEmpty(root), OrEmpty(domain), OrEmpty(local)).Obj?;
    hide View;
  }

  /** The informational part names the hashes of the raw layers, and the hash of all the rest of the safe context. */
  lemma MetaMeans(b: Build, rich: Fields, hashes: LayerHashes, strict: bool, nowMs: int, env: Env)
    requires IsBuild(b, rich, hashes, strict, nowMs, env) && b.Safe?
    ensures "meta" in b.cSafe && b.cSafe["meta"].Obj?
    ensures
      var meta := b.cSafe["meta"].fields;
      && meta.Keys == {"h_root", "h_domain", "h_local", "h_safe"}
      && meta["h_root"] == Str(hashes.root) && meta["h_domain"] == Str(hashes.domain)
      && meta["h_local"] == Str(hashes.local) && meta["h_safe"] == Str(b.hSafe)
    ensures b.hSafe == env.hash(Obj(b.cSafe - {"meta"}))
  {
    hide Agrees, IsReported, SafeFields, MetaOf;
    var projected :| IsProjection(projected, rich, nowMs, env)
      && b.cSafe == Published(SafeFields(rich, projected), MetaOf(hashes, b.hSafe))
      && b.hSafe == env.hash(Obj(SafeFields(rich, projected)));
    MetaComesOff(rich, projected, MetaOf(hashes, b.hSafe));
    MetaFields(hashes, b.hSafe);
  }

  lemma MetaFields(hashes: LayerHashes, hSafe: string)
    ensures MetaOf(hashes, hSafe).Obj?
    ensures
      var meta := MetaOf(hashes, hSafe).fields;
      && meta.Keys == {"h_root", "h_domain", "h_local", "h_safe"}
      && meta["h_root"] == Str(hashes.root) && meta["h_domain"] == Str(hashes.domain)
      && meta["h_local"] == Str(hashes.local) && meta["h_safe"] == Str(hSafe)
  {
    assert |"h_root"| == |"h_safe"| == 6 && |"h_domain"| == 8 && |"h_local"| == 7;
    assert "h_root"[2] == 'r' && "h_safe"[2] == 's';
  }

  // ----- Agreement -----

  /** A reading of the predicate that is at most 200 ms ahead, at most 1000 ms old and confident enough. */
  ghost predicate Counts(x: Annotated, rich: Fields, now: int, p: string, env: Env)
    requires Shards(rich).Some?
  {
    && IsEvidence(x, Shards(rich).value, env)
    && x.predicateName == p
    && -200 <= now - x.timestamp <= 1000
    && x.confidence.Finite? && x.confidence.level >= env.theta
  }

  /** One that counts, and than which none that counts is newer by more than 100 ms. */
  ghost predicate IsLatest(x: Annotated, rich: Fields, now: int, p: string, env: Env)
    requires Shards(rich).Some?
  {
    Counts(x, rich, now, p, env) && forall y :: Counts(y, rich, now, p, env) ==> y.timestamp <= x.timestamp + 100
  }

  lemma {:induction false} Listed(all: set<Annotated>) returns (listing: seq<Annotated>)
    ensures forall x :: x in listing <==> x in all
    decreases |all|
  {
    if all == {} {
      listing := [];
    } else {
      var x :| x in all;
      var rest := Listed(all - {x});
      listing := [x] + rest;
    }
  }

  ghost function EvidenceSet(shards: seq<Fields>, env: Env): set<Annotated> {
    set i, p, j |
      0 <= i < |shards| && p in shards[i] && shards[i][p].Arr? && 0 <= j < |shards[i][p].items| &&
        AnnotatedOf(p, shards[i][p].items[j], env).Some? ::
      AnnotatedOf(p, shards[i][p].items[j], env).value
  }

  lemma EvidenceCanBeListed(shards: seq<Fields>, env: Env) returns (evidence: seq<Annotated>)
    ensures Lists(evidence, shards, env)
  {
    evidence := Listed(EvidenceSet(shards, env));
    forall p, entry ensures AnnotatedOf(p, entry, env).Some? ==> AnnotatedOf(p, entry, env).value.predicateName == p {
    }
    hide AnnotatedOf;
    forall x | IsEvidence(x, shards, env) ensures x in EvidenceSet(shards, env) {
      var entry :| IsEntry(x.predicateName, entry, shards) && AnnotatedOf(x.predicateName, entry, env) == Some(x);
      var p := x.predicateName;
      var i :| 0 <= i < |shards| && p in shards[i] && shards[i][p].Arr? && entry in shards[i][p].items;
      var j :| 0 <= j < |shards[i][p].items| && shards[i][p].items[j] == entry;
    }
    forall x | x in EvidenceSet(shards, env) ensures IsEvidence(x, shards, env) {
      var i, p, j :| 0 <= i < |shards| && p in shards[i] && shards[i][p].Arr? && 0 <= j < |shards[i][p].items| &&
        AnnotatedOf(p, shards[i][p].items[j], env) == Some(x);
      assert IsEntry(p, shards[i][p].items[j], shards);
    }
  }

  /**
   * The evidence agrees on a value exactly when it is the reading of a latest entry, and of every latest entry: the
   * entries at most 100 ms behind the newest of those that are confident, at most 200 ms ahead and 1000 ms old.
   */
  lemma AgreementMeans(rich: Fields, nowMs: int, p: string, v: Json, env: Env)
    requires Shards(rich).Some?
    ensures
      var now := ResolveNow(rich, nowMs, env);
      var key := KeyOf(ReadingOf(v, env));
      Agrees(rich, nowMs, p, v, env) <==>
        && (exists x :: IsLatest(x, rich, now, p, env) && KeyOf(x.value) == key)
        && (forall x :: IsLatest(x, rich, now, p, env) ==> KeyOf(x.value) == key)
  {
    var evidence := EvidenceCanBeListed(Shards(rich).value, env);
    var s := SettingOf(rich, nowMs, env);
    var k := KeyOf(ReadingOf(v, env)).value;
    var now := ResolveNow(rich, nowMs, env);
    ReadingsMean(v, v, env);
    ConsensusIsAgreement(evidence, rich, nowMs, p, v, env);
    ConsensusMeans(evidence, p, k, s);
    assert s.explained(p);
    forall x ensures Leads(x, evidence, p, s) <==> IsLatest(x, rich, now, p, env) {
      LeadingIsLatest(evidence, rich, nowMs, p, env, x);
    }
    hide *;
    forall x | IsLatest(x, rich, now, p, env) ensures KeyOf(x.value).Some? {
      EvidenceHasKey(x, Shards(rich).value, env);
    }
  }

  lemma LeadingIsLatest(evidence: seq<Annotated>, rich: Fields, nowMs: int, p: string, env: Env, x: Annotated)
    requires Shards(rich).Some? && Lists(evidence, Shards(rich).value, env)
    ensures Leads(x, evidence, p, SettingOf(rich, nowMs, env)) <==>
      IsLatest(x, rich, ResolveNow(rich, nowMs, env), p, env)
  {
    var s, now := SettingOf(rich, nowMs, env), ResolveNow(rich, nowMs, env);
    assert forall y :: MeetsLimits(y, s) <==>
      -200 <= now - y.timestamp <= 1000 && y.confidence.Finite? && y.confidence.level >= env.theta;
    assert s.config.tauWindowMs == 100;
    hide IsEvidence, MeetsLimits, SettingOf, ResolveNow;
    assert forall y :: y in evidence && y.predicateName == p && MeetsLimits(y, s) <==> Counts(y, rich, now, p, env);
  }

  lemma EvidenceHasKey(x: Annotated, shards: seq<Fields>, env: Env)
    requires IsEvidence(x, shards, env)
    ensures KeyOf(x.value).Some?
  {
    EvidenceIsJson(x, shards, env);
    ReadingsMean(ContentOf(x.value), Null, env);
  }

  /** Two latest entries that read differently suppress the predicate, and make a strict build stale. */
  lemma ConflictIsStale(b: Build, rich: Fields, hashes: LayerHashes, strict: bool, nowMs: int, env: Env, p: string,
                        x: Annotated, y: Annotated)
    requires IsBuild(b, rich, hashes, strict, nowMs, env) && Shards(rich).Some?
    requires IsLatest(x, rich, ResolveNow(rich, nowMs, env), p, env)
    requires IsLatest(y, rich, ResolveNow(rich, nowMs, env), p, env)
    requires KeyOf(x.value) != KeyOf(y.value)
    ensures forall v :: !Agrees(rich, nowMs, p, v, env)
    ensures strict ==> b == Stale(hashes)
    ensures !strict ==> b.Safe?
    ensures b.Safe? ==> (
      Find(FieldsOf(FieldsOf(b.cSafe, "modal"), "knowledge"), p) ==
        IfScalar(Find(FieldsOf(FieldsOf(rich, "modal"), "knowledge"), p)))
  {
    forall v ensures !Agrees(rich, nowMs, p, v, env) {
      AgreementMeans(rich, nowMs, p, v, env);
    }
    assert IsReported(rich, p, env);
    hide Agrees, IsLatest, IsReported, SafeFields, MetaOf, IfScalar;
    if b.Safe? {
      var projected :| IsProjection(projected, rich, nowMs, env)
        && b.cSafe == Published(SafeFields(rich, projected), MetaOf(hashes, b.hSafe))
        && b.hSafe == env.hash(Obj(SafeFields(rich, projected)));
      SafeEntries(rich, projected, MetaOf(hashes, b.hSafe), p);
    }
  }

  /** There are latest entries of the predicate, and they all read alike. */
  ghost predicate IsSettled(rich: Fields, now: int, p: string, env: Env)
    requires Shards(rich).Some?
  {
    && (exists x :: IsLatest(x, rich, now, p, env))
    && (forall x, y :: IsLatest(x, rich, now, p, env) && IsLatest(y, rich, now, p, env) ==>
          KeyOf(x.value) == KeyOf(y.value))
  }

  lemma LatestIsEvidence(x: Annotated, rich: Fields, now: int, p: string, env: Env)
    requires Shards(rich).Some? && IsLatest(x, rich, now, p, env)
    ensures IsEvidence(x, Shards(rich).value, env)
  {
  }

  lemma SettledMeans(rich: Fields, nowMs: int, p: string, env: Env)
    requires Shards(rich).Some?
    ensures (exists v :: Agrees(rich, nowMs, p, v, env)) <==> IsSettled(rich, ResolveNow(rich, nowMs, env), p, env)
  {
    var now := ResolveNow(rich, nowMs, env);
    hide Agrees, Counts, KeyOf, ReadingOf, ResolveNow, IsEvidence;
    if v :| Agrees(rich, nowMs, p, v, env) {
      AgreementMeans(rich, nowMs, p, v, env);
    }
    if x :| IsLatest(x, rich, now, p, env) {
      assert IsEvidence(x, Shards(rich).value, env) by { LatestIsEvidence(x, rich, now, p, env); }
      EvidenceIsJson(x, Shards(rich).value, env);
      AgreementMeans(rich, nowMs, p, ContentOf(x.value), env);
    }
  }

  /** A strict build succeeds exactly when every predicate with evidence is settled. */
  lemma {:induction false} StrictMeans(b: Build, rich: Fields, hashes: LayerHashes, nowMs: int, env: Env)
    requires IsBuild(b, rich, hashes, true, nowMs, env) && Shards(rich).Some?
    ensures b.Safe? <==>
      forall p :: IsReported(rich, p, env) ==> IsSettled(rich, ResolveNow(rich, nowMs, env), p, env)
    ensures !b.Safe? ==> b == Stale(hashes)
  {
    hide Agrees, IsSettled, IsReported, KeyOf;
    forall p
      ensures IsSettled(rich, ResolveNow(rich, nowMs, env), p, env) <==> exists v :: Agrees(rich, nowMs, p, v, env)
    {
      SettledMeans(rich, nowMs, p, env);
    }
  }

  // ----- Sections, field by field -----

  function Inside(v: Option<Json>): Fields {
    if v.Some? && v.value.Obj? then v.value.fields else map[]
  }

  lemma PickedInside(clean: Cleaner, v: Option<Json>, picked: Option<Json>, k: string)
    requires v.Some? ==> picked == Pick(clean, v.value) || picked == NonEmpty(Pick(clean, v.value))
    requires v.None? ==> picked == None
    ensures Find(Inside(picked), k) == if k in Inside(v) then clean(k, Inside(v)[k]) else None
  {
  }

  /** Where a section of the safe context comes from. */
  lemma SectionOf(rich: Fields, projected: Fields, name: string)
    requires name in {"temporal", "spatial", "entities", "rel", "audit", "delivery"}
    ensures
      var w := WithRel(rich);
      Find(SafeFields(rich, projected), name) == if name in w then Section(name, w[name]) else None
    ensures name != "rel" ==> Find(WithRel(rich), name) == Find(rich, name)
  {
    assert |"temporal"| == |"entities"| == |"delivery"| == |LITERALS| == 8 && |"spatial"| == 7 && |"rel"| == 3;
    assert |"audit"| == |MODAL| == 5 && |AXIOMS| == 6 && LITERALS[0] == 'l' && MODAL[0] == 'm';
    hide Section;
  }

  /** Time: four integers. */
  lemma TemporalMeans(rich: Fields, projected: Fields, k: string, v: Json)
    ensures Find(FieldsOf(SafeFields(rich, projected), "temporal"), k) == Some(v) <==>
      && Find(FieldsOf(rich, "temporal"), k) == Some(v) && v.Num?
      && k in {"now", "max_skew_ms", "now_us", "max_staleness_us"}
  {
    SectionOf(rich, projected, "temporal");
    var t := Find(rich, "temporal");
    hide SafeFields;
    PickedInside(TemporalField, t, if t.Some? then Section("temporal", t.value) else None, k);
  }

  /** Space: three parameters as they are. */
  lemma SpatialMeans(rich: Fields, projected: Fields, k: string, v: Json)
    ensures Find(FieldsOf(SafeFields(rich, projected), "spatial"), k) == Some(v) <==>
      && Find(FieldsOf(rich, "spatial"), k) == Some(v)
      && k in {"thresholds", "thresholds_mm", "orientation"}
  {
    SectionOf(rich, projected, "spatial");
    var t := Find(rich, "spatial");
    hide SafeFields;
    PickedInside(SpatialField, t, if t.Some? then Section("spatial", t.value) else None, k);
  }

  /** A nested picker, one level down. */
  lemma PickedTwice(clean: Cleaner, outer: Cleaner, v: Option<Json>, picked: Option<Json>, e: string, k: string)
    requires forall n, j :: outer(n, j) == NonEmpty(Pick(clean, j))
    requires v.Some? ==> picked == Pick(outer, v.value) || picked == NonEmpty(Pick(outer, v.value))
    requires v.None? ==> picked == None
    ensures
      var from := FieldsOf(Inside(v), e);
      Find(FieldsOf(Inside(picked), e), k) == if k in from then clean(k, from[k]) else None
  {
    PickedInside(outer, v, picked, e);
    var sub := Find(Inside(v), e);
    var subPicked := if sub.Some? then outer(e, sub.value) else None;
    assert Find(Inside(picked), e) == subPicked;
    hide Pick, NonEmpty;
    PickedInside(clean, sub, subPicked, k);
  }

  lemma EntitiesSection(rich: Fields, projected: Fields)
    ensures
      var t := Find(rich, "entities");
      Find(SafeFields(rich, projected), "entities") == if t.Some? then NonEmpty(Pick(Entity, t.value)) else None
  {
    SectionOf(rich, projected, "entities");
    hide SafeFields, Pick, NonEmpty;
  }

  lemma EntityIsPicked()
    ensures forall k, v :: Entity(k, v) == NonEmpty(Pick(Vector, v))
  {
  }

  /** Entities: of four vectors each, the entries that are numbers. */
  lemma EntitiesMean(rich: Fields, projected: Fields, entity: string, k: string, i: string, v: Json)
    ensures Find(FieldsOf(FieldsOf(FieldsOf(SafeFields(rich, projected), "entities"), entity), k), i) == Some(v) <==>
      && Find(FieldsOf(FieldsOf(FieldsOf(rich, "entities"), entity), k), i) == Some(v) && (v.Num? || v.Real?)
      && k in {"position", "velocity", "orientation", "bounds"}
  {
    var t := Find(rich, "entities");
    var picked := if t.Some? then NonEmpty(Pick(Entity, t.value)) else None;
    EntitiesSection(rich, projected);
    EntityIsPicked();
    hide SafeFields, Pick, NonEmpty, Entity, Vector;
    PickedTwice(Vector, Entity, t, picked, entity, k);
    var from := Find(FieldsOf(Inside(t), entity), k);
    VectorMeans(k, from, i, v);
  }

  lemma VectorMeans(k: string, from: Option<Json>, i: string, v: Json)
    ensures Find(Inside(if from.Some? then Vector(k, from.value) else None), i) == Some(v) <==>
      Find(Inside(from), i) == Some(v) && (v.Num? || v.Real?) && k in {"position", "velocity", "orientation", "bounds"}
  {
    if k in {"position", "velocity", "orientation", "bounds"} {
      PickedInside(Number, from, if from.Some? then Vector(k, from.value) else None, i);
    }
  }

  /** Relations: truth values, from `relations` where `rel` is missing or empty. */
  lemma RelationsMean(rich: Fields, projected: Fields, name: string, subject: string, target: string, v: Json)
    ensures
      var source := if "rel" in rich && Truthy(rich["rel"]) then "rel" else "relations";
      Find(FieldsOf(FieldsOf(FieldsOf(SafeFields(rich, projected), "rel"), name), subject), target) == Some(v) <==>
        Find(FieldsOf(FieldsOf(FieldsOf(rich, source), name), subject), target) == Some(v) && v.Bool?
  {
    SectionOf(rich, projected, "rel");
    var w := WithRel(rich);
    var t := Find(w, "rel");
    var picked := if t.Some? then NonEmpty(Pick(Subjects, t.value)) else None;
    RelSection(t.value);
    assert Find(SafeFields(rich, projected), "rel") == picked;
    RelationsStandIn(rich);
    hide SafeFields, Section, Pick, NonEmpty, WithRel;
    PickedTwice(Targets, Subjects, t, picked, name, subject);
    var from := Find(FieldsOf(Inside(t), name), subject);
    TargetsMean(from, target, v);
  }

  lemma TargetsMean(from: Option<Json>, target: string, v: Json)
    ensures Find(Inside(if from.Some? then Targets("", from.value) else None), target) == Some(v) <==>
      Find(Inside(from), target) == Some(v) && v.Bool?
  {
    PickedInside(Boolean, from, if from.Some? then Targets("", from.value) else None, target);
  }

  lemma RelationsStandIn(rich: Fields)
    ensures Find(WithRel(rich), "rel").Some?
    ensures Inside(Find(WithRel(rich), "rel")) ==
      FieldsOf(rich, if "rel" in rich && Truthy(rich["rel"]) then "rel" else "relations")
  {
  }

  /** The audit is known to be there, no more. */
  lemma AuditMeans(rich: Fields, projected: Fields)
    ensures "audit" in SafeFields(rich, projected) <==> "audit" in rich && rich["audit"].Obj?
    ensures FieldsOf(SafeFields(rich, projected), "audit") == map[]
  {
    SectionOf(rich, projected, "audit");
    hide SafeFields;
    assert |"temporal"| == |"entities"| == |"delivery"| == |LITERALS| == 8 && |"spatial"| == 7 && |REL| == 3;
    assert |"audit"| == |MODAL| == 5 && |AXIOMS| == 6 && MODAL[0] == 'm';
    assert "audit" in SafeFields(rich, projected) <==> Find(SafeFields(rich, projected), "audit").Some?;
    assert "audit" in rich <==> Find(rich, "audit").Some?;
  }

  /** Deliveries: of the status the texts, and the items. */
  lemma DeliveryParts(rich: Fields, projected: Fields, part: string)
    requires part == "status" || part == "items"
    ensures
      var from := Find(FieldsOf(rich, "delivery"), part);
      Find(FieldsOf(SafeFields(rich, projected), "delivery"), part) ==
        if from.None? then None else if part == "status" then Pick(Text, from.value) else Pick(Item, from.value)
  {
    SectionOf(rich, projected, "delivery");
    var t := Find(rich, "delivery");
    var picked := if t.Some? then NonEmpty(Pick(DeliveryField, t.value)) else None;
    assert Find(SafeFields(rich, projected), "delivery") == picked;
    assert "status" != "items";
    hide SafeFields, Section, Pick, NonEmpty;
    PickedInside(DeliveryField, t, picked, part);
  }

  lemma DeliveryStatusMeans(rich: Fields, projected: Fields, k: string, v: Json)
    ensures Find(FieldsOf(FieldsOf(SafeFields(rich, projected), "delivery"), "status"), k) == Some(v) <==>
      Find(FieldsOf(FieldsOf(rich, "delivery"), "status"), k) == Some(v) && v.Str?
  {
    DeliveryParts(rich, projected, "status");
    var status := Find(FieldsOf(rich, "delivery"), "status");
    hide SafeFields, Pick;
    PickedInside(Text, status, if status.Some? then Pick(Text, status.value) else None, k);
  }

  /** Of each item its status, verification and times; an item with a time that is no integer goes altogether. */
  lemma {:induction false} DeliveryItemsMean(rich: Fields, projected: Fields, item: string, k: string, v: Json)
    ensures
      var from := FieldsOf(FieldsOf(FieldsOf(rich, "delivery"), "items"), item);
      Find(FieldsOf(FieldsOf(FieldsOf(SafeFields(rich, projected), "delivery"), "items"), item), k) == Some(v) <==>
        && Find(from, k) == Some(v)
        && ("observed_at_ms" in from ==> from["observed_at_ms"].Num?)
        && ("expires_at_ms" in from ==> from["expires_at_ms"].Num?)
        && ((k == "status" && v.Str?) || (k == "verified" && v.Bool?) || k in {"observed_at_ms", "expires_at_ms"})
  {
    DeliveryParts(rich, projected, "items");
    assert "status" != "items";
    var items := Find(FieldsOf(rich, "delivery"), "items");
    hide SafeFields, Pick;
    PickedInside(Item, items, if items.Some? then Pick(Item, items.value) else None, item);
    ItemMeans(item, Find(Inside(items), item), k, v);
  }

  lemma ItemMeans(item: string, from: Option<Json>, k: string, v: Json)
    ensures
      var f := Inside(from);
      Find(Inside(if from.Some? then Item(item, from.value) else None), k) == Some(v) <==>
        && Find(f, k) == Some(v)
        && ("observed_at_ms" in f ==> f["observed_at_ms"].Num?)
        && ("expires_at_ms" in f ==> f["expires_at_ms"].Num?)
        && ((k == "status" && v.Str?) || (k == "verified" && v.Bool?) || k in {"observed_at_ms", "expires_at_ms"})
  {
    var f := Inside(from);
    assert |"status"| == 6 && |"verified"| == 8 && |"observed_at_ms"| == 14 && |"expires_at_ms"| == 13;
    var dropped := exists n :: n in f && IsTimeField(n) && !f[n].Num?;
    assert dropped <==>
      ("observed_at_ms" in f && !f["observed_at_ms"].Num?) || ("expires_at_ms" in f && !f["expires_at_ms"].Num?);
    if from.Some? && !dropped {
      PickedInside(ItemField, from, Item(item, from.value), k);
    }
  }

  /** Beliefs and certainties: the scalars. */
  lemma ModalMeans(rich: Fields, projected: Fields, m: string, k: string, v: Json)
    requires m != "knowledge"
    ensures Find(FieldsOf(FieldsOf(SafeFields(rich, projected), "modal"), m), k) == Some(v) <==>
      && Find(FieldsOf(FieldsOf(rich, "modal"), m), k) == Some(v) && (v.Bool? || v.Num? || v.Real? || v.Str?)
      && m in {"belief", "certainty"}
  {
    ModalPart(rich, projected, m);
    var t := Find(rich, "modal");
    var picked := if t.Some? then Pick(ModalField, t.value) else None;
    var from := Find(Inside(t), m);
    hide SafeFields;
    PickedInside(ModalField, t, picked, m);
    KindMeans(m, from, k, v);
  }

  lemma KindMeans(m: string, from: Option<Json>, k: string, v: Json)
    requires m != "knowledge"
    ensures Find(Inside(if from.Some? then ModalField(m, from.value) else None), k) == Some(v) <==>
      && Find(Inside(from), k) == Some(v) && (v.Bool? || v.Num? || v.Real? || v.Str?) && m in {"belief", "certainty"}
  {
    if m in {"belief", "certainty"} {
      PickedInside(Scalar, from, if from.Some? then ModalField(m, from.value) else None, k);
    }
  }

  /** Axioms: the value system, and nothing else; the section is there even if empty. */
  lemma AxiomsMean(rich: Fields, projected: Fields, k: string, v: Json)
    ensures "axioms" in SafeFields(rich, projected) && SafeFields(rich, projected)["axioms"].Obj?
    ensures Find(FieldsOf(SafeFields(rich, projected), "axioms"), k) == Some(v) <==>
      Find(FieldsOf(rich, "axioms"), k) == Some(v) && k == "value_system"
  {
  }

  lemma KeptOrGone(clean: Cleaner, v: Json)
    ensures NonEmpty(Pick(clean, v)).Some? ==> NonEmpty(Pick(clean, v)).value.Obj?
    ensures NonEmpty(Pick(clean, v)).Some? ==> NonEmpty(Pick(clean, v)).value.fields != map[]
  {
  }

  /**
   * Sections that cleaning leaves empty: time, entities, relations and deliveries go; literals, modal part, axioms and
   * an audit or a space that was there stay.
   */
  lemma {:induction false} EmptySectionsMean(rich: Fields, projected: Fields)
    ensures
      var safe := SafeFields(rich, projected);
      && "literals" in safe && "modal" in safe && "axioms" in safe
      && ("temporal" in safe <==> FieldsOf(safe, "temporal") != map[])
      && ("entities" in safe <==> FieldsOf(safe, "entities") != map[])
      && ("rel" in safe <==> FieldsOf(safe, "rel") != map[])
      && ("delivery" in safe <==> FieldsOf(safe, "delivery") != map[])
      && ("spatial" in safe <==> "spatial" in rich && rich["spatial"].Obj?)
  {
    var safe := SafeFields(rich, projected);
    forall name | name in {"temporal", "entities", "rel", "delivery"}
      ensures name in safe <==> FieldsOf(safe, name) != map[]
    {
      NoEmptySection(rich, projected, name);
    }
    SectionOf(rich, projected, "spatial");
    assert "spatial" in safe <==> Find(safe, "spatial").Some?;
    assert "spatial" in rich <==> Find(rich, "spatial").Some?;
    assert forall v :: Section("spatial", v) == Pick(SpatialField, v) by { SpatialSection(); }
    hide Section;
  }

  lemma SpatialSection()
    ensures forall v :: Section("spatial", v) == Pick(SpatialField, v)
  {
    hide Pick, NonEmpty;
  }

  lemma NoEmptySection(rich: Fields, projected: Fields, name: string)
    requires name in {"temporal", "entities", "rel", "delivery"}
    ensures name in SafeFields(rich, projected) <==> FieldsOf(SafeFields(rich, projected), name) != map[]
  {
    SectionOf(rich, projected, name);
    var safe, w := SafeFields(rich, projected), WithRel(rich);
    hide SafeFields, WithRel;
    if name in w {
      SectionOrGone(name, w[name]);
    }
    assert name in safe <==> Find(safe, name).Some?;
    hide Section;
  }

  lemma SectionOrGone(name: string, v: Json)
    requires name in {"temporal", "entities", "rel", "delivery"}
    ensures Section(name, v).Some? ==> Section(name, v).value.Obj? && Section(name, v).value.fields != map[]
  {
    KeptOrGone(TemporalField, v);
    KeptOrGone(Entity, v);
    KeptOrGone(Subjects, v);
    KeptOrGone(DeliveryField, v);
    RelSection(v);
    hide Pick, NonEmpty;
    assert |"temporal"| == |"entities"| == |"delivery"| == |LITERALS| == 8 && |"rel"| == 3;
    assert LITERALS[0] == 'l' && |MODAL| == 5 && |AXIOMS| == 6 && |"spatial"| == 7 && |"audit"| == 5;
  }

  /** What a cleaner keeps is a dict that is not empty. */
  ghost predicate KeepsSomething(clean: Cleaner) {
    forall k, v :: clean(k, v).Some? ==> clean(k, v).value.Obj? && clean(k, v).value.fields != map[]
  }

  lemma PartIsKept(clean: Cleaner, picked: Option<Json>, v: Option<Json>, k: string)
    requires KeepsSomething(clean)
    requires v.Some? ==> picked == Pick(clean, v.value) || picked == NonEmpty(Pick(clean, v.value))
    requires v.None? ==> picked == None
    ensures k in Inside(picked) ==> FieldsOf(Inside(picked), k) != map[]
  {
    PickedInside(clean, v, picked, k);
    hide Pick, NonEmpty;
    assert k in Inside(picked) ==> Find(Inside(picked), k) == clean(k, Inside(v)[k]);
  }

  lemma CleanersKeepSomething()
    ensures KeepsSomething(Vector) && KeepsSomething(Entity) && KeepsSomething(Targets) && KeepsSomething(Subjects)
    ensures KeepsSomething(Item) && KeepsSomething(ModalField)
  {
  }

  /** No entity is kept without a vector, no vector without a number, no relation without a subject and a target. */
  lemma EmptyEntitiesGo(rich: Fields, projected: Fields, a: string, b: string)
    ensures
      var entities := FieldsOf(SafeFields(rich, projected), "entities");
      && (a in entities ==> FieldsOf(entities, a) != map[])
      && (b in FieldsOf(entities, a) ==> FieldsOf(FieldsOf(entities, a), b) != map[])
  {
    var t := Find(rich, "entities");
    var picked := if t.Some? then NonEmpty(Pick(Entity, t.value)) else None;
    EntitiesSection(rich, projected);
    CleanersKeepSomething();
    EntityIsPicked();
    hide SafeFields, Pick, NonEmpty, Entity, Vector, KeepsSomething;
    PartIsKept(Entity, picked, t, a);
    PickedInside(Entity, t, picked, a);
    var sub := Find(Inside(t), a);
    PartIsKept(Vector, if sub.Some? then Entity(a, sub.value) else None, sub, b);
  }

  lemma EmptyRelationsGo(rich: Fields, projected: Fields, a: string, b: string)
    ensures
      var rel := FieldsOf(SafeFields(rich, projected), "rel");
      && (a in rel ==> FieldsOf(rel, a) != map[])
      && (b in FieldsOf(rel, a) ==> FieldsOf(FieldsOf(rel, a), b) != map[])
  {
    SectionOf(rich, projected, "rel");
    CleanersKeepSomething();
    var t := Find(WithRel(rich), "rel");
    var picked := if t.Some? then NonEmpty(Pick(Subjects, t.value)) else None;
    RelSection(t.value);
    assert Find(SafeFields(rich, projected), "rel") == picked;
    hide SafeFields, Section, Pick, NonEmpty, WithRel;
    PartIsKept(Subjects, picked, t, a);
    PickedInside(Subjects, t, picked, a);
    var sub := Find(Inside(t), a);
    PartIsKept(Targets, if sub.Some? then Subjects(a, sub.value) else None, sub, b);
  }

  /** No delivery item and no kind of belief is kept empty; what the consensus adds to the knowledge aside. */
  lemma EmptyItemsGo(rich: Fields, projected: Fields, a: string)
    ensures
      var items := FieldsOf(FieldsOf(SafeFields(rich, projected), "delivery"), "items");
      a in items ==> FieldsOf(items, a) != map[]
    ensures
      var modal := FieldsOf(SafeFields(rich, projected), "modal");
      a in modal && a != "knowledge" ==> FieldsOf(modal, a) != map[]
  {
    DeliveryParts(rich, projected, "items");
    CleanersKeepSomething();
    assert "items" != "status";
    var t, m := Find(FieldsOf(rich, "delivery"), "items"), Find(rich, "modal");
    ModalPart(rich, projected, a);
    hide SafeFields, Section, Pick, NonEmpty, Item, ModalField;
    PartIsKept(Item, if t.Some? then Pick(Item, t.value) else None, t, a);
    PartIsKept(ModalField, if m.Some? then Pick(ModalField, m.value) else None, m, a);
  }

  lemma ModalPart(rich: Fields, projected: Fields, a: string)
    ensures
      var m := Find(rich, "modal");
      a != "knowledge" ==> (
        Find(FieldsOf(SafeFields(rich, projected), "modal"), a) ==
          Find(Inside(if m.Some? then Pick(ModalField, m.value) else None), a))
  {
    DistinctNames();
    var m := Find(rich, "modal");
    assert Find(WithRel(rich), "modal") == m;
    if m.Some? { ModalSection(m.value); }
    hide Pick, ModalField;
  }
}
