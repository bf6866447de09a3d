/** Building the safe context (noe/noe_validator.py): evidence out, allow-listed sections and consensus values in. */
module SafeContext {
  import opened Options
  import opened Json
  import opened DeepMerge
  import opened Projection

  type Fields = map<string, Json>

  // ----- Cleaning: what each place of the context admits -----

  /** A cleaner says, for the value under a key, what is kept of it, if anything. */
  type Cleaner = (string, Json) -> Option<Json>

  function Pick(clean: Cleaner, v: Json): Option<Json> {
    if v.Obj? then Some(Obj(PickFields(clean, v.fields))) else None
  }

  function PickFields(clean: Cleaner, fields: Fields): Fields {
    map k | k in fields && clean(k, fields[k]).Some? :: clean(k, fields[k]).value
  }

  function NonEmpty(v: Option<Json>): Option<Json> {
    if v == Some(EMPTY) then None else v
  }

  function Only(v: Json, admitted: bool): Option<Json> {
    if admitted then Some(v) else None
  }

  predicate IsScalar(v: Json) { v.Bool? || v.Num? || v.Real? || v.Str? }

  function Scalar(k: string, v: Json): Option<Json> { Only(v, IsScalar(v)) }
  function Number(k: string, v: Json): Option<Json> { Only(v, v.Num? || v.Real?) }
  function Integer(k: string, v: Json): Option<Json> { Only(v, v.Num?) }
  function Boolean(k: string, v: Json): Option<Json> { Only(v, v.Bool?) }
  function Text(k: string, v: Json): Option<Json> { Only(v, v.Str?) }

  function TemporalField(k: string, v: Json): Option<Json> {
    if k == "now" || k == "max_skew_ms" || k == "now_us" || k == "max_staleness_us" then Integer(k, v) else None
  }

  function ModalField(k: string, v: Json): Option<Json> {
    if k == KNOWLEDGE || k == "belief" || k == "certainty" then NonEmpty(Pick(Scalar, v)) else None
  }

  function AxiomField(k: string, v: Json): Option<Json> { Only(v, k == "value_system") }

  function SpatialField(k: string, v: Json): Option<Json> {
    Only(v, k == "thresholds" || k == "thresholds_mm" || k == "orientation")
  }

  function Vector(k: string, v: Json): Option<Json> {
    if k == "position" || k == "velocity" || k == "orientation" ||
      k == "bounds" then NonEmpty(Pick(Number, v)) else None
  }

  function Entity(k: string, v: Json): Option<Json> { NonEmpty(Pick(Vector, v)) }

  function Targets(k: string, v: Json): Option<Json> { NonEmpty(Pick(Boolean, v)) }
  function Subjects(k: string, v: Json): Option<Json> { NonEmpty(Pick(Targets, v)) }

  function ItemField(k: string, v: Json): Option<Json> {
    if k == "status" then Text(k, v)
    else if k == "verified" then Boolean(k, v)
    else if IsTimeField(k) then Integer(k, v)
    else None
  }

  predicate IsTimeField(k: string) { k == "observed_at_ms" || k == "expires_at_ms" }

  /** A delivery item with a timestamp that is not an integer is dropped whole. */
  function Item(k: string, v: Json): Option<Json> {
    if v.Obj? && exists f :: f in v.fields && IsTimeField(f) && !v.fields[f].Num? then None
    else NonEmpty(Pick(ItemField, v))
  }

  function DeliveryField(k: string, v: Json): Option<Json> {
    if k == "status" then Pick(Text, v) else if k == "items" then Pick(Item, v) else None
  }

  const LITERALS := "literals"
  const MODAL := "modal"
  const AXIOMS := "axioms"
  const KNOWLEDGE := "knowledge"
  const REL := "rel"

  /** The canonical subtrees; nothing else of a context gets through. */
  function Section(k: string, v: Json): Option<Json> {
    if k == LITERALS then Pick(Scalar, v)
    else if k == "temporal" then NonEmpty(Pick(TemporalField, v))
    else if k == MODAL then Pick(ModalField, v)
    else if k == AXIOMS then Pick(AxiomField, v)
    else if k == "spatial" then Pick(SpatialField, v)
    else if k == "entities" then NonEmpty(Pick(Entity, v))
    else if k == REL then NonEmpty(Pick(Subjects, v))
    else if k == "audit" then (if v.Obj? then Some(EMPTY) else None)
    else if k == "delivery" then NonEmpty(Pick(DeliveryField, v))
    else None
  }

  // ----- Cleaning twice is cleaning once -----

  /** What a cleaner keeps, it keeps as it is. */
  ghost predicate Stable(clean: Cleaner) {
    forall k, v :: clean(k, v).Some? ==> clean(k, clean(k, v).value) == clean(k, v)
  }

  lemma PickIsStable(clean: Cleaner, v: Json)
    requires Stable(clean)
    ensures Pick(clean, v).Some? ==> Pick(clean, Pick(clean, v).value) == Pick(clean, v)
    ensures NonEmpty(Pick(clean, v)).Some? ==>
      NonEmpty(Pick(clean, NonEmpty(Pick(clean, v)).value)) == NonEmpty(Pick(clean, v))
  {
    if v.Obj? {
      PickFieldsIsStable(clean, v.fields);
    }
  }

  lemma PickFieldsIsStable(clean: Cleaner, fields: Fields)
    requires Stable(clean)
    ensures PickFields(clean, PickFields(clean, fields)) == PickFields(clean, fields)
  {
    var once := PickFields(clean, fields);
    forall k | k in once ensures clean(k, once[k]) == Some(once[k]) {
      assert once[k] == clean(k, fields[k]).value;
    }
    assert PickFields(clean, once).Keys == once.Keys;
  }

  lemma AtomsAreStable()
    ensures Stable(Scalar) && Stable(Number) && Stable(Integer) && Stable(Boolean) && Stable(Text)
    ensures Stable(TemporalField) && Stable(AxiomField) && Stable(SpatialField) && Stable(ItemField)
  {
  }

  lemma ModalFieldIsStable()
    ensures Stable(ModalField)
  {
    hide Pick, NonEmpty;
    AtomsAreStable();
    forall k, v | ModalField(k, v).Some? ensures ModalField(k, ModalField(k, v).value) == ModalField(k, v) {
      PickIsStable(Scalar, v);
    }
  }

  lemma {:induction false} VectorIsStable()
    ensures Stable(Vector)
  {
    hide Pick, NonEmpty;
    AtomsAreStable();
    forall k, v | Vector(k, v).Some? ensures Vector(k, Vector(k, v).value) == Vector(k, v) {
      PickIsStable(Number, v);
    }
  }

  lemma TargetsIsStable()
    ensures Stable(Targets)
  {
    hide Pick, NonEmpty;
    AtomsAreStable();
    forall k, v | Targets(k, v).Some? ensures Targets(k, Targets(k, v).value) == Targets(k, v) {
      PickIsStable(Boolean, v);
    }
  }

  lemma SubjectsIsStable()
    ensures Stable(Subjects)
  {
    hide Pick, NonEmpty;
    TargetsIsStable();
    forall k, v | Subjects(k, v).Some? ensures Subjects(k, Subjects(k, v).value) == Subjects(k, v) {
      PickIsStable(Targets, v);
    }
  }

  lemma {:induction false} EntityIsStable()
    ensures Stable(Entity)
  {
    hide Pick, NonEmpty;
    VectorIsStable();
    forall k, v | Entity(k, v).Some? ensures Entity(k, Entity(k, v).value) == Entity(k, v) {
      PickIsStable(Vector, v);
    }
  }

  lemma TimeIsInteger(k: string, v: Json)
    requires IsTimeField(k) && ItemField(k, v).Some?
    ensures ItemField(k, v).value.Num?
  {
    assert |"status"| == 6 && |"verified"| == 8 && |"observed_at_ms"| == 14 && |"expires_at_ms"| == 13;
  }

  lemma ItemStays(k: string, v: Json)
    requires Stable(ItemField) && Item(k, v).Some?
    ensures Item(k, Item(k, v).value) == Item(k, v)
  {
    var kept := Item(k, v).value;
    assert kept == Obj(PickFields(ItemField, v.fields));
    PickIsStable(ItemField, v);
    hide ItemField, IsTimeField;
    forall f | f in kept.fields && IsTimeField(f) ensures kept.fields[f].Num? {
      TimeIsInteger(f, v.fields[f]);
    }
  }

  lemma ItemIsStable()
    ensures Stable(Item)
  {
    AtomsAreStable();
    forall k, v | Item(k, v).Some? ensures Item(k, Item(k, v).value) == Item(k, v) {
      ItemStays(k, v);
    }
  }

  lemma DeliveryFieldIsStable()
    ensures Stable(DeliveryField)
  {
    hide Pick, NonEmpty;
    AtomsAreStable();
    ItemIsStable();
    forall k, v | DeliveryField(k, v).Some? ensures DeliveryField(k, DeliveryField(k, v).value) == DeliveryField(k, v) {
      PickIsStable(Text, v);
      PickIsStable(Item, v);
    }
  }

  /** Every section, cleaned, stays as it is. */
  lemma {:induction false} SectionIsStable()
    ensures Stable(Section)
  {
    AtomsAreStable();
    ModalFieldIsStable();
    EntityIsStable();
    SubjectsIsStable();
    DeliveryFieldIsStable();
    forall k, v | Section(k, v).Some? ensures Section(k, Section(k, v).value) == Section(k, v) {
      SectionStays(k, v);
    }
  }

  lemma {:induction false} SectionStays(k: string, v: Json)
    requires Section(k, v).Some?
    requires Stable(Scalar) && Stable(TemporalField) && Stable(ModalField) && Stable(AxiomField) && Stable(SpatialField)
    requires Stable(Entity) && Stable(Subjects) && Stable(DeliveryField)
    ensures Section(k, Section(k, v).value) == Section(k, v)
  {
    hide Pick, NonEmpty;
    if k == LITERALS {
      PickIsStable(Scalar, v);
    } else if k == "temporal" {
      PickIsStable(TemporalField, v);
    } else if k == MODAL {
      PickIsStable(ModalField, v);
    } else if k == AXIOMS {
      PickIsStable(AxiomField, v);
    } else if k == "spatial" {
      PickIsStable(SpatialField, v);
    } else {
      PickIsStable(Entity, v);
      PickIsStable(Subjects, v);
      PickIsStable(DeliveryField, v);
    }
  }

  // ----- The safe context -----

  /** `relations` stands in for a missing or empty `rel`. */
  function WithRel(rich: Fields): Fields {
    var raw := if REL in rich then rich[REL] else EMPTY;
    rich[REL := if !Truthy(raw) && RELATIONS in rich then rich[RELATIONS] else raw]
  }

  const RELATIONS := "relations"
  const META := "meta"
  const EVIDENCE := "evidence"
  const ROOT := "root"

  function Sections(rich: Fields): Fields {
    PickFields(Section, WithRel(rich))
  }

  function FieldsOf(fields: Fields, k: string): Fields {
    if k in fields && fields[k].Obj? then fields[k].fields else map[]
  }

  /** The sections, with the consensus values over the literals and over the knowledge. */
  function SafeFields(rich: Fields, projected: Fields): Fields {
    var base := Sections(rich);
    var modal := FieldsOf(base, MODAL);
    base[LITERALS := Obj(FieldsOf(base, LITERALS) + projected)]
        [MODAL := Obj(modal[KNOWLEDGE := Obj(FieldsOf(modal, KNOWLEDGE) + projected)])]
        [AXIOMS := Obj(FieldsOf(base, AXIOMS))]
  }

  ghost predicate AllScalar(fields: Fields) {
    forall k :: k in fields ==> IsScalar(fields[k])
  }

  lemma Names(k: string, v: Json)
    requires Section(k, v).Some?
    ensures k != META && k != RELATIONS && k != EVIDENCE && k != ROOT
  {
    hide Pick, NonEmpty;
    assert |LITERALS| == |"temporal"| == |"entities"| == |"delivery"| == |EVIDENCE| == 8;
    assert |MODAL| == |"audit"| == 5 && |AXIOMS| == 6 && |"spatial"| == 7 && |REL| == 3;
    assert |META| == |ROOT| == 4 && |RELATIONS| == 9;
    assert EVIDENCE[1] == 'v' && LITERALS[1] == 'i' && "temporal"[1] == 'e' && "entities"[1] == 'n' &&
      "delivery"[1] == 'e';
  }

  lemma DistinctNames()
    ensures LITERALS != MODAL && LITERALS != AXIOMS && MODAL != AXIOMS
    ensures REL != LITERALS && REL != MODAL && REL != AXIOMS
    ensures META !in {LITERALS, MODAL, AXIOMS, REL}
  {
    assert |LITERALS| == 8 && |MODAL| == 5 && |AXIOMS| == 6 && |REL| == 3 && |META| == 4;
  }

  lemma ScalarFieldsStay(fields: Fields)
    ensures PickFields(Scalar, fields) == fields <==> AllScalar(fields)
    ensures AllScalar(PickFields(Scalar, fields))
  {
    var picked := PickFields(Scalar, fields);
    if AllScalar(fields) {
      assert picked.Keys == fields.Keys;
    }
    if picked == fields {
      assert forall k :: k in fields ==> k in picked;
    }
  }

  /** What of the knowledge and of the literals survives the cleaning is scalar. */
  lemma SectionsAreScalar(rich: Fields)
    ensures AllScalar(FieldsOf(Sections(rich), LITERALS))
    ensures AllScalar(FieldsOf(FieldsOf(Sections(rich), MODAL), KNOWLEDGE))
  {
    DistinctNames();
    var w := WithRel(rich);
    if LITERALS in Sections(rich) {
      ScalarFieldsStay(w[LITERALS].fields);
    }
    if MODAL in Sections(rich) && KNOWLEDGE in FieldsOf(Sections(rich), MODAL) {
      ScalarFieldsStay(w[MODAL].fields[KNOWLEDGE].fields);
    }
  }

  // ----- Building the safe context from a safe context -----

  /** The safe context with its informational part, as the evaluator gets it. */
  function Published(fields: Fields, meta: Json): Fields {
    fields[META := meta]
  }

  /** Nothing of the second pass's input stands for relations but the first pass's relations. */
  lemma {:induction false} RelAgain(rich: Fields, projected: Fields, meta: Json, k: string)
    ensures
      var safe := SafeFields(rich, projected);
      Find(Sections(Published(safe, meta)), k) == if k in safe then Section(k, safe[k]) else None
  {
    var safe := SafeFields(rich, projected);
    var again := Published(safe, meta);
    var w := WithRel(again);
    assert RELATIONS !in again by { NoSuchKey(rich, projected, RELATIONS); NamesDiffer(); }
    assert w == again[REL := if REL in again then again[REL] else EMPTY];
    DistinctNames();
    hide SafeFields;
    MetaGoes(k, w);
    assert Section(REL, EMPTY) == None by {
      assert PickFields(Subjects, map[]) == map[];
      RelSection(EMPTY);
    }
    hide Section, WithRel;
    var sections := PickFields(Section, w);
    assert Find(sections, k) == if k in w then Section(k, w[k]) else None;
  }

  lemma RelSection(v: Json)
    ensures Section(REL, v) == NonEmpty(Pick(Subjects, v))
  {
    hide Pick, NonEmpty;
    DistinctNames();
    assert |"temporal"| == |"entities"| == |"delivery"| == 8 && |"audit"| == 5 && |"spatial"| == 7 && |REL| == 3;
  }

  lemma MetaGoes(k: string, w: Fields)
    ensures k == META && k in w ==> Section(k, w[k]) == None
  {
    hide Pick, NonEmpty;
    if k == META && k in w && Section(k, w[k]).Some? {
      Names(k, w[k]);
    }
  }

  lemma NamesDiffer()
    ensures META !in {RELATIONS, EVIDENCE, ROOT}
    ensures {RELATIONS, EVIDENCE, ROOT} !! {LITERALS, MODAL, AXIOMS}
  {
    assert |LITERALS| == |EVIDENCE| == 8 && |MODAL| == 5 && |AXIOMS| == 6;
    assert |META| == |ROOT| == 4 && |RELATIONS| == 9;
    assert EVIDENCE[1] == 'v' && LITERALS[1] == 'i' && META[0] == 'm' && ROOT[0] == 'r';
  }

  lemma NoSuchKey(rich: Fields, projected: Fields, k: string)
    requires k in {RELATIONS, EVIDENCE, ROOT}
    ensures k !in SafeFields(rich, projected)
  {
    NamesDiffer();
    if k in Sections(rich) {
      Names(k, WithRel(rich)[k]);
    }
  }

  /** The sections that the consensus does not touch come back as they were. */
  lemma {:induction false} OtherSectionStays(rich: Fields, projected: Fields, k: string)
    requires k in SafeFields(rich, projected) && k != LITERALS && k != MODAL
    ensures Section(k, SafeFields(rich, projected)[k]) == Some(SafeFields(rich, projected)[k])
  {
    DistinctNames();
    SectionIsStable();
    var base := Sections(rich);
    assert k in base ==> Section(k, WithRel(rich)[k]) == Some(base[k]);
    if k == AXIOMS {
      assert PickFields(AxiomField, map[]) == map[];
      AxiomSection(k, SafeFields(rich, projected)[k]);
      if k in base {
        AxiomSection(k, WithRel(rich)[k]);
      }
    }
    hide Section, WithRel, PickFields;
  }

  lemma AxiomSection(k: string, v: Json)
    requires k == AXIOMS
    ensures Section(k, v) == Pick(AxiomField, v)
  {
    hide Pick, NonEmpty;
    assert |LITERALS| == |"temporal"| == 8 && |MODAL| == 5 && |AXIOMS| == 6;
  }

  lemma ModalSection(v: Json)
    ensures Section(LITERALS, v) == Pick(Scalar, v) && Section(MODAL, v) == Pick(ModalField, v)
  {
    hide Pick, NonEmpty;
    assert |LITERALS| == |"temporal"| == 8 && |MODAL| == 5 && LITERALS[0] == 'l' && "temporal"[0] == 't';
  }

  /** The modal part: knowledge that is empty goes, and is put back. */
  lemma ModalStays(modal: Fields, known: Fields)
    requires AllScalar(known)
    requires PickFields(ModalField, modal) == modal
    ensures
      var before := modal[KNOWLEDGE := Obj(known)];
      var picked := PickFields(ModalField, before);
      picked[KNOWLEDGE := Obj(FieldsOf(picked, KNOWLEDGE) + map[])] == before
  {
    var before := modal[KNOWLEDGE := Obj(known)];
    var picked := PickFields(ModalField, before);
    ScalarFieldsStay(known);
    assert ModalField(KNOWLEDGE, Obj(known)) == NonEmpty(Some(Obj(known)));
    assert FieldsOf(picked, KNOWLEDGE) == known;
    forall k | k in modal && k != KNOWLEDGE ensures k in picked && picked[k] == before[k] {
      assert k in PickFields(ModalField, modal);
    }
    forall k ensures Find(picked[KNOWLEDGE := Obj(known)], k) == Find(before, k) {
      assert k in picked ==> k in before;
    }
    assert known + map[] == known;
    SameFields(picked[KNOWLEDGE := Obj(known)], before);
  }

  /**
   * Feeding a safe context back gives the same safe context, and so the same H_safe, exactly when every consensus
   * value is a scalar: a structured one is among the literals once and cleaned away the next time.
   */
  lemma {:induction false} SafeContextIsFixed(rich: Fields, projected: Fields, meta: Json)
    ensures
      var safe := SafeFields(rich, projected);
      SafeFields(Published(safe, meta), map[]) == safe <==> AllScalar(projected)
  {
    var safe := SafeFields(rich, projected);
    var again := Published(safe, meta);
    var sections := Sections(again);
    var base := Sections(rich);
    DistinctNames();
    forall k ensures Find(sections, k) == if k in safe then Section(k, safe[k]) else None {
      RelAgain(rich, projected, meta, k);
    }
    forall k | k in safe && k != LITERALS && k != MODAL ensures Find(sections, k) == Some(safe[k]) {
      OtherSectionStays(rich, projected, k);
    }
    ModalSection(safe[LITERALS]);
    ModalSection(safe[MODAL]);
    SectionsAreScalar(rich);
    ModalOfSections(rich);
    SafeAt(base, projected, safe);
    SafeAt(sections, map[], SafeFields(again, map[]));
    assert CleanedAgain(sections, safe) by { hide Sections, PickFields; }
    hide Section, Sections, SafeFields, PickFields;
    if AllScalar(projected) {
      ScalarsStay(base, projected, safe, sections, SafeFields(again, map[]));
    } else {
      StructuredGoes(base, projected, safe, sections, SafeFields(again, map[]));
    }
  }

  /** What cleaning leaves of the modal section is clean. */
  lemma ModalOfSections(rich: Fields)
    ensures PickFields(ModalField, FieldsOf(Sections(rich), MODAL)) == FieldsOf(Sections(rich), MODAL)
  {
    if MODAL in Sections(rich) {
      ModalSection(WithRel(rich)[MODAL]);
      ModalFieldIsStable();
      PickFieldsIsStable(ModalField, WithRel(rich)[MODAL].fields);
    } else {
      assert PickFields(ModalField, map[]) == map[];
    }
  }

  lemma OverriddenIsScalar(fields: Fields, over: Fields)
    requires AllScalar(fields)
    ensures AllScalar(fields + over) <==> AllScalar(over)
  {
    forall k | k in over ensures k in fields + over && (fields + over)[k] == over[k] {
    }
  }

  /** A safe context over its sections, key by key. */
  function SafeFieldAt(base: Fields, projected: Fields, k: string): Option<Json> {
    var modal := FieldsOf(base, MODAL);
    if k == LITERALS then Some(Obj(FieldsOf(base, LITERALS) + projected))
    else if k == MODAL then Some(Obj(modal[KNOWLEDGE := Obj(FieldsOf(modal, KNOWLEDGE) + projected)]))
    else if k == AXIOMS then Some(Obj(FieldsOf(base, AXIOMS)))
    else Find(base, k)
  }

  ghost predicate IsSafeOver(safe: Fields, base: Fields, projected: Fields) {
    forall k :: Find(safe, k) == SafeFieldAt(base, projected, k)
  }

  lemma SafeAt(base: Fields, projected: Fields, safe: Fields)
    requires
      var modal := FieldsOf(base, MODAL);
      safe == base[LITERALS := Obj(FieldsOf(base, LITERALS) + projected)]
                  [MODAL := Obj(modal[KNOWLEDGE := Obj(FieldsOf(modal, KNOWLEDGE) + projected)])]
                  [AXIOMS := Obj(FieldsOf(base, AXIOMS))]
    ensures IsSafeOver(safe, base, projected)
  {
    DistinctNames();
  }

  /** The sections of the second pass. */
  ghost predicate CleanedAgain(sections: Fields, safe: Fields) {
    forall k :: Find(sections, k) ==
      if k !in safe then None
      else if k == LITERALS then Pick(Scalar, safe[k])
      else if k == MODAL then Pick(ModalField, safe[k])
      else Some(safe[k])
  }

  lemma ScalarsStay(base: Fields, projected: Fields, safe: Fields, sections: Fields, second: Fields)
    requires IsSafeOver(safe, base, projected) && IsSafeOver(second, sections, map[]) && CleanedAgain(sections, safe)
    requires AllScalar(FieldsOf(base, LITERALS)) && AllScalar(FieldsOf(FieldsOf(base, MODAL), KNOWLEDGE))
    requires PickFields(ModalField, FieldsOf(base, MODAL)) == FieldsOf(base, MODAL)
    requires AllScalar(projected)
    ensures second == safe
  {
    DistinctNames();
    var literals, modal := FieldsOf(base, LITERALS) + projected, FieldsOf(base, MODAL);
    var known := FieldsOf(modal, KNOWLEDGE) + projected;
    OverriddenIsScalar(FieldsOf(base, LITERALS), projected);
    OverriddenIsScalar(FieldsOf(modal, KNOWLEDGE), projected);
    ScalarFieldsStay(literals);
    ModalStays(modal, known);
    hide PickFields, AllScalar, ModalField;
    assert Find(safe, LITERALS) == Some(Obj(literals));
    assert Find(sections, LITERALS) == Some(Obj(literals));
    assert literals + map[] == literals;
    assert Find(second, LITERALS) == Find(safe, LITERALS);
    assert Find(safe, MODAL) == Some(Obj(modal[KNOWLEDGE := Obj(known)]));
    assert Find(second, MODAL) == Find(safe, MODAL);
    assert Find(second, AXIOMS) == Find(safe, AXIOMS);
    forall k ensures Find(second, k) == Find(safe, k) {
    }
    SameFields(second, safe);
  }

  lemma StructuredGoes(base: Fields, projected: Fields, safe: Fields, sections: Fields, second: Fields)
    requires IsSafeOver(safe, base, projected) && IsSafeOver(second, sections, map[]) && CleanedAgain(sections, safe)
    requires AllScalar(FieldsOf(base, LITERALS)) && !AllScalar(projected)
    ensures second != safe
  {
    var literals := FieldsOf(base, LITERALS) + projected;
    OverriddenIsScalar(FieldsOf(base, LITERALS), projected);
    ScalarFieldsStay(literals);
    var picked := PickFields(Scalar, literals);
    hide PickFields, AllScalar;
    assert Find(safe, LITERALS) == Some(Obj(literals));
    assert Find(sections, LITERALS) == Some(Obj(picked));
    assert picked + map[] == picked;
    assert Find(second, LITERALS) == Some(Obj(picked));
  }

  lemma SameFields(a: Fields, b: Fields)
    requires forall k :: Find(a, k) == Find(b, k)
    ensures a == b
  {
    forall k ensures k in a <==> k in b {
      assert Find(a, k) == Find(b, k);
    }
    forall k | k in a ensures a[k] == b[k] {
      assert Find(a, k) == Find(b, k);
    }
  }
}
