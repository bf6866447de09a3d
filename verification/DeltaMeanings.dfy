/** What one tick of the hysteresis adapter says, and when it says nothing: its delta read off the two states. */
module DeltaMeanings {
  import opened Options
  import opened Json
  import opened DeepMerge
  import opened Hysteresis
  import opened HysteresisRuns

  // ----- Where things are in a delta -----

  function OutputPath(key: string): seq<string> {
    ["adapters", "hysteresis", "outputs", key]
  }

  function TracePath(key: string): seq<string> {
    ["adapters", "hysteresis", "state", key]
  }

  lemma PathSteps(part: string, key: string)
    ensures ["adapters", "hysteresis", part, key] == ["adapters"] + (["hysteresis"] + ([part] + ([key] + [])))
  {
  }

  lemma PartOfDelta(parts: map<string, Json>, part: string, key: string)
    ensures
      var d := Obj(map["adapters" := Obj(map["hysteresis" := Obj(parts)])]);
      var p := ["adapters", "hysteresis", part, key];
      && (Has(d, p) <==> part in parts && parts[part].Obj? && key in parts[part].fields)
      && (Has(d, p) ==> At(d, p) == parts[part].fields[key])
  {
    PathSteps(part, key);
    var inner := map["hysteresis" := Obj(parts)];
    IntoField(map["adapters" := Obj(inner)], "adapters", ["hysteresis"] + ([part] + ([key] + [])));
    IntoField(inner, "hysteresis", [part] + ([key] + []));
    IntoField(parts, part, [key] + []);
    if part in parts && parts[part].Obj? {
      IntoField(parts[part].fields, key, []);
    }
  }

  /** The outputs and the traces of a delta are found on their paths, and there is no delta without any. */
  lemma DeltaHolds(outputs: map<string, Json>, traces: map<string, Json>, key: string)
    ensures Has(ContextDelta(outputs, traces), OutputPath(key)) <==> key in outputs
    ensures key in outputs ==> At(ContextDelta(outputs, traces), OutputPath(key)) == outputs[key]
    ensures Has(ContextDelta(outputs, traces), TracePath(key)) <==> key in traces
    ensures key in traces ==> At(ContextDelta(outputs, traces), TracePath(key)) == traces[key]
    ensures ContextDelta(outputs, traces) == EMPTY <==> outputs == map[] && traces == map[]
  {
    assert "outputs" != "state" by { assert |"outputs"| == 7 && |"state"| == 5; }
    var said := if outputs == map[] then map[] else map["outputs" := Obj(outputs)];
    var parts := if traces == map[] then said else said["state" := Obj(traces)];
    assert outputs != map[] ==> "outputs" in parts;
    assert traces != map[] ==> "state" in parts;
    if parts != map[] {
      PartOfDelta(parts, "outputs", key);
      PartOfDelta(parts, "state", key);
    }
  }

  // ----- What is said about a key -----

  /** The key is new, or its stable value is not what it was. */
  predicate IsNews(state: State, next: State, key: string)
    requires key in next
  {
    key !in state || state[key].stable != next[key].stable
  }

  /** The change-only half: the key is due for a word on its stable value. */
  predicate IsDue(state: State, next: State, pol: PolicyEntry, key: string)
    requires key in next
  {
    pol.emitOnChangeOnly ==> IsNews(state, next, key)
  }

  /** The certainty half: a finite level to report, or one to clear because the key may have become undefined. */
  predicate IsCertain(state: State, next: State, pol: PolicyEntry, conf: Conf, key: string)
    requires key in next
  {
    pol.keepCertainty && (conf.Finite? || (pol.missingMode.Undefined? && IsNews(state, next, key)))
  }

  /** Keys with a policy and an input or a state are tracked; what the delta says is about them only. */
  lemma OnlyTrackedKeys(inputs: map<string, Conf>, state: State, policy: Policy, tick: int, full: bool, key: string)
    ensures
      var next := NextState(inputs, state, policy, tick);
      var d := Delta(inputs, state, policy, tick, full);
      && (key in next <==> key in policy && (key in inputs || key in state))
      && (Has(d, OutputPath(key)) || Has(d, TracePath(key)) ==> key in next)
  {
    DeltaHolds(Outputs(inputs, state, policy, tick), Traces(inputs, state, policy, tick, full), key);
  }

  /**
   * The output of a key is there exactly when it is due or certain. It holds the new stable value, a null where the key
   * has become undefined by its policy; the level of this tick, a null where one is cleared; and this tick with either.
   */
  lemma OutputMeans(inputs: map<string, Conf>, state: State, policy: Policy, tick: int, full: bool, key: string)
    requires key in NextState(inputs, state, policy, tick)
    ensures
      var next := NextState(inputs, state, policy, tick);
      var d, p, pol := Delta(inputs, state, policy, tick, full), OutputPath(key), policy[key];
      var stable := next[key].stable;
      var conf := if key in inputs then inputs[key] else Missing;
      && (Has(d, p) <==> IsDue(state, next, pol, key) || IsCertain(state, next, pol, conf, key))
      && (Has(d, p) ==> At(d, p).Obj?)
      && (Has(d, p) ==>
            var f := At(d, p).fields;
            && ("stable" in f <==>
                  && IsDue(state, next, pol, key)
                  && (stable.Some? || (pol.missingMode.Undefined? && IsNews(state, next, key))))
            && ("stable" in f ==> f["stable"] == if stable.Some? then Bool(stable.value) else Null)
            && ("raw_confidence" in f <==> IsCertain(state, next, pol, conf, key))
            && ("raw_confidence" in f ==> f["raw_confidence"] == if conf.Finite? then Num(conf.level) else Null)
            && ("tick" in f <==> "stable" in f || "raw_confidence" in f)
            && ("tick" in f ==> f["tick"] == Num(tick))
            && f.Keys <= {"stable", "raw_confidence", "tick"})
  {
    var outputs, next := Outputs(inputs, state, policy, tick), NextState(inputs, state, policy, tick);
    var output := KeyOutput(inputs, state, policy, tick, key);
    DeltaHolds(outputs, Traces(inputs, state, policy, tick, full), key);
    assert key in outputs <==> output.Some?;
    assert next[key] == KeyTick(inputs, state, policy, tick, key);
    if output.Some? {
      assert outputs[key] == Obj(OutputFields(output.value, tick));
      FieldsOfOutput(output.value, tick);
    }
    var conf := if key in inputs then inputs[key] else Missing;
    assert output == Emitted(Find(state, key), next[key], conf, policy[key]);
    hide OutputFields, Outputs, Traces, ContextDelta, NextState, Has, At, Emitted, KeyTick, KeyOutput;
    WhatIsEmitted(state, next, policy[key], conf, key);
  }

  lemma WhatIsEmitted(state: State, next: State, pol: PolicyEntry, conf: Conf, key: string)
    requires key in next
    ensures
      var o := Emitted(Find(state, key), next[key], conf, pol);
      var stable := next[key].stable;
      && (o.Some? <==> IsDue(state, next, pol, key) || IsCertain(state, next, pol, conf, key))
      && (o.Some? ==>
            && (o.value.stable.Some? <==>
                  && IsDue(state, next, pol, key)
                  && (stable.Some? || (pol.missingMode.Undefined? && IsNews(state, next, key))))
            && (o.value.stable.Some? ==> o.value.stable.value == if stable.Some? then Bool(stable.value) else Null)
            && (o.value.rawConfidence.Some? <==> IsCertain(state, next, pol, conf, key))
            && (o.value.rawConfidence.Some? ==>
                  o.value.rawConfidence.value == if conf.Finite? then Num(conf.level) else Null))
  {
  }

  lemma FieldsOfOutput(o: Output, tick: int)
    ensures
      var f := OutputFields(o, tick);
      && ("stable" in f <==> o.stable.Some?) && ("stable" in f ==> f["stable"] == o.stable.value)
      && ("raw_confidence" in f <==> o.rawConfidence.Some?)
      && ("raw_confidence" in f ==> f["raw_confidence"] == o.rawConfidence.value)
      && ("tick" in f <==> "stable" in f || "raw_confidence" in f)
      && ("tick" in f ==> f["tick"] == Num(tick))
      && f.Keys <= {"stable", "raw_confidence", "tick"}
  {
    assert |"stable"| == 6 && |"tick"| == 4 && |"raw_confidence"| == 14;
  }

  /** Under the change-only policy, without certainty, a key is in the delta exactly when it is news. */
  lemma ChangeOnly(inputs: map<string, Conf>, state: State, policy: Policy, tick: int, full: bool, key: string)
    requires key in policy && policy[key].emitOnChangeOnly && !policy[key].keepCertainty
    ensures
      var next := NextState(inputs, state, policy, tick);
      Has(Delta(inputs, state, policy, tick, full), OutputPath(key)) <==>
        key in next && (key !in state || state[key].stable != next[key].stable)
  {
    OnlyTrackedKeys(inputs, state, policy, tick, full, key);
    if key in NextState(inputs, state, policy, tick) {
      OutputMeans(inputs, state, policy, tick, full, key);
    }
  }

  /** The state of a key is traced exactly when it is news or all states are asked for, with all its five fields. */
  lemma TraceMeans(inputs: map<string, Conf>, state: State, policy: Policy, tick: int, full: bool, key: string)
    requires key in NextState(inputs, state, policy, tick)
    ensures
      var next := NextState(inputs, state, policy, tick);
      var d, p, st := Delta(inputs, state, policy, tick, full), TracePath(key), next[key];
      && (Has(d, p) <==> full || IsNews(state, next, key))
      && (Has(d, p) ==> At(d, p).Obj?)
      && (Has(d, p) ==>
            var f := At(d, p).fields;
            && f.Keys == {"stable", "last_conf", "last_tick", "invalid_count", "missing_count"}
            && f["stable"] == (if st.stable.Some? then Bool(st.stable.value) else Null)
            && f["last_conf"] == (if st.lastConf.Some? then Num(st.lastConf.value) else Null)
            && f["last_tick"] == Num(tick)
            && f["invalid_count"] == Num(st.invalidCount)
            && f["missing_count"] == Num(st.missingCount))
  {
    var traces, next := Traces(inputs, state, policy, tick, full), NextState(inputs, state, policy, tick);
    assert next[key] == KeyTick(inputs, state, policy, tick, key);
    assert next[key].lastTick == Some(tick);
    assert key in traces <==> full || IsNews(state, next, key);
    assert key in traces ==> traces[key] == EntryJson(next[key]);
    hide Outputs, Traces, NextState, ContextDelta, Has, At, EntryJson, IsNews;
    DeltaHolds(Outputs(inputs, state, policy, tick), traces, key);
    TraceFields(next[key]);
  }

  lemma TraceFields(st: StateEntry)
    ensures EntryJson(st).Obj?
    ensures
      var f := EntryJson(st).fields;
      && f.Keys == {"stable", "last_conf", "last_tick", "invalid_count", "missing_count"}
      && f["stable"] == (if st.stable.Some? then Bool(st.stable.value) else Null)
      && f["last_conf"] == (if st.lastConf.Some? then Num(st.lastConf.value) else Null)
      && f["last_tick"] == (if st.lastTick.Some? then Num(st.lastTick.value) else Null)
      && f["invalid_count"] == Num(st.invalidCount) && f["missing_count"] == Num(st.missingCount)
  {
    assert |"stable"| == 6 && |"last_conf"| == |"last_tick"| == 9 && |"invalid_count"| == |"missing_count"| == 13;
    assert "last_conf"[5] == 'c' && "last_tick"[5] == 't' && "invalid_count"[0] == 'i' && "missing_count"[0] == 'm';
  }

  /** A tick says nothing exactly when full states are not asked for and no tracked key is news, due or certain. */
  lemma SilenceMeans(inputs: map<string, Conf>, state: State, policy: Policy, tick: int, full: bool)
    ensures
      var next := NextState(inputs, state, policy, tick);
      Delta(inputs, state, policy, tick, full) == EMPTY <==>
        forall key :: key in next ==>
          var conf := if key in inputs then inputs[key] else Missing;
          !full && !IsNews(state, next, key) && !IsDue(state, next, policy[key], key) &&
            !IsCertain(state, next, policy[key], conf, key)
  {
    var outputs, traces := Outputs(inputs, state, policy, tick), Traces(inputs, state, policy, tick, full);
    DeltaHolds(outputs, traces, "");
    assert outputs == map[] <==> forall key :: key !in outputs;
    assert traces == map[] <==> forall key :: key !in traces;
    forall key | key in NextState(inputs, state, policy, tick)
      ensures
        var next := NextState(inputs, state, policy, tick);
        var conf := if key in inputs then inputs[key] else Missing;
        && (key in traces <==> full || IsNews(state, next, key))
        && (key in outputs <==>
              IsDue(state, next, policy[key], key) || IsCertain(state, next, policy[key], conf, key))
    {
      OutputMeans(inputs, state, policy, tick, full, key);
      TraceMeans(inputs, state, policy, tick, full, key);
      DeltaHolds(outputs, traces, key);
    }
    hide ContextDelta, IsNews, IsDue, IsCertain;
    assert outputs.Keys <= NextState(inputs, state, policy, tick).Keys;
    assert traces.Keys <= NextState(inputs, state, policy, tick).Keys;
    hide Outputs, Traces, NextState;
  }

  /** In particular: change-only policies, no certainties, no stable value changed, no key new: an empty delta. */
  lemma UnchangedIsSilent(inputs: map<string, Conf>, state: State, policy: Policy, tick: int)
    requires forall key :: key in policy ==> policy[key].emitOnChangeOnly && !policy[key].keepCertainty
    requires
      var next := NextState(inputs, state, policy, tick);
      forall key :: key in next ==> key in state && state[key].stable == next[key].stable
    ensures Delta(inputs, state, policy, tick, false) == Obj(map[])
  {
    SilenceMeans(inputs, state, policy, tick, false);
    hide Delta;
  }

  // ----- Whose input is whose -----

  /** White space is what Python strips: the control characters among it, the blanks and the separators. */
  lemma SpacesMean(c: char)
    ensures IsSpace(c) <==> c as int in {
      9, 10, 11, 12, 13, 28, 29, 30, 31, 32, 0x85, 0xA0, 0x1680,
      0x2000, 0x2001, 0x2002, 0x2003, 0x2004, 0x2005, 0x2006, 0x2007, 0x2008, 0x2009, 0x200A,
      0x2028, 0x2029, 0x202F, 0x205F, 0x3000}
  {
  }

  lemma {:induction false} StripMeans(before: string, core: string, after: string)
    requires forall c :: c in before || c in after ==> IsSpace(c)
    requires core != [] ==> !IsSpace(core[0]) && !IsSpace(core[|core| - 1])
    ensures Strip(before + core + after) == core
    decreases |before| + |after|
  {
    var s := before + core + after;
    if before != [] {
      assert s[0] == before[0] && s[1..] == before[1..] + core + after;
      StripMeans(before[1..], core, after);
    } else if after != [] {
      var n := |after| - 1;
      assert s[|s| - 1] == after[n] && s[..|s| - 1] == before + core + after[..n];
      if core == [] {
        assert s[0] == after[0] && s[1..] == before + core + after[1..];
        StripMeans(before, core, after[1..]);
      } else {
        assert s[0] == core[0];
        StripMeans(before, core, after[..n]);
      }
    } else {
      assert s == core;
    }
  }

  /** A key is trimmed of white space and gets an @ in front unless it has one. */
  lemma CanonicalKeyMeans(before: string, core: string, after: string)
    requires forall c :: c in before || c in after ==> IsSpace(c)
    requires core != [] ==> !IsSpace(core[0]) && !IsSpace(core[|core| - 1])
    ensures CanonicalKey(before + core + after) == if core != [] && core[0] == '@' then core else "@" + core
  {
    StripMeans(before, core, after);
  }

  ghost predicate IsLastFor(raw: seq<Raw>, i: nat, key: string) {
    i < |raw| && CanonicalKey(raw[i].key) == key && forall j :: i < j < |raw| ==> CanonicalKey(raw[j].key) != key
  }

  /** A key has an input exactly when some raw input means it, and then the last such is its input. */
  lemma {:induction false} InputMeans(raw: seq<Raw>, key: string)
    ensures key in Canonicalized(raw) <==> exists i: nat :: IsLastFor(raw, i, key)
    ensures forall i: nat :: IsLastFor(raw, i, key) ==>
      key in Canonicalized(raw) && Canonicalized(raw)[key] == raw[i].conf
  {
    if raw != [] {
      var n := |raw| - 1;
      InputMeans(raw[..n], key);
      assert Canonicalized(raw) == Canonicalized(raw[..n])[CanonicalKey(raw[n].key) := raw[n].conf];
      hide CanonicalKey, Canonicalized;
      if CanonicalKey(raw[n].key) == key {
        assert IsLastFor(raw, n, key);
      } else {
        forall i: nat ensures IsLastFor(raw, i, key) <==> IsLastFor(raw[..n], i, key) {
          EarlierInput(raw, i, key);
        }
      }
    }
  }

  lemma EarlierInput(raw: seq<Raw>, i: nat, key: string)
    requires raw != [] && CanonicalKey(raw[|raw| - 1].key) != key
    ensures IsLastFor(raw, i, key) <==> IsLastFor(raw[..|raw| - 1], i, key)
  {
    hide CanonicalKey;
    var earlier := raw[..|raw| - 1];
    assert forall j :: 0 <= j < |earlier| ==> earlier[j] == raw[j];
  }
}
