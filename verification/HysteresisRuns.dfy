/** What whole runs of the hysteresis adapter guarantee: the deltas carry the state, and the state is the last
    decisive event. */
module HysteresisRuns {
  import opened Options
  import opened Json
  import opened DeepMerge
  import opened Hysteresis
  import ContextManager

  datatype Input = Input(raw: seq<Raw>, tick: int, full: bool)

  /** The adapter state after a run from the empty state. */
  function StateAfter(policy: Policy, run: seq<Input>): State {
    if run == [] then map[]
    else
      var n := |run| - 1;
      NextState(Canonicalized(run[n].raw), StateAfter(policy, run[..n]), policy, run[n].tick)
  }

  function LastDelta(policy: Policy, run: seq<Input>): Json
    requires run != []
  {
    var n := |run| - 1;
    Delta(Canonicalized(run[n].raw), StateAfter(policy, run[..n]), policy, run[n].tick, run[n].full)
  }

  /** A context into which every delta was merged. */
  function ContextAfter(policy: Policy, run: seq<Input>, start: Json): Json {
    if run == [] then start else Merge(ContextAfter(policy, run[..|run| - 1], start), LastDelta(policy, run))
  }

  function StablePath(key: string): seq<string> {
    ["adapters", "hysteresis", "outputs", key, "stable"]
  }

  // ----- Reading one delta -----

  lemma FieldsSay(o: Output, tick: int)
    ensures "stable" in OutputFields(o, tick) <==> o.stable.Some?
    ensures o.stable.Some? ==> OutputFields(o, tick)["stable"] == o.stable.value
  {
    assert "stable" != "tick" && "stable" != "raw_confidence" && "tick" != "raw_confidence" by {
      assert |"stable"| == 6 && |"tick"| == 4 && |"raw_confidence"| == 14;
    }
  }

  /** Nested one-key objects are followed by their keys. */
  lemma IntoOne(k: string, v: Json, rest: seq<string>)
    ensures Has(Obj(map[k := v]), [k] + rest) <==> Has(v, rest)
    ensures Has(v, rest) ==> At(Obj(map[k := v]), [k] + rest) == At(v, rest)
    ensures Spares(v, rest) ==> Spares(Obj(map[k := v]), [k] + rest)
  {
    assert ([k] + rest)[1..] == rest;
  }

  lemma IntoField(fields: map<string, Json>, k: string, rest: seq<string>)
    ensures Has(Obj(fields), [k] + rest) <==> k in fields && Has(fields[k], rest)
    ensures k in fields && Has(fields[k], rest) ==> At(Obj(fields), [k] + rest) == At(fields[k], rest)
    ensures Spares(Obj(fields), [k] + rest) <==> k !in fields || Spares(fields[k], rest)
  {
    assert ([k] + rest)[1..] == rest;
  }

  /** The parts of a delta, before they are nested. */
  lemma DeltaShape(outputs: map<string, Json>, traces: map<string, Json>)
    ensures
      || (outputs == map[] && ContextDelta(outputs, traces) == EMPTY)
      || exists parts: map<string, Json> ::
        && ContextDelta(outputs, traces) == Obj(map["adapters" := Obj(map["hysteresis" := Obj(parts)])])
        && (if outputs == map[] then "outputs" !in parts
            else "outputs" in parts && parts["outputs"] == Obj(outputs))
  {
    assert "outputs" != "state" by { assert |"outputs"| == 7 && |"state"| == 5; }
    var said := if outputs == map[] then map[] else map["outputs" := Obj(outputs)];
    var parts := if traces == map[] then said else said["state" := Obj(traces)];
    assert parts == map[] ==> outputs == map[] by {
      if outputs != map[] { assert "outputs" in parts; }
    }
    assert parts != map[] ==>
      ContextDelta(outputs, traces) == Obj(map["adapters" := Obj(map["hysteresis" := Obj(parts)])]);
  }

  lemma Rest(key: string)
    ensures StablePath(key) == ["adapters"] + (["hysteresis"] + (["outputs"] + ([key] + (["stable"] + []))))
  {
  }

  lemma DeltaSays(outputs: map<string, Json>, traces: map<string, Json>, key: string)
    requires key in outputs && outputs[key].Obj? && "stable" in outputs[key].fields
    ensures Has(ContextDelta(outputs, traces), StablePath(key))
    ensures At(ContextDelta(outputs, traces), StablePath(key)) == outputs[key].fields["stable"]
  {
    DeltaShape(outputs, traces);
    var d := ContextDelta(outputs, traces);
    hide ContextDelta;
    var parts: map<string, Json> :| d == Obj(map["adapters" := Obj(map["hysteresis" := Obj(parts)])])
      && "outputs" in parts && parts["outputs"] == Obj(outputs);
    Rest(key);
    var fields := outputs[key].fields;
    IntoField(fields, "stable", []);
    IntoField(outputs, key, ["stable"] + []);
    IntoField(parts, "outputs", [key] + (["stable"] + []));
    IntoOne("hysteresis", Obj(parts), ["outputs"] + ([key] + (["stable"] + [])));
    IntoOne("adapters", Obj(map["hysteresis" := Obj(parts)]),
      ["hysteresis"] + (["outputs"] + ([key] + (["stable"] + []))));
  }

  lemma DeltaSpares(outputs: map<string, Json>, traces: map<string, Json>, key: string)
    requires key in outputs ==> outputs[key].Obj? && "stable" !in outputs[key].fields
    ensures Spares(ContextDelta(outputs, traces), StablePath(key))
  {
    DeltaShape(outputs, traces);
    var d := ContextDelta(outputs, traces);
    hide ContextDelta;
    if d != EMPTY {
      var parts: map<string, Json> :| d == Obj(map["adapters" := Obj(map["hysteresis" := Obj(parts)])])
        && if outputs == map[] then "outputs" !in parts else "outputs" in parts && parts["outputs"] == Obj(outputs);
      Rest(key);
      if key in outputs {
        IntoField(outputs[key].fields, "stable", []);
      }
      IntoField(outputs, key, ["stable"] + []);
      IntoField(parts, "outputs", [key] + (["stable"] + []));
      IntoOne("hysteresis", Obj(parts), ["outputs"] + ([key] + (["stable"] + [])));
      IntoOne("adapters", Obj(map["hysteresis" := Obj(parts)]),
        ["hysteresis"] + (["outputs"] + ([key] + (["stable"] + []))));
    }
  }

  // ----- The deltas carry the state -----

  ghost predicate Shows(context: Json, key: string, stable: Option<bool>) {
    Has(context, StablePath(key)) && At(context, StablePath(key)) == StableJson(stable)
  }

  /** A key is undefined only under the policy that undefines it. */
  ghost predicate UndefinedByPolicy(state: State, policy: Policy) {
    forall k :: k in state ==> k in policy && (state[k].stable.None? ==> policy[k].missingMode.Undefined?)
  }

  lemma {:induction false} RunKeepsPolicy(policy: Policy, run: seq<Input>)
    ensures UndefinedByPolicy(StateAfter(policy, run), policy)
  {
    if run != [] {
      RunKeepsPolicy(policy, run[..|run| - 1]);
    }
  }

  /** One tick: merging its delta moves a context that shows the old state to one that shows the new. */
  lemma DeltaCarriesKey(inputs: map<string, Conf>, state: State, policy: Policy, tick: int, full: bool,
                        context: Json, key: string)
    requires UndefinedByPolicy(state, policy)
    requires key in state ==> Shows(context, key, state[key].stable)
    requires key in NextState(inputs, state, policy, tick)
    ensures Shows(Merge(context, Delta(inputs, state, policy, tick, full)), key,
      NextState(inputs, state, policy, tick)[key].stable)
  {
    var outputs, traces := Outputs(inputs, state, policy, tick), Traces(inputs, state, policy, tick, full);
    var delta := ContextDelta(outputs, traces);
    var next := NextState(inputs, state, policy, tick)[key];
    var output := KeyOutput(inputs, state, policy, tick, key);
    assert key in outputs <==> output.Some?;
    assert next == KeyTick(inputs, state, policy, tick, key);
    if output.Some? {
      FieldsSay(output.value, tick);
      assert outputs[key] == Obj(OutputFields(output.value, tick));
    }
    hide NextState, Outputs, Traces, ContextDelta, OutputFields, Merge, Has, At, Spares;
    if output.Some? && output.value.stable.Some? {
      DeltaSays(outputs, traces, key);
      OverlayLeafWins(context, delta, StablePath(key));
    } else {
      SilenceMeansUnchanged(inputs, state, policy, tick, key);
      DeltaSpares(outputs, traces, key);
      SparedPathStays(context, delta, StablePath(key));
    }
  }

  /** A key about whose stable value nothing is said was tracked and has not changed; what is said is the new value. */
  lemma SilenceMeansUnchanged(inputs: map<string, Conf>, state: State, policy: Policy, tick: int, key: string)
    requires UndefinedByPolicy(state, policy) && Tracked(inputs, state, policy, key)
    ensures
      var output := KeyOutput(inputs, state, policy, tick, key);
      var next := KeyTick(inputs, state, policy, tick, key);
      if output.Some? && output.value.stable.Some? then output.value.stable.value == StableJson(next.stable)
      else key in state && state[key].stable == next.stable
  {
  }

  /**
   * From the empty state, whatever context the deltas are merged into, it shows the stable value of every tracked key,
   * an undefined one as an explicit null.
   */
  lemma {:induction false} DeltasCarryState(policy: Policy, run: seq<Input>, start: Json, key: string)
    requires key in StateAfter(policy, run)
    ensures Shows(ContextAfter(policy, run, start), key, StateAfter(policy, run)[key].stable)
  {
    if run != [] {
      var n := |run| - 1;
      var inputs, before := Canonicalized(run[n].raw), StateAfter(policy, run[..n]);
      RunKeepsPolicy(policy, run[..n]);
      if key in before {
        DeltasCarryState(policy, run[..n], start, key);
      }
      DeltaCarriesKey(inputs, before, policy, run[n].tick, run[n].full, ContextAfter(policy, run[..n], start), key);
    }
  }

  // ----- Through the context manager -----

  /** Each delta handed to `update_local` as it comes. */
  function Patches(policy: Policy, run: seq<Input>): seq<ContextManager.Call> {
    if run == [] then []
    else Patches(policy, run[..|run| - 1]) + [LastPatch(policy, run)]
  }

  predicate AllAccepted(c: ContextManager.Config, s: ContextManager.State, policy: Policy, run: seq<Input>) {
    run == [] ||
    var earlier := run[..|run| - 1];
    && AllAccepted(c, s, policy, earlier)
    && ContextManager.OutcomeOf(c, ContextManager.Run(c, s, Patches(policy, earlier)), LastPatch(policy, run)).Done?
  }

  function LastPatch(policy: Policy, run: seq<Input>): ContextManager.Call
    requires run != []
  {
    ContextManager.UpdateLocal(LastDelta(policy, run), run[|run| - 1].tick)
  }

  lemma {:induction false} PatchesFillLocal(c: ContextManager.Config, s: ContextManager.State, policy: Policy,
                                            run: seq<Input>)
    requires AllAccepted(c, s, policy, run)
    ensures ContextManager.Run(c, s, Patches(policy, run)).local == ContextAfter(policy, run, s.local)
  {
    if run != [] {
      var earlier := run[..|run| - 1];
      PatchesFillLocal(c, s, policy, earlier);
      var calls := Patches(policy, run);
      hide LastDelta, ContextManager.OutcomeOf;
      assert calls[..|calls| - 1] == Patches(policy, earlier);
      assert calls[|calls| - 1] == LastPatch(policy, run);
    }
  }

  /** After any run of accepted patches the manager's merged view shows the adapter's state, whatever the layers
      held. */
  lemma ViewShowsState(c: ContextManager.Config, s: ContextManager.State, policy: Policy, run: seq<Input>, key: string)
    requires AllAccepted(c, s, policy, run) && key in StateAfter(policy, run)
    ensures
      var after := ContextManager.Run(c, s, Patches(policy, run));
      Shows(View(after.root, after.domain, after.local), key, StateAfter(policy, run)[key].stable)
  {
    PatchesFillLocal(c, s, policy, run);
    DeltasCarryState(policy, run, s.local, key);
    var after := ContextManager.Run(c, s, Patches(policy, run));
    hide ContextManager.Run, Patches, ContextAfter, StateAfter, AllAccepted, Merge, Has, At;
    OverlayLeafWins(Merge(Merge(EMPTY, after.root), after.domain), after.local, StablePath(key));
  }

  // ----- The state is the last decisive event -----

  /** What one key saw at one tick. */
  datatype Sample = Sample(conf: Conf, tick: int)

  /** From the first tick that mentions the key. */
  function Samples(key: string, run: seq<Input>): seq<Sample> {
    if run == [] then []
    else
      var earlier := Samples(key, run[..|run| - 1]);
      var inputs := Canonicalized(run[|run| - 1].raw);
      if earlier == [] && key !in inputs then [] else earlier + [Sample(ConfOf(inputs, key), run[|run| - 1].tick)]
  }

  function KeyRun(pol: PolicyEntry, samples: seq<Sample>): Option<StateEntry> {
    if samples == [] then None
    else
      var n := |samples| - 1;
      Some(Tick(KeyRun(pol, samples[..n]), samples[n].conf, samples[n].tick, pol))
  }

  /** Keys do not influence each other: a key's state is that of its own samples. */
  lemma {:induction false} StateIsKeyRun(policy: Policy, run: seq<Input>, key: string)
    ensures Find(StateAfter(policy, run), key) == if key in policy then KeyRun(policy[key], Samples(key, run)) else None
  {
    if run != [] {
      var n := |run| - 1;
      StateIsKeyRun(policy, run[..n], key);
      var earlier, all := Samples(key, run[..n]), Samples(key, run);
      if all != [] {
        assert all[..|all| - 1] == earlier;
      }
    }
  }

  /** The samples up to and including `i` end with `missingRun` missing ones. */
  function MissingRun(samples: seq<Sample>): nat {
    if samples == [] || !samples[|samples| - 1].conf.Missing? then 0 else 1 + MissingRun(samples[..|samples| - 1])
  }

  /** `missing_count` is the length of the run of missing samples at the end; anything else, a NaN too, ends it. */
  lemma {:induction false} MissingCountIsTrailingRun(pol: PolicyEntry, samples: seq<Sample>)
    requires samples != []
    ensures KeyRun(pol, samples).value.missingCount == MissingRun(samples) <= |samples|
    ensures forall i :: |samples| - MissingRun(samples) <= i < |samples| ==> samples[i].conf.Missing?
    ensures MissingRun(samples) < |samples| ==> !samples[|samples| - MissingRun(samples) - 1].conf.Missing?
  {
    if |samples| > 1 {
      MissingCountIsTrailingRun(pol, samples[..|samples| - 1]);
    }
  }

  function Invalids(samples: seq<Sample>): nat {
    if samples == [] then 0
    else Invalids(samples[..|samples| - 1]) + if samples[|samples| - 1].conf.Invalid? then 1 else 0
  }

  ghost predicate IsLastFinite(samples: seq<Sample>, level: int) {
    exists i :: 0 <= i < |samples| && samples[i].conf == Finite(level) && forall j :: i < j < |samples| ==>
      !samples[j].conf.Finite?
  }

  /** The other fields: the tick of the last sample, the level of the last finite one, how many were invalid. */
  lemma {:induction false} OtherFieldsAreExact(pol: PolicyEntry, samples: seq<Sample>)
    requires samples != []
    ensures
      var st := KeyRun(pol, samples).value;
      && st.lastTick == Some(samples[|samples| - 1].tick)
      && st.invalidCount == Invalids(samples)
      && (st.lastConf.None? ==> forall i :: 0 <= i < |samples| ==> !samples[i].conf.Finite?)
      && (st.lastConf.Some? ==> IsLastFinite(samples, st.lastConf.value))
  {
    var n := |samples| - 1;
    var earlier, last := samples[..n], samples[n].conf;
    var before := if n > 0 then KeyRun(pol, earlier).value else INITIAL;
    if n > 0 {
      OtherFieldsAreExact(pol, earlier);
    } else {
      assert earlier == [];
    }
    assert KeyRun(pol, samples).value == Tick(Some(before), last, samples[n].tick, pol);
    hide KeyRun, OnMissing, OnSample;
    assert KeyRun(pol, samples).value.lastConf == if last.Finite? then Some(last.level) else before.lastConf;
    assert samples == earlier + [samples[n]];
    if last.Finite? {
      assert samples[n].conf == Finite(last.level);
    } else if before.lastConf.Some? {
      StillLastFinite(earlier, samples[n], before.lastConf.value);
    }
  }

  lemma StillLastFinite(earlier: seq<Sample>, next: Sample, level: int)
    requires IsLastFinite(earlier, level) && !next.conf.Finite?
    ensures IsLastFinite(earlier + [next], level)
  {
    var all := earlier + [next];
    var i :| 0 <= i < |earlier| && earlier[i].conf == Finite(level) && forall j :: i < j < |earlier| ==>
      !earlier[j].conf.Finite?;
    assert all[i] == earlier[i];
  }

  /** The value an expired key takes; none in the mode that holds the old one. */
  function Expired(pol: PolicyEntry): Option<Option<bool>> {
    match pol.missingMode
    case Hold => None
    case True => Some(Some(true))
    case False => Some(Some(false))
    case Undefined => Some(None)
  }

  /** A sample that settles the value whatever came before: a threshold reached, or a time-to-live exceeded. */
  function Decision(pol: PolicyEntry, samples: seq<Sample>, i: nat): Option<Option<bool>>
    requires i < |samples|
  {
    match samples[i].conf
    case Finite(level) =>
      if level >= pol.enterTrue then Some(Some(true))
      else if level <= pol.exitTrue then Some(Some(false))
      else None
    case Invalid => None
    case Missing =>
      if pol.missingTtlTicks.Some? &&
        MissingRun(samples[..i + 1]) > pol.missingTtlTicks.value then Expired(pol) else None
  }

  ghost predicate IsLastDecision(pol: PolicyEntry, samples: seq<Sample>, i: nat)
    requires i < |samples|
  {
    && Decision(pol, samples, i).Some?
    && forall j :: i < j < |samples| ==> Decision(pol, samples, j).None?
  }

  ghost predicate FiniteAfter(samples: seq<Sample>, i: nat) {
    exists j :: i < j < |samples| && samples[j].conf.Finite?
  }

  /** The value the decisions lead to, sample by sample. */
  function Settled(pol: PolicyEntry, samples: seq<Sample>): Option<bool> {
    if samples == [] then Some(false)
    else
      var n := |samples| - 1;
      var earlier := Settled(pol, samples[..n]);
      if Decision(pol, samples, n).Some? then Decision(pol, samples, n).value
      else if samples[n].conf.Finite? && earlier.None? then Some(false)
      else earlier
  }

  lemma {:induction false} StableIsSettled(pol: PolicyEntry, samples: seq<Sample>)
    requires pol.Valid() && samples != []
    ensures KeyRun(pol, samples).value.stable == Settled(pol, samples)
  {
    var n := |samples| - 1;
    MissingCountIsTrailingRun(pol, samples);
    assert samples[..n + 1] == samples;
    if n > 0 {
      StableIsSettled(pol, samples[..n]);
    } else {
      assert samples[..n] == [];
    }
    var before := if n > 0 then KeyRun(pol, samples[..n]).value else INITIAL;
    assert KeyRun(pol, samples).value == Tick(Some(before), samples[n].conf, samples[n].tick, pol);
    assert before.stable == Settled(pol, samples[..n]);
    assert KeyRun(pol, samples).value.missingCount == MissingRun(samples[..n + 1]);
    match samples[n].conf
    case Missing =>
      assert before.missingCount + 1 == MissingRun(samples);
      assert Decision(pol, samples, n).Some? ==> OnMissing(before, pol) == Decision(pol, samples, n).value;
    case Invalid =>
    case Finite(level) =>
      match before.stable {
        case None =>
        case Some(latched) =>
          assert latched ==> before.stable == Some(true);
          assert !latched ==> before.stable == Some(false);
      }
  }

  lemma EarlierDecision(pol: PolicyEntry, samples: seq<Sample>, n: nat, i: nat)
    requires i < n <= |samples|
    ensures Decision(pol, samples, i) == Decision(pol, samples[..n], i)
  {
    assert samples[..i + 1] == samples[..n][..i + 1];
  }

  lemma {:induction false} SettledByNothing(pol: PolicyEntry, samples: seq<Sample>)
    requires forall i :: 0 <= i < |samples| ==> Decision(pol, samples, i).None?
    ensures Settled(pol, samples) == Some(false)
  {
    if samples != [] {
      var n := |samples| - 1;
      forall i | 0 <= i < n ensures Decision(pol, samples[..n], i).None? {
        EarlierDecision(pol, samples, n, i);
      }
      SettledByNothing(pol, samples[..n]);
    }
  }

  lemma {:induction false} SettledByLast(pol: PolicyEntry, samples: seq<Sample>, i: nat)
    requires i < |samples| && IsLastDecision(pol, samples, i)
    ensures Settled(pol, samples) ==
      if Decision(pol, samples, i).value.None? && FiniteAfter(samples, i) then Some(false)
      else Decision(pol, samples, i).value
  {
    var n := |samples| - 1;
    if i < n {
      var earlier := samples[..n];
      forall j | i <= j < n ensures Decision(pol, earlier, j) == Decision(pol, samples, j) {
        EarlierDecision(pol, samples, n, j);
      }
      hide Decision;
      SettledByLast(pol, earlier, i);
      if samples[n].conf.Finite? {
        assert FiniteAfter(samples, i);
      } else {
        LaterFinite(samples, i);
      }
    }
  }

  lemma LaterFinite(samples: seq<Sample>, i: nat)
    requires i < |samples| - 1 && !samples[|samples| - 1].conf.Finite?
    ensures FiniteAfter(samples, i) <==> FiniteAfter(samples[..|samples| - 1], i)
  {
    var earlier := samples[..|samples| - 1];
    if FiniteAfter(samples, i) {
      var j :| i < j < |samples| && samples[j].conf.Finite?;
      assert earlier[j].conf.Finite?;
    }
    if FiniteAfter(earlier, i) {
      var j :| i < j < |earlier| && earlier[j].conf.Finite?;
      assert samples[j].conf.Finite?;
    }
  }

  /**
   * The stable value is that of the last decisive sample, False before any; an undefined one gives way to False
   * at the next finite sample, even one between the thresholds.
   */
  lemma StableIsLastDecision(pol: PolicyEntry, samples: seq<Sample>)
    requires pol.Valid() && samples != []
    ensures
      (forall i :: 0 <= i < |samples| ==> Decision(pol, samples, i).None?) ==>
        KeyRun(pol, samples).value.stable == Some(false)
    ensures forall i :: 0 <= i < |samples| && IsLastDecision(pol, samples, i) ==>
      KeyRun(pol, samples).value.stable ==
        if Decision(pol, samples, i).value.None? && FiniteAfter(samples, i) then Some(false)
        else Decision(pol, samples, i).value
  {
    StableIsSettled(pol, samples);
    if forall i :: 0 <= i < |samples| ==> Decision(pol, samples, i).None? {
      SettledByNothing(pol, samples);
    }
    forall i | 0 <= i < |samples| && IsLastDecision(pol, samples, i)
      ensures Settled(pol, samples) ==
        if Decision(pol, samples, i).value.None? && FiniteAfter(samples, i) then Some(false)
        else Decision(pol, samples, i).value
    {
      SettledByLast(pol, samples, i);
    }
  }

  ghost predicate Reaches(pol: PolicyEntry, s: Sample) {
    s.conf.Finite? && s.conf.level >= pol.enterTrue
  }

  ghost predicate Leaves(pol: PolicyEntry, s: Sample) {
    s.conf.Finite? && s.conf.level <= pol.exitTrue
  }

  /** The sample that keeps the latch on: the upper threshold, and the lower one not since. */
  ghost predicate HoldsSince(pol: PolicyEntry, samples: seq<Sample>, i: nat) {
    i < |samples| && Reaches(pol, samples[i]) && forall j :: i < j < |samples| ==> !Leaves(pol, samples[j])
  }

  lemma {:induction false} LatchIsOnSince(pol: PolicyEntry, samples: seq<Sample>, i: nat)
    requires pol.Valid() && pol.missingTtlTicks.None? && HoldsSince(pol, samples, i)
    ensures KeyRun(pol, samples).value.stable == Some(true)
  {
    var n := |samples| - 1;
    if i < n {
      LatchIsOnSince(pol, samples[..n], i);
    }
  }

  lemma {:induction false} LatchHasCause(pol: PolicyEntry, samples: seq<Sample>)
    requires pol.Valid() && pol.missingTtlTicks.None? && samples != []
    ensures KeyRun(pol, samples).value.stable.Some?
    ensures KeyRun(pol, samples).value.stable.value ==> exists i :: HoldsSince(pol, samples, i)
  {
    var n := |samples| - 1;
    if n > 0 {
      LatchHasCause(pol, samples[..n]);
      if KeyRun(pol, samples[..n]).value.stable.value && !Leaves(pol, samples[n]) {
        var i :| HoldsSince(pol, samples[..n], i);
        assert HoldsSince(pol, samples, i);
      }
    }
    assert Reaches(pol, samples[n]) ==> HoldsSince(pol, samples, n);
  }

  /** Without a time-to-live: true exactly when the last finite sample at or beyond a threshold was at the upper one. */
  lemma LatchWithoutTtl(pol: PolicyEntry, samples: seq<Sample>)
    requires pol.Valid() && pol.missingTtlTicks.None? && samples != []
    ensures KeyRun(pol, samples).value.stable == Some(exists i :: HoldsSince(pol, samples, i))
  {
    LatchHasCause(pol, samples);
    if i :| HoldsSince(pol, samples, i) {
      LatchIsOnSince(pol, samples, i);
    }
  }
}
