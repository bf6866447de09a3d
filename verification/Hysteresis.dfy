/** The hysteresis adapter (noe/hysteresis_adapter.py): a latch per key with a time-to-live, and change-only deltas. */
module Hysteresis {
  import opened Options
  import opened Json
  import opened Strings

  datatype MissingMode = Hold | True | False | Undefined

  datatype PolicyEntry = PolicyEntry(
    enterTrue: int,
    exitTrue: int,
    emitOnChangeOnly: bool,
    keepCertainty: bool,
    missingTtlTicks: Option<int>,
    missingMode: MissingMode)
  {
    /** What `__post_init__` insists on. */
    predicate Valid() { enterTrue > exitTrue }
  }

  type Policy = map<string, PolicyEntry>

  /** A raw confidence: absent or None, not a finite number, or a finite one. */
  datatype Conf = Missing | Invalid | Finite(level: int)

  /** `stable` is None while undefined. */
  datatype StateEntry = StateEntry(
    stable: Option<bool>,
    lastConf: Option<int>,
    lastTick: Option<int>,
    invalidCount: nat,
    missingCount: nat)

  const INITIAL := StateEntry(Some(false), None, None, 0, 0)

  // ----- One key -----

  function OnMissing(st: StateEntry, pol: PolicyEntry): Option<bool> {
    var count := st.missingCount + 1;
    if pol.missingTtlTicks.Some? && count > pol.missingTtlTicks.value then
      match pol.missingMode
      case True => Some(true)
      case False => Some(false)
      case Undefined => None
      case Hold => st.stable
    else st.stable
  }

  function OnSample(st: StateEntry, level: int, pol: PolicyEntry): bool {
    var current := st.stable == Some(true);
    if !current && level >= pol.enterTrue then true
    else if current && level <= pol.exitTrue then false
    else current
  }

  function Tick(prev: Option<StateEntry>, conf: Conf, tick: int, pol: PolicyEntry): StateEntry {
    var st := if prev.Some? then prev.value else INITIAL;
    match conf
    case Missing =>
      st.(missingCount := st.missingCount + 1, stable := OnMissing(st, pol), lastTick := Some(tick))
    case Invalid =>
      st.(missingCount := 0, invalidCount := st.invalidCount + 1, lastTick := Some(tick))
    case Finite(level) =>
      st.(missingCount := 0, stable := Some(OnSample(st, level, pol)), lastConf := Some(level), lastTick := Some(tick))
  }

  /** `update_one`: assigns the fields of a copy of the state. */
  method UpdateOne(conf: Conf, tick: int, state: Option<StateEntry>, pol: PolicyEntry)
    returns (stable: Option<bool>, st: StateEntry)
    ensures st == Tick(state, conf, tick, pol) && stable == st.stable
  {
    st := if state.Some? then state.value else INITIAL;
    if conf.Missing? {
      var newCount := st.missingCount + 1;
      st := st.(missingCount := newCount, lastTick := Some(tick));
      if pol.missingTtlTicks.Some? && newCount > pol.missingTtlTicks.value {
        if pol.missingMode.True? {
          st := st.(stable := Some(true));
        } else if pol.missingMode.False? {
          st := st.(stable := Some(false));
        } else if pol.missingMode.Undefined? {
          st := st.(stable := None);
        }
      }
      return st.stable, st;
    }
    st := st.(missingCount := 0);
    if conf.Invalid? {
      st := st.(invalidCount := st.invalidCount + 1, lastTick := Some(tick));
      return st.stable, st;
    }
    var latched := st.stable == Some(true);
    if !latched && conf.level >= pol.enterTrue {
      latched := true;
    } else if latched && conf.level <= pol.exitTrue {
      latched := false;
    }
    st := st.(stable := Some(latched), lastConf := Some(conf.level), lastTick := Some(tick));
    return st.stable, st;
  }

  // ----- What one key emits -----

  predicate Changed(prev: Option<StateEntry>, next: StateEntry) {
    prev.None? || prev.value.stable != next.stable
  }

  /** The output of one key: a value, an explicit None, an empty entry, or nothing. */
  datatype Output = Output(stable: Option<Json>, rawConfidence: Option<Json>)

  function Emitted(prev: Option<StateEntry>, next: StateEntry, conf: Conf, pol: PolicyEntry): Option<Output> {
    var changed := Changed(prev, next);
    var undefines := pol.missingMode.Undefined? && changed;
    var says := !pol.emitOnChangeOnly || changed;
    var certain := pol.keepCertainty && (conf.Finite? || undefines);
    if !says && !certain then None
    else Some(Output(
      if says && (next.stable.Some? || undefines) then Some(StableJson(next.stable)) else None,
      if certain then Some(if conf.Finite? then Num(conf.level) else Null) else None))
  }

  function StableJson(stable: Option<bool>): Json {
    if stable.Some? then Bool(stable.value) else Null
  }

  /** The dict of one output; a tick goes with whatever is said. */
  function OutputFields(o: Output, tick: int): map<string, Json> {
    var s := if o.stable.Some? then map["stable" := o.stable.value, "tick" := Num(tick)] else map[];
    if o.rawConfidence.Some? then s["raw_confidence" := o.rawConfidence.value]["tick" := Num(tick)] else s
  }

  function NumOrNull(n: Option<int>): Json {
    if n.Some? then Num(n.value) else Null
  }

  function EntryJson(st: StateEntry): Json {
    Obj(map[
      "stable" := StableJson(st.stable),
      "last_conf" := NumOrNull(st.lastConf),
      "last_tick" := NumOrNull(st.lastTick),
      "invalid_count" := Num(st.invalidCount),
      "missing_count" := Num(st.missingCount)])
  }

  // ----- Canonical keys -----

  predicate IsSpace(c: char) {
    var n := c as int;
    || 0x09 <= n <= 0x0D || 0x1C <= n <= 0x20 || n == 0x85 || n == 0xA0 || n == 0x1680
    || 0x2000 <= n <= 0x200A || n == 0x2028 || n == 0x2029 || n == 0x202F || n == 0x205F || n == 0x3000
  }

  function Strip(s: string): string
    decreases |s|
  {
    if s == [] then []
    else if IsSpace(s[0]) then Strip(s[1..])
    else if IsSpace(s[|s| - 1]) then Strip(s[..|s| - 1])
    else s
  }

  function CanonicalKey(raw: string): string {
    var clean := Strip(raw);
    if clean != [] && clean[0] == '@' then clean else ['@'] + clean
  }

  lemma {:induction false} StripIsIdempotent(s: string)
    ensures Strip(Strip(s)) == Strip(s)
    ensures Strip(s) == [] || (!IsSpace(Strip(s)[0]) && !IsSpace(Strip(s)[|Strip(s)| - 1]))
    decreases |s|
  {
    if s != [] {
      if IsSpace(s[0]) {
        StripIsIdempotent(s[1..]);
      } else if IsSpace(s[|s| - 1]) {
        StripIsIdempotent(s[..|s| - 1]);
      }
    }
  }

  /** A canonical key stays as it is: state keys of one tick meet the inputs of the next. */
  lemma CanonicalKeyIsIdempotent(raw: string)
    ensures CanonicalKey(raw) != [] && CanonicalKey(raw)[0] == '@'
    ensures CanonicalKey(CanonicalKey(raw)) == CanonicalKey(raw)
  {
    StripIsIdempotent(raw);
    var key := CanonicalKey(raw);
    assert Strip(key) == key;
  }

  /** A raw input, in dict order. */
  datatype Raw = Raw(key: string, conf: Conf)

  /** Of raw keys with one canonical form, the last wins. */
  function Canonicalized(raw: seq<Raw>): map<string, Conf> {
    if raw == [] then map[]
    else Canonicalized(raw[..|raw| - 1])[CanonicalKey(raw[|raw| - 1].key) := raw[|raw| - 1].conf]
  }

  method CanonicalInputs(raw: seq<Raw>) returns (inputs: map<string, Conf>)
    ensures inputs == Canonicalized(raw)
  {
    inputs := map[];
    for i := 0 to |raw|
      invariant inputs == Canonicalized(raw[..i])
    {
      assert raw[..i + 1][..i] == raw[..i];
      inputs := inputs[CanonicalKey(raw[i].key) := raw[i].conf];
    }
    assert raw[..|raw|] == raw;
  }

  // ----- All keys -----

  type State = map<string, StateEntry>

  function ConfOf(inputs: map<string, Conf>, k: string): Conf {
    if k in inputs then inputs[k] else Missing
  }

  /** One tick of the key `k`. */
  function KeyTick(inputs: map<string, Conf>, state: State, policy: Policy, tick: int, k: string): StateEntry
    requires k in policy
  {
    Tick(Find(state, k), ConfOf(inputs, k), tick, policy[k])
  }

  predicate Tracked(inputs: map<string, Conf>, state: State, policy: Policy, k: string) {
    k in inputs.Keys + state.Keys && k in policy
  }

  /** What one tick does to every key that has state or input, and a policy. Other keys go. */
  function NextState(inputs: map<string, Conf>, state: State, policy: Policy, tick: int): State {
    map k | k in inputs.Keys + state.Keys && k in policy :: KeyTick(inputs, state, policy, tick, k)
  }

  function KeyOutput(inputs: map<string, Conf>, state: State, policy: Policy, tick: int, k: string): Option<Output>
    requires k in policy
  {
    Emitted(Find(state, k), KeyTick(inputs, state, policy, tick, k), ConfOf(inputs, k), policy[k])
  }

  /** What the delta says about each key. */
  function Outputs(inputs: map<string, Conf>, state: State, policy: Policy, tick: int): map<string, Json> {
    map k | k in inputs.Keys + state.Keys && k in policy && KeyOutput(inputs, state, policy, tick, k).Some? ::
      Obj(OutputFields(KeyOutput(inputs, state, policy, tick, k).value, tick))
  }

  function Traces(inputs: map<string, Conf>, state: State, policy: Policy, tick: int, full: bool): map<string, Json> {
    map k | k in inputs.Keys + state.Keys && k in policy
        && (full || Changed(Find(state, k), KeyTick(inputs, state, policy, tick, k))) ::
      EntryJson(KeyTick(inputs, state, policy, tick, k))
  }

  function ContextDelta(outputs: map<string, Json>, traces: map<string, Json>): Json {
    var said := if outputs == map[] then map[] else map["outputs" := Obj(outputs)];
    var parts := if traces == map[] then said else said["state" := Obj(traces)];
    if parts == map[] then Obj(map[]) else Obj(map["adapters" := Obj(map["hysteresis" := Obj(parts)])])
  }

  function Delta(inputs: map<string, Conf>, state: State, policy: Policy, tick: int, full: bool): Json {
    ContextDelta(Outputs(inputs, state, policy, tick), Traces(inputs, state, policy, tick, full))
  }

  // ----- apply_hysteresis_adapter -----

  function InsertKey(k: string, sorted: seq<string>): (r: seq<string>)
    ensures forall x :: x in r <==> x == k || x in sorted
  {
    if sorted == [] || Before(k, sorted[0]) then [k] + sorted
    else [sorted[0]] + InsertKey(k, sorted[1..])
  }

  lemma {:induction false} InsertKeepsIncreasing(k: string, sorted: seq<string>)
    requires Increasing(sorted) && k !in sorted
    ensures Increasing(InsertKey(k, sorted))
    decreases |sorted|
  {
    if sorted == [] {
    } else if Before(k, sorted[0]) {
      forall j | 0 <= j < |sorted| ensures Before(k, sorted[j]) {
        if j > 0 { BeforeIsTransitive(k, sorted[0], sorted[j]); }
      }
    } else {
      InsertKeepsIncreasing(k, sorted[1..]);
      BeforeIsTotal(k, sorted[0]);
      var rest := InsertKey(k, sorted[1..]);
      forall j | 0 <= j < |rest| ensures Before(sorted[0], rest[j]) {
        assert rest[j] in rest;
        if rest[j] != k { HeadIsLeast(sorted, rest[j]); TailIsAbove(sorted, rest[j]); }
      }
    }
  }

  method Sorted(keys: set<string>) returns (r: seq<string>)
    ensures Increasing(r) && forall k :: k in r <==> k in keys
  {
    r := [];
    var pending := keys;
    while pending != {}
      invariant pending <= keys && Increasing(r)
      invariant forall k :: k in r <==> k in keys && k !in pending
      decreases |pending|
    {
      var k :| k in pending;
      InsertKeepsIncreasing(k, r);
      r := InsertKey(k, r);
      pending := pending - {k};
    }
  }

  /** The delta logic for one key, branch by branch. */
  method EmitKey(prev: Option<StateEntry>, next: StateEntry, conf: Conf,
                 pol: PolicyEntry) returns (output: Option<Output>)
    ensures output == Emitted(prev, next, conf, pol)
  {
    var changed := Changed(prev, next);
    output := None;
    if !pol.emitOnChangeOnly || changed {
      output := Some(Output(None, None));
      if next.stable.Some? {
        output := Some(Output(Some(StableJson(next.stable)), None));
      } else if pol.missingMode.Undefined? && changed {
        output := Some(Output(Some(Null), None));
      }
    }
    if pol.keepCertainty {
      var soFar := if output.Some? then output.value.stable else None;
      if conf.Finite? {
        output := Some(Output(soFar, Some(Num(conf.level))));
      } else if pol.missingMode.Undefined? && changed {
        output := Some(Output(soFar, Some(Null)));
      }
    }
  }

  /** `m` agrees with `target` on the keys already visited and has no others. */
  ghost predicate Filled<V>(m: map<string, V>, target: map<string, V>, done: set<string>) {
    m.Keys == target.Keys * done && forall k :: k in m ==> m[k] == target[k]
  }

  ghost predicate Patched<V>(m: map<string, V>, start: map<string, V>, target: map<string, V>, done: set<string>) {
    && m.Keys == target.Keys * done + (start.Keys - done)
    && forall k :: k in m ==> m[k] == if k in done then target[k] else start[k]
  }

  lemma FillKey<V>(m: map<string, V>, target: map<string, V>, done: set<string>, k: string)
    requires Filled(m, target, done)
    ensures Filled(if k in target then m[k := target[k]] else m, target, done + {k})
  {
  }

  lemma PatchKey<V>(m: map<string, V>, start: map<string, V>, target: map<string, V>, done: set<string>, k: string)
    requires Patched(m, start, target, done)
    ensures Patched(if k in target then m[k := target[k]] else m - {k}, start, target, done + {k})
  {
  }

  lemma NotPatched<V>(m: map<string, V>, start: map<string, V>, target: map<string, V>, done: set<string>, k: string)
    requires Patched(m, start, target, done) && k !in done
    ensures Find(m, k) == Find(start, k)
  {
  }

  lemma NothingDone<V, W>(start: map<string, V>, target: map<string, V>, other: map<string, W>, another: map<string, W>)
    ensures Patched(start, start, target, {}) && Filled(map[], other, {}) && Filled(map[], another, {})
  {
  }

  lemma TargetKeys(inputs: map<string, Conf>, state: State, policy: Policy, tick: int, full: bool)
    ensures NextState(inputs, state, policy, tick).Keys <= inputs.Keys + state.Keys
    ensures Outputs(inputs, state, policy, tick).Keys <= inputs.Keys + state.Keys
    ensures Traces(inputs, state, policy, tick, full).Keys <= inputs.Keys + state.Keys
  {
  }

  lemma AllFilled<V>(m: map<string, V>, target: map<string, V>, done: set<string>)
    requires Filled(m, target, done) && target.Keys <= done
    ensures m == target
  {
  }

  lemma AllPatched<V>(m: map<string, V>, start: map<string, V>, target: map<string, V>, done: set<string>)
    requires Patched(m, start, target, done) && target.Keys <= done && start.Keys <= done
    ensures m == target
  {
  }

  /** `apply_hysteresis_adapter`: visits the keys in order, updating a copy of the state and the two delta dicts. */
  method ApplyAdapter(raw: seq<Raw>, state: State, policy: Policy, tick: int, full: bool)
    returns (delta: Json, next: State)
    ensures next == NextState(Canonicalized(raw), state, policy, tick)
    ensures delta == Delta(Canonicalized(raw), state, policy, tick, full)
  {
    hide Patched, Filled, NextState, Outputs, Traces, ContextDelta;
    var inputs := CanonicalInputs(raw);
    var keys := Sorted(inputs.Keys + state.Keys);
    next := state;
    var outputs: map<string, Json>, traces: map<string, Json> := map[], map[];
    ghost var nextT, outputsT, tracesT :=
      NextState(inputs, state, policy, tick), Outputs(inputs, state, policy, tick),
        Traces(inputs, state, policy, tick, full);
    ghost var done := {};
    NothingDone(state, nextT, outputsT, tracesT);
    for i := 0 to |keys|
      invariant forall k :: k in done <==> k in keys[..i]
      invariant Patched(next, state, nextT, done)
      invariant Filled(outputs, outputsT, done) && Filled(traces, tracesT, done)
    {
      var key := keys[i];
      assert key in keys && keys[..i + 1] == keys[..i] + [key];
      assert key !in done by { NotYetSeen(keys, i); }
      NotPatched(next, state, nextT, done, key);
      PatchKey(next, state, nextT, done, key);
      FillKey(outputs, outputsT, done, key);
      FillKey(traces, tracesT, done, key);
      next, outputs, traces := ApplyKey(key, inputs, state, policy, tick, full, next, outputs, traces);
      done := done + {key};
    }
    assert keys[..|keys|] == keys;
    assert done == inputs.Keys + state.Keys;
    TargetKeys(inputs, state, policy, tick, full);
    AllPatched(next, state, nextT, done);
    AllFilled(outputs, outputsT, done);
    AllFilled(traces, tracesT, done);
    delta := ContextDelta(outputs, traces);
  }

  lemma NotYetSeen(keys: seq<string>, i: nat)
    requires i < |keys| && Increasing(keys)
    ensures keys[i] !in keys[..i]
  {
    forall j | 0 <= j < i ensures keys[j] != keys[i] {
      BeforeIsAsymmetric(keys[j], keys[i]);
    }
  }

  /** The loop body. */
  method ApplyKey(key: string, inputs: map<string, Conf>, ghost start: State, policy: Policy, tick: int, full: bool,
                  next: State, outputs: map<string, Json>, traces: map<string, Json>)
    returns (next': State, outputs': map<string, Json>, traces': map<string, Json>)
    requires key in inputs.Keys + start.Keys && Find(next, key) == Find(start, key)
    ensures
      var target := NextState(inputs, start, policy, tick);
      next' == if key in target then next[key := target[key]] else next - {key}
    ensures
      var target := Outputs(inputs, start, policy, tick);
      outputs' == if key in target then outputs[key := target[key]] else outputs
    ensures
      var target := Traces(inputs, start, policy, tick, full);
      traces' == if key in target then traces[key := target[key]] else traces
  {
    next', outputs', traces' := next, outputs, traces;
    if key !in policy {
      next' := next' - {key};
      return;
    }
    var pol := policy[key];
    var conf := if key in inputs then inputs[key] else Missing;
    var prev := if key in next then Some(next[key]) else None;
    assert prev == Find(start, key);
    var stable, entry := UpdateOne(conf, tick, prev, pol);
    next' := next'[key := entry];
    var output := EmitKey(prev, entry, conf, pol);
    if output.Some? {
      outputs' := outputs'[key := Obj(OutputFields(output.value, tick))];
    }
    if full || Changed(prev, entry) {
      traces' := traces'[key := EntryJson(entry)];
    }
  }
}
