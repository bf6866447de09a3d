/** The ROS 2 gate node: lifecycle, sensor and proposal callbacks, run one at a time. */
module GateNode {
  import opened Options
  import Rust = RustEval
  import Py = Evaluator
  import Meanings

  // ----- ros2_adapter/noe_ros2_adapter/src/context_builder.cpp -----

  /** Literals go without the @ in a parsed chain, and with it in the context. */
  const ZONE_CLEAR := "zone_clear"
  const ENTER_ZONE := "enter_zone_alpha"

  /** `shi @zone_clear khi sek mek @enter_zone_alpha sek nek` */
  const DEFAULT_CHAIN := Rust.Conditional(
    Rust.UnaryOp(Rust.Shi, Rust.Expr.Literal(ZONE_CLEAR)),
    Rust.Expr.Action("mek", Rust.Expr.Literal(ENTER_ZONE)))

  /** `build_zone_entry_context` */
  function ZoneEntryContext(zoneClear: bool, strict: bool): Rust.Ctx {
    Py.Ctx(
      strict,
      Some(map["@" + ZONE_CLEAR := Py.Truth(zoneClear), "@" + ENTER_ZONE := Py.Text("fwd_target")]),
      Some(map["@" + ZONE_CLEAR := Py.Truth(zoneClear)]),
      true, true)
  }

  datatype Decision = Permitted | Blocked | Failed

  /** `parse_noe_result` by the domain of the result; the evaluator never makes a list. */
  function DecisionOf(v: Rust.NoeVal): Decision {
    match v
    case Action(_) => Permitted
    case Undefined => Blocked
    case _ => Failed
  }

  /** The default chain lets the action through exactly when the zone is known to be clear. */
  lemma DefaultChainGates(zoneClear: bool, strict: bool)
    ensures DecisionOf(Rust.Eval(DEFAULT_CHAIN, ZoneEntryContext(zoneClear, strict))) ==
      if zoneClear then Permitted else Blocked
  {
    var ctx := ZoneEntryContext(zoneClear, strict);
    assert ZONE_CLEAR[0] != '@' && ZONE_CLEAR != "@" + ZONE_CLEAR;
    assert Py.Known(ctx.knowledge.value, ZONE_CLEAR) == Some(Py.Truth(zoneClear));
    assert Rust.KnowledgeOf(ZONE_CLEAR, ctx) == Rust.Truth(zoneClear);
    assert Rust.Eval(Rust.UnaryOp(Rust.Shi, Rust.Expr.Literal(ZONE_CLEAR)), ctx) == Rust.Truth(zoneClear);
  }

  /** In the Python evaluator the same chain gives the action itself, on the same condition, in either mode. */
  lemma DefaultChainInPython(zoneClear: bool, strict: bool)
    ensures
      var chain := Py.Khi(Py.Unary([Py.Shi], Py.Lit("zone_clear")), Py.Mek("mek", Py.Lit("enter_zone_alpha")));
      Py.Eval(chain, ZoneEntryContext(zoneClear, strict)) ==
        if zoneClear then Py.List([Py.Val.Action("mek", Py.Text("@enter_zone_alpha"))]) else Py.Undef
  {
    var ctx := ZoneEntryContext(zoneClear, strict);
    var guard, act := Py.Unary([Py.Shi], Py.Lit(ZONE_CLEAR)), Py.Mek("mek", Py.Lit(ENTER_ZONE));
    hide Py.Eval;
    assert Py.Eval(guard, ctx) == Py.Truth(zoneClear) by {
      DistinctKeys();
      Meanings.ShiMeans(ZONE_CLEAR, ctx);
    }
    DistinctKeys();
    Meanings.LiteralMeans(ENTER_ZONE, ctx);
    Meanings.MekMeans("mek", ENTER_ZONE, ctx);
    assert !Py.Eval(Py.Lit(ENTER_ZONE), ctx).Raised?;
    assert Py.Eval(act, ctx) == Py.Val.Action("mek", Py.Text("@" + ENTER_ZONE));
    hide ZoneEntryContext;
    Meanings.GuardMeans(guard, "mek", Py.Lit(ENTER_ZONE), ctx);
    assert "@" + ENTER_ZONE == "@enter_zone_alpha";
  }

  lemma DistinctKeys()
    ensures "@" + ZONE_CLEAR != "@" + ENTER_ZONE && ZONE_CLEAR != "@" + ZONE_CLEAR && ENTER_ZONE != "@" + ENTER_ZONE
    ensures ENTER_ZONE != "@" + ZONE_CLEAR && ZONE_CLEAR != "@" + ENTER_ZONE
  {
    assert |ZONE_CLEAR| == 10 && |ENTER_ZONE| == 16;
  }

  // ----- What the callbacks mean -----

  datatype Mode = Strict | Partial | Other(name: string)

  /** A chain that does not parse is None. */
  datatype Params = Params(chain: Option<Rust.Expr>, mode: Mode, maxSensorAgeMs: int)

  datatype Sensor = Sensor(zoneClear: bool, receivedAtMs: int)

  datatype Phase = Unconfigured | Inactive | Active | Finalized

  datatype Record = Record(timestampMs: int, params: Params, proposed: string, decision: Decision, zoneClear: bool)

  datatype State = State(
    phase: Phase,
    active: bool,
    params: Params,
    sensor: Sensor,
    logOpen: bool,
    log: seq<Record>,
    published: seq<bool>)

  /** How the evaluation across the foreign-function boundary goes; only the strict mode validates. */
  datatype Outcome = Evaluated | ValidatorRejected | OutOfMemory

  datatype Event =
    | Configure(params: Params, directoryMade: bool, logOpened: bool)
    | Activate
    | Deactivate
    | Cleanup
    | Shutdown
    | ZoneClear(data: bool, nowMs: int)
    | Propose(proposed: string, nowMs: int, outcome: Outcome)

  /** The lifecycle manager runs a transition callback only from the right phase. */
  predicate Allowed(phase: Phase, e: Event) {
    match e
    case Configure(_, _, _) => phase.Unconfigured?
    case Activate => phase.Inactive?
    case Deactivate => phase.Active?
    case Cleanup => phase.Inactive?
    case Shutdown => !phase.Finalized?
    case _ => true
  }

  predicate Accepts(e: Event)
    requires e.Configure?
  {
    !e.params.mode.Other? && e.directoryMade && e.logOpened
  }

  /** A reading at time 0 counts as never received. */
  predicate IsStale(sensor: Sensor, maxAgeMs: int, nowMs: int) {
    sensor.receivedAtMs == 0 || nowMs - sensor.receivedAtMs > maxAgeMs
  }

  function Verdict(params: Params, sensor: Sensor, nowMs: int, outcome: Outcome): Decision {
    if IsStale(sensor, params.maxSensorAgeMs, nowMs) then Failed
    else if outcome.OutOfMemory? || (outcome.ValidatorRejected? && params.mode.Strict?) then Failed
    else if params.chain.None? then Failed
    else DecisionOf(Rust.Eval(params.chain.value, ZoneEntryContext(sensor.zoneClear, params.mode.Strict?)))
  }

  /** The chain was evaluated on a reading that is fresh, in a mode that lets the evaluation count. */
  predicate Counts(params: Params, sensor: Sensor, nowMs: int, outcome: Outcome) {
    && sensor.receivedAtMs != 0 && nowMs <= sensor.receivedAtMs + params.maxSensorAgeMs
    && (outcome.Evaluated? || (outcome.ValidatorRejected? && !params.mode.Strict?))
    && params.chain.Some?
  }

  /** Permitted for an action, blocked for an undefined result, failed for any other and for one that does not count. */
  lemma VerdictMeans(params: Params, sensor: Sensor, nowMs: int, outcome: Outcome)
    ensures
      var d := Verdict(params, sensor, nowMs, outcome);
      if !Counts(params, sensor, nowMs, outcome) then d == Failed
      else
        var r := Rust.Eval(params.chain.value, ZoneEntryContext(sensor.zoneClear, params.mode.Strict?));
        && (d == Permitted <==> r.Action?) && (d == Blocked <==> r == Rust.NoeVal.Undefined)
        && (d == Failed <==> r.Truth? || r.Literal? || r.Error?)
  {
  }

  function Step(s: State, e: Event): State {
    if !Allowed(s.phase, e) then s else
    match e
    case Configure(params, _, _) =>
      if Accepts(e) then s.(params := params, logOpen := true, sensor := Sensor(false, 0), phase := Inactive)
      else s.(params := params)
    case Activate => s.(active := true, phase := Active)
    case Deactivate => s.(active := false, phase := Inactive)
    case Cleanup => s.(logOpen := false, phase := Unconfigured)
    case Shutdown => s.(active := false, logOpen := false, phase := Finalized)
    case ZoneClear(data, now) => if s.active then s.(sensor := Sensor(data, now)) else s
    case Propose(proposed, now, outcome) =>
      if !s.active then s
      else
        var d := Verdict(s.params, s.sensor, now, outcome);
        var record := Record(now, s.params, proposed, d, s.sensor.zoneClear);
        s.(published := s.published + [d == Permitted], log := if s.logOpen then s.log + [record] else s.log)
  }

  const NO_PARAMS := Params(None, Other(""), 5000)

  const FRESH := State(Unconfigured, false, NO_PARAMS, Sensor(false, 0), false, [], [])

  function Run(events: seq<Event>): State {
    if events == [] then FRESH else Step(Run(events[..|events| - 1]), events[|events| - 1])
  }

  // ----- Properties of runs -----

  datatype Reading = Reading(data: bool, atMs: int)

  predicate IsConfiguration(events: seq<Event>, i: nat)
    requires i < |events|
  {
    events[i].Configure? && Run(events[..i]).phase.Unconfigured? && Accepts(events[i])
  }

  /** The latest successful configuration. */
  function LatestParams(events: seq<Event>): Option<Params> {
    if events == [] then None
    else
      var n := |events| - 1;
      if IsConfiguration(events, n) then Some(events[n].params) else LatestParams(events[..n])
  }

  /** The latest sensor message taken in since then. */
  function LatestReading(events: seq<Event>): Option<Reading> {
    if events == [] then None
    else
      var n := |events| - 1;
      if IsConfiguration(events, n) then None
      else if events[n].ZoneClear? && Run(events[..n]).active then Some(Reading(events[n].data, events[n].nowMs))
      else LatestReading(events[..n])
  }

  function AsSensor(r: Option<Reading>): Sensor {
    if r.None? then Sensor(false, 0) else Sensor(r.value.data, r.value.atMs)
  }

  ghost predicate Tracks(s: State, events: seq<Event>) {
    && (s.active <==> s.phase.Active?)
    && (s.logOpen <==> s.phase.Inactive? || s.phase.Active?)
    && (s.logOpen ==> LatestParams(events) == Some(s.params))
    && (s.logOpen ==> s.sensor == AsSensor(LatestReading(events)))
  }

  /** The fields hold what the history says: the sensor state is the latest reading since the latest configuration. */
  lemma {:induction false} RunTracksHistory(events: seq<Event>)
    ensures Tracks(Run(events), events)
  {
    if events != [] {
      RunTracksHistory(events[..|events| - 1]);
      hide Verdict;
    }
  }

  /** What has to be true of a proposal for the gate to say yes under the default chain. */
  ghost predicate Justified(events: seq<Event>, nowMs: int, outcome: Outcome) {
    var reading, params := LatestReading(events), LatestParams(events);
    && Run(events).phase.Active?
    && reading.Some? && reading.value.data && reading.value.atMs != 0
    && params.Some? && nowMs - reading.value.atMs <= params.value.maxSensorAgeMs
    && !outcome.OutOfMemory? && !(outcome.ValidatorRejected? && params.value.mode.Strict?)
  }

  ghost predicate UsesDefaultChain(events: seq<Event>) {
    forall i :: 0 <= i < |events| && events[i].Configure? ==> events[i].params.chain == Some(DEFAULT_CHAIN)
  }

  lemma {:induction false} LatestParamsUseDefaultChain(events: seq<Event>)
    requires UsesDefaultChain(events)
    ensures LatestParams(events).Some? ==> LatestParams(events).value.chain == Some(DEFAULT_CHAIN)
  {
    if events != [] {
      LatestParamsUseDefaultChain(events[..|events| - 1]);
      hide Run;
    }
  }

  /**
   * A proposal handled while active publishes one answer and appends one record with it; the answer is yes exactly
   * when the latest reading since the latest configuration was true and fresh, and the evaluator gave a result.
   */
  lemma ProposalIsAnswered(events: seq<Event>, proposed: string, nowMs: int, outcome: Outcome)
    requires UsesDefaultChain(events) && Run(events).active
    ensures
      var before, after := Run(events), Run(events + [Propose(proposed, nowMs, outcome)]);
      && after.published == before.published + [Justified(events, nowMs, outcome)]
      && |after.log| == |before.log| + 1 && after.log[..|before.log|] == before.log
      && (after.log[|before.log|].decision.Permitted? <==> Justified(events, nowMs, outcome))
  {
    var e := Propose(proposed, nowMs, outcome);
    assert (events + [e])[..|events|] == events;
    RunTracksHistory(events);
    LatestParamsUseDefaultChain(events);
    var s := Run(events);
    DefaultChainGates(s.sensor.zoneClear, s.params.mode.Strict?);
    assert Run(events + [e]) == Step(s, e);
    hide Run, LatestParams, LatestReading, Rust.Eval, DecisionOf;
  }

  /** For each proposal handled, in order, whether it was justified when it came. */
  ghost function Answers(events: seq<Event>): seq<bool> {
    if events == [] then []
    else
      var n := |events| - 1;
      var e := events[n];
      if e.Propose? && Run(events[..n]).active then Answers(events[..n]) + [Justified(events[..n], e.nowMs, e.outcome)]
      else Answers(events[..n])
  }

  /** Over any run with the default chain, the answers published are these: each yes was justified, and each
      justified one said yes. */
  lemma {:induction false} PublishedIsJustified(events: seq<Event>)
    requires UsesDefaultChain(events)
    ensures Run(events).published == Answers(events)
  {
    if events != [] {
      var n := |events| - 1;
      var earlier, e := events[..n], events[n];
      PublishedIsJustified(earlier);
      assert earlier + [e] == events;
      if e.Propose? && Run(earlier).active {
        ProposalIsAnswered(earlier, e.proposed, e.nowMs, e.outcome);
      }
      hide Verdict, Justified;
    }
  }

  /** The proposals that reached an active node. */
  function Handled(events: seq<Event>): nat {
    if events == [] then 0
    else
      var n := |events| - 1;
      Handled(events[..n]) + if events[n].Propose? && Run(events[..n]).active then 1 else 0
  }

  /** One record and one answer for each proposal handled, and they agree, whatever the chain. */
  lemma {:induction false} RecordsMatchAnswers(events: seq<Event>)
    ensures |Run(events).log| == |Run(events).published| == Handled(events)
    ensures forall i :: 0 <= i < |Run(events).log| ==>
      (Run(events).published[i] <==> Run(events).log[i].decision.Permitted?)
  {
    if events != [] {
      var n := |events| - 1;
      RecordsMatchAnswers(events[..n]);
      RunTracksHistory(events[..n]);
      hide Verdict, LatestReading, LatestParams;
    }
  }

  lemma StepLogGrows(s: State, e: Event)
    ensures s.log <= Step(s, e).log
  {
    hide Verdict;
  }

  /** A run never rewrites what was recorded. */
  lemma {:induction false} LogOnlyGrows(events: seq<Event>, more: seq<Event>)
    ensures Run(events).log <= Run(events + more).log
  {
    if more == [] {
      assert events + more == events;
    } else {
      var n := |more| - 1;
      LogOnlyGrows(events, more[..n]);
      assert (events + more)[..|events| + n] == events + more[..n];
      StepLogGrows(Run(events + more[..n]), more[n]);
      hide Step;
    }
  }

  // ----- ros2_adapter/noe_ros2_adapter/src/noe_gate_node.cpp -----

  /** The node; callbacks are methods and time is an argument. */
  class Node {
    var phase: Phase
    var active: bool
    var params: Params
    var sensor: Sensor
    var logOpen: bool
    var log: seq<Record>
    var published: seq<bool>

    ghost function Abs(): State
      reads this
    {
      State(phase, active, params, sensor, logOpen, log, published)
    }

    constructor ()
      ensures Abs() == FRESH
    {
      phase, active, params, sensor := Unconfigured, false, NO_PARAMS, Sensor(false, 0);
      logOpen, log, published := false, [], [];
    }

    /** Parameters are stored before they are validated; the sensor is reset only at the end. */
    method OnConfigure(newParams: Params, directoryMade: bool, logOpened: bool) returns (success: bool)
      requires phase.Unconfigured?
      modifies this
      ensures Abs() == Step(old(Abs()), Configure(newParams, directoryMade, logOpened))
      ensures success <==> phase.Inactive?
      ensures success <==> (newParams.mode.Strict? || newParams.mode.Partial?) && directoryMade && logOpened
      ensures Abs() ==
        if success then
          old(Abs()).(params := newParams, logOpen := true, sensor := Sensor(false, 0), phase := Inactive)
        else old(Abs()).(params := newParams)
    {
      params := newParams;
      if params.mode.Other? {
        return false;
      }
      if !directoryMade {
        return false;
      }
      if !logOpened {
        return false;
      }
      logOpen := true;
      sensor := Sensor(false, 0);
      phase := Inactive;
      return true;
    }

    method OnActivate()
      requires phase.Inactive?
      modifies this
      ensures Abs() == Step(old(Abs()), Activate)
      ensures Abs() == old(Abs()).(active := true, phase := Active)
    {
      active := true;
      phase := Active;
    }

    method OnDeactivate()
      requires phase.Active?
      modifies this
      ensures Abs() == Step(old(Abs()), Deactivate)
      ensures Abs() == old(Abs()).(active := false, phase := Inactive)
    {
      active := false;
      phase := Inactive;
    }

    method OnCleanup()
      requires phase.Inactive?
      modifies this
      ensures Abs() == Step(old(Abs()), Cleanup)
      ensures Abs() == old(Abs()).(logOpen := false, phase := Unconfigured)
    {
      if logOpen {
        logOpen := false;
      }
      phase := Unconfigured;
    }

    method OnShutdown()
      requires !phase.Finalized?
      modifies this
      ensures Abs() == Step(old(Abs()), Shutdown)
      ensures Abs() == old(Abs()).(active := false, logOpen := false, phase := Finalized)
    {
      active := false;
      if logOpen {
        logOpen := false;
      }
      phase := Finalized;
    }

    method OnZoneClear(data: bool, nowMs: int)
      modifies this
      ensures Abs() == Step(old(Abs()), ZoneClear(data, nowMs))
      ensures Abs() == if old(active) then old(Abs()).(sensor := Sensor(data, nowMs)) else old(Abs())
    {
      if !active {
        return;
      }
      sensor := Sensor(data, nowMs);
    }

    method OnProposedAction(proposed: string, nowMs: int, outcome: Outcome)
      modifies this
      ensures Abs() == Step(old(Abs()), Propose(proposed, nowMs, outcome))
    {
      if !active {
        return;
      }
      EvaluateAndPublish(proposed, nowMs, outcome);
    }

    method EvaluateAndPublish(proposed: string, nowMs: int, outcome: Outcome)
      requires active
      modifies this
      ensures Abs() == Step(old(Abs()), Propose(proposed, nowMs, outcome))
      ensures
        var d := Verdict(params, sensor, nowMs, outcome);
        Abs() == old(Abs()).(
          published := old(published) + [d.Permitted?],
          log := if logOpen then old(log) + [Record(nowMs, params, proposed, d, sensor.zoneClear)] else old(log))
    {
      var snap := sensor;
      var stale := snap.receivedAtMs == 0 || nowMs - snap.receivedAtMs > params.maxSensorAgeMs;
      var decision := Failed;
      if !stale {
        if outcome.Evaluated? || (outcome.ValidatorRejected? && !params.mode.Strict?) {
          if params.chain.Some? {
            decision := DecisionOf(Rust.Eval(params.chain.value,
              ZoneEntryContext(snap.zoneClear, params.mode.Strict?)));
          }
        }
      }
      if active {
        published := published + [decision == Permitted];
      }
      AppendCertRecord(Record(nowMs, params, proposed, decision, snap.zoneClear));
    }

    method AppendCertRecord(record: Record)
      modifies this`log
      ensures log == if logOpen then old(log) + [record] else old(log)
    {
      if logOpen {
        log := log + [record];
      }
    }
  }
}
