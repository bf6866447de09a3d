/** The three-layer context manager: cached digests, size-limited atomic updates, merged snapshots. */
module ContextManager {
  import opened Options
  import opened Json
  import opened DeepMerge
  import CompositeHash

  type Bytes = CompositeHash.Bytes

  /** The serializer, the digest, and the limits; a size limit of 0 or less means none. */
  datatype Config = Config(canon: Json -> Bytes, sha: Bytes -> Bytes, maxShardSize: int, stalenessMs: nat)

  predicate Fits(c: Config, v: Json) {
    c.maxShardSize <= 0 || |c.canon(v)| <= c.maxShardSize
  }

  datatype Outcome = Done | BadContext | TooLarge

  // ----- What the calls mean -----

  datatype State = State(root: Json, domain: Json, local: Json, lastLocalUpdateMs: int)

  datatype Call =
    | UpdateLocal(arg: Json, nowMs: int)
    | ReplaceLocal(arg: Json, nowMs: int)
    | UpdateDomain(arg: Json)
    | ReplaceDomain(arg: Json)
    | UnsafeReplaceRoot(arg: Json)

  /** The layer a call would install. */
  function Proposed(s: State, call: Call): Json {
    match call
    case UpdateLocal(delta, _) => Merge(s.local, delta)
    case UpdateDomain(delta) => Merge(s.domain, delta)
    case _ => call.arg
  }

  function OutcomeOf(c: Config, s: State, call: Call): Outcome {
    if !call.arg.Obj? then BadContext
    else if !Fits(c, Proposed(s, call)) then TooLarge
    else Done
  }

  function Step(c: Config, s: State, call: Call): State {
    if !OutcomeOf(c, s, call).Done? then s
    else match call
      case UpdateLocal(_, now) => s.(local := Proposed(s, call), lastLocalUpdateMs := now)
      case ReplaceLocal(_, now) => s.(local := Proposed(s, call), lastLocalUpdateMs := now)
      case UpdateDomain(_) => s.(domain := Proposed(s, call))
      case ReplaceDomain(_) => s.(domain := Proposed(s, call))
      case UnsafeReplaceRoot(_) => s.(root := Proposed(s, call))
  }

  function Run(c: Config, s: State, calls: seq<Call>): State {
    if calls == [] then s else Step(c, Run(c, s, calls[..|calls| - 1]), calls[|calls| - 1])
  }

  predicate WellFormed(c: Config, s: State) {
    s.root.Obj? && s.domain.Obj? && s.local.Obj? && Fits(c, s.root) && Fits(c, s.domain)
  }

  function LayersOf(c: Config, s: State): CompositeHash.Layers<Bytes> {
    CompositeHash.Layers(c.canon(s.root), c.canon(s.domain), c.canon(s.local))
  }

  // ----- Properties of runs -----

  /**
   * The constructor does not size the local layer, so it may be too large to snapshot, but only until the first
   * accepted local call: from then on every layer stays within the limit.
   */
  lemma {:induction false} RunKeepsLimits(c: Config, s: State, calls: seq<Call>)
    requires WellFormed(c, s)
    ensures WellFormed(c, Run(c, s, calls))
    ensures Fits(c, Run(c, s, calls).local) || Run(c, s, calls).local == s.local
  {
    if calls != [] {
      RunKeepsLimits(c, s, calls[..|calls| - 1]);
    }
  }

  /** Only the call named unsafe changes the root. */
  lemma {:induction false} RunKeepsRoot(c: Config, s: State, calls: seq<Call>)
    requires forall i :: 0 <= i < |calls| ==> !calls[i].UnsafeReplaceRoot?
    ensures Run(c, s, calls).root == s.root
  {
    if calls != [] {
      RunKeepsRoot(c, s, calls[..|calls| - 1]);
    }
  }

  /** Delivering a patch twice is delivering it once, accepted or not. */
  lemma RepeatedPatchChangesNothing(c: Config, s: State, delta: Json, first: int, second: int)
    ensures
      var once := Step(c, s, UpdateLocal(delta, first));
      Step(c, once, UpdateLocal(delta, second)).(lastLocalUpdateMs := once.lastLocalUpdateMs) == once
    ensures
      var once := Step(c, s, UpdateDomain(delta));
      Step(c, once, UpdateDomain(delta)) == once
  {
    MergeAbsorbsOverlay(s.local, delta);
    MergeAbsorbsOverlay(s.domain, delta);
  }

  /** After an accepted patch the next view is the patched old view, exactly where nothing lower is uncovered. */
  lemma PatchPatchesView(c: Config, s: State, delta: Json, nowMs: int)
    requires OutcomeOf(c, s, UpdateLocal(delta, nowMs)).Done?
    ensures
      var next := Step(c, s, UpdateLocal(delta, nowMs));
      View(next.root, next.domain, next.local) == Merge(View(s.root, s.domain, s.local), delta) <==>
        KeepsObjects(Merge(Merge(EMPTY, s.root), s.domain), s.local, delta)
  {
    ViewIsIncremental(s.root, s.domain, s.local, delta);
  }

  /** Two states have one composite hash exactly when all three layers are equal. */
  lemma CompositeHashBindsLayers(c: Config, a: State, b: State)
    requires CompositeHash.IsDigest(c.sha)
    requires CompositeHash.CollisionFree(c.sha,
      CompositeHash.Hashed(c.sha, LayersOf(c, a)) + CompositeHash.Hashed(c.sha, LayersOf(c, b)))
    requires forall v, w :: {v, w} <= {a.root, a.domain, a.local, b.root, b.domain, b.local} ==>
      (c.canon(v) == c.canon(w) ==> v == w)
    ensures CompositeHash.Composite(c.sha, LayersOf(c, a)) == CompositeHash.Composite(c.sha, LayersOf(c, b)) <==>
      a.root == b.root && a.domain == b.domain && a.local == b.local
  {
    CompositeHash.CompositeBinds(c.sha, LayersOf(c, a), LayersOf(c, b));
    assert {a.root, b.root} <= {a.root, a.domain, a.local, b.root, b.domain, b.local};
    assert {a.domain, b.domain} <= {a.root, a.domain, a.local, b.root, b.domain, b.local};
    assert {a.local, b.local} <= {a.root, a.domain, a.local, b.root, b.domain, b.local};
  }

  // ----- The manager -----

  datatype Snapshot = Snapshot(
    local: Json,
    cMerged: Json,
    structured: CompositeHash.Layers<Json>,
    rootHash: Bytes,
    domainHash: Bytes,
    localHash: Bytes,
    compositeHash: Bytes,
    timestampMs: int,
    localLayerAgeStale: bool)

  /** `_hash_json_digest`: no digest for what is too large. */
  method HashJsonDigest(c: Config, v: Json) returns (digest: Option<Bytes>)
    ensures digest == if Fits(c, v) then Some(c.sha(c.canon(v))) else None
  {
    var s := c.canon(v);
    if c.maxShardSize > 0 && |s| > c.maxShardSize {
      return None;
    }
    return Some(c.sha(s));
  }

  /** One lock guards the object, so calls run one at a time. */
  class Manager {
    const config: Config
    var root: Json
    var domain: Json
    var local: Json
    var rootDigest: Bytes
    var domainDigest: Bytes
    var lastLocalUpdateMs: int

    /** The cached digests are those of the current layers. */
    ghost predicate Valid()
      reads this
    {
      && WellFormed(config, Abs())
      && rootDigest == config.sha(config.canon(root))
      && domainDigest == config.sha(config.canon(domain))
    }

    ghost function Abs(): State
      reads this
    {
      State(root, domain, local, lastLocalUpdateMs)
    }

    constructor (config: Config, root: Json, domain: Json, local: Json, rootDigest: Bytes, domainDigest: Bytes,
                 nowMs: int)
      requires WellFormed(config, State(root, domain, local, nowMs))
      requires rootDigest == config.sha(config.canon(root)) && domainDigest == config.sha(config.canon(domain))
      ensures Valid() && this.config == config && Abs() == State(root, domain, local, nowMs)
    {
      this.config := config;
      this.root, this.domain, this.local := root, domain, local;
      this.rootDigest, this.domainDigest := rootDigest, domainDigest;
      this.lastLocalUpdateMs := nowMs;
    }

    /** `__init__`, with its two ways to raise. */
    static method Create(config: Config, root: Json, domain: Json, local: Json, nowMs: int)
      returns (outcome: Outcome, manager: Manager?)
      ensures outcome ==
        if !root.Obj? || !domain.Obj? || !local.Obj? then BadContext
        else if config.maxShardSize > 0 && |config.canon(root)| > config.maxShardSize then TooLarge
        else if config.maxShardSize > 0 && |config.canon(domain)| > config.maxShardSize then TooLarge
        else Done
      ensures outcome.Done? <==> manager != null
      ensures manager != null ==> fresh(manager) && manager.Valid() && manager.config == config
      ensures manager != null ==> manager.Abs() == State(root, domain, local, nowMs)
    {
      if !root.Obj? || !domain.Obj? || !local.Obj? {
        return BadContext, null;
      }
      var rootDigest := HashJsonDigest(config, root);
      if rootDigest.None? {
        return TooLarge, null;
      }
      var domainDigest := HashJsonDigest(config, domain);
      if domainDigest.None? {
        return TooLarge, null;
      }
      outcome := Done;
      manager := new Manager(config, root, domain, local, rootDigest.value, domainDigest.value, nowMs);
    }

    /** A snapshot fails only on an oversized local layer; its hashes and view are those of its own layers. */
    method TakeSnapshot(nowMs: int) returns (snapshot: Option<Snapshot>)
      requires Valid()
      ensures snapshot.None? <==> config.maxShardSize > 0 && |config.canon(local)| > config.maxShardSize
      ensures snapshot.Some? ==>
        var s := snapshot.value;
        && s.structured == CompositeHash.Layers(root, domain, local) && s.local == local
        && s.cMerged == View(root, domain, local)
        && s.rootHash == config.sha(config.canon(root))
        && s.domainHash == config.sha(config.canon(domain))
        && s.localHash == config.sha(config.canon(local))
        && s.compositeHash == CompositeHash.Composite(config.sha, LayersOf(config, Abs()))
        && s.compositeHash == config.sha(s.rootHash + s.domainHash + s.localHash)
        && s.timestampMs == nowMs
        && (s.localLayerAgeStale <==> config.stalenessMs > 0 && nowMs - lastLocalUpdateMs > config.stalenessMs)
    {
      var timeSinceUpdate := nowMs - lastLocalUpdateMs;
      var isStale := config.stalenessMs > 0 && timeSinceUpdate > config.stalenessMs;
      var merged := DeepMerge.DeepMerge(EMPTY, root);
      merged := DeepMerge.DeepMerge(merged, domain);
      merged := DeepMerge.DeepMerge(merged, local);
      var localDigest := HashJsonDigest(config, local);
      if localDigest.None? {
        return None;
      }
      var totalHash := config.sha(rootDigest + domainDigest + localDigest.value);
      return Some(Snapshot(
        local, merged, CompositeHash.Layers(root, domain, local),
        rootDigest, domainDigest, localDigest.value, totalHash, nowMs, isStale));
    }

    method UpdateLocal(delta: Json, nowMs: int) returns (outcome: Outcome)
      requires Valid()
      modifies this
      ensures Valid()
      ensures outcome == OutcomeOf(config, old(Abs()), Call.UpdateLocal(delta, nowMs))
      ensures Abs() == Step(config, old(Abs()), Call.UpdateLocal(delta, nowMs))
      ensures outcome ==
        if !delta.Obj? then BadContext
        else if config.maxShardSize > 0 && |config.canon(Merge(old(local), delta))| > config.maxShardSize then TooLarge
        else Done
      ensures Abs() ==
        if outcome.Done? then old(Abs()).(local := Merge(old(local), delta), lastLocalUpdateMs := nowMs)
        else old(Abs())
    {
      if !delta.Obj? {
        return BadContext;
      }
      var newLocal := DeepMerge.DeepMerge(local, delta);
      if config.maxShardSize > 0 && |config.canon(newLocal)| > config.maxShardSize {
        return TooLarge;
      }
      local := newLocal;
      lastLocalUpdateMs := nowMs;
      return Done;
    }

    method ReplaceLocal(newLocal: Json, nowMs: int) returns (outcome: Outcome)
      requires Valid()
      modifies this
      ensures Valid()
      ensures outcome == OutcomeOf(config, old(Abs()), Call.ReplaceLocal(newLocal, nowMs))
      ensures Abs() == Step(config, old(Abs()), Call.ReplaceLocal(newLocal, nowMs))
      ensures outcome ==
        if !newLocal.Obj? then BadContext
        else if config.maxShardSize > 0 && |config.canon(newLocal)| > config.maxShardSize then TooLarge
        else Done
      ensures Abs() == if outcome.Done? then old(Abs()).(local := newLocal, lastLocalUpdateMs := nowMs) else old(Abs())
    {
      if !newLocal.Obj? {
        return BadContext;
      }
      if config.maxShardSize > 0 && |config.canon(newLocal)| > config.maxShardSize {
        return TooLarge;
      }
      local := newLocal;
      lastLocalUpdateMs := nowMs;
      return Done;
    }

    method UpdateDomain(delta: Json) returns (outcome: Outcome)
      requires Valid()
      modifies this
      ensures Valid()
      ensures outcome == OutcomeOf(config, old(Abs()), Call.UpdateDomain(delta))
      ensures Abs() == Step(config, old(Abs()), Call.UpdateDomain(delta))
      ensures outcome ==
        if !delta.Obj? then BadContext
        else if config.maxShardSize > 0 && |config.canon(Merge(old(domain), delta))| > config.maxShardSize then TooLarge
        else Done
      ensures Abs() == if outcome.Done? then old(Abs()).(domain := Merge(old(domain), delta)) else old(Abs())
    {
      if !delta.Obj? {
        return BadContext;
      }
      var domainDict := DeepMerge.DeepMerge(domain, delta);
      var newDigest := HashJsonDigest(config, domainDict);
      if newDigest.None? {
        return TooLarge;
      }
      domain := domainDict;
      domainDigest := newDigest.value;
      return Done;
    }

    method ReplaceDomain(newDomain: Json) returns (outcome: Outcome)
      requires Valid()
      modifies this
      ensures Valid()
      ensures outcome == OutcomeOf(config, old(Abs()), Call.ReplaceDomain(newDomain))
      ensures Abs() == Step(config, old(Abs()), Call.ReplaceDomain(newDomain))
      ensures outcome ==
        if !newDomain.Obj? then BadContext
        else if config.maxShardSize > 0 && |config.canon(newDomain)| > config.maxShardSize then TooLarge
        else Done
      ensures Abs() == if outcome.Done? then old(Abs()).(domain := newDomain) else old(Abs())
    {
      if !newDomain.Obj? {
        return BadContext;
      }
      var newDigest := HashJsonDigest(config, newDomain);
      if newDigest.None? {
        return TooLarge;
      }
      domain := newDomain;
      domainDigest := newDigest.value;
      return Done;
    }

    method UnsafeReplaceRoot(newRoot: Json) returns (outcome: Outcome)
      requires Valid()
      modifies this
      ensures Valid()
      ensures outcome == OutcomeOf(config, old(Abs()), Call.UnsafeReplaceRoot(newRoot))
      ensures Abs() == Step(config, old(Abs()), Call.UnsafeReplaceRoot(newRoot))
      ensures outcome ==
        if !newRoot.Obj? then BadContext
        else if config.maxShardSize > 0 && |config.canon(newRoot)| > config.maxShardSize then TooLarge
        else Done
      ensures Abs() == if outcome.Done? then old(Abs()).(root := newRoot) else old(Abs())
    {
      if !newRoot.Obj? {
        return BadContext;
      }
      var newDigest := HashJsonDigest(config, newRoot);
      if newDigest.None? {
        return TooLarge;
      }
      root := newRoot;
      rootDigest := newDigest.value;
      return Done;
    }
  }
}
