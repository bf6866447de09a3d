/** The safe projection `pi_safe` (noe/context_projection.py): filtering, leading edge, group vote. */
module Projection {
  import opened Options
  import opened Json
  import opened Strings

  /** An evidence value, by how the vote can compare it. */
  datatype Reading =
    | Hashable(typeName: string, content: Json)
    | NotANumber
    | Structured(canonical: string, content: Json)   // a dict or list with its canonical JSON
    | Unserializable

  /** `group_key`: typed value, or digest of the canonical JSON. */
  datatype Key = Typed(typeName: string, content: Json) | Digest(canonical: string)

  function KeyOf(v: Reading): Option<Key> {
    match v
    case Hashable(t, c) => Some(Typed(t, c))
    case Structured(canonical, _) => Some(Digest(canonical))
    case _ => None
  }

  datatype Confidence = Finite(level: int) | NotFinite

  datatype Annotated =
    Annotated(predicateName: string, value: Reading, timestamp: int, source: string, confidence: Confidence)

  datatype Bare = Bare(predicateName: string, value: Reading)

  datatype Config = Config(tauStaleMs: int, theta: int, tauWindowMs: int)

  /** The clock, the thresholds, the allow-lists per predicate, and the required-context gate. */
  datatype Setting = Setting(
    config: Config,
    nowMs: int,
    authority: Option<map<string, set<string>>>,
    explained: string -> bool)

  const MAX_CLOCK_SKEW_MS := 200

  predicate IsCandidate(x: Annotated, s: Setting) {
    var age := s.nowMs - x.timestamp;
    if age < -MAX_CLOCK_SKEW_MS then false
    else if age > s.config.tauStaleMs then false
    else if x.confidence.NotFinite? then false
    else if x.confidence.level < s.config.theta then false
    else s.authority.Some? && x.predicateName in s.authority.value ==> x.source in s.authority.value[x.predicateName]
  }

  // ----- The rule -----

  ghost predicate IsCandidateFor(x: Annotated, evidence: seq<Annotated>, p: string, s: Setting) {
    x in evidence && x.predicateName == p && IsCandidate(x, s)
  }

  /** No candidate for the predicate is newer by more than the window. */
  ghost predicate InLeadingEdge(x: Annotated, evidence: seq<Annotated>, p: string, s: Setting) {
    && IsCandidateFor(x, evidence, p, s)
    && forall y :: IsCandidateFor(y, evidence, p, s) ==> y.timestamp - x.timestamp <= s.config.tauWindowMs
  }

  /** The predicate passes its gate, and the usable readings of its leading edge all have this key. */
  ghost predicate HasConsensus(evidence: seq<Annotated>, p: string, k: Key, s: Setting) {
    && s.explained(p)
    && (exists x :: InLeadingEdge(x, evidence, p, s) && KeyOf(x.value) == Some(k))
    && (forall x :: InLeadingEdge(x, evidence, p, s) && KeyOf(x.value).Some? ==> KeyOf(x.value) == Some(k))
  }

  /** What a reading needs to take part, in terms of its own fields. */
  ghost predicate MeetsLimits(x: Annotated, s: Setting) {
    && -200 <= s.nowMs - x.timestamp <= s.config.tauStaleMs
    && x.confidence.Finite? && x.confidence.level >= s.config.theta
    && (s.authority.Some? && x.predicateName in s.authority.value ==> x.source in s.authority.value[x.predicateName])
  }

  /** A reading of the predicate that meets the limits, and than which no other such reading is newer by more. */
  ghost predicate Leads(x: Annotated, evidence: seq<Annotated>, p: string, s: Setting) {
    && x in evidence && x.predicateName == p && MeetsLimits(x, s)
    && forall y :: y in evidence && y.predicateName == p && MeetsLimits(y, s) ==>
         y.timestamp <= x.timestamp + s.config.tauWindowMs
  }

  /** The rule in full: what is counted is every reading that meets the limits and leads, and nothing else. */
  lemma ConsensusMeans(evidence: seq<Annotated>, p: string, k: Key, s: Setting)
    ensures HasConsensus(evidence, p, k, s) <==>
      && s.explained(p)
      && (exists x :: Leads(x, evidence, p, s) && KeyOf(x.value) == Some(k))
      && (forall x, other :: Leads(x, evidence, p, s) && KeyOf(x.value) == Some(other) ==> other == k)
  {
    forall x ensures Leads(x, evidence, p, s) <==> InLeadingEdge(x, evidence, p, s) {
      assert forall y :: IsCandidate(y, s) <==> MeetsLimits(y, s);
    }
  }

  /** Two leading readings of one predicate that cannot both be right. */
  ghost predicate AreInConflict(x: Annotated, y: Annotated, evidence: seq<Annotated>, p: string, s: Setting) {
    && Leads(x, evidence, p, s) && Leads(y, evidence, p, s)
    && KeyOf(x.value).Some? && KeyOf(y.value).Some? && KeyOf(x.value) != KeyOf(y.value)
  }

  lemma ConflictHasNoConsensus(evidence: seq<Annotated>, p: string, k: Key, s: Setting, x: Annotated, y: Annotated)
    requires AreInConflict(x, y, evidence, p, s)
    ensures !HasConsensus(evidence, p, k, s)
  {
    ConsensusMeans(evidence, p, k, s);
  }

  /** Keys are equal for equal values of one type; a dict or list is compared by its canonical text. */
  lemma KeysMean(v: Reading, w: Reading)
    ensures KeyOf(v).Some? <==> v.Hashable? || v.Structured?
    ensures KeyOf(v).Some? && KeyOf(w).Some? ==> (
      KeyOf(v) == KeyOf(w) <==>
        || (v.Hashable? && w.Hashable? && v.typeName == w.typeName && v.content == w.content)
        || (v.Structured? && w.Structured? && v.canonical == w.canonical))
  {
  }

  /** The promoted set depends on which evidence there is, not on its order or repetition. */
  lemma ConsensusIgnoresOrder(a: seq<Annotated>, b: seq<Annotated>, p: string, k: Key, s: Setting)
    requires forall x :: x in a <==> x in b
    ensures HasConsensus(a, p, k, s) <==> HasConsensus(b, p, k, s)
  {
    assert forall x :: InLeadingEdge(x, a, p, s) <==> InLeadingEdge(x, b, p, s);
  }

  /** A promoted value was read freshly, confidently and from an allowed source; no other value is promoted with it. */
  lemma ConsensusHasWitness(evidence: seq<Annotated>, p: string, k: Key, s: Setting)
    requires HasConsensus(evidence, p, k, s)
    ensures exists x ::
      && x in evidence && x.predicateName == p && KeyOf(x.value) == Some(k)
      && -MAX_CLOCK_SKEW_MS <= s.nowMs - x.timestamp <= s.config.tauStaleMs
      && x.confidence.Finite? && x.confidence.level >= s.config.theta
      && (s.authority.Some? && p in s.authority.value ==> x.source in s.authority.value[p])
    ensures forall other :: HasConsensus(evidence, p, other, s) ==> other == k
  {
    var x :| InLeadingEdge(x, evidence, p, s) && KeyOf(x.value) == Some(k);
    assert x in evidence && IsCandidate(x, s);
  }

  // ----- Candidates by predicate -----

  function OfPredicate(items: seq<Annotated>, p: string): (r: seq<Annotated>)
    ensures forall x :: x in r <==> x in items && x.predicateName == p
  {
    if items == [] then []
    else (
      var rest := OfPredicate(items[..|items| - 1], p);
      if items[|items| - 1].predicateName == p then rest + [items[|items| - 1]] else rest)
  }

  method Candidates(cRich: seq<Annotated>, s: Setting) returns (r: seq<Annotated>)
    ensures forall x :: x in r <==>
      && x in cRich
      && -200 <= s.nowMs - x.timestamp <= s.config.tauStaleMs
      && x.confidence.Finite? && x.confidence.level >= s.config.theta
      && (s.authority.Some? && x.predicateName in s.authority.value ==> x.source in s.authority.value[x.predicateName])
  {
    r := [];
    for i := 0 to |cRich|
      invariant forall x :: x in r <==> x in cRich[..i] && IsCandidate(x, s)
    {
      if IsCandidate(cRich[i], s) {
        r := r + [cRich[i]];
      }
    }
  }

  /** The dict of candidate lists; `names` is its insertion order. */
  method GroupByPredicate(candidates: seq<Annotated>) returns (names: seq<string>, byPred: map<string, seq<Annotated>>)
    ensures Distinct(names) && forall p :: p in names <==> p in byPred
    ensures forall p :: p in byPred <==> OfPredicate(candidates, p) != []
    ensures forall p :: p in byPred ==> byPred[p] == OfPredicate(candidates, p)
  {
    names, byPred := [], map[];
    for i := 0 to |candidates|
      invariant Distinct(names) && forall p :: p in names <==> p in byPred
      invariant forall p :: p in byPred <==> OfPredicate(candidates[..i], p) != []
      invariant forall p :: p in byPred ==> byPred[p] == OfPredicate(candidates[..i], p)
    {
      var c := candidates[i];
      assert candidates[..i + 1][..i] == candidates[..i];
      if c.predicateName !in byPred {
        byPred := byPred[c.predicateName := []];
        names := names + [c.predicateName];
      }
      byPred := byPred[c.predicateName := byPred[c.predicateName] + [c]];
    }
    assert candidates[..|candidates|] == candidates;
  }

  // ----- The leading edge -----

  /** Stable insertion, newest first. */
  function InsertByTime(x: Annotated, sorted: seq<Annotated>): (r: seq<Annotated>)
    ensures forall y :: y in r <==> y == x || y in sorted
    ensures |r| == |sorted| + 1
  {
    if sorted == [] then [x]
    else if sorted[0].timestamp < x.timestamp then [x] + sorted
    else [sorted[0]] + InsertByTime(x, sorted[1..])
  }

  ghost predicate NewestFirst(items: seq<Annotated>) {
    forall i, j :: 0 <= i < j < |items| ==> items[i].timestamp >= items[j].timestamp
  }

  /** `items.sort(key=lambda x: x.timestamp, reverse=True)` */
  function SortByTime(items: seq<Annotated>): (r: seq<Annotated>)
    ensures forall y :: y in r <==> y in items
    ensures |r| == |items|
  {
    if items == [] then [] else
    var r := InsertByTime(items[|items| - 1], SortByTime(items[..|items| - 1]));
    assert items == items[..|items| - 1] + [items[|items| - 1]];
    r
  }

  lemma {:induction false} InsertKeepsOrder(x: Annotated, sorted: seq<Annotated>)
    requires NewestFirst(sorted)
    ensures NewestFirst(InsertByTime(x, sorted))
    decreases |sorted|
  {
    if sorted != [] && sorted[0].timestamp >= x.timestamp {
      InsertKeepsOrder(x, sorted[1..]);
      var rest := InsertByTime(x, sorted[1..]);
      forall j | 0 <= j < |rest| ensures sorted[0].timestamp >= rest[j].timestamp {
        assert rest[j] in rest;
        if rest[j] != x {
          var k :| 0 <= k < |sorted| - 1 && sorted[1..][k] == rest[j];
          assert sorted[k + 1] == rest[j];
        }
      }
    }
  }

  lemma {:induction false} SortIsOrdered(items: seq<Annotated>)
    ensures NewestFirst(SortByTime(items))
  {
    if items != [] {
      SortIsOrdered(items[..|items| - 1]);
      InsertKeepsOrder(items[|items| - 1], SortByTime(items[..|items| - 1]));
    }
  }

  ghost predicate WithinWindow(x: Annotated, items: seq<Annotated>, window: int) {
    x in items && forall y :: y in items ==> y.timestamp - x.timestamp <= window
  }

  method LeadingEdge(items: seq<Annotated>, window: int) returns (edge: seq<Annotated>)
    requires items != []
    ensures forall x :: x in edge <==> WithinWindow(x, items, window)
  {
    var sorted := SortByTime(items);
    SortIsOrdered(items);
    var newest := sorted[0];
    forall y | y in items ensures y.timestamp <= newest.timestamp {
      assert y in sorted;
    }
    assert newest in items;
    edge := [];
    for i := 0 to |sorted|
      invariant forall x :: x in edge <==> x in sorted[..i] && newest.timestamp - x.timestamp <= window
    {
      if newest.timestamp - sorted[i].timestamp <= window {
        edge := edge + [sorted[i]];
      }
    }
    assert sorted[..|sorted|] == sorted;
  }

  // ----- The vote by independence group -----

  ghost predicate IsUsableKey(k: Key, edge: seq<Annotated>) {
    exists x :: x in edge && KeyOf(x.value) == Some(k)
  }

  function GroupOf(x: Annotated, groups: map<string, string>): string {
    if x.source in groups then groups[x.source] else x.source
  }

  ghost predicate IsKeyOfGroup(k: Key, g: string, edge: seq<Annotated>, groups: map<string, string>) {
    exists x :: x in edge && GroupOf(x, groups) == g && KeyOf(x.value) == Some(k)
  }

  ghost predicate VotesAre(votes: map<string, set<Key>>, edge: seq<Annotated>, groups: map<string, string>) {
    && (forall x :: x in edge ==> GroupOf(x, groups) in votes)
    && (forall g, k :: g in votes && k in votes[g] ==> IsKeyOfGroup(k, g, edge, groups))
    && (forall x :: x in edge && KeyOf(x.value).Some? ==> KeyOf(x.value).value in votes[GroupOf(x, groups)])
  }

  ghost predicate IsReadAs(v: Reading, k: Key, edge: seq<Annotated>) {
    KeyOf(v) == Some(k) && exists x :: x in edge && x.value == v
  }

  ghost predicate ValuesAre(values: map<Key, Reading>, edge: seq<Annotated>) {
    && (forall x :: x in edge && KeyOf(x.value).Some? ==> KeyOf(x.value).value in values)
    && (forall k :: k in values ==> IsReadAs(values[k], k, edge))
  }

  /** One reading of the leading edge joins the vote of its group. */
  method CastVote(item: Annotated, ghost before: seq<Annotated>, groups: map<string, string>,
                  ids: seq<string>, votes: map<string, set<Key>>)
    returns (ids': seq<string>, votes': map<string, set<Key>>)
    requires forall g :: g in ids <==> g in votes
    requires VotesAre(votes, before, groups)
    ensures forall g :: g in ids' <==> g in votes'
    ensures VotesAre(votes', before + [item], groups)
  {
    var g := GroupOf(item, groups);
    ids', votes' := ids, votes;
    if g !in votes {
      votes' := votes'[g := {}];
      ids' := ids' + [g];
    }
    var key := KeyOf(item.value);
    if key.Some? {
      votes' := votes'[g := votes'[g] + {key.value}];
    }
    forall h, k | h in votes' && k in votes'[h] ensures IsKeyOfGroup(k, h, before + [item], groups) {
      if h in votes && k in votes[h] {
        assert IsKeyOfGroup(k, h, before, groups);
      } else {
        assert h == g && key == Some(k) && item in before + [item];
      }
    }
  }

  function NoteValue(item: Annotated, ghost before: seq<Annotated>, values: map<Key, Reading>): (r: map<Key, Reading>)
    requires ValuesAre(values, before)
    ensures ValuesAre(r, before + [item])
  {
    var key := KeyOf(item.value);
    var r := if key.Some? then values[key.value := item.value] else values;
    assert item in before + [item];
    assert forall k :: k in values ==> IsReadAs(values[k], k, before);
    assert forall k, v :: IsReadAs(v, k, before) ==> IsReadAs(v, k, before + [item]);
    r
  }

  /** `groups` and `value_map`: the keys each group reported, and a value behind each key. */
  method CollectVotes(edge: seq<Annotated>, groups: map<string, string>)
    returns (ids: seq<string>, votes: map<string, set<Key>>, values: map<Key, Reading>)
    ensures forall g :: g in ids <==> g in votes
    ensures VotesAre(votes, edge, groups)
    ensures ValuesAre(values, edge)
  {
    ids, votes, values := [], map[], map[];
    for i := 0 to |edge|
      invariant forall g :: g in ids <==> g in votes
      invariant VotesAre(votes, edge[..i], groups)
      invariant ValuesAre(values, edge[..i])
    {
      assert edge[..i] + [edge[i]] == edge[..i + 1];
      ids, votes := CastVote(edge[i], edge[..i], groups, ids, votes);
      values := NoteValue(edge[i], edge[..i], values);
    }
    assert edge[..|edge|] == edge;
  }

  ghost predicate IsVote(k: Key, votes: map<string, set<Key>>) {
    exists g :: g in votes && k in votes[g]
  }

  lemma TwoMembers(keys: set<Key>)
    requires |keys| > 1
    ensures exists a, b :: a in keys && b in keys && a != b
  {
    var a :| a in keys;
    assert |keys - {a}| > 0;
    var b :| b in keys - {a};
  }

  lemma AtMostOne(keys: set<Key>, key: Key)
    requires |keys| <= 1 && key in keys
    ensures keys == {key}
  {
    assert |keys - {key}| == 0;
  }

  /** The consistency loop: a group with two keys, or two groups with different keys, is a conflict. */
  method Settle(ids: seq<string>, votes: map<string, set<Key>>) returns (agreed: Option<Key>)
    requires forall g :: g in ids <==> g in votes
    ensures forall k :: agreed == Some(k) <==> IsVote(k, votes) && forall other :: IsVote(other, votes) ==> other == k
  {
    var consistent := true;
    agreed := None;
    var i := 0;
    while i < |ids|
      invariant 0 <= i <= |ids|
      invariant consistent
      invariant agreed.None? ==> forall j :: 0 <= j < i ==> votes[ids[j]] == {}
      invariant agreed.Some? ==> IsVote(agreed.value, votes)
      invariant agreed.Some? ==> forall j, k :: 0 <= j < i && k in votes[ids[j]] ==> k == agreed.value
    {
      var keys := votes[ids[i]];
      if |keys| > 1 {
        TwoMembers(keys);
        ghost var a, b :| a in keys && b in keys && a != b;
        assert IsVote(a, votes) && IsVote(b, votes);
        consistent := false;
        break;
      }
      if keys != {} {
        var key :| key in keys;
        AtMostOne(keys, key);
        assert IsVote(key, votes);
        if agreed.None? {
          agreed := Some(key);
        } else if key != agreed.value {
          consistent := false;
          break;
        }
      }
      i := i + 1;
    }
    if !consistent {
      agreed := None;
    }
  }

  /** The vote by groups accepts a value exactly when all usable readings agree, whatever the groups are. */
  method VoteByGroups(edge: seq<Annotated>, groups: map<string, string>) returns (agreed: Option<Reading>)
    ensures agreed.Some? ==> KeyOf(agreed.value).Some? && exists x :: x in edge && x.value == agreed.value
    ensures forall k ::
      (agreed.Some? && KeyOf(agreed.value) == Some(k)) <==>
      (IsUsableKey(k, edge) && forall other :: IsUsableKey(other, edge) ==> other == k)
  {
    var ids, votes, values := CollectVotes(edge, groups);
    var ref := Settle(ids, votes);
    forall k ensures IsVote(k, votes) <==> IsUsableKey(k, edge) {
      if IsVote(k, votes) {
        var g :| g in votes && k in votes[g];
        assert IsKeyOfGroup(k, g, edge, groups);
      }
    }
    agreed := if ref.Some? then Some(values[ref.value]) else None;
  }

  // ----- The projection -----

  ghost predicate Promotes(safe: seq<Bare>, p: string, k: Key) {
    exists b :: b in safe && b.predicateName == p && KeyOf(b.value) == Some(k)
  }

  /** Every promoted value was reported, as it is, by a reading in the leading edge. */
  ghost predicate IsWitnessed(b: Bare, cRich: seq<Annotated>, s: Setting) {
    KeyOf(b.value).Some? && exists x :: InLeadingEdge(x, cRich, b.predicateName, s) && x.value == b.value
  }

  ghost predicate IsPromotion(b: Bare, cRich: seq<Annotated>, s: Setting) {
    IsWitnessed(b, cRich, s) && HasConsensus(cRich, b.predicateName, KeyOf(b.value).value, s)
  }

  /** The leading edge among the candidates of one predicate is the leading edge of the rule. */
  lemma EdgeIsLeading(cRich: seq<Annotated>, items: seq<Annotated>, edge: seq<Annotated>, p: string, s: Setting)
    requires forall x :: x in items <==> IsCandidateFor(x, cRich, p, s)
    requires forall x :: x in edge <==> WithinWindow(x, items, s.config.tauWindowMs)
    ensures forall x :: x in edge <==> InLeadingEdge(x, cRich, p, s)
  {
  }

  lemma AgreementIsConsensus(cRich: seq<Annotated>, edge: seq<Annotated>, p: string, k: Key, s: Setting)
    requires s.explained(p)
    requires forall x :: x in edge <==> InLeadingEdge(x, cRich, p, s)
    ensures HasConsensus(cRich, p, k, s)
      <==> IsUsableKey(k, edge) && forall other :: IsUsableKey(other, edge) ==> other == k
  {
    if IsUsableKey(k, edge) && forall other :: IsUsableKey(other, edge) ==> other == k {
      forall x | InLeadingEdge(x, cRich, p, s) && KeyOf(x.value).Some? ensures KeyOf(x.value) == Some(k) {
        assert IsUsableKey(KeyOf(x.value).value, edge);
      }
    }
    if HasConsensus(cRich, p, k, s) {
      forall other | IsUsableKey(other, edge) ensures other == k {
        var x :| x in edge && KeyOf(x.value) == Some(other);
      }
    }
  }

  /** The value promoted for one predicate, if any. */
  method Resolve(ghost cRich: seq<Annotated>, p: string, items: seq<Annotated>, s: Setting, groups: map<string, string>)
    returns (r: Option<Reading>)
    requires items != [] && forall x :: x in items <==> IsCandidateFor(x, cRich, p, s)
    ensures forall k :: HasConsensus(cRich, p, k, s) <==> r.Some? && KeyOf(r.value) == Some(k)
    ensures r.Some? ==> IsWitnessed(Bare(p, r.value), cRich, s)
  {
    if !s.explained(p) {
      return None;
    }
    var edge := LeadingEdge(items, s.config.tauWindowMs);
    EdgeIsLeading(cRich, items, edge, p, s);
    r := VoteByGroups(edge, groups);
    forall k ensures HasConsensus(cRich, p, k, s) <==> r.Some? && KeyOf(r.value) == Some(k) {
      AgreementIsConsensus(cRich, edge, p, k, s);
    }
  }

  /**
   * `pi_safe` is the window consensus rule: it promotes a value for a predicate exactly when the rule does,
   * at most one for each predicate, and each as some leading reading reported it.
   */
  method PiSafe(cRich: seq<Annotated>, s: Setting, groups: map<string, string>) returns (safe: seq<Bare>)
    ensures forall p, k :: Promotes(safe, p, k) <==> HasConsensus(cRich, p, k, s)
    ensures forall i, j :: 0 <= i < j < |safe| ==> safe[i].predicateName != safe[j].predicateName
    ensures forall b :: b in safe ==> IsWitnessed(b, cRich, s)
    ensures forall x, y, b :: b in safe ==> !AreInConflict(x, y, cRich, b.predicateName, s)
  {
    var candidates := Candidates(cRich, s);
    var names, byPred := GroupByPredicate(candidates);
    forall p, x | IsCandidateFor(x, cRich, p, s) ensures p in names {
      assert x in OfPredicate(candidates, p);
    }
    assert forall n, x :: 0 <= n < |names| ==> (x in byPred[names[n]] <==> IsCandidateFor(x, cRich, names[n], s));
    safe := [];
    hide IsCandidateFor, HasConsensus, IsWitnessed, OfPredicate, KeyOf, IsPromotion, Promotes;
    for n := 0 to |names|
      invariant AreSettled(cRich, safe, names, n, s)
    {
      var r := Resolve(cRich, names[n], byPred[names[n]], s, groups);
      SettleOne(cRich, safe, names, n, s, r);
      if r.Some? {
        safe := safe + [Bare(names[n], r.value)];
      }
    }
    PromotionIsConsensus(cRich, safe, names, s);
    assert forall b :: b in safe ==> IsWitnessed(b, cRich, s) by { PromotionsAreWitnessed(cRich, safe, s); }
    forall x, y, b | b in safe ensures !AreInConflict(x, y, cRich, b.predicateName, s) {
      PromotionIsUndisputed(cRich, safe, b, s, x, y);
    }
  }

  /** The first `n` predicates are settled: promoted exactly if there is a consensus, and nothing else is. */
  ghost predicate AreSettled(cRich: seq<Annotated>, safe: seq<Bare>, names: seq<string>, n: nat, s: Setting)
    requires n <= |names|
  {
    && (forall i :: 0 <= i < |safe| ==> safe[i].predicateName in names[..n])
    && (forall i, j :: 0 <= i < j < |safe| ==> safe[i].predicateName != safe[j].predicateName)
    && (forall b :: b in safe ==> IsPromotion(b, cRich, s))
    && (forall m, k :: 0 <= m < n && HasConsensus(cRich, names[m], k, s) ==> Promotes(safe, names[m], k))
  }

  lemma SettleOne(cRich: seq<Annotated>, safe: seq<Bare>, names: seq<string>, n: nat, s: Setting, r: Option<Reading>)
    requires n < |names| && Distinct(names) && AreSettled(cRich, safe, names, n, s)
    requires forall k :: HasConsensus(cRich, names[n], k, s) <==> r.Some? && KeyOf(r.value) == Some(k)
    requires r.Some? ==> IsWitnessed(Bare(names[n], r.value), cRich, s)
    ensures AreSettled(cRich, if r.Some? then safe + [Bare(names[n], r.value)] else safe, names, n + 1, s)
  {
    var next := if r.Some? then safe + [Bare(names[n], r.value)] else safe;
    assert names[..n + 1] == names[..n] + [names[n]];
    assert r.Some? ==> IsPromotion(Bare(names[n], r.value), cRich, s);
    hide HasConsensus, IsWitnessed, KeyOf, IsPromotion;
    forall m, k | 0 <= m <= n && HasConsensus(cRich, names[m], k, s) ensures Promotes(next, names[m], k) {
      if m < n {
        var b :| b in safe && b.predicateName == names[m] && KeyOf(b.value) == Some(k);
        assert b in next;
      } else {
        assert Bare(names[n], r.value) in next;
      }
    }
  }

  lemma PromotionsAreWitnessed(cRich: seq<Annotated>, safe: seq<Bare>, s: Setting)
    requires forall b :: b in safe ==> IsPromotion(b, cRich, s)
    ensures forall b :: b in safe ==> IsWitnessed(b, cRich, s)
  {
  }

  lemma PromotionIsUndisputed(cRich: seq<Annotated>, safe: seq<Bare>, b: Bare, s: Setting, x: Annotated, y: Annotated)
    requires b in safe && forall c :: c in safe ==> IsPromotion(c, cRich, s)
    ensures !AreInConflict(x, y, cRich, b.predicateName, s)
  {
    assert IsPromotion(b, cRich, s);
    if AreInConflict(x, y, cRich, b.predicateName, s) {
      ConflictHasNoConsensus(cRich, b.predicateName, KeyOf(b.value).value, s, x, y);
    }
  }

  /** What the loop established settles every predicate, evidenced or not. */
  lemma PromotionIsConsensus(cRich: seq<Annotated>, safe: seq<Bare>, names: seq<string>, s: Setting)
    requires forall p, x :: IsCandidateFor(x, cRich, p, s) ==> p in names
    requires forall b :: b in safe ==> IsPromotion(b, cRich, s)
    requires forall m, k :: 0 <= m < |names| && HasConsensus(cRich, names[m], k, s) ==> Promotes(safe, names[m], k)
    ensures forall p, k :: Promotes(safe, p, k) <==> HasConsensus(cRich, p, k, s)
  {
    forall p, k | Promotes(safe, p, k) ensures HasConsensus(cRich, p, k, s) {
      var b :| b in safe && b.predicateName == p && KeyOf(b.value) == Some(k);
      assert IsPromotion(b, cRich, s);
    }
    forall p, k | HasConsensus(cRich, p, k, s) ensures Promotes(safe, p, k) {
      var x :| InLeadingEdge(x, cRich, p, s) && KeyOf(x.value) == Some(k);
      assert IsCandidateFor(x, cRich, p, s);
    }
  }
}
