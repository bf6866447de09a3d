/** The AST cache in its own numbers: what it holds after any run, which calls are uses, and what a call comes to. */
module CacheMeanings {
  import opened Options
  import opened Strings
  import opened AstCache

  // ----- Which trees are held -----

  /** The chains whose last use is later than the last use of this one. */
  ghost function UsedLater(history: seq<string>, chain: string): set<string> {
    set x | x in history && LastUse(history, x) > LastUse(history, chain)
  }

  lemma {:induction false} CountOf(keys: seq<string>)
    requires Distinct(keys)
    ensures |set k | k in keys| == |keys|
    decreases |keys|
  {
    if keys != [] {
      CountOf(keys[1..]);
      var rest := set k | k in keys[1..];
      assert (set k | k in keys) == {keys[0]} + rest;
      assert keys[0] !in rest;
    }
  }

  /** The chains used later are those behind it in the order of last use. */
  lemma LaterAreBehind(history: seq<string>, i: nat)
    requires i < |Recent(history)| && Distinct(Recent(history))
    ensures |UsedLater(history, Recent(history)[i])| == |Recent(history)| - i - 1
  {
    var r := Recent(history);
    RecentIsByLastUse(history);
    hide Recent, LastUse;
    var behind := r[i + 1..];
    forall x ensures x in behind <==> x in UsedLater(history, r[i]) {
      if x in behind {
        var j :| 0 <= j < |behind| && behind[j] == x;
        assert r[i + 1 + j] == x;
      }
      if x in UsedLater(history, r[i]) {
        assert x in r;
        var j :| 0 <= j < |r| && r[j] == x;
        assert j > i;
        assert behind[j - i - 1] == x;
      }
    }
    assert UsedLater(history, r[i]) == set k | k in behind;
    CountOf(behind);
  }

  /**
   * After any run: at most 1000 trees, each the plain parse of a chain of at most 2048 characters, and of the chains
   * used exactly those since whose last use fewer than 1000 others were.
   */
  lemma LruExactly(parse: Parser, events: seq<Event>, chain: string)
    ensures
      var s := Run(parse, events);
      && |s.entries| <= 1000
      && (forall e :: e in s.entries ==> |e.chain| <= 2048 && parse(e.chain) == Some(e.ast))
      && (chain in Keys(s.entries) <==> chain in s.served && |UsedLater(s.served, chain)| < 1000)
  {
    var s := Run(parse, events);
    EveryRunIsConsistent(parse, events);
    RecentIsByLastUse(s.served);
    var r := Recent(s.served);
    hide Run, Recent, LastUse;
    if chain in s.served {
      assert chain in r;
      var i :| 0 <= i < |r| && r[i] == chain;
      LaterAreBehind(s.served, i);
      if chain in Last(r, MAX_SIZE) && |r| > MAX_SIZE {
        var j :| 0 <= j < MAX_SIZE && Last(r, MAX_SIZE)[j] == chain;
        assert r[|r| - MAX_SIZE + j] == chain;
      }
      if i >= |r| - MAX_SIZE && |r| > MAX_SIZE {
        assert Last(r, MAX_SIZE)[i - (|r| - MAX_SIZE)] == chain;
      }
    } else {
      assert forall x :: x in Last(r, MAX_SIZE) ==> x in r;
    }
  }

  // ----- Which sections are uses -----

  /** A section that ends a call on a short chain with a tree. */
  predicate IsUse(before: Thread, after: Thread) {
    && (before.Called? || before.Parsed?)
    && after.Returned? && |after.chain| <= 2048
  }

  /** The chains of the short calls that came back with a tree, in the order they did. */
  ghost function Uses(parse: Parser, events: seq<Event>): seq<string> {
    if events == [] then []
    else
      var n := |events| - 1;
      var t := events[n].t;
      var before, after := ThreadOf(Run(parse, events[..n]), t), ThreadOf(Run(parse, events), t);
      if IsUse(before, after) then Uses(parse, events[..n]) + [after.chain] else Uses(parse, events[..n])
  }

  lemma {:induction false} ServedAreUses(parse: Parser, events: seq<Event>)
    ensures Run(parse, events).served == Uses(parse, events)
  {
    if events != [] {
      var n := |events| - 1;
      ServedAreUses(parse, events[..n]);
      EveryRunIsConsistent(parse, events[..n]);
      StepServes(parse, Run(parse, events[..n]), events[n]);
    }
  }

  lemma StepServes(parse: Parser, s: System, e: Event)
    requires forall t :: t in s.threads ==> HonestThread(parse, s.threads[t])
    ensures
      var next := Step(parse, s, e);
      var before, after := ThreadOf(s, e.t), ThreadOf(next, e.t);
      next.served == if IsUse(before, after) then s.served + [after.chain] else s.served
  {
    hide MoveToEnd, Insert, Inserted, TreeOf;
  }

  // ----- What a call comes to -----

  function Turns(events: seq<Event>, t: nat): nat {
    if events == [] then 0
    else Turns(events[..|events| - 1], t) + if events[|events| - 1] == Proceed(t) then 1 else 0
  }

  /** The plain parse, or the plain failure. */
  predicate IsOver(parse: Parser, th: Thread, chain: string) {
    th == if parse(chain).Some? then Returned(chain, parse(chain).value) else Failed(chain)
  }

  predicate IsUnderWay(parse: Parser, th: Thread, chain: string, turns: nat) {
    || (turns == 0 && th == Called(chain))
    || (turns == 1 && th == Missed(chain))
    || (turns == 2 && th.Parsed? && th.chain == chain)
    || IsOver(parse, th, chain)
  }

  lemma OthersWait(parse: Parser, s: System, e: Event, t: nat)
    requires e.t != t
    ensures ThreadOf(Step(parse, s, e), t) == ThreadOf(s, t)
  {
    hide MoveToEnd, Insert, Inserted, TreeOf;
  }

  /** A turn takes the thread one section on, on the same chain; what is over stays. */
  lemma OwnTurn(parse: Parser, s: System, t: nat)
    ensures
      var th, next := ThreadOf(s, t), ThreadOf(Step(parse, s, Proceed(t)), t);
      && (th.Called? ==> (next.Missed? || next.Returned? || next.Failed?) && next.chain == th.chain)
      && (th.Missed? ==> (next.Parsed? || next.Failed?) && next.chain == th.chain)
      && (th.Parsed? ==> next.Returned? && next.chain == th.chain)
      && (th.Returned? || th.Failed? || th.Idle? ==> next == th)
  {
    hide MoveToEnd, Insert, Inserted, TreeOf;
  }

  lemma HonestIsOver(parse: Parser, s: System, t: nat)
    requires Consistent(parse, s)
    ensures
      var th := ThreadOf(s, t);
      th.Returned? || th.Failed? ==> IsOver(parse, th, th.chain)
  {
    hide Recent, Keys, Last, Distinct, Honest;
  }

  lemma StepsOn(parse: Parser, s: System, e: Event, t: nat, chain: string, turns: nat)
    requires Consistent(parse, s) && IsUnderWay(parse, ThreadOf(s, t), chain, turns)
    requires e.Call? ==> e.t != t
    ensures IsUnderWay(parse, ThreadOf(Step(parse, s, e), t), chain, turns + if e == Proceed(t) then 1 else 0)
  {
    StepKeepsConsistent(parse, s, e);
    hide Step, Consistent, ThreadOf;
    HonestIsOver(parse, Step(parse, s, e), t);
    if e.t == t {
      assert e == Proceed(t);
      OwnTurn(parse, s, t);
    } else {
      OthersWait(parse, s, e, t);
    }
  }

  /**
   * A call started by a free thread is over after three more turns of the thread, whatever other threads do between
   * them: it returns the plain parse of its chain, or fails if the parser does.
   */
  lemma {:induction false} CallCompletes(parse: Parser, events: seq<Event>, t: nat, chain: string, more: seq<Event>)
    requires
      var th := ThreadOf(Run(parse, events), t);
      th.Idle? || th.Returned? || th.Failed?
    requires forall e :: e in more && e.Call? ==> e.t != t
    ensures IsUnderWay(parse, ThreadOf(Run(parse, events + [Call(t, chain)] + more), t), chain, Turns(more, t))
    ensures Turns(more, t) >= 3 ==> IsOver(parse, ThreadOf(Run(parse, events + [Call(t, chain)] + more), t), chain)
    decreases |more|
  {
    var started := events + [Call(t, chain)];
    if more == [] {
      assert started + more == started;
      RunOfOneMore(parse, events, Call(t, chain));
    } else {
      var n := |more| - 1;
      hide Consistent, IsUnderWay, IsOver, Step, ThreadOf;
      CallCompletes(parse, events, t, chain, more[..n]);
      var before := started + more[..n];
      assert started + more == before + [more[n]];
      RunOfOneMore(parse, before, more[n]);
      EveryRunIsConsistent(parse, before);
      hide Run;
      StepsOn(parse, Run(parse, before), more[n], t, chain, Turns(more[..n], t));
      OverInTime(parse, ThreadOf(Run(parse, started + more), t), chain, Turns(more, t));
    }
  }

  lemma RunOfOneMore(parse: Parser, events: seq<Event>, e: Event)
    ensures Run(parse, events + [e]) == Step(parse, Run(parse, events), e)
  {
    assert (events + [e])[..|events|] == events;
  }

  lemma OverInTime(parse: Parser, th: Thread, chain: string, turns: nat)
    requires IsUnderWay(parse, th, chain, turns)
    ensures turns >= 3 ==> IsOver(parse, th, chain)
  {
  }
}
