/**
 * The AST cache of noe/noe_parser.py: an LRU cache of parse trees whose lookup, parse and insert sections
 * run under separate locks, so that those of different threads interleave.
 */
module AstCache {
  import opened Options
  import opened Strings

  datatype Tree = Token(text: string) | Node(rule: string, children: seq<Tree>)

  /** The grammar: a tree, or a syntax error. */
  type Parser = string -> Option<Tree>

  const MAX_SIZE := 1000
  const MAX_CHAIN := 2048

  datatype Entry = Entry(chain: string, ast: Tree)

  // ----- An ordered dict, oldest entry first -----

  function TreeOf(es: seq<Entry>, chain: string): Option<Tree> {
    if es == [] then None
    else if es[0].chain == chain then Some(es[0].ast)
    else TreeOf(es[1..], chain)
  }

  function Without(keys: seq<string>, k: string): (r: seq<string>)
    ensures forall x :: x in r <==> x in keys && x != k
    ensures |r| <= |keys|
    ensures k !in keys ==> r == keys
  {
    if keys == [] then []
    else if keys[0] == k then Without(keys[1..], k)
    else [keys[0]] + Without(keys[1..], k)
  }

  function Keys(es: seq<Entry>): seq<string> {
    seq(|es|, i requires 0 <= i < |es| => es[i].chain)
  }

  function Drop(es: seq<Entry>, chain: string): (r: seq<Entry>)
    ensures forall e :: e in r <==> e in es && e.chain != chain
  {
    if es == [] then []
    else if es[0].chain == chain then Drop(es[1..], chain)
    else [es[0]] + Drop(es[1..], chain)
  }

  /** `move_to_end` on a present key. */
  function MoveToEnd(es: seq<Entry>, chain: string): seq<Entry> {
    match TreeOf(es, chain)
    case None => es
    case Some(ast) => Drop(es, chain) + [Entry(chain, ast)]
  }

  /** The insert section: what it leaves in the cache. */
  function Insert(es: seq<Entry>, chain: string, ast: Tree): seq<Entry> {
    if TreeOf(es, chain).Some? then MoveToEnd(es, chain)
    else (if |es| >= MAX_SIZE then es[1..] else es) + [Entry(chain, ast)]
  }

  /** The insert section: what it returns. */
  function Inserted(es: seq<Entry>, chain: string, ast: Tree): Tree {
    if TreeOf(es, chain).Some? then TreeOf(es, chain).value else ast
  }

  class Cache {
    var entries: seq<Entry>

    constructor ()
      ensures entries == []
    {
      entries := [];
    }

    /** The first section under the cache lock. */
    method Lookup(chain: string) returns (ast: Option<Tree>)
      modifies this
      ensures ast == TreeOf(old(entries), chain)
      ensures entries == MoveToEnd(old(entries), chain)
    {
      ast := TreeOf(entries, chain);
      if ast.Some? {
        entries := Drop(entries, chain) + [Entry(chain, ast.value)];
      }
    }

    /** The second section under the cache lock: looks again, evicts the oldest entry if full, adds. */
    method Add(chain: string, parsed: Tree) returns (ast: Tree)
      modifies this
      ensures ast == Inserted(old(entries), chain, parsed)
      ensures entries == Insert(old(entries), chain, parsed)
    {
      var found := TreeOf(entries, chain);
      if found.Some? {
        entries := Drop(entries, chain) + [Entry(chain, found.value)];
        return found.value;
      }
      if |entries| >= MAX_SIZE {
        entries := entries[1..];
      }
      entries := entries + [Entry(chain, parsed)];
      return parsed;
    }
  }

  // ----- Threads -----

  /** Where a thread is in its current call. */
  datatype Thread =
    | Idle
    | Called(chain: string)
    | Missed(chain: string)
    | Parsed(chain: string, ast: Tree)
    | Returned(chain: string, ast: Tree)
    | Failed(chain: string)

  /** A thread's next section; the first starts a call. */
  datatype Event = Call(t: nat, chain: string) | Proceed(t: nat)

  /** `served` lists the chains of the sections that used an entry, in the order they ran. */
  datatype System = System(entries: seq<Entry>, threads: map<nat, Thread>, served: seq<string>)

  const START := System([], map[], [])

  function ThreadOf(s: System, t: nat): Thread {
    if t in s.threads then s.threads[t] else Idle
  }

  /** One section of one thread, alone. */
  function Step(parse: Parser, s: System, e: Event): System {
    var th := ThreadOf(s, e.t);
    match e
    case Call(t, chain) =>
      if th.Idle? || th.Returned? || th.Failed? then s.(threads := s.threads[t := Called(chain)]) else s
    case Proceed(t) =>
      match th
      case Called(chain) =>
        if |chain| > MAX_CHAIN then
          var r := parse(chain);
          s.(threads := s.threads[t := if r.Some? then Returned(chain, r.value) else Failed(chain)])
        else
          var found := TreeOf(s.entries, chain);
          if found.Some? then
            System(MoveToEnd(s.entries, chain), s.threads[t := Returned(chain, found.value)], s.served + [chain])
          else s.(threads := s.threads[t := Missed(chain)])
      case Missed(chain) =>
        var r := parse(chain);
        s.(threads := s.threads[t := if r.Some? then Parsed(chain, r.value) else Failed(chain)])
      case Parsed(chain, ast) =>
        System(Insert(s.entries, chain, ast),
               s.threads[t := Returned(chain, Inserted(s.entries, chain, ast))], s.served + [chain])
      case _ => s
  }

  function Run(parse: Parser, events: seq<Event>): System {
    if events == [] then START else Step(parse, Run(parse, events[..|events| - 1]), events[|events| - 1])
  }

  // ----- What every interleaving keeps -----

  ghost predicate Honest(parse: Parser, es: seq<Entry>) {
    forall e :: e in es ==> |e.chain| <= MAX_CHAIN && parse(e.chain) == Some(e.ast)
  }

  /** A thread never holds anything but the plain parse of the chain it was called with. */
  ghost predicate HonestThread(parse: Parser, th: Thread) {
    match th
    case Missed(chain) => |chain| <= MAX_CHAIN
    case Parsed(chain, ast) => |chain| <= MAX_CHAIN && parse(chain) == Some(ast)
    case Returned(chain, ast) => parse(chain) == Some(ast)
    case Failed(chain) => parse(chain) == None
    case _ => true
  }

  /** The distinct keys of a history, by last use, oldest first. */
  function Recent(history: seq<string>): seq<string> {
    if history == [] then []
    else
      var n := |history| - 1;
      Without(Recent(history[..n]), history[n]) + [history[n]]
  }

  function Last(keys: seq<string>, count: nat): seq<string> {
    if |keys| <= count then keys else keys[|keys| - count..]
  }

  ghost predicate Consistent(parse: Parser, s: System) {
    && |s.entries| <= MAX_SIZE
    && Honest(parse, s.entries)
    && Distinct(Recent(s.served))
    && Keys(s.entries) == Last(Recent(s.served), MAX_SIZE)
    && forall t :: t in s.threads ==> HonestThread(parse, s.threads[t])
  }

  lemma {:induction false} TreeIsMember(es: seq<Entry>, chain: string)
    ensures TreeOf(es, chain).Some? <==> chain in Keys(es)
    ensures TreeOf(es, chain).Some? ==> Entry(chain, TreeOf(es, chain).value) in es
    decreases |es|
  {
    if es != [] {
      assert Keys(es) == [es[0].chain] + Keys(es[1..]);
      if es[0].chain != chain {
        TreeIsMember(es[1..], chain);
      }
    }
  }

  lemma {:induction false} DropKeys(es: seq<Entry>, chain: string)
    ensures Keys(Drop(es, chain)) == Without(Keys(es), chain)
    decreases |es|
  {
    if es != [] {
      DropKeys(es[1..], chain);
      assert Keys(es)[1..] == Keys(es[1..]);
      assert Keys(es)[0] == es[0].chain;
      if es[0].chain != chain {
        assert Keys([es[0]] + Drop(es[1..], chain)) == [es[0].chain] + Keys(Drop(es[1..], chain));
      }
    }
  }

  lemma {:induction false} WithoutSplits(a: seq<string>, b: seq<string>, k: string)
    ensures Without(a + b, k) == Without(a, k) + Without(b, k)
    decreases |a|
  {
    if a == [] {
      assert a + b == b;
    } else {
      WithoutSplits(a[1..], b, k);
      assert (a + b)[1..] == a[1..] + b;
    }
  }

  lemma {:induction false} WithoutKeepsDistinct(keys: seq<string>, k: string)
    requires Distinct(keys)
    ensures Distinct(Without(keys, k) + [k])
    ensures |Without(keys, k)| == |keys| - (if k in keys then 1 else 0)
    decreases |keys|
  {
    if keys != [] {
      WithoutKeepsDistinct(keys[1..], k);
      var rest := Without(keys[1..], k);
      if keys[0] != k {
        assert Without(keys, k) + [k] == [keys[0]] + (rest + [k]);
        forall j | 0 <= j < |rest| + 1 ensures keys[0] != (rest + [k])[j] {
          assert j < |rest| ==> rest[j] in rest;
        }
      } else {
        assert k !in keys[1..];
      }
    }
  }

  lemma LastOfLonger(older: seq<string>, window: seq<string>, count: nat)
    requires |window| == count
    ensures Last(older + window, count) == window
  {
  }

  lemma CachedMoves(older: seq<string>, window: seq<string>, k: string)
    requires Distinct(older + window) && k in window
    ensures Last(Without(older + window, k) + [k], |window|) == Without(window, k) + [k]
  {
    var r := Without(window, k);
    WithoutSplits(older, window, k);
    NotTwice(older, window, k);
    DistinctTail(older, window);
    WithoutKeepsDistinct(window, k);
    assert Without(older, k) == older;
    hide Without, Distinct;
    assert (older + r) + [k] == older + (r + [k]);
    LastOfLonger(older, r + [k], |window|);
  }

  lemma DistinctTail(a: seq<string>, b: seq<string>)
    requires Distinct(a + b)
    ensures Distinct(b)
  {
    forall i, j | 0 <= i < j < |b| ensures b[i] != b[j] {
      assert (a + b)[|a| + i] != (a + b)[|a| + j];
    }
  }

  lemma UncachedMoves(older: seq<string>, window: seq<string>, k: string)
    requires k !in window && window != []
    ensures Last(Without(older + window, k) + [k], |window|) == window[1..] + [k]
  {
    WithoutSplits(older, window, k);
    var r := Without(older, k);
    assert Without(window, k) == window;
    hide Without;
    assert (r + window) + [k] == (r + [window[0]]) + (window[1..] + [k]);
    LastOfLonger(r + [window[0]], window[1..] + [k], |window|);
  }

  /** A use of `k` moves it to the end of the cached window exactly as it does in the whole history. */
  lemma WindowMoves(all: seq<string>, k: string, size: nat)
    requires Distinct(all) && size > 0
    ensures
      var window := Last(all, size);
      Last(Without(all, k) + [k], size) ==
        if k in window then Without(window, k) + [k]
        else (if |window| >= size then window[1..] else window) + [k]
  {
    hide Without, Distinct;
    if |all| > size {
      var older, window := all[..|all| - size], Last(all, size);
      assert all == older + window;
      if k in window {
        CachedMoves(older, window, k);
      } else {
        UncachedMoves(older, window, k);
      }
    } else {
      WithoutKeepsDistinct(all, k);
      if k !in all && |all| == size {
        UncachedMoves([], all, k);
        assert [] + all == all;
      }
    }
  }

  lemma NotTwice(a: seq<string>, b: seq<string>, k: string)
    requires Distinct(a + b) && k in b
    ensures k !in a
  {
    var j :| 0 <= j < |b| && b[j] == k;
    forall i | 0 <= i < |a| ensures a[i] != k {
      assert (a + b)[i] != (a + b)[|a| + j];
    }
  }

  /** What an insertion leaves: the keys as in the window, the trees as parsed. */
  lemma InsertedKeys(es: seq<Entry>, chain: string, ast: Tree)
    ensures Keys(Insert(es, chain, ast)) ==
      if chain in Keys(es) then Without(Keys(es), chain) + [chain]
      else (if |es| >= MAX_SIZE then Keys(es)[1..] else Keys(es)) + [chain]
    ensures |Keys(Insert(es, chain, ast))| == |Insert(es, chain, ast)|
  {
    TreeIsMember(es, chain);
    hide TreeOf, Without;
    if chain in Keys(es) {
      DropKeys(es, chain);
    } else if |es| >= MAX_SIZE {
      assert Keys(es[1..]) == Keys(es)[1..];
    }
  }

  lemma InsertKeepsHonest(parse: Parser, es: seq<Entry>, chain: string, ast: Tree)
    requires Honest(parse, es) && |chain| <= MAX_CHAIN && parse(chain) == Some(ast)
    ensures Honest(parse, Insert(es, chain, ast))
    ensures TreeOf(es, chain).Some? ==> TreeOf(es, chain).value == ast
  {
    TreeIsMember(es, chain);
    hide TreeOf, Keys;
  }

  lemma UseKeepsWindow(parse: Parser, s: System, chain: string, ast: Tree)
    requires Consistent(parse, s) && |chain| <= MAX_CHAIN && parse(chain) == Some(ast)
    ensures TreeOf(s.entries, chain).Some? ==> TreeOf(s.entries, chain).value == ast
    ensures
      var entries := Insert(s.entries, chain, ast);
      && |entries| <= MAX_SIZE && Honest(parse, entries)
      && Distinct(Recent(s.served + [chain])) && Keys(entries) == Last(Recent(s.served + [chain]), MAX_SIZE)
  {
    InsertKeepsHonest(parse, s.entries, chain, ast);
    InsertedKeys(s.entries, chain, ast);
    RecentOfUse(s.served, chain);
    WithoutKeepsDistinct(Recent(s.served), chain);
    WindowMoves(Recent(s.served), chain, MAX_SIZE);
    assert |Keys(s.entries)| == |s.entries|;
    assert |Last(Recent(s.served + [chain]), MAX_SIZE)| <= MAX_SIZE;
    hide Recent, Without, Insert, TreeOf, Honest, Keys, Last, Distinct;
  }

  lemma StepKeepsConsistent(parse: Parser, s: System, e: Event)
    requires Consistent(parse, s)
    ensures Consistent(parse, Step(parse, s, e))
  {
    var th := ThreadOf(s, e.t);
    hide Recent, Last, Insert, Inserted;
    if e.Proceed? && th.Called? && |th.chain| <= MAX_CHAIN && TreeOf(s.entries, th.chain).Some? {
      TreeIsMember(s.entries, th.chain);
      HitIsInsert(s.entries, th.chain);
      UseKeepsWindow(parse, s, th.chain, TreeOf(s.entries, th.chain).value);
    } else if e.Proceed? && th.Parsed? {
      UseKeepsWindow(parse, s, th.chain, th.ast);
      InsertedIsParse(s.entries, th.chain, th.ast);
    }
  }

  lemma HitIsInsert(es: seq<Entry>, chain: string)
    ensures TreeOf(es, chain).Some? ==> MoveToEnd(es, chain) == Insert(es, chain, TreeOf(es, chain).value)
  {
  }

  lemma InsertedIsParse(es: seq<Entry>, chain: string, ast: Tree)
    requires TreeOf(es, chain).Some? ==> TreeOf(es, chain).value == ast
    ensures Inserted(es, chain, ast) == ast
  {
  }

  /**
   * Whatever the interleaving of any number of threads: at most 1000 entries, each the plain parse of its chain;
   * they are the 1000 most recently used distinct chains in order of use; every call returns the plain parse,
   * or fails because the parser does.
   */
  lemma {:induction false} EveryRunIsConsistent(parse: Parser, events: seq<Event>)
    ensures Consistent(parse, Run(parse, events))
  {
    if events != [] {
      EveryRunIsConsistent(parse, events[..|events| - 1]);
      StepKeepsConsistent(parse, Run(parse, events[..|events| - 1]), events[|events| - 1]);
    }
  }

  // ----- What "most recent" means -----

  /** The position of the last use, -1 if none. */
  function LastUse(history: seq<string>, k: string): (i: int)
    ensures -1 <= i < |history|
    ensures i >= 0 ==> history[i] == k
    ensures forall j :: i < j < |history| ==> history[j] != k
  {
    if history == [] then -1
    else if history[|history| - 1] == k then |history| - 1
    else LastUse(history[..|history| - 1], k)
  }

  ghost predicate ByLastUse(history: seq<string>, keys: seq<string>) {
    forall i, j :: 0 <= i < j < |keys| ==> LastUse(history, keys[i]) < LastUse(history, keys[j])
  }

  lemma JoinByLastUse(history: seq<string>, a: seq<string>, b: seq<string>)
    requires ByLastUse(history, a) && ByLastUse(history, b)
    requires forall x, y :: x in a && y in b ==> LastUse(history, x) < LastUse(history, y)
    ensures ByLastUse(history, a + b)
  {
    hide LastUse;
    var c := a + b;
    forall i, j | 0 <= i < j < |c| ensures LastUse(history, c[i]) < LastUse(history, c[j]) {
      if i < |a| <= j {
        assert c[i] == a[i] && c[j] == b[j - |a|];
        assert a[i] in a && b[j - |a|] in b;
      }
    }
  }

  /** `Recent` holds exactly the keys used, each once, in the order of their last use. */
  lemma {:induction false} RecentIsByLastUse(history: seq<string>)
    ensures forall k :: k in Recent(history) <==> k in history
    ensures ByLastUse(history, Recent(history))
  {
    if history != [] {
      var n := |history| - 1;
      var earlier, k := history[..n], history[n];
      RecentIsByLastUse(earlier);
      assert history == earlier + [k];
      var kept := Without(Recent(earlier), k);
      WithoutKeepsOrder(earlier, Recent(earlier), k);
      forall x | x in kept ensures LastUse(history, x) == LastUse(earlier, x) {
      }
      assert LastUse(history, k) == n;
      hide LastUse, Without, Recent;
      assert ByLastUse(history, kept) by {
        forall i, j | 0 <= i < j < |kept| ensures LastUse(history, kept[i]) < LastUse(history, kept[j]) {
          assert kept[i] in kept && kept[j] in kept;
        }
      }
      JoinByLastUse(history, kept, [k]);
      RecentOfUse(earlier, k);
    }
  }

  lemma RecentOfUse(earlier: seq<string>, k: string)
    ensures Recent(earlier + [k]) == Without(Recent(earlier), k) + [k]
  {
    assert (earlier + [k])[..|earlier|] == earlier;
  }

  lemma {:induction false} WithoutKeepsOrder(history: seq<string>, keys: seq<string>, k: string)
    requires ByLastUse(history, keys)
    ensures ByLastUse(history, Without(keys, k))
    decreases |keys|
  {
    if keys != [] {
      WithoutKeepsOrder(history, keys[1..], k);
      var rest := Without(keys[1..], k);
      assert Without(keys, k) == if keys[0] == k then rest else [keys[0]] + rest;
      hide LastUse, Without, ByLastUse;
      forall y | y in rest ensures LastUse(history, keys[0]) < LastUse(history, y) {
        var m :| 0 <= m < |keys| - 1 && keys[1..][m] == y;
        assert keys[m + 1] == y;
      }
      JoinByLastUse(history, [keys[0]], rest);
    }
  }
}
