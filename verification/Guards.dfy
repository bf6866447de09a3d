/** No action without its guards: where the actions in a result come from. */
module Guards {
  import opened Options
  import opened Evaluator
  import opened Chains

  /** Every action inside a value, nested targets included. */
  ghost function Actions(v: Val): set<Val> {
    match v
    case Action(_, target) => {v} + Actions(target)
    case List(items) => set i, a | 0 <= i < |items| && a in Actions(items[i]) :: a
    case Literal(_, value) => Actions(value)
    case TruthObj(inner) => Actions(inner)
    case _ => {}
  }

  /** The actions the knowledge holds. */
  ghost function FactActions(ctx: Ctx): set<Val> {
    if ctx.knowledge.None? then {} else set k, a | k in ctx.knowledge.value && a in Actions(ctx.knowledge.value[k]) :: a
  }

  // ----- Open nodes -----

  /**
   * For each item of a value, the nodes its actions can come from, all of whose guards hold: action nodes, literals
   * (which may stand for an action), and facts under shi. Guards are the conditions of the enclosing khi and, in a
   * chain, the kra.
   */
  ghost function OpenItems(e: Expr, ctx: Ctx): (r: seq<set<Expr>>)
    ensures |r| == |Spread(Eval(e, ctx))|
    decreases e, 1
  {
    var value := Eval(e, ctx);
    match e
    case Lit(_) => Each(value, {e})
    case Unary(ops, operand) =>
      if ops == [] then
        NoOperators(operand, ctx);
        OpenItems(operand, ctx)
      else Each(value, if ops[0] == Shi then {e} else {})
    case Mek(_, target) => Each(value, {e} + OpenNodes(target, ctx))
    case Paren(inner) => OpenItems(inner, ctx)
    case Sek(inner) =>
      var v := Eval(inner, ctx);
      if v.Raised? then Each(value, {}) else DropWithKeywords(Items(v), OpenItems(inner, ctx))
    case Conj(first, rest) =>
      if rest == [] then OpenItems(first, ctx) else
      var flat := Spread(Eval(first, ctx)) + Tokens(rest, ctx);
      if V(Raised) in flat then Each(value, {})
      else OpenInConj(flat, OpenItems(first, ctx) + BehindTerms(rest, ctx))
    case Disj(left, more) =>
      if more == [] then OpenItems(left, ctx) else
      var flat := Spread(Eval(left, ctx)) + UrTokens(more, ctx);
      if V(Raised) in flat then Each(value, {})
      else OpenInDisj(flat, OpenItems(left, ctx) + BehindAny(more, ctx))
    case Khi(cond, body) => Each(value, if Trit(Eval(cond, ctx)) == Some(true) then OpenNodes(body, ctx) else {})
    case _ => Each(value, {})
  }

  ghost function OpenNodes(e: Expr, ctx: Ctx): set<Expr>
    decreases e, 2
  {
    Union(OpenItems(e, ctx))
  }

  ghost function Union(sets: seq<set<Expr>>): set<Expr> {
    set i, m | 0 <= i < |sets| && m in sets[i] :: m
  }

  /** The same nodes behind every item. */
  ghost function Each(v: Val, open: set<Expr>): (r: seq<set<Expr>>)
    ensures |r| == |Spread(v)|
  {
    seq(|Spread(v)|, i => open)
  }

  function Items(v: Val): (r: seq<Val>)
    ensures |r| == |Spread(v)|
  {
    if v.List? then v.items else [v]
  }

  ghost function DropWithKeywords(items: seq<Val>, sets: seq<set<Expr>>): (r: seq<set<Expr>>)
    requires |items| == |sets|
    ensures |r| == |DropKeywords(items)|
    decreases |items|
  {
    if items == [] then []
    else (if IsKeyword(items[0]) then [] else [sets[0]]) + DropWithKeywords(items[1..], sets[1..])
  }

  /** The nodes behind each token: none behind an operator. */
  ghost function BehindTerms(rest: seq<Term>, ctx: Ctx): (r: seq<set<Expr>>)
    ensures |r| == |Tokens(rest, ctx)|
    decreases rest, 0
  {
    if rest == [] then [] else
    assert rest[0].e < rest[0];
    (if rest[0].Op? then [{}] else []) + OpenItems(rest[0].e, ctx) + BehindTerms(rest[1..], ctx)
  }

  ghost function BehindAny(more: seq<Expr>, ctx: Ctx): (r: seq<set<Expr>>)
    ensures |r| == |UrTokens(more, ctx)|
    decreases more, 0
  {
    if more == [] then [] else [{}] + OpenItems(more[0], ctx) + BehindAny(more[1..], ctx)
  }

  /** A guard between two operands, and what it guards may pass. */
  predicate Holds(value: Val, op: BinaryOp) {
    op == Kra && Trit(Unwrap(value)) == Some(true)
  }

  /** What an operator makes of the item on its right: it closes all else, and this too unless it is a kra that
      holds. */
  ghost function Taken(value: Val, op: BinaryOp, item: Val, open: set<Expr>): (r: seq<set<Expr>>)
    ensures |r| == |Spread(ApplyBinary(value, op, item))|
  {
    Each(ApplyBinary(value, op, item), if Holds(value, op) then open else {})
  }

  lemma JoinAddsOne(value: Val, item: Val)
    ensures |Spread(Join(value, item))| == |Spread(value)| + 1
  {
  }

  /** Along the fold of a conjunction: an operator takes one item, a juxtaposed item joins with its own nodes. */
  ghost function OpenInFold(open: seq<set<Expr>>, value: Val, tokens: seq<Token>,
                            behind: seq<set<Expr>>): (r: seq<set<Expr>>)
    requires |open| == |Spread(value)| && |behind| == |tokens|
    ensures |r| == |Spread(FoldConj(value, tokens))|
    decreases |tokens|
  {
    if tokens == [] then open
    else if AsConjOp(tokens[0]).Some? then
      if |tokens| == 1 then Each(Undef, {}) else
      var op, item := AsConjOp(tokens[0]).value, AsVal(tokens[1]);
      OpenInFold(Taken(value, op, item, behind[1]), ApplyBinary(value, op, item), tokens[2..], behind[2..])
    else
      JoinAddsOne(value, AsVal(tokens[0]));
      OpenInFold(open + [behind[0]], Join(value, AsVal(tokens[0])), tokens[1..], behind[1..])
  }

  ghost function OpenInConj(flat: seq<Token>, behind: seq<set<Expr>>): (r: seq<set<Expr>>)
    requires |behind| == |flat|
    ensures |r| == |Spread(ConjOf(flat))|
  {
    if flat == [] then Each(Raised, {})
    else OpenInFold(Each(AsVal(flat[0]), behind[0]), AsVal(flat[0]), flat[1..], behind[1..])
  }

  /** What one step of a disjunction leaves: a list of all three if the token between names no operator. */
  ghost function TakenByUr(open: seq<set<Expr>>, value: Val, op: Token, item: Val, x: set<Expr>,
                           y: set<Expr>): (r: seq<set<Expr>>)
    ensures |r| == |Spread(DisjStep(value, op, item))|
  {
    var next := DisjStep(value, op, item);
    if AsDisjOp(op).Some? then Taken(value, AsDisjOp(op).value, item, y)
    else if next.List? then [Union(open), x, y]
    else Each(next, {})
  }

  ghost function OpenInUr(open: seq<set<Expr>>, value: Val, tokens: seq<Token>,
                          behind: seq<set<Expr>>): (r: seq<set<Expr>>)
    requires |open| == |Spread(value)| && |behind| == |tokens| && |tokens| % 2 == 0
    ensures |r| == |Spread(FoldDisj(value, tokens))|
    decreases |tokens|
  {
    if tokens == [] then open
    else if value.Raised? then Each(Raised, {})
    else
      var item := AsVal(tokens[1]);
      OpenInUr(TakenByUr(open, value, tokens[0], item, behind[0], behind[1]),
               DisjStep(value, tokens[0], item), tokens[2..], behind[2..])
  }

  ghost function OpenInDisj(flat: seq<Token>, behind: seq<set<Expr>>): (r: seq<set<Expr>>)
    requires |behind| == |flat|
    ensures |r| == |Spread(DisjOf(flat))|
  {
    if |flat| % 2 == 0 then Each(Undef, {})
    else OpenInUr(Each(AsVal(flat[0]), behind[0]), AsVal(flat[0]), flat[1..], behind[1..])
  }

  /** The action is what an action node evaluates to, or is held by a literal, or is a fact under shi. */
  ghost predicate Accounted(a: Val, open: set<Expr>, ctx: Ctx) {
    exists m :: m in open && ComesFrom(a, m, ctx)
  }

  ghost predicate ComesFrom(a: Val, m: Expr, ctx: Ctx) {
    || (m.Mek? && a == Eval(m, ctx))
    || (m.Lit? && a in Actions(Eval(m, ctx)))
    || (m.Unary? && a in Actions(Eval(m, ctx)) && a in FactActions(ctx))
  }

  ghost predicate AllAccounted(actions: set<Val>, open: set<Expr>, ctx: Ctx) {
    forall a :: a in actions ==> Accounted(a, open, ctx)
  }

  // ----- The operators create no actions -----

  /** What an operator chain lets through is a fact its outermost shi looked up. */
  lemma {:induction false} UnaryActions(ops: seq<UnaryOp>, v: Val, sourceKey: Option<string>, ctx: Ctx)
    requires ops != []
    ensures Actions(ApplyUnary(ops, v, sourceKey, ctx)) <= (if ops[0] == Shi then FactActions(ctx) else {})
    decreases |ops|
  {
    var r := if ops[|ops| - 1] == Shi then ApplyShi(v, sourceKey, ctx) else ApplyNai(v);
    assert Actions(r) <= (if ops[|ops| - 1] == Shi then FactActions(ctx) else {});
    if |ops| > 1 {
      UnaryActions(ops[..|ops| - 1], r, None, ctx);
    } else {
      assert ops[..|ops| - 1] == [];
    }
  }

  /** A binary operator lets actions through in one case only: from the right of a kra that holds. */
  lemma BinaryActions(l: Val, op: BinaryOp, r: Val)
    ensures Actions(ApplyBinary(l, op, r)) == if Holds(l, op) then Actions(r) else {}
  {
  }

  ghost function TokenActions(tokens: seq<Token>): set<Val> {
    set i, a | 0 <= i < |tokens| && a in Actions(AsVal(tokens[i])) :: a
  }

  lemma ListActions(items: seq<Val>, more: seq<Val>)
    ensures Actions(List(items + more)) == Actions(List(items)) + Actions(List(more))
  {
    var all := items + more;
    forall a | a in Actions(List(items)) + Actions(List(more)) ensures a in Actions(List(all)) {
      if a in Actions(List(items)) {
        var i :| 0 <= i < |items| && a in Actions(items[i]);
        assert all[i] == items[i];
      } else {
        var i :| 0 <= i < |more| && a in Actions(more[i]);
        assert all[|items| + i] == more[i];
      }
    }
  }

  lemma SingletonActions(v: Val)
    ensures Actions(List([v])) == Actions(v)
  {
    assert [v][0] == v;
  }

  lemma JoinActions(result: Val, item: Val)
    ensures Actions(Join(result, item)) == Actions(result) + Actions(item)
  {
    var x := if item.Literal? then item.value else item;
    var r := if result.Literal? then result.value else result;
    SingletonActions(x);
    SingletonActions(r);
    if result.List? {
      ListActions(result.items, [x]);
    } else {
      ListActions([r], [x]);
      assert [r, x] == [r] + [x];
    }
  }

  lemma UnwrapActions(v: Val)
    ensures Actions(Unwrap(v)) == Actions(v)
  {
  }

  lemma SpreadActions(v: Val)
    ensures TokenActions(Spread(v)) == Actions(v)
  {
    if v.List? {
      assert forall i :: 0 <= i < |v.items| ==> AsVal(Spread(v)[i]) == v.items[i];
    } else {
      assert AsVal(Spread(v)[0]) == v;
    }
  }

  lemma ConcatActions(a: seq<Token>, b: seq<Token>)
    ensures TokenActions(a + b) == TokenActions(a) + TokenActions(b)
  {
    forall x | x in TokenActions(a) + TokenActions(b) ensures x in TokenActions(a + b) {
      if x in TokenActions(a) {
        var i :| 0 <= i < |a| && x in Actions(AsVal(a[i]));
        assert (a + b)[i] == a[i];
      } else {
        var i :| 0 <= i < |b| && x in Actions(AsVal(b[i]));
        assert (a + b)[|a| + i] == b[i];
      }
    }
  }

  // ----- Every action is accounted for -----

  /** Every action in a result comes from a node all of whose guards hold. */
  lemma ActionsAreGuarded(e: Expr, ctx: Ctx)
    ensures AllAccounted(Actions(Eval(e, ctx)), OpenNodes(e, ctx), ctx)
    decreases e, 2
  {
    ItemsAreGuarded(e, ctx);
    UnionAccounts(Spread(Eval(e, ctx)), OpenItems(e, ctx), ctx);
    SpreadActions(Eval(e, ctx));
  }

  /** Item by item, so that a kra answers for the one it took and for no other. */
  lemma {:induction false} ItemsAreGuarded(e: Expr, ctx: Ctx)
    ensures TokensAccounted(Spread(Eval(e, ctx)), OpenItems(e, ctx), ctx)
    decreases e, 1
  {
    hide ConjOf, DisjOf, ApplyUnary, OpenInConj, OpenInDisj, EvalLiteral, ScopedOf, ActionOf, GuardedOf,
      TokensAccounted, Each;
    var value := Eval(e, ctx);
    NoActions(ctx);
    match e
    case Lit(key) =>
      LiteralIsSource(e, ctx);
      SpreadIsAccounted(value, {e}, ctx);
    case Unary(ops, operand) =>
      if ops == [] {
        NoOperators(operand, ctx);
        ItemsAreGuarded(operand, ctx);
      } else {
        FactIsSource(e, ctx);
        SpreadIsAccounted(value, if ops[0] == Shi then {e} else {}, ctx);
      }
    case Mek(verb, target) =>
      ActionsAreGuarded(target, ctx);
      ActionIsSource(e, ctx);
      SpreadIsAccounted(value, {e} + OpenNodes(target, ctx), ctx);
    case Paren(inner) =>
      ItemsAreGuarded(inner, ctx);
    case Sek(inner) =>
      ItemsAreGuarded(inner, ctx);
      if Eval(inner, ctx).Raised? {
        SpreadIsAccounted(value, {}, ctx);
      } else {
        ScopeIsGuarded(Eval(inner, ctx), OpenItems(inner, ctx), ctx);
      }
    case Conj(first, rest) =>
      ItemsAreGuarded(first, ctx);
      if rest != [] {
        TermsAreGuarded(rest, ctx);
        ConjIsGuarded(first, rest, ctx);
      }
    case Disj(left, more) =>
      ItemsAreGuarded(left, ctx);
      if more != [] {
        AnyIsGuarded(more, ctx);
        DisjIsGuarded(left, more, ctx);
      }
    case Khi(cond, body) =>
      ActionsAreGuarded(body, ctx);
      GuardedActions(Eval(cond, ctx), Eval(body, ctx), ctx);
      SpreadIsAccounted(value, if Trit(Eval(cond, ctx)) == Some(true) then OpenNodes(body, ctx) else {}, ctx);
    case _ =>
      ConstantIsNoSource(e, ctx);
      SpreadIsAccounted(value, {}, ctx);
  }

  lemma LiteralIsSource(e: Expr, ctx: Ctx)
    requires e.Lit?
    ensures AllAccounted(Actions(Eval(e, ctx)), {e}, ctx)
  {
    assert e in {e};
  }

  lemma FactIsSource(e: Expr, ctx: Ctx)
    requires e.Unary? && e.ops != []
    ensures AllAccounted(Actions(Eval(e, ctx)), if e.ops[0] == Shi then {e} else {}, ctx)
  {
    var v := Eval(e.operand, ctx);
    assert e in {e};
    if !v.Raised? {
      UnaryActions(e.ops, v, if e.operand.Lit? then Some("@" + e.operand.key) else None, ctx);
    }
    hide ApplyUnary;
  }

  lemma ActionIsSource(e: Expr, ctx: Ctx)
    requires e.Mek? && AllAccounted(Actions(Eval(e.target, ctx)), OpenNodes(e.target, ctx), ctx)
    ensures AllAccounted(Actions(Eval(e, ctx)), {e} + OpenNodes(e.target, ctx), ctx)
  {
    var v, open := Eval(e.target, ctx), OpenNodes(e.target, ctx);
    assert e in {e} + open;
    if !v.Raised? {
      MekActions(e.verb, v, ctx);
    }
    hide ActionOf, OpenNodes;
  }

  lemma NoOperators(operand: Expr, ctx: Ctx)
    ensures Eval(Unary([], operand), ctx) == Eval(operand, ctx)
  {
  }

  lemma NoActions(ctx: Ctx)
    ensures AllAccounted(Actions(Raised), {}, ctx) && AllAccounted(Actions(Undef), {}, ctx)
  {
  }

  lemma ConstantIsNoSource(e: Expr, ctx: Ctx)
    requires e.Const? || e.UndefConst? || e.Num?
    ensures AllAccounted(Actions(Eval(e, ctx)), {}, ctx)
  {
  }

  lemma MekActions(verb: string, v: Val, ctx: Ctx)
    ensures Actions(ActionOf(verb, v, ctx)) <= Actions(v) + {ActionOf(verb, v, ctx)}
  {
  }

  lemma GuardedActions(cond: Val, body: Val, ctx: Ctx)
    ensures Actions(GuardedOf(cond, body, ctx)) <= (if Trit(cond) == Some(true) then Actions(body) else {})
  {
    SingletonActions(body);
  }

  /** The actions of each token are accounted for by the nodes behind it. */
  ghost predicate TokensAccounted(tokens: seq<Token>, behind: seq<set<Expr>>, ctx: Ctx) {
    |tokens| == |behind| && forall i :: 0 <= i < |tokens| ==> AllAccounted(Actions(AsVal(tokens[i])), behind[i], ctx)
  }

  lemma UnionAccounts(tokens: seq<Token>, behind: seq<set<Expr>>, ctx: Ctx)
    requires TokensAccounted(tokens, behind, ctx)
    ensures AllAccounted(TokenActions(tokens), Union(behind), ctx)
  {
    hide ComesFrom, Actions;
    forall a | a in TokenActions(tokens) ensures Accounted(a, Union(behind), ctx) {
      var i :| 0 <= i < |tokens| && a in Actions(AsVal(tokens[i]));
      assert Accounted(a, behind[i], ctx);
    }
  }

  lemma SpreadIsAccounted(v: Val, open: set<Expr>, ctx: Ctx)
    requires AllAccounted(Actions(v), open, ctx)
    ensures TokensAccounted(Spread(v), Each(v, open), ctx)
  {
    SpreadActions(v);
    hide Accounted, Actions;
    forall i | 0 <= i < |Spread(v)| ensures AllAccounted(Actions(AsVal(Spread(v)[i])), Each(v, open)[i], ctx) {
      assert Actions(AsVal(Spread(v)[i])) <= TokenActions(Spread(v));
    }
  }

  lemma JoinAccounted(a: seq<Token>, b: seq<Token>, x: seq<set<Expr>>, y: seq<set<Expr>>, ctx: Ctx)
    requires TokensAccounted(a, x, ctx) && TokensAccounted(b, y, ctx)
    ensures TokensAccounted(a + b, x + y, ctx)
  {
    hide AllAccounted;
  }

  lemma OperatorAccounted(op: BinaryOp, ctx: Ctx)
    ensures TokensAccounted([O(op)], [{}], ctx)
  {
  }

  lemma ScopeIsGuarded(v: Val, open: seq<set<Expr>>, ctx: Ctx)
    requires TokensAccounted(Spread(v), open, ctx)
    ensures TokensAccounted(Spread(ScopedOf(v)), DropWithKeywords(Items(v), open), ctx)
  {
    assert Spread(List(Items(v))) == Spread(v);
    DroppedIsGuarded(Items(v), open, ctx);
  }

  lemma SplitAccounted(item: Val, items: seq<Val>, open: seq<set<Expr>>, ctx: Ctx)
    requires TokensAccounted(Spread(List([item] + items)), open, ctx)
    ensures TokensAccounted([V(item)], [open[0]], ctx) && TokensAccounted(Spread(List(items)), open[1..], ctx)
  {
    var tokens := Spread(List([item] + items));
    hide AllAccounted, Actions;
    assert tokens[0] == V(item) && tokens[1..] == Spread(List(items));
    assert TokensAccounted(tokens[1..], open[1..], ctx);
  }

  lemma DropOne(items: seq<Val>, open: seq<set<Expr>>)
    requires items != [] && |open| == |items|
    ensures
      var kept, sets := DropKeywords(items[1..]), DropWithKeywords(items[1..], open[1..]);
      && DropKeywords(items) == (if IsKeyword(items[0]) then kept else [items[0]] + kept)
      && DropWithKeywords(items, open) == (if IsKeyword(items[0]) then sets else [open[0]] + sets)
  {
    var kept, sets := DropKeywords(items[1..]), DropWithKeywords(items[1..], open[1..]);
    if IsKeyword(items[0]) {
      assert [] + kept == kept && [] + sets == sets;
    }
  }

  lemma SpreadOne(item: Val, items: seq<Val>)
    ensures Spread(List([item] + items)) == [V(item)] + Spread(List(items))
  {
  }

  lemma {:induction false} DroppedIsGuarded(items: seq<Val>, open: seq<set<Expr>>, ctx: Ctx)
    requires TokensAccounted(Spread(List(items)), open, ctx)
    ensures TokensAccounted(Spread(List(DropKeywords(items))), DropWithKeywords(items, open), ctx)
    decreases |items|
  {
    if items != [] {
      var item, rest := items[0], items[1..];
      assert items == [item] + rest;
      DropOne(items, open);
      hide *;
      SplitAccounted(item, rest, open, ctx);
      SpreadOne(item, DropKeywords(rest));
      DroppedIsGuarded(rest, open[1..], ctx);
      JoinAccounted([V(item)], Spread(List(DropKeywords(rest))), [open[0]], DropWithKeywords(rest, open[1..]), ctx);
    }
  }

  lemma {:induction false} TermsAreGuarded(rest: seq<Term>, ctx: Ctx)
    ensures TokensAccounted(Tokens(rest, ctx), BehindTerms(rest, ctx), ctx)
    decreases rest, 0
  {
    if rest != [] {
      assert rest[0].e < rest[0];
      var v, open := Eval(rest[0].e, ctx), OpenItems(rest[0].e, ctx);
      ItemsAreGuarded(rest[0].e, ctx);
      TermsAreGuarded(rest[1..], ctx);
      if rest[0].Op? {
        OperatorAccounted(rest[0].op, ctx);
      }
      hide AllAccounted, OpenItems;
      JoinAccounted(if rest[0].Op? then [O(rest[0].op)] else [], Spread(v), if rest[0].Op? then [{}] else [], open,
        ctx);
      JoinAccounted(
        (if rest[0].Op? then [O(rest[0].op)] else []) + Spread(v), Tokens(rest[1..], ctx),
        (if rest[0].Op? then [{}] else []) + open, BehindTerms(rest[1..], ctx), ctx);
    }
  }

  lemma {:induction false} AnyIsGuarded(more: seq<Expr>, ctx: Ctx)
    ensures TokensAccounted(UrTokens(more, ctx), BehindAny(more, ctx), ctx)
    decreases more, 0
  {
    if more != [] {
      var v, open := Eval(more[0], ctx), OpenItems(more[0], ctx);
      ItemsAreGuarded(more[0], ctx);
      AnyIsGuarded(more[1..], ctx);
      OperatorAccounted(Ur, ctx);
      hide AllAccounted, OpenItems;
      JoinAccounted([O(Ur)], Spread(v), [{}], open, ctx);
      JoinAccounted([O(Ur)] + Spread(v), UrTokens(more[1..], ctx), [{}] + open, BehindAny(more[1..], ctx), ctx);
    }
  }

  lemma ConjIsGuarded(first: Expr, rest: seq<Term>, ctx: Ctx)
    requires rest != []
    requires TokensAccounted(Spread(Eval(first, ctx)), OpenItems(first, ctx), ctx)
    requires TokensAccounted(Tokens(rest, ctx), BehindTerms(rest, ctx), ctx)
    ensures TokensAccounted(Spread(Eval(Conj(first, rest), ctx)), OpenItems(Conj(first, rest), ctx), ctx)
  {
    var e, v := Conj(first, rest), Eval(first, ctx);
    var open, behind := OpenItems(first, ctx), BehindTerms(rest, ctx);
    var flat := Spread(v) + Tokens(rest, ctx);
    assert OpenItems(e, ctx) == if V(Raised) in flat then Each(Eval(e, ctx), {}) else OpenInConj(flat, open + behind);
    assert Eval(e, ctx) == if V(Raised) in flat then Raised else ConjOf(flat);
    NoActions(ctx);
    hide *;
    JoinAccounted(Spread(v), Tokens(rest, ctx), open, behind, ctx);
    if V(Raised) in flat {
      SpreadIsAccounted(Raised, {}, ctx);
    } else {
      ConjOfIsGuarded(flat, open + behind, ctx);
    }
  }

  lemma ConjOfIsGuarded(flat: seq<Token>, behind: seq<set<Expr>>, ctx: Ctx)
    requires TokensAccounted(flat, behind, ctx)
    ensures TokensAccounted(Spread(ConjOf(flat)), OpenInConj(flat, behind), ctx)
  {
    NoActions(ctx);
    if flat == [] {
      SpreadIsAccounted(Raised, {}, ctx);
    } else {
      SpreadIsAccounted(AsVal(flat[0]), behind[0], ctx);
      FoldIsGuarded(Each(AsVal(flat[0]), behind[0]), AsVal(flat[0]), flat[1..], behind[1..], ctx);
    }
  }

  /** One operator or one juxtaposed item at a time. */
  lemma {:induction false} FoldIsGuarded(open: seq<set<Expr>>, value: Val, tokens: seq<Token>,
                                         behind: seq<set<Expr>>, ctx: Ctx)
    requires TokensAccounted(Spread(value), open, ctx) && TokensAccounted(tokens, behind, ctx)
    ensures TokensAccounted(Spread(FoldConj(value, tokens)), OpenInFold(open, value, tokens, behind), ctx)
    decreases |tokens|
  {
    if tokens == [] {
    } else if AsConjOp(tokens[0]).Some? {
      if |tokens| > 1 {
        var op, item := AsConjOp(tokens[0]).value, AsVal(tokens[1]);
        TakenIsGuarded(value, op, item, behind[1], ctx);
        hide ApplyBinary, AsConjOp, Taken, Spread;
        FoldIsGuarded(Taken(value, op, item, behind[1]), ApplyBinary(value, op, item), tokens[2..], behind[2..], ctx);
      } else {
        NoActions(ctx);
        SpreadIsAccounted(Undef, {}, ctx);
      }
    } else {
      var item := AsVal(tokens[0]);
      JoinAddsOne(value, item);
      JoinIsGuarded(open, value, item, behind[0], ctx);
      hide Join, AsConjOp, AllAccounted, Spread;
      FoldIsGuarded(open + [behind[0]], Join(value, item), tokens[1..], behind[1..], ctx);
    }
  }

  lemma TakenIsGuarded(value: Val, op: BinaryOp, item: Val, open: set<Expr>, ctx: Ctx)
    requires AllAccounted(Actions(item), open, ctx)
    ensures TokensAccounted(Spread(ApplyBinary(value, op, item)), Taken(value, op, item, open), ctx)
  {
    BinaryActions(value, op, item);
    hide ApplyBinary, Holds;
    SpreadIsAccounted(ApplyBinary(value, op, item), if Holds(value, op) then open else {}, ctx);
  }

  lemma JoinIsGuarded(open: seq<set<Expr>>, value: Val, item: Val, more: set<Expr>, ctx: Ctx)
    requires TokensAccounted(Spread(value), open, ctx) && AllAccounted(Actions(item), more, ctx)
    ensures TokensAccounted(Spread(Join(value, item)), open + [more], ctx)
  {
    var x := if item.Literal? then item.value else item;
    assert TokensAccounted([V(x)], [more], ctx);
    if value.List? {
      assert Spread(Join(value, item)) == Spread(value) + [V(x)];
      JoinAccounted(Spread(value), [V(x)], open, [more], ctx);
    } else {
      var r := if value.Literal? then value.value else value;
      assert AllAccounted(Actions(AsVal(Spread(value)[0])), open[0], ctx);
      assert TokensAccounted([V(r)], open, ctx);
      assert Spread(Join(value, item)) == [V(r)] + [V(x)];
      JoinAccounted([V(r)], [V(x)], open, [more], ctx);
    }
  }

  lemma {:induction false} DisjIsGuarded(left: Expr, more: seq<Expr>, ctx: Ctx)
    requires more != []
    requires TokensAccounted(Spread(Eval(left, ctx)), OpenItems(left, ctx), ctx)
    requires TokensAccounted(UrTokens(more, ctx), BehindAny(more, ctx), ctx)
    ensures TokensAccounted(Spread(Eval(Disj(left, more), ctx)), OpenItems(Disj(left, more), ctx), ctx)
  {
    var e, v := Disj(left, more), Eval(left, ctx);
    var open, behind := OpenItems(left, ctx), BehindAny(more, ctx);
    var flat := Spread(v) + UrTokens(more, ctx);
    assert OpenItems(e, ctx) == if V(Raised) in flat then Each(Eval(e, ctx), {}) else OpenInDisj(flat, open + behind);
    assert Eval(e, ctx) == if V(Raised) in flat then Raised else DisjOf(flat);
    NoActions(ctx);
    hide *;
    JoinAccounted(Spread(v), UrTokens(more, ctx), open, behind, ctx);
    if V(Raised) in flat {
      SpreadIsAccounted(Raised, {}, ctx);
    } else {
      DisjOfIsGuarded(flat, open + behind, ctx);
    }
  }

  lemma DisjOfIsGuarded(flat: seq<Token>, behind: seq<set<Expr>>, ctx: Ctx)
    requires TokensAccounted(flat, behind, ctx)
    ensures TokensAccounted(Spread(DisjOf(flat)), OpenInDisj(flat, behind), ctx)
  {
    NoActions(ctx);
    if |flat| % 2 == 0 {
      SpreadIsAccounted(Undef, {}, ctx);
    } else {
      SpreadIsAccounted(AsVal(flat[0]), behind[0], ctx);
      UrIsGuarded(Each(AsVal(flat[0]), behind[0]), AsVal(flat[0]), flat[1..], behind[1..], ctx);
    }
  }

  lemma {:induction false} UrIsGuarded(open: seq<set<Expr>>, value: Val, tokens: seq<Token>, behind: seq<set<Expr>>,
                                       ctx: Ctx)
    requires |tokens| % 2 == 0
    requires TokensAccounted(Spread(value), open, ctx) && TokensAccounted(tokens, behind, ctx)
    ensures TokensAccounted(Spread(FoldDisj(value, tokens)), OpenInUr(open, value, tokens, behind), ctx)
    decreases |tokens|
  {
    NoActions(ctx);
    if tokens == [] {
    } else if value.Raised? {
      SpreadIsAccounted(Raised, {}, ctx);
    } else {
      var item := AsVal(tokens[1]);
      TakenByUrIsGuarded(open, value, tokens[0], item, behind[0], behind[1], ctx);
      hide DisjStep, TakenByUr, Spread, AllAccounted;
      UrIsGuarded(TakenByUr(open, value, tokens[0], item, behind[0], behind[1]),
                  DisjStep(value, tokens[0], item), tokens[2..], behind[2..], ctx);
    }
  }

  lemma ThreeAreGuarded(a: Val, b: Val, c: Val, x: set<Expr>, y: set<Expr>, z: set<Expr>, ctx: Ctx)
    requires AllAccounted(Actions(a), x, ctx) && AllAccounted(Actions(b), y, ctx) && AllAccounted(Actions(c), z, ctx)
    ensures TokensAccounted(Spread(List([a, b, c])), [x, y, z], ctx)
  {
    hide AllAccounted, Actions;
    assert Spread(List([a, b, c])) == [V(a), V(b), V(c)];
  }

  lemma ListOfThree(open: seq<set<Expr>>, value: Val, op: Token, item: Val, x: set<Expr>, y: set<Expr>)
    requires AsDisjOp(op).None? && DisjStep(value, op, item).List?
    ensures TakenByUr(open, value, op, item, x, y) == [Union(open), x, y]
  {
    hide AsDisjOp, DisjStep;
  }

  lemma TakenByUrIsGuarded(open: seq<set<Expr>>, value: Val, op: Token, item: Val, x: set<Expr>, y: set<Expr>, ctx: Ctx)
    requires TokensAccounted(Spread(value), open, ctx)
    requires AllAccounted(Actions(AsVal(op)), x, ctx) && AllAccounted(Actions(item), y, ctx)
    ensures TokensAccounted(Spread(DisjStep(value, op, item)), TakenByUr(open, value, op, item, x, y), ctx)
  {
    var next := DisjStep(value, op, item);
    if AsDisjOp(op).Some? {
      TakenIsGuarded(value, AsDisjOp(op).value, item, y, ctx);
    } else if next.List? {
      UnionAccounts(Spread(value), open, ctx);
      SpreadActions(value);
      UnwrapActions(value);
      UnwrapActions(item);
      assert next == List([Unwrap(value), AsVal(op), Unwrap(item)]);
      hide *;
      ThreeAreGuarded(Unwrap(value), AsVal(op), Unwrap(item), Union(open), x, y, ctx);
      assert TakenByUr(open, value, op, item, x, y) ==
        [Union(open), x, y] by { ListOfThree(open, value, op, item, x, y); }
    } else {
      assert Actions(next) == {};
      SpreadIsAccounted(next, {}, ctx);
    }
  }

  // ----- The guards of a chain, term by term -----

  ghost predicate NamesNoOperator(tokens: seq<Token>) {
    forall i :: 0 <= i < |tokens| ==> AsConjOp(tokens[i]).None?
  }

  /** Every operand has an item, and none that is read as an operator instead. */
  ghost predicate AreRegular(rest: seq<Term>, ctx: Ctx) {
    forall i :: 0 <= i < |rest| ==> IsRegular(rest[i], ctx)
  }

  ghost predicate IsRegular(t: Term, ctx: Ctx) {
    var items := Spread(Eval(t.e, ctx));
    items != [] && NamesNoOperator(if t.Op? then items[1..] else items)
  }

  /** The value of the chain after one more term: the operator takes the first item, the others join. */
  ghost function After(value: Val, t: Term, ctx: Ctx): Val
    requires IsRegular(t, ctx)
  {
    var items := Spread(Eval(t.e, ctx));
    if t.Op? then FoldConj(ApplyBinary(value, t.op, AsVal(items[0])), items[1..]) else FoldConj(value, items)
  }

  /** The nodes behind its items: what the operator takes of the first, and those of the others. */
  ghost function OpenAfter(open: seq<set<Expr>>, value: Val, t: Term, ctx: Ctx): (r: seq<set<Expr>>)
    requires IsRegular(t, ctx) && |open| == |Spread(value)|
    ensures |r| == |Spread(After(value, t, ctx))|
  {
    var items, nodes := Spread(Eval(t.e, ctx)), OpenItems(t.e, ctx);
    if t.Op? then
      JoinedLength(ApplyBinary(value, t.op, AsVal(items[0])), items[1..]);
      Taken(value, t.op, AsVal(items[0]), nodes[0]) + nodes[1..]
    else
      JoinedLength(value, items);
      open + nodes
  }

  lemma {:induction false} JoinedLength(value: Val, items: seq<Token>)
    requires NamesNoOperator(items)
    ensures |Spread(FoldConj(value, items))| == |Spread(value)| + |items|
    decreases |items|
  {
    if items != [] {
      JoinAddsOne(value, AsVal(items[0]));
      JoinedLength(Join(value, AsVal(items[0])), items[1..]);
    }
  }

  ghost function OpenInChain(open: seq<set<Expr>>, value: Val, rest: seq<Term>, ctx: Ctx): seq<set<Expr>>
    requires AreRegular(rest, ctx) && |open| == |Spread(value)|
    decreases |rest|
  {
    if rest == [] then open
    else OpenInChain(OpenAfter(open, value, rest[0], ctx), After(value, rest[0], ctx), rest[1..], ctx)
  }

  lemma {:induction false} JuxtaposedOpen(open: seq<set<Expr>>, value: Val, items: seq<Token>, nodes: seq<set<Expr>>,
                                          tail: seq<Token>, behind: seq<set<Expr>>)
    requires NamesNoOperator(items) && |open| == |Spread(value)| && |nodes| == |items| && |tail| == |behind|
    ensures |open + nodes| == |Spread(FoldConj(value, items))|
    ensures OpenInFold(open, value, items + tail, nodes + behind) ==
      OpenInFold(open + nodes, FoldConj(value, items), tail, behind)
    ensures FoldConj(value, items + tail) == FoldConj(FoldConj(value, items), tail)
    decreases |items|
  {
    JoinedLength(value, items);
    if items == [] {
      assert items + tail == tail && nodes + behind == behind && open + nodes == open;
    } else {
      var item := AsVal(items[0]);
      var tokens, all := items + tail, nodes + behind;
      JoinAddsOne(value, item);
      assert tokens[0] == items[0] && tokens[1..] == items[1..] + tail;
      assert all[0] == nodes[0] && all[1..] == nodes[1..] + behind;
      assert OpenInFold(open, value, tokens, all) ==
        OpenInFold(open + [nodes[0]], Join(value, item), tokens[1..], all[1..]);
      assert FoldConj(value, tokens) == FoldConj(Join(value, item), tokens[1..]);
      assert FoldConj(value, items) == FoldConj(Join(value, item), items[1..]);
      hide OpenInFold, FoldConj, Join, Spread, AsConjOp;
      JuxtaposedOpen(open + [nodes[0]], Join(value, item), items[1..], nodes[1..], tail, behind);
      assert open + [nodes[0]] + nodes[1..] == open + nodes;
    }
  }

  lemma OperatorOpens(open: seq<set<Expr>>, value: Val, op: ConjOp, items: seq<Token>, nodes: seq<set<Expr>>,
                      tail: seq<Token>, behind: seq<set<Expr>>)
    requires items != [] && NamesNoOperator(items[1..])
    requires |open| == |Spread(value)| && |nodes| == |items| && |tail| == |behind|
    ensures
      var next := ApplyBinary(value, op, AsVal(items[0]));
      var after := Taken(value, op, AsVal(items[0]), nodes[0]) + nodes[1..];
      && |after| == |Spread(FoldConj(next, items[1..]))|
      && OpenInFold(open, value, [O(op)] + items + tail, [{}] + nodes + behind) ==
           OpenInFold(after, FoldConj(next, items[1..]), tail, behind)
  {
    var tokens, all := [O(op)] + items + tail, [{}] + nodes + behind;
    var next, taken := ApplyBinary(value, op, AsVal(items[0])), Taken(value, op, AsVal(items[0]), nodes[0]);
    assert tokens[0] == O(op) && tokens[1] == items[0] && tokens[2..] == items[1..] + tail;
    assert all[1] == nodes[0] && all[2..] == nodes[1..] + behind;
    assert OpenInFold(open, value, tokens, all) == OpenInFold(taken, next, tokens[2..], all[2..]);
    hide OpenInFold, FoldConj, ApplyBinary, Taken, Spread;
    JuxtaposedOpen(taken, next, items[1..], nodes[1..], tail, behind);
  }

  /** One term of the chain, in the fold over its tokens. */
  lemma OperatorTermOpens(open: seq<set<Expr>>, value: Val, t: Term, ctx: Ctx, tail: seq<Token>, behind: seq<set<Expr>>)
    requires t.Op? && IsRegular(t, ctx) && |open| == |Spread(value)| && |tail| == |behind|
    ensures
      OpenInFold(open, value, [O(t.op)] + Spread(Eval(t.e, ctx)) + tail, [{}] + OpenItems(t.e, ctx) + behind) ==
        OpenInFold(OpenAfter(open, value, t, ctx), After(value, t, ctx), tail, behind)
  {
    TermForm(open, value, t, ctx);
    hide *;
    OperatorOpens(open, value, t.op, Spread(Eval(t.e, ctx)), OpenItems(t.e, ctx), tail, behind);
  }

  lemma {:induction false} JuxtaposedTermOpens(open: seq<set<Expr>>, value: Val, t: Term, ctx: Ctx, tail: seq<Token>,
                                               behind: seq<set<Expr>>)
    requires t.Juxt? && IsRegular(t, ctx) && |open| == |Spread(value)| && |tail| == |behind|
    ensures OpenInFold(open, value, Spread(Eval(t.e, ctx)) + tail, OpenItems(t.e, ctx) + behind) ==
      OpenInFold(OpenAfter(open, value, t, ctx), After(value, t, ctx), tail, behind)
  {
    TermForm(open, value, t, ctx);
    hide *;
    JuxtaposedOpen(open, value, Spread(Eval(t.e, ctx)), OpenItems(t.e, ctx), tail, behind);
  }

  /** What a term does to the value and to the nodes behind it, spelled out. */
  lemma TermForm(open: seq<set<Expr>>, value: Val, t: Term, ctx: Ctx)
    requires IsRegular(t, ctx) && |open| == |Spread(value)|
    ensures
      var items, nodes := Spread(Eval(t.e, ctx)), OpenItems(t.e, ctx);
      && items != [] && NamesNoOperator(if t.Op? then items[1..] else items)
      && After(value, t, ctx) == (
           if t.Op? then FoldConj(ApplyBinary(value, t.op, AsVal(items[0])), items[1..]) else FoldConj(value, items))
      && OpenAfter(open, value, t, ctx) == (
           if t.Op? then Taken(value, t.op, AsVal(items[0]), nodes[0]) + nodes[1..] else open + nodes)
  {
    hide OpenItems, Eval, FoldConj, ApplyBinary, Taken;
  }

  lemma {:induction false} StepOpens(open: seq<set<Expr>>, value: Val, rest: seq<Term>, ctx: Ctx)
    requires rest != [] && IsRegular(rest[0], ctx) && |open| == |Spread(value)|
    ensures OpenInFold(open, value, Tokens(rest, ctx), BehindTerms(rest, ctx)) ==
      OpenInFold(OpenAfter(open, value, rest[0], ctx), After(value, rest[0], ctx), Tokens(rest[1..], ctx),
        BehindTerms(rest[1..], ctx))
  {
    var t, tail, behind := rest[0], Tokens(rest[1..], ctx), BehindTerms(rest[1..], ctx);
    if t.Op? {
      assert Tokens(rest, ctx) == [O(t.op)] + Spread(Eval(t.e, ctx)) + tail;
      assert BehindTerms(rest, ctx) == [{}] + OpenItems(t.e, ctx) + behind;
      hide *;
      OperatorTermOpens(open, value, t, ctx, tail, behind);
    } else {
      NoOperator(Spread(Eval(t.e, ctx)), OpenItems(t.e, ctx));
      assert Tokens(rest, ctx) == Spread(Eval(t.e, ctx)) + tail;
      assert BehindTerms(rest, ctx) == OpenItems(t.e, ctx) + behind;
      hide *;
      JuxtaposedTermOpens(open, value, t, ctx, tail, behind);
    }
  }

  lemma NoOperator(items: seq<Token>, nodes: seq<set<Expr>>)
    ensures [] + items == items && [] + nodes == nodes
  {
  }

  /** The open nodes of a chain, read off its terms. */
  lemma {:induction false} ChainOpens(open: seq<set<Expr>>, value: Val, rest: seq<Term>, ctx: Ctx)
    requires AreRegular(rest, ctx) && |open| == |Spread(value)|
    ensures OpenInFold(open, value, Tokens(rest, ctx), BehindTerms(rest, ctx)) == OpenInChain(open, value, rest, ctx)
    decreases |rest|
  {
    if rest != [] {
      StepOpens(open, value, rest, ctx);
      hide OpenInFold, After, OpenAfter, OpenItems, Eval, Spread, Tokens, BehindTerms;
      ChainOpens(OpenAfter(open, value, rest[0], ctx), After(value, rest[0], ctx), rest[1..], ctx);
    }
  }

  /** Whatever a regular chain goes on from, the actions it ends with come from the nodes it leaves open. */
  lemma ChainIsGuarded(open: seq<set<Expr>>, value: Val, rest: seq<Term>, ctx: Ctx)
    requires AreRegular(rest, ctx) && TokensAccounted(Spread(value), open, ctx)
    ensures TokensAccounted(Spread(FoldConj(value, Tokens(rest, ctx))), OpenInChain(open, value, rest, ctx), ctx)
  {
    TermsAreGuarded(rest, ctx);
    FoldIsGuarded(open, value, Tokens(rest, ctx), BehindTerms(rest, ctx), ctx);
    ChainOpens(open, value, rest, ctx);
  }

  /** Single items are regular. */
  lemma PlainIsRegular(rest: seq<Term>, ctx: Ctx)
    requires ArePlain(rest, ctx)
    ensures AreRegular(rest, ctx)
    ensures forall i :: 0 <= i < |rest| ==> Spread(Eval(rest[i].e, ctx)) == [V(Item(Eval(rest[i].e, ctx)))]
    ensures forall i, v :: 0 <= i < |rest| ==>
      After(v, rest[i], ctx) == ApplyBinary(v, rest[i].op, Item(Eval(rest[i].e, ctx)))
  {
    forall i | 0 <= i < |rest| ensures Spread(Eval(rest[i].e, ctx)) == [V(Item(Eval(rest[i].e, ctx)))] {
      PlainTokens(Eval(rest[i].e, ctx), []);
    }
  }

  lemma {:induction false} PlainStep(open: seq<set<Expr>>, value: Val, rest: seq<Term>, ctx: Ctx)
    requires ArePlain(rest, ctx) && rest != [] && |open| == |Spread(value)|
    ensures AreRegular(rest, ctx) && AreRegular(rest[1..], ctx) && |OpenItems(rest[0].e, ctx)| == 1
    ensures
      var r := Item(Eval(rest[0].e, ctx));
      OpenInChain(open, value, rest, ctx) ==
        OpenInChain(Taken(value, rest[0].op, r, OpenItems(rest[0].e, ctx)[0]), ApplyBinary(value, rest[0].op, r),
          rest[1..], ctx)
  {
    PlainIsRegular(rest, ctx);
    PlainIsRegular(rest[1..], ctx);
    var r, nodes := Item(Eval(rest[0].e, ctx)), OpenItems(rest[0].e, ctx);
    TermForm(open, value, rest[0], ctx);
    assert After(value, rest[0], ctx) == ApplyBinary(value, rest[0].op, r);
    hide Taken, ApplyBinary, Eval, OpenItems, IsRegular, AreRegular, OpenAfter, After;
    assert nodes[1..] == [] && Taken(value, rest[0].op, r, nodes[0]) + [] == Taken(value, rest[0].op, r, nodes[0]);
  }

  /** What gets out of a plain chain comes from its last operand, behind a kra before which the whole chain was true. */
  lemma {:induction false} PlainChainOpens(open: seq<set<Expr>>, value: Val, rest: seq<Term>, ctx: Ctx)
    requires ArePlain(rest, ctx) && rest != [] && |open| == |Spread(value)|
    ensures AreRegular(rest, ctx) && |OpenItems(rest[|rest| - 1].e, ctx)| == 1
    ensures
      var n := |rest| - 1;
      OpenInChain(open, value, rest, ctx) ==
        Taken(FoldChain(value, rest[..n], ctx), rest[n].op, Item(Eval(rest[n].e, ctx)), OpenItems(rest[n].e, ctx)[0])
    decreases |rest|
  {
    var n, r := |rest| - 1, Item(Eval(rest[0].e, ctx));
    var next := ApplyBinary(value, rest[0].op, r);
    PlainStep(open, value, rest, ctx);
    if n > 0 {
      PrefixFolds(value, rest, n, ctx);
      assert ArePlain(rest[1..], ctx);
      hide *;
      PlainChainOpens(Taken(value, rest[0].op, r, OpenItems(rest[0].e, ctx)[0]), next, rest[1..], ctx);
      assert rest[1..][n - 1] == rest[n];
    } else {
      hide Taken, ApplyBinary, Eval, OpenItems, AreRegular;
      assert rest[..0] == [] && rest[1..] == [];
    }
  }

  lemma PrefixFolds(value: Val, rest: seq<Term>, n: nat, ctx: Ctx)
    requires ArePlain(rest, ctx) && 0 < n < |rest|
    ensures ArePlain(rest[..n], ctx) && ArePlain(rest[1..][..n - 1], ctx)
    ensures FoldChain(value, rest[..n], ctx) ==
      FoldChain(ApplyBinary(value, rest[0].op, Item(Eval(rest[0].e, ctx))), rest[1..][..n - 1], ctx)
  {
    assert rest[..n][1..] == rest[1..][..n - 1] && rest[..n][0] == rest[0];
    hide Eval, ApplyBinary;
  }

  /** An operand of the chain raises, and the evaluation is abandoned. */
  predicate Raises(first: Expr, rest: seq<Term>, ctx: Ctx) {
    V(Raised) in Spread(Eval(first, ctx)) + Tokens(rest, ctx)
  }

  /** A chain as a whole, when its first operand is a single item. */
  lemma {:induction false} ConjOpens(first: Expr, rest: seq<Term>, ctx: Ctx)
    requires rest != [] && IsSingle(Eval(first, ctx)) && AreRegular(rest, ctx)
    ensures |OpenItems(first, ctx)| == 1
    ensures
      var v, open := Item(Eval(first, ctx)), OpenItems(first, ctx)[0];
      OpenItems(Conj(first, rest), ctx) ==
        if Raises(first, rest, ctx) then [{}] else OpenInChain(Each(v, open), v, rest, ctx)
  {
    var e, v, open := Conj(first, rest), Eval(first, ctx), OpenItems(first, ctx);
    var tokens, behind := Tokens(rest, ctx), BehindTerms(rest, ctx);
    var flat := Spread(v) + tokens;
    assert Spread(v) == [V(Item(v))] by { PlainTokens(v, []); }
    assert OpenItems(e, ctx) == if V(Raised) in flat then Each(Eval(e, ctx), {}) else OpenInConj(flat, open + behind);
    assert V(Raised) in flat ==> Eval(e, ctx) == Raised;
    assert Each(Raised, {}) == [{}];
    ChainOpens(Each(Item(v), open[0]), Item(v), rest, ctx);
    hide Eval, Tokens, BehindTerms, OpenItems, OpenInChain, OpenInFold, AreRegular, Each;
    assert flat[0] == V(Item(v)) && flat[1..] == tokens && (open + behind)[0] == open[0] &&
      (open + behind)[1..] == behind;
  }

  lemma UnionSplits(a: seq<set<Expr>>, b: seq<set<Expr>>)
    ensures Union(a + b) == Union(a) + Union(b)
  {
    forall m | m in Union(a) + Union(b) ensures m in Union(a + b) {
      if m in Union(a) {
        var i :| 0 <= i < |a| && m in a[i];
        assert (a + b)[i] == a[i];
      } else {
        var i :| 0 <= i < |b| && m in b[i];
        assert (a + b)[|a| + i] == b[i];
      }
    }
  }

  lemma {:induction false} TwoTerms(open: seq<set<Expr>>, value: Val, t: Term, u: Term, ctx: Ctx)
    requires |open| == |Spread(value)| && IsRegular(t, ctx) && IsRegular(u, ctx) && u.Juxt?
    ensures AreRegular([t, u], ctx)
    ensures OpenInChain(open, value, [t, u], ctx) == OpenAfter(open, value, t, ctx) + OpenItems(u.e, ctx)
  {
    var rest := [t, u];
    var next, kept := After(value, t, ctx), OpenAfter(open, value, t, ctx);
    assert rest[1..] == [u] && [u][1..] == [];
    assert OpenAfter(kept, next, u, ctx) == kept + OpenItems(u.e, ctx);
    hide OpenAfter, After, OpenItems, Spread, Eval, IsRegular;
    assert OpenInChain(kept, next, [u], ctx) ==
      OpenInChain(OpenAfter(kept, next, u, ctx), After(next, u, ctx), [], ctx);
  }

  /** A kra that does not hold closes the item it takes, whatever is juxtaposed in its operand or behind it. */
  lemma KraClosesOperand(c: Expr, x: Expr, y: Expr, ctx: Ctx)
    requires IsSingle(Eval(c, ctx)) && !Holds(Item(Eval(c, ctx)), Kra)
    requires IsRegular(Op(Kra, x), ctx) && IsRegular(Juxt(y), ctx) && !Raises(c, [Op(Kra, x), Juxt(y)], ctx)
    ensures OpenNodes(Conj(c, [Op(Kra, x), Juxt(y)]), ctx) == Union(OpenItems(x, ctx)[1..]) + OpenNodes(y, ctx)
  {
    var rest: seq<Term> := [Op(Kra, x), Juxt(y)];
    var v, open := Item(Eval(c, ctx)), OpenItems(c, ctx);
    var nodes := OpenItems(x, ctx);
    assert rest[1..] == [Juxt(y)] && rest[1..][1..] == [];
    ConjOpens(c, rest, ctx);
    var taken := Taken(v, Kra, AsVal(Spread(Eval(x, ctx))[0]), nodes[0]);
    assert Union(taken) == {};
    hide Eval, Holds, Spread, OpenItems, Taken, IsRegular, Raises;
    TwoTerms(Each(v, open[0]), v, Op(Kra, x), Juxt(y), ctx);
    assert OpenAfter(Each(v, open[0]), v, Op(Kra, x), ctx) == taken + nodes[1..];
    hide After, OpenAfter, OpenInChain;
    UnionSplits(taken + nodes[1..], OpenItems(y, ctx));
    UnionSplits(taken, nodes[1..]);
  }

  // ----- Where kra does not guard -----

  lemma {:induction false} JuxtaposedActions(result: Val, tokens: seq<Token>)
    requires NamesNoOperator(tokens)
    ensures Actions(FoldConj(result, tokens)) == Actions(result) + TokenActions(tokens)
    decreases |tokens|
  {
    if tokens != [] {
      JoinActions(result, AsVal(tokens[0]));
      JuxtaposedActions(Join(result, AsVal(tokens[0])), tokens[1..]);
      ConcatActions([tokens[0]], tokens[1..]);
      assert tokens == [tokens[0]] + tokens[1..];
      assert TokenActions([tokens[0]]) == Actions(AsVal(tokens[0])) by { assert [tokens[0]][0] == tokens[0]; }
    }
  }

  /**
   * A kra guards the first item on its right and no other, wherever it stands: what the chain goes on with holds
   * exactly the actions of the further items of a juxtaposed right side, and those of the first if the kra holds.
   */
  lemma KraGuardsOneItem(l: Val, t: Term, ctx: Ctx, tail: seq<Token>)
    requires t.Op? && t.op == Kra && IsRegular(t, ctx)
    ensures
      var items := Spread(Eval(t.e, ctx));
      && FoldConj(l, [O(Kra)] + items + tail) == FoldConj(After(l, t, ctx), tail)
      && Actions(After(l, t, ctx)) == TokenActions(if Holds(l, Kra) then items else items[1..])
  {
    var items := Spread(Eval(t.e, ctx));
    assert NamesNoOperator(items[1..]);
    assert After(l, t, ctx) == FoldConj(ApplyBinary(l, Kra, AsVal(items[0])), items[1..]);
    hide *;
    KraTakesOne(l, items, tail);
    KraPassesOne(l, items);
  }

  lemma KraTakesOne(l: Val, items: seq<Token>, tail: seq<Token>)
    requires items != [] && NamesNoOperator(items[1..])
    ensures FoldConj(l, [O(Kra)] + items + tail) ==
      FoldConj(FoldConj(ApplyBinary(l, Kra, AsVal(items[0])), items[1..]), tail)
  {
    var tokens := [O(Kra)] + items + tail;
    var next := ApplyBinary(l, Kra, AsVal(items[0]));
    assert tokens[0] == O(Kra) && tokens[1] == items[0] && tokens[2..] == items[1..] + tail;
    assert FoldConj(l, tokens) == FoldConj(next, items[1..] + tail);
    hide *;
    JuxtaposedOpen(Each(next, {}), next, items[1..], seq(|items| - 1, i => {}), tail, seq(|tail|, i => {}));
  }

  lemma KraPassesOne(l: Val, items: seq<Token>)
    requires items != [] && NamesNoOperator(items[1..])
    ensures Actions(FoldConj(ApplyBinary(l, Kra, AsVal(items[0])), items[1..])) ==
      TokenActions(if Holds(l, Kra) then items else items[1..])
  {
    var next := ApplyBinary(l, Kra, AsVal(items[0]));
    BinaryActions(l, Kra, AsVal(items[0]));
    JuxtaposedActions(next, items[1..]);
    ConcatActions([items[0]], items[1..]);
    assert items == [items[0]] + items[1..];
    assert TokenActions([items[0]]) == Actions(AsVal(items[0])) by { assert [items[0]][0] == items[0]; }
    hide *;
  }

  /** `false kra (mek @a mek @b)` performs the second action, for any two literals. */
  lemma KraLetsSecondActionThrough(a: string, b: string, ctx: Ctx)
    requires !ctx.strict && ctx.literals.Some?
    requires a in ctx.literals.value && ctx.literals.value[a].Text?
    requires b in ctx.literals.value && ctx.literals.value[b].Text?
    ensures
      var pair := Conj(Mek("mek", Lit(a)), [Juxt(Mek("mek", Lit(b)))]);
      Eval(Conj(Const(false), [Op(Kra, Paren(pair))]), ctx) == List([Undef, Action("mek", Text("@" + b))])
  {
    var x, y := Mek("mek", Lit(a)), Mek("mek", Lit(b));
    var pair := Conj(x, [Juxt(y)]);
    MekOnText(a, ctx);
    MekOnText(b, ctx);
    assert Eval(Const(false), ctx) == Truth(false) && Eval(Paren(pair), ctx) == Eval(pair, ctx);
    hide Eval;
    PairValue(x, y, ctx);
    StoppedPair(Const(false), Paren(pair), Eval(x, ctx), Eval(y, ctx), ctx);
  }

  lemma MekOnText(key: string, ctx: Ctx)
    requires !ctx.strict && ctx.literals.Some? && key in ctx.literals.value && ctx.literals.value[key].Text?
    ensures Eval(Mek("mek", Lit(key)), ctx) == Action("mek", Text("@" + key))
  {
    assert Eval(Lit(key), ctx) == Literal(key, ctx.literals.value[key]);
  }

  lemma PairValue(a: Expr, b: Expr, ctx: Ctx)
    requires Eval(a, ctx).Action? && Eval(b, ctx).Action?
    ensures Eval(Conj(a, [Juxt(b)]), ctx) == List([Eval(a, ctx), Eval(b, ctx)])
  {
    var x, y := Eval(a, ctx), Eval(b, ctx);
    var rest: seq<Term> := [Juxt(b)];
    assert rest[1..] == [] && Tokens(rest, ctx) == [V(y)];
    assert Spread(x) + Tokens(rest, ctx) == [V(x), V(y)];
    var flat := [V(x), V(y)];
    assert flat[1..] == [V(y)] && flat[1..][1..] == [];
    assert FoldConj(x, flat[1..]) == FoldConj(Join(x, y), []);
  }

  lemma StoppedPair(l: Expr, r: Expr, x: Val, y: Val, ctx: Ctx)
    requires Eval(l, ctx) == Truth(false) && Eval(r, ctx) == List([x, y]) && x.Action? && y.Action?
    ensures Eval(Conj(l, [Op(Kra, r)]), ctx) == List([Undef, y])
  {
    var tail := [O(Kra), V(x), V(y)];
    PairTokens(r, x, y, ctx);
    PlainTokens(Truth(false), tail);
    StoppedFold(x, y);
    hide FoldConj, Tokens;
    assert ([V(Truth(false))] + tail)[1..] == tail;
  }

  lemma PairTokens(r: Expr, x: Val, y: Val, ctx: Ctx)
    requires Eval(r, ctx) == List([x, y])
    ensures Tokens([Op(Kra, r)], ctx) == [O(Kra), V(x), V(y)]
  {
    var rest: seq<Term> := [Op(Kra, r)];
    assert rest[1..] == [];
  }

  lemma StoppedFold(x: Val, y: Val)
    requires x.Action? && y.Action?
    ensures FoldConj(Truth(false), [O(Kra), V(x), V(y)]) == List([Undef, y])
  {
    assert [O(Kra), V(x), V(y)][2..] == [V(y)] && [V(y)][1..] == [];
    assert FoldConj(Undef, [V(y)]) == FoldConj(Join(Undef, y), []);
  }
}
