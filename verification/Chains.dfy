/** Plain chains: operators between operands that contribute one item each. */
module Chains {
  import opened Evaluator

  /** An operand that contributes exactly one item to the chain it stands in. */
  predicate IsSingle(v: Val) {
    v.List? ==> |v.items| == 1
  }

  function Item(v: Val): Val
    requires IsSingle(v)
  {
    if v.List? then v.items[0] else v
  }

  predicate ArePlain(rest: seq<Term>, ctx: Ctx) {
    forall i :: 0 <= i < |rest| ==> rest[i].Op? && IsSingle(Eval(rest[i].e, ctx))
  }

  /** A chain of operators whose every operand contributes one item. */
  predicate IsPlainChain(first: Expr, rest: seq<Term>, ctx: Ctx) {
    IsSingle(Eval(first, ctx)) && ArePlain(rest, ctx)
  }

  /** ((v op1 e1) op2 e2) ... */
  function FoldChain(value: Val, rest: seq<Term>, ctx: Ctx): Val
    requires ArePlain(rest, ctx)
    decreases |rest|
  {
    if rest == [] then value
    else FoldChain(ApplyBinary(value, rest[0].op, Item(Eval(rest[0].e, ctx))), rest[1..], ctx)
  }

  lemma PlainTokens(v: Val, tokens: seq<Token>)
    requires IsSingle(v)
    ensures Spread(v) + tokens == [V(Item(v))] + tokens
  {
    assert Spread(v) == [V(Item(v))];
  }

  lemma FoldTwo(value: Val, op: ConjOp, r: Val, tokens: seq<Token>)
    ensures FoldConj(value, [O(op)] + ([V(r)] + tokens)) == FoldConj(ApplyBinary(value, op, r), tokens)
  {
    var all := [O(op)] + ([V(r)] + tokens);
    assert all[1] == V(r) && all[2..] == tokens;
  }

  lemma {:induction false} ChainIsFold(value: Val, rest: seq<Term>, ctx: Ctx)
    requires ArePlain(rest, ctx)
    ensures FoldConj(value, Tokens(rest, ctx)) == FoldChain(value, rest, ctx)
    decreases |rest|
  {
    if rest != [] {
      var r := Eval(rest[0].e, ctx);
      PlainTokens(r, Tokens(rest[1..], ctx));
      FoldTwo(value, rest[0].op, Item(r), Tokens(rest[1..], ctx));
      assert Tokens(rest, ctx) == [O(rest[0].op)] + (Spread(r) + Tokens(rest[1..], ctx));
      ChainIsFold(ApplyBinary(value, rest[0].op, Item(r)), rest[1..], ctx);
    }
  }

  /** A plain chain evaluates to the left fold of its operators, unless an operand raised. */
  lemma PlainConj(first: Expr, rest: seq<Term>, ctx: Ctx)
    requires IsPlainChain(first, rest, ctx) && rest != []
    ensures var flat := Spread(Eval(first, ctx)) + Tokens(rest, ctx);
      Eval(Conj(first, rest), ctx) == if V(Raised) in flat then Raised else FoldChain(Item(Eval(first, ctx)), rest, ctx)
  {
    var x := Item(Eval(first, ctx));
    PlainTokens(Eval(first, ctx), Tokens(rest, ctx));
    assert ([V(x)] + Tokens(rest, ctx))[1..] == Tokens(rest, ctx);
    ChainIsFold(x, rest, ctx);
  }

  lemma {:induction false} NoneRaised(rest: seq<Term>, ctx: Ctx)
    requires ArePlain(rest, ctx) && forall i :: 0 <= i < |rest| ==> !Item(Eval(rest[i].e, ctx)).Raised?
    ensures V(Raised) !in Tokens(rest, ctx)
  {
    if rest != [] {
      NoneRaised(rest[1..], ctx);
      PlainTokens(Eval(rest[0].e, ctx), Tokens(rest[1..], ctx));
      assert Tokens(rest, ctx) == [O(rest[0].op)] + ([V(Item(Eval(rest[0].e, ctx)))] + Tokens(rest[1..], ctx));
    }
  }

  // ----- ur -----

  predicate AreSingle(more: seq<Expr>, ctx: Ctx) {
    forall i :: 0 <= i < |more| ==> IsSingle(Eval(more[i], ctx)) && !Item(Eval(more[i], ctx)).Raised?
  }

  function FoldAny(value: Val, more: seq<Expr>, ctx: Ctx): Val
    requires AreSingle(more, ctx)
    decreases |more|
  {
    if more == [] then value else FoldAny(ApplyBinary(value, Ur, Item(Eval(more[0], ctx))), more[1..], ctx)
  }

  /** An operator and an item for each operand. */
  lemma UrStep(more: seq<Expr>, ctx: Ctx)
    requires AreSingle(more, ctx) && more != []
    ensures UrTokens(more, ctx) == [O(Ur), V(Item(Eval(more[0], ctx)))] + UrTokens(more[1..], ctx)
  {
    var v, tail := Eval(more[0], ctx), UrTokens(more[1..], ctx);
    assert IsSingle(v);
    hide Eval, AreSingle, Spread;
    assert UrTokens(more, ctx) == [O(Ur)] + Spread(v) + tail;
    hide UrTokens;
    PlainTokens(v, []);
    assert Spread(v) + [] == Spread(v);
  }

  lemma {:induction false} AnyIsFold(value: Val, more: seq<Expr>, ctx: Ctx)
    requires AreSingle(more, ctx) && !value.Raised?
    ensures |UrTokens(more, ctx)| % 2 == 0 && V(Raised) !in UrTokens(more, ctx)
    ensures FoldDisj(value, UrTokens(more, ctx)) == FoldAny(value, more, ctx)
    decreases |more|
  {
    if more != [] {
      var r, tail := Item(Eval(more[0], ctx)), UrTokens(more[1..], ctx);
      var tokens := UrTokens(more, ctx);
      UrStep(more, ctx);
      hide Eval, UrTokens, ApplyBinary;
      AnyIsFold(ApplyBinary(value, Ur, r), more[1..], ctx);
      assert tokens[0] == O(Ur) && tokens[1] == V(r) && tokens[2..] == tail;
    }
  }

  lemma PlainDisj(left: Expr, more: seq<Expr>, ctx: Ctx)
    requires IsSingle(Eval(left, ctx)) && !Item(Eval(left, ctx)).Raised? && AreSingle(more, ctx) && more != []
    ensures Eval(Disj(left, more), ctx) == FoldAny(Item(Eval(left, ctx)), more, ctx)
  {
    var v, tokens := Eval(left, ctx), UrTokens(more, ctx);
    var flat := Spread(v) + tokens;
    assert Eval(Disj(left, more), ctx) == if V(Raised) in flat then Raised else DisjOf(flat);
    hide Eval, UrTokens;
    PlainTokens(v, []);
    assert flat == [V(Item(v))] + tokens && flat[1..] == tokens;
    hide Spread, AreSingle, FoldDisj, FoldAny;
    AnyIsFold(Item(v), more, ctx);
  }
}
