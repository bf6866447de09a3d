/** More grounding never changes a decided result (partial mode). */
module Grounding {
  import opened Options
  import opened Evaluator
  import opened Chains

  /** Literals, truth constants, shi, nai, an, ur, kra, khi and parentheses. */
  predicate InFragment(e: Expr) {
    match e
    case Const(_) => true
    case UndefConst => true
    case Lit(_) => true
    case Unary(_, operand) => InFragment(operand)
    case Paren(inner) => InFragment(inner)
    case Conj(first, rest) => InFragment(first) && forall i :: 0 <= i < |rest| ==> rest[i].Op? && InFragment(rest[i].e)
    case Disj(left, more) => InFragment(left) && forall i :: 0 <= i < |more| ==> InFragment(more[i])
    case Khi(cond, body) => InFragment(cond) && InFragment(body)
    case _ => false
  }

  /** A context value that is neither a list, nor null, nor a scope keyword, nor one of the evaluator's own wrappers. */
  predicate IsScalar(v: Val) {
    v.Undef? || v.Truth? || v.Number? || (v.Text? && !IsKeyword(v)) || v.Action? || v.Record?
  }

  function Entries(m: Option<map<string, Val>>): map<string, Val> {
    if m.None? then map[] else m.value
  }

  /** The order of information: undefined is below everything; scopes compare by their item. */
  predicate Below(v: Val, w: Val) {
    || IsUndef(v)
    || v == w
    || (v.List? && w.List? && |v.items| == |w.items| == 1 && Below(v.items[0], w.items[0]))
  }

  /** The values a fragment expression has over a clean context. */
  predicate IsSimple(v: Val) {
    IsScalar(v) || v.UndefObj? || (v.Literal? && IsOne(v.value)) || (v.List? && |v.items| == 1 && IsSimple(v.items[0]))
  }

  // ----- Lookups -----

  /** What shi answers on a literal written in place. */
  function ShiAnswer(key: string, ctx: Ctx): Val {
    ApplyShi(EvalLiteral(key, ctx), Some("@" + key), ctx)
  }

  /** A value that a lookup gives: a grounded literal's, an answer of shi, or one that
      follows from these. */
  ghost predicate IsAnswer(v: Val, ctx: Ctx, n: nat)
    decreases n
  {
    if n == 0 then
      exists key :: v == ShiAnswer(key, ctx) || EvalLiteral(key, ctx) == Literal(key, v)
    else
      exists u :: Follows(v, u, ctx) && IsAnswer(u, ctx, n - 1)
  }

  /** What shi answers about an answer, or the item of one that is a list of one. */
  predicate Follows(v: Val, u: Val, ctx: Ctx) {
    v == ApplyShi(u, None, ctx) || u == List([v])
  }

  /** A scalar, or a list of one around one. */
  predicate IsOne(v: Val) {
    IsScalar(v) || (v.List? && |v.items| == 1 && IsOne(v.items[0]))
  }

  /** No lookup gives a list of none or of several, null, a scope keyword, or one of the evaluator's own wrappers. */
  ghost predicate SimpleAnswers(ctx: Ctx) {
    forall v, n :: IsAnswer(v, ctx, n) ==> IsOne(v)
  }

  /** Every lookup that gives something gives the same in `more`. */
  ghost predicate KeepsLookups(ctx: Ctx, more: Ctx) {
    && (forall key :: EvalLiteral(key, ctx).Literal? ==> EvalLiteral(key, more) == EvalLiteral(key, ctx))
    && (forall key :: Below(ShiAnswer(key, ctx), ShiAnswer(key, more)))
    && (forall v, n :: IsAnswer(v, ctx, n) ==> Below(ApplyShi(v, None, ctx), ApplyShi(v, None, more)))
  }

  /** The values of the fragment over a context: constants, answers, literals, and scopes around one of them. */
  ghost predicate Sourced(v: Val, ctx: Ctx) {
    || v.Undef? || v.UndefObj? || v.Truth?
    || (v.Literal? && v == EvalLiteral(v.key, ctx))
    || (v.List? && |v.items| == 1 && Sourced(v.items[0], ctx))
    || exists n :: IsAnswer(v, ctx, n)
  }

  lemma {:induction false} OneIsSimple(v: Val)
    requires IsOne(v)
    ensures IsSimple(v) && !v.Literal?
  {
    if !IsScalar(v) {
      OneIsSimple(v.items[0]);
    }
  }

  lemma {:induction false} SourcedIsSimple(v: Val, ctx: Ctx)
    requires Sourced(v, ctx) && SimpleAnswers(ctx)
    ensures IsSimple(v)
  {
    if n: nat :| IsAnswer(v, ctx, n) {
      OneIsSimple(v);
    }
    if v.List? && |v.items| == 1 && Sourced(v.items[0], ctx) {
      SourcedIsSimple(v.items[0], ctx);
    } else if v.Literal? && v == EvalLiteral(v.key, ctx) {
      assert IsAnswer(v.value, ctx, 0);
    }
  }

  lemma ItemOfAnswer(v: Val, ctx: Ctx, n: nat)
    requires IsAnswer(List([v]), ctx, n)
    ensures IsAnswer(v, ctx, n + 1)
  {
    assert Follows(v, List([v]), ctx);
  }

  lemma SourcedItem(v: Val, ctx: Ctx)
    requires Sourced(v, ctx) && SimpleAnswers(ctx)
    ensures IsSingle(v) && Sourced(Item(v), ctx)
  {
    SourcedIsSimple(v, ctx);
    if n: nat :| IsAnswer(v, ctx, n) {
      if v.List? {
        assert IsOne(v) && v == List([v.items[0]]);
        ItemOfAnswer(v.items[0], ctx, n);
      }
    }
  }

  // ----- The operators are monotone -----

  lemma {:induction false} TritMonotone(v: Val, w: Val)
    requires Below(v, w)
    ensures Trit(v).None? || Trit(v) == Trit(w)
  {
    if !IsUndef(v) && v != w {
      TritMonotone(v.items[0], w.items[0]);
    }
  }

  lemma UnwrapMonotone(v: Val, w: Val)
    requires Below(v, w)
    ensures Below(Unwrap(v), Unwrap(w))
  {
  }

  lemma BinaryMonotone(l: Val, l': Val, op: BinaryOp, r: Val, r': Val)
    requires Below(l, l') && Below(r, r')
    requires IsSimple(l) && IsSimple(l') && IsSimple(r) && IsSimple(r')
    ensures Below(ApplyBinary(l, op, r), ApplyBinary(l', op, r'))
    ensures IsSimple(ApplyBinary(l, op, r)) && IsSimple(ApplyBinary(l', op, r'))
  {
    UnwrapMonotone(l, l');
    UnwrapMonotone(r, r');
    TritMonotone(Unwrap(l), Unwrap(l'));
    TritMonotone(Unwrap(r), Unwrap(r'));
    if op == Kra {
      KraMonotone(l, l', r, r');
    } else {
      LogicValue(l, op, r);
      LogicValue(l', op, r');
      hide ApplyBinary, Trit, Below, Unwrap, IsSimple;
      LogicMonotone(op, Trit(Unwrap(l)), Trit(Unwrap(l')), Trit(Unwrap(r)), Trit(Unwrap(r')));
    }
  }

  lemma LogicMonotone(op: BinaryOp, a: Option<bool>, a': Option<bool>, b: Option<bool>, b': Option<bool>)
    requires (a.None? || a == a') && (b.None? || b == b')
    ensures Below(FromTrit(Logic(op, a, b)), FromTrit(Logic(op, a', b')))
    ensures IsSimple(FromTrit(Logic(op, a, b))) && IsSimple(FromTrit(Logic(op, a', b')))
  {
  }

  function Logic(op: BinaryOp, a: Option<bool>, b: Option<bool>): Option<bool> {
    if op == An then And(a, b) else Or(a, b)
  }

  lemma LogicValue(l: Val, op: BinaryOp, r: Val)
    requires IsSimple(l) && IsSimple(r) && op != Kra
    ensures ApplyBinary(l, op, r) == FromTrit(Logic(op, Trit(Unwrap(l)), Trit(Unwrap(r))))
  {
  }

  lemma {:induction false} KraMonotone(l: Val, l': Val, r: Val, r': Val)
    requires Below(l, l') && Below(r, r')
    requires IsSimple(l) && IsSimple(l') && IsSimple(r) && IsSimple(r')
    requires Trit(Unwrap(l)).None? || Trit(Unwrap(l)) == Trit(Unwrap(l'))
    ensures Below(ApplyBinary(l, Kra, r), ApplyBinary(l', Kra, r'))
    ensures IsSimple(ApplyBinary(l, Kra, r)) && IsSimple(ApplyBinary(l', Kra, r'))
  {
    UnwrapMonotone(r, r');
    UnwrapSimple(r);
    UnwrapSimple(r');
    KraValue(l, r);
    KraValue(l', r');
    DefinedAbove(r, r');
    hide ApplyBinary, Unwrap, IsScalar, Below, Trit;
  }

  lemma UnwrapSimple(v: Val)
    requires IsSimple(v)
    ensures IsSimple(Unwrap(v))
  {
    if v.Literal? {
      OneIsSimple(v.value);
    }
  }

  predicate IsBlank(v: Val) {
    v.Undef? || v.UndefObj?
  }

  lemma DefinedAbove(v: Val, w: Val)
    requires Below(v, w) && IsSimple(v)
    ensures !IsBlank(v) ==> !IsBlank(w)
    ensures Below(Undef, Unwrap(w))
  {
  }

  lemma KraValue(l: Val, r: Val)
    requires IsSimple(l) && IsSimple(r)
    ensures ApplyBinary(l, Kra, r) == if Trit(Unwrap(l)) == Some(true) && !IsBlank(r) then Unwrap(r) else Undef
    ensures IsSimple(Undef) && Below(Undef, Undef)
  {
  }

  lemma ItemMonotone(v: Val, w: Val)
    requires Below(v, w) && IsSimple(v) && IsSimple(w)
    ensures IsSingle(v) && IsSingle(w) && Below(Item(v), Item(w))
    ensures IsSimple(Item(v)) && IsSimple(Item(w))
  {
  }

  /** A value over a context, and its counterpart over one that grounds more. */
  ghost predicate Matches(v: Val, w: Val, ctx: Ctx, more: Ctx) {
    Below(v, w) && Sourced(v, ctx) && Sourced(w, more)
  }

  ghost predicate AreSimple(ctx: Ctx, more: Ctx) {
    !ctx.strict && !more.strict && SimpleAnswers(ctx) && SimpleAnswers(more)
  }

  lemma LiteralMatches(key: string, ctx: Ctx, more: Ctx)
    requires AreSimple(ctx, more) && KeepsLookups(ctx, more)
    ensures Matches(EvalLiteral(key, ctx), EvalLiteral(key, more), ctx, more)
  {
    LiteralForm(key, ctx);
    LiteralForm(key, more);
    hide EvalLiteral, IsAnswer;
  }

  lemma LiteralForm(key: string, ctx: Ctx)
    requires !ctx.strict
    ensures EvalLiteral(key, ctx).UndefObj? || (EvalLiteral(key, ctx).Literal? && EvalLiteral(key, ctx).key == key)
  {
  }

  lemma ShiLiteralMatches(key: string, ctx: Ctx, more: Ctx)
    requires KeepsLookups(ctx, more)
    ensures Matches(ShiAnswer(key, ctx), ShiAnswer(key, more), ctx, more)
  {
    assert IsAnswer(ShiAnswer(key, ctx), ctx, 0) && IsAnswer(ShiAnswer(key, more), more, 0);
  }

  lemma ShiMatches(v: Val, w: Val, ctx: Ctx, more: Ctx)
    requires AreSimple(ctx, more) && KeepsLookups(ctx, more) && Matches(v, w, ctx, more)
    ensures Matches(ApplyShi(v, None, ctx), ApplyShi(w, None, more), ctx, more)
  {
    ShiIsSourced(v, ctx);
    ShiIsSourced(w, more);
    SourcedIsSimple(v, ctx);
    if v.Literal? {
      assert ApplyShi(v, None, ctx) == ShiAnswer(v.key, ctx);
      assert w == v && ApplyShi(w, None, more) == ShiAnswer(v.key, more);
    } else if v.Text? {
      hide ApplyShi;
      var n :| IsAnswer(v, ctx, n);
    } else {
      assert ApplyShi(v, None, ctx) == Undef;
    }
  }

  lemma ShiIsSourced(v: Val, ctx: Ctx)
    requires Sourced(v, ctx)
    ensures Sourced(ApplyShi(v, None, ctx), ctx)
  {
    if v.Literal? && v == EvalLiteral(v.key, ctx) {
      assert ApplyShi(v, None, ctx) == ShiAnswer(v.key, ctx);
      assert IsAnswer(ShiAnswer(v.key, ctx), ctx, 0);
    } else if n: nat :| IsAnswer(v, ctx, n) {
      assert Follows(ApplyShi(v, None, ctx), v, ctx);
      assert IsAnswer(ApplyShi(v, None, ctx), ctx, n + 1);
    } else {
      assert ApplyShi(v, None, ctx) == Undef;
    }
  }

  lemma NaiMatches(v: Val, w: Val, ctx: Ctx, more: Ctx)
    requires Below(v, w)
    ensures Matches(ApplyNai(v), ApplyNai(w), ctx, more)
  {
    if !IsUndef(v) {
      TritMonotone(v, w);
    }
  }

  lemma NoErrorSourced(v: Val, ctx: Ctx)
    requires Sourced(v, ctx) && SimpleAnswers(ctx)
    ensures !v.Error? && !v.Raised?
  {
    SourcedIsSimple(v, ctx);
  }

  lemma {:induction false} UnaryMatches(ops: seq<UnaryOp>, v: Val, w: Val, ctx: Ctx, more: Ctx)
    requires AreSimple(ctx, more) && KeepsLookups(ctx, more) && Matches(v, w, ctx, more)
    ensures Matches(ApplyUnary(ops, v, None, ctx), ApplyUnary(ops, w, None, more), ctx, more)
    decreases |ops|
  {
    if ops != [] {
      ShiMatches(v, w, ctx, more);
      NaiMatches(v, w, ctx, more);
      var shi := ops[|ops| - 1] == Shi;
      var v' := if shi then ApplyShi(v, None, ctx) else ApplyNai(v);
      var w' := if shi then ApplyShi(w, None, more) else ApplyNai(w);
      NoErrorSourced(v', ctx);
      NoErrorSourced(w', more);
      hide ApplyShi, ApplyNai, KeepsLookups, SimpleAnswers, Below, Sourced;
      UnaryMatches(ops[..|ops| - 1], v', w', ctx, more);
    }
  }

  /** The innermost operator of a chain written directly on a literal knows the literal's name. */
  lemma UnaryOnLiteral(ops: seq<UnaryOp>, key: string, ctx: Ctx, more: Ctx)
    requires AreSimple(ctx, more) && KeepsLookups(ctx, more)
    ensures Matches(Eval(Unary(ops, Lit(key)), ctx), Eval(Unary(ops, Lit(key)), more), ctx, more)
  {
    var at := Some("@" + key);
    var v, w := EvalLiteral(key, ctx), EvalLiteral(key, more);
    LiteralMatches(key, ctx, more);
    NoErrorSourced(v, ctx);
    NoErrorSourced(w, more);
    assert Eval(Unary(ops, Lit(key)), ctx) == ApplyUnary(ops, v, at, ctx);
    assert Eval(Unary(ops, Lit(key)), more) == ApplyUnary(ops, w, at, more);
    hide Eval;
    if ops != [] {
      ShiLiteralMatches(key, ctx, more);
      NaiMatches(v, w, ctx, more);
      var shi := ops[|ops| - 1] == Shi;
      var v' := if shi then ApplyShi(v, at, ctx) else ApplyNai(v);
      var w' := if shi then ApplyShi(w, at, more) else ApplyNai(w);
      NoErrorSourced(v', ctx);
      NoErrorSourced(w', more);
      hide ApplyShi, ApplyNai, EvalLiteral, KeepsLookups, SimpleAnswers, Below, Sourced;
      UnaryMatches(ops[..|ops| - 1], v', w', ctx, more);
    }
  }

  lemma BinaryMatches(l: Val, l': Val, op: BinaryOp, r: Val, r': Val, ctx: Ctx, more: Ctx)
    requires AreSimple(ctx, more) && Matches(l, l', ctx, more) && Matches(r, r', ctx, more)
    ensures Matches(ApplyBinary(l, op, r), ApplyBinary(l', op, r'), ctx, more)
  {
    SourcedIsSimple(l, ctx);
    SourcedIsSimple(l', more);
    SourcedIsSimple(r, ctx);
    SourcedIsSimple(r', more);
    BinaryMonotone(l, l', op, r, r');
    BinaryIsSourced(l, op, r, ctx);
    BinaryIsSourced(l', op, r', more);
    hide ApplyBinary, Sourced, Below, IsSimple;
  }

  lemma BinaryIsSourced(l: Val, op: BinaryOp, r: Val, ctx: Ctx)
    requires IsSimple(l) && Sourced(r, ctx) && SimpleAnswers(ctx)
    ensures Sourced(ApplyBinary(l, op, r), ctx)
  {
    SourcedIsSimple(r, ctx);
    if op == Kra {
      KraValue(l, r);
      forall n: nat | IsAnswer(r, ctx, n) ensures !r.Literal? {
        OneIsSimple(r);
      }
      if r.Literal? && r == EvalLiteral(r.key, ctx) {
        assert IsAnswer(r.value, ctx, 0);
      }
    } else {
      LogicValue(l, op, r);
    }
  }

  // ----- Whole expressions -----

  /** A context that keeps every answered lookup only turns undefined into defined, whatever the expression. */
  lemma {:induction false} GroundingIsMonotone(e: Expr, ctx: Ctx, more: Ctx)
    requires InFragment(e) && AreSimple(ctx, more) && KeepsLookups(ctx, more)
    ensures Below(Eval(e, ctx), Eval(e, more))
    ensures Sourced(Eval(e, ctx), ctx) && Sourced(Eval(e, more), more)
    decreases e, 1
  {
    match e
    case Lit(key) =>
      LiteralMatches(key, ctx, more);
    case Unary(ops, operand) =>
      if operand.Lit? {
        UnaryOnLiteral(ops, operand.key, ctx, more);
      } else {
        GroundingIsMonotone(operand, ctx, more);
        NoErrorSourced(Eval(operand, ctx), ctx);
        NoErrorSourced(Eval(operand, more), more);
        UnaryMatches(ops, Eval(operand, ctx), Eval(operand, more), ctx, more);
        hide ApplyUnary, Below, Sourced;
      }
    case Paren(inner) =>
      GroundingIsMonotone(inner, ctx, more);
    case Conj(first, rest) =>
      hide Eval;
      GroundingIsMonotone(first, ctx, more);
      forall i | 0 <= i < |rest| ensures Operand(rest[i].e, ctx, more) {
        assert rest[i].e < rest[i];
        GroundingIsMonotone(rest[i].e, ctx, more);
        ItemMatches(Eval(rest[i].e, ctx), Eval(rest[i].e, more), ctx, more);
      }
      ConjMatches(first, rest, ctx, more);
    case Disj(left, others) =>
      hide Eval;
      GroundingIsMonotone(left, ctx, more);
      forall i | 0 <= i < |others| ensures Operand(others[i], ctx, more) {
        GroundingIsMonotone(others[i], ctx, more);
        ItemMatches(Eval(others[i], ctx), Eval(others[i], more), ctx, more);
      }
      DisjMatches(left, others, ctx, more);
    case Khi(cond, body) =>
      GroundingIsMonotone(cond, ctx, more);
      GroundingIsMonotone(body, ctx, more);
      KhiMatches(cond, body, ctx, more);
    case _ =>
  }

  lemma KhiMatches(cond: Expr, body: Expr, ctx: Ctx, more: Ctx)
    requires AreSimple(ctx, more)
    requires Matches(Eval(cond, ctx), Eval(cond, more), ctx, more) &&
      Matches(Eval(body, ctx), Eval(body, more), ctx, more)
    ensures Matches(Eval(Khi(cond, body), ctx), Eval(Khi(cond, body), more), ctx, more)
  {
    var c, c', b, b' := Eval(cond, ctx), Eval(cond, more), Eval(body, ctx), Eval(body, more);
    TritMonotone(c, c');
    NoErrorSourced(c, ctx);
    NoErrorSourced(c', more);
    NoErrorSourced(b, ctx);
    NoErrorSourced(b', more);
    GuardedInPart(c, b, ctx);
    GuardedInPart(c', b', more);
    assert Eval(Khi(cond, body), ctx) == GuardedOf(c, b, ctx) && Eval(Khi(cond, body), more) == GuardedOf(c', b', more);
    hide Eval, GuardedOf, Trit, IsAnswer, SimpleAnswers;
  }

  lemma GuardedInPart(c: Val, b: Val, ctx: Ctx)
    requires !ctx.strict && Sourced(b, ctx) && SimpleAnswers(ctx)
    ensures GuardedOf(c, b, ctx) == if Trit(c) == Some(true) then List([b]) else Undef
  {
    SourcedIsSimple(b, ctx);
    assert b != Text("sek") by { assert IsKeyword(Text("sek")); }
  }

  lemma ItemMatches(v: Val, w: Val, ctx: Ctx, more: Ctx)
    requires AreSimple(ctx, more) && Matches(v, w, ctx, more)
    ensures IsSingle(v) && IsSingle(w) && Matches(Item(v), Item(w), ctx, more)
    ensures !Item(v).Raised? && !Item(w).Raised?
  {
    SourcedItem(v, ctx);
    SourcedItem(w, more);
    SourcedIsSimple(v, ctx);
    SourcedIsSimple(w, more);
    ItemMonotone(v, w);
    NoErrorSourced(Item(v), ctx);
    NoErrorSourced(Item(w), more);
    hide Sourced, IsSimple;
  }

  /** An operand that contributes one item to either evaluation, in order. */
  ghost predicate Operand(e: Expr, ctx: Ctx, more: Ctx) {
    var v, w := Eval(e, ctx), Eval(e, more);
    IsSingle(v) && IsSingle(w) && Matches(Item(v), Item(w), ctx, more) && !Item(v).Raised? && !Item(w).Raised?
  }

  lemma ConjMatches(first: Expr, rest: seq<Term>, ctx: Ctx, more: Ctx)
    requires forall i :: 0 <= i < |rest| ==> rest[i].Op? && Operand(rest[i].e, ctx, more)
    requires AreSimple(ctx, more) && Matches(Eval(first, ctx), Eval(first, more), ctx, more)
    ensures Matches(Eval(Conj(first, rest), ctx), Eval(Conj(first, rest), more), ctx, more)
  {
    if rest == [] {
      LoneOperand(first, ctx);
      LoneOperand(first, more);
    } else {
      var v, w := Eval(first, ctx), Eval(first, more);
      ItemMatches(v, w, ctx, more);
      OperandsArePlain(rest, ctx, more);
      hide Eval, Matches;
      ConjValue(first, rest, ctx);
      ConjValue(first, rest, more);
      FoldMatches(Item(v), Item(w), rest, ctx, more);
    }
  }

  lemma LoneOperand(e: Expr, ctx: Ctx)
    ensures Eval(Conj(e, []), ctx) == Eval(Disj(e, []), ctx) == Eval(e, ctx)
  {
  }

  lemma OperandsArePlain(rest: seq<Term>, ctx: Ctx, more: Ctx)
    requires forall i :: 0 <= i < |rest| ==> rest[i].Op? && Operand(rest[i].e, ctx, more)
    ensures ArePlain(rest, ctx) && ArePlain(rest, more)
    ensures forall i :: 0 <= i < |rest| ==> !Item(Eval(rest[i].e, ctx)).Raised? && !Item(Eval(rest[i].e, more)).Raised?
  {
    hide Matches, Eval;
    forall i | 0 <= i < |rest|
      ensures IsSingle(Eval(rest[i].e, ctx)) && !Item(Eval(rest[i].e, ctx)).Raised?
      ensures IsSingle(Eval(rest[i].e, more)) && !Item(Eval(rest[i].e, more)).Raised?
    {
      assert Operand(rest[i].e, ctx, more);
    }
  }

  lemma ConjValue(first: Expr, rest: seq<Term>, ctx: Ctx)
    requires IsPlainChain(first, rest, ctx) && rest != [] && !Item(Eval(first, ctx)).Raised?
    requires forall i :: 0 <= i < |rest| ==> !Item(Eval(rest[i].e, ctx)).Raised?
    ensures Eval(Conj(first, rest), ctx) == FoldChain(Item(Eval(first, ctx)), rest, ctx)
  {
    PlainConj(first, rest, ctx);
    NoneRaised(rest, ctx);
    PlainTokens(Eval(first, ctx), Tokens(rest, ctx));
  }

  lemma {:induction false} FoldMatches(v: Val, w: Val, rest: seq<Term>, ctx: Ctx, more: Ctx)
    requires ArePlain(rest, ctx) && ArePlain(rest, more) && AreSimple(ctx, more)
    requires forall i :: 0 <= i < |rest| ==> Operand(rest[i].e, ctx, more)
    requires Matches(v, w, ctx, more)
    ensures Matches(FoldChain(v, rest, ctx), FoldChain(w, rest, more), ctx, more)
    decreases |rest|
  {
    if rest != [] {
      assert Operand(rest[0].e, ctx, more);
      var r, r' := Item(Eval(rest[0].e, ctx)), Item(Eval(rest[0].e, more));
      hide Matches, Eval, SimpleAnswers, ApplyBinary;
      BinaryMatches(v, w, rest[0].op, r, r', ctx, more);
      FoldMatches(ApplyBinary(v, rest[0].op, r), ApplyBinary(w, rest[0].op, r'), rest[1..], ctx, more);
    }
  }

  lemma DisjMatches(left: Expr, others: seq<Expr>, ctx: Ctx, more: Ctx)
    requires forall i :: 0 <= i < |others| ==> Operand(others[i], ctx, more)
    requires AreSimple(ctx, more) && Matches(Eval(left, ctx), Eval(left, more), ctx, more)
    ensures Matches(Eval(Disj(left, others), ctx), Eval(Disj(left, others), more), ctx, more)
  {
    if others == [] {
      LoneOperand(left, ctx);
      LoneOperand(left, more);
    } else {
      var v, w := Eval(left, ctx), Eval(left, more);
      ItemMatches(v, w, ctx, more);
      OperandsAreSingle(others, ctx, more);
      hide Eval, Matches, AreSingle;
      PlainDisj(left, others, ctx);
      PlainDisj(left, others, more);
      FoldAnyMatches(Item(v), Item(w), others, ctx, more);
    }
  }

  lemma OperandsAreSingle(others: seq<Expr>, ctx: Ctx, more: Ctx)
    requires forall i :: 0 <= i < |others| ==> Operand(others[i], ctx, more)
    ensures AreSingle(others, ctx) && AreSingle(others, more)
  {
    hide Matches, Eval;
    forall i | 0 <= i < |others|
      ensures IsSingle(Eval(others[i], ctx)) && !Item(Eval(others[i], ctx)).Raised?
      ensures IsSingle(Eval(others[i], more)) && !Item(Eval(others[i], more)).Raised?
    {
      assert Operand(others[i], ctx, more);
    }
  }

  lemma {:induction false} FoldAnyMatches(v: Val, w: Val, others: seq<Expr>, ctx: Ctx, more: Ctx)
    requires AreSingle(others, ctx) && AreSingle(others, more) && AreSimple(ctx, more)
    requires forall i :: 0 <= i < |others| ==> Operand(others[i], ctx, more)
    requires Matches(v, w, ctx, more)
    ensures Matches(FoldAny(v, others, ctx), FoldAny(w, others, more), ctx, more)
    decreases |others|
  {
    if others != [] {
      assert Operand(others[0], ctx, more);
      var r, r' := Item(Eval(others[0], ctx)), Item(Eval(others[0], more));
      hide Matches, Eval, SimpleAnswers, ApplyBinary;
      BinaryMatches(v, w, Ur, r, r', ctx, more);
      FoldAnyMatches(ApplyBinary(v, Ur, r), ApplyBinary(w, Ur, r'), others[1..], ctx, more);
    }
  }

  // ----- The condition is exact -----

  /** Scalars, and lists of them at any depth; in a list of none or several no item is read as an operator. */
  ghost predicate IsPlain(v: Val) {
    || IsScalar(v)
    || (v.List? && (forall i :: 0 <= i < |v.items| ==> IsPlain(v.items[i])) && (|v.items| == 1 || NamesNone(v.items)))
  }

  predicate NamesNone(items: seq<Val>) {
    forall i :: 0 <= i < |items| ==> AsConjOp(V(items[i])).None?
  }

  ghost predicate PlainAnswers(ctx: Ctx) {
    forall v, n :: IsAnswer(v, ctx, n) ==> IsPlain(v)
  }

  lemma {:induction false} OneIsPlain(v: Val)
    requires IsOne(v)
    ensures IsPlain(v)
  {
    if !IsScalar(v) {
      OneIsPlain(v.items[0]);
    }
  }

  /** An expression of the fragment whose value an answer is. */
  ghost function Asking(v: Val, ctx: Ctx, n: nat): (e: Expr)
    requires !ctx.strict && PlainAnswers(ctx) && IsAnswer(v, ctx, n)
    ensures InFragment(e) && (e.Unary? || e.Conj?)
    ensures Eval(e, ctx) == v
    decreases n
  {
    if n == 0 then
      var key :| v == ShiAnswer(key, ctx) || EvalLiteral(key, ctx) == Literal(key, v);
      if v == ShiAnswer(key, ctx) then
        ShiIsAnswer(key, ctx);
        Unary([Shi], Lit(key))
      else
        ValueIsAnswer(key, v, ctx);
        Conj(Const(true), [Op(Kra, Lit(key))])
    else
      var u :| Follows(v, u, ctx) && IsAnswer(u, ctx, n - 1);
      var inner := Asking(u, ctx, n - 1);
      if v == ApplyShi(u, None, ctx) then
        AskedAgain(inner, ctx);
        Unary([Shi], Paren(inner))
      else
        assert IsPlain(u) && IsPlain(u.items[0]);
        ItemIsAnswer(inner, v, ctx);
        Conj(Const(true), [Op(Kra, Paren(inner))])
  }

  lemma ShiIsAnswer(key: string, ctx: Ctx)
    requires !ctx.strict
    ensures Eval(Unary([Shi], Lit(key)), ctx) == ShiAnswer(key, ctx)
  {
    LiteralForm(key, ctx);
    assert [Shi][..0] == [];
  }

  lemma BehindTrue(e: Expr, ctx: Ctx)
    requires IsSingle(Eval(e, ctx)) && !Item(Eval(e, ctx)).Raised?
    ensures Eval(Conj(Const(true), [Op(Kra, e)]), ctx) == ApplyBinary(Truth(true), Kra, Item(Eval(e, ctx)))
  {
    var rest: seq<Term> := [Op(Kra, e)];
    assert rest[1..] == [];
    ConjValue(Const(true), rest, ctx);
    assert FoldChain(Truth(true), rest, ctx) == ApplyBinary(Truth(true), Kra, Item(Eval(e, ctx)));
  }

  lemma ValueIsAnswer(key: string, v: Val, ctx: Ctx)
    requires !ctx.strict && EvalLiteral(key, ctx) == Literal(key, v)
    ensures Eval(Conj(Const(true), [Op(Kra, Lit(key))]), ctx) == v
  {
    assert Eval(Lit(key), ctx) == Literal(key, v);
    BehindTrue(Lit(key), ctx);
  }

  lemma ItemIsAnswer(e: Expr, v: Val, ctx: Ctx)
    requires Eval(e, ctx) == List([v]) && IsPlain(v)
    ensures Eval(Conj(Const(true), [Op(Kra, Paren(e))]), ctx) == v
  {
    assert Eval(Paren(e), ctx) == List([v]);
    BehindTrue(Paren(e), ctx);
    PlainStays(v);
    hide Eval, ApplyBinary;
  }

  lemma PlainStays(v: Val)
    requires IsPlain(v)
    ensures ApplyBinary(Truth(true), Kra, v) == v && !v.Raised? && !v.Error?
  {
  }

  lemma AskedAgain(e: Expr, ctx: Ctx)
    requires !ctx.strict && !Eval(e, ctx).Raised?
    ensures Eval(Unary([Shi], Paren(e)), ctx) == ApplyShi(Eval(e, ctx), None, ctx)
  {
    assert [Shi][..0] == [];
    assert Eval(Paren(e), ctx) == Eval(e, ctx);
  }

  /** Every expression of the fragment keeps what it decided. */
  ghost predicate IsMonotone(ctx: Ctx, more: Ctx) {
    forall e :: InFragment(e) ==> Below(Eval(e, ctx), Eval(e, more))
  }

  /**
   * Grounding more keeps what every expression decided exactly when it keeps every lookup that was answered, and
   * answers none with a list of none or of several items.
   */
  lemma MonotoneExactly(ctx: Ctx, more: Ctx)
    requires !ctx.strict && !more.strict && SimpleAnswers(ctx) && PlainAnswers(more)
    ensures IsMonotone(ctx, more) <==> KeepsLookups(ctx, more) && SimpleAnswers(more)
  {
    if KeepsLookups(ctx, more) && SimpleAnswers(more) {
      forall e | InFragment(e) ensures Below(Eval(e, ctx), Eval(e, more)) {
        GroundingIsMonotone(e, ctx, more);
      }
    }
    if IsMonotone(ctx, more) {
      forall v, n: nat | IsAnswer(v, more, n) ensures IsOne(v) {
        AnswerIsOne(v, n, ctx, more);
      }
      MonotoneKeeps(ctx, more);
    }
  }

  lemma MonotoneKeeps(ctx: Ctx, more: Ctx)
    requires AreSimple(ctx, more) && IsMonotone(ctx, more)
    ensures KeepsLookups(ctx, more)
  {
    forall key | EvalLiteral(key, ctx).Literal? ensures EvalLiteral(key, more) == EvalLiteral(key, ctx) {
      assert Below(Eval(Lit(key), ctx), Eval(Lit(key), more));
    }
    forall key ensures Below(ShiAnswer(key, ctx), ShiAnswer(key, more)) {
      ShiIsAnswer(key, ctx);
      ShiIsAnswer(key, more);
      assert InFragment(Unary([Shi], Lit(key)));
    }
    forall v, n: nat | IsAnswer(v, ctx, n) ensures Below(ApplyShi(v, None, ctx), ApplyShi(v, None, more)) {
      AnswerIsAsked(v, n, ctx, more);
    }
  }

  lemma AnswerIsAsked(v: Val, n: nat, ctx: Ctx, more: Ctx)
    requires AreSimple(ctx, more) && IsMonotone(ctx, more) && IsAnswer(v, ctx, n)
    ensures Below(ApplyShi(v, None, ctx), ApplyShi(v, None, more))
  {
    SimpleIsPlain(ctx);
    if v.Text? {
      var e := Asking(v, ctx, n);
      assert Below(Eval(e, ctx), Eval(e, more));
      assert Eval(e, more) == v;
      AskedAgain(e, ctx);
      AskedAgain(e, more);
      assert InFragment(Unary([Shi], Paren(e)));
      hide ApplyShi, Eval;
    } else {
      assert IsOne(v);
      OneIsSimple(v);
      assert ApplyShi(v, None, ctx) == Undef;
    }
  }

  lemma SimpleIsPlain(ctx: Ctx)
    requires SimpleAnswers(ctx)
    ensures PlainAnswers(ctx)
  {
    forall v, n: nat | IsAnswer(v, ctx, n) ensures IsPlain(v) {
      OneIsPlain(v);
    }
  }

  lemma {:induction false} AnswerIsOne(v: Val, n: nat, ctx: Ctx, more: Ctx)
    requires !ctx.strict && !more.strict && SimpleAnswers(ctx) && PlainAnswers(more)
    requires IsMonotone(ctx, more) && IsAnswer(v, more, n)
    ensures IsOne(v)
    decreases v
  {
    assert IsPlain(v);
    if v.List? {
      ListAnswerIsOne(v, n, ctx, more);
      assert v == List([v.items[0]]);
      ItemOfAnswer(v.items[0], more, n);
      AnswerIsOne(v.items[0], n + 1, ctx, more);
    }
  }

  /** A list the larger context answers with, and false before it: only a list of one leaves the false alone. */
  lemma ListAnswerIsOne(v: Val, n: nat, ctx: Ctx, more: Ctx)
    requires !ctx.strict && !more.strict && SimpleAnswers(ctx) && PlainAnswers(more)
    requires IsMonotone(ctx, more) && IsAnswer(v, more, n) && v.List?
    ensures |v.items| == 1
  {
    var e := Asking(v, more, n);
    KeepsItself(ctx);
    GroundingIsMonotone(e, ctx, ctx);
    SourcedIsSimple(Eval(e, ctx), ctx);
    assert Below(Eval(e, ctx), v);
    var f := Conj(Const(false), [Op(An, e)]);
    assert InFragment(f);
    assert Below(Eval(f, ctx), Eval(f, more));
    assert IsPlain(v);
    FalseAnList(e, v.items, more);
    if Eval(e, ctx).Undef? || Eval(e, ctx).UndefObj? {
      FalseAnUndefined(e, ctx);
    }
    hide Eval, IsAnswer;
  }

  lemma KeepsItself(ctx: Ctx)
    ensures KeepsLookups(ctx, ctx)
  {
  }

  lemma FalseAnUndefined(e: Expr, ctx: Ctx)
    requires Eval(e, ctx).Undef? || Eval(e, ctx).UndefObj?
    ensures Eval(Conj(Const(false), [Op(An, e)]), ctx) == Truth(false)
  {
    var rest: seq<Term> := [Op(An, e)];
    assert rest[1..] == [];
    ConjValue(Const(false), rest, ctx);
    assert FoldChain(Truth(false), rest, ctx) == ApplyBinary(Truth(false), An, Eval(e, ctx));
  }

  /** `false an e` over a list is false exactly when the list has one item. */
  lemma FalseAnList(e: Expr, items: seq<Val>, ctx: Ctx)
    requires Eval(e, ctx) == List(items) && IsPlain(List(items))
    ensures Eval(Conj(Const(false), [Op(An, e)]), ctx) == Truth(false) <==> |items| == 1
  {
    var rest: seq<Term> := [Op(An, e)];
    var tail := [O(An)] + Spread(List(items));
    assert rest[1..] == [] && Tokens(rest, ctx) == tail;
    var flat := [V(Truth(false))] + tail;
    forall i | 0 <= i < |items| ensures !items[i].Raised? && !items[i].Error? {
      PlainStays(items[i]);
    }
    assert V(Raised) !in flat;
    assert Eval(Conj(Const(false), rest), ctx) == ConjOf(flat) by { PlainTokens(Truth(false), tail); }
    assert flat[1..] == tail;
    hide Eval, Tokens;
    FalseAnTokens(items);
  }

  lemma FalseAnTokens(items: seq<Val>)
    requires forall i :: 0 <= i < |items| ==> !items[i].Error?
    requires |items| == 1 || NamesNone(items)
    ensures FoldConj(Truth(false), [O(An)] + Spread(List(items))) == Truth(false) <==> |items| == 1
  {
    var tail := [O(An)] + Spread(List(items));
    if items != [] {
      assert tail[0] == O(An) && tail[1] == V(items[0]) && tail[2..] == Spread(List(items[1..]));
      assert ApplyBinary(Truth(false), An, items[0]) == Truth(false);
      if |items| > 1 {
        JoinedIsList(Truth(false), items[1..]);
      }
    }
  }

  lemma {:induction false} JoinedIsList(v: Val, items: seq<Val>)
    requires NamesNone(items) && (items != [] || v.List?)
    ensures FoldConj(v, Spread(List(items))).List?
    decreases |items|
  {
    if items != [] {
      var tokens := Spread(List(items));
      assert tokens[0] == V(items[0]) && tokens[1..] == Spread(List(items[1..]));
      JoinedIsList(Join(v, items[0]), items[1..]);
    }
  }

  // ----- One spelling per key is enough -----

  /** No key is stored under two spellings. */
  ghost predicate NoAlias(m: map<string, Val>) {
    forall k :: k in m ==> "@" + k !in m
  }

  /** Scalar entries, one spelling per key, and no knowledge key with two leading @. */
  ghost predicate IsClean(ctx: Ctx) {
    var l, k := Entries(ctx.literals), Entries(ctx.knowledge);
    && !ctx.strict
    && (forall x :: x in l ==> IsScalar(l[x])) && NoAlias(l)
    && (forall x :: x in k ==> IsScalar(k[x])) && NoAlias(k)
    && (forall x :: "@" + ("@" + x) !in k)
  }

  ghost predicate Contains(small: map<string, Val>, large: map<string, Val>) {
    forall k :: k in small ==> k in large && large[k] == small[k]
  }

  /** Literals or knowledge were added, no entry changed. */
  ghost predicate Extends(ctx: Ctx, more: Ctx) {
    && ctx.strict == more.strict
    && Contains(Entries(ctx.literals), Entries(more.literals))
    && Contains(Entries(ctx.knowledge), Entries(more.knowledge))
    && (ctx.knowledge.Some? ==> more.knowledge.Some?)
  }

  /** A lookup that succeeds succeeds the same with more entries, as long as no key has two spellings. */
  lemma KnownMonotone(m: map<string, Val>, more: map<string, Val>, key: string)
    requires Contains(m, more) && NoAlias(more) && Known(m, key).Some?
    ensures Known(more, key) == Known(m, key)
  {
  }

  lemma LiteralMonotone(key: string, ctx: Ctx, more: Ctx)
    requires IsClean(more) && Extends(ctx, more)
    ensures EvalLiteral(key, ctx).Literal? ==> EvalLiteral(key, more) == EvalLiteral(key, ctx)
  {
    var l, l' := Entries(ctx.literals), Entries(more.literals);
    assert key in l' ==> "@" + key !in l';
  }

  lemma ShiLiteralMonotone(key: string, ctx: Ctx, more: Ctx)
    requires IsClean(more) && Extends(ctx, more)
    ensures Below(ShiAnswer(key, ctx), ShiAnswer(key, more))
  {
    LiteralMonotone(key, ctx, more);
    LiteralForm(key, ctx);
    LiteralForm(key, more);
    var k, k' := Entries(ctx.knowledge), Entries(more.knowledge);
    if EvalLiteral(key, ctx).Literal? {
      if Known(k, key).Some? { KnownMonotone(k, k', key); }
    } else if Known(k, "@" + key).Some? {
      assert "@" + ("@" + key) !in k';
      assert "@" + key in k;
      KnownMonotone(k, k', "@" + key);
      assert key in k' ==> "@" + key !in k';
    }
  }

  lemma {:induction false} CleanAnswers(v: Val, ctx: Ctx, n: nat)
    requires IsClean(ctx) && IsAnswer(v, ctx, n)
    ensures IsScalar(v)
    decreases n
  {
    var k := Entries(ctx.knowledge);
    if n == 0 {
      var key :| v == ShiAnswer(key, ctx) || EvalLiteral(key, ctx) == Literal(key, v);
    } else {
      var u :| Follows(v, u, ctx) && IsAnswer(u, ctx, n - 1);
      CleanAnswers(u, ctx, n - 1);
    }
  }

  lemma CleanBelow(ctx: Ctx, more: Ctx)
    requires IsClean(more) && Extends(ctx, more)
    ensures IsClean(ctx)
  {
    var l, k := Entries(ctx.literals), Entries(ctx.knowledge);
    var l', k' := Entries(more.literals), Entries(more.knowledge);
    forall x | x in l ensures IsScalar(l[x]) && "@" + x !in l { assert l'[x] == l[x]; }
    forall x | x in k ensures IsScalar(k[x]) && "@" + x !in k { assert k'[x] == k[x]; }
  }

  /** Adding scalar literals or knowledge, no key under two spellings, keeps every answered lookup. */
  lemma CleanExtensionKeeps(ctx: Ctx, more: Ctx)
    requires IsClean(more) && Extends(ctx, more)
    ensures AreSimple(ctx, more) && KeepsLookups(ctx, more)
  {
    CleanBelow(ctx, more);
    forall v, n: nat | IsAnswer(v, ctx, n)
      ensures IsScalar(v) && Below(ApplyShi(v, None, ctx), ApplyShi(v, None, more))
    {
      CleanAnswers(v, ctx, n);
      CleanShiMonotone(v, ctx, more);
    }
    forall v, n: nat | IsAnswer(v, more, n) ensures IsScalar(v) {
      CleanAnswers(v, more, n);
    }
    forall key ensures EvalLiteral(key, ctx).Literal? ==> EvalLiteral(key, more) == EvalLiteral(key, ctx) {
      LiteralMonotone(key, ctx, more);
    }
    forall key ensures Below(ShiAnswer(key, ctx), ShiAnswer(key, more)) {
      ShiLiteralMonotone(key, ctx, more);
    }
  }

  lemma CleanShiMonotone(v: Val, ctx: Ctx, more: Ctx)
    requires IsClean(more) && Extends(ctx, more) && IsScalar(v)
    ensures Below(ApplyShi(v, None, ctx), ApplyShi(v, None, more))
  {
    var k, k' := Entries(ctx.knowledge), Entries(more.knowledge);
    var key := ShiKey(v, None);
    if key.Some? && Known(k, key.value).Some? {
      KnownMonotone(k, k', key.value);
    }
  }

  // ----- Nothing grounded, nothing decided -----

  /** No literal under this key, and no knowledge under the spellings shi tries for it. */
  predicate IsUngrounded(key: string, ctx: Ctx) {
    && Get(Entries(ctx.literals), key) == NullVal
    && Get(Entries(ctx.literals), "@" + key) == NullVal
    && Known(Entries(ctx.knowledge), "@" + key).None?
  }

  /** No truth constant, and every literal ungrounded. */
  predicate IsGroundless(e: Expr, ctx: Ctx) {
    match e
    case UndefConst => true
    case Lit(key) => IsUngrounded(key, ctx)
    case Unary(_, operand) => IsGroundless(operand, ctx)
    case Paren(inner) => IsGroundless(inner, ctx)
    case Conj(first, rest) =>
      IsGroundless(first, ctx) && forall i :: 0 <= i < |rest| ==> rest[i].Op? && IsGroundless(rest[i].e, ctx)
    case Disj(left, more) => IsGroundless(left, ctx) && forall i :: 0 <= i < |more| ==> IsGroundless(more[i], ctx)
    case Khi(cond, body) => IsGroundless(cond, ctx) && IsGroundless(body, ctx)
    case _ => false
  }

  /** Undefined, in scopes perhaps; in strict mode also an error. */
  predicate IsVoid(v: Val, strict: bool) {
    v.Undef? || v.UndefObj? || (strict && v.Error?) || (v.List? && |v.items| == 1 && IsVoid(v.items[0], strict))
  }

  lemma {:induction false} VoidHasNoTruth(v: Val, strict: bool)
    requires IsVoid(v, strict)
    ensures Trit(v).None? && IsSingle(v) && IsVoid(Item(v), strict) && !Item(v).Raised?
  {
    if v.List? { VoidHasNoTruth(v.items[0], strict); }
  }

  lemma VoidBinary(l: Val, op: BinaryOp, r: Val, strict: bool)
    requires IsVoid(l, strict) && IsVoid(r, strict)
    ensures ApplyBinary(l, op, r) == if l.Error? then l else if r.Error? then r else Undef
    ensures IsVoid(ApplyBinary(l, op, r), strict)
  {
    VoidHasNoTruth(l, strict);
    VoidHasNoTruth(r, strict);
  }

  lemma {:induction false} VoidUnary(ops: seq<UnaryOp>, v: Val, sourceKey: Option<string>, ctx: Ctx)
    requires IsVoid(v, ctx.strict)
    requires sourceKey.Some? ==> Known(Entries(ctx.knowledge), sourceKey.value).None?
    ensures IsVoid(ApplyUnary(ops, v, sourceKey, ctx), ctx.strict)
    decreases |ops|
  {
    if ops != [] {
      VoidHasNoTruth(v, ctx.strict);
      VoidUnary(ops[..|ops| - 1], Undef, None, ctx);
    }
  }

  /**
   * Without truth constants, a context that grounds none of an expression's keys never makes it true or false, in
   * either mode; in partial mode it is undefined.
   */
  lemma GroundlessIsUndecided(e: Expr, ctx: Ctx)
    requires IsGroundless(e, ctx)
    ensures IsVoid(Eval(e, ctx), ctx.strict) && Trit(Eval(e, ctx)).None?
  {
    GroundlessIsVoid(e, ctx);
    VoidHasNoTruth(Eval(e, ctx), ctx.strict);
  }

  lemma {:induction false} GroundlessIsVoid(e: Expr, ctx: Ctx)
    requires IsGroundless(e, ctx)
    ensures IsVoid(Eval(e, ctx), ctx.strict)
  {
    match e
    case Unary(ops, operand) =>
      GroundlessIsVoid(operand, ctx);
      VoidUnary(ops, Eval(operand, ctx), if operand.Lit? then Some("@" + operand.key) else None, ctx);
    case Paren(inner) =>
      GroundlessIsVoid(inner, ctx);
    case Conj(first, rest) =>
      GroundlessIsVoid(first, ctx);
      if rest != [] {
        forall i | 0 <= i < |rest| ensures IsVoid(Eval(rest[i].e, ctx), ctx.strict) {
          assert rest[i].e < rest[i];
          GroundlessIsVoid(rest[i].e, ctx);
        }
        VoidConj(first, rest, ctx);
      }
    case Disj(left, more) =>
      GroundlessIsVoid(left, ctx);
      if more != [] {
        forall i | 0 <= i < |more| ensures IsVoid(Eval(more[i], ctx), ctx.strict) {
          GroundlessIsVoid(more[i], ctx);
        }
        VoidDisj(left, more, ctx);
      }
    case Khi(cond, body) =>
      GroundlessIsVoid(cond, ctx);
      GroundlessIsVoid(body, ctx);
      VoidGuard(cond, body, ctx);
    case _ =>
  }

  lemma VoidGuard(cond: Expr, body: Expr, ctx: Ctx)
    requires IsVoid(Eval(cond, ctx), ctx.strict) && IsVoid(Eval(body, ctx), ctx.strict)
    ensures IsVoid(Eval(Khi(cond, body), ctx), ctx.strict)
  {
    VoidHasNoTruth(Eval(cond, ctx), ctx.strict);
    hide Trit;
  }

  lemma VoidConj(first: Expr, rest: seq<Term>, ctx: Ctx)
    requires rest != [] && IsVoid(Eval(first, ctx), ctx.strict)
    requires forall i :: 0 <= i < |rest| ==> rest[i].Op? && IsVoid(Eval(rest[i].e, ctx), ctx.strict)
    ensures IsVoid(Eval(Conj(first, rest), ctx), ctx.strict)
  {
    VoidHasNoTruth(Eval(first, ctx), ctx.strict);
    forall i | 0 <= i < |rest| ensures IsSingle(Eval(rest[i].e, ctx)) && !Item(Eval(rest[i].e, ctx)).Raised? {
      VoidHasNoTruth(Eval(rest[i].e, ctx), ctx.strict);
    }
    ConjValue(first, rest, ctx);
    VoidFold(Item(Eval(first, ctx)), rest, ctx);
  }

  lemma {:induction false} VoidFold(v: Val, rest: seq<Term>, ctx: Ctx)
    requires ArePlain(rest, ctx) && IsVoid(v, ctx.strict)
    requires forall i :: 0 <= i < |rest| ==> IsVoid(Eval(rest[i].e, ctx), ctx.strict)
    ensures IsVoid(FoldChain(v, rest, ctx), ctx.strict)
    decreases |rest|
  {
    if rest != [] {
      VoidHasNoTruth(Eval(rest[0].e, ctx), ctx.strict);
      VoidBinary(v, rest[0].op, Item(Eval(rest[0].e, ctx)), ctx.strict);
      VoidFold(ApplyBinary(v, rest[0].op, Item(Eval(rest[0].e, ctx))), rest[1..], ctx);
    }
  }

  lemma VoidDisj(left: Expr, more: seq<Expr>, ctx: Ctx)
    requires more != [] && IsVoid(Eval(left, ctx), ctx.strict)
    requires forall i :: 0 <= i < |more| ==> IsVoid(Eval(more[i], ctx), ctx.strict)
    ensures IsVoid(Eval(Disj(left, more), ctx), ctx.strict)
  {
    VoidHasNoTruth(Eval(left, ctx), ctx.strict);
    forall i | 0 <= i < |more| ensures IsSingle(Eval(more[i], ctx)) && !Item(Eval(more[i], ctx)).Raised? {
      VoidHasNoTruth(Eval(more[i], ctx), ctx.strict);
    }
    PlainDisj(left, more, ctx);
    VoidAny(Item(Eval(left, ctx)), more, ctx);
  }

  lemma {:induction false} VoidAny(v: Val, more: seq<Expr>, ctx: Ctx)
    requires AreSingle(more, ctx) && IsVoid(v, ctx.strict)
    requires forall i :: 0 <= i < |more| ==> IsVoid(Eval(more[i], ctx), ctx.strict)
    ensures IsVoid(FoldAny(v, more, ctx), ctx.strict)
    decreases |more|
  {
    if more != [] {
      VoidHasNoTruth(Eval(more[0], ctx), ctx.strict);
      VoidBinary(v, Ur, Item(Eval(more[0], ctx)), ctx.strict);
      VoidAny(ApplyBinary(v, Ur, Item(Eval(more[0], ctx))), more[1..], ctx);
    }
  }

  // ----- How an addition can change an answer -----

  /**
   * Grounding a literal makes shi ask for its bare key first: an answer stored under the @ key
   * survives exactly when the bare key is not stored too with another value.
   */
  lemma GroundingSwitchesSpelling(key: string, v: Val, ctx: Ctx)
    requires !ctx.strict && ctx.knowledge.Some? && "@" + key in ctx.knowledge.value
    requires EvalLiteral(key, ctx).UndefObj? && v != NullVal
    ensures var more := ctx.(literals := Some(Entries(ctx.literals)[key := v]));
      var k := ctx.knowledge.value;
      Eval(Unary([Shi], Lit(key)), more) == Eval(Unary([Shi], Lit(key)), ctx) <==>
        (key in k ==> k[key] == k["@" + key])
  {
    var more := ctx.(literals := Some(Entries(ctx.literals)[key := v]));
    assert EvalLiteral(key, more) == Literal(key, v);
    ShiOnLiteral(key, ctx);
    ShiOnLiteral(key, more);
  }

  lemma ShiOnLiteral(key: string, ctx: Ctx)
    ensures var r := ApplyShi(EvalLiteral(key, ctx), Some("@" + key), ctx);
      !EvalLiteral(key, ctx).Raised? ==> Eval(Unary([Shi], Lit(key)), ctx) == r
  {
    var ops := [Shi];
    assert ops[..0] == [];
  }

  /** Storing a literal under its bare key beside its @ key keeps its value exactly when it stores the same, or null. */
  lemma NewLiteralSpelling(key: string, v: Val, ctx: Ctx)
    requires !ctx.strict && Get(Entries(ctx.literals), key) == NullVal &&
      Get(Entries(ctx.literals), "@" + key) != NullVal
    ensures
      var l := Entries(ctx.literals);
      var more := ctx.(literals := Some(l[key := v]));
      Below(Eval(Lit(key), ctx), Eval(Lit(key), more)) <==> v == NullVal || v == l["@" + key]
  {
    var l := Entries(ctx.literals);
    var more := ctx.(literals := Some(l[key := v]));
    assert EvalLiteral(key, ctx) == Literal(key, l["@" + key]);
    assert EvalLiteral(key, more) == Literal(key, if v != NullVal then v else l["@" + key]);
  }

  /** Adding the bare knowledge key of a grounded literal beside its @ key: exactly when the old answer is below
      the new. */
  lemma NewKnowledgeSpelling(key: string, v: Val, ctx: Ctx)
    requires !ctx.strict && EvalLiteral(key, ctx).Literal? && ctx.knowledge.Some?
    requires key !in ctx.knowledge.value && "@" + key in ctx.knowledge.value
    ensures
      var k := ctx.knowledge.value;
      var more := ctx.(knowledge := Some(k[key := v]));
      Below(Eval(Unary([Shi], Lit(key)), ctx), Eval(Unary([Shi], Lit(key)), more)) <==> Below(k["@" + key], v)
  {
    var more := ctx.(knowledge := Some(ctx.knowledge.value[key := v]));
    LiteralForm(key, ctx);
    assert EvalLiteral(key, more) == EvalLiteral(key, ctx);
    ShiIsAnswer(key, ctx);
    ShiIsAnswer(key, more);
  }

  /**
   * A key answered with a list only once more is known: `false an shi @key` was false before, and stays so exactly
   * when the list has one item.
   */
  lemma ListAnswerUndecides(key: string, items: seq<Val>, ctx: Ctx, more: Ctx)
    requires !ctx.strict && !more.strict && ShiAnswer(key, ctx) == Undef
    requires ShiAnswer(key, more) == List(items) && IsPlain(List(items))
    ensures
      var e := Conj(Const(false), [Op(An, Unary([Shi], Lit(key)))]);
      Eval(e, ctx) == Truth(false) && (Eval(e, more) == Truth(false) <==> |items| == 1)
  {
    ShiIsAnswer(key, ctx);
    ShiIsAnswer(key, more);
    hide Eval;
    FalseAnUndefined(Unary([Shi], Lit(key)), ctx);
    FalseAnList(Unary([Shi], Lit(key)), items, more);
  }
}
