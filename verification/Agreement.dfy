/** The eager Python evaluator and the short-circuiting Rust evaluator decide alike, and where they do not. */
module Agreement {
  import opened Options
  import opened Evaluator
  import opened Chains
  import opened Guards
  import Rs = RustEval

  // ----- One chain, two trees -----

  /** What both evaluators have: truth constants, shi on literals, nai, an, kra, ur, khi and parentheses. */
  predicate IsCommon(e: Expr) {
    match e
    case Const(_) => true
    case UndefConst => true
    case Unary(ops, operand) => if operand.Lit? then ops != [] && ops[|ops| - 1] == Shi else IsCommon(operand)
    case Paren(inner) => IsCommon(inner)
    case Conj(first, rest) =>
      IsCommon(first) && forall i :: 0 <= i < |rest| ==> rest[i].Op? && IsCommon(rest[i].e)
    case Disj(left, more) => IsCommon(left) && forall i :: 0 <= i < |more| ==> IsCommon(more[i])
    case Khi(cond, body) => IsCommon(cond) && IsCommon(body)
    case _ => false
  }

  /** The tree the Rust parser builds: nested operators to the left, no parentheses. */
  function ToRust(e: Expr): Rs.Expr
    requires IsCommon(e)
  {
    match e
    case Const(b) => Rs.Bool(b)
    case UndefConst => Rs.Expr.Undefined
    case Unary(ops, operand) => Nested(ops, if operand.Lit? then Rs.Expr.Literal(operand.key) else ToRust(operand))
    case Paren(inner) => ToRust(inner)
    case Conj(first, rest) => OpTree(ToRust(first), rest)
    case Disj(left, more) => UrTree(ToRust(left), more)
    case Khi(cond, body) => Rs.Conditional(ToRust(cond), ToRust(body))
  }

  function Nested(ops: seq<UnaryOp>, e: Rs.Expr): Rs.Expr
    decreases |ops|
  {
    if ops == [] then e
    else Nested(ops[..|ops| - 1], Rs.Expr.UnaryOp(if ops[|ops| - 1] == Shi then Rs.Shi else Rs.Nai, e))
  }

  function RustOp(op: BinaryOp): Rs.BinOp {
    match op case An => Rs.An case Ur => Rs.Ur case Kra => Rs.Kra
  }

  function OpTree(tree: Rs.Expr, rest: seq<Term>): Rs.Expr
    requires forall i :: 0 <= i < |rest| ==> rest[i].Op? && IsCommon(rest[i].e)
    decreases rest
  {
    if rest == [] then tree else
    assert rest[0].e < rest[0];
    OpTree(Rs.Expr.BinOp(RustOp(rest[0].op), tree, ToRust(rest[0].e)), rest[1..])
  }

  function UrTree(tree: Rs.Expr, more: seq<Expr>): Rs.Expr
    requires forall i :: 0 <= i < |more| ==> IsCommon(more[i])
    decreases more
  {
    if more == [] then tree else UrTree(Rs.Expr.BinOp(Rs.Ur, tree, ToRust(more[0])), more[1..])
  }

  // ----- Contexts on which they agree -----

  ghost predicate BooleanKnowledge(ctx: Ctx) {
    ctx.knowledge.Some? ==> forall k :: k in ctx.knowledge.value ==> ctx.knowledge.value[k].Truth?
  }

  /** The lookups under the two spellings come to the same. */
  predicate SameSpelling(key: string, ctx: Ctx) {
    if ctx.knowledge.None? then !ctx.strict
    else EvalLiteral(key, ctx).Literal? || Known(ctx.knowledge.value, "@" + key) == Known(ctx.knowledge.value, key)
  }

  /** No operator stands over an error that only one of the evaluators lets through. */
  ghost predicate IsTransparent(e: Expr, ctx: Ctx) {
    match e
    case Unary(ops, operand) =>
      if operand.Lit? then SameSpelling(operand.key, ctx)
      else IsTransparent(operand, ctx) && (ops != [] ==> !Eval(operand, ctx).Error?)
    case Paren(inner) => IsTransparent(inner, ctx)
    case Conj(first, rest) =>
      && IsTransparent(first, ctx) && (forall i :: 0 <= i < |rest| ==> IsTransparent(rest[i].e, ctx))
      && NoneParts(ItemOf(Eval(first, ctx)), rest, ctx)
    case Disj(left, more) =>
      && IsTransparent(left, ctx) && (forall i :: 0 <= i < |more| ==> IsTransparent(more[i], ctx))
      && TrueHidesNone(ItemOf(Eval(left, ctx)), more, ctx)
    case Khi(cond, body) =>
      && IsTransparent(cond, ctx) && IsTransparent(body, ctx) && !Eval(cond, ctx).Error?
      && (ctx.strict ==> Trit(Eval(cond, ctx)) != Some(true))
    case _ => true
  }

  function ItemOf(v: Val): Val {
    if IsSingle(v) then Item(v) else v
  }

  /** What divides the evaluators at one operator: an error one of them skips, or a kra that holds over a truth
      value. */
  predicate Parts(v: Val, op: BinaryOp, r: Val) {
    match op
    case An => Trit(v) == Some(false) && r.Error?
    case Ur => Trit(v) == Some(true) && r.Error?
    case Kra => Trit(v) == Some(true) && Trit(r).Some?
  }

  /** Nowhere along the chain. */
  ghost predicate NoneParts(value: Val, rest: seq<Term>, ctx: Ctx)
    decreases |rest|
  {
    rest == [] ||
    var r := ItemOf(Eval(rest[0].e, ctx));
    rest[0].Op? && !Parts(value, rest[0].op, r) && NoneParts(ApplyBinary(value, rest[0].op, r), rest[1..], ctx)
  }

  /** Along a chain of ur, no operand behind a true is an error. */
  ghost predicate TrueHidesNone(value: Val, more: seq<Expr>, ctx: Ctx)
    decreases |more|
  {
    more == [] ||
    var r := ItemOf(Eval(more[0], ctx));
    !Parts(value, Ur, r) && TrueHidesNone(ApplyBinary(value, Ur, r), more[1..], ctx)
  }

  predicate IsKnown(key: string, ctx: Ctx) {
    ctx.knowledge.Some? && Known(ctx.knowledge.value, key).Some?
  }

  /** Every key under shi is known. */
  predicate KeysKnown(e: Expr, ctx: Ctx) {
    match e
    case Unary(_, operand) => if operand.Lit? then IsKnown(operand.key, ctx) else KeysKnown(operand, ctx)
    case Paren(inner) => KeysKnown(inner, ctx)
    case Conj(first, rest) => KeysKnown(first, ctx) && forall i :: 0 <= i < |rest| ==> KeysKnown(rest[i].e, ctx)
    case Disj(left, more) => KeysKnown(left, ctx) && forall i :: 0 <= i < |more| ==> KeysKnown(more[i], ctx)
    case Khi(cond, body) => KeysKnown(cond, ctx) && KeysKnown(body, ctx)
    case _ => true
  }

  // ----- Agreement -----

  /** A truth value, possibly inside khi scopes. */
  predicate IsTruthLike(v: Val) {
    v.Truth? || v.Undef? || (v.List? && |v.items| == 1 && IsTruthLike(v.items[0]))
  }

  /** The same truth value on both sides, and no error on either. */
  predicate Same(v: Val, w: Rs.NoeVal) {
    && IsTruthLike(v)
    && (w.Truth? || w.Undefined?)
    && Trit(v) == if w.Truth? then Some(w.b) else None
  }

  /** The same truth value, or the same error. */
  predicate Alike(v: Val, w: Rs.NoeVal) {
    Same(v, w) || (v.Error? && w == Rs.Error(v.code))
  }

  lemma AlikeItem(v: Val, w: Rs.NoeVal)
    requires Alike(v, w)
    ensures IsSingle(v) && Alike(Item(v), w) && !Item(v).Raised? && Item(v) == ItemOf(v)
    ensures Same(v, w) ==> Same(Item(v), w)
    ensures Item(v).Error? <==> v.Error?
    ensures Trit(Item(v)) == Trit(v)
  {
    assert v.List? ==> IsTruthLike(v.items[0]) && v.items[0] == ItemOf(v);
  }

  function RustBinary(op: BinaryOp, w: Rs.NoeVal, right: Rs.Expr, ctx: Ctx): Rs.NoeVal {
    match op
    case An => Rs.K3And(w, right, ctx)
    case Ur => Rs.K3Or(w, right, ctx)
    case Kra => Rs.Stub(w, Rs.Eval(right, ctx))
  }

  /** An operator over values on which they agree: they go on agreeing exactly if it does not part them. */
  lemma AlikeBinary(v: Val, w: Rs.NoeVal, op: BinaryOp, r: Val, right: Rs.Expr, ctx: Ctx)
    requires Alike(v, w) && Alike(r, Rs.Eval(right, ctx))
    ensures Alike(ApplyBinary(v, op, r), RustBinary(op, w, right, ctx)) <==> !Parts(v, op, r)
    ensures !v.Error? && !r.Error? && !Parts(v, op, r) ==> Same(ApplyBinary(v, op, r), RustBinary(op, w, right, ctx))
  {
    TruthOfAlike(v, w);
    TruthOfAlike(r, Rs.Eval(right, ctx));
    if op == Kra {
      AlikeKra(v, w, r, Rs.Eval(right, ctx));
    } else {
      BinaryTruth(v, op, r);
      hide ApplyBinary, Rs.Eval, IsTruthLike;
      if v.Error? || r.Error? {
      } else {
        SameLogic(op, Trit(v), Trit(r), right, ctx);
        hide Rs.K3And, Rs.K3Or;
      }
    }
  }

  lemma AlikeKra(v: Val, w: Rs.NoeVal, r: Val, u: Rs.NoeVal)
    requires Alike(v, w) && Alike(r, u)
    ensures Alike(ApplyBinary(v, Kra, r), Rs.Stub(w, u)) <==> !Parts(v, Kra, r)
    ensures !v.Error? && !r.Error? && !Parts(v, Kra, r) ==> Same(ApplyBinary(v, Kra, r), Rs.Stub(w, u))
  {
    KraTruth(v, r);
    hide ApplyBinary;
  }

  lemma KraTruth(l: Val, r: Val)
    requires (IsTruthLike(l) || l.Error?) && (IsTruthLike(r) || r.Error?)
    ensures ApplyBinary(l, Kra, r) ==
      if l.Error? then l else if r.Error? then r else if Trit(l) == Some(true) then r else Undef
  {
  }

  function AsRust(t: Option<bool>): Rs.NoeVal {
    if t.None? then Rs.NoeVal.Undefined else Rs.Truth(t.value)
  }

  lemma SameLogic(op: BinaryOp, a: Option<bool>, b: Option<bool>, right: Rs.Expr, ctx: Ctx)
    requires Rs.Eval(right, ctx) == AsRust(b)
    ensures op == An ==> Same(FromTrit(And(a, b)), Rs.K3And(AsRust(a), right, ctx))
    ensures op == Ur ==> Same(FromTrit(Or(a, b)), Rs.K3Or(AsRust(a), right, ctx))
  {
    hide Rs.Eval;
  }

  lemma TruthOfAlike(v: Val, w: Rs.NoeVal)
    requires Alike(v, w)
    ensures v.Error? ==> w == Rs.Error(v.code) && Trit(v) == None
    ensures !v.Error? ==> w == AsRust(Trit(v))
  {
  }

  lemma BinaryTruth(l: Val, op: BinaryOp, r: Val)
    requires op != Kra && (IsTruthLike(l) || l.Error?) && (IsTruthLike(r) || r.Error?)
    ensures ApplyBinary(l, op, r) ==
      if l.Error? then l else if r.Error? then r
      else FromTrit(if op == An then And(Trit(l), Trit(r)) else Or(Trit(l), Trit(r)))
  {
  }

  /** shi on a literal: they agree exactly when the two spellings come to the same. */
  lemma ShiAgrees(key: string, ctx: Ctx)
    requires BooleanKnowledge(ctx)
    ensures
      var v, w := ApplyShi(EvalLiteral(key, ctx), Some("@" + key), ctx), Rs.KnowledgeOf(key, ctx);
      && (Alike(v, w) <==> SameSpelling(key, ctx))
      && (SameSpelling(key, ctx) && (ctx.strict ==> IsKnown(key, ctx)) ==> Same(v, w))
  {
    LiteralKey(key, ctx);
    if ctx.knowledge.Some? {
      var k := ctx.knowledge.value;
      var v := EvalLiteral(key, ctx);
      assert ShiKey(v, Some("@" + key)) == Some(if v.Literal? then key else "@" + key);
      KnownTruth(k, key);
      KnownTruth(k, "@" + key);
      hide Known, EvalLiteral;
    }
  }

  lemma KnownTruth(k: map<string, Val>, key: string)
    requires forall x :: x in k ==> k[x].Truth?
    ensures Known(k, key).Some? ==> Known(k, key).value.Truth?
  {
  }

  lemma LiteralKey(key: string, ctx: Ctx)
    ensures EvalLiteral(key, ctx).Literal? ==> EvalLiteral(key, ctx).key == key
    ensures !EvalLiteral(key, ctx).Raised?
  {
  }

  lemma {:induction false} UnaryAgrees(ops: seq<UnaryOp>, v: Val, e: Rs.Expr, ctx: Ctx)
    requires !e.Literal? && Same(v, Rs.Eval(e, ctx))
    ensures Same(ApplyUnary(ops, v, None, ctx), Rs.Eval(Nested(ops, e), ctx))
    decreases |ops|
  {
    if ops != [] {
      var shi := ops[|ops| - 1] == Shi;
      UnaryAgrees(ops[..|ops| - 1],
        if shi then ApplyShi(v, None, ctx) else ApplyNai(v),
        Rs.Expr.UnaryOp(if shi then Rs.Shi else Rs.Nai, e), ctx);
    }
  }

  lemma {:induction false} ErrorStays(ops: seq<UnaryOp>, e: Rs.Expr, ctx: Ctx)
    requires !e.Literal? && Rs.Eval(e, ctx).Error?
    ensures Rs.Eval(Nested(ops, e), ctx) == Rs.Eval(e, ctx)
    decreases |ops|
  {
    if ops != [] {
      var shi := ops[|ops| - 1] == Shi;
      ErrorStays(ops[..|ops| - 1], Rs.Expr.UnaryOp(if shi then Rs.Shi else Rs.Nai, e), ctx);
    }
  }

  /**
   * Over boolean knowledge the two evaluators give every transparent expression the same truth value or the same
   * error, and a truth value when (in strict mode) every key is known.
   */
  lemma {:induction false} EvaluatorsAgree(e: Expr, ctx: Ctx)
    requires IsCommon(e) && BooleanKnowledge(ctx) && IsTransparent(e, ctx)
    ensures Alike(Eval(e, ctx), Rs.Eval(ToRust(e), ctx))
    ensures (ctx.strict ==> KeysKnown(e, ctx)) ==> Same(Eval(e, ctx), Rs.Eval(ToRust(e), ctx))
    ensures !ToRust(e).Literal?
    decreases e, 1
  {
    match e
    case Unary(ops, operand) =>
      hide Eval, Rs.Eval;
      if operand.Lit? {
        OnLiteralAgrees(ops, operand.key, ctx);
      } else {
        EvaluatorsAgree(operand, ctx);
        OnValueAgrees(ops, operand, ctx);
      }
    case Paren(inner) =>
      EvaluatorsAgree(inner, ctx);
    case Conj(first, rest) =>
      hide Eval, Rs.Eval;
      EvaluatorsAgree(first, ctx);
      TreeIsOperator(ToRust(first), rest);
      forall i | 0 <= i < |rest| ensures Agree(rest[i].e, ctx) {
        assert rest[i].e < rest[i];
        EvaluatorsAgree(rest[i].e, ctx);
      }
      if rest == [] {
        LoneOperands(first, ctx);
      } else {
        ConjAgrees(first, rest, ctx);
      }
    case Disj(left, more) =>
      hide Eval, Rs.Eval;
      EvaluatorsAgree(left, ctx);
      UrTreeIsOperator(ToRust(left), more);
      forall i | 0 <= i < |more| ensures Agree(more[i], ctx) {
        EvaluatorsAgree(more[i], ctx);
      }
      if more == [] {
        LoneOperands(left, ctx);
      } else {
        DisjAgrees(left, more, ctx);
      }
    case Khi(cond, body) =>
      hide Eval, Rs.Eval;
      EvaluatorsAgree(cond, ctx);
      EvaluatorsAgree(body, ctx);
      if ctx.strict {
        StrictIsFlat(cond, ctx);
        StrictIsFlat(body, ctx);
      }
      KhiAgrees(cond, body, ctx);
    case _ =>
  }

  ghost predicate Agree(e: Expr, ctx: Ctx)
    requires IsCommon(e)
  {
    && Alike(Eval(e, ctx), Rs.Eval(ToRust(e), ctx))
    && ((ctx.strict ==> KeysKnown(e, ctx)) ==> Same(Eval(e, ctx), Rs.Eval(ToRust(e), ctx)))
  }

  lemma OnLiteralAgrees(ops: seq<UnaryOp>, key: string, ctx: Ctx)
    requires ops != [] && ops[|ops| - 1] == Shi
    requires BooleanKnowledge(ctx) && SameSpelling(key, ctx)
    ensures
      var v, e := Eval(Unary(ops, Lit(key)), ctx), Nested(ops, Rs.Expr.Literal(key));
      && Alike(v, Rs.Eval(e, ctx)) && !e.Literal?
      && ((ctx.strict ==> IsKnown(key, ctx)) ==> Same(v, Rs.Eval(e, ctx)))
  {
    var shi := Rs.Expr.UnaryOp(Rs.Shi, Rs.Expr.Literal(key));
    var rest := ops[..|ops| - 1];
    var v := ApplyShi(EvalLiteral(key, ctx), Some("@" + key), ctx);
    ShiAgrees(key, ctx);
    LiteralKey(key, ctx);
    NestedIsOperator(rest, shi);
    assert Nested(ops, Rs.Expr.Literal(key)) == Nested(rest, shi);
    assert Rs.Eval(shi, ctx) == Rs.KnowledgeOf(key, ctx);
    assert Eval(Unary(ops, Lit(key)), ctx) == if v.Error? then v else ApplyUnary(rest, v, None, ctx);
    hide ApplyShi, Rs.KnowledgeOf, SameSpelling, EvalLiteral, Eval, Rs.Eval, ApplyUnary;
    if v.Error? {
      ErrorStays(rest, shi, ctx);
    } else {
      UnaryAgrees(rest, v, shi, ctx);
    }
  }

  lemma {:induction false} OnValueAgrees(ops: seq<UnaryOp>, operand: Expr, ctx: Ctx)
    requires !operand.Lit? && IsCommon(operand) && Agree(operand, ctx) && !ToRust(operand).Literal?
    requires ops != [] ==> !Eval(operand, ctx).Error?
    ensures Agree(Unary(ops, operand), ctx) && !ToRust(Unary(ops, operand)).Literal?
  {
    var v := Eval(operand, ctx);
    assert Eval(Unary(ops, operand), ctx) == ApplyUnary(ops, v, None, ctx);
    assert ToRust(Unary(ops, operand)) == Nested(ops, ToRust(operand));
    NestedIsOperator(ops, ToRust(operand));
    hide Eval, Rs.Eval, ToRust, IsCommon;
    if ops != [] {
      UnaryAgrees(ops, v, ToRust(operand), ctx);
    }
  }

  lemma {:induction false} NestedIsOperator(ops: seq<UnaryOp>, e: Rs.Expr)
    requires !e.Literal?
    ensures !Nested(ops, e).Literal?
    decreases |ops|
  {
    if ops != [] {
      NestedIsOperator(ops[..|ops| - 1], Rs.Expr.UnaryOp(if ops[|ops| - 1] == Shi then Rs.Shi else Rs.Nai, e));
    }
  }

  lemma {:induction false} TreeIsOperator(tree: Rs.Expr, rest: seq<Term>)
    requires forall i :: 0 <= i < |rest| ==> rest[i].Op? && IsCommon(rest[i].e)
    requires !tree.Literal?
    ensures !OpTree(tree, rest).Literal?
    decreases |rest|
  {
    if rest != [] { TreeIsOperator(Rs.Expr.BinOp(RustOp(rest[0].op), tree, ToRust(rest[0].e)), rest[1..]); }
  }

  lemma {:induction false} UrTreeIsOperator(tree: Rs.Expr, more: seq<Expr>)
    requires forall i :: 0 <= i < |more| ==> IsCommon(more[i])
    requires !tree.Literal?
    ensures !UrTree(tree, more).Literal?
    decreases |more|
  {
    if more != [] { UrTreeIsOperator(Rs.Expr.BinOp(Rs.Ur, tree, ToRust(more[0])), more[1..]); }
  }

  lemma LoneOperands(e: Expr, ctx: Ctx)
    requires IsCommon(e)
    ensures Eval(Conj(e, []), ctx) == Eval(Disj(e, []), ctx) == Eval(e, ctx)
    ensures ToRust(Conj(e, [])) == ToRust(Disj(e, [])) == ToRust(e)
  {
  }

  lemma {:induction false} ConjAgrees(first: Expr, rest: seq<Term>, ctx: Ctx)
    requires rest != [] && IsCommon(Conj(first, rest)) && Agree(first, ctx)
    requires forall i :: 0 <= i < |rest| ==> Agree(rest[i].e, ctx)
    requires NoneParts(ItemOf(Eval(first, ctx)), rest, ctx)
    ensures Agree(Conj(first, rest), ctx)
  {
    AlikeItem(Eval(first, ctx), Rs.Eval(ToRust(first), ctx));
    forall i | 0 <= i < |rest| ensures IsSingle(Eval(rest[i].e, ctx)) && !Item(Eval(rest[i].e, ctx)).Raised? {
      AlikeItem(Eval(rest[i].e, ctx), Rs.Eval(ToRust(rest[i].e), ctx));
    }
    PlainChainValue(first, rest, ctx);
    assert ToRust(Conj(first, rest)) == OpTree(ToRust(first), rest);
    hide Eval, Rs.Eval, ToRust, NoneParts, OpTree;
    ConjFold(Item(Eval(first, ctx)), ToRust(first), rest, ctx);
  }

  lemma PlainChainValue(first: Expr, rest: seq<Term>, ctx: Ctx)
    requires rest != [] && IsPlainChain(first, rest, ctx) && !Item(Eval(first, ctx)).Raised?
    requires forall i :: 0 <= i < |rest| ==> !Item(Eval(rest[i].e, ctx)).Raised?
    ensures Eval(Conj(first, rest), ctx) == FoldChain(Item(Eval(first, ctx)), rest, ctx)
  {
    PlainConj(first, rest, ctx);
    NoneRaised(rest, ctx);
    PlainTokens(Eval(first, ctx), Tokens(rest, ctx));
  }

  /** The left fold over values against the tree nested to the left. */
  lemma {:induction false} ConjFold(v: Val, tree: Rs.Expr, rest: seq<Term>, ctx: Ctx)
    requires ArePlain(rest, ctx) && forall i :: 0 <= i < |rest| ==> IsCommon(rest[i].e)
    requires forall i :: 0 <= i < |rest| ==> Agree(rest[i].e, ctx)
    requires Alike(v, Rs.Eval(tree, ctx)) && NoneParts(v, rest, ctx)
    ensures Alike(FoldChain(v, rest, ctx), Rs.Eval(OpTree(tree, rest), ctx))
    ensures !v.Error? && (ctx.strict ==> forall i :: 0 <= i < |rest| ==> KeysKnown(rest[i].e, ctx)) ==>
      Same(FoldChain(v, rest, ctx), Rs.Eval(OpTree(tree, rest), ctx))
    decreases |rest|
  {
    if rest != [] {
      var r, right := Eval(rest[0].e, ctx), ToRust(rest[0].e);
      assert Agree(rest[0].e, ctx);
      AlikeItem(r, Rs.Eval(right, ctx));
      AlikeBinary(v, Rs.Eval(tree, ctx), rest[0].op, Item(r), right, ctx);
      var next, tree' := ApplyBinary(v, rest[0].op, Item(r)), Rs.Expr.BinOp(RustOp(rest[0].op), tree, right);
      assert Rs.Eval(tree', ctx) == RustBinary(rest[0].op, Rs.Eval(tree, ctx), right, ctx);
      hide Eval, Rs.Eval, ToRust, RustBinary, ApplyBinary, Parts;
      ConjFold(next, tree', rest[1..], ctx);
    }
  }

  lemma {:induction false} DisjAgrees(left: Expr, more: seq<Expr>, ctx: Ctx)
    requires more != [] && IsCommon(Disj(left, more)) && Agree(left, ctx)
    requires forall i :: 0 <= i < |more| ==> Agree(more[i], ctx)
    requires TrueHidesNone(ItemOf(Eval(left, ctx)), more, ctx)
    ensures Agree(Disj(left, more), ctx)
  {
    AlikeItem(Eval(left, ctx), Rs.Eval(ToRust(left), ctx));
    forall i | 0 <= i < |more| ensures IsSingle(Eval(more[i], ctx)) && !Item(Eval(more[i], ctx)).Raised? {
      AlikeItem(Eval(more[i], ctx), Rs.Eval(ToRust(more[i]), ctx));
    }
    PlainDisj(left, more, ctx);
    assert ToRust(Disj(left, more)) == UrTree(ToRust(left), more);
    hide Eval, Rs.Eval, ToRust, TrueHidesNone, UrTree;
    UrFold(Item(Eval(left, ctx)), ToRust(left), more, ctx);
  }

  lemma {:induction false} UrFold(v: Val, tree: Rs.Expr, more: seq<Expr>, ctx: Ctx)
    requires AreSingle(more, ctx) && forall i :: 0 <= i < |more| ==> IsCommon(more[i])
    requires forall i :: 0 <= i < |more| ==> Agree(more[i], ctx)
    requires Alike(v, Rs.Eval(tree, ctx)) && TrueHidesNone(v, more, ctx)
    ensures Alike(FoldAny(v, more, ctx), Rs.Eval(UrTree(tree, more), ctx))
    ensures !v.Error? && (ctx.strict ==> forall i :: 0 <= i < |more| ==> KeysKnown(more[i], ctx)) ==>
      Same(FoldAny(v, more, ctx), Rs.Eval(UrTree(tree, more), ctx))
    decreases |more|
  {
    if more != [] {
      var r, right := Eval(more[0], ctx), ToRust(more[0]);
      assert Agree(more[0], ctx);
      AlikeItem(r, Rs.Eval(right, ctx));
      AlikeBinary(v, Rs.Eval(tree, ctx), Ur, Item(r), right, ctx);
      var next, tree' := ApplyBinary(v, Ur, Item(r)), Rs.Expr.BinOp(Rs.Ur, tree, right);
      assert Rs.Eval(tree', ctx) == RustBinary(Ur, Rs.Eval(tree, ctx), right, ctx);
      hide Eval, Rs.Eval, ToRust, RustBinary, ApplyBinary, Parts;
      UrFold(next, tree', more[1..], ctx);
    }
  }

  /** khi: agreement on the condition and the body carries over exactly under this condition. */
  predicate KhiCarries(c: Val, ctx: Ctx) {
    !c.Error? && (ctx.strict ==> Trit(c) != Some(true))
  }

  lemma {:induction false} KhiAgrees(cond: Expr, body: Expr, ctx: Ctx)
    requires IsCommon(Khi(cond, body)) && Agree(cond, ctx) && Agree(body, ctx)
    requires !ctx.strict ==> !Eval(body, ctx).Error?
    requires ctx.strict ==> !Eval(cond, ctx).List? && !Eval(body, ctx).List?
    ensures
      var v, w := Eval(Khi(cond, body), ctx), Rs.Eval(ToRust(Khi(cond, body)), ctx);
      && (Alike(v, w) <==> KhiCarries(Eval(cond, ctx), ctx)) && (KhiCarries(Eval(cond, ctx), ctx) ==> Same(v, w))
  {
    KhiParts(cond, body, ctx);
    hide Eval, Rs.Eval, ToRust, IsCommon, GuardedOf, Rs.EvalConditional, KeysKnown;
    AlikeGuard(Eval(cond, ctx), Eval(body, ctx), Rs.Eval(ToRust(cond), ctx), ToRust(body), ctx);
  }

  lemma KhiParts(cond: Expr, body: Expr, ctx: Ctx)
    requires IsCommon(Khi(cond, body))
    ensures IsCommon(cond) && IsCommon(body)
    ensures Rs.Eval(ToRust(Khi(cond, body)), ctx) == Rs.EvalConditional(Rs.Eval(ToRust(cond), ctx), ToRust(body), ctx)
    ensures !Eval(cond, ctx).Raised? && !Eval(body, ctx).Raised? ==>
      Eval(Khi(cond, body), ctx) == GuardedOf(Eval(cond, ctx), Eval(body, ctx), ctx)
  {
    hide GuardedOf;
  }

  lemma AlikeGuard(c: Val, b: Val, w: Rs.NoeVal, guard: Rs.Expr, ctx: Ctx)
    requires Alike(c, w) && Alike(b, Rs.Eval(guard, ctx))
    requires if ctx.strict then !c.List? && !b.List? else !b.Error?
    ensures
      var v, u := GuardedOf(c, b, ctx), Rs.EvalConditional(w, guard, ctx);
      && (Alike(v, u) <==> KhiCarries(c, ctx)) && (KhiCarries(c, ctx) ==> Same(v, u))
  {
    GuardValue(c, b, ctx);
    hide GuardedOf, Rs.Eval;
  }

  lemma GuardValue(c: Val, b: Val, ctx: Ctx)
    requires (IsTruthLike(c) || c.Error?) && (IsTruthLike(b) || b.Error?)
    requires ctx.strict ==> !c.List? && !b.List?
    ensures GuardedOf(c, b, ctx) ==
      if Trit(c) != Some(true) then Undef
      else if ctx.strict && !b.Error? then Error("ERR_GUARD_TYPE")
      else List([b])
  {
    var block := SekScope(b);
    assert block == List([b]);
    assert IsActionBlock(block) <==> IsActionBlock(block.items[0]);
  }

  // ----- Known keys -----

  /** Every key under shi comes to the same under both spellings; in strict mode it is known, and no khi holds.
      No kra holds over a truth value. */
  ghost predicate LikeKeys(e: Expr, ctx: Ctx) {
    match e
    case Unary(_, operand) =>
      if operand.Lit? then SameSpelling(operand.key, ctx) && (ctx.strict ==> IsKnown(operand.key, ctx))
      else LikeKeys(operand, ctx)
    case Paren(inner) => LikeKeys(inner, ctx)
    case Conj(first, rest) =>
      && LikeKeys(first, ctx) && (forall i :: 0 <= i < |rest| ==> LikeKeys(rest[i].e, ctx))
      && KraIdles(ItemOf(Eval(first, ctx)), rest, ctx)
    case Disj(left, more) => LikeKeys(left, ctx) && forall i :: 0 <= i < |more| ==> LikeKeys(more[i], ctx)
    case Khi(cond, body) =>
      LikeKeys(cond, ctx) && LikeKeys(body, ctx) && (ctx.strict ==> Trit(Eval(cond, ctx)) != Some(true))
    case _ => true
  }

  ghost predicate KraIdles(value: Val, rest: seq<Term>, ctx: Ctx)
    decreases |rest|
  {
    rest == [] ||
    var r := ItemOf(Eval(rest[0].e, ctx));
    && rest[0].Op? && !(rest[0].op == Kra && Parts(value, Kra, r))
    && KraIdles(ApplyBinary(value, rest[0].op, r), rest[1..], ctx)
  }

  /** Then no error arises to be hidden: such an expression is transparent, and its truth value is the same. */
  lemma {:induction false} LikeKeysAgree(e: Expr, ctx: Ctx)
    requires IsCommon(e) && BooleanKnowledge(ctx) && LikeKeys(e, ctx)
    ensures IsTransparent(e, ctx) && (ctx.strict ==> KeysKnown(e, ctx))
    ensures Same(Eval(e, ctx), Rs.Eval(ToRust(e), ctx))
    decreases e
  {
    match e
    case Unary(ops, operand) =>
      if !operand.Lit? {
        LikeKeysAgree(operand, ctx);
      }
      hide Eval, Rs.Eval, ToRust;
      EvaluatorsAgree(e, ctx);
    case Paren(inner) =>
      LikeKeysAgree(inner, ctx);
    case Conj(first, rest) =>
      hide Eval, Rs.Eval, ToRust;
      LikeKeysAgree(first, ctx);
      forall i | 0 <= i < |rest| ensures NoError(rest[i].e, ctx) {
        assert rest[i].e < rest[i];
        LikeKeysAgree(rest[i].e, ctx);
      }
      NoErrorNoParting(ItemOf(Eval(first, ctx)), rest, ctx);
      EvaluatorsAgree(e, ctx);
    case Disj(left, more) =>
      hide Eval, Rs.Eval, ToRust;
      LikeKeysAgree(left, ctx);
      forall i | 0 <= i < |more| ensures NoError(more[i], ctx) {
        LikeKeysAgree(more[i], ctx);
      }
      NoneHiddenByTrue(ItemOf(Eval(left, ctx)), more, ctx);
      EvaluatorsAgree(e, ctx);
    case Khi(cond, body) =>
      hide Eval, Rs.Eval, ToRust;
      LikeKeysAgree(cond, ctx);
      LikeKeysAgree(body, ctx);
      EvaluatorsAgree(e, ctx);
    case _ =>
  }

  ghost predicate NoError(e: Expr, ctx: Ctx) {
    && IsTransparent(e, ctx) && (ctx.strict ==> KeysKnown(e, ctx))
    && IsTruthLike(Eval(e, ctx))
  }

  lemma TruthLikeItem(v: Val)
    requires IsTruthLike(v)
    ensures !ItemOf(v).Error?
  {
    assert v.List? ==> IsTruthLike(v.items[0]) && ItemOf(v) == v.items[0];
  }

  lemma {:induction false} NoErrorNoParting(value: Val, rest: seq<Term>, ctx: Ctx)
    requires forall i :: 0 <= i < |rest| ==> NoError(rest[i].e, ctx)
    requires KraIdles(value, rest, ctx)
    ensures NoneParts(value, rest, ctx)
    decreases |rest|
  {
    if rest != [] {
      var r := ItemOf(Eval(rest[0].e, ctx));
      assert NoError(rest[0].e, ctx);
      TruthLikeItem(Eval(rest[0].e, ctx));
      hide Eval, NoError;
      NoErrorNoParting(ApplyBinary(value, rest[0].op, r), rest[1..], ctx);
    }
  }

  lemma {:induction false} NoneHiddenByTrue(value: Val, more: seq<Expr>, ctx: Ctx)
    requires forall i :: 0 <= i < |more| ==> NoError(more[i], ctx)
    ensures TrueHidesNone(value, more, ctx)
    decreases |more|
  {
    if more != [] {
      var r := ItemOf(Eval(more[0], ctx));
      assert NoError(more[0], ctx);
      TruthLikeItem(Eval(more[0], ctx));
      hide Eval, NoError;
      NoneHiddenByTrue(ApplyBinary(value, Ur, r), more[1..], ctx);
    }
  }

  // ----- Verdicts -----

  /** In strict mode no transparent expression has a list for its value, so a guard accepts it as a condition. */
  lemma {:induction false} StrictIsFlat(e: Expr, ctx: Ctx)
    requires ctx.strict && IsCommon(e) && BooleanKnowledge(ctx) && IsTransparent(e, ctx)
    ensures !Eval(e, ctx).List?
    decreases e, 1
  {
    match e
    case Unary(ops, operand) =>
      if operand.Lit? {
        LiteralKey(operand.key, ctx);
        UnaryIsFlat(ops, EvalLiteral(operand.key, ctx), Some("@" + operand.key), ctx);
      } else {
        StrictIsFlat(operand, ctx);
        UnaryIsFlat(ops, Eval(operand, ctx), None, ctx);
      }
    case Paren(inner) =>
      StrictIsFlat(inner, ctx);
    case Conj(first, rest) =>
      StrictIsFlat(first, ctx);
      if rest != [] {
        EvaluatorsAgree(first, ctx);
        AlikeItem(Eval(first, ctx), Rs.Eval(ToRust(first), ctx));
        forall i | 0 <= i < |rest| ensures IsSingle(Eval(rest[i].e, ctx)) && !Item(Eval(rest[i].e, ctx)).Raised? {
          assert rest[i].e < rest[i];
          EvaluatorsAgree(rest[i].e, ctx);
          AlikeItem(Eval(rest[i].e, ctx), Rs.Eval(ToRust(rest[i].e), ctx));
        }
        forall i | 0 <= i < |rest| ensures IsFlat(Eval(rest[i].e, ctx)) {
          assert rest[i].e < rest[i];
          StrictIsFlat(rest[i].e, ctx);
          EvaluatorsAgree(rest[i].e, ctx);
        }
        PlainChainValue(first, rest, ctx);
        ChainIsFlat(Item(Eval(first, ctx)), rest, ctx);
      }
    case Disj(left, more) =>
      StrictIsFlat(left, ctx);
      if more != [] {
        EvaluatorsAgree(left, ctx);
        AlikeItem(Eval(left, ctx), Rs.Eval(ToRust(left), ctx));
        forall i | 0 <= i < |more| ensures IsSingle(Eval(more[i], ctx)) && !Item(Eval(more[i], ctx)).Raised? {
          EvaluatorsAgree(more[i], ctx);
          AlikeItem(Eval(more[i], ctx), Rs.Eval(ToRust(more[i]), ctx));
        }
        PlainDisj(left, more, ctx);
        AnyIsFlat(Item(Eval(left, ctx)), more, ctx);
      }
    case Khi(cond, body) =>
      KhiIsFlat(cond, body, ctx);
    case _ =>
  }

  lemma KhiIsFlat(cond: Expr, body: Expr, ctx: Ctx)
    requires Trit(Eval(cond, ctx)) != Some(true)
    ensures !Eval(Khi(cond, body), ctx).List?
  {
    hide Trit;
  }

  lemma {:induction false} UnaryIsFlat(ops: seq<UnaryOp>, v: Val, sourceKey: Option<string>, ctx: Ctx)
    requires BooleanKnowledge(ctx) && (ops == [] ==> !v.List?)
    ensures !ApplyUnary(ops, v, sourceKey, ctx).List?
    decreases |ops|
  {
    if ops != [] {
      var r := if ops[|ops| - 1] == Shi then ApplyShi(v, sourceKey, ctx) else ApplyNai(v);
      UnaryIsFlat(ops[..|ops| - 1], r, None, ctx);
    }
  }

  predicate IsFlat(v: Val) {
    v.Truth? || v.Undef? || v.Error?
  }

  lemma {:induction false} ChainIsFlat(v: Val, rest: seq<Term>, ctx: Ctx)
    requires ArePlain(rest, ctx) && rest != [] && forall i :: 0 <= i < |rest| ==> IsFlat(Eval(rest[i].e, ctx))
    requires !v.List?
    ensures !FoldChain(v, rest, ctx).List?
    decreases |rest|
  {
    assert IsFlat(Eval(rest[0].e, ctx));
    var next := ApplyBinary(v, rest[0].op, Item(Eval(rest[0].e, ctx)));
    if |rest| > 1 { ChainIsFlat(next, rest[1..], ctx); }
  }

  lemma {:induction false} AnyIsFlat(v: Val, more: seq<Expr>, ctx: Ctx)
    requires AreSingle(more, ctx) && more != []
    ensures !FoldAny(v, more, ctx).List?
    decreases |more|
  {
    var next := ApplyBinary(v, Ur, Item(Eval(more[0], ctx)));
    if |more| > 1 { AnyIsFlat(next, more[1..], ctx); }
  }

  /** Python makes an action of a literal that is grounded, and in strict mode of a context with the parts it
      asks for. */
  predicate MayAct(verb: string, target: string, ctx: Ctx) {
    && EvalLiteral(target, ctx).Literal?
    && (ctx.strict ==> ctx.hasSpatial && (verb == "men" ==> ctx.hasAudit))
  }

  /**
   * `cond khi sek mek @target sek`: Python acts exactly when the condition is true and the target may be acted on,
   * Rust exactly when the condition is true; so the verdicts are the same exactly unless a true condition guards a
   * target Python makes no action of.
   */
  lemma VerdictsAgree(cond: Expr, verb: string, target: string, ctx: Ctx)
    requires IsCommon(cond) && BooleanKnowledge(ctx) && IsTransparent(cond, ctx)
    ensures
      var v := Eval(Khi(cond, Mek(verb, Lit(target))), ctx);
      var w := Rs.Eval(Rs.Conditional(ToRust(cond), Rs.Expr.Action(verb, Rs.Expr.Literal(target))), ctx);
      var holds := Trit(Eval(cond, ctx)) == Some(true);
      && (Actions(v) != {} <==> holds && MayAct(verb, target, ctx))
      && (w.Action? <==> holds)
      && (((Actions(v) != {}) == w.Action?) <==> (holds ==> MayAct(verb, target, ctx)))
  {
    KhiOnAction(cond, verb, target, ctx);
    hide Eval, Rs.Eval, ToRust, IsTransparent, BooleanKnowledge, IsCommon, GuardedOf, Rs.EvalConditional, MayAct;
    EvaluatorsAgree(cond, ctx);
    if ctx.strict {
      StrictIsFlat(cond, ctx);
    }
    PythonVerdict(Eval(cond, ctx), verb, target, ctx);
    RustVerdict(Rs.Eval(ToRust(cond), ctx), Rs.Expr.Action(verb, Rs.Expr.Literal(target)), ctx);
  }

  /** `cond kra mek @target`: under the same conditions Python acts, and Rust never does. */
  lemma {:induction false} KraActsInPythonOnly(cond: Expr, verb: string, target: string, ctx: Ctx)
    requires IsCommon(cond) && BooleanKnowledge(ctx) && IsTransparent(cond, ctx)
    ensures
      var v := Eval(Conj(cond, [Op(Kra, Mek(verb, Lit(target)))]), ctx);
      var w := Rs.Eval(Rs.Expr.BinOp(Rs.Kra, ToRust(cond), Rs.Expr.Action(verb, Rs.Expr.Literal(target))), ctx);
      (Actions(v) != {} <==> Trit(Eval(cond, ctx)) == Some(true) && MayAct(verb, target, ctx)) && !w.Action?
  {
    var d := Mek(verb, Lit(target));
    var rest: seq<Term> := [Op(Kra, d)];
    var c, act := Eval(cond, ctx), Eval(d, ctx);
    EvaluatorsAgree(cond, ctx);
    AlikeItem(c, Rs.Eval(ToRust(cond), ctx));
    MekValue(verb, target, ctx);
    PlainChainValue(cond, rest, ctx);
    OneTerm(Item(c), Kra, d, ctx);
    var guard := Rs.Expr.Action(verb, Rs.Expr.Literal(target));
    assert Rs.Eval(Rs.Expr.BinOp(Rs.Kra, ToRust(cond), guard), ctx) ==
      Rs.Stub(Rs.Eval(ToRust(cond), ctx), Rs.Eval(guard, ctx));
    hide Eval, Rs.Eval, ApplyBinary, MayAct, IsTransparent, IsCommon, ToRust, BooleanKnowledge;
    BinaryActions(Item(c), Kra, act);
    TruthLikeUnwraps(Item(c));
  }

  lemma TruthLikeUnwraps(v: Val)
    requires IsTruthLike(v) || v.Error?
    ensures Unwrap(v) == v
  {
  }

  /** The value of an action node on a literal. */
  lemma MekValue(verb: string, target: string, ctx: Ctx)
    ensures
      var act := Eval(Mek(verb, Lit(target)), ctx);
      && (act.Action? <==> MayAct(verb, target, ctx)) && (act.Action? || act.Error? || act.Sentinel?)
      && (Actions(act) != {} <==> act.Action?)
  {
    var act := Eval(Mek(verb, Lit(target)), ctx);
    LiteralKey(target, ctx);
    assert Eval(Lit(target), ctx) == EvalLiteral(target, ctx);
    assert act == ActionOf(verb, EvalLiteral(target, ctx), ctx);
    assert act.Action? ==> act in Actions(act);
  }

  lemma KhiOnAction(cond: Expr, verb: string, target: string, ctx: Ctx)
    requires IsCommon(cond)
    ensures
      var guard := Rs.Expr.Action(verb, Rs.Expr.Literal(target));
      Rs.Eval(Rs.Conditional(ToRust(cond), guard), ctx) == Rs.EvalConditional(Rs.Eval(ToRust(cond), ctx), guard, ctx)
    ensures
      var act := Eval(Mek(verb, Lit(target)), ctx);
      !Eval(cond, ctx).Raised? && !act.Raised? ==>
        Eval(Khi(cond, Mek(verb, Lit(target))), ctx) == GuardedOf(Eval(cond, ctx), act, ctx)
  {
    hide GuardedOf;
  }

  lemma PythonVerdict(c: Val, verb: string, target: string, ctx: Ctx)
    requires (IsTruthLike(c) || c.Error?) && (ctx.strict ==> !c.List?)
    ensures
      var act := Eval(Mek(verb, Lit(target)), ctx);
      !act.Raised? && (Actions(GuardedOf(c, act, ctx)) != {} <==> Trit(c) == Some(true) && MayAct(verb, target, ctx))
  {
    var act := Eval(Mek(verb, Lit(target)), ctx);
    MekValue(verb, target, ctx);
    SingletonActions(act);
    hide Eval, MayAct;
    assert SekScope(act) == List([act]);
    assert ctx.strict ==> (IsActionBlock(List([act])) <==> IsActionBlock(List([act]).items[0]));
    assert ctx.strict && !act.Sentinel? ==> IsActionBlock(SekScope(act));
  }

  lemma RustVerdict(w: Rs.NoeVal, guard: Rs.Expr, ctx: Ctx)
    requires (w.Truth? || w.Undefined? || w.Error?) && guard.Action?
    ensures Rs.EvalConditional(w, guard, ctx).Action? <==> w == Rs.Truth(true)
  {
  }

  // ----- Where they part -----

  /** shi on a literal, for any knowledge: they agree exactly when its two spellings come to the same. */
  lemma SpellingsDivide(key: string, ctx: Ctx)
    requires BooleanKnowledge(ctx)
    ensures Alike(Eval(Unary([Shi], Lit(key)), ctx), Rs.Eval(Rs.Expr.UnaryOp(Rs.Shi, Rs.Expr.Literal(key)), ctx))
      <==> SameSpelling(key, ctx)
  {
    ShiValue(key, ctx);
    ShiAgrees(key, ctx);
  }

  lemma ShiValue(key: string, ctx: Ctx)
    ensures Eval(Unary([Shi], Lit(key)), ctx) == ApplyShi(EvalLiteral(key, ctx), Some("@" + key), ctx)
  {
    LiteralKey(key, ctx);
    assert [Shi][..0] == [];
  }

  /** For an ungrounded literal known at most under its bare key, that is when the bare key is not known. */
  lemma BareKeysDivide(key: string, ctx: Ctx)
    requires !ctx.strict && ctx.knowledge.Some? && BooleanKnowledge(ctx) && EvalLiteral(key, ctx).UndefObj?
    requires "@" + key !in ctx.knowledge.value && "@" + ("@" + key) !in ctx.knowledge.value
    ensures Same(Eval(Unary([Shi], Lit(key)), ctx), Rs.Eval(Rs.Expr.UnaryOp(Rs.Shi, Rs.Expr.Literal(key)), ctx))
      <==> key !in ctx.knowledge.value
  {
    SpellingsDivide(key, ctx);
    ShiValue(key, ctx);
  }

  /** Two operands on which they agree: an operator divides them exactly when it parts their values. */
  lemma {:induction false} OperatorDivides(c: Expr, op: ConjOp, d: Expr, ctx: Ctx)
    requires IsCommon(c) && IsCommon(d) && BooleanKnowledge(ctx) && IsTransparent(c, ctx) && IsTransparent(d, ctx)
    ensures Alike(Eval(Conj(c, [Op(op, d)]), ctx), Rs.Eval(Rs.Expr.BinOp(RustOp(op), ToRust(c), ToRust(d)), ctx))
      <==> !Parts(Eval(c, ctx), op, Eval(d, ctx))
  {
    EvaluatorsAgree(c, ctx);
    EvaluatorsAgree(d, ctx);
    var rest: seq<Term> := [Op(op, d)];
    var v, r := Eval(c, ctx), Eval(d, ctx);
    AlikeItem(v, Rs.Eval(ToRust(c), ctx));
    AlikeItem(r, Rs.Eval(ToRust(d), ctx));
    PlainChainValue(c, rest, ctx);
    OneTerm(Item(v), op, d, ctx);
    assert Rs.Eval(Rs.Expr.BinOp(RustOp(op), ToRust(c), ToRust(d)), ctx)
      == RustBinary(op, Rs.Eval(ToRust(c), ctx), ToRust(d), ctx);
    assert Parts(v, op, r) <==> Parts(Item(v), op, Item(r));
    hide *;
    AlikeBinary(Item(v), Rs.Eval(ToRust(c), ctx), op, Item(r), ToRust(d), ctx);
  }

  /** `c an d` divides them exactly when c is false and d an error. */
  lemma {:induction false} AnDivides(c: Expr, d: Expr, ctx: Ctx)
    requires IsCommon(c) && IsCommon(d) && BooleanKnowledge(ctx) && IsTransparent(c, ctx) && IsTransparent(d, ctx)
    ensures Alike(Eval(Conj(c, [Op(An, d)]), ctx), Rs.Eval(Rs.Expr.BinOp(Rs.An, ToRust(c), ToRust(d)), ctx))
      <==> !(Trit(Eval(c, ctx)) == Some(false) && Eval(d, ctx).Error?)
  {
    hide Eval, Rs.Eval, ToRust, IsCommon, IsTransparent;
    OperatorDivides(c, An, d, ctx);
  }

  /** `c kra d` divides them exactly when c is true and d a truth value: Rust has nothing to say there. */
  lemma {:induction false} KraDivides(c: Expr, d: Expr, ctx: Ctx)
    requires IsCommon(c) && IsCommon(d) && BooleanKnowledge(ctx) && IsTransparent(c, ctx) && IsTransparent(d, ctx)
    ensures Alike(Eval(Conj(c, [Op(Kra, d)]), ctx), Rs.Eval(Rs.Expr.BinOp(Rs.Kra, ToRust(c), ToRust(d)), ctx))
      <==> !(Trit(Eval(c, ctx)) == Some(true) && Trit(Eval(d, ctx)).Some?)
  {
    hide Eval, Rs.Eval, ToRust, IsCommon, IsTransparent;
    OperatorDivides(c, Kra, d, ctx);
  }

  lemma OneTerm(v: Val, op: ConjOp, d: Expr, ctx: Ctx)
    requires IsSingle(Eval(d, ctx))
    ensures FoldChain(v, [Op(op, d)], ctx) == ApplyBinary(v, op, Item(Eval(d, ctx)))
  {
    var rest: seq<Term> := [Op(op, d)];
    assert rest[1..] == [];
  }

  lemma OneOperand(v: Val, d: Expr, ctx: Ctx)
    requires IsSingle(Eval(d, ctx)) && !Item(Eval(d, ctx)).Raised?
    ensures FoldAny(v, [d], ctx) == ApplyBinary(v, Ur, Item(Eval(d, ctx)))
  {
    assert [d][1..] == [];
  }

  /** `c ur d` divides them exactly when c is true and d an error. */
  lemma {:induction false} UrDivides(c: Expr, d: Expr, ctx: Ctx)
    requires IsCommon(c) && IsCommon(d) && BooleanKnowledge(ctx) && IsTransparent(c, ctx) && IsTransparent(d, ctx)
    ensures Alike(Eval(Disj(c, [d]), ctx), Rs.Eval(Rs.Expr.BinOp(Rs.Ur, ToRust(c), ToRust(d)), ctx))
      <==> !(Trit(Eval(c, ctx)) == Some(true) && Eval(d, ctx).Error?)
  {
    EvaluatorsAgree(c, ctx);
    EvaluatorsAgree(d, ctx);
    var v, r := Eval(c, ctx), Eval(d, ctx);
    AlikeItem(v, Rs.Eval(ToRust(c), ctx));
    AlikeItem(r, Rs.Eval(ToRust(d), ctx));
    assert Rs.Eval(Rs.Expr.BinOp(Rs.Ur, ToRust(c), ToRust(d)), ctx)
      == RustBinary(Ur, Rs.Eval(ToRust(c), ctx), ToRust(d), ctx);
    hide Eval, Rs.Eval, ToRust, IsCommon, IsTransparent, BooleanKnowledge, RustBinary;
    PlainDisj(c, [d], ctx);
    OneOperand(Item(v), d, ctx);
    assert Parts(v, Ur, r) <==> Parts(Item(v), Ur, Item(r));
    assert Parts(v, Ur, r) <==> Trit(v) == Some(true) && r.Error?;
    hide *;
    AlikeBinary(Item(v), Rs.Eval(ToRust(c), ctx), Ur, Item(r), ToRust(d), ctx);
  }

  /** Operators over parentheses divide them exactly when what is in the parentheses is an error. */
  lemma ParenthesesDivide(ops: seq<UnaryOp>, c: Expr, ctx: Ctx)
    requires ops != [] && IsCommon(c) && BooleanKnowledge(ctx) && IsTransparent(c, ctx)
    ensures Alike(Eval(Unary(ops, Paren(c)), ctx), Rs.Eval(Nested(ops, ToRust(c)), ctx)) <==> !Eval(c, ctx).Error?
  {
    EvaluatorsAgree(c, ctx);
    var v, e := Eval(c, ctx), ToRust(c);
    assert Eval(Unary(ops, Paren(c)), ctx) == ApplyUnary(ops, v, None, ctx) by { hide ApplyUnary; }
    hide Eval, Rs.Eval, ToRust, IsTransparent, IsCommon, BooleanKnowledge;
    if v.Error? {
      ErrorStays(ops, e, ctx);
      ErrorIsLost(ops, v, ctx);
    } else {
      UnaryAgrees(ops, v, e, ctx);
    }
  }

  lemma {:induction false} ErrorIsLost(ops: seq<UnaryOp>, v: Val, ctx: Ctx)
    requires v.Undef? || (v.Error? && ops != [])
    ensures ApplyUnary(ops, v, None, ctx) == Undef
    decreases |ops|
  {
    if ops != [] {
      ErrorIsLost(ops[..|ops| - 1], Undef, ctx);
    }
  }

  /** A khi over truth values divides them exactly when, in strict mode, its condition holds or is an error. */
  lemma {:induction false} StrictKhiDivides(cond: Expr, body: Expr, ctx: Ctx)
    requires IsCommon(Khi(cond, body)) && BooleanKnowledge(ctx)
    requires IsTransparent(cond, ctx) && IsTransparent(body, ctx)
    ensures Alike(Eval(Khi(cond, body), ctx), Rs.Eval(ToRust(Khi(cond, body)), ctx)) <==>
      (ctx.strict ==> Trit(Eval(cond, ctx)) != Some(true) && !Eval(cond, ctx).Error?)
  {
    KhiParts(cond, body, ctx);
    hide Eval, Rs.Eval, ToRust, IsTransparent, BooleanKnowledge, IsCommon;
    EvaluatorsAgree(cond, ctx);
    EvaluatorsAgree(body, ctx);
    if ctx.strict {
      StrictIsFlat(cond, ctx);
      StrictIsFlat(body, ctx);
    }
    KhiAgrees(cond, body, ctx);
  }

  // ----- Unknown keys in strict mode -----

  ghost predicate IsUnknown(key: string, ctx: Ctx) {
    ctx.knowledge.Some? && Known(ctx.knowledge.value, key).None? && Known(ctx.knowledge.value, "@" + key).None?
  }

  lemma StrictShiFails(key: string, ctx: Ctx)
    requires ctx.strict && IsUnknown(key, ctx)
    ensures Eval(Unary([Shi], Lit(key)), ctx).Error?
    ensures Rs.Eval(Rs.Expr.UnaryOp(Rs.Shi, Rs.Expr.Literal(key)), ctx).Error?
  {
    LiteralKey(key, ctx);
    ShiValue(key, ctx);
  }

  /** Behind an, an unknown key divides them exactly when what stands before it is false. */
  lemma UnknownBehindAn(c: Expr, key: string, ctx: Ctx)
    requires IsCommon(c) && BooleanKnowledge(ctx) && IsTransparent(c, ctx) && ctx.strict && IsUnknown(key, ctx)
    ensures
      var d := Unary([Shi], Lit(key));
      Alike(Eval(Conj(c, [Op(An, d)]), ctx), Rs.Eval(Rs.Expr.BinOp(Rs.An, ToRust(c), ToRust(d)), ctx)) <==>
        Trit(Eval(c, ctx)) != Some(false)
  {
    StrictShiFails(key, ctx);
    hide Eval, Rs.Eval, ToRust;
    AnDivides(c, Unary([Shi], Lit(key)), ctx);
  }

  /** Behind ur, exactly when what stands before it is true. */
  lemma UnknownBehindUr(c: Expr, key: string, ctx: Ctx)
    requires IsCommon(c) && BooleanKnowledge(ctx) && IsTransparent(c, ctx) && ctx.strict && IsUnknown(key, ctx)
    ensures
      var d := Unary([Shi], Lit(key));
      Alike(Eval(Disj(c, [d]), ctx), Rs.Eval(Rs.Expr.BinOp(Rs.Ur, ToRust(c), ToRust(d)), ctx)) <==>
        Trit(Eval(c, ctx)) != Some(true)
  {
    StrictShiFails(key, ctx);
    hide Eval, Rs.Eval, ToRust;
    UrDivides(c, Unary([Shi], Lit(key)), ctx);
  }

  /** `false an shi @unknown`: Rust stops at false, Python reports the error. */
  lemma FalseHidesErrorInRustOnly(key: string, ctx: Ctx)
    requires ctx.strict && IsUnknown(key, ctx)
    ensures Eval(Conj(Const(false), [Op(An, Unary([Shi], Lit(key)))]), ctx).Error?
    ensures Rs.Eval(Rs.Expr.BinOp(Rs.An, Rs.Bool(false), Rs.Expr.UnaryOp(Rs.Shi, Rs.Expr.Literal(key))), ctx) ==
      Rs.Truth(false)
  {
    StrictShiFails(key, ctx);
    var rest: seq<Term> := [Op(An, Unary([Shi], Lit(key)))];
    PlainChainValue(Const(false), rest, ctx);
    assert rest[1..] == [];
    assert FoldChain(Truth(false), rest, ctx) == ApplyBinary(Truth(false), An, Eval(rest[0].e, ctx));
  }

  /** `true ur shi @unknown`: Rust stops at true, Python reports the error. */
  lemma TrueHidesErrorInRustOnly(key: string, ctx: Ctx)
    requires ctx.strict && IsUnknown(key, ctx)
    ensures Eval(Disj(Const(true), [Unary([Shi], Lit(key))]), ctx).Error?
    ensures Rs.Eval(Rs.Expr.BinOp(Rs.Ur, Rs.Bool(true), Rs.Expr.UnaryOp(Rs.Shi, Rs.Expr.Literal(key))), ctx) ==
      Rs.Truth(true)
  {
    StrictShiFails(key, ctx);
    var more: seq<Expr> := [Unary([Shi], Lit(key))];
    PlainDisj(Const(true), more, ctx);
    assert more[1..] == [];
    assert FoldAny(Truth(true), more, ctx) == ApplyBinary(Truth(true), Ur, Eval(more[0], ctx));
  }

  /** `nai (shi @unknown)` is undefined in Python, an error in Rust; without parentheses both report it. */
  lemma ParenthesesHideErrorInPythonOnly(key: string, ctx: Ctx)
    requires ctx.strict && IsUnknown(key, ctx)
    ensures Eval(Unary([Nai], Paren(Unary([Shi], Lit(key)))), ctx) == Undef
    ensures Eval(Unary([Nai, Shi], Lit(key)), ctx).Error?
    ensures Rs.Eval(Rs.Expr.UnaryOp(Rs.Nai, Rs.Expr.UnaryOp(Rs.Shi, Rs.Expr.Literal(key))), ctx).Error?
  {
    StrictShiFails(key, ctx);
    LiteralKey(key, ctx);
    assert [Nai][..0] == [] && [Nai, Shi][..1] == [Nai];
    var inner := Paren(Unary([Shi], Lit(key)));
    assert Eval(Unary([Nai], inner), ctx) == ApplyUnary([Nai], Eval(inner, ctx), None, ctx);
  }
}
