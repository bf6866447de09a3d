/** What chains mean, written out: which values count as true, what shi looks up, and which actions then come out. */
module Meanings {
  import opened Options
  import opened Evaluator
  import opened Chains
  import opened Guards
  import Rs = RustEval

  // ----- Truth -----

  /** True, a number other than 0, or a list of one or a truth object around such a value. */
  predicate IsTrue(v: Val) {
    || v == Truth(true)
    || (v.Number? && v.n != 0)
    || (v.List? && |v.items| == 1 && IsTrue(v.items[0]))
    || (v.TruthObj? && IsTrue(v.inner))
  }

  predicate IsFalse(v: Val) {
    || v == Truth(false)
    || v == Number(0)
    || (v.List? && |v.items| == 1 && IsFalse(v.items[0]))
    || (v.TruthObj? && IsFalse(v.inner))
  }

  lemma {:induction false} TritIsTruth(v: Val)
    ensures Trit(v) == Some(true) <==> IsTrue(v)
    ensures Trit(v) == Some(false) <==> IsFalse(v)
  {
    match v
    case List(items) => if |items| == 1 { TritIsTruth(items[0]); }
    case TruthObj(inner) => TritIsTruth(inner);
    case _ =>
  }

  /** A literal counts as its value, wherever an operator takes it. */
  function Taken(v: Val): Val {
    if v.Literal? then v.value else v
  }

  predicate Failed(v: Val) {
    v.Error? || v.Raised?
  }

  lemma OperandTruth(v: Val)
    ensures Trit(Unwrap(v)) == Some(true) <==> IsTrue(Taken(v))
    ensures Trit(Unwrap(v)) == Some(false) <==> IsFalse(Taken(v))
  {
    TritIsTruth(Unwrap(v));
  }

  lemma ThreeValues(t: Option<bool>)
    ensures t == None || t == Some(true) || t == Some(false)
  {
    if t.Some? { assert t.value || !t.value; }
  }

  // ----- an, ur, nai and kra -----

  lemma {:induction false} NotRaised(first: Expr, op: ConjOp, second: Expr, ctx: Ctx)
    requires IsSingle(Eval(first, ctx)) && IsSingle(Eval(second, ctx))
    requires !Item(Eval(first, ctx)).Raised? && !Item(Eval(second, ctx)).Raised?
    ensures Eval(Conj(first, [Op(op, second)]), ctx) ==
      ApplyBinary(Item(Eval(first, ctx)), op, Item(Eval(second, ctx)))
  {
    var x, y := Eval(first, ctx), Eval(second, ctx);
    var rest: seq<Term> := [Op(op, second)];
    assert rest[1..] == [];
    PlainConj(first, rest, ctx);
    NoneRaised(rest, ctx);
    PlainTokens(x, Tokens(rest, ctx));
    assert FoldChain(Item(x), rest, ctx) == FoldChain(ApplyBinary(Item(x), op, Item(y)), [], ctx);
  }

  /** `a an b` is false exactly when a side is false, and true exactly when both are true. */
  lemma {:induction false} AnMeans(a: Expr, b: Expr, ctx: Ctx)
    requires IsSingle(Eval(a, ctx)) && IsSingle(Eval(b, ctx))
    requires !Failed(Item(Eval(a, ctx))) && !Failed(Item(Eval(b, ctx)))
    ensures
      var x, y := Taken(Item(Eval(a, ctx))), Taken(Item(Eval(b, ctx)));
      var r := Eval(Conj(a, [Op(An, b)]), ctx);
      && (r == Truth(false) <==> IsFalse(x) || IsFalse(y))
      && (r == Truth(true) <==> IsTrue(x) && IsTrue(y))
      && (r == Undef || r.Truth?)
  {
    NotRaised(a, An, b, ctx);
    hide *;
    AnOfValues(Item(Eval(a, ctx)), Item(Eval(b, ctx)));
  }

  lemma AnOfValues(x: Val, y: Val)
    requires !Failed(x) && !Failed(y)
    ensures ApplyBinary(x, An, y) == Truth(false) <==> IsFalse(Taken(x)) || IsFalse(Taken(y))
    ensures ApplyBinary(x, An, y) == Truth(true) <==> IsTrue(Taken(x)) && IsTrue(Taken(y))
    ensures ApplyBinary(x, An, y) == Undef || ApplyBinary(x, An, y).Truth?
  {
    OperandTruth(x);
    OperandTruth(y);
    hide Trit, IsTrue, IsFalse, Unwrap, Taken;
    ThreeValues(Trit(Unwrap(x)));
    ThreeValues(Trit(Unwrap(y)));
  }

  lemma {:induction false} UrMeans(a: Expr, b: Expr, ctx: Ctx)
    requires IsSingle(Eval(a, ctx)) && IsSingle(Eval(b, ctx))
    requires !Failed(Item(Eval(a, ctx))) && !Failed(Item(Eval(b, ctx)))
    ensures
      var x, y := Taken(Item(Eval(a, ctx))), Taken(Item(Eval(b, ctx)));
      var r := Eval(Disj(a, [b]), ctx);
      && (r == Truth(true) <==> IsTrue(x) || IsTrue(y))
      && (r == Truth(false) <==> IsFalse(x) && IsFalse(y))
      && (r == Undef || r.Truth?)
  {
    PlainDisj(a, [b], ctx);
    var x, y := Item(Eval(a, ctx)), Item(Eval(b, ctx));
    assert FoldAny(x, [b], ctx) == FoldAny(ApplyBinary(x, Ur, y), [b][1..], ctx) == ApplyBinary(x, Ur, y);
    hide *;
    UrOfValues(x, y);
  }

  lemma UrOfValues(x: Val, y: Val)
    requires !Failed(x) && !Failed(y)
    ensures ApplyBinary(x, Ur, y) == Truth(true) <==> IsTrue(Taken(x)) || IsTrue(Taken(y))
    ensures ApplyBinary(x, Ur, y) == Truth(false) <==> IsFalse(Taken(x)) && IsFalse(Taken(y))
    ensures ApplyBinary(x, Ur, y) == Undef || ApplyBinary(x, Ur, y).Truth?
  {
    OperandTruth(x);
    OperandTruth(y);
    hide Trit, IsTrue, IsFalse, Unwrap, Taken;
    ThreeValues(Trit(Unwrap(x)));
    ThreeValues(Trit(Unwrap(y)));
  }

  lemma NaiMeans(a: Expr, ctx: Ctx)
    requires !Eval(a, ctx).Raised?
    ensures
      var x := Taken(Eval(a, ctx));
      var r := Eval(Unary([Nai], a), ctx);
      && (r == Truth(true) <==> IsFalse(x))
      && (r == Truth(false) <==> IsTrue(x))
      && (r == Undef || r.Truth?)
  {
    TritIsTruth(Taken(Eval(a, ctx)));
    assert [Nai][..0] == [];
    hide Trit, IsTrue, IsFalse, Taken;
  }

  lemma {:induction false} OutermostLast(op: UnaryOp, ops: seq<UnaryOp>, v: Val, sourceKey: Option<string>, ctx: Ctx)
    requires ops != []
    ensures
      var x := ApplyUnary(ops, v, sourceKey, ctx);
      ApplyUnary([op] + ops, v, sourceKey, ctx) == if x.Error? then x else ApplyUnary([op], x, None, ctx)
    decreases |ops|
  {
    var all, n := [op] + ops, |ops| - 1;
    assert all[n + 1] == ops[n] && all[..n + 1] == [op] + ops[..n];
    var r := if ops[n] == Shi then ApplyShi(v, sourceKey, ctx) else ApplyNai(v);
    hide ApplyShi, ApplyNai;
    if !r.Error? {
      if n == 0 {
        assert ops[..n] == [] && all[..n + 1] == [op];
      } else {
        OutermostLast(op, ops[..n], r, None, ctx);
      }
    }
  }

  /** An operator before others takes what they give, unless that is an error: nai its truth value, as before. */
  lemma NaiBeforeOperators(ops: seq<UnaryOp>, a: Expr, ctx: Ctx)
    requires ops != [] && !Eval(a, ctx).Raised?
    ensures
      var x := Eval(Unary(ops, a), ctx);
      var r := Eval(Unary([Nai] + ops, a), ctx);
      && (x.Error? ==> r == x)
      && (!x.Error? ==>
            && (r == Truth(true) <==> IsFalse(Taken(x)))
            && (r == Truth(false) <==> IsTrue(Taken(x)))
            && (r == Undef || r.Truth?))
  {
    var v, key := Eval(a, ctx), if a.Lit? then Some("@" + a.key) else None;
    var x := ApplyUnary(ops, v, key, ctx);
    assert Eval(Unary(ops, a), ctx) == x && Eval(Unary([Nai] + ops, a), ctx) == ApplyUnary([Nai] + ops, v, key, ctx);
    hide Eval;
    OutermostLast(Nai, ops, v, key, ctx);
    assert [Nai][..0] == [];
    TritIsTruth(Taken(x));
    hide Trit, IsTrue, IsFalse, Taken;
  }

  /** `a kra b` is the right side, a literal or truth object as its value, if the left side is true, else undefined. */
  lemma KraMeans(a: Expr, b: Expr, ctx: Ctx)
    requires IsSingle(Eval(a, ctx)) && IsSingle(Eval(b, ctx))
    requires !Failed(Item(Eval(a, ctx))) && !Failed(Item(Eval(b, ctx)))
    ensures
      var y := Item(Eval(b, ctx));
      Eval(Conj(a, [Op(Kra, b)]), ctx) ==
        if !IsTrue(Taken(Item(Eval(a, ctx)))) || y.Undef? || y.UndefObj? then Undef
        else if y.TruthObj? then y.inner else Taken(y)
  {
    NotRaised(a, Kra, b, ctx);
    hide *;
    KraOfValues(Item(Eval(a, ctx)), Item(Eval(b, ctx)));
  }

  lemma KraOfValues(x: Val, y: Val)
    requires !Failed(x) && !Failed(y)
    ensures ApplyBinary(x, Kra, y) ==
      if !IsTrue(Taken(x)) || y.Undef? || y.UndefObj? then Undef
      else if y.TruthObj? then y.inner else Taken(y)
  {
    OperandTruth(x);
    assert x.Undef? || x.UndefObj? ==> !IsTrue(Taken(x));
    hide Trit, IsTrue, IsFalse;
  }

  /** An error on either side is the result, the left one first. */
  lemma ErrorsPass(a: Expr, b: Expr, op: BinaryOp, ctx: Ctx)
    requires IsSingle(Eval(a, ctx)) && IsSingle(Eval(b, ctx))
    requires !Item(Eval(a, ctx)).Raised? && !Item(Eval(b, ctx)).Raised?
    requires Item(Eval(a, ctx)).Error? || Item(Eval(b, ctx)).Error?
    ensures
      var x, y := Item(Eval(a, ctx)), Item(Eval(b, ctx));
      Eval(if op == Ur then Disj(a, [b]) else Conj(a, [Op(op, b)]), ctx) == if x.Error? then x else y
  {
    var x, y := Item(Eval(a, ctx)), Item(Eval(b, ctx));
    if op == Ur {
      PlainDisj(a, [b], ctx);
      assert FoldAny(x, [b], ctx) == FoldAny(ApplyBinary(x, Ur, y), [b][1..], ctx) == ApplyBinary(x, Ur, y);
    } else {
      NotRaised(a, op, b, ctx);
    }
  }

  // ----- Juxtaposition and scopes -----

  predicate NamesOperator(v: Val) {
    v == Text("an") || v == Text("kra")
  }

  function Values(rest: seq<Term>, ctx: Ctx): seq<Val>
    requires forall i :: 0 <= i < |rest| ==> IsSingle(Eval(rest[i].e, ctx))
  {
    seq(|rest|, i requires 0 <= i < |rest| => Taken(Item(Eval(rest[i].e, ctx))))
  }

  predicate AreJuxtaposed(rest: seq<Term>, ctx: Ctx) {
    forall i :: 0 <= i < |rest| ==>
      && rest[i].Juxt?
      && IsSingle(Eval(rest[i].e, ctx))
      && !Item(Eval(rest[i].e, ctx)).Raised? && !NamesOperator(Item(Eval(rest[i].e, ctx)))
  }

  lemma JuxtStep(t: Term, tail: seq<Term>, ctx: Ctx)
    requires IsSingle(Eval(t.e, ctx)) && t.Juxt? && AreJuxtaposed(tail, ctx)
    ensures Tokens([t] + tail, ctx) == [V(Item(Eval(t.e, ctx)))] + Tokens(tail, ctx)
    ensures Values([t] + tail, ctx) == [Taken(Item(Eval(t.e, ctx)))] + Values(tail, ctx)
  {
    var rest := [t] + tail;
    assert rest[0] == t && rest[1..] == tail;
    var v := Eval(t.e, ctx);
    assert Tokens(rest, ctx) == [] + Spread(v) + Tokens(tail, ctx);
    hide Eval, Tokens, Taken;
    PlainTokens(v, Tokens(tail, ctx));
  }

  lemma {:induction false} JuxtFold(items: seq<Val>, rest: seq<Term>, ctx: Ctx)
    requires AreJuxtaposed(rest, ctx)
    ensures FoldConj(List(items), Tokens(rest, ctx)) == List(items + Values(rest, ctx))
    ensures V(Raised) !in Tokens(rest, ctx)
    decreases |rest|
  {
    if rest != [] {
      var t, tail := rest[0], rest[1..];
      assert rest == [t] + tail;
      var x := Item(Eval(t.e, ctx));
      assert !x.Raised? && !NamesOperator(x);
      assert AreJuxtaposed(tail, ctx);
      hide Eval, Tokens, AreJuxtaposed;
      JuxtStep(t, tail, ctx);
      JuxtFold(items + [Taken(x)], tail, ctx);
      var tokens := Tokens(rest, ctx);
      assert tokens[0] == V(x) && tokens[1..] == Tokens(tail, ctx);
      assert items + Values(rest, ctx) == items + [Taken(x)] + Values(tail, ctx);
    }
  }

  lemma JuxtTwo(x: Val, y: Val, tokens: seq<Token>)
    requires !x.List? && !NamesOperator(y)
    ensures FoldConj(x, [V(y)] + tokens) == FoldConj(List([Taken(x), Taken(y)]), tokens)
  {
    assert ([V(y)] + tokens)[1..] == tokens;
  }

  /** Juxtaposed items make one list of their values, in order. */
  lemma JuxtapositionMeans(first: Expr, rest: seq<Term>, ctx: Ctx)
    requires IsSingle(Eval(first, ctx)) && !Item(Eval(first, ctx)).List? && !Item(Eval(first, ctx)).Raised?
    requires rest != [] && AreJuxtaposed(rest, ctx)
    ensures Eval(Conj(first, rest), ctx) == List([Taken(Item(Eval(first, ctx)))] + Values(rest, ctx))
  {
    var x := Item(Eval(first, ctx));
    ChainValue(first, rest, ctx);
    hide *;
    AllJuxtaposed(x, rest, ctx);
  }

  lemma ChainValue(first: Expr, rest: seq<Term>, ctx: Ctx)
    requires IsSingle(Eval(first, ctx)) && rest != []
    ensures
      var x, tokens := Item(Eval(first, ctx)), Tokens(rest, ctx);
      Eval(Conj(first, rest), ctx) == if x.Raised? || V(Raised) in tokens then Raised else FoldConj(x, tokens)
  {
    hide Eval, Tokens;
    var flat := Spread(Eval(first, ctx)) + Tokens(rest, ctx);
    ConjFlat(first, rest, ctx);
    PlainTokens(Eval(first, ctx), Tokens(rest, ctx));
    assert flat[0] == V(Item(Eval(first, ctx))) && flat[1..] == Tokens(rest, ctx);
  }

  lemma AllJuxtaposed(x: Val, rest: seq<Term>, ctx: Ctx)
    requires !x.List? && rest != [] && AreJuxtaposed(rest, ctx)
    ensures V(Raised) !in Tokens(rest, ctx)
    ensures FoldConj(x, Tokens(rest, ctx)) == List([Taken(x)] + Values(rest, ctx))
  {
    var y, tail := Item(Eval(rest[0].e, ctx)), rest[1..];
    assert rest == [rest[0]] + tail && AreJuxtaposed(tail, ctx);
    assert !NamesOperator(y) && !y.Raised?;
    hide *;
    JuxtStep(rest[0], tail, ctx);
    JuxtFold([Taken(x), Taken(y)], tail, ctx);
    JuxtTwo(x, y, Tokens(tail, ctx));
    assert [Taken(x), Taken(y)] + Values(tail, ctx) == [Taken(x)] + Values(rest, ctx);
  }

  /** `sek e sek` is the list of what `e` gives, one item or several, without stray keywords. */
  lemma SekMeans(e: Expr, ctx: Ctx)
    requires !Eval(e, ctx).Raised?
    ensures
      var v := Eval(e, ctx);
      var items := if v.List? then v.items else [v];
      && Eval(Sek(e), ctx).List?
      && (forall x :: x in Eval(Sek(e), ctx).items <==> x in items && x != Text("sek") && x != Text("nek"))
      && (Text("sek") !in items && Text("nek") !in items ==> Eval(Sek(e), ctx) == List(items))
  {
    var v := Eval(e, ctx);
    KeywordsGo(if v.List? then v.items else [v]);
  }

  lemma {:induction false} KeywordsGo(items: seq<Val>)
    ensures forall x :: x in DropKeywords(items) <==> x in items && x != Text("sek") && x != Text("nek")
    ensures Text("sek") !in items && Text("nek") !in items ==> DropKeywords(items) == items
  {
    if items != [] {
      KeywordsGo(items[1..]);
      assert items == [items[0]] + items[1..];
    }
  }

  // ----- Exceptions -----

  /** An operand that raises, wherever it stands and whatever the other ones are: nothing is short-circuited. */
  predicate HasRaised(e: Expr, ctx: Ctx) {
    match e
    case Unary(_, operand) => Eval(operand, ctx).Raised?
    case Mek(_, target) => Eval(target, ctx).Raised?
    case Paren(inner) => Eval(inner, ctx).Raised?
    case Sek(inner) => Eval(inner, ctx).Raised?
    case Conj(first, rest) => Eval(first, ctx).Raised? || exists t :: t in rest && Eval(t.e, ctx).Raised?
    case Disj(left, more) => Eval(left, ctx).Raised? || exists x :: x in more && Eval(x, ctx).Raised?
    case Khi(cond, body) => Eval(cond, ctx).Raised? || Eval(body, ctx).Raised?
    case _ => false
  }

  lemma RaisingIsEager(e: Expr, ctx: Ctx)
    requires HasRaised(e, ctx)
    ensures Eval(e, ctx) == Raised
  {
    match e
    case Conj(first, rest) =>
      if t :| t in rest && Eval(t.e, ctx).Raised? { TermRaises(rest, t, ctx); }
      if rest != [] { RaisedFirst(Spread(Eval(first, ctx)), Tokens(rest, ctx)); }
    case Disj(left, more) =>
      if x :| x in more && Eval(x, ctx).Raised? { AlternativeRaises(more, x, ctx); }
      if more != [] { RaisedFirst(Spread(Eval(left, ctx)), UrTokens(more, ctx)); }
    case _ =>
  }

  lemma RaisedFirst(first: seq<Token>, tokens: seq<Token>)
    ensures first == Spread(Raised) ==> V(Raised) in first + tokens
    ensures V(Raised) in tokens ==> V(Raised) in first + tokens
  {
    assert Spread(Raised)[0] == V(Raised);
  }

  lemma {:induction false} TermRaises(rest: seq<Term>, t: Term, ctx: Ctx)
    requires t in rest && Eval(t.e, ctx).Raised?
    ensures V(Raised) in Tokens(rest, ctx)
  {
    if rest[0] == t {
      assert V(Raised) in Spread(Eval(t.e, ctx)) by { assert Spread(Raised)[0] == V(Raised); }
    } else {
      TermRaises(rest[1..], t, ctx);
    }
  }

  lemma {:induction false} AlternativeRaises(more: seq<Expr>, x: Expr, ctx: Ctx)
    requires x in more && Eval(x, ctx).Raised?
    ensures V(Raised) in UrTokens(more, ctx)
  {
    if more[0] == x {
      assert V(Raised) in Spread(Eval(x, ctx)) by { assert Spread(Raised)[0] == V(Raised); }
    } else {
      AlternativeRaises(more[1..], x, ctx);
    }
  }

  // ----- Operands that are lists -----

  lemma DisjFlat(a: Expr, more: seq<Expr>, ctx: Ctx)
    requires more != []
    ensures
      var flat := Spread(Eval(a, ctx)) + UrTokens(more, ctx);
      Eval(Disj(a, more), ctx) == if V(Raised) in flat then Raised else DisjOf(flat)
  {
  }

  lemma ConjFlat(a: Expr, rest: seq<Term>, ctx: Ctx)
    requires rest != []
    ensures
      var flat := Spread(Eval(a, ctx)) + Tokens(rest, ctx);
      Eval(Conj(a, rest), ctx) == if V(Raised) in flat then Raised else ConjOf(flat)
  {
  }

  lemma OneTermTokens(op: ConjOp, b: Expr, ctx: Ctx)
    requires IsSingle(Eval(b, ctx)) && !Item(Eval(b, ctx)).Raised?
    ensures Tokens([Op(op, b)], ctx) == [O(op), V(Item(Eval(b, ctx)))]
  {
    var rest: seq<Term> := [Op(op, b)];
    assert rest[1..] == [] && Tokens([], ctx) == [];
    PlainTokens(Eval(b, ctx), []);
    assert Tokens(rest, ctx) == [O(op)] + Spread(Eval(b, ctx)) + [];
  }

  /** A chain of nothing but empty lists has no first operand, which raises. */
  lemma EmptyChainRaises(a: Expr, b: Expr, ctx: Ctx)
    requires Eval(a, ctx) == List([]) && Eval(b, ctx) == List([])
    ensures Eval(Conj(a, [Juxt(b)]), ctx) == Raised
  {
    var rest: seq<Term> := [Juxt(b)];
    assert rest[1..] == [];
    assert Tokens(rest, ctx) == [];
  }

  /** An operator with nothing before it is taken for a text, and what follows is juxtaposed. */
  lemma LeadingOperator(a: Expr, b: Expr, op: ConjOp, ctx: Ctx)
    requires Eval(a, ctx) == List([])
    requires IsSingle(Eval(b, ctx)) && !Item(Eval(b, ctx)).Raised? && !NamesOperator(Item(Eval(b, ctx)))
    ensures Eval(Conj(a, [Op(op, b)]), ctx) ==
      List([Text(if op == An then "an" else "kra"), Taken(Item(Eval(b, ctx)))])
  {
    hide Eval, Tokens, FoldConj;
    var w := Item(Eval(b, ctx));
    OneTermTokens(op, b, ctx);
    ConjFlat(a, [Op(op, b)], ctx);
    assert Spread(List([])) + [O(op), V(w)] == [O(op), V(w)] && [O(op), V(w)][1..] == [V(w)] + [];
    var name := AsVal(O(op));
    JuxtTwo(name, w, []);
    assert FoldConj(List([name, Taken(w)]), []) == List([name, Taken(w)]) by { NothingToFold(List([name, Taken(w)])); }
  }

  lemma NothingToFold(v: Val)
    ensures FoldConj(v, []) == v
  {
  }

  lemma LoneUr(a: Expr, b: Expr, ctx: Ctx)
    requires Eval(a, ctx) == List([]) && Eval(b, ctx) == List([])
    ensures Eval(Disj(a, [b]), ctx) == Text("ur")
  {
    hide Eval;
    DisjFlat(a, [b], ctx);
    assert [b][1..] == [] && UrTokens([], ctx) == [];
    assert UrTokens([b], ctx) == [O(Ur)] + Spread(List([])) + [];
    hide UrTokens;
    assert Spread(List([])) == [];
    assert DisjOf([O(Ur)]) == FoldDisj(Text("ur"), []) == Text("ur");
  }

  /** Ahead of ur, a list of two leaves operators and operands out of step: undefined. */
  lemma PairBeforeUr(a: Expr, b: Expr, x: Val, y: Val, ctx: Ctx)
    requires Eval(a, ctx) == List([x, y]) && !x.Raised? && !y.Raised?
    requires IsSingle(Eval(b, ctx)) && !Item(Eval(b, ctx)).Raised?
    ensures Eval(Disj(a, [b]), ctx) == Undef
  {
    hide Eval, UrTokens;
    UrTokensOfOne(b, ctx);
    DisjFlat(a, [b], ctx);
    assert Spread(List([x, y])) == [V(x), V(y)];
  }

  lemma UrTokensOfOne(b: Expr, ctx: Ctx)
    requires IsSingle(Eval(b, ctx)) && !Item(Eval(b, ctx)).Raised?
    ensures UrTokens([b], ctx) == [O(Ur), V(Item(Eval(b, ctx)))]
  {
    assert [b][1..] == [];
    UrStep([b], ctx);
    assert UrTokens([], ctx) == [];
  }

  lemma TripleFolds(a: Expr, b: Expr, x: Val, y: Val, z: Val, ctx: Ctx)
    requires Eval(a, ctx) == List([x, y, z]) && !x.Raised? && !y.Raised? && !z.Raised?
    requires IsSingle(Eval(b, ctx)) && !Item(Eval(b, ctx)).Raised?
    ensures
      var step := DisjStep(x, V(y), z);
      Eval(Disj(a, [b]), ctx) == if step.Raised? then Raised else ApplyBinary(step, Ur, Item(Eval(b, ctx)))
  {
    hide Eval, UrTokens, DisjStep, ApplyBinary;
    UrTokensOfOne(b, ctx);
    DisjFlat(a, [b], ctx);
    var w := Item(Eval(b, ctx));
    var tail := [V(y), V(z), O(Ur), V(w)];
    assert Spread(List([x, y, z])) == [V(x), V(y), V(z)];
    assert [V(x), V(y), V(z)] + [O(Ur), V(w)] == [V(x)] + tail;
    assert ([V(x)] + tail)[1..] == tail && tail[2..] == [O(Ur), V(w)] && [O(Ur), V(w)][2..] == [];
    var step := DisjStep(x, V(y), z);
    assert DisjOf([V(x)] + tail) == FoldDisj(x, tail) == FoldDisj(step, [O(Ur), V(w)]);
    if !step.Raised? {
      assert FoldDisj(step, [O(Ur), V(w)]) == FoldDisj(DisjStep(step, O(Ur), w), []);
      assert DisjStep(step, O(Ur), w) == ApplyBinary(step, Ur, w) by { StepOfUr(step, w); }
    }
  }

  lemma StepOfUr(l: Val, r: Val)
    ensures DisjStep(l, O(Ur), r) == ApplyBinary(l, Ur, r)
  {
  }

  lemma StepOfThree(x: Val, y: Val, z: Val)
    requires !Failed(x) && !Failed(y) && !Failed(z) && !y.Sentinel?
    ensures DisjStep(x, V(y), z) ==
      if y == Text("ur") then ApplyBinary(x, Ur, z)
      else if y == Text("an") then ApplyBinary(x, An, z)
      else if y == Text("kra") then ApplyBinary(x, Kra, z)
      else if x.Undef? || x.UndefObj? || z.Undef? || z.UndefObj? then Undef
      else if y.Text? || y.Truth? || y.Number? || y.NullVal? || y.Undef? then List([Unwrap(x), y, Unwrap(z)])
      else Raised
  {
    hide ApplyBinary, Unwrap;
  }

  /**
   * Ahead of ur, the middle one of three items is read as an operator if it is the name of one; otherwise the three
   * are no truth value, and raise if it is a dict or a list.
   */
  lemma TripleBeforeUr(a: Expr, b: Expr, x: Val, y: Val, z: Val, ctx: Ctx)
    requires Eval(a, ctx) == List([x, y, z]) && !Failed(x) && !Failed(y) && !Failed(z) && !y.Sentinel?
    requires IsSingle(Eval(b, ctx)) && !Item(Eval(b, ctx)).Raised?
    ensures
      var three :=
        if y == Text("ur") then ApplyBinary(x, Ur, z)
        else if y == Text("an") then ApplyBinary(x, An, z)
        else if y == Text("kra") then ApplyBinary(x, Kra, z)
        else if x.Undef? || x.UndefObj? || z.Undef? || z.UndefObj? then Undef
        else if y.Text? || y.Truth? || y.Number? || y.NullVal? || y.Undef? then List([Unwrap(x), y, Unwrap(z)])
        else Raised;
      Eval(Disj(a, [b]), ctx) == if three.Raised? then Raised else ApplyBinary(three, Ur, Item(Eval(b, ctx)))
  {
    hide *;
    StepOfThree(x, y, z);
    assert !x.Raised? && !y.Raised? && !z.Raised? by { NoneFailed(x, y, z); }
    TripleFolds(a, b, x, y, z, ctx);
  }

  lemma NoneFailed(x: Val, y: Val, z: Val)
    requires !Failed(x) && !Failed(y) && !Failed(z)
    ensures !x.Raised? && !y.Raised? && !z.Raised?
  {
  }

  /** In a conjunction, an item that is the name of an operator is read as the operator. */
  lemma NamesAct(a: Expr, b: Expr, x: Val, z: Val, op: ConjOp, ctx: Ctx)
    requires Eval(a, ctx) == List([x, Text(if op == An then "an" else "kra"), z])
    requires !x.Raised? && !z.Raised? && IsSingle(Eval(b, ctx)) && !Item(Eval(b, ctx)).Raised?
    ensures Eval(Conj(a, [Op(An, b)]), ctx) == ApplyBinary(ApplyBinary(x, op, z), An, Item(Eval(b, ctx)))
  {
    var name, w := Text(if op == An then "an" else "kra"), Item(Eval(b, ctx));
    hide Eval, Tokens, ApplyBinary, FoldConj, AsConjOp;
    OneTermTokens(An, b, ctx);
    ConjFlat(a, [Op(An, b)], ctx);
    assert Spread(List([x, name, z])) == [V(x), V(name), V(z)];
    var tail := [V(name), V(z), O(An), V(w)];
    assert [V(x), V(name), V(z)] + [O(An), V(w)] == [V(x)] + tail;
    NameOfOperator(op);
    NamedFold(x, name, op, z, w);
    assert ([V(x)] + tail)[1..] == tail;
  }

  lemma NamedFold(x: Val, name: Val, op: ConjOp, z: Val, w: Val)
    requires AsConjOp(V(name)) == Some(op)
    ensures FoldConj(x, [V(name), V(z), O(An), V(w)]) == ApplyBinary(ApplyBinary(x, op, z), An, w)
  {
    hide ApplyBinary;
    var tail := [V(name), V(z), O(An), V(w)];
    assert tail[2..] == [O(An), V(w)] && [O(An), V(w)][2..] == [];
    assert FoldConj(ApplyBinary(x, op, z), [O(An), V(w)]) ==
      FoldConj(ApplyBinary(ApplyBinary(x, op, z), An, w), []);
  }

  lemma NameOfOperator(op: ConjOp)
    ensures AsConjOp(V(Text(if op == An then "an" else "kra"))) == Some(op)
  {
    assert |"an"| == 2 && |"kra"| == 3;
  }

  /** An operator with nothing behind it makes the chain undefined. */
  lemma TrailingOperator(a: Expr, b: Expr, op: ConjOp, ctx: Ctx)
    requires IsSingle(Eval(a, ctx)) && !Item(Eval(a, ctx)).Raised? && Eval(b, ctx) == List([])
    ensures Eval(Conj(a, [Op(op, b)]), ctx) == Undef
  {
    var x := Item(Eval(a, ctx));
    var rest: seq<Term> := [Op(op, b)];
    assert rest[1..] == [] && Tokens([], ctx) == [];
    assert Tokens(rest, ctx) == [O(op)] + Spread(List([])) + [] == [O(op)];
    hide Eval, Tokens;
    ChainValue(a, rest, ctx);
    assert FoldConj(x, [O(op)]) == Undef;
  }

  // ----- Numbers -----

  /** The number `n`, in any parentheses and scopes. */
  predicate IsNumeral(e: Expr, n: int) {
    match e
    case Num(m) => m == n
    case Paren(inner) => IsNumeral(inner, n)
    case Sek(inner) => IsNumeral(inner, n)
    case _ => false
  }

  lemma {:induction false} NumeralValue(e: Expr, n: int, ctx: Ctx)
    requires IsNumeral(e, n)
    ensures Eval(e, ctx) == Number(n) || Eval(e, ctx) == List([Number(n)])
    ensures IsSingle(Eval(e, ctx)) && Item(Eval(e, ctx)) == Number(n)
    ensures IsTrue(Eval(e, ctx)) <==> n != 0
    ensures IsFalse(Eval(e, ctx)) <==> n == 0
  {
    match e
    case Num(_) =>
    case Paren(inner) => NumeralValue(inner, n, ctx);
    case Sek(inner) =>
      NumeralValue(inner, n, ctx);
      var one := [Number(n)];
      assert one[1..] == [] && DropKeywords(one) == one + DropKeywords([]);
  }

  lemma NumberTruth(n: int)
    ensures IsTrue(Number(n)) <==> n != 0
    ensures IsFalse(Number(n)) <==> n == 0
    ensures IsTrue(Truth(true)) && !IsFalse(Truth(true)) && IsFalse(Truth(false)) && !IsTrue(Truth(false))
  {
  }

  /** As a truth value, a number is true exactly when it is not 0. */
  lemma NumbersAsTruth(e: Expr, n: int, b: bool, ctx: Ctx)
    requires IsNumeral(e, n)
    ensures Eval(Conj(e, [Op(An, Const(true))]), ctx) == Truth(n != 0)
    ensures Eval(Conj(Const(true), [Op(An, e)]), ctx) == Truth(n != 0)
    ensures Eval(Disj(e, [Const(false)]), ctx) == Truth(n != 0)
    ensures Eval(Disj(Const(false), [e]), ctx) == Truth(n != 0)
    ensures Eval(Unary([Nai], e), ctx) == Truth(n == 0)
    ensures Eval(Conj(e, [Op(Kra, Const(b))]), ctx) == if n != 0 then Truth(b) else Undef
  {
    NumeralValue(e, n, ctx);
    assert Eval(Const(true), ctx) == Truth(true) && Eval(Const(false), ctx) == Truth(false);
    assert Eval(Const(b), ctx) == Truth(b);
    NumberTruth(n);
    hide Eval, IsTrue, IsFalse;
    AnMeans(e, Const(true), ctx);
    AnMeans(Const(true), e, ctx);
    UrMeans(e, Const(false), ctx);
    UrMeans(Const(false), e, ctx);
    NaiMeans(e, ctx);
    KraMeans(e, Const(b), ctx);
  }

  // ----- Literals and facts -----

  predicate IsStored(m: map<string, Val>, k: string) {
    k in m && m[k] != NullVal
  }

  /** The literals hold a value under the key, bare or with its @. */
  predicate IsGrounded(key: string, ctx: Ctx) {
    ctx.literals.Some? && (IsStored(ctx.literals.value, key) || IsStored(ctx.literals.value, "@" + key))
  }

  /** A literal has the value stored under its bare key, else the one under its @ key, else it is undefined. */
  lemma LiteralMeans(key: string, ctx: Ctx)
    ensures
      var m := if ctx.literals.Some? then ctx.literals.value else map[];
      var v := Eval(Lit(key), ctx);
      && (IsStored(m, key) ==> v == Literal(key, m[key]))
      && (!IsStored(m, key) && IsStored(m, "@" + key) ==> v == Literal(key, m["@" + key]))
      && (!IsGrounded(key, ctx) ==>
            v == if ctx.strict && ctx.literals.None? then Error("ERR_CONTEXT_INCOMPLETE") else UndefObj)
  {
  }

  /**
   * Knowing a grounded literal is a fact under its bare key or, failing that, its @ key; one that is not grounded is
   * asked for with its @ and then with two. There is no other way to know it.
   */
  lemma ShiMeans(key: string, ctx: Ctx)
    ensures
      var m := if ctx.knowledge.Some? then ctx.knowledge.value else map[];
      var name := if IsGrounded(key, ctx) then key else "@" + key;
      var v := Eval(Unary([Shi], Lit(key)), ctx);
      && (name in m ==> v == m[name])
      && (name !in m && "@" + name in m ==> v == m["@" + name])
      && (name !in m && "@" + name !in m ==>
            v == if ctx.strict && ctx.knowledge.Some? then Error("ERR_EPISTEMIC_MISMATCH") else Undef)
  {
    LiteralMeans(key, ctx);
    assert [Shi][..0] == [];
  }

  /** What is known under a name: the fact stored for it or, failing that, for the name with one more @. */
  function Asked(name: string, ctx: Ctx): Val {
    if ctx.knowledge.None? then Undef
    else if name in ctx.knowledge.value then ctx.knowledge.value[name]
    else if "@" + name in ctx.knowledge.value then ctx.knowledge.value["@" + name]
    else if ctx.strict then Error("ERR_EPISTEMIC_MISMATCH")
    else Undef
  }

  /**
   * Knowing what is no literal in the text: a value that is one is asked for by its key, a text with an @ in front by
   * itself, and nothing else can be known. The same goes for shi before other operators.
   */
  lemma ShiOfValue(ops: seq<UnaryOp>, e: Expr, ctx: Ctx)
    requires !Eval(e, ctx).Raised? && (ops == [] ==> !e.Lit?)
    ensures
      var x, r := Eval(Unary(ops, e), ctx), Eval(Unary([Shi] + ops, e), ctx);
      && (x.Literal? ==> r == Asked(x.key, ctx))
      && (x.Text? && x.s != "" && x.s[0] == '@' ==> r == Asked(x.s, ctx))
      && (ops != [] && x.Error? ==> r == x)
      && (!x.Literal? && !(x.Text? && x.s != "" && x.s[0] == '@') && !x.Error? ==> r == Undef)
  {
    var v, key := Eval(e, ctx), if e.Lit? then Some("@" + e.key) else None;
    var x := ApplyUnary(ops, v, key, ctx);
    assert Eval(Unary(ops, e), ctx) == x && Eval(Unary([Shi] + ops, e), ctx) == ApplyUnary([Shi] + ops, v, key, ctx);
    hide Eval;
    assert [Shi][..0] == [] && [Shi] + [] == [Shi];
    if ops != [] {
      OutermostLast(Shi, ops, v, key, ctx);
    }
    assert ApplyUnary([Shi], x, None, ctx) == ApplyShi(x, None, ctx);
  }

  // ----- Actions -----

  /** What a strict evaluation asks of the context before it acts. */
  predicate HasParts(verb: string, ctx: Ctx) {
    ctx.hasSpatial && (verb == "men" ==> ctx.hasAudit)
  }

  /** Acting on a literal names its key with an @, whatever its value; only an action is nested as it is. */
  lemma MekMeans(verb: string, key: string, ctx: Ctx)
    ensures
      var v := Eval(Lit(key), ctx);
      Eval(Mek(verb, Lit(key)), ctx) ==
        if IsGrounded(key, ctx) && (ctx.strict ==> HasParts(verb, ctx)) then
          Action(verb, if Taken(v).Action? then Taken(v) else Text("@" + key))
        else if !ctx.strict then Sentinel
        else if ctx.literals.None? then Error("ERR_CONTEXT_INCOMPLETE")
        else if !IsGrounded(key, ctx) then Error("ERR_UNDEFINED_TARGET")
        else Error("ERR_BAD_CONTEXT")
  {
    LiteralMeans(key, ctx);
  }

  /** The value of a target that can be acted on in partial mode: anything but a failure and the undefined ones. */
  predicate IsTarget(v: Val) {
    !Failed(v) && !v.Undef? && !v.UndefObj?
  }

  /** The same in strict mode, which takes neither truth values nor numbers either. */
  predicate IsStrictTarget(v: Val) {
    IsTarget(v) && !v.Truth? && !v.Number?
  }

  predicate CanAct(verb: string, v: Val, ctx: Ctx) {
    if ctx.strict then IsStrictTarget(v) && HasParts(verb, ctx) else IsTarget(v)
  }

  /** Whatever the target is: an action comes of it exactly when it can be acted on, and else what is wrong with it. */
  lemma ActsOnTargets(verb: string, target: Expr, ctx: Ctx)
    ensures
      var v := Eval(target, ctx);
      var r := Eval(Mek(verb, target), ctx);
      && (Actions(r) != {} <==> CanAct(verb, v, ctx))
      && (CanAct(verb, v, ctx) ==> r.Action? && r.verb == verb && (!v.Literal? ==> r.target == v))
      && (Failed(v) ==> r == v)
      && (!ctx.strict && !Failed(v) && !IsTarget(v) ==> r == Sentinel)
      && (ctx.strict && v.UndefObj? ==> r == Error("ERR_UNDEFINED_TARGET"))
      && (ctx.strict && (v.Truth? || v.Number?) ==> r == Error("ERR_INVALID_ACTION"))
      && (ctx.strict && (v.Undef? || IsStrictTarget(v)) && !HasParts(verb, ctx) ==> r == Error("ERR_BAD_CONTEXT"))
      && (ctx.strict && v.Undef? && HasParts(verb, ctx) ==> r == Error("ERR_UNDEFINED_TARGET"))
  {
  }

  // ----- Guarded actions -----

  /** A guard lets an action through in partial mode when it is true; strict mode takes truth values only. */
  predicate Lets(c: Val, ctx: Ctx) {
    if ctx.strict then c == Truth(true) else IsTrue(c)
  }

  predicate IsGuard(c: Val) {
    c.Truth? || c.Undef? || c.UndefObj? || c.NullVal? || c.Error?
  }

  /** `cond khi sek mek target sek`: an action comes out exactly when the condition lets it and it can be acted on. */
  lemma GuardMeans(cond: Expr, verb: string, target: Expr, ctx: Ctx)
    ensures
      var c, v := Eval(cond, ctx), Eval(target, ctx);
      var r := Eval(Khi(cond, Mek(verb, target)), ctx);
      && (Actions(r) != {} <==> Lets(c, ctx) && CanAct(verb, v, ctx))
      && r == if c.Raised? || v.Raised? then Raised
              else if Lets(c, ctx) then List([Eval(Mek(verb, target), ctx)])
              else if ctx.strict && !IsGuard(c) then Error("ERR_GUARD_TYPE")
              else Undef
  {
    var c, body := Eval(cond, ctx), Eval(Mek(verb, target), ctx);
    ActsOnTargets(verb, target, ctx);
    assert body.Raised? <==> Eval(target, ctx).Raised?;
    assert Eval(Khi(cond, Mek(verb, target)), ctx) ==
      if c.Raised? || body.Raised? then Raised else GuardedOf(c, body, ctx);
    hide Eval, Actions;
    NothingActs();
    if c.Raised? {
      assert !Lets(c, ctx);
    } else if !body.Raised? {
      MekResult(verb, target, ctx);
      OneActs(body);
      GuardedBlock(c, body, ctx);
    }
  }

  lemma NothingActs()
    ensures Actions(Undef) == Actions(Raised) == Actions(Error("ERR_GUARD_TYPE")) == {}
  {
  }

  lemma MekResult(verb: string, target: Expr, ctx: Ctx)
    requires !Eval(target, ctx).Raised?
    ensures var r := Eval(Mek(verb, target), ctx); r.Action? || r.Error? || (!ctx.strict && r == Sentinel)
  {
  }

  lemma GuardedBlock(c: Val, body: Val, ctx: Ctx)
    requires body.Action? || body.Error? || (!ctx.strict && body == Sentinel)
    ensures GuardedOf(c, body, ctx) ==
      if Lets(c, ctx) then List([body])
      else if ctx.strict && !IsGuard(c) then Error("ERR_GUARD_TYPE") else Undef
  {
    TritIsTruth(c);
    assert SekScope(body) == List([body]);
    assert ctx.strict ==> IsActionBlock(List([body]));
    hide Trit, IsTrue, SekScope, IsActionBlock;
    if IsGuard(c) { StrictTruth(c); }
  }

  lemma StrictTruth(c: Val)
    requires IsGuard(c)
    ensures IsTrue(c) <==> c == Truth(true)
  {
  }

  lemma OneActs(v: Val)
    ensures Actions(List([v])) == Actions(v)
  {
    assert [v][0] == v;
  }

  /** A number as the guard: an action comes out exactly when it is not 0, and in strict mode never. */
  lemma {:induction false} NumbersGuard(cond: Expr, n: int, verb: string, target: Expr, ctx: Ctx)
    requires IsNumeral(cond, n)
    ensures
      var v, r := Eval(target, ctx), Eval(Khi(cond, Mek(verb, target)), ctx);
      && (Actions(r) != {} <==> !ctx.strict && n != 0 && IsTarget(v))
      && (ctx.strict && !v.Raised? ==> r == Error("ERR_GUARD_TYPE"))
      && (!ctx.strict && !v.Raised? && n == 0 ==> r == Undef)
  {
    NumeralValue(cond, n, ctx);
    GuardMeans(cond, verb, target, ctx);
    hide Eval, Actions;
  }

  /** `shi @key khi sek mek @target sek`, down to the maps of the context. */
  lemma FactsGuard(key: string, verb: string, target: string, ctx: Ctx, fact: Val)
    requires ctx.knowledge.Some?
    requires key !in ctx.knowledge.value && "@" + key in ctx.knowledge.value && ctx.knowledge.value["@" + key] == fact
    ensures
      var r := Eval(Khi(Unary([Shi], Lit(key)), Mek(verb, Lit(target))), ctx);
      && (Actions(r) != {} <==>
            && IsGrounded(target, ctx)
            && (if ctx.strict then fact == Truth(true) && HasParts(verb, ctx) else IsTrue(fact)))
      && (fact.Number? && !ctx.strict ==> (Actions(r) != {} <==> fact.n != 0 && IsGrounded(target, ctx)))
      && (fact.Number? && ctx.strict ==> r == Error("ERR_GUARD_TYPE"))
  {
    ShiMeans(key, ctx);
    LiteralMeans(target, ctx);
    GuardMeans(Unary([Shi], Lit(key)), verb, Lit(target), ctx);
    hide Eval, Actions;
  }

  // ----- The Rust core -----

  /** The Rust condition: only a truth value or an undefined one will do, an error passes, and true alone acts. */
  lemma RustConditionalMeans(cond: Rs.Expr, guard: Rs.Expr, ctx: Ctx)
    ensures
      var c, r := Rs.Eval(cond, ctx), Rs.Eval(Rs.Conditional(cond, guard), ctx);
      && (c == Rs.Truth(true) ==> r == Rs.Eval(guard, ctx))
      && (c == Rs.Truth(false) || c == Rs.NoeVal.Undefined ==> r == Rs.NoeVal.Undefined)
      && (c.Error? ==> r == c)
      && (c.Literal? || c.Action? ==> r == Rs.Error("ERR_GUARD_TYPE"))
  {
  }

  /** The Rust shi asks about a literal, also one that an expression comes to; errors pass, all else is undefined. */
  lemma RustShiMeans(operand: Rs.Expr, ctx: Ctx)
    ensures
      var v, r := Rs.Eval(operand, ctx), Rs.Eval(Rs.UnaryOp(Rs.Shi, operand), ctx);
      && (v.Literal? ==> r == Rs.Eval(Rs.UnaryOp(Rs.Shi, Rs.Expr.Literal(v.key)), ctx))
      && (v.Error? ==> r == v)
      && (v.Truth? || v.Undefined? || v.Action? ==> r == Rs.NoeVal.Undefined)
  {
  }

  /** What the Rust core makes of a stored fact: a number is true when above 0, a null is undefined. */
  lemma RustFactMeans(key: string, verb: string, target: Rs.Expr, ctx: Ctx, fact: Val)
    requires ctx.knowledge.Some?
    requires
      var m := ctx.knowledge.value;
      if key in m then m[key] == fact else "@" + key in m && m["@" + key] == fact
    ensures
      var known := Rs.Eval(Rs.UnaryOp(Rs.Shi, Rs.Expr.Literal(key)), ctx);
      && (fact.Truth? ==> known == Rs.Truth(fact.b))
      && (fact.Number? ==> known == Rs.Truth(fact.n > 0))
      && (fact.NullVal? ==> known == Rs.NoeVal.Undefined)
      && (!fact.Truth? && !fact.Number? && !fact.NullVal? ==>
            known == if ctx.strict then Rs.Error("ERR_EPISTEMIC_MISMATCH") else Rs.NoeVal.Undefined)
    ensures
      var rust := Rs.Eval(Rs.Conditional(Rs.UnaryOp(Rs.Shi, Rs.Expr.Literal(key)), Rs.Expr.Action(verb, target)), ctx);
      rust == Rs.NoeVal.Action(verb) <==> fact == Truth(true) || (fact.Number? && fact.n > 0)
  {
    var known := Rs.Eval(Rs.UnaryOp(Rs.Shi, Rs.Expr.Literal(key)), ctx);
    assert known == Rs.EvalShi(Rs.Expr.Literal(key), ctx) == Rs.KnowledgeOf(key, ctx);
    assert Rs.Eval(Rs.Expr.Action(verb, target), ctx) == Rs.NoeVal.Action(verb);
  }

  /**
   * So on one stored fact the two evaluators let an action through alike exactly when it is no negative number (in
   * strict mode: no positive one) and no true value inside a list or a truth object.
   */
  lemma FactsDivide(key: string, verb: string, target: string, ctx: Ctx, fact: Val)
    requires ctx.knowledge.Some? && IsGrounded(target, ctx) && HasParts(verb, ctx)
    requires key !in ctx.knowledge.value && "@" + key in ctx.knowledge.value && ctx.knowledge.value["@" + key] == fact
    ensures
      var python := Eval(Khi(Unary([Shi], Lit(key)), Mek(verb, Lit(target))), ctx);
      var act := Rs.Expr.Action(verb, Rs.Expr.Literal(target));
      var rust := Rs.Eval(Rs.Conditional(Rs.UnaryOp(Rs.Shi, Rs.Expr.Literal(key)), act), ctx);
      (Actions(python) != {} <==> rust == Rs.NoeVal.Action(verb)) <==>
        if ctx.strict then !(fact.Number? && fact.n > 0)
        else !(fact.Number? && fact.n < 0) && !((fact.List? || fact.TruthObj?) && IsTrue(fact))
  {
    FactsGuard(key, verb, target, ctx, fact);
    RustFactMeans(key, verb, Rs.Expr.Literal(target), ctx, fact);
    hide Eval, Actions;
  }
}
