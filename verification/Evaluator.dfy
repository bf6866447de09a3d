/**
 * The eager, bottom-up evaluator of noe/noe_parser.py (`NoeEvaluator`), for constants, numbers,
 * literals, nai, shi, actions, parentheses, sek scopes, juxtaposition, an, kra, ur and khi.
 */
module Evaluator {
  import opened Options

  /** A Python value, classified by what the evaluator can tell about it. */
  datatype Val =
    | Undef                                  // the string "undefined"
    | Sentinel                               // _U
    | UndefObj                               // {"domain": "undefined", ...}
    | NullVal
    | Truth(b: bool)
    | Number(n: int)
    | Text(s: string)                        // any other string
    | List(items: seq<Val>)
    | TruthObj(inner: Val)                   // {"domain": "truth", "value": inner}
    | Literal(key: string, value: Val)       // {"domain": "literal", "key": key, "value": value}
    | Error(code: string)                    // {"domain": "error", "code": code, ...}
    | Action(verb: string, target: Val)      // {"type": "action", ...}
    | Record(id: nat)                        // any other dict
    | Raised                                 // an exception: the evaluation is abandoned

  datatype UnaryOp = Nai | Shi

  datatype BinaryOp = An | Kra | Ur

  type ConjOp = op: BinaryOp | op != Ur witness An

  datatype Expr =
    | Const(b: bool)
    | UndefConst
    | Num(n: int)
    | Lit(key: string)
    | Unary(ops: seq<UnaryOp>, operand: Expr)
    | Mek(verb: string, target: Expr)
    | Paren(e: Expr)
    | Sek(e: Expr)
    | Conj(first: Expr, rest: seq<Term>)
    | Disj(left: Expr, more: seq<Expr>)
    | Khi(cond: Expr, body: Expr)

  /** What follows the first operand of a conjunction: `op e`, or just `e`. */
  datatype Term = Op(op: ConjOp, e: Expr) | Juxt(e: Expr)

  datatype Ctx = Ctx(
    strict: bool,
    literals: Option<map<string, Val>>,
    knowledge: Option<map<string, Val>>,
    hasSpatial: bool,
    hasAudit: bool)

  // ----- Three-valued logic -----

  predicate IsUndef(v: Val) {
    v.Undef? || v.Sentinel? || v.UndefObj?
  }

  /** `_to_trit`: None is the undefined truth value. */
  function Trit(v: Val): Option<bool> {
    match v
    case Truth(b) => Some(b)
    case Number(n) => Some(n != 0)
    case List(items) => if |items| == 1 then Trit(items[0]) else None
    case TruthObj(inner) => Trit(inner)
    case _ => None
  }

  function FromTrit(t: Option<bool>): Val {
    if t.None? then Undef else Truth(t.value)
  }

  function Not(t: Option<bool>): Option<bool> {
    if t.None? then None else Some(!t.value)
  }

  function And(a: Option<bool>, b: Option<bool>): Option<bool> {
    if a == Some(false) || b == Some(false) then Some(false)
    else if a.None? || b.None? then None
    else Some(true)
  }

  function Or(a: Option<bool>, b: Option<bool>): Option<bool> {
    if a == Some(true) || b == Some(true) then Some(true)
    else if a == Some(false) && b == Some(false) then Some(false)
    else None
  }

  // ----- Atoms -----

  function Get(m: map<string, Val>, k: string): Val {
    if k in m then m[k] else NullVal
  }

  /** `visit_literal`; without a literals map the partial mode uses an empty one. */
  function EvalLiteral(key: string, ctx: Ctx): Val {
    if ctx.literals.None? && ctx.strict then Error("ERR_CONTEXT_INCOMPLETE") else
    var m := if ctx.literals.None? then map[] else ctx.literals.value;
    var v := if Get(m, key) != NullVal then Get(m, key) else Get(m, "@" + key);
    if v == NullVal then UndefObj else Literal(key, v)
  }

  // ----- Unary operators -----

  /** The knowledge stored for a key as given, or with one more @. */
  function Known(m: map<string, Val>, key: string): Option<Val> {
    if key in m then Some(m[key]) else if "@" + key in m then Some(m["@" + key]) else None
  }

  /** The key `shi` asks about: the literal's, else the source text's, else an @-string value. */
  function ShiKey(v: Val, sourceKey: Option<string>): Option<string> {
    if v.Literal? then Some(v.key)
    else if sourceKey.Some? then sourceKey
    else if v.Text? && v.s != "" && v.s[0] == '@' then Some(v.s)
    else None
  }

  function ApplyShi(v: Val, sourceKey: Option<string>, ctx: Ctx): Val {
    if ctx.knowledge.None? then Undef else
    var key := ShiKey(v, sourceKey);
    if key.None? then Undef else
    match Known(ctx.knowledge.value, key.value)
    case Some(known) => known
    case None => if ctx.strict then Error("ERR_EPISTEMIC_MISMATCH") else Undef
  }

  function ApplyNai(v: Val): Val {
    FromTrit(Not(Trit(if v.Literal? then v.value else v)))
  }

  /** The operators apply innermost first, and stop at the first error one of them gives. */
  function ApplyUnary(ops: seq<UnaryOp>, v: Val, sourceKey: Option<string>, ctx: Ctx): Val
    decreases |ops|
  {
    if ops == [] then v else
    var op := ops[|ops| - 1];
    var r := if op == Shi then ApplyShi(v, sourceKey, ctx) else ApplyNai(v);
    if r.Error? then r else ApplyUnary(ops[..|ops| - 1], r, None, ctx)
  }

  // ----- Binary operators -----

  function Unwrap(v: Val): Val {
    match v
    case UndefObj => Undef
    case TruthObj(inner) => inner
    case Literal(_, value) => value
    case _ => v
  }

  function ApplyBinary(l: Val, op: BinaryOp, r: Val): Val {
    if l.Error? then l
    else if r.Error? then r
    else match op
      case Kra =>
        if l.Undef? || l.UndefObj? || r.Undef? || r.UndefObj? then Undef
        else if Trit(Unwrap(l)) == Some(true) then Unwrap(r) else Undef
      case An => FromTrit(And(Trit(Unwrap(l)), Trit(Unwrap(r))))
      case Ur => FromTrit(Or(Trit(Unwrap(l)), Trit(Unwrap(r))))
  }

  // ----- Chains -----

  /** A child of a conjunction or disjunction node: an operator token or a value. */
  datatype Token = O(op: BinaryOp) | V(v: Val)

  /** Flattening: a list contributes its items. */
  function Spread(v: Val): seq<Token> {
    if v.List? then seq(|v.items|, i requires 0 <= i < |v.items| => V(v.items[i])) else [V(v)]
  }

  function OpText(op: BinaryOp): string {
    match op case An => "an" case Kra => "kra" case Ur => "ur"
  }

  /** A token read as a value; operators are strings too. */
  function AsVal(t: Token): Val {
    if t.O? then Text(OpText(t.op)) else t.v
  }

  /** A token read as a conjunction operator: also a value that happens to be its name. */
  function AsConjOp(t: Token): Option<BinaryOp> {
    if t == O(An) || t == V(Text("an")) then Some(An)
    else if t == O(Kra) || t == V(Text("kra")) then Some(Kra)
    else None
  }

  /** Juxtaposition: the item joins the list so far, or starts one. */
  function Join(result: Val, item: Val): Val {
    var x := if item.Literal? then item.value else item;
    if result.List? then List(result.items + [x])
    else List([if result.Literal? then result.value else result, x])
  }

  /** The left fold of `visit_conjunction`, from an intermediate result. */
  function FoldConj(result: Val, tokens: seq<Token>): Val
    decreases |tokens|
  {
    if tokens == [] then result
    else if AsConjOp(tokens[0]).Some? then
      if |tokens| == 1 then Undef
      else FoldConj(ApplyBinary(result, AsConjOp(tokens[0]).value, AsVal(tokens[1])), tokens[2..])
    else FoldConj(Join(result, AsVal(tokens[0])), tokens[1..])
  }

  function ConjOf(flat: seq<Token>): Val {
    if flat == [] then Raised else FoldConj(AsVal(flat[0]), flat[1..])
  }

  /** A dict or list used as an operator: looking it up raises. */
  predicate Unhashable(v: Val) {
    v.List? || v.UndefObj? || v.TruthObj? || v.Literal? || v.Error? || v.Action? || v.Record?
  }

  function AsDisjOp(t: Token): Option<BinaryOp> {
    if t == O(Ur) || t == V(Text("ur")) then Some(Ur) else AsConjOp(t)
  }

  /** One step of `visit_disjunction`, whose operator token can be a value after flattening. */
  function DisjStep(l: Val, op: Token, r: Val): Val {
    if AsDisjOp(op).Some? then ApplyBinary(l, AsDisjOp(op).value, r)
    else if l.Error? then l
    else if r.Error? then r
    else if l.Undef? || l.UndefObj? || r.Undef? || r.UndefObj? then Undef
    else if Unhashable(AsVal(op)) then Raised
    else List([Unwrap(l), AsVal(op), Unwrap(r)])
  }

  function FoldDisj(result: Val, tokens: seq<Token>): Val
    requires |tokens| % 2 == 0
    decreases |tokens|
  {
    if tokens == [] then result
    else if result.Raised? then Raised
    else FoldDisj(DisjStep(result, tokens[0], AsVal(tokens[1])), tokens[2..])
  }

  function DisjOf(flat: seq<Token>): Val {
    if |flat| % 2 == 0 then Undef else FoldDisj(AsVal(flat[0]), flat[1..])
  }

  // ----- Scopes, actions and guards -----

  predicate IsKeyword(v: Val) {
    v == Text("sek") || v == Text("nek")
  }

  function DropKeywords(items: seq<Val>): seq<Val> {
    if items == [] then []
    else (if IsKeyword(items[0]) then [] else [items[0]]) + DropKeywords(items[1..])
  }

  /** `visit_scoped` for sek X sek: the items of a list, or a list of one. */
  function ScopedOf(v: Val): Val {
    List(DropKeywords(if v.List? then v.items else [v]))
  }

  /** `visit_sek_scope`, the body of khi: always one more list around the value. */
  function SekScope(v: Val): Val {
    List(if v == Text("sek") then [] else [v])
  }

  /** The target an action keeps: a literal stands for itself, unless it names an action. */
  function TargetOf(v: Val): Val {
    if v.Literal? then (if v.value.Action? then v.value else Text("@" + v.key)) else v
  }

  /** `visit_action_event` up to hashing. */
  function ActionOf(verb: string, v: Val, ctx: Ctx): Val {
    var target := TargetOf(v);
    if target.Error? then target
    else if ctx.strict && target.UndefObj? then Error("ERR_UNDEFINED_TARGET")
    else if ctx.strict && (target.Truth? || target.Number?) then Error("ERR_INVALID_ACTION")
    else if ctx.strict && (!ctx.hasSpatial || (verb == "men" && !ctx.hasAudit)) then Error("ERR_BAD_CONTEXT")
    else if target.Undef? || target.UndefObj? then
      if ctx.strict then Error("ERR_UNDEFINED_TARGET") else Sentinel
    else Action(verb, target)
  }

  predicate IsActionBlock(v: Val) {
    v.Error? || v.Action? || (v.List? && forall i :: 0 <= i < |v.items| ==> IsActionBlock(v.items[i]))
  }

  /** `_handle_conditional` on `cond khi body`. */
  function GuardedOf(cond: Val, body: Val, ctx: Ctx): Val {
    var block := SekScope(body);
    if ctx.strict && !cond.Undef? && !cond.NullVal? && !cond.Truth? && !cond.UndefObj? && !cond.Error? then
      Error("ERR_GUARD_TYPE")
    else if Trit(cond) != Some(true) then Undef
    else if ctx.strict && !IsActionBlock(block) then Error("ERR_GUARD_TYPE")
    else block
  }

  // ----- Evaluation -----

  function Eval(e: Expr, ctx: Ctx): Val {
    match e
    case Const(b) => Truth(b)
    case UndefConst => Undef
    case Num(n) => Number(n)
    case Lit(key) => EvalLiteral(key, ctx)
    case Unary(ops, operand) =>
      var v := Eval(operand, ctx);
      if v.Raised? then Raised
      else ApplyUnary(ops, v, if operand.Lit? then Some("@" + operand.key) else None, ctx)
    case Mek(verb, target) =>
      var v := Eval(target, ctx);
      if v.Raised? then Raised else ActionOf(verb, v, ctx)
    case Paren(inner) => Eval(inner, ctx)
    case Sek(inner) =>
      var v := Eval(inner, ctx);
      if v.Raised? then Raised else ScopedOf(v)
    case Conj(first, rest) =>
      if rest == [] then Eval(first, ctx) else
      var flat := Spread(Eval(first, ctx)) + Tokens(rest, ctx);
      if V(Raised) in flat then Raised else ConjOf(flat)
    case Disj(left, more) =>
      if more == [] then Eval(left, ctx) else
      var flat := Spread(Eval(left, ctx)) + UrTokens(more, ctx);
      if V(Raised) in flat then Raised else DisjOf(flat)
    case Khi(cond, body) =>
      var c, b := Eval(cond, ctx), Eval(body, ctx);
      if c.Raised? || b.Raised? then Raised else GuardedOf(c, b, ctx)
  }

  function Tokens(rest: seq<Term>, ctx: Ctx): seq<Token> {
    if rest == [] then [] else
      assert rest[0].e < rest[0];
      (if rest[0].Op? then [O(rest[0].op)] else []) + Spread(Eval(rest[0].e, ctx)) + Tokens(rest[1..], ctx)
  }

  function UrTokens(more: seq<Expr>, ctx: Ctx): seq<Token> {
    if more == [] then [] else [O(Ur)] + Spread(Eval(more[0], ctx)) + UrTokens(more[1..], ctx)
  }

  // ----- The loops -----

  /** `visit_conjunction` */
  method VisitConjunction(flat: seq<Token>) returns (result: Val)
    requires flat != []
    ensures result == ConjOf(flat)
  {
    result := AsVal(flat[0]);
    var i := 1;
    while i < |flat|
      invariant 1 <= i <= |flat|
      invariant FoldConj(result, flat[i..]) == ConjOf(flat)
    {
      var op := AsConjOp(flat[i]);
      if op.Some? {
        if i + 1 >= |flat| { return Undef; }
        assert flat[i..][2..] == flat[i + 2..];
        result := ApplyBinary(result, op.value, AsVal(flat[i + 1]));
        i := i + 2;
      } else {
        assert flat[i..][1..] == flat[i + 1..];
        result := Join(result, AsVal(flat[i]));
        i := i + 1;
      }
    }
  }

  /** `visit_disjunction` */
  method VisitDisjunction(flat: seq<Token>) returns (result: Val)
    ensures result == DisjOf(flat)
  {
    if |flat| % 2 == 0 { return Undef; }
    result := AsVal(flat[0]);
    var i := 1;
    while i < |flat|
      invariant 1 <= i <= |flat| && (|flat| - i) % 2 == 0
      invariant FoldDisj(result, flat[i..]) == DisjOf(flat)
    {
      if result.Raised? { return; }
      assert flat[i..][2..] == flat[i + 2..];
      result := DisjStep(result, flat[i], AsVal(flat[i + 1]));
      i := i + 2;
    }
  }
}
