/** The short-circuiting evaluator of rust/noe_core/src/eval.rs, over the context of the Python model. */
module RustEval {
  import opened Options
  import Py = Evaluator

  type Ctx = Py.Ctx

  datatype UnaryOp = Nai | Shi
  datatype BinOp = An | Ur | Kra

  datatype Expr =
    | Bool(b: bool)
    | Undefined
    | Literal(name: string)
    | UnaryOp(uop: UnaryOp, operand: Expr)
    | BinOp(bop: BinOp, left: Expr, right: Expr)
    | Action(verb: string, target: Expr)
    | Conditional(cond: Expr, guard: Expr)

  datatype NoeVal =
    | Truth(b: bool)
    | Undefined
    | Literal(key: string)
    | Error(code: string)
    | Action(verb: string)

  function K3Not(v: NoeVal): NoeVal {
    if v.Truth? then Truth(!v.b) else v
  }

  /** `k3_and`: the right side is not evaluated behind false or an error. */
  function K3And(left: NoeVal, right: Expr, ctx: Ctx): NoeVal
    decreases right, 1
  {
    if left == Truth(false) || left.Error? then left else
    match (left, Eval(right, ctx))
    case (Truth(a), Truth(b)) => Truth(a && b)
    case (_, Truth(false)) => Truth(false)
    case (_, Error(code)) => Error(code)
    case _ => NoeVal.Undefined
  }

  function K3Or(left: NoeVal, right: Expr, ctx: Ctx): NoeVal
    decreases right, 1
  {
    if left == Truth(true) || left.Error? then left else
    match (left, Eval(right, ctx))
    case (Truth(a), Truth(b)) => Truth(a || b)
    case (_, Truth(true)) => Truth(true)
    case (_, Error(code)) => Error(code)
    case _ => NoeVal.Undefined
  }

  /** kra has no arm of its own: both sides are evaluated, and an error is all that comes of them. */
  function Stub(left: NoeVal, right: NoeVal): NoeVal {
    if left.Error? then left else if right.Error? then right else NoeVal.Undefined
  }

  /** The knowledge shard: the bare key first, then the key with @. */
  function KnowledgeOf(key: string, ctx: Ctx): NoeVal {
    var found: Option<Py.Val> := if ctx.knowledge.None? then None else Py.Known(ctx.knowledge.value, key);
    if found.Some? && found.value.Truth? then Truth(found.value.b)
    else if found.Some? && found.value.Number? then Truth(found.value.n > 0)
    else if found.Some? && found.value.NullVal? then NoeVal.Undefined
    else if ctx.strict then Error("ERR_EPISTEMIC_MISMATCH")
    else NoeVal.Undefined
  }

  /** `eval_epistemic` for shi */
  function EvalShi(operand: Expr, ctx: Ctx): NoeVal
    decreases operand, 1
  {
    if operand.Literal? then KnowledgeOf(operand.name, ctx) else
    match Eval(operand, ctx)
    case Literal(key) => KnowledgeOf(key, ctx)
    case Error(code) => Error(code)
    case _ => NoeVal.Undefined
  }

  /** `eval_conditional` */
  function EvalConditional(cond: NoeVal, guard: Expr, ctx: Ctx): NoeVal
    decreases guard, 1
  {
    match cond
    case Truth(true) => Eval(guard, ctx)
    case Truth(false) => NoeVal.Undefined
    case Undefined => NoeVal.Undefined
    case Error(_) => cond
    case _ => Error("ERR_GUARD_TYPE")
  }

  function Eval(e: Expr, ctx: Ctx): NoeVal
    decreases e, 0
  {
    match e
    case Bool(b) => Truth(b)
    case Undefined => NoeVal.Undefined
    case Literal(name) => NoeVal.Literal(name)
    case UnaryOp(Shi, operand) => EvalShi(operand, ctx)
    case UnaryOp(Nai, operand) => K3Not(Eval(operand, ctx))
    case BinOp(An, left, right) => K3And(Eval(left, ctx), right, ctx)
    case BinOp(Ur, left, right) => K3Or(Eval(left, ctx), right, ctx)
    case BinOp(Kra, left, right) => Stub(Eval(left, ctx), Eval(right, ctx))
    case Action(verb, _) => NoeVal.Action(verb)
    case Conditional(cond, guard) => EvalConditional(Eval(cond, ctx), guard, ctx)
  }
}
