/** Dependency expressions of expr.h and their value (expr_calc_value). */
module Exprs {
  import opened Tristates

  datatype SymType = UnknownType | BooleanType | TristateType | IntType | HexType | StringType

  /** The three constants y, m and n are symbols of their own; any other symbol
      has an identity, a type and the SYMBOL_CONST flag (a quoted word). */
  datatype Sym = SymYes | SymMod | SymNo | Sym(id: nat, symType: SymType, isConst: bool) {
    function Type(): SymType {
      if Sym? then symType else UnknownType
    }

    predicate IsConst() {
      !Sym? || isConst
    }

    predicate IsTristateConst() {
      !Sym?
    }

    predicate IsBool() {
      Type() == BooleanType
    }

    predicate IsTristate() {
      Type() == TristateType
    }

    predicate IsLogical() {
      IsBool() || IsTristate()
    }
  }

  datatype BinOp = AndOp | OrOp

  datatype CmpOp = Equal | Unequal | Lth | Leq | Gth | Geq

  /** A null expression pointer is modelled by Option; inside a tree no operand
      of AND, OR or NOT is null. */
  datatype Expr =
    | ESym(sym: Sym)
    | ENot(arg: Expr)
    | EBin(op: BinOp, left: Expr, right: Expr)
    | ECmp(cmp: CmpOp, lsym: Sym, rsym: Sym)

  const E_YES := ESym(SymYes)
  const E_NO := ESym(SymNo)

  function Size(e: Expr): (n: nat)
    ensures n >= 1
  {
    match e
    case ESym(_) => 1
    case ECmp(_, _, _) => 1
    case ENot(x) => 1 + Size(x)
    case EBin(_, l, r) => 1 + Size(l) + Size(r)
  }

  /** What an expression sees of its symbols: a tristate value each, and one
      three-way comparison result for each pair. */
  datatype Env = Env(tri: Sym -> Tristate, order: (Sym, Sym) -> int)

  function Apply(op: BinOp, a: Tristate, b: Tristate): Tristate {
    if op.AndOp? then And(a, b) else Or(a, b)
  }

  /** The constant that an operator absorbs without effect. */
  function Unit(op: BinOp): Expr {
    if op.AndOp? then E_YES else E_NO
  }

  function Dual(op: BinOp): BinOp {
    if op.AndOp? then OrOp else AndOp
  }

  predicate Holds(cmp: CmpOp, order: int) {
    match cmp
    case Equal => order == 0
    case Unequal => order != 0
    case Lth => order < 0
    case Leq => order <= 0
    case Gth => order > 0
    case Geq => order >= 0
  }

  function Eval(e: Expr, env: Env): Tristate {
    match e
    case ESym(s) => env.tri(s)
    case ENot(x) => Not(Eval(x, env))
    case EBin(op, l, r) => Apply(op, Eval(l, env), Eval(r, env))
    case ECmp(cmp, l, r) => OfBool(Holds(cmp, env.order(l, r)))
  }

  /** expr_calc_value of a pointer that may be null: null is y. */
  function EvalOpt(e: Option<Expr>, env: Env): Tristate {
    match e
    case None => YES
    case Some(x) => Eval(x, env)
  }

  function AllocAnd(a: Option<Expr>, b: Option<Expr>): Option<Expr> {
    match (a, b)
    case (None, _) => b
    case (_, None) => a
    case (Some(x), Some(y)) => Some(EBin(AndOp, x, y))
  }

  predicate IsYes(e: Option<Expr>) {
    e.None? || e.value == E_YES
  }

  function Syms(e: Expr): set<Sym> {
    match e
    case ESym(s) => {s}
    case ENot(x) => Syms(x)
    case EBin(_, l, r) => Syms(l) + Syms(r)
    case ECmp(_, l, r) => {l, r}
  }

  function SymsOpt(e: Option<Expr>): set<Sym> {
    match e
    case None => {}
    case Some(x) => Syms(x)
  }

  // ----- assignments -----

  /** Bool symbols are n or y, and comparing a bool or tristate symbol with
      one of the constants y, m, n agrees with its tristate value. */
  ghost predicate Consistent(env: Env) {
    && env.tri(SymYes) == YES && env.tri(SymMod) == MOD && env.tri(SymNo) == NO
    && (forall s: Sym :: s.IsBool() ==> env.tri(s) != MOD)
    && (forall s: Sym, c: Sym :: (s.IsLogical() || s.IsTristateConst()) && c.IsTristateConst() ==>
        (env.order(s, c) == 0 <==> env.tri(s) == env.tri(c)))
  }

  /** No symbol compares equal to two different constants at once. */
  ghost predicate ConstantsDistinct(env: Env) {
    forall s: Sym, c: Sym, d: Sym :: s.IsTristate() && c.IsConst() && d.IsConst() && c != d ==>
      !(env.order(s, c) == 0 && env.order(s, d) == 0)
  }

  ghost predicate WellFormed(env: Env) {
    Consistent(env) && ConstantsDistinct(env)
  }

  /** The two expressions have the same value under every well-formed assignment. */
  ghost predicate Equivalent(a: Expr, b: Expr) {
    forall env: Env :: WellFormed(env) ==> Eval(a, env) == Eval(b, env)
  }

  /** Two assignments that agree on the symbols of an expression give it one value. */
  lemma {:induction false} EvalLocal(e: Expr, env: Env, env': Env)
    requires forall s :: s in Syms(e) ==> env.tri(s) == env'.tri(s)
    requires forall s, t :: s in Syms(e) && t in Syms(e) ==> env.order(s, t) == env'.order(s, t)
    ensures Eval(e, env) == Eval(e, env')
  {
    match e
    case ESym(_) =>
    case ECmp(_, _, _) =>
    case ENot(x) => EvalLocal(x, env, env');
    case EBin(_, l, r) =>
      EvalLocal(l, env, env');
      EvalLocal(r, env, env');
  }

  /** Where the sign of the comparison is that of the numbers x and y, the six
      operators are those of the numbers. */
  lemma ComparesNumbers(a: Sym, b: Sym, x: int, y: int, env: Env)
    requires (env.order(a, b) < 0 <==> x < y) && (env.order(a, b) > 0 <==> x > y)
    ensures Eval(ECmp(Equal, a, b), env) == OfBool(x == y) && Eval(ECmp(Unequal, a, b), env) == OfBool(x != y)
    ensures Eval(ECmp(Lth, a, b), env) == OfBool(x < y) && Eval(ECmp(Leq, a, b), env) == OfBool(x <= y)
    ensures Eval(ECmp(Gth, a, b), env) == OfBool(x > y) && Eval(ECmp(Geq, a, b), env) == OfBool(x >= y)
  {
  }
}
