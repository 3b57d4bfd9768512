/** expr_eq and expr_eliminate_eq of expr.c: equality up to reordering, and the
    mutually recursive stripping of operands common to two expressions. */
module Equality {
  import opened Tristates
  import opened Exprs
  import opened Transform

  datatype Pair = Pair(a: Expr, b: Expr)

  function PairSize(e1: Expr, e2: Expr): nat {
    Size(e1) + Size(e2)
  }

  /** __expr_eliminate_eq: every leaf of the first spine against every leaf of
      the second; equal leaves both become the unit of the operator. */
  function StripEqual(op: BinOp, e1: Expr, e2: Expr): (r: Pair)
    ensures Size(r.a) <= Size(e1) && Size(r.b) <= Size(e2)
    ensures e1.EBin? && e1.op == op ==> r.a.EBin? && r.a.op == op
    ensures e2.EBin? && e2.op == op ==> r.b.EBin? && r.b.op == op
    decreases PairSize(e1, e2), if (e1.EBin? && e1.op == op) || (e2.EBin? && e2.op == op) then 0 else 4
  {
    hide Common, Stripped;
    if e1.EBin? && e1.op == op then
      var p := StripEqual(op, e1.left, e2);
      var q := StripEqual(op, e1.right, p.b);
      Pair(EBin(op, p.a, q.a), q.b)
    else if e2.EBin? && e2.op == op then
      var p := StripEqual(op, e1, e2.left);
      var q := StripEqual(op, p.a, e2.right);
      Pair(q.a, EBin(op, p.b, q.b))
    else if e1 == e2 && (e1 == E_YES || e1 == E_NO) then
      Pair(e1, e2)
    else if !ExprEq(e1, e2) then
      Pair(e1, e2)
    else
      Pair(Unit(op), Unit(op))
  }

  /** The two passes of expr_eliminate_eq before the y/n elimination. */
  function StripBoth(e1: Expr, e2: Expr): (r: Pair)
    ensures Size(r.a) <= Size(e1) && Size(r.b) <= Size(e2)
    decreases PairSize(e1, e2), 1
  {
    var p := if e1.EBin? then StripEqual(e1.op, e1, e2) else Pair(e1, e2);
    if p.b.EBin? && !(p.a.EBin? && p.a.op == p.b.op) then StripEqual(p.b.op, p.a, p.b) else p
  }

  function EliminateEq(e1: Expr, e2: Expr): (r: Pair)
    ensures Size(r.a) <= Size(e1) && Size(r.b) <= Size(e2)
    decreases PairSize(e1, e2), 2
  {
    var p := StripBoth(e1, e2);
    Pair(EliminateYn(p.a), EliminateYn(p.b))
  }

  predicate ExprEq(e1: Expr, e2: Expr)
    decreases PairSize(e1, e2), 3
  {
    match (e1, e2)
    case (ECmp(_, _, _), ECmp(_, _, _)) => e1 == e2
    case (ESym(_), ESym(_)) => e1 == e2
    case (ENot(x), ENot(y)) => ExprEq(x, y)
    case (EBin(op1, _, _), EBin(op2, _, _)) =>
      op1 == op2 &&
      var p := EliminateEq(e1, e2);
      p.a.ESym? && p.a == p.b
    case _ => false
  }

  /** expr_eq on pointers that may be null. */
  predicate ExprEqOpt(e1: Option<Expr>, e2: Option<Expr>) {
    if e1.None? || e2.None? then IsYes(e1) && IsYes(e2) else ExprEq(e1.value, e2.value)
  }

  /** `c` is an operand that both expressions share under `op`, and the pair is
      what remains of them. */
  ghost predicate Common(op: BinOp, c: Expr, e1: Expr, e2: Expr, r: Pair, env: Env) {
    && Eval(e1, env) == Apply(op, Eval(c, env), Eval(r.a, env))
    && Eval(e2, env) == Apply(op, Eval(c, env), Eval(r.b, env))
  }

  ghost predicate CommonEverywhere(op: BinOp, c: Expr, e1: Expr, e2: Expr, r: Pair) {
    forall env :: WellFormed(env) ==> Common(op, c, e1, e2, r, env)
  }

  lemma ApplyMerge(op: BinOp, c: Tristate, a: Tristate, d: Tristate, b: Tristate)
    ensures Apply(op, Apply(op, c, a), Apply(op, d, b)) == Apply(op, Apply(op, c, d), Apply(op, a, b))
    ensures Apply(op, c, Apply(op, d, b)) == Apply(op, Apply(op, c, d), b)
  {
  }

  /** The common operand that StripEqual removes. */
  ghost function Stripped(op: BinOp, e1: Expr, e2: Expr): Expr
    decreases PairSize(e1, e2)
  {
    if e1.EBin? && e1.op == op then
      EBin(op, Stripped(op, e1.left, e2), Stripped(op, e1.right, StripEqual(op, e1.left, e2).b))
    else if e2.EBin? && e2.op == op then
      EBin(op, Stripped(op, e1, e2.left), Stripped(op, StripEqual(op, e1, e2.left).a, e2.right))
    else if e1 == e2 && (e1 == E_YES || e1 == E_NO) then Unit(op)
    else if !ExprEq(e1, e2) then Unit(op)
    else e1
  }

  lemma {:induction false} StripEqualCommon(op: BinOp, e1: Expr, e2: Expr, env: Env)
    requires WellFormed(env)
    ensures Common(op, Stripped(op, e1, e2), e1, e2, StripEqual(op, e1, e2), env)
    decreases PairSize(e1, e2), if (e1.EBin? && e1.op == op) || (e2.EBin? && e2.op == op) then 0 else 4
  {
    if e1.EBin? && e1.op == op {
      var p := StripEqual(op, e1.left, e2);
      StripEqualCommon(op, e1.left, e2, env);
      StripEqualCommon(op, e1.right, p.b, env);
      CommonOnLeft(op, e1.left, e1.right, e2, env);
    } else if e2.EBin? && e2.op == op {
      var p := StripEqual(op, e1, e2.left);
      StripEqualCommon(op, e1, e2.left, env);
      StripEqualCommon(op, p.a, e2.right, env);
      CommonOnRight(op, e1, e2.left, e2.right, env);
    } else {
      if ExprEq(e1, e2) {
        ExprEqSound(e1, e2, env);
      }
      CommonLeaf(op, e1, e2, env);
    }
  }

  lemma CommonLeaf(op: BinOp, e1: Expr, e2: Expr, env: Env)
    requires WellFormed(env) && !(e1.EBin? && e1.op == op) && !(e2.EBin? && e2.op == op)
    requires ExprEq(e1, e2) ==> Eval(e1, env) == Eval(e2, env)
    ensures Common(op, Stripped(op, e1, e2), e1, e2, StripEqual(op, e1, e2), env)
  {
    hide ExprEq;
  }

  lemma CommonOnLeft(op: BinOp, l: Expr, r: Expr, e2: Expr, env: Env)
    requires Common(op, Stripped(op, l, e2), l, e2, StripEqual(op, l, e2), env)
    requires var p := StripEqual(op, l, e2);
             Common(op, Stripped(op, r, p.b), r, p.b, StripEqual(op, r, p.b), env)
    ensures var e1 := EBin(op, l, r);
            Common(op, Stripped(op, e1, e2), e1, e2, StripEqual(op, e1, e2), env)
  {
    var p := StripEqual(op, l, e2);
    var q := StripEqual(op, r, p.b);
    var c, d := Stripped(op, l, e2), Stripped(op, r, p.b);
    assert Stripped(op, EBin(op, l, r), e2) == EBin(op, c, d);
    assert StripEqual(op, EBin(op, l, r), e2) == Pair(EBin(op, p.a, q.a), q.b);
    ApplyMerge(op, Eval(c, env), Eval(p.a, env), Eval(d, env), Eval(q.a, env));
    ApplyMerge(op, Eval(c, env), Eval(p.b, env), Eval(d, env), Eval(q.b, env));
  }

  lemma CommonOnRight(op: BinOp, e1: Expr, l: Expr, r: Expr, env: Env)
    requires !(e1.EBin? && e1.op == op)
    requires Common(op, Stripped(op, e1, l), e1, l, StripEqual(op, e1, l), env)
    requires var p := StripEqual(op, e1, l);
             Common(op, Stripped(op, p.a, r), p.a, r, StripEqual(op, p.a, r), env)
    ensures var e2 := EBin(op, l, r);
            Common(op, Stripped(op, e1, e2), e1, e2, StripEqual(op, e1, e2), env)
  {
    var p := StripEqual(op, e1, l);
    var q := StripEqual(op, p.a, r);
    var c, d := Stripped(op, e1, l), Stripped(op, p.a, r);
    assert Stripped(op, e1, EBin(op, l, r)) == EBin(op, c, d);
    assert StripEqual(op, e1, EBin(op, l, r)) == Pair(q.a, EBin(op, p.b, q.b));
    ApplyMerge(op, Eval(c, env), Eval(p.b, env), Eval(d, env), Eval(q.b, env));
    ApplyMerge(op, Eval(c, env), Eval(p.a, env), Eval(d, env), Eval(q.a, env));
  }

  /** When nothing is stripped the first pass has left both expressions alone;
      when something is, an operand that was not on the spine is now a constant. */
  lemma {:induction false} StripEqualLeaf(op: BinOp, e1: Expr, e2: Expr)
    requires !(e2.EBin? && e2.op == op)
    ensures StripEqual(op, e1, e2) == Pair(e1, e2) || StripEqual(op, e1, e2).b == Unit(op)
  {
    if e1.EBin? && e1.op == op {
      StripEqualLeaf(op, e1.left, e2);
      StripEqualLeaf(op, e1.right, StripEqual(op, e1.left, e2).b);
    }
  }

  /** Which of the two passes strips, and what. */
  ghost function CommonPart(e1: Expr, e2: Expr): (BinOp, Expr) {
    var p := if e1.EBin? then StripEqual(e1.op, e1, e2) else Pair(e1, e2);
    if p.b.EBin? && !(p.a.EBin? && p.a.op == p.b.op) then (p.b.op, Stripped(p.b.op, p.a, p.b))
    else if e1.EBin? then (e1.op, Stripped(e1.op, e1, e2))
    else (AndOp, E_YES)
  }

  lemma {:induction false} EliminateEqCommon(e1: Expr, e2: Expr, env: Env)
    requires WellFormed(env)
    ensures var (op, c) := CommonPart(e1, e2);
            Common(op, c, e1, e2, EliminateEq(e1, e2), env)
    decreases PairSize(e1, e2), 1
  {
    var p := if e1.EBin? then StripEqual(e1.op, e1, e2) else Pair(e1, e2);
    var r := StripBoth(e1, e2);
    EliminateYnPreserves(r.a, env);
    EliminateYnPreserves(r.b, env);
    if e1.EBin? {
      StripEqualCommon(e1.op, e1, e2, env);
    }
    if p.b.EBin? && !(p.a.EBin? && p.a.op == p.b.op) {
      if e1.EBin? {
        StripEqualLeaf(e1.op, e1, e2);
        assert p == Pair(e1, e2);
      }
      StripEqualCommon(p.b.op, p.a, p.b, env);
    }
  }

  lemma {:induction false} ExprEqSound(e1: Expr, e2: Expr, env: Env)
    requires WellFormed(env) && ExprEq(e1, e2)
    ensures Eval(e1, env) == Eval(e2, env)
    decreases PairSize(e1, e2), 2
  {
    match (e1, e2)
    case (ENot(x), ENot(y)) => ExprEqSound(x, y, env);
    case (EBin(_, _, _), EBin(_, _, _)) => EliminateEqCommon(e1, e2, env);
    case _ =>
  }

  /** expr_eliminate_eq removes one common operand under one operator: both
      inputs are that operand joined with their residual. */
  lemma EliminateEqStripsCommonPart(e1: Expr, e2: Expr)
    ensures exists op, c :: CommonEverywhere(op, c, e1, e2, EliminateEq(e1, e2))
  {
    var (op, c) := CommonPart(e1, e2);
    forall env | WellFormed(env)
      ensures Common(op, c, e1, e2, EliminateEq(e1, e2), env)
    {
      EliminateEqCommon(e1, e2, env);
    }
    assert CommonEverywhere(op, c, e1, e2, EliminateEq(e1, e2));
  }

  /** expr_eq never calls two expressions equal that some assignment tells apart. */
  lemma ExprEqImpliesEquivalent(e1: Option<Expr>, e2: Option<Expr>, env: Env)
    requires WellFormed(env) && ExprEqOpt(e1, e2)
    ensures EvalOpt(e1, env) == EvalOpt(e2, env)
  {
    if e1.Some? && e2.Some? {
      ExprEqSound(e1.value, e2.value, env);
    }
  }

  /** The superset test of menu_finalize: when stripping leaves y of `basedep`,
      `dep` is at most `basedep` everywhere. */
  lemma SupersetTestSound(dep: Expr, basedep: Expr, env: Env)
    requires WellFormed(env) && IsYes(Some(EliminateEq(dep, basedep).b))
    ensures Eval(dep, env) <= Eval(basedep, env)
  {
    hide EliminateEq, CommonPart, Common;
    EliminateEqCommon(dep, basedep, env);
    var (op, c) := CommonPart(dep, basedep);
    YesResidual(op, c, dep, basedep, EliminateEq(dep, basedep), env);
  }

  lemma YesResidual(op: BinOp, c: Expr, e1: Expr, e2: Expr, r: Pair, env: Env)
    requires WellFormed(env) && Common(op, c, e1, e2, r, env) && r.b == E_YES
    ensures Eval(e1, env) <= Eval(e2, env)
  {
    assert Eval(r.b, env) == YES;
  }
}
