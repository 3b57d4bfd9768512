/** The meaning-preserving rewriters of expr.c that need no comparison between
    operands: expr_transform, expr_eliminate_yn, expr_trans_compare,
    expr_trans_bool, and rewrite_m of menu.c. */
module Transform {
  import opened Tristates
  import opened Exprs

  // ----- expr_transform -----

  /** Termination measure: pushing a negation through OR or AND lowers it
      although the tree gains a node. */
  ghost function Weight(e: Expr): (n: nat)
    ensures n >= 1
  {
    match e
    case ESym(_) => 1
    case ECmp(_, _, _) => 4
    case ENot(x) => 3 * Weight(x)
    case EBin(_, l, r) => Weight(l) + Weight(r) + 1
  }

  function Negated(cmp: CmpOp): CmpOp {
    match cmp
    case Equal => Unequal
    case Unequal => Equal
    case Leq => Gth
    case Gth => Leq
    case Lth => Geq
    case Geq => Lth
  }

  function TransformCmp(cmp: CmpOp, l: Sym, r: Sym): Expr {
    var same := ECmp(cmp, l, r);
    if !l.IsBool() then same
    else match cmp
      case Equal =>
        if r == SymNo then ENot(ESym(l))
        else if r == SymMod then E_NO
        else if r == SymYes then ESym(l)
        else same
      case Unequal =>
        if r == SymNo then ESym(l)
        else if r == SymMod then E_YES
        else if r == SymYes then ENot(ESym(l))
        else same
      case _ => same
  }

  function Transform(e: Expr): (r: Expr)
    ensures Weight(r) <= Weight(e)
    decreases Weight(e), 1
  {
    match e
    case ESym(_) => e
    case ECmp(cmp, l, r) => TransformCmp(cmp, l, r)
    case EBin(op, l, r) => EBin(op, Transform(l), Transform(r))
    case ENot(x) => TransformNot(Transform(x))
  }

  /** The second switch of expr_transform on a NOT whose operand is already
      transformed; double negation and De Morgan enter expr_transform again. */
  function TransformNot(x: Expr): (r: Expr)
    ensures Weight(r) <= 3 * Weight(x)
    decreases 3 * Weight(x), 0
  {
    match x
    case ENot(y) => Transform(y)
    case ECmp(cmp, l, r) => ECmp(Negated(cmp), l, r)
    case EBin(op, l, r) =>
      assert Weight(ENot(l)) == 3 * Weight(l) && Weight(ENot(r)) == 3 * Weight(r);
      Transform(EBin(Dual(op), ENot(l), ENot(r)))
    case ESym(s) =>
      if s == SymYes then E_NO
      else if s == SymMod then ESym(SymMod)
      else if s == SymNo then E_YES
      else ENot(x)
  }

  /** NOT sits only on symbols other than y, m and n, and no bool symbol is
      tested = or != against y, m or n. */
  predicate Normal(e: Expr) {
    match e
    case ESym(_) => true
    case ENot(x) => x.ESym? && !x.sym.IsTristateConst()
    case EBin(_, l, r) => Normal(l) && Normal(r)
    case ECmp(cmp, l, r) => !(l.IsBool() && r.IsTristateConst() && (cmp.Equal? || cmp.Unequal?))
  }

  lemma {:induction false} TransformPreserves(e: Expr, env: Env)
    requires Consistent(env)
    ensures Eval(Transform(e), env) == Eval(e, env)
    decreases Weight(e), 1
  {
    match e
    case ESym(_) =>
    case ECmp(_, _, _) =>
    case EBin(_, l, r) =>
      TransformPreserves(l, env);
      TransformPreserves(r, env);
    case ENot(x) =>
      TransformPreserves(x, env);
      TransformNotPreserves(Transform(x), env);
  }

  lemma {:induction false} TransformNotPreserves(x: Expr, env: Env)
    requires Consistent(env)
    ensures Eval(TransformNot(x), env) == Not(Eval(x, env))
    decreases 3 * Weight(x), 0
  {
    match x
    case ENot(y) => TransformPreserves(y, env);
    case ECmp(_, _, _) =>
    case EBin(op, l, r) =>
      assert Weight(ENot(l)) == 3 * Weight(l) && Weight(ENot(r)) == 3 * Weight(r);
      TransformPreserves(EBin(Dual(op), ENot(l), ENot(r)), env);
      assert Eval(ENot(l), env) == Not(Eval(l, env)) && Eval(ENot(r), env) == Not(Eval(r, env));
    case ESym(_) =>
  }

  lemma {:induction false} TransformNormalises(e: Expr)
    ensures Normal(Transform(e))
    decreases Weight(e), 1
  {
    match e
    case ESym(_) =>
    case ECmp(_, _, _) =>
    case EBin(_, l, r) =>
      TransformNormalises(l);
      TransformNormalises(r);
    case ENot(x) =>
      TransformNormalises(x);
      TransformNotNormalises(Transform(x));
  }

  lemma {:induction false} TransformNotNormalises(x: Expr)
    requires Normal(x)
    ensures Normal(TransformNot(x))
    decreases 3 * Weight(x), 0
  {
    match x
    case ENot(y) => TransformNormalises(y);
    case ECmp(_, _, _) =>
    case EBin(op, l, r) =>
      assert Weight(ENot(l)) == 3 * Weight(l) && Weight(ENot(r)) == 3 * Weight(r);
      TransformNormalises(EBin(Dual(op), ENot(l), ENot(r)));
    case ESym(_) =>
  }

  lemma {:induction false} NormalIsFixed(e: Expr)
    requires Normal(e)
    ensures Transform(e) == e
  {
    match e
    case ESym(_) =>
    case ECmp(_, _, _) =>
    case ENot(x) => assert Transform(x) == x;
    case EBin(_, l, r) =>
      NormalIsFixed(l);
      NormalIsFixed(r);
  }

  /** expr_transform reaches normal form in one call, and exactly the normal
      forms are left alone. */
  lemma TransformIdempotent(e: Expr)
    ensures Transform(Transform(e)) == Transform(e)
    ensures Transform(e) == e <==> Normal(e)
  {
    TransformNormalises(e);
    NormalIsFixed(Transform(e));
    if Normal(e) {
      NormalIsFixed(e);
    }
  }

  // ----- expr_eliminate_yn -----

  function EliminateYn(e: Expr): (r: Expr)
    ensures Size(r) <= Size(e)
  {
    match e
    case EBin(op, l, r) => AbsorbConstants(op, EliminateYn(l), EliminateYn(r))
    case _ => e
  }

  function AbsorbConstants(op: BinOp, l: Expr, r: Expr): Expr {
    var zero := Unit(Dual(op));
    if l == zero then zero
    else if l == Unit(op) then r
    else if r == zero then zero
    else if r == Unit(op) then l
    else EBin(op, l, r)
  }

  /** Some AND or OR in the reach of expr_eliminate_yn has y or n as an operand. */
  predicate HasConstantOperand(e: Expr) {
    e.EBin? && (e.left in {E_YES, E_NO} || e.right in {E_YES, E_NO} ||
                HasConstantOperand(e.left) || HasConstantOperand(e.right))
  }

  lemma {:induction false} EliminateYnPreserves(e: Expr, env: Env)
    requires Consistent(env)
    ensures Eval(EliminateYn(e), env) == Eval(e, env)
  {
    if e.EBin? {
      EliminateYnPreserves(e.left, env);
      EliminateYnPreserves(e.right, env);
    }
  }

  /** The pass leaves no constant operand behind, strictly shrinks the tree
      when there is one, and changes nothing when there is none. */
  lemma {:induction false} EliminateYnExact(e: Expr)
    ensures !HasConstantOperand(EliminateYn(e))
    ensures HasConstantOperand(e) ==> Size(EliminateYn(e)) < Size(e)
    ensures !HasConstantOperand(e) ==> EliminateYn(e) == e
  {
    if e.EBin? {
      EliminateYnExact(e.left);
      EliminateYnExact(e.right);
    }
  }

  // ----- negation normal form -----

  predicate NegationNormal(e: Expr) {
    match e
    case ENot(x) => x.ESym?
    case EBin(_, l, r) => NegationNormal(l) && NegationNormal(r)
    case _ => true
  }

  lemma {:induction false} NormalIsNegationNormal(e: Expr)
    requires Normal(e)
    ensures NegationNormal(e)
  {
    if e.EBin? {
      NormalIsNegationNormal(e.left);
      NormalIsNegationNormal(e.right);
    }
  }

  lemma {:induction false} EliminateYnNegationNormal(e: Expr)
    requires NegationNormal(e)
    ensures NegationNormal(EliminateYn(e))
  {
    if e.EBin? {
      EliminateYnNegationNormal(e.left);
      EliminateYnNegationNormal(e.right);
    }
  }

  // ----- expr_trans_bool -----

  /** FOO != n becomes FOO for a tristate FOO. */
  function TransBool(e: Expr): Expr {
    match e
    case EBin(op, l, r) => EBin(op, TransBool(l), TransBool(r))
    case ENot(x) => ENot(TransBool(x))
    case ECmp(cmp, l, r) => if cmp.Unequal? && l.IsTristate() && r == SymNo then ESym(l) else e
    case ESym(_) => e
  }

  /** A tristate symbol is tested against n by !=, somewhere. */
  predicate TestsNonNo(e: Expr) {
    match e
    case EBin(_, l, r) => TestsNonNo(l) || TestsNonNo(r)
    case ENot(x) => TestsNonNo(x)
    case ECmp(cmp, l, r) => cmp == Unequal && l.IsTristate() && r == SymNo
    case ESym(_) => false
  }

  /** The rewrite leaves no such test behind, and changes nothing when there is
      none. */
  lemma {:induction false} TransBoolExact(e: Expr)
    ensures !TestsNonNo(TransBool(e))
    ensures TransBool(e) == e <==> !TestsNonNo(e)
  {
    match e
    case EBin(_, l, r) =>
      TransBoolExact(l);
      TransBoolExact(r);
    case ENot(x) => TransBoolExact(x);
    case ECmp(_, _, _) =>
    case ESym(_) =>
  }

  /** In negation normal form the rewrite may turn y into m but never moves a
      condition to or from n. */
  lemma {:induction false} TransBoolKeepsNonNo(e: Expr, env: Env)
    requires Consistent(env) && NegationNormal(e)
    ensures Eval(TransBool(e), env) <= Eval(e, env)
    ensures Eval(TransBool(e), env) == NO <==> Eval(e, env) == NO
  {
    match e
    case ESym(_) =>
    case ECmp(_, _, _) =>
    case ENot(x) => assert TransBool(x) == x;
    case EBin(_, l, r) =>
      TransBoolKeepsNonNo(l, env);
      TransBoolKeepsNonNo(r, env);
  }

  /** Outside negation normal form it can: !(FOO != n) is n when FOO is m or y,
      but it becomes !FOO, which is m when FOO is m. */
  lemma TransBoolNeedsNegationNormal(foo: Sym, env: Env)
    requires Consistent(env) && foo.IsTristate() && env.tri(foo) == MOD
    ensures var e := ENot(ECmp(Unequal, foo, SymNo));
            !NegationNormal(e) && Eval(e, env) == NO && Eval(TransBool(e), env) == MOD
  {
    assert env.order(foo, SymNo) != 0;
    assert TransBool(ENot(ECmp(Unequal, foo, SymNo))) == ENot(ESym(foo));
  }

  // ----- expr_trans_compare with symbol n -----

  function TransCompare(e: Option<Expr>, unequal: bool): Expr {
    match e
    case None => if unequal then ENot(E_NO) else E_NO
    case Some(x) => TransCompareExpr(x, unequal)
  }

  function TransCompareExpr(e: Expr, unequal: bool): Expr {
    match e
    case EBin(op, l, r) =>
      var both := EBin(Dual(op), TransCompareExpr(l, false), TransCompareExpr(r, false));
      if unequal then ENot(both) else both
    case ENot(x) => TransCompareExpr(x, !unequal)
    case ECmp(_, _, _) => if unequal then e else ENot(e)
    case ESym(s) => ECmp(if unequal then Unequal else Equal, s, SymNo)
  }

  /** The value of an expression when every bare symbol at m counts as y. */
  function EvalRounded(e: Expr, env: Env): Tristate {
    match e
    case ESym(s) => OfBool(env.tri(s) != NO)
    case ENot(x) => Not(EvalRounded(x, env))
    case EBin(op, l, r) => Apply(op, EvalRounded(l, env), EvalRounded(r, env))
    case ECmp(_, _, _) => Eval(e, env)
  }

  /** Every bare symbol is bool, tristate or one of y, m, n. */
  predicate BareLogical(e: Expr) {
    match e
    case ESym(s) => s.IsLogical() || s.IsTristateConst()
    case ENot(x) => BareLogical(x)
    case EBin(_, l, r) => BareLogical(l) && BareLogical(r)
    case ECmp(_, _, _) => true
  }

  lemma {:induction false} TransCompareIsRounded(e: Expr, env: Env)
    requires Consistent(env) && BareLogical(e)
    ensures Eval(TransCompareExpr(e, true), env) == EvalRounded(e, env)
    ensures Eval(TransCompareExpr(e, false), env) == Not(EvalRounded(e, env))
  {
    match e
    case ESym(_) =>
    case ECmp(_, _, _) =>
    case ENot(x) => TransCompareIsRounded(x, env);
    case EBin(_, l, r) =>
      TransCompareIsRounded(l, env);
      TransCompareIsRounded(r, env);
  }

  /** No bare symbol with value m stands under a NOT that faces an even or odd
      number of negations above it: `neg` says how many have been crossed. */
  predicate NoNegatedMod(e: Expr, env: Env, neg: bool) {
    match e
    case ESym(s) => neg ==> env.tri(s) != MOD
    case ENot(x) => NoNegatedMod(x, env, !neg)
    case EBin(_, l, r) => NoNegatedMod(l, env, neg) && NoNegatedMod(r, env, neg)
    case ECmp(_, _, _) => true
  }

  lemma {:induction false} RoundedBounds(e: Expr, env: Env, neg: bool)
    requires NoNegatedMod(e, env, neg)
    ensures EvalRounded(e, env) != MOD
    ensures !neg ==> EvalRounded(e, env) == OfBool(Eval(e, env) != NO)
    ensures neg ==> EvalRounded(e, env) == OfBool(Eval(e, env) == YES)
  {
    match e
    case ESym(_) =>
    case ECmp(_, _, _) =>
    case ENot(x) => RoundedBounds(x, env, !neg);
    case EBin(_, l, r) =>
      RoundedBounds(l, env, neg);
      RoundedBounds(r, env, neg);
  }

  /** With no negated bare symbol at m the rewritten test means "e != n". */
  lemma TransCompareIsNonNo(e: Expr, env: Env)
    requires Consistent(env) && BareLogical(e) && NoNegatedMod(e, env, false)
    ensures Eval(TransCompareExpr(e, true), env) == OfBool(Eval(e, env) != NO)
    ensures Eval(TransCompareExpr(e, false), env) == OfBool(Eval(e, env) == NO)
  {
    TransCompareIsRounded(e, env);
    RoundedBounds(e, env, false);
  }

  /** A negated symbol at m breaks it: !FOO is m, hence not n, yet the test
      becomes FOO = n and fails. */
  lemma TransCompareOfNegatedMod(foo: Sym, env: Env)
    requires Consistent(env) && foo.IsLogical() && env.tri(foo) == MOD
    ensures Eval(ENot(ESym(foo)), env) == MOD
    ensures Eval(TransCompareExpr(ENot(ESym(foo)), true), env) == NO
  {
    TransCompareIsRounded(ENot(ESym(foo)), env);
  }

  // ----- rewrite_m -----

  /** m becomes m && MODULES. */
  function RewriteM(e: Expr, modules: Sym): Expr {
    match e
    case ENot(x) => ENot(RewriteM(x, modules))
    case EBin(op, l, r) => EBin(op, RewriteM(l, modules), RewriteM(r, modules))
    case ESym(s) => if s == SymMod then EBin(AndOp, e, ESym(modules)) else e
    case ECmp(_, _, _) => e
  }

  /** The assignment that reads a bare m as m && MODULES. */
  ghost function WithModules(env: Env, modules: Sym): Env {
    env.(tri := s => TriWithModules(env, modules, s))
  }

  ghost function TriWithModules(env: Env, modules: Sym, s: Sym): Tristate {
    if s == SymMod then And(MOD, env.tri(modules)) else env.tri(s)
  }

  lemma {:induction false} RewriteMMeaning(e: Expr, modules: Sym, env: Env)
    requires env.tri(SymMod) == MOD
    ensures Eval(RewriteM(e, modules), env) == Eval(e, WithModules(env, modules))
  {
    match e
    case ESym(_) =>
    case ECmp(_, _, _) =>
    case ENot(x) => RewriteMMeaning(x, modules, env);
    case EBin(_, l, r) =>
      RewriteMMeaning(l, modules, env);
      RewriteMMeaning(r, modules, env);
  }
}
