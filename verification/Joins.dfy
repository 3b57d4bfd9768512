/** expr_join_or and expr_join_and of expr.c: two operands that simplify to one. */
module Joins {
  import opened Tristates
  import opened Exprs
  import opened Transform
  import opened Equality
  import opened Matches

  predicate Joinable(e: Expr) {
    e.ESym? || e.ENot? || (e.ECmp? && (e.cmp.Equal? || e.cmp.Unequal?))
  }

  /** The symbol of a first operand, looking through one NOT. */
  function Subject1(e: Expr): Option<Sym> {
    match e
    case ESym(s) => Some(s)
    case ECmp(_, l, _) => Some(l)
    case ENot(x) =>
      if x.ESym? then Some(x.sym)
      else if x.ECmp? && (x.cmp.Equal? || x.cmp.Unequal?) then Some(x.lsym)
      else None
    case _ => None
  }

  /** The symbol of a second operand: below a NOT only a bare symbol counts. */
  function Subject2(e: Expr): Option<Sym> {
    match e
    case ESym(s) => Some(s)
    case ECmp(_, l, _) => Some(l)
    case ENot(x) => if x.ESym? then Some(x.sym) else None
    case _ => None
  }

  /** The guards both joins share: the one bool or tristate symbol the two
      operands are about. */
  function Subject(e1: Expr, e2: Expr): Option<Sym> {
    if !Joinable(e1) || !Joinable(e2) then None
    else if Subject1(e1).None? || Subject1(e1) != Subject2(e2) then None
    else if !Subject1(e1).value.IsLogical() then None
    else Subject1(e1)
  }

  predicate IsCmp(e: Expr, cmp: CmpOp) {
    e.ECmp? && e.cmp == cmp
  }

  /** Both comparisons are `cmp`, one against c and the other against d. */
  predicate Against(e1: Expr, e2: Expr, cmp: CmpOp, c: Sym, d: Sym) {
    IsCmp(e1, cmp) && IsCmp(e2, cmp) &&
    ((e1.rsym == c && e2.rsym == d) || (e1.rsym == d && e2.rsym == c))
  }

  /** One operand is a bare symbol, the other compares with c. */
  predicate BareAgainst(e1: Expr, e2: Expr, cmp: CmpOp, c: Sym) {
    (e1.ESym? && IsCmp(e2, cmp) && e2.rsym == c) || (e2.ESym? && IsCmp(e1, cmp) && e1.rsym == c)
  }

  predicate IsNotSym(e: Expr) {
    e.ENot? && e.arg.ESym?
  }

  function JoinOr(e1: Expr, e2: Expr): Option<Expr> {
    if ExprEq(e1, e2) then Some(e1)
    else
      var subject := Subject(e1, e2);
      if subject.None? then None
      else
        var s := subject.value;
        if s.IsTristate() && Against(e1, e2, Equal, SymYes, SymMod) then Some(ECmp(Unequal, s, SymNo))
        else if s.IsTristate() && Against(e1, e2, Equal, SymYes, SymNo) then Some(ECmp(Unequal, s, SymMod))
        else if s.IsTristate() && Against(e1, e2, Equal, SymMod, SymNo) then Some(ECmp(Unequal, s, SymYes))
        else if s.IsBool() && ((IsNotSym(e1) && e2.ESym?) || (IsNotSym(e2) && e1.ESym?)) then Some(E_YES)
        else None
  }

  function JoinAnd(e1: Expr, e2: Expr): Option<Expr> {
    if ExprEq(e1, e2) then Some(e1)
    else
      var subject := Subject(e1, e2);
      if subject.None? then None
      else
        var s := subject.value;
        if BareAgainst(e1, e2, Equal, SymYes) then Some(ECmp(Equal, s, SymYes))
        else if BareAgainst(e1, e2, Unequal, SymNo) then Some(ESym(s))
        else if BareAgainst(e1, e2, Unequal, SymMod) then Some(ECmp(Equal, s, SymYes))
        else if !s.IsTristate() then None
        else if EqualUnequal(e1, e2) then Some(JoinEqualUnequal(s, e1.rsym, e2.rsym))
        else if EqualUnequal(e2, e1) then Some(JoinEqualUnequal(s, e2.rsym, e1.rsym))
        else if Against(e1, e2, Unequal, SymYes, SymNo) then Some(ECmp(Equal, s, SymMod))
        else if Against(e1, e2, Unequal, SymYes, SymMod) then Some(ECmp(Equal, s, SymNo))
        else if Against(e1, e2, Unequal, SymMod, SymNo) then Some(ECmp(Equal, s, SymYes))
        else None
  }

  /** s = 'b' and s != 'c' on two constants. */
  predicate EqualUnequal(e1: Expr, e2: Expr) {
    IsCmp(e1, Equal) && IsCmp(e2, Unequal) && e1.rsym.IsConst() && e2.rsym.IsConst()
  }

  function JoinEqualUnequal(s: Sym, b: Sym, c: Sym): Expr {
    if b != c then ECmp(Equal, s, b) else E_NO
  }

  function Join(op: BinOp, e1: Expr, e2: Expr): Option<Expr> {
    if op.AndOp? then JoinAnd(e1, e2) else JoinOr(e1, e2)
  }

  /** A join has the value of the two operands joined by its operator. */
  lemma JoinSound(op: BinOp, e1: Expr, e2: Expr, env: Env)
    requires WellFormed(env) && Join(op, e1, e2).Some?
    ensures Eval(Join(op, e1, e2).value, env) == Apply(op, Eval(e1, env), Eval(e2, env))
  {
    hide ExprEq;
    if ExprEq(e1, e2) {
      ExprEqSound(e1, e2, env);
    } else if op.AndOp? {
      JoinAndSound(e1, e2, env);
    } else {
      JoinOrSound(e1, e2, env);
    }
  }

  lemma JoinAndSound(e1: Expr, e2: Expr, env: Env)
    requires WellFormed(env) && !ExprEq(e1, e2) && JoinAnd(e1, e2).Some?
    ensures Eval(JoinAnd(e1, e2).value, env) == And(Eval(e1, env), Eval(e2, env))
  {
    hide ExprEq;
  }

  lemma JoinOrSound(e1: Expr, e2: Expr, env: Env)
    requires WellFormed(env) && !ExprEq(e1, e2) && JoinOr(e1, e2).Some?
    ensures Eval(JoinOr(e1, e2).value, env) == Or(Eval(e1, env), Eval(e2, env))
  {
    hide ExprEq;
  }

  /** Nothing a join builds is larger than its operands together, less one node. */
  lemma JoinNeverGrows(op: BinOp, e1: Expr, e2: Expr)
    requires Join(op, e1, e2).Some?
    ensures Size(Join(op, e1, e2).value) < Size(e1) + Size(e2)
    ensures Join(op, e1, e2).value == e1 || !Join(op, e1, e2).value.EBin?
    ensures NegationNormal(e1) && NegationNormal(e2) ==> NegationNormal(Join(op, e1, e2).value)
  {
  }

  /** The rule for s = 'b' && s != 'c' keeps the value of the conjunction exactly
      when the constants are the same, or s does not compare equal to both. */
  lemma JoinEqualUnequalExact(s: Sym, b: Sym, c: Sym, env: Env)
    requires b.IsConst() && c.IsConst() && s.IsTristate() && Consistent(env)
    ensures var e1, e2 := ECmp(Equal, s, b), ECmp(Unequal, s, c);
            JoinAnd(e1, e2) == Some(if b == c then E_NO else e1) &&
            (Eval(JoinAnd(e1, e2).value, env) == And(Eval(e1, env), Eval(e2, env)) <==>
             b == c || !(env.order(s, b) == 0 && env.order(s, c) == 0))
  {
  }

  /** Without distinct constants the rule is wrong: the numeral 2 compares equal
      to a tristate symbol at y (expr_parse_string gives both the number 2), so
      FOO = "2" && FOO != y is n, but the join leaves FOO = "2", which is y. */
  lemma JoinNeedsDistinctConstants(foo: Sym, two: Sym, env: Env)
    requires Consistent(env) && foo.IsTristate() && two.IsConst() && two.Sym?
    requires env.tri(foo) == YES && env.order(foo, two) == 0
    ensures var e1, e2 := ECmp(Equal, foo, two), ECmp(Unequal, foo, SymYes);
            !ConstantsDistinct(env) &&
            JoinAnd(e1, e2) == Some(e1) && Eval(e1, env) == YES &&
            And(Eval(e1, env), Eval(e2, env)) == NO
  {
    assert env.order(foo, SymYes) == 0;
  }

  /** Two operands that are the same join to that operand. */
  lemma JoinSame(op: BinOp, e: Expr)
    ensures Join(op, e, e) == Some(e)
  {
    EqualToItself(e);
  }

  /** Two equality tests of one tristate symbol against two of y, m and n leave the
      test against the third: under OR the two =, under AND the two !=. */
  lemma TwoOfThree(s: Sym, c: Sym, d: Sym, e: Sym)
    requires s.IsTristate() && {c, d, e} == {SymYes, SymMod, SymNo}
    ensures JoinOr(ECmp(Equal, s, c), ECmp(Equal, s, d)) == Some(ECmp(Unequal, s, e))
    ensures JoinAnd(ECmp(Unequal, s, c), ECmp(Unequal, s, d)) == Some(ECmp(Equal, s, e))
  {
    assert c in {c, d, e} && d in {c, d, e} && e in {c, d, e};
    assert SymYes in {c, d, e} && SymMod in {c, d, e} && SymNo in {c, d, e};
  }

  /** A symbol with its own negation is y under OR when it is bool. */
  lemma ExcludedMiddle(s: Sym)
    requires s.IsBool()
    ensures JoinOr(ESym(s), ENot(ESym(s))) == JoinOr(ENot(ESym(s)), ESym(s)) == Some(E_YES)
  {
  }

  /** A symbol next to a test of itself against y, m or n, in either order. */
  lemma SymbolAndTest(s: Sym)
    requires s.IsLogical()
    ensures JoinAnd(ESym(s), ECmp(Equal, s, SymYes)) == JoinAnd(ECmp(Equal, s, SymYes), ESym(s)) ==
        Some(ECmp(Equal, s, SymYes))
    ensures JoinAnd(ESym(s), ECmp(Unequal, s, SymNo)) == JoinAnd(ECmp(Unequal, s, SymNo), ESym(s)) == Some(ESym(s))
    ensures JoinAnd(ESym(s), ECmp(Unequal, s, SymMod)) == JoinAnd(ECmp(Unequal, s, SymMod), ESym(s)) ==
        Some(ECmp(Equal, s, SymYes))
  {
  }
}
