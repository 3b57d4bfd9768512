/** When expr_eq says yes: on every expression and itself, and on chains of
    plain operands up to their order and grouping. */
module Matches {
  import opened Tristates
  import opened Exprs
  import opened Transform
  import opened Equality
  import opened Spines

  predicate IsConstant(e: Expr) {
    e == E_YES || e == E_NO
  }

  // ----- an expression and itself -----

  /** Every operand under `op` is y or n. */
  predicate Clear(op: BinOp, t: Expr) {
    if IsOp(op, t) then Clear(op, t.left) && Clear(op, t.right) else IsConstant(t)
  }

  /** Every other operand under `op` has become the unit. */
  function Cleared(op: BinOp, t: Expr): (r: Expr)
    ensures Clear(op, r) && (IsOp(op, t) <==> IsOp(op, r))
  {
    if IsOp(op, t) then EBin(op, Cleared(op, t.left), Cleared(op, t.right))
    else if IsConstant(t) then t
    else Unit(op)
  }

  /** The operands in front of this slot are y or n. */
  predicate ClearBefore(op: BinOp, t: Expr, p: Path)
    requires OnSpine(op, t, p)
  {
    p == [] ||
    (if p[0].L? then ClearBefore(op, t.left, p[1..]) else Clear(op, t.left) && ClearBefore(op, t.right, p[1..]))
  }

  lemma {:induction false} Inert(op: BinOp, x: Expr, t: Expr)
    requires !IsOp(op, x) && (IsConstant(x) || Clear(op, t))
    ensures StripEqual(op, x, t) == Pair(x, t)
  {
    if IsOp(op, t) {
      Inert(op, x, t.left);
      Inert(op, x, t.right);
    }
  }

  /** An operand meets no equal one before it meets itself. */
  lemma {:induction false} OperandMeetsItself(op: BinOp, x: Expr, t: Expr, p: Path)
    requires SpineLeaf(op, t, p) && At(t, p) == x && ClearBefore(op, t, p) && ExprEq(x, x)
    ensures StripEqual(op, x, t) == Pair(Cleared(op, x), Put(t, p, Cleared(op, x)))
  {
    if p != [] {
      if p[0].L? {
        OperandMeetsItself(op, x, t.left, p[1..]);
        Inert(op, Cleared(op, x), t.right);
      } else {
        Inert(op, x, t.left);
        OperandMeetsItself(op, x, t.right, p[1..]);
      }
    }
  }

  lemma {:induction false} SpineMeetsItself(op: BinOp, s: Expr, t: Expr, p: Path)
    requires OnSpine(op, t, p) && At(t, p) == s && ClearBefore(op, t, p)
    ensures StripEqual(op, s, t) == Pair(Cleared(op, s), Put(t, p, Cleared(op, s)))
    decreases Size(s), if IsOp(op, s) then 0 else 2
  {
    if IsOp(op, s) {
      SpineConcat(op, t, p, [L]);
      var t1 := Put(t, p + [L], Cleared(op, s.left));
      ClearConcat(op, t, p, L);
      SpineMeetsItself(op, s.left, t, p + [L]);
      SidesPut(op, t, p);
      SpineConcat(op, t1, p, [R]);
      ClearConcat(op, t1, p, R);
      SpineMeetsItself(op, s.right, t1, p + [R]);
    } else {
      EqualToItself(s);
      OperandMeetsItself(op, s, t, p);
    }
  }

  lemma {:induction false} ClearConcat(op: BinOp, t: Expr, p: Path, d: Dir)
    requires OnSpine(op, t, p) && IsOp(op, At(t, p)) && ClearBefore(op, t, p)
    requires OnSpine(op, t, p + [d]) && (d.R? ==> Clear(op, At(t, p).left))
    ensures ClearBefore(op, t, p + [d])
  {
    if p != [] {
      assert (p + [d])[0] == p[0] && (p + [d])[1..] == p[1..] + [d];
      ClearConcat(op, if p[0].L? then t.left else t.right, p[1..], d);
    }
  }

  /** Both sides below a slot have been cleared, one after the other. */
  lemma {:induction false} SidesPut(op: BinOp, t: Expr, p: Path)
    requires OnSpine(op, t, p) && IsOp(op, At(t, p)) && ClearBefore(op, t, p) && OnSpine(op, t, p + [L])
    ensures var s := At(t, p);
            var t1 := Put(t, p + [L], Cleared(op, s.left));
            OnSpine(op, t1, p) && At(t1, p) == EBin(op, Cleared(op, s.left), s.right) && ClearBefore(op, t1, p) &&
            OnSpine(op, t1, p + [R]) && Put(t1, p + [R], Cleared(op, s.right)) == Put(t, p, Cleared(op, s))
  {
    if p != [] {
      assert (p + [L])[0] == p[0] && (p + [L])[1..] == p[1..] + [L];
      assert (p + [R])[0] == p[0] && (p + [R])[1..] == p[1..] + [R];
      SidesPut(op, if p[0].L? then t.left else t.right, p[1..]);
    } else {
      assert [L][1..] == [] && [R][1..] == [];
    }
  }

  /** expr_eliminate_yn leaves one constant of a chain of constants. */
  lemma {:induction false} ClearIsConstant(op: BinOp, t: Expr)
    requires Clear(op, t)
    ensures IsConstant(EliminateYn(t))
  {
    if IsOp(op, t) {
      ClearIsConstant(op, t.left);
      ClearIsConstant(op, t.right);
    }
  }

  /** expr_eq calls every expression equal to itself. */
  lemma {:induction false} EqualToItself(e: Expr)
    ensures ExprEq(e, e)
    decreases Size(e), 1
  {
    match e
    case ENot(x) => EqualToItself(x);
    case EBin(op, _, _) =>
      SpineMeetsItself(op, e, e, []);
      ClearIsConstant(op, Cleared(op, e));
      assert EliminateEq(e, e) == Pair(EliminateYn(Cleared(op, e)), EliminateYn(Cleared(op, e)));
    case _ =>
  }

  // ----- chains -----

  /** The operands under `op` other than y and n, each as often as it occurs. */
  ghost function Operands(op: BinOp, t: Expr): multiset<Expr> {
    if IsOp(op, t) then Operands(op, t.left) + Operands(op, t.right)
    else if IsConstant(t) then multiset{}
    else multiset{t}
  }

  /** The constant that decides the whole chain is an operand. */
  predicate Decided(op: BinOp, t: Expr) {
    if IsOp(op, t) then Decided(op, t.left) || Decided(op, t.right) else t == Unit(Dual(op))
  }

  /** expr_eq keeps the different operands of the two chains apart. */
  ghost predicate ToldApart(ops: multiset<Expr>) {
    forall x, y :: x in ops && y in ops && ExprEq(x, y) ==> x == y
  }

  /** Stripping removes from each chain what the other has, one occurrence for
      one, and leaves the deciding constants. */
  lemma {:induction false} StripEqualOperands(op: BinOp, e1: Expr, e2: Expr, ops: multiset<Expr>)
    requires ToldApart(ops) && Operands(op, e1) <= ops && Operands(op, e2) <= ops
    ensures var r := StripEqual(op, e1, e2);
            Operands(op, r.a) == Operands(op, e1) - Operands(op, e2) &&
            Operands(op, r.b) == Operands(op, e2) - Operands(op, e1) &&
            (Decided(op, r.a) <==> Decided(op, e1)) && (Decided(op, r.b) <==> Decided(op, e2))
    decreases PairSize(e1, e2)
  {
    hide ToldApart, ExprEq;
    if IsOp(op, e1) {
      var p := StripEqual(op, e1.left, e2);
      StripEqualOperands(op, e1.left, e2, ops);
      StripEqualOperands(op, e1.right, p.b, ops);
      Differences(Operands(op, e1.left), Operands(op, e1.right), Operands(op, e2));
    } else if IsOp(op, e2) {
      var p := StripEqual(op, e1, e2.left);
      StripEqualOperands(op, e1, e2.left, ops);
      StripEqualOperands(op, p.a, e2.right, ops);
      Differences(Operands(op, e2.left), Operands(op, e2.right), Operands(op, e1));
    } else {
      OperandsCompared(op, e1, e2, ops);
    }
  }

  lemma Differences(l: multiset<Expr>, r: multiset<Expr>, m: multiset<Expr>)
    ensures (l - m) + (r - (m - l)) == (l + r) - m
    ensures (m - l) - r == m - (l + r)
  {
  }

  lemma OperandsCompared(op: BinOp, e1: Expr, e2: Expr, ops: multiset<Expr>)
    requires ToldApart(ops) && Operands(op, e1) <= ops && Operands(op, e2) <= ops
    requires !IsOp(op, e1) && !IsOp(op, e2)
    ensures var r := StripEqual(op, e1, e2);
            Operands(op, r.a) == Operands(op, e1) - Operands(op, e2) &&
            Operands(op, r.b) == Operands(op, e2) - Operands(op, e1) &&
            (Decided(op, r.a) <==> Decided(op, e1)) && (Decided(op, r.b) <==> Decided(op, e2))
  {
    hide ExprEq, StripEqual;
    EqualToItself(e1);
    LeafStripped(op, e1, e2);
    if e1 != e2 {
      if IsConstant(e1) || IsConstant(e2) {
        ConstantsApart(e1, e2);
      } else {
        assert e1 in Operands(op, e1) && e2 in Operands(op, e2);
      }
      assert Operands(op, e1) - Operands(op, e2) == Operands(op, e1);
      assert Operands(op, e2) - Operands(op, e1) == Operands(op, e2);
    }
  }

  lemma LeafStripped(op: BinOp, e1: Expr, e2: Expr)
    requires !IsOp(op, e1) && !IsOp(op, e2)
    ensures StripEqual(op, e1, e2) ==
      if (e1 == e2 && IsConstant(e1)) || !ExprEq(e1, e2) then Pair(e1, e2) else Pair(Unit(op), Unit(op))
  {
    hide ExprEq;
  }

  lemma ConstantsApart(e1: Expr, e2: Expr)
    requires e1 != e2 && (IsConstant(e1) || IsConstant(e2))
    ensures !ExprEq(e1, e2)
  {
  }

  /** Symbols, comparisons, and negations of such. */
  predicate Atomic(e: Expr) {
    e.ESym? || e.ECmp? || (e.ENot? && Atomic(e.arg))
  }

  lemma {:induction false} AtomsEqual(x: Expr, y: Expr)
    requires Atomic(x) && Atomic(y)
    ensures ExprEq(x, y) <==> x == y
  {
    if x.ENot? && y.ENot? {
      AtomsEqual(x.arg, y.arg);
    }
  }

  /** What expr_eliminate_yn makes of a chain of plain operands. */
  lemma {:induction false} ChainEliminated(op: BinOp, t: Expr)
    requires forall x :: x in Operands(op, t) ==> Atomic(x)
    ensures Decided(op, t) <==> EliminateYn(t) == Unit(Dual(op))
    ensures !Decided(op, t) ==> Operands(op, EliminateYn(t)) == Operands(op, t)
    ensures !Decided(op, t) ==> (Operands(op, t) == multiset{} <==> EliminateYn(t) == Unit(op))
  {
    if IsOp(op, t) {
      ChainEliminated(op, t.left);
      ChainEliminated(op, t.right);
    } else if !IsConstant(t) {
      assert t in Operands(op, t);
    }
  }

  /** expr_eq finds two chains of plain operands equal exactly when both are
      decided by a constant, or neither is and they have the same operands, in
      whatever order and grouping. */
  lemma EqualChains(op: BinOp, e1: Expr, e2: Expr)
    requires IsOp(op, e1) && IsOp(op, e2)
    requires forall x :: x in Operands(op, e1) + Operands(op, e2) ==> Atomic(x)
    ensures ExprEq(e1, e2) <==>
      Decided(op, e1) == Decided(op, e2) && (Decided(op, e1) || Operands(op, e1) == Operands(op, e2))
  {
    hide Operands, Decided, ExprEq, EliminateYn, Atomic;
    var ops := Operands(op, e1) + Operands(op, e2);
    forall x, y | x in ops && y in ops && ExprEq(x, y)
      ensures x == y
    {
      AtomsEqual(x, y);
    }
    StripEqualOperands(op, e1, e2, ops);
    var r := StripEqual(op, e1, e2);
    BothStripped(op, e1, e2);
    ChainEliminated(op, r.a);
    ChainEliminated(op, r.b);
    SymbolsLeft(op, r, e1, e2);
  }

  lemma BothStripped(op: BinOp, e1: Expr, e2: Expr)
    requires IsOp(op, e1) && IsOp(op, e2)
    ensures var r := StripEqual(op, e1, e2);
            var a, b := EliminateYn(r.a), EliminateYn(r.b);
            ExprEq(e1, e2) <==> a.ESym? && a == b
  {
    assert StripBoth(e1, e2) == StripEqual(op, e1, e2);
  }

  /** The two results are one symbol only if both are the same constant: any
      other symbol would have been stripped. */
  lemma SymbolsLeft(op: BinOp, r: Pair, e1: Expr, e2: Expr)
    requires Operands(op, r.a) == Operands(op, e1) - Operands(op, e2)
    requires Operands(op, r.b) == Operands(op, e2) - Operands(op, e1)
    requires var a, b := EliminateYn(r.a), EliminateYn(r.b);
             (Decided(op, r.a) <==> a == Unit(Dual(op))) && (Decided(op, r.b) <==> b == Unit(Dual(op))) &&
             (!Decided(op, r.a) ==> Operands(op, a) == Operands(op, r.a)) &&
             (!Decided(op, r.b) ==> Operands(op, b) == Operands(op, r.b)) &&
             (!Decided(op, r.a) ==> (Operands(op, r.a) == multiset{} <==> a == Unit(op))) &&
             (!Decided(op, r.b) ==> (Operands(op, r.b) == multiset{} <==> b == Unit(op)))
    ensures var a, b := EliminateYn(r.a), EliminateYn(r.b);
            a.ESym? && a == b <==>
            Decided(op, r.a) == Decided(op, r.b) && (Decided(op, r.a) || Operands(op, e1) == Operands(op, e2))
  {
    hide Decided, EliminateYn, Operands;
    var a, b := EliminateYn(r.a), EliminateYn(r.b);
    var m, n := Operands(op, e1), Operands(op, e2);
    NoneLeft(m, n);
    if a == b && !Decided(op, r.a) {
      assert m - n == n - m;
    }
  }

  /** Two chains have the same operands exactly when they have left the same to
      each other, which is nothing. */
  lemma NoneLeft(m: multiset<Expr>, n: multiset<Expr>)
    ensures m == n <==> m - n == n - m
    ensures m == n <==> m - n == multiset{} && n - m == multiset{}
  {
    if m - n == n - m {
      forall x
        ensures m[x] == n[x]
      {
        assert (m - n)[x] == (n - m)[x];
      }
      assert m == n;
    }
  }

  /** In particular two plain operands may change places. */
  lemma EqualSwapped(op: BinOp, a: Expr, b: Expr)
    requires Atomic(a) && Atomic(b)
    ensures ExprEq(EBin(op, a, b), EBin(op, b, a))
  {
    EqualChains(op, EBin(op, a, b), EBin(op, b, a));
  }

  /** The superset test of menu_finalize, on conjunctions of plain operands: y is
      left of `basedep` exactly when `dep` has all of its operands and n is none
      of them. */
  lemma SupersetTestExact(dep: Expr, basedep: Expr)
    requires IsOp(AndOp, dep)
    requires forall x :: x in Operands(AndOp, dep) + Operands(AndOp, basedep) ==> Atomic(x)
    ensures IsYes(Some(EliminateEq(dep, basedep).b)) <==>
      !Decided(AndOp, basedep) && Operands(AndOp, basedep) <= Operands(AndOp, dep)
  {
    hide Operands, Decided, ExprEq, EliminateYn, Atomic;
    var m, n := Operands(AndOp, dep), Operands(AndOp, basedep);
    forall x, y | x in m + n && y in m + n && ExprEq(x, y)
      ensures x == y
    {
      AtomsEqual(x, y);
    }
    StripEqualOperands(AndOp, dep, basedep, m + n);
    var r := StripEqual(AndOp, dep, basedep);
    OnePass(dep, basedep);
    ChainEliminated(AndOp, r.b);
    assert n <= m <==> n - m == multiset{} by {
      forall x
        ensures n[x] <= m[x] <==> (n - m)[x] == 0
      {
      }
    }
  }

  lemma OnePass(dep: Expr, basedep: Expr)
    requires IsOp(AndOp, dep) && forall x :: x in Operands(AndOp, basedep) ==> Atomic(x)
    ensures StripBoth(dep, basedep) == StripEqual(AndOp, dep, basedep)
  {
    if !IsOp(AndOp, basedep) {
      assert IsConstant(basedep) || basedep in Operands(AndOp, basedep);
      StripEqualLeaf(AndOp, dep, basedep);
    }
  }
}
