/** expr_eliminate_dups of expr.c. The pass walks one tree with two slot
    addresses that may alias; a slot is modelled by its path from the root, and
    the tree and trans_count are fields that the pass updates in place. */
module Dups {
  import opened Tristates
  import opened Exprs
  import opened Transform
  import opened Equality
  import opened Spines
  import opened Matches
  import opened Joins

  ghost predicate SameSpine(op: BinOp, s: Expr, t: Expr) {
    IsOp(op, s) == IsOp(op, t) &&
    (IsOp(op, s) ==> SameSpine(op, s.left, t.left) && SameSpine(op, s.right, t.right))
  }

  ghost function SpineNodes(op: BinOp, t: Expr): nat {
    if IsOp(op, t) then 1 + SpineNodes(op, t.left) + SpineNodes(op, t.right) else 0
  }

  // ----- spines -----

  lemma {:induction false} SameSpineAt(op: BinOp, s: Expr, t: Expr, p: Path)
    requires SameSpine(op, s, t) && OnSpine(op, s, p)
    ensures OnSpine(op, t, p) && SameSpine(op, At(s, p), At(t, p))
    ensures SpineNodes(op, At(s, p)) == SpineNodes(op, At(t, p))
  {
    if p != [] {
      if p[0].L? {
        SameSpineAt(op, s.left, t.left, p[1..]);
      } else {
        SameSpineAt(op, s.right, t.right, p[1..]);
      }
    } else {
      SameSpineNodes(op, s, t);
    }
  }

  lemma {:induction false} SameSpineNodes(op: BinOp, s: Expr, t: Expr)
    requires SameSpine(op, s, t)
    ensures SpineNodes(op, s) == SpineNodes(op, t)
  {
    if IsOp(op, s) {
      SameSpineNodes(op, s.left, t.left);
      SameSpineNodes(op, s.right, t.right);
    }
  }

  lemma {:induction false} SameSpineRefl(op: BinOp, s: Expr)
    ensures SameSpine(op, s, s)
  {
    if IsOp(op, s) {
      SameSpineRefl(op, s.left);
      SameSpineRefl(op, s.right);
    }
  }

  lemma {:induction false} SameSpineTrans(op: BinOp, s: Expr, t: Expr, u: Expr)
    requires SameSpine(op, s, t) && SameSpine(op, t, u)
    ensures SameSpine(op, s, u)
  {
    if IsOp(op, s) {
      SameSpineTrans(op, s.left, t.left, u.left);
      SameSpineTrans(op, s.right, t.right, u.right);
    }
  }

  /** Two different leaves of one spine are apart: writing one keeps the other. */
  lemma {:induction false} LeavesApart(op: BinOp, t: Expr, p: Path, q: Path, x: Expr)
    requires SpineLeaf(op, t, p) && SpineLeaf(op, t, q) && p != q && !IsOp(op, x)
    ensures SpineLeaf(op, Put(t, p, x), q) && At(Put(t, p, x), q) == At(t, q)
    ensures p != [] && q != []
  {
    if p != [] && q != [] && p[0] == q[0] {
      LeavesApart(op, if p[0].L? then t.left else t.right, p[1..], q[1..], x);
    }
  }

  lemma {:induction false} PutLeafSpine(op: BinOp, t: Expr, p: Path, x: Expr)
    requires SpineLeaf(op, t, p) && !IsOp(op, x)
    ensures SameSpine(op, t, Put(t, p, x))
    ensures NegationNormal(t) && NegationNormal(x) ==> NegationNormal(Put(t, p, x))
    ensures NegationNormal(t) ==> NegationNormal(At(t, p))
    ensures p != [] && x in {E_YES, E_NO} ==> HasConstantOperand(Put(t, p, x))
    ensures HasConstantOperand(x) ==> HasConstantOperand(Put(t, p, x))
  {
    if p != [] {
      if p[0].L? {
        PutLeafSpine(op, t.left, p[1..], x);
        SameSpineRefl(op, t.right);
      } else {
        PutLeafSpine(op, t.right, p[1..], x);
        SameSpineRefl(op, t.left);
      }
    }
  }

  // ----- values -----

  /** A leaf can be pulled out of its spine, leaving the unit behind. */
  lemma {:induction false} PullOut(op: BinOp, t: Expr, p: Path, x: Expr, env: Env)
    requires Consistent(env) && OnSpine(op, t, p)
    ensures Eval(Put(t, p, x), env) == Apply(op, Eval(x, env), Eval(Put(t, p, Unit(op)), env))
  {
    if p != [] {
      var side := if p[0].L? then t.left else t.right;
      PullOut(op, side, p[1..], x, env);
      var u := Eval(Put(side, p[1..], Unit(op)), env);
      Regroup(op, Eval(x, env), u, Eval(if p[0].L? then t.right else t.left, env));
    }
  }

  lemma Regroup(op: BinOp, x: Tristate, u: Tristate, r: Tristate)
    ensures Apply(op, Apply(op, x, u), r) == Apply(op, x, Apply(op, u, r))
    ensures Apply(op, r, Apply(op, x, u)) == Apply(op, x, Apply(op, r, u))
  {
  }

  lemma {:induction false} PutEquivalent(t: Expr, p: Path, x: Expr)
    requires OnTree(t, p) && Equivalent(At(t, p), x)
    ensures Equivalent(t, Put(t, p, x))
  {
    if p != [] {
      PutEquivalent(if p[0].L? then t.left else t.right, p[1..], x);
    }
  }

  lemma JoinedValue(op: BinOp, t: Expr, p: Path, q: Path, env: Env)
    requires WellFormed(env) && SpineLeaf(op, t, p) && SpineLeaf(op, t, q) && p != q
    requires Join(op, At(t, p), At(t, q)).Some?
    ensures var t1 := Put(t, p, Unit(op));
            OnSpine(op, t1, q) && Eval(Put(t1, q, Join(op, At(t, p), At(t, q)).value), env) == Eval(t, env)
  {
    hide Join, Put, Eval, Apply;
    var e1, e2 := At(t, p), At(t, q);
    var tmp := Join(op, e1, e2).value;
    var t1 := Put(t, p, Unit(op));
    LeavesApart(op, t, p, q, Unit(op));
    JoinSound(op, e1, e2, env);
    PutAt(t, p, Unit(op));
    PullOut(op, t, p, e1, env);
    PutAt(t1, q, e2);
    PullOut(op, t1, q, e2, env);
    PullOut(op, t1, q, tmp, env);
    var rest := Eval(Put(t1, q, Unit(op)), env);
    Regroup(op, Eval(e1, env), Eval(e2, env), rest);
  }

  /** Joining two leaves: the first slot becomes the unit, the second the join. */
  lemma JoinLeaves(op: BinOp, t: Expr, p: Path, q: Path)
    requires SpineLeaf(op, t, p) && SpineLeaf(op, t, q) && p != q
    requires Join(op, At(t, p), At(t, q)).Some?
    ensures var t1 := Put(t, p, Unit(op));
            OnSpine(op, t1, q) &&
            var t2 := Put(t1, q, Join(op, At(t, p), At(t, q)).value);
            Equivalent(t, t2) && SameSpine(op, t, t2) && Size(t2) <= Size(t) &&
            HasConstantOperand(t2) && (NegationNormal(t) ==> NegationNormal(t2))
  {
    var e1, e2 := At(t, p), At(t, q);
    var tmp := Join(op, e1, e2).value;
    JoinNeverGrows(op, e1, e2);
    LeavesApart(op, t, p, q, Unit(op));
    LeavesApart(op, t, q, p, tmp);
    var t1 := Put(t, p, Unit(op));
    var t2 := Put(t1, q, tmp);
    PutAt(t, p, Unit(op));
    PutAt(t1, q, tmp);
    PutLeafSpine(op, t, p, Unit(op));
    PutLeafSpine(op, t, q, tmp);
    PutLeafSpine(op, t1, q, tmp);
    SameSpineTrans(op, t, t1, t2);
    forall env | WellFormed(env)
      ensures Eval(t, env) == Eval(t2, env)
    {
      JoinedValue(op, t, p, q, env);
    }
    SameSpineAt(op, t, t1, p);
    ConstantStays(op, t1, p, q, tmp);
  }

  lemma {:induction false} ConstantStays(op: BinOp, t: Expr, p: Path, q: Path, x: Expr)
    requires SpineLeaf(op, t, p) && SpineLeaf(op, t, q) && p != q && p != [] && At(t, p) == Unit(op)
    ensures HasConstantOperand(Put(t, q, x))
  {
    if p[0] == q[0] {
      if |p| > 1 {
        ConstantStays(op, if p[0].L? then t.left else t.right, p[1..], q[1..], x);
      }
    } else {
      assert At(if p[0].L? then t.left else t.right, p[1..]) == Unit(op);
      if |p| > 1 {
        HasConstantAt(op, if p[0].L? then t.left else t.right, p[1..]);
      }
    }
  }

  lemma {:induction false} HasConstantAt(op: BinOp, t: Expr, p: Path)
    requires SpineLeaf(op, t, p) && p != [] && At(t, p) == Unit(op)
    ensures HasConstantOperand(t)
  {
    if |p| > 1 {
      HasConstantAt(op, if p[0].L? then t.left else t.right, p[1..]);
    }
  }

  // ----- what one pass does -----

  /** From `s` with count m to `t` with count n: the spine and the value stay,
      the tree does not grow, and either nothing happened or a constant operand
      is left for the y/n elimination. */
  ghost predicate Pass(op: BinOp, s: Expr, t: Expr, m: nat, n: nat) {
    && SameSpine(op, s, t)
    && Equivalent(s, t)
    && Size(t) <= Size(s)
    && (NegationNormal(s) ==> NegationNormal(t))
    && ((m == n && s == t) || (m < n && HasConstantOperand(t)))
  }

  lemma PassRefl(op: BinOp, s: Expr, m: nat)
    ensures Pass(op, s, s, m, m)
  {
    SameSpineRefl(op, s);
  }

  lemma PassTrans(op: BinOp, s: Expr, t: Expr, u: Expr, k: nat, m: nat, n: nat)
    requires Pass(op, s, t, k, m) && Pass(op, t, u, m, n)
    ensures Pass(op, s, u, k, n)
  {
    SameSpineTrans(op, s, t, u);
  }

  /** A pass inside one leaf is a pass of the whole spine. */
  lemma PassInLeaf(op: BinOp, s: Expr, p: Path, x: Expr, m: nat, n: nat)
    requires SpineLeaf(op, s, p) && At(s, p).EBin? && Pass(At(s, p).op, At(s, p), x, m, n)
    ensures Pass(op, s, Put(s, p, x), m, n)
  {
    PutLeafSpine(op, s, p, x);
    PutEquivalent(s, p, x);
    PutAt(s, p, x);
  }

  /** No two different leaves below the slots p1 and p2 can be joined, and the
      leaves below p1 are reduced themselves. */
  ghost predicate NothingToJoin(op: BinOp, s: Expr, p1: Path, p2: Path)
    decreases Size(s), 0
  {
    forall q1: Path, q2: Path ::
      SpineLeaf(op, s, q1) && SpineLeaf(op, s, q2) && p1 <= q1 && p2 <= q2 && q1 != q2 ==>
        Join(op, At(s, q1), At(s, q2)).None? &&
        (Size(At(s, q1)) < Size(s) ==> Reduced(At(s, q1)))
  }

  /** No pair of operands at any one level of AND or OR simplifies. */
  ghost predicate Reduced(e: Expr)
    decreases Size(e), 1
  {
    e.EBin? ==> NothingToJoin(e.op, e, [], [])
  }

  /** No AND or OR anywhere in the reach of the pass has the same operand twice. */
  ghost predicate NoTwins(e: Expr) {
    forall p: Path, q1: Path, q2: Path ::
      OnTree(e, p) && At(e, p).EBin? &&
      SpineLeaf(At(e, p).op, At(e, p), q1) && SpineLeaf(At(e, p).op, At(e, p), q2) && q1 != q2 ==>
        At(At(e, p), q1) != At(At(e, p), q2)
  }

  lemma ReducedHasNoTwins(e: Expr)
    requires Reduced(e)
    ensures NoTwins(e)
  {
    forall p: Path, q1: Path, q2: Path | OnTree(e, p) && At(e, p).EBin? &&
      SpineLeaf(At(e, p).op, At(e, p), q1) && SpineLeaf(At(e, p).op, At(e, p), q2) && q1 != q2
      ensures At(At(e, p), q1) != At(At(e, p), q2)
    {
      ReducedBelow(e, p);
      var s := At(e, p);
      assert [] <= q1 && [] <= q2;
      JoinSame(s.op, At(s, q1));
    }
  }

  lemma {:induction false} ReducedBelow(e: Expr, p: Path)
    requires Reduced(e) && OnTree(e, p)
    ensures Reduced(At(e, p))
    decreases p
  {
    hide Reduced;
    if p != [] {
      ReducedSide(e, p[0]);
      ReducedBelow(if p[0].L? then e.left else e.right, p[1..]);
    }
  }

  lemma ReducedSide(e: Expr, d: Dir)
    requires Reduced(e) && e.EBin?
    ensures Reduced(if d.L? then e.left else e.right)
  {
    var op := e.op;
    var (s, t) := if d.L? then (e.left, e.right) else (e.right, e.left);
    var other := [if d.L? then R else L] + LeftMost(op, t);
    assert other[1..] == LeftMost(op, t);
    assert SpineLeaf(op, e, other);
    if IsOp(op, s) {
      forall q1: Path, q2: Path | SpineLeaf(op, s, q1) && SpineLeaf(op, s, q2) && q1 != q2
        ensures Join(op, At(s, q1), At(s, q2)).None? && (Size(At(s, q1)) < Size(s) ==> Reduced(At(s, q1)))
      {
        assert ([d] + q1)[1..] == q1 && ([d] + q2)[1..] == q2;
        assert SpineLeaf(op, e, [d] + q1) && SpineLeaf(op, e, [d] + q2);
        assert [] <= [d] + q1 && [] <= [d] + q2;
        PutAt(s, q1, E_YES);
      }
      assert NothingToJoin(op, s, [], []);
    } else {
      assert [d][1..] == [];
      assert At(e, [d]) == s && [d] != other;
      assert SpineLeaf(op, e, [d]) && [] <= [d] && [] <= other;
    }
  }

  function LeftMost(op: BinOp, t: Expr): (p: Path)
    ensures SpineLeaf(op, t, p)
  {
    if IsOp(op, t) then
      var p := [L] + LeftMost(op, t.left);
      assert p[1..] == LeftMost(op, t.left);
      p
    else []
  }

  lemma NothingToJoinSplit1(op: BinOp, s: Expr, p1: Path, p2: Path)
    requires OnSpine(op, s, p1) && IsOp(op, At(s, p1))
    requires NothingToJoin(op, s, p1 + [L], p2) && NothingToJoin(op, s, p1 + [R], p2)
    ensures NothingToJoin(op, s, p1, p2)
  {
    forall q1: Path, q2: Path |
      SpineLeaf(op, s, q1) && SpineLeaf(op, s, q2) && p1 <= q1 && p2 <= q2 && q1 != q2
      ensures Join(op, At(s, q1), At(s, q2)).None? && (Size(At(s, q1)) < Size(s) ==> Reduced(At(s, q1)))
    {
      assert q1 != p1;
      if q1[|p1|].L? {
        assert p1 + [L] <= q1;
      } else {
        assert p1 + [R] <= q1;
      }
    }
  }

  lemma NothingToJoinSplit2(op: BinOp, s: Expr, p1: Path, p2: Path)
    requires OnSpine(op, s, p2) && IsOp(op, At(s, p2))
    requires NothingToJoin(op, s, p1, p2 + [L]) && NothingToJoin(op, s, p1, p2 + [R])
    ensures NothingToJoin(op, s, p1, p2)
  {
    forall q1: Path, q2: Path |
      SpineLeaf(op, s, q1) && SpineLeaf(op, s, q2) && p1 <= q1 && p2 <= q2 && q1 != q2
      ensures Join(op, At(s, q1), At(s, q2)).None? && (Size(At(s, q1)) < Size(s) ==> Reduced(At(s, q1)))
    {
      assert q2 != p2;
      if q2[|p2|].L? {
        assert p2 + [L] <= q2;
      } else {
        assert p2 + [R] <= q2;
      }
    }
  }

  /** Below a leaf slot the only leaf is the slot itself. */
  lemma LeafOnly(op: BinOp, s: Expr, p: Path, q: Path)
    requires SpineLeaf(op, s, p) && OnSpine(op, s, q) && p <= q
    ensures p == q
  {
    assert p + q[|p|..] == q;
    SpineConcat(op, s, p, q[|p|..]);
  }

  // ----- slots below a base -----

  /** `p` leads from `base` down the `op` spine that starts there. */
  predicate Slot(op: BinOp, t: Expr, base: Path, p: Path) {
    OnTree(t, base) && OnSpine(op, At(t, base), p)
  }

  /** From tree `t` to tree `u` only the part below `base` changed, by a pass. */
  ghost predicate PassAt(op: BinOp, t: Expr, u: Expr, base: Path, m: nat, n: nat) {
    && OnTree(t, base) && OnTree(u, base)
    && u == Put(t, base, At(u, base))
    && Pass(op, At(t, base), At(u, base), m, n)
  }

  ghost function Below(op: BinOp, t: Expr, base: Path, p: Path): nat
    requires Slot(op, t, base, p)
  {
    SpineNodes(op, At(At(t, base), p))
  }

  lemma SlotAt(op: BinOp, t: Expr, base: Path, p: Path)
    requires Slot(op, t, base, p)
    ensures OnTree(t, base + p) && At(t, base + p) == At(At(t, base), p)
  {
    AtConcat(t, base, p);
  }

  lemma Descend(op: BinOp, t: Expr, base: Path, p: Path)
    requires Slot(op, t, base, p) && IsOp(op, At(At(t, base), p))
    ensures forall d :: Slot(op, t, base, p + [d]) && Below(op, t, base, p + [d]) < Below(op, t, base, p)
    ensures forall d :: base + (p + [d]) == base + p + [d]
  {
    forall d: Dir
      ensures Slot(op, t, base, p + [d]) && Below(op, t, base, p + [d]) < Below(op, t, base, p)
      ensures base + (p + [d]) == base + p + [d]
    {
      SpineConcat(op, At(t, base), p, [d]);
      assert [d][1..] == [];
    }
  }

  lemma SlotStays(op: BinOp, t: Expr, u: Expr, base: Path, m: nat, n: nat, p: Path)
    requires PassAt(op, t, u, base, m, n) && Slot(op, t, base, p)
    ensures Slot(op, u, base, p) && Below(op, u, base, p) == Below(op, t, base, p)
    ensures Size(At(u, base)) <= Size(At(t, base))
  {
    SameSpineAt(op, At(t, base), At(u, base), p);
  }

  lemma PassAtTrans(op: BinOp, t: Expr, u: Expr, v: Expr, base: Path, k: nat, m: nat, n: nat)
    requires PassAt(op, t, u, base, k, m) && PassAt(op, u, v, base, m, n)
    ensures PassAt(op, t, v, base, k, n)
    ensures k == n ==> t == u == v && k == m
  {
    PassTrans(op, At(t, base), At(u, base), At(v, base), k, m, n);
    PutAt(t, base, At(u, base));
    PutAt(t, base, At(t, base));
  }

  lemma PassAtRefl(op: BinOp, t: Expr, base: Path, m: nat)
    requires OnTree(t, base)
    ensures PassAt(op, t, t, base, m, m)
  {
    PutAt(t, base, At(t, base));
    PassRefl(op, At(t, base), m);
  }

  /** A pass at a leaf slot of the spine is a pass of the spine. */
  lemma PassAtLeaf(op: BinOp, t: Expr, u: Expr, base: Path, p: Path, m: nat, n: nat)
    requires Slot(op, t, base, p) && OnTree(t, base + p) && At(t, base + p).EBin? && At(t, base + p).op != op
    requires PassAt(At(t, base + p).op, t, u, base + p, m, n)
    ensures PassAt(op, t, u, base, m, n)
    ensures At(u, base) == Put(At(t, base), p, At(u, base + p))
  {
    var s := At(t, base);
    var x := At(u, base + p);
    AtConcat(t, base, p);
    assert u == Put(t, base, Put(s, p, x));
    PutAt(t, base, Put(s, p, x));
    PassInLeaf(op, s, p, x, m, n);
  }

  /** Writing the two slots of a join is a pass of the spine. */
  lemma JoinAtLeaves(op: BinOp, t: Expr, base: Path, p: Path, q: Path, m: nat)
    requires Slot(op, t, base, p) && Slot(op, t, base, q) && p != q
    requires !IsOp(op, At(At(t, base), p)) && !IsOp(op, At(At(t, base), q))
    requires Join(op, At(At(t, base), p), At(At(t, base), q)).Some?
    ensures OnTree(t, base + p)
    ensures var t1 := Put(t, base + p, Unit(op));
            OnTree(t1, base + q) &&
            PassAt(op, t, Put(t1, base + q, Join(op, At(At(t, base), p), At(At(t, base), q)).value), base, m, m + 1)
  {
    var s := At(t, base);
    var tmp := Join(op, At(s, p), At(s, q)).value;
    JoinLeaves(op, s, p, q);
    var s1 := Put(s, p, Unit(op));
    AtConcat(t, base, p);
    var t1 := Put(t, base + p, Unit(op));
    assert t1 == Put(t, base, s1);
    PutAt(t, base, s1);
    AtConcat(t1, base, q);
    var s2 := Put(s1, q, tmp);
    assert Put(t1, base + q, tmp) == Put(t1, base, s2) == Put(t, base, s2);
    PutAt(t, base, s2);
  }

  /** Two leaves that were compared without a change have nothing to join. */
  lemma LeavesCompared(op: BinOp, s: Expr, p1: Path, p2: Path)
    requires SpineLeaf(op, s, p1) && SpineLeaf(op, s, p2)
    requires p1 != p2 ==> Join(op, At(s, p1), At(s, p2)).None? && Reduced(At(s, p1))
    ensures NothingToJoin(op, s, p1, p2)
  {
    forall q1: Path, q2: Path |
      SpineLeaf(op, s, q1) && SpineLeaf(op, s, q2) && p1 <= q1 && p2 <= q2 && q1 != q2
      ensures Join(op, At(s, q1), At(s, q2)).None? && (Size(At(s, q1)) < Size(s) ==> Reduced(At(s, q1)))
    {
      LeafOnly(op, s, p1, q1);
      LeafOnly(op, s, p2, q2);
    }
  }

  class Eliminator {
    var tree: Expr
    var transCount: nat

    constructor (e: Expr)
      ensures tree == e && transCount == 0
    {
      tree, transCount := e, 0;
    }

    /** expr_eliminate_dups1 on the slots `ep1` and `ep2`, both on the `op`
        spine that starts at `base`. They may be the same slot, and one may lie
        above the other. */
    method EliminateDups1(op: BinOp, ep1: Path, ep2: Path, ghost base: Path, ghost p1: Path, ghost p2: Path)
      requires ep1 == base + p1 && ep2 == base + p2
      requires Slot(op, tree, base, p1) && Slot(op, tree, base, p2)
      modifies this
      ensures PassAt(op, old(tree), tree, base, old(transCount), transCount)
      ensures transCount == old(transCount) ==> NothingToJoin(op, At(tree, base), p1, p2)
      decreases Size(At(tree, base)), Below(op, tree, base, p1) + Below(op, tree, base, p2)
    {
      SlotAt(op, tree, base, p1);
      SlotAt(op, tree, base, p2);
      if IsOp(op, At(tree, ep1)) {
        Descend(op, tree, base, p1);
        EliminateDups1(op, ep1 + [L], ep2, base, p1 + [L], p2);
        ghost var t1, m1 := tree, transCount;
        SlotStays(op, old(tree), t1, base, old(transCount), m1, p1 + [R]);
        SlotStays(op, old(tree), t1, base, old(transCount), m1, p2);
        EliminateDups1(op, ep1 + [R], ep2, base, p1 + [R], p2);
        PassAtTrans(op, old(tree), t1, tree, base, old(transCount), m1, transCount);
        if transCount == old(transCount) {
          NothingToJoinSplit1(op, At(tree, base), p1, p2);
        }
      } else if IsOp(op, At(tree, ep2)) {
        Descend(op, tree, base, p2);
        EliminateDups1(op, ep1, ep2 + [L], base, p1, p2 + [L]);
        ghost var t1, m1 := tree, transCount;
        SlotStays(op, old(tree), t1, base, old(transCount), m1, p2 + [R]);
        SlotStays(op, old(tree), t1, base, old(transCount), m1, p1);
        EliminateDups1(op, ep1, ep2 + [R], base, p1, p2 + [R]);
        PassAtTrans(op, old(tree), t1, tree, base, old(transCount), m1, transCount);
        if transCount == old(transCount) {
          NothingToJoinSplit2(op, At(tree, base), p1, p2);
        }
      } else if ep1 == ep2 {
        assert p1 == ep1[|base|..] == p2;
        PassAtRefl(op, tree, base, transCount);
        LeavesCompared(op, At(tree, base), p1, p2);
      } else {
        CompareLeaves(op, ep1, ep2, base, p1, p2);
      }
    }

    /** The part of expr_eliminate_dups1 for two different leaves: reduce the
        first inside, then try to join the two. */
    method CompareLeaves(op: BinOp, ep1: Path, ep2: Path, ghost base: Path, ghost p1: Path, ghost p2: Path)
      requires ep1 == base + p1 && ep2 == base + p2 && p1 != p2
      requires Slot(op, tree, base, p1) && Slot(op, tree, base, p2)
      requires !IsOp(op, At(At(tree, base), p1)) && !IsOp(op, At(At(tree, base), p2))
      modifies this
      ensures PassAt(op, old(tree), tree, base, old(transCount), transCount)
      ensures transCount == old(transCount) ==> NothingToJoin(op, At(tree, base), p1, p2)
      decreases Size(At(tree, base)), 0, 0
    {
      LeavesApart(op, At(tree, base), p1, p2, Unit(op));
      PutAt(At(tree, base), p1, Unit(op));
      SlotAt(op, tree, base, p1);
      ReduceLeaf(op, ep1, base, p1);
      ghost var t1, m1 := tree, transCount;
      SlotStays(op, old(tree), t1, base, old(transCount), m1, p1);
      SlotStays(op, old(tree), t1, base, old(transCount), m1, p2);
      SameSpineAt(op, At(old(tree), base), At(t1, base), p1);
      SameSpineAt(op, At(old(tree), base), At(t1, base), p2);
      SlotAt(op, tree, base, p1);
      SlotAt(op, tree, base, p2);
      var tmp := Join(op, At(tree, ep1), At(tree, ep2));
      if tmp.Some? {
        JoinAtLeaves(op, tree, base, p1, p2, m1);
        tree := Put(tree, ep1, Unit(op));
        tree := Put(tree, ep2, tmp.value);
        transCount := transCount + 1;
        PassAtTrans(op, old(tree), t1, tree, base, old(transCount), m1, transCount);
      } else if transCount == old(transCount) {
        LeavesCompared(op, At(tree, base), p1, p2);
      }
    }

    /** The recursive call with both arguments on the slot of one leaf. */
    method ReduceLeaf(op: BinOp, ep1: Path, ghost base: Path, ghost p1: Path)
      requires ep1 == base + p1 && Slot(op, tree, base, p1) && OnTree(tree, ep1)
      requires At(tree, ep1) == At(At(tree, base), p1) && !IsOp(op, At(tree, ep1))
      requires Size(At(tree, ep1)) < Size(At(tree, base))
      modifies this
      ensures PassAt(op, old(tree), tree, base, old(transCount), transCount)
      ensures transCount == old(transCount) ==> Reduced(At(At(tree, base), p1))
      decreases Size(At(tree, ep1))
    {
      var e1 := At(tree, ep1);
      if e1.EBin? {
        assert ep1 + [] == ep1;
        EliminateDups1(e1.op, ep1, ep1, ep1, [], []);
        PassAtLeaf(op, old(tree), tree, base, p1, old(transCount), transCount);
      } else {
        PassAtRefl(op, tree, base, transCount);
      }
    }

    /** expr_eliminate_dups. */
    method EliminateDups()
      modifies this
      ensures Equivalent(old(tree), tree)
      ensures Size(tree) <= Size(old(tree))
      ensures Reduced(tree) && NoTwins(tree)
      ensures NegationNormal(old(tree)) ==> NegationNormal(tree)
      ensures transCount == old(transCount)
    {
      var oldCount := transCount;
      while true
        invariant Equivalent(old(tree), tree)
        invariant Size(tree) <= Size(old(tree))
        invariant NegationNormal(old(tree)) ==> NegationNormal(tree)
        decreases Size(tree)
      {
        transCount := 0;
        ghost var t0 := tree;
        if tree.EBin? {
          ghost var none: Path := [];
          assert none + none == none;
          EliminateDups1(tree.op, [], [], [], [], []);
        }
        if transCount == 0 {
          break;
        }
        ghost var t1 := tree;
        EliminateYnExact(t1);
        tree := EliminateYn(tree);
        forall env | WellFormed(env)
          ensures Eval(t1, env) == Eval(tree, env)
        {
          EliminateYnPreserves(t1, env);
        }
        if NegationNormal(t1) {
          EliminateYnNegationNormal(t1);
        }
      }
      ReducedHasNoTwins(tree);
      transCount := oldCount;
    }
  }
}
