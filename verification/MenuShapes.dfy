/** The shape of the finished menu: which nodes end up below which, as a
    description by recursion over the declared menu. */
module MenuShapes {
  import opened Tristates
  import opened Exprs
  import opened Transform
  import opened Equality
  import Dups
  import opened Spines
  import opened Symbols
  import opened MenuTrees
  import opened MenuDeps

  // ----- the submenu test -----

  /** expr_contains_symbol. */
  predicate Contains(e: Expr, s: Sym) {
    match e
    case ESym(t) => t == s
    case ECmp(_, l, r) => l == s || r == s
    case ENot(x) => Contains(x, s)
    case EBin(_, l, r) => Contains(l, s) || Contains(r, s)
  }

  /** expr_depends_symbol. */
  predicate DependsOn(e: Expr, s: Sym) {
    match e
    case ESym(t) => t == s
    case ECmp(c, l, r) => l == s && ((c.Equal? && (r == SymYes || r == SymMod)) || (c.Unequal? && r == SymNo))
    case ENot(_) => false
    case EBin(op, l, r) => op.AndOp? && (DependsOn(l, s) || DependsOn(r, s))
  }

  lemma {:induction false} ContainsIsMember(e: Expr, s: Sym)
    ensures Contains(e, s) <==> s in Syms(e)
  {
    match e
    case ESym(_) =>
    case ECmp(_, _, _) =>
    case ENot(x) => ContainsIsMember(x, s);
    case EBin(_, l, r) =>
      ContainsIsMember(l, s);
      ContainsIsMember(r, s);
  }

  /** An expression that depends on a symbol is n whenever the symbol is. */
  lemma {:induction false} DependsNeedsSymbol(e: Expr, s: Sym, env: Env)
    requires Consistent(env) && s.IsLogical() && DependsOn(e, s) && env.tri(s) == NO
    ensures Eval(e, env) == NO
  {
    match e
    case ESym(_) =>
    case ECmp(_, _, _) =>
    case ENot(_) =>
    case EBin(_, l, r) =>
      if DependsOn(l, s) {
        DependsNeedsSymbol(l, s, env);
      } else {
        DependsNeedsSymbol(r, s, env);
      }
  }

  /** An operand that makes an expression depend on s: s itself, or one of the
      tests that s is y, is m, or is not n. */
  predicate Requires(x: Expr, s: Sym) {
    x in {ESym(s), ECmp(Equal, s, SymYes), ECmp(Equal, s, SymMod), ECmp(Unequal, s, SymNo)}
  }

  /** An expression depends on s exactly when one of the operands of its
      conjunction does. */
  lemma {:induction false} DependsIsOperand(e: Expr, s: Sym)
    ensures DependsOn(e, s) <==> exists p: Path :: SpineLeaf(AndOp, e, p) && Requires(At(e, p), s)
  {
    if IsOp(AndOp, e) {
      DependsIsOperand(e.left, s);
      DependsIsOperand(e.right, s);
      if p: Path :| SpineLeaf(AndOp, e.left, p) && Requires(At(e.left, p), s) {
        assert ([L] + p)[1..] == p;
        assert SpineLeaf(AndOp, e, [L] + p) && Requires(At(e, [L] + p), s);
      }
      if p: Path :| SpineLeaf(AndOp, e.right, p) && Requires(At(e.right, p), s) {
        assert ([R] + p)[1..] == p;
        assert SpineLeaf(AndOp, e, [R] + p) && Requires(At(e, [R] + p), s);
      }
    } else {
      var none: Path := [];
      assert SpineLeaf(AndOp, e, none) && At(e, none) == e;
    }
  }

  lemma {:induction false} DependsContains(e: Expr, s: Sym)
    requires DependsOn(e, s)
    ensures Contains(e, s)
  {
    match e
    case ESym(_) =>
    case ECmp(_, _, _) =>
    case ENot(_) =>
    case EBin(_, l, r) =>
      if DependsOn(l, s) {
        DependsContains(l, s);
      } else {
        DependsContains(r, s);
      }
  }

  /** Being shown at all implies being shown at all for the symbol itself. */
  ghost predicate Superset(base: Option<Expr>, dep: Option<Expr>) {
    forall env: Env :: WellFormed(env) ==> Eval(TransCompare(dep, true), env) <= Eval(TransCompare(base, true), env)
  }

  /** r is what expr_transform and expr_eliminate_dups make of e: equivalent, no
      larger, and without operands that could be joined. */
  ghost predicate Simplified(e: Expr, r: Expr) {
    && (forall env: Env :: WellFormed(env) ==> Eval(r, env) == Eval(e, env))
    && Size(r) <= Size(Transform.Transform(e)) && Dups.Reduced(r)
  }

  /** The second part of the test: simplified, and stripped of what it has in
      common with the condition, nothing remains of the symbol's own. */
  ghost predicate Strips(base: Option<Expr>, dep: Option<Expr>, yes: bool) {
    exists x: Expr, y: Expr ::
      Simplified(TransCompare(dep, true), x) && Simplified(TransCompare(base, true), y) &&
          IsYes(Some(EliminateEq(x, y).b)) == yes
  }

  ghost predicate JoinReason(s: Sym, base: Option<Expr>, dep: Option<Expr>) {
    dep.Some? && Contains(dep.value, s) && (DependsOn(dep.value, s) || (Superset(base, dep) && Strips(base, dep, true)))
  }

  ghost predicate RefuseReason(s: Sym, base: Option<Expr>, dep: Option<Expr>) {
    dep.None? || !Contains(dep.value, s) || (!DependsOn(dep.value, s) && Strips(base, dep, false))
  }

  /** Why node n is in the submenu of the symbol of p: its condition mentions
      the symbol, and depends on it or is never weaker than p's own. */
  ghost predicate Belongs(sh: Shape, d: Deps, p: nat, n: nat) {
    sh.SymOf(p).Some? && JoinReason(sh.SymOf(p).value, PromptCond(sh, d, p), ShownCond(sh, d, n))
  }

  /** Why it is not. */
  ghost predicate Refused(sh: Shape, d: Deps, p: nat, n: nat) {
    sh.SymOf(p).Some? && RefuseReason(sh.SymOf(p).value, PromptCond(sh, d, p), ShownCond(sh, d, n))
  }

  ghost predicate AllBelong(sh: Shape, d: Deps, p: nat, f: seq<Tree>) {
    forall t :: t in f ==> Belongs(sh, d, p, t.id)
  }

  // ----- shapes -----

  /** Node p with the declared children `kids` and following siblings `fs` ends up
      with the children g, which include the first k siblings. A node with
      children keeps them, as they have grown. A symbol without children gets the
      siblings that belong to it, up to the first that is refused. Then children
      without a prompt hand theirs over. */
  ghost predicate Shaped(sh: Shape, d: Deps, p: nat, kids: seq<Tree>, fs: seq<Tree>, g: seq<Tree>, k: nat)
    decreases Count(kids) + Count(fs), 3
  {
    k <= |fs| && exists h: seq<Tree> :: g == Flat(sh.prompts, h) && Gathered(sh, d, p, kids, fs, h, k)
  }

  /** The same before children without a prompt hand over theirs. */
  ghost predicate Gathered(sh: Shape, d: Deps, p: nat, kids: seq<Tree>, fs: seq<Tree>, h: seq<Tree>, k: nat)
    requires k <= |fs|
    decreases Count(kids) + Count(fs), 2
  {
    if kids != [] then k == 0 && Grown(sh, d, kids, |kids|, h)
    else if sh.SymOf(p).None? then k == 0 && h == []
    else Grown(sh, d, fs, k, h) && AllBelong(sh, d, p, h) && (k < |fs| ==> Refused(sh, d, p, fs[k].id))
  }

  /** The first n trees of f have become h: each with its own children, and with
      the siblings that it took. */
  ghost predicate Grown(sh: Shape, d: Deps, f: seq<Tree>, n: nat, h: seq<Tree>)
    decreases Count(f), 1
  {
    if n > |f| then false
    else if n == 0 then h == []
    else h != [] && h[0].id == f[0].id && exists k: nat :: 1 + k <= n && Stepped(sh, d, f, n, h, k)
  }

  ghost predicate Stepped(sh: Shape, d: Deps, f: seq<Tree>, n: nat, h: seq<Tree>, k: nat)
    requires 1 + k <= n <= |f| && h != []
    decreases Count(f), 0
  {
    CountRest(f, k);
    Shaped(sh, d, f[0].id, f[0].kids, f[1..], h[0].kids, k) && Grown(sh, d, f[1 + k..], n - 1 - k, h[1..])
  }

  lemma CountRest(f: seq<Tree>, k: nat)
    requires 1 + k <= |f|
    ensures Count(f[0].kids) + Count(f[1..]) < Count(f) && Count(f[1 + k..]) < Count(f)
  {
    PreorderFirst(f);
    TakeDrop(f[1..], k);
    assert f[1..][k..] == f[1 + k..];
  }

  /** One more tree, which took the k trees behind it. */
  lemma {:induction false} GrownMore(sh: Shape, d: Deps, f: seq<Tree>, n: nat, h: seq<Tree>, kids: seq<Tree>, k: nat)
    requires Grown(sh, d, f, n, h) && n + 1 + k <= |f| && Shaped(sh, d, f[n].id, f[n].kids, f[n + 1..], kids, k)
    ensures Grown(sh, d, f, n + 1 + k, h + [Node(f[n].id, kids)])
    decreases |f|
  {
    hide Shaped;
    var t := Node(f[n].id, kids);
    if n == 0 {
      assert h + [t] == [t] && [t][1..] == [] && f[1 + k..][..0] == [];
      assert Stepped(sh, d, f, 1 + k, [t], k);
    } else {
      var k0: nat :| 1 + k0 <= n && Stepped(sh, d, f, n, h, k0);
      var rest := f[1 + k0..];
      assert rest[n - 1 - k0] == f[n] && rest[n - 1 - k0 + 1..] == f[n + 1..];
      GrownMore(sh, d, rest, n - 1 - k0, h[1..], kids, k);
      assert (h + [t])[1..] == h[1..] + [t] && (h + [t])[0] == h[0];
      assert Stepped(sh, d, f, n + 1 + k, h + [t], k0);
    }
  }

  lemma {:induction false} GrownTops(sh: Shape, d: Deps, f: seq<Tree>, n: nat, h: seq<Tree>)
    requires Grown(sh, d, f, n, h)
    ensures n <= |f| && forall t :: t in h ==> t.id in Tops(f)
    decreases |f|
  {
    hide Shaped;
    if n > 0 {
      var k: nat :| 1 + k <= n && Stepped(sh, d, f, n, h, k);
      GrownTops(sh, d, f[1 + k..], n - 1 - k, h[1..]);
      BelowSplit(f, 1 + k);
      forall t | t in h
        ensures t.id in Tops(f)
      {
        assert h == [h[0]] + h[1..];
      }
    }
  }

  /** The described shape keeps the depth-first order of the declared menu, and
      leaves no children to a node without a prompt. */
  lemma {:induction false} ShapedOrder(sh: Shape, d: Deps, p: nat, kids: seq<Tree>, fs: seq<Tree>, g: seq<Tree>, k: nat)
    requires Shaped(sh, d, p, kids, fs, g, k)
    ensures Preorder(g) == Preorder(kids) + Preorder(fs[..k]) && Prompted(sh.prompts, g)
    decreases Count(kids) + Count(fs), 1
  {
    hide Grown, AllBelong, Preorder, Refused, Prompted, Flat;
    PreorderNone();
    var h: seq<Tree> :| g == Flat(sh.prompts, h) && Gathered(sh, d, p, kids, fs, h, k);
    if kids != [] {
      GrownOrder(sh, d, kids, |kids|, h);
      assert kids[..|kids|] == kids && fs[..0] == [];
    } else if sh.SymOf(p).Some? {
      GrownOrder(sh, d, fs, k, h);
    }
    FlatPreorder(sh.prompts, h);
    FlatPrompted(sh.prompts, h);
  }

  lemma {:induction false} GrownOrder(sh: Shape, d: Deps, f: seq<Tree>, n: nat, h: seq<Tree>)
    requires Grown(sh, d, f, n, h)
    ensures n <= |f| && Preorder(h) == Preorder(f[..n]) && PromptedBelow(sh.prompts, h)
    decreases Count(f), 0
  {
    hide Shaped, Preorder, Prompted;
    if n == 0 {
      assert f[..0] == [];
    } else {
      var k: nat :| 1 + k <= n && Stepped(sh, d, f, n, h, k);
      CountRest(f, k);
      ShapedOrder(sh, d, f[0].id, f[0].kids, f[1..], h[0].kids, k);
      GrownOrder(sh, d, f[1 + k..], n - 1 - k, h[1..]);
      PreorderStep(f, 0, k);
      assert f[..n] == f[..1 + k] + f[1 + k..][..n - 1 - k] && f[..0] == [];
      PreorderConcat(f[..1 + k], f[1 + k..][..n - 1 - k]);
      PreorderFirst(h);
      PreorderNone();
      assert h == [h[0]] + h[1..];
    }
  }

  /** The shape depends on the conditions of p, of what is below it and below the
      taken siblings, and of the siblings themselves. */
  lemma {:induction false} ShapedFrame(sh: Shape, d: Deps, e: Deps, p: nat, kids: seq<Tree>, fs: seq<Tree>,
      g: seq<Tree>, k: nat)
    requires Shaped(sh, d, p, kids, fs, g, k) && SameDeps(d, e, {p} + Nodes(kids) + Tops(fs) + Nodes(fs[..k]))
    ensures Shaped(sh, e, p, kids, fs, g, k)
    decreases Count(kids) + Count(fs), 1
  {
    hide Grown, AllBelong, Preorder, Tops, Refused, Nodes;
    var h: seq<Tree> :| g == Flat(sh.prompts, h) && Gathered(sh, d, p, kids, fs, h, k);
    if kids != [] {
      BelowTops(kids);
      assert kids[..|kids|] == kids;
      GrownFrame(sh, d, e, kids, |kids|, h);
    } else if sh.SymOf(p).Some? {
      GrownFrame(sh, d, e, fs, k, h);
      GrownTops(sh, d, fs, k, h);
      BelongAlike(sh, d, e, p, h);
      if k < |fs| {
        TopOf(fs, k);
        RefusedAlike(sh, d, e, p, fs[k].id);
      }
    }
    assert Gathered(sh, e, p, kids, fs, h, k);
  }

  lemma TopOf(f: seq<Tree>, k: nat)
    requires k < |f|
    ensures f[k].id in Tops(f)
  {
    BelowSplit(f, k);
    assert f[k..][0] == f[k];
  }

  lemma BelongAlike(sh: Shape, d: Deps, e: Deps, p: nat, h: seq<Tree>)
    requires AllBelong(sh, d, p, h) && SameDeps(d, e, {p}) && forall t :: t in h ==> SameDeps(d, e, {t.id})
    ensures AllBelong(sh, e, p, h)
  {
    hide Belongs;
    forall t | t in h
      ensures Belongs(sh, e, p, t.id)
    {
      BelongFrame(sh, d, e, p, t.id);
    }
  }

  lemma RefusedAlike(sh: Shape, d: Deps, e: Deps, p: nat, n: nat)
    requires Refused(sh, d, p, n) && SameDeps(d, e, {p, n})
    ensures Refused(sh, e, p, n)
  {
    hide RefuseReason;
    assert p in {p, n} && n in {p, n};
  }

  lemma {:induction false} GrownFrame(sh: Shape, d: Deps, e: Deps, f: seq<Tree>, n: nat, h: seq<Tree>)
    requires Grown(sh, d, f, n, h) && n <= |f| && SameDeps(d, e, Tops(f) + Nodes(f[..n]))
    ensures Grown(sh, e, f, n, h)
    decreases Count(f), 0
  {
    hide Shaped, Preorder, Nodes, Tops;
    if n > 0 {
      var k: nat :| 1 + k <= n && Stepped(sh, d, f, n, h, k);
      CountRest(f, k);
      FirstParts(f, n, k);
      ShapedFrame(sh, d, e, f[0].id, f[0].kids, f[1..], h[0].kids, k);
      GrownFrame(sh, d, e, f[1 + k..], n - 1 - k, h[1..]);
      assert Stepped(sh, e, f, n, h, k);
    }
  }

  lemma FirstParts(f: seq<Tree>, n: nat, k: nat)
    requires 1 + k <= n <= |f|
    ensures {f[0].id} + Nodes(f[0].kids) + Tops(f[1..]) + Nodes(f[1..][..k]) <= Tops(f) + Nodes(f[..n])
    ensures Tops(f[1 + k..]) + Nodes(f[1 + k..][..n - 1 - k]) <= Tops(f) + Nodes(f[..n])
  {
    hide Preorder, Nodes, Tops;
    PartNodes(f, n, k);
    PartTops(f, 1);
    PartTops(f, 1 + k);
    TopOf(f, 0);
  }

  lemma PartTops(f: seq<Tree>, i: nat)
    requires i <= |f|
    ensures Tops(f[i..]) <= Tops(f)
  {
    BelowSplit(f, i);
  }

  lemma PartNodes(f: seq<Tree>, n: nat, k: nat)
    requires 1 + k <= n <= |f|
    ensures Nodes(f[0].kids) <= Nodes(f[..n]) && Nodes(f[1..][..k]) <= Nodes(f[..n])
    ensures Nodes(f[1 + k..][..n - 1 - k]) <= Nodes(f[..n])
  {
    hide Preorder, Nodes;
    NodesSplit(f[..n]);
    assert f[..n][0] == f[0] && f[..n][1..] == f[1..n];
    TakeDrop(f[1..n], k);
    assert f[1..n][..k] == f[1..][..k] && f[1..n][k..] == f[1 + k..][..n - 1 - k];
  }

  lemma BelongFrame(sh: Shape, d: Deps, d': Deps, p: nat, n: nat)
    requires Belongs(sh, d, p, n) && d.DepOf(n) == d'.DepOf(n) && d.PropsOf(n) == d'.PropsOf(n)
    requires d.PropsOf(p) == d'.PropsOf(p)
    ensures Belongs(sh, d', p, n)
  {
    hide JoinReason;
  }

  /** The nodes taken before and the one just taken still belong to p. */
  lemma BelongStep(sh: Shape, d: Deps, d': Deps, p: nat, fs: seq<Tree>, a: seq<Tree>, kids': seq<Tree>, k: nat, n: nat)
    requires Unique([p] + Preorder([]) + Preorder(fs)) && k + 1 + n <= |fs| && Preorder(a) == Preorder(fs[..k])
    requires AllBelong(sh, d, p, a) && Belongs(sh, d, p, fs[k].id)
    requires DepsBut(d, d', Nodes(fs[k].kids) + Below(fs[k + 1..][..n]))
    ensures AllBelong(sh, d', p, a + [Node(fs[k].id, kids')])
  {
    hide Preorder, Belongs, Unique;
    var j := k + 1 + n;
    assert fs[k + 1..][..n] == fs[k + 1..j];
    PlacedParts(p, [], fs);
    StepNodes(fs, k, j);
    MidBelow(fs, k, j);
    TakeDrop(fs, k);
    BelowTops(fs[k..]);
    BelowSplit(fs[k..], j - k);
    assert fs[k..][..j - k] == fs[k..j];
    forall t | t in a
      ensures Belongs(sh, d', p, t.id)
    {
      TopIn(a, t);
      BelongFrame(sh, d, d', p, t.id);
    }
    BelongFrame(sh, d, d', p, fs[k].id);
  }

  lemma {:induction false} TopIn(f: seq<Tree>, t: Tree)
    requires t in f
    ensures t.id in Preorder(f)
  {
    if t != f[0] {
      TopIn(f[1..], t);
    }
  }

  lemma MidBelow(f: seq<Tree>, i: nat, j: nat)
    requires i < j <= |f|
    ensures Below(f[i..j]) == Nodes(f[i].kids) + Below(f[i + 1..j])
  {
    assert f[i..j][0] == f[i] && f[i..j][1..] == f[i + 1..j];
  }
}
