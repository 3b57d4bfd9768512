/** The conditions of menu nodes and their properties, and how menu_finalize
    lets children inherit the condition of their parent. */
module MenuDeps {
  import opened Tristates
  import opened Exprs
  import opened Transform
  import opened Equality
  import Dups
  import opened Symbols
  import opened MenuTrees

  /** A property of a node's symbol that was declared at this node. */
  datatype NodeProp = NodeProp(kind: PropKind, target: Option<Sym>, cond: Option<Expr>)

  /** What menu_finalize never changes: symbols, which nodes are choices, which
      have a prompt with text, which property is the prompt, the symbols with
      SYMBOL_OPTIONAL, and MODULES. Types are those after inference; `late` are the
      choices that get theirs from their values, after their own conditions have
      been handled. */
  datatype Shape = Shape(
    syms: seq<Option<Sym>>, choices: set<nat>, prompts: set<nat>, promptAt: seq<Option<nat>>,
    late: set<nat>, optional: set<Sym>, modules: Sym)
  {
    function SymOf(n: nat): Option<Sym> {
      if n < |syms| then syms[n] else None
    }

    function PromptOf(n: nat): Option<nat> {
      if n < |promptAt| then promptAt[n] else None
    }

    /** Prompt conditions of symbols that are not (yet) tristate are made two-valued. */
    predicate Exact(n: nat) {
      SymOf(n).None? || (SymOf(n).value.IsTristate() && n !in late)
    }
  }

  datatype Deps = Deps(dep: seq<Option<Expr>>, props: seq<seq<NodeProp>>) {
    function DepOf(n: nat): Option<Expr> {
      if n < |dep| then dep[n] else None
    }

    function PropsOf(n: nat): seq<NodeProp> {
      if n < |props| then props[n] else []
    }
  }

  /** The condition of the prompt of a node, if it has one. */
  function PromptCond(sh: Shape, d: Deps, n: nat): Option<Expr> {
    var i := sh.PromptOf(n);
    if i.Some? && i.value < |d.PropsOf(n)| then d.PropsOf(n)[i.value].cond else None
  }

  /** What the submenu test looks at: the prompt's condition or the node's own. */
  function ShownCond(sh: Shape, d: Deps, n: nat): Option<Expr> {
    var i := sh.PromptOf(n);
    if i.Some? && i.value < |d.PropsOf(n)| then d.PropsOf(n)[i.value].cond else d.DepOf(n)
  }

  function RewriteMOpt(e: Option<Expr>, modules: Sym): Option<Expr> {
    if e.None? then None else Some(RewriteM(e.value, modules))
  }

  predicate Nnf(e: Option<Expr>) {
    e.Some? ==> NegationNormal(e.value)
  }

  /** The condition that a node passes to its children: for a choice, the choice
      symbol itself. */
  function ParentDep(sh: Shape, d: Deps, n: nat): Option<Expr> {
    if n in sh.choices && sh.SymOf(n).Some? then Some(ESym(sh.SymOf(n).value)) else d.DepOf(n)
  }

  /** The result is the conjunction of the inherited and the own condition, with
      m read as m && MODULES. */
  ghost predicate Inherits(modules: Sym, parent: Option<Expr>, own: Option<Expr>, result: Option<Expr>) {
    forall env: Env :: WellFormed(env) ==>
      EvalOpt(result, env) == And(EvalOpt(parent, env), EvalOpt(RewriteMOpt(own, modules), env))
  }

  /** The same, but the result need only be n exactly when the conjunction is n,
      and never more than it. */
  ghost predicate InheritsNo(modules: Sym, parent: Option<Expr>, own: Option<Expr>, result: Option<Expr>) {
    forall env: Env :: WellFormed(env) ==>
      var want := And(EvalOpt(parent, env), EvalOpt(RewriteMOpt(own, modules), env));
      EvalOpt(result, env) <= want && (EvalOpt(result, env) == NO <==> want == NO)
  }

  ghost predicate PropInherits(sh: Shape, n: nat, base: Option<Expr>, p: NodeProp, p': NodeProp) {
    && p'.kind == p.kind && p'.target == p.target
    && (if sh.Exact(n) then Inherits(sh.modules, base, p.cond, p'.cond)
        else InheritsNo(sh.modules, base, p.cond, p'.cond))
  }

  ghost predicate PropsInherit(sh: Shape, n: nat, base: Option<Expr>, ps: seq<NodeProp>, ps': seq<NodeProp>) {
    |ps| == |ps'| && forall i :: 0 <= i < |ps| ==> PropInherits(sh, n, base, ps[i], ps'[i])
  }

  /** Node n has inherited the condition of its parent. */
  ghost predicate NodeDone(sh: Shape, d: Deps, d': Deps, parent: Option<Expr>, n: nat) {
    && Inherits(sh.modules, parent, d.DepOf(n), d'.DepOf(n)) && Nnf(d'.DepOf(n))
    && PropsInherit(sh, n, d'.DepOf(n), d.PropsOf(n), d'.PropsOf(n))
  }

  /** Every node of the forest has inherited the condition of its parent. */
  ghost predicate Inherited(sh: Shape, d: Deps, d': Deps, parent: Option<Expr>, f: seq<Tree>)
    decreases f
  {
    f == [] ||
    (NodeDone(sh, d, d', parent, f[0].id) && Inherited(sh, d, d', ParentDep(sh, d', f[0].id), f[0].kids) &&
     Inherited(sh, d, d', parent, f[1..]))
  }

  /** The children of the trees have. */
  ghost predicate BelowInherited(sh: Shape, d: Deps, d': Deps, f: seq<Tree>) {
    f == [] ||
    (Inherited(sh, d, d', ParentDep(sh, d', f[0].id), f[0].kids) && BelowInherited(sh, d, d', f[1..]))
  }

  function Below(f: seq<Tree>): set<nat> {
    if f == [] then {} else Nodes(f[0].kids) + Below(f[1..])
  }

  function Tops(f: seq<Tree>): set<nat> {
    if f == [] then {} else {f[0].id} + Tops(f[1..])
  }

  ghost predicate TopsDone(sh: Shape, d: Deps, d': Deps, parent: Option<Expr>, f: seq<Tree>) {
    f == [] || (NodeDone(sh, d, d', parent, f[0].id) && TopsDone(sh, d, d', parent, f[1..]))
  }

  ghost predicate TopsNnf(d: Deps, f: seq<Tree>) {
    f == [] || (Nnf(d.DepOf(f[0].id)) && TopsNnf(d, f[1..]))
  }

  /** Only the conditions at these nodes changed. */
  ghost predicate DepsBut(d: Deps, d': Deps, ns: set<nat>) {
    |d.dep| == |d'.dep| && |d.props| == |d'.props| &&
    forall n: nat :: n !in ns ==> d.DepOf(n) == d'.DepOf(n) && d.PropsOf(n) == d'.PropsOf(n)
  }

  lemma DepsButTrans(d: Deps, m: Deps, d': Deps, ns: set<nat>, ns': set<nat>)
    requires DepsBut(d, m, ns) && DepsBut(m, d', ns')
    ensures DepsBut(d, d', ns + ns')
  {
  }

  lemma BelowTops(f: seq<Tree>)
    ensures Nodes(f) == Tops(f) + Below(f)
  {
    if f != [] {
      BelowTops(f[1..]);
      NodesSplit(f);
    }
  }

  lemma TopsApart(f: seq<Tree>)
    requires Unique(Preorder(f))
    ensures Tops(f) !! Below(f)
  {
    if f != [] {
      UniqueForest(f);
      BelowTops(f[1..]);
      TopsApart(f[1..]);
    }
  }

  lemma NodeDoneFrame(sh: Shape, d: Deps, d': Deps, e: Deps, e': Deps, parent: Option<Expr>, n: nat)
    requires NodeDone(sh, d, d', parent, n)
    requires e.DepOf(n) == d.DepOf(n) && e.PropsOf(n) == d.PropsOf(n) && e'.DepOf(n) == d'.DepOf(n)
    requires e'.PropsOf(n) == d'.PropsOf(n)
    ensures NodeDone(sh, e, e', parent, n)
  {
  }

  ghost predicate SameDeps(d: Deps, e: Deps, ns: set<nat>) {
    forall n :: n in ns ==> d.DepOf(n) == e.DepOf(n) && d.PropsOf(n) == e.PropsOf(n)
  }

  lemma {:induction false} InheritedFrame(sh: Shape, d: Deps, d': Deps, e: Deps, e': Deps, parent: Option<Expr>,
      f: seq<Tree>)
    requires Inherited(sh, d, d', parent, f) && SameDeps(d, e, Nodes(f)) && SameDeps(d', e', Nodes(f))
    ensures Inherited(sh, e, e', parent, f)
    decreases f
  {
    hide NodeDone;
    if f != [] {
      NodesSplit(f);
      assert f[0].id in Nodes(f);
      NodeDoneFrame(sh, d, d', e, e', parent, f[0].id);
      InheritedFrame(sh, d, d', e, e', ParentDep(sh, d', f[0].id), f[0].kids);
      InheritedFrame(sh, d, d', e, e', parent, f[1..]);
    }
  }

  lemma {:induction false} BelowFrame(sh: Shape, d: Deps, d': Deps, e: Deps, e': Deps, f: seq<Tree>)
    requires BelowInherited(sh, d, d', f) && SameDeps(d, e, Below(f)) && SameDeps(d', e', Nodes(f))
    ensures BelowInherited(sh, e, e', f)
  {
    hide Inherited;
    if f != [] {
      NodesSplit(f);
      assert f[0].id in Nodes(f);
      InheritedFrame(sh, d, d', e, e', ParentDep(sh, d', f[0].id), f[0].kids);
      BelowFrame(sh, d, d', e, e', f[1..]);
    }
  }

  lemma {:induction false} BelowConcat(sh: Shape, d: Deps, d': Deps, f: seq<Tree>, g: seq<Tree>)
    ensures BelowInherited(sh, d, d', f + g) <==> BelowInherited(sh, d, d', f) && BelowInherited(sh, d, d', g)
  {
    hide Inherited;
    if f == [] {
      assert f + g == g;
    } else {
      assert (f + g)[1..] == f[1..] + g;
      BelowConcat(sh, d, d', f[1..], g);
    }
  }

  lemma {:induction false} BelowTopsConcat(f: seq<Tree>, g: seq<Tree>)
    ensures Below(f + g) == Below(f) + Below(g) && Tops(f + g) == Tops(f) + Tops(g)
  {
    if f == [] {
      assert f + g == g;
    } else {
      assert (f + g)[1..] == f[1..] + g;
      BelowTopsConcat(f[1..], g);
    }
  }

  lemma {:induction false} TopsDoneConcat(sh: Shape, d: Deps, d': Deps, parent: Option<Expr>, f: seq<Tree>,
      g: seq<Tree>)
    ensures TopsDone(sh, d, d', parent, f + g) <==> TopsDone(sh, d, d', parent, f) && TopsDone(sh, d, d', parent, g)
  {
    hide NodeDone;
    if f == [] {
      assert f + g == g;
    } else {
      assert (f + g)[1..] == f[1..] + g;
      TopsDoneConcat(sh, d, d', parent, f[1..], g);
    }
  }

  lemma {:induction false} TopsFrame(sh: Shape, d: Deps, d': Deps, e': Deps, parent: Option<Expr>, f: seq<Tree>)
    requires TopsDone(sh, d, d', parent, f) && SameDeps(d', e', Tops(f))
    ensures TopsDone(sh, d, e', parent, f)
  {
    hide NodeDone;
    if f != [] {
      NodeDoneFrame(sh, d, d', d, e', parent, f[0].id);
      TopsFrame(sh, d, d', e', parent, f[1..]);
    }
  }

  lemma {:induction false} TopsNnfDone(sh: Shape, d: Deps, d': Deps, parent: Option<Expr>, f: seq<Tree>)
    requires TopsDone(sh, d, d', parent, f)
    ensures TopsNnf(d', f)
  {
    if f != [] {
      TopsNnfDone(sh, d, d', parent, f[1..]);
    }
  }

  lemma {:induction false} TopsNnfFrame(d: Deps, d': Deps, f: seq<Tree>)
    requires TopsNnf(d, f) && SameDeps(d, d', Tops(f))
    ensures TopsNnf(d', f)
  {
    if f != [] {
      TopsNnfFrame(d, d', f[1..]);
    }
  }

  /** Children first inherit, then are finalised one by one: together the whole
      forest has inherited. */
  lemma {:induction false} TopsThenBelow(sh: Shape, d: Deps, m: Deps, d': Deps, parent: Option<Expr>, f: seq<Tree>)
    requires Unique(Preorder(f)) && TopsDone(sh, d, m, parent, f) && BelowInherited(sh, m, d', f)
    requires SameDeps(d, m, Below(f)) && SameDeps(m, d', Tops(f))
    ensures Inherited(sh, d, d', parent, f)
    decreases |f|
  {
    hide NodeDone;
    if f != [] {
      UniqueForest(f);
      NodeDoneFrame(sh, d, m, d, d', parent, f[0].id);
      InheritedFrame(sh, m, d', d, d', ParentDep(sh, d', f[0].id), f[0].kids);
      TopsThenBelow(sh, d, m, d', parent, f[1..]);
    }
  }

  // ----- contracts -----

  /** What a call on node p with following siblings fs relies on. */
  ghost predicate DepsReady(sh: Shape, d: Deps, p: nat, fs: seq<Tree>) {
    Nnf(ParentDep(sh, d, p)) && TopsNnf(d, fs)
  }

  /** What it achieves: its children inherit, and those of the first k siblings. */
  ghost predicate DepsDone(sh: Shape, d: Deps, d': Deps, p: nat, kids: seq<Tree>, fs: seq<Tree>, k: nat) {
    && k <= |fs| && Inherited(sh, d, d', ParentDep(sh, d, p), kids) && BelowInherited(sh, d, d', fs[..k])
    && DepsBut(d, d', Nodes(kids) + Below(fs[..k]))
  }

  /** The siblings up to i are finalised: their children have inherited. */
  ghost predicate Running(sh: Shape, d0: Deps, d: Deps, f: seq<Tree>, i: nat) {
    i <= |f| && BelowInherited(sh, d0, d, f[..i]) && DepsBut(d0, d, Below(f[..i]))
  }

  lemma RunningStart(sh: Shape, d: Deps, f: seq<Tree>)
    ensures Running(sh, d, d, f, 0)
  {
  }

  lemma BelowPart(f: seq<Tree>, i: nat, j: nat)
    requires i <= j <= |f| && Unique(Preorder(f))
    ensures Below(f[..i]) <= Nodes(f[..i]) && Tops(f[i..]) <= Nodes(f[i..]) && Nodes(f[..i]) !! Nodes(f[i..])
    ensures Tops(f) !! Below(f[..i]) && Unique(Preorder(f[i..])) && Tops(f[i..]) <= Tops(f)
  {
    hide Preorder;
    TakeDrop(f, i);
    UniqueParts(Preorder(f[..i]), Preorder(f[i..]));
    BelowTops(f[..i]);
    BelowTops(f[i..]);
    TopsApart(f);
    BelowSplit(f, i);
  }

  lemma BelowSplit(f: seq<Tree>, i: nat)
    requires i <= |f|
    ensures Below(f) == Below(f[..i]) + Below(f[i..]) && Tops(f) == Tops(f[..i]) + Tops(f[i..])
  {
    hide Below, Tops;
    assert f[..i] + f[i..] == f;
    BelowTopsConcat(f[..i], f[i..]);
  }

  /** One more call: on tree i, which took the k trees behind it. */
  lemma RunningStep(sh: Shape, d0: Deps, d: Deps, d': Deps, f: seq<Tree>, i: nat, k: nat)
    requires Unique(Preorder(f)) && Running(sh, d0, d, f, i) && i < |f|
    requires DepsDone(sh, d, d', f[i].id, f[i].kids, f[i + 1..], k)
    ensures Running(sh, d0, d', f, i + 1 + k)
  {
    hide Preorder, Inherited, BelowInherited, Below, Nodes, Unique, DepsBut;
    var j := i + 1 + k;
    assert f[i + 1..][..k] == f[i + 1..j];
    StepNodes(f, i, j);
    MidDone(sh, d, d', f, i, j);
    MidStep(sh, d0, d, d', f, i, j);
    assert f[..j] == f[..i] + f[i..j];
    BelowConcat(sh, d0, d', f[..i], f[i..j]);
    BelowTopsConcat(f[..i], f[i..j]);
    DepsButTrans(d0, d, d', Below(f[..i]), Below(f[i..j]));
  }

  lemma MidStep(sh: Shape, d0: Deps, d: Deps, d': Deps, f: seq<Tree>, i: nat, j: nat)
    requires i < j <= |f| && Unique(Preorder(f)) && BelowInherited(sh, d0, d, f[..i]) && DepsBut(d0, d, Below(f[..i]))
    requires BelowInherited(sh, d, d', f[i..j]) && DepsBut(d, d', Below(f[i..j]))
    ensures BelowInherited(sh, d0, d', f[..i]) && BelowInherited(sh, d0, d', f[i..j])
  {
    hide Preorder, Inherited, BelowInherited, Below;
    StepNodes(f, i, j);
    BelowPart(f, i, i);
    BelowFrame(sh, d, d', d0, d', f[i..j]);
    BelowFrame(sh, d0, d, d0, d', f[..i]);
  }

  lemma MidDone(sh: Shape, d: Deps, d': Deps, f: seq<Tree>, i: nat, j: nat)
    requires i < j <= |f| && f[i].id !in Below(f[i..j])
    requires Inherited(sh, d, d', ParentDep(sh, d, f[i].id), f[i].kids) && BelowInherited(sh, d, d', f[i + 1..j])
    requires DepsBut(d, d', Nodes(f[i].kids) + Below(f[i + 1..j]))
    ensures BelowInherited(sh, d, d', f[i..j]) && Below(f[i..j]) == Nodes(f[i].kids) + Below(f[i + 1..j])
  {
    hide Preorder, Inherited;
    var mid := f[i..j];
    assert mid[0] == f[i] && mid[1..] == f[i + 1..j];
    assert ParentDep(sh, d, f[i].id) == ParentDep(sh, d', f[i].id);
  }

  lemma StepNodes(f: seq<Tree>, i: nat, j: nat)
    requires Unique(Preorder(f)) && i < j <= |f|
    ensures Below(f[i..j]) !! Nodes(f[..i]) && Below(f[..i]) !! Below(f[i..j]) && f[i].id !in Below(f[i..j])
  {
    hide Preorder, Unique, Nodes;
    BelowPart(f, i, j);
    SplitUnique(f, i);
    TopsApart(f[i..]);
    assert f[i..][..j - i] == f[i..j];
    BelowSplit(f[i..], j - i);
    BelowTops(f[i..]);
    assert f[i..][0] == f[i] && f[i].id in Tops(f[i..]);
  }

  /** What the next call of the loop relies on. */
  lemma RunningReady(sh: Shape, d0: Deps, d: Deps, f: seq<Tree>, i: nat)
    requires Unique(Preorder(f)) && Running(sh, d0, d, f, i) && i < |f| && TopsNnf(d0, f)
    ensures DepsReady(sh, d, f[i].id, f[i + 1..])
  {
    hide Preorder, Inherited;
    BelowPart(f, i, i);
    TopsNnfFrame(d0, d, f);
    TopsNnfDrop(d, f, i);
    assert f[i..][0] == f[i] && f[i..][1..] == f[i + 1..];
  }

  lemma {:induction false} TopsNnfDrop(d: Deps, f: seq<Tree>, i: nat)
    requires TopsNnf(d, f) && i <= |f|
    ensures TopsNnf(d, f[i..])
    decreases i
  {
    if i > 0 {
      TopsNnfDrop(d, f, i - 1);
      assert f[i - 1..][1..] == f[i..];
    } else {
      assert f[0..] == f;
    }
  }

  /** One more child has inherited. */
  lemma TopsDoneStep(sh: Shape, d0: Deps, d: Deps, d': Deps, above: Option<Expr>, f: seq<Tree>, i: nat)
    requires Unique(Preorder(f)) && i < |f|
    requires TopsDone(sh, d0, d, above, f[..i]) && DepsBut(d0, d, Tops(f[..i]))
    requires NodeDone(sh, d, d', above, f[i].id) && DepsBut(d, d', {f[i].id})
    ensures TopsDone(sh, d0, d', above, f[..i + 1]) && DepsBut(d0, d', Tops(f[..i + 1]))
  {
    hide NodeDone, Preorder, TopsDone, Tops;
    var n := f[i].id;
    assert f[..i + 1] == f[..i] + [f[i]];
    TopsDoneConcat(sh, d0, d', above, f[..i], [f[i]]);
    BelowTopsConcat(f[..i], [f[i]]);
    TopsUnit(sh, d0, d', above, f[i]);
    TopApart(f, i);
    TopsFrame(sh, d0, d, d', above, f[..i]);
    NodeDoneFrame(sh, d, d', d0, d', above, n);
    DepsButTrans(d0, d, d', Tops(f[..i]), {n});
  }

  lemma TopsUnit(sh: Shape, d: Deps, d': Deps, above: Option<Expr>, t: Tree)
    ensures TopsDone(sh, d, d', above, [t]) <==> NodeDone(sh, d, d', above, t.id)
    ensures Tops([t]) == {t.id}
  {
    hide NodeDone;
  }

  lemma TopApart(f: seq<Tree>, i: nat)
    requires Unique(Preorder(f)) && i < |f|
    ensures f[i].id !in Tops(f[..i])
  {
    hide Preorder, Unique;
    TakeDrop(f, i);
    UniqueParts(Preorder(f[..i]), Preorder(f[i..]));
    BelowTops(f[..i]);
    NodesSplit(f[i..]);
    assert f[i..][0] == f[i];
    assert f[i].id in Nodes(f[i..]);
  }

  lemma TopsDoneStart(sh: Shape, d: Deps, above: Option<Expr>, f: seq<Tree>)
    ensures TopsDone(sh, d, d, above, f[..0]) && DepsBut(d, d, Tops(f[..0]))
  {
  }

  /** The end of the branch for nodes with children. */
  lemma ChildrenDone(sh: Shape, d: Deps, m: Deps, d': Deps, p: nat, kids: seq<Tree>, fs: seq<Tree>)
    requires Unique(Preorder(kids)) && p !in Nodes(kids) && TopsDone(sh, d, m, ParentDep(sh, d, p), kids)
    requires DepsBut(d, m, Tops(kids))
    requires Running(sh, m, d', kids, |kids|)
    ensures DepsDone(sh, d, d', p, kids, fs, 0)
  {
    hide Preorder, Inherited, NodeDone;
    assert kids[..|kids|] == kids && fs[..0] == [];
    BelowTops(kids);
    TopsApart(kids);
    TopsThenBelow(sh, d, m, d', ParentDep(sh, d, p), kids);
    DepsButTrans(d, m, d', Tops(kids), Below(kids));
  }

  /** The end of the branch for symbols without children. */
  lemma TakenDone(sh: Shape, d: Deps, d': Deps, p: nat, fs: seq<Tree>, k: nat)
    requires Running(sh, d, d', fs, k)
    ensures DepsDone(sh, d, d', p, [], fs, k)
  {
    hide Preorder;
    PreorderNone();
    assert Nodes([]) + Below(fs[..k]) == Below(fs[..k]);
  }

  // ----- the value of a node's condition -----

  /** The minimum of the declared conditions of node n and of its ancestors in
      the forest, starting from the value above it; below a choice it starts
      from the value of the choice. */
  ghost function Wanted(sh: Shape, d: Deps, env: Env, above: Tristate, f: seq<Tree>, n: nat): Option<Tristate>
    decreases f
  {
    if f == [] then None
    else
      var here := And(above, EvalOpt(d.DepOf(f[0].id), WithModules(env, sh.modules)));
      if f[0].id == n then Some(here)
      else
        var passed := if f[0].id in sh.choices &&
          sh.SymOf(f[0].id).Some? then env.tri(sh.SymOf(f[0].id).value) else here;
        var below := Wanted(sh, d, env, passed, f[0].kids, n);
        if below.Some? then below else Wanted(sh, d, env, above, f[1..], n)
  }

  lemma {:induction false} WantedIsValue(sh: Shape, d: Deps, d': Deps, env: Env, parent: Option<Expr>, f: seq<Tree>,
      n: nat)
    requires WellFormed(env) && Inherited(sh, d, d', parent, f)
    ensures var v := Wanted(sh, d, env, EvalOpt(parent, env), f, n); v.Some? ==> EvalOpt(d'.DepOf(n), env) == v.value
    decreases f
  {
    if f != [] {
      var id := f[0].id;
      assert EvalOpt(d'.DepOf(id), env) ==
        And(EvalOpt(parent, env), EvalOpt(RewriteMOpt(d.DepOf(id), sh.modules), env));
      if d.DepOf(id).Some? {
        RewriteMMeaning(d.DepOf(id).value, sh.modules, env);
      }
      WantedIsValue(sh, d, d', env, ParentDep(sh, d', id), f[0].kids, n);
      WantedIsValue(sh, d, d', env, parent, f[1..], n);
    }
  }

  lemma {:induction false} WantedSomewhere(sh: Shape, d: Deps, env: Env, above: Tristate, f: seq<Tree>, n: nat)
    ensures Wanted(sh, d, env, above, f, n).Some? <==> n in Nodes(f)
    decreases f
  {
    if f != [] {
      NodesSplit(f);
      var here := And(above, EvalOpt(d.DepOf(f[0].id), WithModules(env, sh.modules)));
      WantedSomewhere(sh, d, env, here, f[0].kids, n);
      if f[0].id in sh.choices && sh.SymOf(f[0].id).Some? {
        WantedSomewhere(sh, d, env, env.tri(sh.SymOf(f[0].id).value), f[0].kids, n);
      }
      WantedSomewhere(sh, d, env, above, f[1..], n);
    }
  }
}
