/** What the selects and implies of the menu nodes contribute to the reverse
    dependencies of other symbols. */
module MenuSelects {
  import opened Tristates
  import opened Exprs
  import opened Symbols
  import opened MenuTrees
  import opened MenuDeps

  /** The dependencies that a symbol collects from all over the menu. */
  datatype Slot = RevSlot | ImpliedSlot | DirSlot

  /** rev_dep, implied and dir_dep of the symbols that have one. */
  datatype Reverse = Reverse(rev: map<Sym, Expr>, imp: map<Sym, Expr>, dir: map<Sym, Expr>)

  function MapOf(r: Reverse, slot: Slot): map<Sym, Expr> {
    match slot
    case RevSlot => r.rev
    case ImpliedSlot => r.imp
    case DirSlot => r.dir
  }

  function SlotOf(kind: PropKind): Option<Slot> {
    if kind.SelectProp? then Some(RevSlot) else if kind.ImplyProp? then Some(ImpliedSlot) else None
  }

  /** The value of a dependency, or -1 when there is none. */
  type Degree = n: int | -1 <= n <= 2

  const MISSING: Degree := -1

  function Most(a: Degree, b: Degree): Degree {
    if a > b then a else b
  }

  function SlotVal(r: Reverse, slot: Slot, s: Sym, env: Env): Degree {
    var m := MapOf(r, slot);
    if s in m then Eval(m[s], env) else MISSING
  }

  /** The selects or implies of s among these properties, each as the minimum of
      the selecting symbol and the condition; together the maximum. */
  function FromProps(via: Sym, ps: seq<NodeProp>, slot: Slot, s: Sym, env: Env): Degree {
    if ps == [] then MISSING
    else
      var p := ps[|ps| - 1];
      var rest := FromProps(via, ps[..|ps| - 1], slot, s, env);
      if SlotOf(p.kind) == Some(slot) &&
          p.target == Some(s) then Most(rest, And(env.tri(via), EvalOpt(p.cond, env))) else rest
  }

  function FromNode(sh: Shape, d: Deps, n: nat, slot: Slot, s: Sym, env: Env): Degree {
    if sh.SymOf(n).None? then MISSING else FromProps(sh.SymOf(n).value, d.PropsOf(n), slot, s, env)
  }

  /** Does this node force its symbol when its prompt is visible? Only choices
      that are not optional lack SYMBOL_OPTIONAL. */
  predicate Forces(sh: Shape, n: nat) {
    sh.SymOf(n).Some? && sh.SymOf(n).value !in sh.optional && sh.PromptOf(n).Some?
  }

  /** What the node adds for its own symbol: a choice that is not optional, a
      reverse dependency on its visibility, at most m; a node without children,
      its condition as direct dependency. */
  function FromOwn(sh: Shape, d: Deps, n: nat, leaf: bool, slot: Slot, s: Sym, env: Env): Degree {
    if sh.SymOf(n) != Some(s) then MISSING
    else if slot.RevSlot? && Forces(sh, n) then And(EvalOpt(PromptCond(sh, d, n), env), env.tri(SymMod))
    else if slot.DirSlot? && leaf && d.DepOf(n).Some? then Eval(d.DepOf(n).value, env)
    else MISSING
  }

  /** What all nodes of the forest contribute to one dependency of s. */
  function FromForest(sh: Shape, d: Deps, f: seq<Tree>, slot: Slot, s: Sym, env: Env): Degree
    decreases f
  {
    if f == [] then MISSING
    else
      Most(FromNode(sh, d, f[0].id, slot, s, env),
           Most(FromOwn(sh, d, f[0].id, f[0].kids == [], slot, s, env),
                Most(FromForest(sh, d, f[0].kids, slot, s, env), FromForest(sh, d, f[1..], slot, s, env))))
  }

  function FromTops(sh: Shape, d: Deps, f: seq<Tree>, slot: Slot, s: Sym, env: Env): Degree {
    if f == [] then MISSING
    else Most(FromNode(sh, d, f[0].id, slot, s, env), FromTops(sh, d, f[1..], slot, s, env))
  }

  /** What is added when the trees are finalised. */
  function FromBelow(sh: Shape, d: Deps, f: seq<Tree>, slot: Slot, s: Sym, env: Env): Degree {
    if f == [] then MISSING
    else
      Most(FromOwn(sh, d, f[0].id, f[0].kids == [], slot, s, env),
           Most(FromForest(sh, d, f[0].kids, slot, s, env), FromBelow(sh, d, f[1..], slot, s, env)))
  }

  lemma {:induction false} ForestParts(sh: Shape, d: Deps, f: seq<Tree>, slot: Slot, s: Sym, env: Env)
    ensures FromForest(sh, d, f, slot, s, env) ==
        Most(FromTops(sh, d, f, slot, s, env), FromBelow(sh, d, f, slot, s, env))
    decreases |f|
  {
    hide FromNode, FromOwn;
    if f != [] {
      ForestParts(sh, d, f[1..], slot, s, env);
    }
  }

  lemma {:induction false} ConcatTops(sh: Shape, d: Deps, f: seq<Tree>, g: seq<Tree>, slot: Slot, s: Sym, env: Env)
    ensures FromTops(sh, d, f + g, slot, s, env) ==
        Most(FromTops(sh, d, f, slot, s, env), FromTops(sh, d, g, slot, s, env))
  {
    hide FromNode, FromOwn;
    if f == [] {
      assert f + g == g;
    } else {
      assert (f + g)[1..] == f[1..] + g;
      ConcatTops(sh, d, f[1..], g, slot, s, env);
    }
  }

  lemma {:induction false} ConcatBelow(sh: Shape, d: Deps, f: seq<Tree>, g: seq<Tree>, slot: Slot, s: Sym, env: Env)
    ensures FromBelow(sh, d, f + g, slot, s, env) ==
        Most(FromBelow(sh, d, f, slot, s, env), FromBelow(sh, d, g, slot, s, env))
  {
    hide FromForest, FromOwn;
    if f == [] {
      assert f + g == g;
    } else {
      assert (f + g)[1..] == f[1..] + g;
      ConcatBelow(sh, d, f[1..], g, slot, s, env);
    }
  }

  lemma {:induction false} ForestFrame(sh: Shape, d: Deps, e: Deps, f: seq<Tree>, slot: Slot, s: Sym, env: Env)
    requires SameDeps(d, e, Nodes(f))
    ensures FromForest(sh, d, f, slot, s, env) == FromForest(sh, e, f, slot, s, env)
    decreases f
  {
    hide FromProps, FromOwn, Preorder;
    if f != [] {
      NodesSplit(f);
      assert f[0].id in Nodes(f);
      OwnSame(sh, d, e, f[0].id, f[0].kids == [], slot, s, env);
      ForestFrame(sh, d, e, f[0].kids, slot, s, env);
      ForestFrame(sh, d, e, f[1..], slot, s, env);
    }
  }

  lemma OwnSame(sh: Shape, d: Deps, e: Deps, n: nat, leaf: bool, slot: Slot, s: Sym, env: Env)
    requires d.DepOf(n) == e.DepOf(n) && d.PropsOf(n) == e.PropsOf(n)
    ensures FromOwn(sh, d, n, leaf, slot, s, env) == FromOwn(sh, e, n, leaf, slot, s, env)
  {
  }

  lemma {:induction false} BelowSame(sh: Shape, d: Deps, e: Deps, f: seq<Tree>, slot: Slot, s: Sym, env: Env)
    requires SameDeps(d, e, Nodes(f))
    ensures FromBelow(sh, d, f, slot, s, env) == FromBelow(sh, e, f, slot, s, env)
  {
    hide FromForest, FromOwn;
    if f != [] {
      NodesSplit(f);
      assert f[0].id in Nodes(f);
      BelowSame(sh, d, e, f[1..], slot, s, env);
      ForestFrame(sh, d, e, f[0].kids, slot, s, env);
      OwnSame(sh, d, e, f[0].id, f[0].kids == [], slot, s, env);
    }
  }

  lemma {:induction false} TopsSame(sh: Shape, d: Deps, e: Deps, f: seq<Tree>, slot: Slot, s: Sym, env: Env)
    requires SameDeps(d, e, Tops(f))
    ensures FromTops(sh, d, f, slot, s, env) == FromTops(sh, e, f, slot, s, env)
  {
    hide FromProps;
    if f != [] {
      TopsSame(sh, d, e, f[1..], slot, s, env);
      assert f[0].id in Tops(f);
    }
  }

  // ----- contracts -----

  /** The contributions of the top nodes of the forest have been added. */
  ghost predicate TopsAdded(sh: Shape, d: Deps, r: Reverse, r': Reverse, f: seq<Tree>) {
    forall slot: Slot, s: Sym, env: Env ::
      SlotVal(r', slot, s, env) == Most(SlotVal(r, slot, s, env), FromTops(sh, d, f, slot, s, env))
  }

  ghost predicate BelowAdded(sh: Shape, d: Deps, r: Reverse, r': Reverse, f: seq<Tree>) {
    forall slot: Slot, s: Sym, env: Env ::
      SlotVal(r', slot, s, env) == Most(SlotVal(r, slot, s, env), FromBelow(sh, d, f, slot, s, env))
  }

  /** What the nodes below p and the taken siblings contribute has been added. */
  ghost predicate BothAdded(sh: Shape, d: Deps, r: Reverse, r': Reverse, kids: seq<Tree>, f: seq<Tree>) {
    forall slot: Slot, s: Sym, env: Env ::
      SlotVal(r', slot, s, env) ==
        Most(SlotVal(r, slot, s, env), Most(FromForest(sh, d, kids, slot, s, env), FromBelow(sh, d, f, slot, s, env)))
  }

  /** A call of menu_finalize on p adds what p itself, the nodes below it and the
      taken siblings contribute. */
  ghost predicate Added(sh: Shape, d: Deps, r: Reverse, r': Reverse, p: nat, kids: seq<Tree>, f: seq<Tree>) {
    forall slot: Slot, s: Sym, env: Env ::
      SlotVal(r', slot, s, env) ==
        Most(SlotVal(r, slot, s, env),
             Most(FromOwn(sh, d, p, kids == [], slot, s, env),
                  Most(FromForest(sh, d, kids, slot, s, env), FromBelow(sh, d, f, slot, s, env))))
  }

  lemma AddedStart(sh: Shape, d: Deps, r: Reverse, f: seq<Tree>)
    ensures TopsAdded(sh, d, r, r, f[..0]) && BelowAdded(sh, d, r, r, f[..0])
  {
  }

  /** One more call, which took the k siblings behind tree i. */
  lemma BelowStep(sh: Shape, d: Deps, d': Deps, r0: Reverse, r: Reverse, r': Reverse, f: seq<Tree>, i: nat, k: nat)
    requires i + 1 + k <= |f| && BelowAdded(sh, d, r0, r, f[..i]) && SameDeps(d, d', Nodes(f[..i]))
    requires Added(sh, d', r, r', f[i].id, f[i].kids, f[i + 1..i + 1 + k])
    ensures BelowAdded(sh, d', r0, r', f[..i + 1 + k])
  {
    hide SlotVal, FromForest, FromBelow, FromOwn;
    var j := i + 1 + k;
    forall slot: Slot, s: Sym, env: Env
      ensures SlotVal(r', slot, s, env) == Most(SlotVal(r0, slot, s, env), FromBelow(sh, d', f[..j], slot, s, env))
    {
      BelowSame(sh, d, d', f[..i], slot, s, env);
      assert f[..j] == f[..i] + f[i..j];
      ConcatBelow(sh, d', f[..i], f[i..j], slot, s, env);
      BelowFirst(sh, d', f[i..j], slot, s, env);
      assert f[i..j][0] == f[i] && f[i..j][1..] == f[i + 1..j];
    }
  }

  lemma BelowFirst(sh: Shape, d: Deps, f: seq<Tree>, slot: Slot, s: Sym, env: Env)
    requires f != []
    ensures FromBelow(sh, d, f, slot, s, env) ==
      Most(FromOwn(sh, d, f[0].id, f[0].kids == [], slot, s, env),
           Most(FromForest(sh, d, f[0].kids, slot, s, env), FromBelow(sh, d, f[1..], slot, s, env)))
  {
    hide FromOwn, FromForest;
  }

  /** All children have been handled, and then everything below them. */
  lemma ChildrenAdded(sh: Shape, m: Deps, d: Deps, r0: Reverse, r: Reverse, r': Reverse, kids: seq<Tree>)
    requires TopsAdded(sh, m, r0, r, kids) && SameDeps(m, d, Tops(kids)) && BelowAdded(sh, d, r, r', kids)
    ensures BothAdded(sh, d, r0, r', kids, [])
  {
    hide SlotVal, FromForest, FromTops;
    forall slot: Slot, s: Sym, env: Env
      ensures SlotVal(r', slot, s, env) ==
        Most(SlotVal(r0, slot, s, env), Most(FromForest(sh, d, kids, slot, s, env), FromBelow(sh, d, [], slot, s, env)))
    {
      TopsSame(sh, m, d, kids, slot, s, env);
      ForestParts(sh, d, kids, slot, s, env);
    }
  }

  lemma TakenAdded(sh: Shape, d: Deps, r: Reverse, r': Reverse, f: seq<Tree>)
    requires BelowAdded(sh, d, r, r', f)
    ensures BothAdded(sh, d, r, r', [], f)
  {
    hide SlotVal, FromBelow;
    forall slot: Slot, s: Sym, env: Env
      ensures SlotVal(r', slot, s, env) ==
        Most(SlotVal(r, slot, s, env), Most(FromForest(sh, d, [], slot, s, env), FromBelow(sh, d, f, slot, s, env)))
    {
    }
  }

  // ----- single additions -----

  /** expr_alloc_or onto a dependency that may be missing. */
  function AddTo(m: map<Sym, Expr>, s: Sym, e: Expr): map<Sym, Expr> {
    m[s := if s in m then EBin(OrOp, m[s], e) else e]
  }

  lemma AddToVal(r: Reverse, r': Reverse, slot: Slot, s: Sym, e: Expr, slot': Slot, t: Sym, env: Env)
    requires MapOf(r', slot) == AddTo(MapOf(r, slot), s, e)
    requires forall other :: other != slot ==> MapOf(r', other) == MapOf(r, other)
    ensures SlotVal(r', slot', t, env) ==
      if slot' == slot && t == s then Most(SlotVal(r, slot, s, env), Eval(e, env)) else SlotVal(r, slot', t, env)
  {
    var m := MapOf(r, slot);
    if s in m {
      assert Eval(EBin(OrOp, m[s], e), env) == Or(Eval(m[s], env), Eval(e, env));
    }
  }

  function AllocBoth(s: Sym, cond: Option<Expr>): Expr {
    if cond.None? then ESym(s) else EBin(AndOp, ESym(s), cond.value)
  }

  /** A select or imply adds sym && cond to the dependency of its target. */
  function AddProp(r: Reverse, via: Option<Sym>, p: NodeProp): Reverse {
    if via.None? || p.target.None? then r
    else if p.kind.SelectProp? then r.(rev := AddTo(r.rev, p.target.value, AllocBoth(via.value, p.cond)))
    else if p.kind.ImplyProp? then r.(imp := AddTo(r.imp, p.target.value, AllocBoth(via.value, p.cond)))
    else r
  }

  lemma AddPropVal(r: Reverse, via: Sym, p: NodeProp, slot: Slot, s: Sym, env: Env)
    ensures SlotVal(AddProp(r, Some(via), p), slot, s, env) ==
      if SlotOf(p.kind) == Some(slot) && p.target == Some(s) then
        Most(SlotVal(r, slot, s, env), And(env.tri(via), EvalOpt(p.cond, env)))
      else SlotVal(r, slot, s, env)
  {
    hide SlotVal;
    if p.target.Some? && SlotOf(p.kind).Some? {
      var e := AllocBoth(via, p.cond);
      assert Eval(e, env) == And(env.tri(via), EvalOpt(p.cond, env));
      AddToVal(r, AddProp(r, Some(via), p), SlotOf(p.kind).value, p.target.value, e, slot, s, env);
    }
  }

  /** The condition of a node without children becomes a direct dependency of its
      symbol. */
  function AddDirect(sh: Shape, d: Deps, r: Reverse, p: nat): Reverse {
    if sh.SymOf(p).None? || d.DepOf(p).None? then r
    else r.(dir := AddTo(r.dir, sh.SymOf(p).value, d.DepOf(p).value))
  }

  /** A choice that is not optional is selected by its own visibility. */
  function AddForced(sh: Shape, d: Deps, r: Reverse, p: nat): Reverse {
    if !Forces(sh, p) then r
    else
      var cond := PromptCond(sh, d, p);
      var e := if cond.None? then ESym(SymMod) else EBin(AndOp, cond.value, ESym(SymMod));
      r.(rev := AddTo(r.rev, sh.SymOf(p).value, e))
  }

  /** What the node adds for its own symbol, after everything below it. */
  lemma OwnAdded(sh: Shape, d: Deps, r0: Reverse, r: Reverse, r1: Reverse, p: nat, kids: seq<Tree>, f: seq<Tree>)
    requires BothAdded(sh, d, r0, r, kids, f) && r1 == if kids == [] then AddDirect(sh, d, r, p) else r
    ensures Added(sh, d, r0, AddForced(sh, d, r1, p), p, kids, f)
  {
    hide SlotVal, FromForest, FromBelow;
    forall slot: Slot, s: Sym, env: Env
      ensures SlotVal(AddForced(sh, d, r1, p), slot, s, env) ==
        Most(SlotVal(r, slot, s, env), FromOwn(sh, d, p, kids == [], slot, s, env))
    {
      OwnVal(sh, d, r, r1, p, kids == [], slot, s, env);
    }
  }

  lemma OwnVal(sh: Shape, d: Deps, r: Reverse, r1: Reverse, p: nat, leaf: bool, slot: Slot, s: Sym, env: Env)
    requires r1 == if leaf then AddDirect(sh, d, r, p) else r
    ensures SlotVal(AddForced(sh, d, r1, p), slot, s, env) ==
        Most(SlotVal(r, slot, s, env), FromOwn(sh, d, p, leaf, slot, s, env))
  {
    hide SlotVal;
    MissingIsLeast(r, slot, s, env);
    if leaf && sh.SymOf(p).Some? && d.DepOf(p).Some? {
      AddToVal(r, r1, DirSlot, sh.SymOf(p).value, d.DepOf(p).value, slot, s, env);
    }
    if Forces(sh, p) {
      var cond := PromptCond(sh, d, p);
      var e := if cond.None? then ESym(SymMod) else EBin(AndOp, cond.value, ESym(SymMod));
      assert Eval(e, env) == And(EvalOpt(cond, env), env.tri(SymMod));
      AddToVal(r1, AddForced(sh, d, r1, p), RevSlot, sh.SymOf(p).value, e, slot, s, env);
    }
  }

  /** A choice that is not optional is selected at least by its visibility, up to m. */
  lemma {:induction false} ForcedAtLeast(sh: Shape, d: Deps, f: seq<Tree>, n: nat, env: Env)
    requires n in Nodes(f) && Forces(sh, n)
    ensures FromForest(sh, d, f, RevSlot, sh.SymOf(n).value, env) >= And(EvalOpt(PromptCond(sh, d, n), env),
        env.tri(SymMod))
    decreases f
  {
    hide FromNode, Preorder;
    PreorderNone();
    NodesSplit(f);
    if n in Nodes(f[0].kids) {
      ForcedAtLeast(sh, d, f[0].kids, n, env);
    } else if n in Nodes(f[1..]) {
      ForcedAtLeast(sh, d, f[1..], n, env);
    }
  }

  lemma MissingIsLeast(r: Reverse, slot: Slot, s: Sym, env: Env)
    ensures Most(SlotVal(r, slot, s, env), MISSING) == SlotVal(r, slot, s, env)
  {
  }

  /** The first i properties of node n have been added. */
  ghost predicate PropsAdded(sh: Shape, r: Reverse, r': Reverse, n: nat, ps: seq<NodeProp>) {
    forall slot: Slot, s: Sym, env: Env ::
      SlotVal(r', slot, s, env) == Most(SlotVal(r, slot, s, env),
        if sh.SymOf(n).None? then MISSING else FromProps(sh.SymOf(n).value, ps, slot, s, env))
  }

  lemma PropsAddedStart(sh: Shape, r: Reverse, n: nat)
    ensures PropsAdded(sh, r, r, n, [])
  {
  }

  lemma PropsAddedStep(sh: Shape, r0: Reverse, r: Reverse, n: nat, ps: seq<NodeProp>, p: NodeProp)
    requires PropsAdded(sh, r0, r, n, ps)
    ensures PropsAdded(sh, r0, AddProp(r, sh.SymOf(n), p), n, ps + [p])
  {
    hide SlotVal;
    assert (ps + [p])[..|ps|] == ps;
    forall slot: Slot, s: Sym, env: Env
      ensures SlotVal(AddProp(r, sh.SymOf(n), p), slot, s, env) == Most(SlotVal(r0, slot, s, env),
        if sh.SymOf(n).None? then MISSING else FromProps(sh.SymOf(n).value, ps + [p], slot, s, env))
    {
      if sh.SymOf(n).Some? {
        AddPropVal(r, sh.SymOf(n).value, p, slot, s, env);
      }
    }
  }

  /** One more child has been handled. */
  lemma TopsStep(sh: Shape, d: Deps, d': Deps, r0: Reverse, r: Reverse, r': Reverse, f: seq<Tree>, i: nat)
    requires i < |f| && TopsAdded(sh, d, r0, r, f[..i]) && SameDeps(d, d', Tops(f[..i]))
    requires PropsAdded(sh, r, r', f[i].id, d'.PropsOf(f[i].id))
    ensures TopsAdded(sh, d', r0, r', f[..i + 1])
  {
    hide SlotVal, FromTops, FromProps;
    forall slot: Slot, s: Sym, env: Env
      ensures SlotVal(r', slot, s, env) == Most(SlotVal(r0, slot, s, env), FromTops(sh, d', f[..i + 1], slot, s, env))
    {
      TopsSame(sh, d, d', f[..i], slot, s, env);
      assert f[..i + 1] == f[..i] + [f[i]];
      ConcatTops(sh, d', f[..i], [f[i]], slot, s, env);
      TopsOne(sh, d', f[i], slot, s, env);
    }
  }

  lemma TopsOne(sh: Shape, d: Deps, t: Tree, slot: Slot, s: Sym, env: Env)
    ensures FromTops(sh, d, [t], slot, s, env) == FromNode(sh, d, t.id, slot, s, env)
  {
  }
}
