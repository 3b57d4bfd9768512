/** What rev_dep, implied and dir_dep of a symbol are after menu_finalize: the largest of
    what the selects, the implies, the forced choices and the childless nodes of
    the menu give. */
module MenuReverse {
  import opened Tristates
  import opened Exprs
  import opened Symbols
  import opened MenuTrees
  import opened MenuDeps
  import opened MenuSelects

  /** Property i of node n selects s. */
  ghost predicate Selects(sh: Shape, d: Deps, f: seq<Tree>, n: nat, i: nat, s: Sym) {
    && n in Nodes(f) && sh.SymOf(n).Some?
    && i < |d.PropsOf(n)| && d.PropsOf(n)[i].kind.SelectProp? && d.PropsOf(n)[i].target == Some(s)
  }

  /** Property i of node n implies s. */
  ghost predicate Implies(sh: Shape, d: Deps, f: seq<Tree>, n: nat, i: nat, s: Sym) {
    && n in Nodes(f) && sh.SymOf(n).Some?
    && i < |d.PropsOf(n)| && d.PropsOf(n)[i].kind.ImplyProp? && d.PropsOf(n)[i].target == Some(s)
  }

  /** The choice s stands at node n, has a prompt there and is not optional. */
  ghost predicate ForcedAt(sh: Shape, f: seq<Tree>, n: nat, s: Sym) {
    n in Nodes(f) && sh.SymOf(n) == Some(s) && s !in sh.optional && sh.PromptOf(n).Some?
  }

  /** The selecting symbol as far as the condition of the property allows. */
  ghost function Strength(sh: Shape, d: Deps, n: nat, i: nat, env: Env): Tristate
    requires sh.SymOf(n).Some? && i < |d.PropsOf(n)|
  {
    And(env.tri(sh.SymOf(n).value), EvalOpt(d.PropsOf(n)[i].cond, env))
  }

  /** v is what the old rev_dep of s, one select of s, or one forced choice gives. */
  ghost predicate Selected(sh: Shape, d: Deps, f: seq<Tree>, rev: map<Sym, Expr>, s: Sym, env: Env, v: Tristate) {
    || (s in rev && Eval(rev[s], env) == v)
    || (exists n, i :: Selects(sh, d, f, n, i, s) && Strength(sh, d, n, i, env) == v)
    || (exists n :: ForcedAt(sh, f, n, s) && And(EvalOpt(PromptCond(sh, d, n), env), env.tri(SymMod)) == v)
  }

  /** v is what the old implied of s or one imply of s gives. */
  ghost predicate Implied(sh: Shape, d: Deps, f: seq<Tree>, imp: map<Sym, Expr>, s: Sym, env: Env, v: Tristate) {
    || (s in imp && Eval(imp[s], env) == v)
    || (exists n, i :: Implies(sh, d, f, n, i, s) && Strength(sh, d, n, i, env) == v)
  }

  /** rev_dep of a symbol is missing when nothing selects it, and else it is the
      largest of what selects it. */
  ghost predicate SelectsCounted(sh: Shape, d: Deps, f: seq<Tree>, rev: map<Sym, Expr>, rev': map<Sym, Expr>) {
    forall s: Sym, env: Env ::
      (s in rev' ==> Selected(sh, d, f, rev, s, env, Eval(rev'[s], env))) &&
      (forall v: Tristate :: Selected(sh, d, f, rev, s, env, v) ==> s in rev' && v <= Eval(rev'[s], env))
  }

  ghost predicate ImpliesCounted(sh: Shape, d: Deps, f: seq<Tree>, imp: map<Sym, Expr>, imp': map<Sym, Expr>) {
    forall s: Sym, env: Env ::
      (s in imp' ==> Implied(sh, d, f, imp, s, env, Eval(imp'[s], env))) &&
      (forall v: Tristate :: Implied(sh, d, f, imp, s, env, v) ==> s in imp' && v <= Eval(imp'[s], env))
  }

  /** Node n is declared without children. */
  ghost predicate LeafIn(f: seq<Tree>, n: nat)
    decreases f
  {
    f != [] && ((f[0].id == n && f[0].kids == []) || LeafIn(f[0].kids, n) || LeafIn(f[1..], n))
  }

  /** v is the old dir_dep of s, or the condition of a childless node of s. */
  ghost predicate Declares(sh: Shape, d: Deps, f: seq<Tree>, dir: map<Sym, Expr>, s: Sym, env: Env, v: Tristate) {
    || (s in dir && Eval(dir[s], env) == v)
    || (exists n :: LeafIn(f, n) && sh.SymOf(n) == Some(s) && d.DepOf(n).Some? && Eval(d.DepOf(n).value, env) == v)
  }

  ghost predicate DirectCounted(sh: Shape, d: Deps, f: seq<Tree>, dir: map<Sym, Expr>, dir': map<Sym, Expr>) {
    forall s: Sym, env: Env ::
      (s in dir' ==> Declares(sh, d, f, dir, s, env, Eval(dir'[s], env))) &&
      (forall v: Tristate :: Declares(sh, d, f, dir, s, env, v) ==> s in dir' && v <= Eval(dir'[s], env))
  }

  // ----- one property -----

  lemma {:induction false} PropBelow(via: Sym, ps: seq<NodeProp>, slot: Slot, s: Sym, env: Env, i: nat)
    requires i < |ps| && SlotOf(ps[i].kind) == Some(slot) && ps[i].target == Some(s)
    ensures And(env.tri(via), EvalOpt(ps[i].cond, env)) <= FromProps(via, ps, slot, s, env)
  {
    if i < |ps| - 1 {
      PropBelow(via, ps[..|ps| - 1], slot, s, env, i);
    }
  }

  lemma {:induction false} PropReached(via: Sym, ps: seq<NodeProp>, slot: Slot, s: Sym, env: Env) returns (i: nat)
    requires FromProps(via, ps, slot, s, env) != MISSING
    ensures i < |ps| && SlotOf(ps[i].kind) == Some(slot) && ps[i].target == Some(s)
    ensures And(env.tri(via), EvalOpt(ps[i].cond, env)) == FromProps(via, ps, slot, s, env)
  {
    var last := |ps| - 1;
    var rest := FromProps(via, ps[..last], slot, s, env);
    if rest == FromProps(via, ps, slot, s, env) {
      i := PropReached(via, ps[..last], slot, s, env);
    } else {
      i := last;
    }
  }

  // ----- one node -----

  lemma OwnAlike(sh: Shape, d: Deps, n: nat, leaf: bool, slot: Slot, s: Sym, env: Env)
    requires !slot.DirSlot?
    ensures FromOwn(sh, d, n, leaf, slot, s, env) == FromOwn(sh, d, n, false, slot, s, env)
  {
  }

  lemma ForestFirst(sh: Shape, d: Deps, f: seq<Tree>, slot: Slot, s: Sym, env: Env)
    requires f != []
    ensures var v := FromForest(sh, d, f, slot, s, env);
            FromNode(sh, d, f[0].id, slot, s, env) <= v &&
            FromOwn(sh, d, f[0].id, f[0].kids == [], slot, s, env) <= v &&
            FromForest(sh, d, f[0].kids, slot, s, env) <= v && FromForest(sh, d, f[1..], slot, s, env) <= v
  {
    hide FromNode, FromOwn;
  }

  lemma {:induction false} NodeBelow(sh: Shape, d: Deps, f: seq<Tree>, n: nat, slot: Slot, s: Sym, env: Env)
    requires n in Nodes(f) && !slot.DirSlot?
    ensures FromNode(sh, d, n, slot, s, env) <= FromForest(sh, d, f, slot, s, env)
    ensures FromOwn(sh, d, n, false, slot, s, env) <= FromForest(sh, d, f, slot, s, env)
    decreases f
  {
    hide FromNode, FromOwn, FromForest, Preorder;
    PreorderNone();
    NodesSplit(f);
    ForestFirst(sh, d, f, slot, s, env);
    OwnAlike(sh, d, f[0].id, f[0].kids == [], slot, s, env);
    if n in Nodes(f[0].kids) {
      NodeBelow(sh, d, f[0].kids, n, slot, s, env);
    } else if n in Nodes(f[1..]) {
      NodeBelow(sh, d, f[1..], n, slot, s, env);
    }
  }

  lemma {:induction false} NodeReached(sh: Shape, d: Deps, f: seq<Tree>, slot: Slot, s: Sym, env: Env) returns (n: nat)
    requires FromForest(sh, d, f, slot, s, env) != MISSING && !slot.DirSlot?
    ensures n in Nodes(f)
    ensures var v := FromForest(sh, d, f, slot, s, env);
            FromNode(sh, d, n, slot, s, env) == v || FromOwn(sh, d, n, false, slot, s, env) == v
    decreases f
  {
    hide FromNode, FromOwn, Preorder;
    NodesSplit(f);
    OwnAlike(sh, d, f[0].id, f[0].kids == [], slot, s, env);
    var v := FromForest(sh, d, f, slot, s, env);
    if v == FromForest(sh, d, f[0].kids, slot, s, env) {
      n := NodeReached(sh, d, f[0].kids, slot, s, env);
    } else if v == FromForest(sh, d, f[1..], slot, s, env) {
      n := NodeReached(sh, d, f[1..], slot, s, env);
    } else {
      n := f[0].id;
    }
  }

  // ----- the whole menu -----

  lemma SelectGiven(sh: Shape, d: Deps, f: seq<Tree>, n: nat, i: nat, slot: Slot, s: Sym, env: Env)
    requires n in Nodes(f) && sh.SymOf(n).Some? && i < |d.PropsOf(n)| && !slot.DirSlot?
    requires SlotOf(d.PropsOf(n)[i].kind) == Some(slot) && d.PropsOf(n)[i].target == Some(s)
    ensures Strength(sh, d, n, i, env) <= FromForest(sh, d, f, slot, s, env)
  {
    hide FromForest, FromProps;
    NodeBelow(sh, d, f, n, slot, s, env);
    PropBelow(sh.SymOf(n).value, d.PropsOf(n), slot, s, env, i);
  }

  /** Everything that selects s gives at most the new rev_dep of s. */
  lemma SelectedBelow(sh: Shape, d: Deps, f: seq<Tree>, r: Reverse, r': Reverse, s: Sym, env: Env, v: Tristate)
    requires SlotVal(r', RevSlot, s, env) == Most(SlotVal(r, RevSlot, s, env), FromForest(sh, d, f, RevSlot, s, env))
    requires Selected(sh, d, f, r.rev, s, env, v)
    ensures s in r'.rev && v <= Eval(r'.rev[s], env)
  {
    hide FromForest;
    if s in r.rev && Eval(r.rev[s], env) == v {
    } else if n, i :| Selects(sh, d, f, n, i, s) && Strength(sh, d, n, i, env) == v {
      SelectGiven(sh, d, f, n, i, RevSlot, s, env);
    } else {
      var n :| ForcedAt(sh, f, n, s) && And(EvalOpt(PromptCond(sh, d, n), env), env.tri(SymMod)) == v;
      NodeBelow(sh, d, f, n, RevSlot, s, env);
    }
  }

  /** And something gives it. */
  lemma SelectedReached(sh: Shape, d: Deps, f: seq<Tree>, r: Reverse, r': Reverse, s: Sym, env: Env)
    requires SlotVal(r', RevSlot, s, env) == Most(SlotVal(r, RevSlot, s, env), FromForest(sh, d, f, RevSlot, s, env))
    requires s in r'.rev
    ensures Selected(sh, d, f, r.rev, s, env, Eval(r'.rev[s], env))
  {
    hide FromForest, FromProps;
    if !(s in r.rev && Eval(r.rev[s], env) == Eval(r'.rev[s], env)) {
      var n := NodeReached(sh, d, f, RevSlot, s, env);
      if FromNode(sh, d, n, RevSlot, s, env) == Eval(r'.rev[s], env) {
        var i := PropReached(sh.SymOf(n).value, d.PropsOf(n), RevSlot, s, env);
        assert Selects(sh, d, f, n, i, s) && Strength(sh, d, n, i, env) == Eval(r'.rev[s], env);
      } else {
        assert ForcedAt(sh, f, n, s);
      }
    }
  }

  lemma ImpliedBelow(sh: Shape, d: Deps, f: seq<Tree>, r: Reverse, r': Reverse, s: Sym, env: Env, v: Tristate)
    requires SlotVal(r', ImpliedSlot, s, env) ==
      Most(SlotVal(r, ImpliedSlot, s, env), FromForest(sh, d, f, ImpliedSlot, s, env))
    requires Implied(sh, d, f, r.imp, s, env, v)
    ensures s in r'.imp && v <= Eval(r'.imp[s], env)
  {
    hide FromForest;
    if s in r.imp && Eval(r.imp[s], env) == v {
    } else {
      var n, i :| Implies(sh, d, f, n, i, s) && Strength(sh, d, n, i, env) == v;
      SelectGiven(sh, d, f, n, i, ImpliedSlot, s, env);
    }
  }

  lemma ImpliedReached(sh: Shape, d: Deps, f: seq<Tree>, r: Reverse, r': Reverse, s: Sym, env: Env)
    requires SlotVal(r', ImpliedSlot, s, env) ==
      Most(SlotVal(r, ImpliedSlot, s, env), FromForest(sh, d, f, ImpliedSlot, s, env))
    requires s in r'.imp
    ensures Implied(sh, d, f, r.imp, s, env, Eval(r'.imp[s], env))
  {
    hide FromForest, FromProps;
    if !(s in r.imp && Eval(r.imp[s], env) == Eval(r'.imp[s], env)) {
      var n := NodeReached(sh, d, f, ImpliedSlot, s, env);
      var i := PropReached(sh.SymOf(n).value, d.PropsOf(n), ImpliedSlot, s, env);
      assert Implies(sh, d, f, n, i, s) && Strength(sh, d, n, i, env) == Eval(r'.imp[s], env);
    }
  }

  lemma {:induction false} LeafBelow(sh: Shape, d: Deps, f: seq<Tree>, n: nat, s: Sym, env: Env)
    requires LeafIn(f, n) && sh.SymOf(n) == Some(s) && d.DepOf(n).Some?
    ensures Eval(d.DepOf(n).value, env) <= FromForest(sh, d, f, DirSlot, s, env)
    decreases f
  {
    hide FromNode, FromForest;
    ForestFirst(sh, d, f, DirSlot, s, env);
    if LeafIn(f[0].kids, n) {
      LeafBelow(sh, d, f[0].kids, n, s, env);
    } else if LeafIn(f[1..], n) {
      LeafBelow(sh, d, f[1..], n, s, env);
    }
  }

  lemma {:induction false} LeafReached(sh: Shape, d: Deps, f: seq<Tree>, s: Sym, env: Env) returns (n: nat)
    requires FromForest(sh, d, f, DirSlot, s, env) != MISSING
    ensures LeafIn(f, n) && sh.SymOf(n) == Some(s) && d.DepOf(n).Some?
    ensures Eval(d.DepOf(n).value, env) == FromForest(sh, d, f, DirSlot, s, env)
    decreases f
  {
    hide FromNode;
    var v := FromForest(sh, d, f, DirSlot, s, env);
    NoDirectSelects(sh, d, f[0].id, s, env);
    if v == FromForest(sh, d, f[0].kids, DirSlot, s, env) {
      n := LeafReached(sh, d, f[0].kids, s, env);
    } else if v == FromForest(sh, d, f[1..], DirSlot, s, env) {
      n := LeafReached(sh, d, f[1..], s, env);
    } else {
      n := f[0].id;
    }
  }

  /** No property adds to a direct dependency. */
  lemma NoDirectSelects(sh: Shape, d: Deps, n: nat, s: Sym, env: Env)
    ensures FromNode(sh, d, n, DirSlot, s, env) == MISSING
  {
    if sh.SymOf(n).Some? {
      NoDirectProps(sh.SymOf(n).value, d.PropsOf(n), s, env);
    }
  }

  lemma {:induction false} NoDirectProps(via: Sym, ps: seq<NodeProp>, s: Sym, env: Env)
    ensures FromProps(via, ps, DirSlot, s, env) == MISSING
  {
    if ps != [] {
      NoDirectProps(via, ps[..|ps| - 1], s, env);
    }
  }

  /** dir_dep of a symbol is the largest of the conditions of its childless nodes. */
  lemma DirectAllCounted(sh: Shape, d: Deps, f: seq<Tree>, r: Reverse, r': Reverse)
    requires forall s, env: Env ::
      SlotVal(r', DirSlot, s, env) == Most(SlotVal(r, DirSlot, s, env), FromForest(sh, d, f, DirSlot, s, env))
    ensures DirectCounted(sh, d, f, r.dir, r'.dir)
  {
    hide FromForest, LeafIn;
    forall s: Sym, env: Env
      ensures s in r'.dir ==> Declares(sh, d, f, r.dir, s, env, Eval(r'.dir[s], env))
    {
      assert SlotVal(r', DirSlot, s, env) ==
        Most(SlotVal(r, DirSlot, s, env), FromForest(sh, d, f, DirSlot, s, env));
      if s in r'.dir && !(s in r.dir && Eval(r.dir[s], env) == Eval(r'.dir[s], env)) {
        var n := LeafReached(sh, d, f, s, env);
      }
    }
    forall s: Sym, env: Env, v: Tristate | Declares(sh, d, f, r.dir, s, env, v)
      ensures s in r'.dir && v <= Eval(r'.dir[s], env)
    {
      assert SlotVal(r', DirSlot, s, env) ==
        Most(SlotVal(r, DirSlot, s, env), FromForest(sh, d, f, DirSlot, s, env));
      if !(s in r.dir && Eval(r.dir[s], env) == v) {
        var n :| LeafIn(f, n) && sh.SymOf(n) == Some(s) && d.DepOf(n).Some? && Eval(d.DepOf(n).value, env) == v;
        LeafBelow(sh, d, f, n, s, env);
      }
    }
  }

  /** What the nodes contribute is what the selects, the implies and the forced
      choices give, read off the properties. */
  lemma AllCounted(sh: Shape, d: Deps, f: seq<Tree>, r: Reverse, r': Reverse)
    requires forall slot, s, env: Env ::
      SlotVal(r', slot, s, env) == Most(SlotVal(r, slot, s, env), FromForest(sh, d, f, slot, s, env))
    ensures SelectsCounted(sh, d, f, r.rev, r'.rev) && ImpliesCounted(sh, d, f, r.imp, r'.imp)
    ensures DirectCounted(sh, d, f, r.dir, r'.dir)
  {
    DirectAllCounted(sh, d, f, r, r');
    hide SlotVal, FromForest, Selected, Implied;
    forall s: Sym, env: Env
      ensures s in r'.rev ==> Selected(sh, d, f, r.rev, s, env, Eval(r'.rev[s], env))
      ensures s in r'.imp ==> Implied(sh, d, f, r.imp, s, env, Eval(r'.imp[s], env))
    {
      if s in r'.rev {
        SelectedReached(sh, d, f, r, r', s, env);
      }
      if s in r'.imp {
        ImpliedReached(sh, d, f, r, r', s, env);
      }
    }
    forall s: Sym, env: Env, v: Tristate
      ensures Selected(sh, d, f, r.rev, s, env, v) ==> s in r'.rev && v <= Eval(r'.rev[s], env)
      ensures Implied(sh, d, f, r.imp, s, env, v) ==> s in r'.imp && v <= Eval(r'.imp[s], env)
    {
      if Selected(sh, d, f, r.rev, s, env, v) {
        SelectedBelow(sh, d, f, r, r', s, env, v);
      }
      if Implied(sh, d, f, r.imp, s, env, v) {
        ImpliedBelow(sh, d, f, r, r', s, env, v);
      }
    }
  }
}
