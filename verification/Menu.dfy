/** menu_finalize and the walk of conf_write, on menu nodes that are linked by
    list, next and parent. */
module Menu {
  import opened Tristates
  import opened Exprs
  import opened Transform
  import opened Equality
  import Dups
  import opened Symbols
  import opened MenuTrees
  import opened MenuDeps
  import opened MenuSelects
  import opened MenuChoices
  import opened MenuShapes

  // ----- conditions -----

  /** expr_eliminate_dups of a pointer that may be null. */
  method EliminateOpt(e: Option<Expr>) returns (r: Option<Expr>)
    ensures r.Some? == e.Some? && (e.Some? ==> Equivalent(e.value, r.value))
    ensures Nnf(e) ==> Nnf(r)
  {
    if e.None? {
      return None;
    }
    var pass := new Dups.Eliminator(e.value);
    pass.EliminateDups();
    r := Some(pass.tree);
  }

  function TransformOpt(e: Option<Expr>): Option<Expr> {
    if e.None? then None else Some(Transform.Transform(e.value))
  }

  /** Simplifies and conjoins the condition of a node with that of its parent. */
  method Conjoin(modules: Sym, parent: Option<Expr>, own: Option<Expr>) returns (r: Option<Expr>)
    ensures Inherits(modules, parent, own, r)
    ensures Nnf(parent) ==> Nnf(r)
  {
    var e := TransformOpt(RewriteMOpt(own, modules));
    e := AllocAnd(parent, e);
    r := EliminateOpt(e);
    ConjoinValue(modules, parent, own, r);
  }

  lemma ConjoinValue(modules: Sym, parent: Option<Expr>, own: Option<Expr>, r: Option<Expr>)
    requires var e := AllocAnd(parent, TransformOpt(RewriteMOpt(own, modules)));
             r.Some? == e.Some? && (e.Some? ==> Equivalent(e.value, r.value)) && (Nnf(e) ==> Nnf(r))
    ensures Inherits(modules, parent, own, r)
    ensures Nnf(parent) ==> Nnf(r)
  {
    var t := TransformOpt(RewriteMOpt(own, modules));
    forall env: Env | WellFormed(env)
      ensures EvalOpt(r, env) == And(EvalOpt(parent, env), EvalOpt(RewriteMOpt(own, modules), env))
    {
      if own.Some? {
        TransformPreserves(RewriteM(own.value, modules), env);
      }
    }
    if own.Some? {
      TransformNormalises(RewriteM(own.value, modules));
      NormalIsNegationNormal(t.value);
    }
  }

  function TransBoolOpt(e: Option<Expr>): Option<Expr> {
    if e.None? then None else Some(TransBool(e.value))
  }

  lemma TransBoolInherits(modules: Sym, parent: Option<Expr>, own: Option<Expr>, r: Option<Expr>)
    requires Inherits(modules, parent, own, r) && Nnf(r)
    ensures InheritsNo(modules, parent, own, TransBoolOpt(r))
  {
    forall env: Env | WellFormed(env)
      ensures EvalOpt(TransBoolOpt(r), env) <= EvalOpt(r, env)
      ensures EvalOpt(TransBoolOpt(r), env) == NO <==> EvalOpt(r, env) == NO
    {
      if r.Some? {
        TransBoolKeepsNonNo(r.value, env);
      }
    }
  }

  // ----- when a sibling joins the submenu of a symbol -----

  /** expr_eliminate_dups(expr_transform(expr_trans_compare(e, E_UNEQUAL, &symbol_no))) */
  method Shown(e: Option<Expr>) returns (r: Expr)
    ensures Simplified(TransCompare(e, true), r)
  {
    var pass := new Dups.Eliminator(Transform.Transform(TransCompare(e, true)));
    pass.EliminateDups();
    r := pass.tree;
    forall env: Env | WellFormed(env)
      ensures Eval(r, env) == Eval(TransCompare(e, true), env)
    {
      TransformPreserves(TransCompare(e, true), env);
    }
  }

  /** The test on one sibling: its condition mentions the symbol, and depends on
      it or is at most the symbol's own prompt condition. */
  method JoinsSubmenu(s: Sym, base: Option<Expr>, shownBase: Expr, dep: Option<Expr>) returns (joins: bool)
    requires Simplified(TransCompare(base, true), shownBase)
    ensures if joins then JoinReason(s, base, dep) else RefuseReason(s, base, dep)
    ensures dep.Some? && DependsOn(dep.value, s) ==> joins
  {
    hide Simplified, Superset, TransCompare;
    if dep.None? || !Contains(dep.value, s) {
      if dep.Some? && DependsOn(dep.value, s) {
        DependsContains(dep.value, s);
      }
      return false;
    }
    if DependsOn(dep.value, s) {
      return true;
    }
    var shown := Shown(dep);
    var p := EliminateEq(shown, shownBase);
    joins := IsYes(Some(p.b));
    assert Strips(base, dep, joins);
    if joins {
      StripsSound(base, dep, shown, shownBase);
    }
  }

  lemma StripsSound(base: Option<Expr>, dep: Option<Expr>, shown: Expr, shownBase: Expr)
    requires Simplified(TransCompare(dep, true), shown) && Simplified(TransCompare(base, true), shownBase)
    requires IsYes(Some(EliminateEq(shown, shownBase).b))
    ensures Superset(base, dep)
  {
    forall env: Env | WellFormed(env)
      ensures Eval(TransCompare(dep, true), env) <= Eval(TransCompare(base, true), env)
    {
      SupersetTestSound(shown, shownBase, env);
    }
  }

  // ----- the menu nodes -----

  /** The state in which a loop started. */
  datatype Start = Start(
    links: Links, deps: Deps, reverse: Reverse, log: seq<nat>, limits: map<nat, Sym>, groups: seq<Group>)

  class MenuTree {
    const sh: Shape
    var list: seq<Ptr>
    var next: seq<Ptr>
    var parent: seq<Ptr>
    var dep: seq<Option<Expr>>
    var props: seq<seq<NodeProp>>
    var reverse: Reverse
    /** The symbols with SYMBOL_CHOICEVAL, and the values of each choice. */
    var choiceVals: set<Sym>
    var members: map<Sym, seq<Sym>>
    /** The nodes in the order in which menu_finalize was called on them. */
    ghost var log: seq<nat>
    /** The conditions without what choices add to those of their values. */
    ghost var inherited: Deps
    ghost var limits: map<nat, Sym>
    ghost var groups: seq<Group>

    /** The menu as it was declared. */
    constructor (sh: Shape, list: seq<Ptr>, next: seq<Ptr>, parent: seq<Ptr>,
        dep: seq<Option<Expr>>, props: seq<seq<NodeProp>>, reverse: Reverse)
      requires |list| == |next| == |parent| == |dep| == |props|
      ensures Valid() && Settled() && this.sh == sh && L() == Links(list, next, parent)
      ensures D() == P() == Deps(dep, props) && this.reverse == reverse && log == [] && groups == [] && limits == map[]
    {
      this.sh, this.list, this.next, this.parent := sh, list, next, parent;
      this.dep, this.props, this.reverse := dep, props, reverse;
      choiceVals, members, limits := {}, map[], map[];
      inherited, log, groups := Deps(dep, props), [], [];
    }

    ghost function L(): Links
      reads this
    {
      Links(list, next, parent)
    }

    /** The inherited conditions. */
    ghost function D(): Deps
      reads this
    {
      inherited
    }

    /** The conditions as they are. */
    ghost function P(): Deps
      reads this
    {
      Deps(dep, props)
    }

    ghost function C(): Choosing
      reads this
    {
      Choosing(choiceVals, members, limits)
    }

    ghost predicate Valid()
      reads this
    {
      && |list| == |next| == |parent| == |dep| == |props|
      && Limited(limits, D(), P()) && Sound(sh, C())
    }

    /** The choice values are those of the lists that have been gone through. */
    ghost predicate Settled()
      reads this
    {
      C() == ChooseGroups(sh, groups)
    }

    // ----- single assignments -----

    method SetList(n: nat, p: Ptr)
      requires Valid() && n < |list|
      modifies this`list
      ensures Valid() && L() == WithList(old(L()), n, p)
    {
      list := list[n := p];
    }

    method SetNext(n: nat, p: Ptr)
      requires Valid() && n < |next|
      modifies this`next
      ensures Valid() && L() == WithNext(old(L()), n, p)
    {
      next := next[n := p];
    }

    method SetParent(n: nat, p: Ptr)
      requires Valid() && n < |parent|
      modifies this`parent
      ensures Valid() && L() == WithParent(old(L()), n, p)
    {
      parent := parent[n := p];
    }

    // ----- inheriting conditions -----

    /** The condition of one property, and its contribution to rev_dep or implied. */
    method PropagateProp(n: nat, i: nat, base: Option<Expr>)
      requires Valid() && n < |props| && n !in limits && i < |D().PropsOf(n)| && Nnf(base)
      modifies this`props, this`reverse, this`inherited
      ensures Valid() && |D().PropsOf(n)| == |old(D()).PropsOf(n)|
      ensures D() == old(D()).(props := old(D()).props[n := old(D()).props[n][i := D().PropsOf(n)[i]]])
      ensures PropInherits(sh, n, base, old(D()).PropsOf(n)[i], D().PropsOf(n)[i])
      ensures reverse == AddProp(old(reverse), sh.SymOf(n), D().PropsOf(n)[i])
    {
      hide Limited, Sound;
      LimitedFree(limits, D(), P(), n);
      LimitedSizes(limits, D(), P());
      var p := props[n][i];
      var cond := Conjoin(sh.modules, base, p.cond);
      if !sh.Exact(n) {
        TransBoolInherits(sh.modules, base, p.cond, cond);
        cond := TransBoolOpt(cond);
      }
      var p' := p.(cond := cond);
      LimitedProps(limits, D(), P(), n, props[n][i := p']);
      props := props[n := props[n][i := p']];
      inherited := inherited.(props := inherited.props[n := inherited.props[n][i := p']]);
      reverse := AddProp(reverse, sh.SymOf(n), p');
    }

    lemma LimitedSizes(limits: map<nat, Sym>, d: Deps, e: Deps)
      requires Limited(limits, d, e)
      ensures |d.dep| == |e.dep| && |d.props| == |e.props|
    {
    }

    /** The body of the first loop over the children. */
    method Propagate(n: nat, above: Option<Expr>)
      requires Valid() && n < |dep| && n !in limits && Nnf(above)
      modifies this`dep, this`props, this`reverse, this`inherited
      ensures Valid() && DepsBut(old(D()), D(), {n}) && NodeDone(sh, old(D()), D(), above, n)
      ensures PropsAdded(sh, old(reverse), reverse, n, D().PropsOf(n))
    {
      hide Inherits, InheritsNo, PropsAdded, PropInherits, Limited, Sound;
      ghost var d0 := D();
      LimitedFree(limits, D(), P(), n);
      LimitedSizes(limits, D(), P());
      var base := Conjoin(sh.modules, above, dep[n]);
      LimitedDep(limits, D(), P(), n, base);
      dep := dep[n := base];
      inherited := inherited.(dep := inherited.dep[n := base]);
      ghost var r0 := reverse;
      var i := 0;
      PropsAddedStart(sh, r0, n);
      LimitedFree(limits, D(), P(), n);
      while i < |props[n]|
        invariant Valid() && |props| == |d0.props| && D().dep == d0.dep[n := base] && |D().props| == |d0.props|
        invariant props[n] == D().PropsOf(n) && i <= |props[n]| == |d0.PropsOf(n)|
        invariant forall m: nat :: m != n ==> D().PropsOf(m) == d0.PropsOf(m)
        invariant forall j :: i <= j < |props[n]| ==> props[n][j] == d0.PropsOf(n)[j]
        invariant forall j :: 0 <= j < i ==> PropInherits(sh, n, base, d0.PropsOf(n)[j], props[n][j])
        invariant PropsAdded(sh, r0, reverse, n, props[n][..i])
      {
        ghost var ps, r := props[n][..i], reverse;
        PropagateProp(n, i, base);
        LimitedFree(limits, D(), P(), n);
        PropsAddedStep(sh, r0, r, n, ps, props[n][i]);
        assert props[n][..i + 1] == ps + [props[n][i]];
        i := i + 1;
      }
      assert props[n][..i] == D().PropsOf(n);
      assert D().DepOf(n) == base;
      assert PropsInherit(sh, n, base, d0.PropsOf(n), D().PropsOf(n));
    }

    /** The first loop over the children of p. */
    method PropagateKids(p: nat, ghost par: Ptr, ghost kids: seq<Tree>, ghost fs: seq<Tree>)
      requires Valid() && Placed(L(), p, par, kids, fs) && Nnf(ParentDep(sh, D(), p)) && Free(limits, {p} + Tops(kids))
      modifies this`dep, this`props, this`reverse, this`inherited
      ensures Valid() && TopsDone(sh, old(D()), D(), ParentDep(sh, old(D()), p), kids)
      ensures DepsBut(old(D()), D(), Tops(kids))
      ensures TopsAdded(sh, D(), old(reverse), reverse, kids)
    {
      hide Seg, Unique, Preorder, NodeDone, TopsDone, TopsAdded, DepsBut, Tops, PropsAdded, Limited, Sound;
      LimitedFree(limits, D(), P(), p);
      var above := if p in sh.choices && sh.SymOf(p).Some? then Some(ESym(sh.SymOf(p).value)) else dep[p];
      ghost var d0, r0, l := D(), reverse, L();
      PlacedParts(p, kids, fs);
      TopsDoneStart(sh, d0, above, kids);
      AddedStart(sh, d0, r0, kids);
      var menu := list[p];
      ghost var i := 0;
      assert kids[0..] == kids;
      while menu.Some?
        invariant Valid() && i <= |kids| && Seg(l, menu, None, Some(p), kids[i..]) && L() == l
        invariant TopsDone(sh, d0, D(), above, kids[..i]) && DepsBut(d0, D(), Tops(kids[..i]))
        invariant TopsAdded(sh, D(), r0, reverse, kids[..i])
        decreases |kids| - i
      {
        var m := menu.value;
        SegHead(l, menu, None, Some(p), kids[i..]);
        SegUncons(l, menu, None, Some(p), kids[i..]);
        assert kids[i..][0] == kids[i] && kids[i..][1..] == kids[i + 1..];
        ghost var d, r := D(), reverse;
        TopOf(kids, i);
        Propagate(m, above);
        TopApart(kids, i);
        TopsDoneStep(sh, d0, d, D(), above, kids, i);
        SameOthers(d, D(), m, Tops(kids[..i]));
        TopsStep(sh, d, D(), r0, r, reverse, kids, i);
        menu := next[m];
        i := i + 1;
      }
      SegHead(l, None, None, Some(p), kids[i..]);
      assert kids[..i] == kids;
    }

    lemma SameOthers(d: Deps, d': Deps, n: nat, ns: set<nat>)
      requires DepsBut(d, d', {n}) && n !in ns
      ensures SameDeps(d, d', ns)
    {
    }

    // ----- flattening -----

    /** The loop that gives all children of m the parent p; it ends at the last. */
    method Reparent(m: nat, p: nat, ghost kids: seq<Tree>) returns (last: nat)
      requires Valid() && m < |list| && kids != [] && Unique(Preorder(kids)) && Seg(L(), list[m], None, Some(m), kids)
      modifies this`parent
      ensures Valid() && Seg(L(), list[m], None, Some(p), kids) && SameBut(old(L()), L(), Nodes(kids))
      ensures last == kids[|kids| - 1].id && last < |list|
    {
      hide Seg, Unique, Preorder, SameBut;
      ghost var l0, i := L(), 0;
      SegHead(l0, list[m], None, Some(m), kids);
      last := list[m].value;
      assert kids[0..] == kids && kids[..0] == [];
      PreorderNone();
      ReparentStart(l0, list[m], p, Nodes(kids), Preorder(kids));
      while true
        invariant Valid() && i < |kids| && kids[i].id == last && list == l0.list && next == l0.next
        invariant Seg(L(), list[m], Some(last), Some(p), kids[..i]) && Seg(L(), Some(last), None, Some(m), kids[i..])
        invariant Unique(Preorder(kids[..i]) + Preorder(kids[i..])) && SameBut(l0, L(), Nodes(kids))
        decreases |kids| - i
      {
        ghost var l := L();
        ReparentStep(l, list[m], m, p, kids[..i], kids[i..]);
        assert kids[i..][0] == kids[i] && kids[i..][1..] == kids[i + 1..] && kids[..i] + [kids[i]] == kids[..i + 1];
        SetParent(last, Some(p));
        ReparentSame(l0, l, kids, i, p);
        SegHead(L(), next[last], None, Some(m), kids[i + 1..]);
        i := i + 1;
        if next[last].None? {
          break;
        }
        last := next[last].value;
      }
      assert kids[..i] == kids;
    }

    lemma ReparentStart(l: Links, first: Ptr, p: nat, ns: set<nat>, ids: seq<nat>)
      ensures Seg(l, first, first, Some(p), []) && SameBut(l, l, ns) && [] + ids == ids
    {
    }

    lemma ReparentSame(l0: Links, l: Links, kids: seq<Tree>, i: nat, p: nat)
      requires i < |kids| && l.Has(kids[i].id) && SameBut(l0, l, Nodes(kids))
      ensures SameBut(l0, WithParent(l, kids[i].id, Some(p)), Nodes(kids))
    {
      hide Preorder;
      TakeDrop(kids, i);
      NodesSplit(kids[i..]);
      assert kids[i..][0] == kids[i];
    }

    /** The children of m become the siblings that follow it. */
    method HandOver(p: nat, m: nat, ghost l0: Links, ghost par: Ptr, ghost f: seq<Tree>, ghost fs: seq<Tree>,
        ghost done: seq<Tree>, ghost rest: seq<Tree>)
      requires Valid() && |list| == |l0.list| && FlatLoop(l0, L(), sh.prompts, p, par, f, fs, done, Some(m), rest)
      requires m < |list| && list[m].Some? && m !in sh.prompts && rest != []
      modifies this`list, this`next, this`parent
      ensures Valid() && |list| == |l0.list|
      ensures FlatLoop(l0, L(), sh.prompts, p, par, f, fs, done + [Node(m, [])], next[m], rest[0].kids + rest[1..])
    {
      hide Seg, Unique, Preorder, SameBut, FlatLoop, Flat;
      ghost var l := L();
      FlatAt(l0, l, sh.prompts, p, par, f, fs, done, m, rest);
      var last := Reparent(m, p, rest[0].kids);
      FlatSplice(l0, l, L(), sh.prompts, p, par, f, fs, done, m, rest);
      SetNext(last, next[m]);
      SetNext(m, list[m]);
      SetList(m, None);
    }

    // ----- choice values -----

    /** Conjoins "c = y" to the condition of node n and those of its properties. */
    method LimitNode(n: nat, c: Sym)
      requires Valid() && n < |dep| && n !in limits && c.IsTristate()
      requires sh.SymOf(n).Some? && sh.SymOf(n).value in choiceVals && !sh.SymOf(n).value.IsTristate()
      modifies this`dep, this`props, this`limits
      ensures Valid() && limits == old(limits)[n := c]
    {
      hide Limited;
      ghost var d, e := D(), P();
      LimitedSizes(limits, d, e);
      var basedep := Some(ECmp(Equal, c, SymYes));
      dep := dep[n := AllocAnd(basedep, dep[n])];
      var i := 0;
      while i < |props[n]|
        invariant limits == old(limits) && dep == e.dep[n := AllocAnd(basedep, e.dep[n])]
        invariant |props| == |e.props| && i <= |props[n]| == |e.props[n]|
        invariant forall m: nat :: m < |props| && m != n ==> props[m] == e.props[m]
        invariant forall j :: i <= j < |props[n]| ==> props[n][j] == e.props[n][j]
        invariant forall j :: 0 <= j < i ==> props[n][j] == LimitProp(limits[n := c], n, e.props[n][j])
      {
        props := props[n := props[n][i := props[n][i].(cond := AllocAnd(basedep, props[n][i].cond))]];
        i := i + 1;
      }
      LimitedNow(limits, d, e, P(), n, c);
      limits := limits[n := c];
    }

    /** One turn of the loop over the children of p: in a choice, a symbol that is
        not a choice value yet becomes one. */
    method ChooseOne(p: nat, n: nat)
      requires Valid() && n < |dep|
      modifies this`dep, this`props, this`choiceVals, this`members, this`limits
      ensures Valid() && C() == Choose(sh, old(C()), p, n) && LimitedIn(old(limits), limits, {n})
    {
      hide Limited;
      if p in sh.choices && sh.SymOf(p).Some? && sh.SymOf(n).Some? && sh.SymOf(n).value !in choiceVals {
        var c, m := sh.SymOf(p).value, sh.SymOf(n).value;
        choiceVals := choiceVals + {m};
        if c.IsTristate() && !m.IsTristate() {
          LimitNode(n, c);
        }
        members := members[c := (if c in members then members[c] else []) + [m]];
      }
    }

    /** The loop over the children of p: choice values are collected, and children
        without a prompt are flattened. */
    method Flatten(p: nat, ghost par: Ptr, ghost f: seq<Tree>, ghost fs: seq<Tree>) returns (ghost g: seq<Tree>)
      requires Valid() && Placed(L(), p, par, f, fs) && PromptedBelow(sh.prompts, f)
      modifies this`list, this`next, this`parent, this`dep, this`props, this`choiceVals, this`members, this`limits
      ensures Valid() && Placed(L(), p, par, g, fs) && Preorder(g) == Preorder(f) && Prompted(sh.prompts, g)
      ensures p < |parent| && L().parent[p] == old(L()).parent[p] && SameBut(old(L()), L(), {p} + Nodes(f))
      ensures g == Flat(sh.prompts, f) && C() == ChooseAll(sh, old(C()), p, Ids(g))
      ensures LimitedIn(old(limits), limits, Nodes(f))
    {
      hide Seg, Unique, Preorder, SameBut, Prompted, PromptedBelow, FlatLoop, Flat, Limited, Sound, Choose, ChooseAll;
      hide Ids;
      hide Nodes, LimitedIn;
      ghost var l0, c0, done, rest := L(), C(), [], f;
      assert p < |list| && p < |parent|;
      FlatStart(l0, sh.prompts, p, par, f, fs);
      ChooseNone(p, Nodes(f));
      var menu := list[p];
      while menu.Some?
        invariant Valid() && |list| == |l0.list| && FlatLoop(l0, L(), sh.prompts, p, par, f, fs, done, menu, rest)
        invariant C() == ChooseAll(sh, c0, p, Ids(done)) && LimitedIn(c0.limits, limits, Nodes(f))
        decreases Count(rest)
      {
        var m := menu.value;
        ghost var l, lim := L(), limits;
        FlatAt(l0, l, sh.prompts, p, par, f, fs, done, m, rest);
        CountFirst(rest);
        ChooseOne(p, m);
        LimitedTrans(c0.limits, lim, limits, Nodes(f), {m}, Nodes(f));
        IdsOneMore(done, rest[0]);
        IdsOneMore(done, Node(m, []));
        ChooseOneMore(sh, c0, p, Ids(done), m);
        if list[m].Some? && m !in sh.prompts {
          HandOver(p, m, l0, par, f, fs, done, rest);
          done, rest := done + [Node(m, [])], rest[0].kids + rest[1..];
        } else {
          FlatSkip(l0, l, sh.prompts, p, par, f, fs, done, m, rest);
          done, rest := done + [rest[0]], rest[1..];
        }
        menu := next[m];
      }
      FlatEnd(l0, L(), sh.prompts, p, par, f, fs, done, rest);
      g := done;
    }

    lemma ChooseNone(p: nat, ns: set<nat>)
      ensures C() == ChooseAll(sh, C(), p, Ids([])) && LimitedIn(limits, limits, ns)
    {
    }

    lemma CountFirst(f: seq<Tree>)
      requires f != []
      ensures Count(f) == 1 + Count(f[0].kids) + Count(f[1..]) && Count(f[0].kids + f[1..]) < Count(f)
    {
      PreorderConcat(f[0].kids, f[1..]);
    }

    // ----- menu_finalize -----

    /** The second loop over the children: each of them is finalised. */
    method FinalizeKids(p: nat, ghost par: Ptr, ghost kids: seq<Tree>,
        ghost fs: seq<Tree>) returns (ghost done: seq<Tree>)
      requires Valid() && Settled() && Placed(L(), p, par, kids, fs) && TopsNnf(D(), kids) && Free(limits, Nodes(kids))
      modifies this
      ensures Valid() && Settled() && Placed(L(), p, par, done, fs) && Preorder(done) == Preorder(kids)
      ensures PromptedBelow(sh.prompts, done)
      ensures L().parent[p] == old(L()).parent[p] && SameBut(old(L()), L(), {p} + Nodes(kids) + Nodes(fs[..0]))
      ensures Running(sh, old(D()), D(), kids, |kids|) && BelowAdded(sh, D(), old(reverse), reverse, kids)
      ensures log == old(log) + Preorder(kids) && LimitedIn(old(limits), limits, Nodes(kids))
      ensures Logged(sh.prompts, old(groups), groups, done) && Grown(sh, D(), kids, |kids|, done)
      decreases Count(kids) + Count(fs), 2
    {
      hide Seg, Unique, Preorder, SameBut, Prompted, PromptedBelow, ChildLoop, Running, BelowAdded, TopsNnf, Finalised;
      hide DepsDone;
      hide DepsReady, Added, Limited, Sound, Logged, Grown, Shaped, LimitedIn, Free, Nodes, ChooseGroups;
      ghost var l0, d0, r0, lim0, g0 := L(), D(), reverse, limits, groups;
      assert p < |list|;
      assert Unique(Preorder(kids)) by {
        PlacedParts(p, kids, fs);
      }
      ChildStart(l0, sh.prompts, p, par, kids, fs);
      RunningStart(sh, d0, kids);
      AddedStart(sh, d0, r0, kids);
      PreorderNone();
      assert kids[..0] == [];
      NothingYet(kids);
      done := [];
      ghost var i := 0;
      var menu := list[p];
      while menu.Some?
        invariant Valid() && Settled() && i <= |kids| && ChildLoop(l0, L(), sh.prompts, p, par, kids, fs, done, menu, i)
        invariant Running(sh, d0, D(), kids, i) && BelowAdded(sh, D(), r0, reverse, kids[..i])
        invariant log == old(log) + Preorder(kids[..i]) && LimitedIn(lim0, limits, Nodes(kids[..i]))
        invariant Logged(sh.prompts, g0, groups, done) && Grown(sh, D(), kids, i, done)
        decreases |kids| - i
      {
        var m := menu.value;
        ghost var l, d, r, lim, gs := L(), D(), reverse, limits, groups;
        ChildPlaced(l0, l, sh.prompts, p, par, kids, fs, done, m, i);
        RunningReady(sh, d0, d, kids, i);
        FreeAt(lim0, lim, kids, i);
        ghost var kids', k := Finalize(m, Some(p), kids[i].kids, kids[i + 1..]);
        ChildDone(l0, l, L(), sh.prompts, p, par, kids, fs, done, m, i, kids', k);
        FinalizedBounds(l, L(), sh.prompts, m, Some(p), kids[i].kids, kids[i + 1..], kids', k);
        RunningStep(sh, d0, d, D(), kids, i, k);
        BelowKept(sh, d0, d, D(), kids, i, k);
        assert kids[i + 1..][..k] == kids[i + 1..i + 1 + k];
        BelowStep(sh, d, D(), r0, r, reverse, kids, i, k);
        PreorderStep(kids, i, k);
        LimitedStep(lim0, lim, limits, kids, i, k);
        LoggedMore(sh.prompts, g0, gs, groups, done, [Node(m, kids')]);
        GrownStep(sh, d, D(), kids, i, done, kids', k);
        done := done + [Node(m, kids')];
        i := i + 1 + k;
        menu := next[m];
      }
      ChildEnd(l0, L(), sh.prompts, p, par, kids, fs, done, i);
      assert kids[..i] == kids;
    }

    /** Before the first tree nothing is limited, gone through or grown. */
    lemma NothingYet(f: seq<Tree>)
      ensures LimitedIn(limits, limits, Nodes(f[..0])) && Logged(sh.prompts, groups, groups, [])
      ensures Grown(sh, D(), f, 0, [])
    {
      LoggedStart(sh.prompts, groups);
    }

    /** One more tree has grown; what has grown before is as it was. */
    lemma GrownStep(sh: Shape, d: Deps, d': Deps, f: seq<Tree>, i: nat, h: seq<Tree>, kids: seq<Tree>, k: nat)
      requires i + 1 + k <= |f| && Grown(sh, d, f, i, h) && Shaped(sh, d', f[i].id, f[i].kids, f[i + 1..], kids, k)
      requires SameDeps(d, d', Nodes(f[..i])) && SameDeps(d, d', Tops(f))
      ensures Grown(sh, d', f, i + 1 + k, h + [Node(f[i].id, kids)])
    {
      hide Shaped, Grown, Preorder, Tops;
      GrownFrame(sh, d, d', f, i, h);
      GrownMore(sh, d', f, i, h, kids, k);
    }

    lemma FinalizedBounds(l: Links, l': Links, prompts: set<nat>, p: nat, par: Ptr, kids: seq<Tree>, fs: seq<Tree>,
        g: seq<Tree>, k: nat)
      requires Finalised(l, l', prompts, p, par, kids, fs, g, k)
      ensures k <= |fs| && |l.list| == |l'.list|
    {
    }

    /** A call leaves alone what earlier calls have settled. */
    lemma BelowKept(sh: Shape, d0: Deps, d: Deps, d': Deps, f: seq<Tree>, i: nat, k: nat)
      requires Unique(Preorder(f)) && i + 1 + k <= |f| && DepsDone(sh, d, d', f[i].id, f[i].kids, f[i + 1..], k)
      ensures SameDeps(d, d', Nodes(f[..i])) && SameDeps(d, d', Tops(f))
    {
      hide Preorder, Inherited, BelowInherited, Unique;
      var j := i + 1 + k;
      assert f[i + 1..][..k] == f[i + 1..j];
      StepNodes(f, i, j);
      MidBelow(f, i, j);
      TopsApart(f);
      BelowSplit(f, i);
      BelowSplit(f[i..], j - i);
      assert f[i..][..j - i] == f[i..j];
    }

    /** The siblings taken so far are finalised and belong to p; `b` is the state
        in which the loop started. */
    ghost predicate Taking(b: Start, p: nat, par: Ptr, fs: seq<Tree>, a: seq<Tree>, menu: Ptr, k: nat)
      reads this
    {
      && Valid() && Settled() && |list| == |b.links.list| && k <= |fs|
      && TakeLoop(b.links, L(), sh.prompts, p, par, fs, a, menu, k)
      && Running(sh, b.deps, D(), fs, k) && BelowAdded(sh, D(), b.reverse, reverse, fs[..k])
      && log == b.log + Preorder(fs[..k]) && Unique([p] + Preorder([]) + Preorder(fs)) && TopsNnf(b.deps, fs)
      && AllBelong(sh, D(), p, a) && Grown(sh, D(), fs, k, a) && Logged(sh.prompts, b.groups, groups, a)
      && LimitedIn(b.limits, limits, Nodes(fs[..k])) && Free(b.limits, {p} + Nodes(fs))
    }

    ghost function Here(): Start
      reads this
    {
      Start(L(), D(), reverse, log, limits, groups)
    }

    /** One sibling is finalised and gets the parent p. */
    method TakeOne(p: nat, m: nat, ghost b: Start, ghost par: Ptr, ghost fs: seq<Tree>, ghost a: seq<Tree>,
        ghost k: nat)
      returns (ghost a': seq<Tree>, ghost k': nat)
      requires Taking(b, p, par, fs, a, Some(m), k) && (k < |fs| && fs[k].id == m ==> Belongs(sh, D(), p, m))
      modifies this
      ensures m < |next| && k < k' && Taking(b, p, par, fs, a', next[m], k')
      ensures PromptCond(sh, D(), p) == PromptCond(sh, old(D()), p)
      ensures a' != [] && a'[|a'| - 1].id == m
      decreases Count(fs), 1
    {
      hide Seg, Unique, Preorder, SameBut, Prompted, PromptedBelow, TakeLoop, Running, BelowAdded, TopsNnf, Finalised;
      hide DepsDone;
      hide DepsReady, Added, AllBelong, Belongs, Limited, Sound, Logged, Grown, Shaped, LimitedIn, Nodes, ChooseGroups;
      ghost var l, d, r, lim, gs := L(), D(), reverse, limits, groups;
      TakePlaced(b.links, l, sh.prompts, p, par, fs, a, m, k);
      PlacedParts(p, [], fs);
      RunningReady(sh, b.deps, d, fs, k);
      FreeAt(b.limits, lim, fs, k);
      ghost var kids', n := Finalize(m, par, fs[k].kids, fs[k + 1..]);
      FinalizedBounds(l, L(), sh.prompts, m, par, fs[k].kids, fs[k + 1..], kids', n);
      TakeDone(b.links, l, L(), sh.prompts, p, par, fs, a, m, k, kids', n);
      RunningStep(sh, b.deps, d, D(), fs, k, n);
      BelowKept(sh, b.deps, d, D(), fs, k, n);
      assert fs[k + 1..][..n] == fs[k + 1..k + 1 + n];
      BelowStep(sh, d, D(), b.reverse, r, reverse, fs, k, n);
      PreorderStep(fs, k, n);
      BelongNow(sh, d, D(), b.links, l, p, par, fs, a, m, k, kids', n);
      LimitedStep(b.limits, lim, limits, fs, k, n);
      LoggedMore(sh.prompts, b.groups, gs, groups, a, [Node(m, kids')]);
      GrownStep(sh, d, D(), fs, k, a, kids', n);
      SetParent(m, Some(p));
      a', k' := a + [Node(m, kids')], k + 1 + n;
    }

    lemma PromptKept(sh: Shape, d: Deps, d': Deps, p: nat, fs: seq<Tree>, k: nat, n: nat)
      requires Unique([p] + Preorder([]) + Preorder(fs)) && k + 1 + n <= |fs|
      requires DepsBut(d, d', Nodes(fs[k].kids) + Below(fs[k + 1..][..n]))
      ensures PromptCond(sh, d', p) == PromptCond(sh, d, p)
    {
      hide Preorder, Unique;
      var j := k + 1 + n;
      assert fs[k + 1..][..n] == fs[k + 1..j];
      PlacedParts(p, [], fs);
      MidBelow(fs, k, j);
      TakeDrop(fs, k);
      BelowTops(fs[k..]);
      BelowSplit(fs[k..], j - k);
      assert fs[k..][..j - k] == fs[k..j];
    }

    lemma BelongNow(sh: Shape, d: Deps, d': Deps, l0: Links, l: Links, p: nat, par: Ptr, fs: seq<Tree>, a: seq<Tree>,
        m: nat, k: nat, kids': seq<Tree>, n: nat)
      requires TakeLoop(l0, l, sh.prompts, p, par, fs, a, Some(m), k) && k + 1 + n <= |fs| && fs[k].id == m
      requires AllBelong(sh, d, p, a) && Belongs(sh, d, p, m) && DepsDone(sh, d, d', m, fs[k].kids, fs[k + 1..], n)
      ensures AllBelong(sh, d', p, a + [Node(m, kids')]) && PromptCond(sh, d', p) == PromptCond(sh, d, p)
    {
      hide Preorder, Unique, Seg, SameBut, Inherited, BelowInherited, AllBelong, Belongs;
      PromptKept(sh, d, d', p, fs, k, n);
      BelongStep(sh, d, d', p, fs, a, kids', k, n);
    }

    /** The loop over the siblings behind a symbol without children. */
    method TakeSiblings(p: nat, ghost par: Ptr, ghost fs: seq<Tree>) returns (ghost a: seq<Tree>, ghost k: nat)
      requires Valid() && Settled() && Placed(L(), p, par, [], fs) && TopsNnf(D(), fs) && sh.SymOf(p).Some?
      requires Free(limits, {p} + Nodes(fs))
      modifies this
      ensures Valid() && Settled() && k <= |fs| && Placed(L(), p, par, a, fs[k..]) && Preorder(a) == Preorder(fs[..k])
      ensures PromptedBelow(sh.prompts, a)
      ensures L().parent[p] == old(L()).parent[p] && SameBut(old(L()), L(), {p} + Nodes(fs[..k]))
      ensures Running(sh, old(D()), D(), fs, k) && BelowAdded(sh, D(), old(reverse), reverse, fs[..k])
      ensures log == old(log) + Preorder(fs[..k]) && LimitedIn(old(limits), limits, Nodes(fs[..k]))
      ensures Logged(sh.prompts, old(groups), groups, a) && Grown(sh, D(), fs, k, a) && AllBelong(sh, D(), p, a)
      ensures k < |fs| ==> Refused(sh, D(), p, fs[k].id)
      decreases Count(fs), 2
    {
      hide Seg, Unique, Preorder, SameBut, Prompted, PromptedBelow, TakeLoop, Running, BelowAdded, TopsNnf, Taking;
      hide AllBelong;
      hide JoinReason, RefuseReason, Limited, Sound, Logged, Grown, LimitedIn, Free, Nodes, ChooseGroups;
      ghost var b := Here();
      TakingStart(p, par, fs);
      a, k := [], 0;
      FreePrompt(limits, D(), P(), p, Nodes(fs));
      var base := PromptCond(sh, Deps(dep, props), p);
      var shownBase := Shown(base);
      var last: Ptr := None;
      var menu := next[p];
      ghost var refused := false;
      while menu.Some?
        invariant Taking(b, p, par, fs, a, menu, k)
        invariant last == if a == [] then None else Some(a[|a| - 1].id)
        invariant base == PromptCond(sh, D(), p)
        decreases |fs| - k
      {
        var m := menu.value;
        TakingAt(b, p, par, fs, a, m, k);
        var joins := JoinsSubmenu(sh.SymOf(p).value, base, shownBase, ShownCond(sh, Deps(dep, props), m));
        if !joins {
          refused := true;
          break;
        }
        a, k := TakeOne(p, m, b, par, fs, a, k);
        last := Some(m);
        menu := next[m];
      }
      assert refused ==> k < |fs| && Refused(sh, D(), p, fs[k].id);
      TakeList(p, last, b, par, fs, a, menu, k);
    }

    /** The taken siblings, the last of which is `last`, become the list of p. */
    method TakeList(p: nat, last: Ptr, ghost b: Start, ghost par: Ptr, ghost fs: seq<Tree>, ghost a: seq<Tree>,
        ghost menu: Ptr, ghost k: nat)
      requires Taking(b, p, par, fs, a, menu, k) && last == if a == [] then None else Some(a[|a| - 1].id)
      modifies this`list, this`next
      ensures Valid() && Settled() && k <= |fs| && Placed(L(), p, par, a, fs[k..]) && Preorder(a) == Preorder(fs[..k])
      ensures PromptedBelow(sh.prompts, a) && (menu.None? ==> k == |fs|) && b.links.Has(p)
      ensures L().parent[p] == b.links.parent[p] && SameBut(b.links, L(), {p} + Nodes(fs[..k]))
      ensures Running(sh, b.deps, D(), fs, k) && BelowAdded(sh, D(), b.reverse, reverse, fs[..k])
      ensures log == b.log + Preorder(fs[..k]) && LimitedIn(b.limits, limits, Nodes(fs[..k]))
      ensures Logged(sh.prompts, b.groups, groups, a) && Grown(sh, D(), fs, k, a) && AllBelong(sh, D(), p, a)
    {
      hide Seg, Unique, Preorder, SameBut, PromptedBelow, Running, BelowAdded, Taking, AllBelong, Limited, Sound;
      hide Logged, Grown;
      hide LimitedIn, Nodes, ChooseGroups, Placed;
      TakingEnd(b, p, par, fs, a, menu, k);
      if last.Some? {
        SetList(p, next[p]);
        SetNext(p, next[last.value]);
        SetNext(last.value, None);
      }
    }

    /** The conditions at a node without limit are the inherited ones. */
    lemma FreePrompt(limits: map<nat, Sym>, d: Deps, e: Deps, p: nat, ns: set<nat>)
      requires Limited(limits, d, e) && Free(limits, {p} + ns)
      ensures PromptCond(sh, e, p) == PromptCond(sh, d, p) && e.DepOf(p) == d.DepOf(p)
    {
      LimitedFree(limits, d, e, p);
    }

    lemma TakingStart(p: nat, par: Ptr, fs: seq<Tree>)
      requires Valid() && Settled() && Placed(L(), p, par, [], fs) && TopsNnf(D(), fs) && Free(limits, {p} + Nodes(fs))
      ensures p < |list| && list[p].None? && Taking(Here(), p, par, fs, [], next[p], 0)
    {
      hide Seg, Unique, Preorder, Running, TakeLoop, BelowAdded, Limited, Sound, Logged, Grown, LimitedIn, ChooseGroups;
      NoKids(L(), p, par, fs);
      TakeStart(L(), sh.prompts, p, par, fs);
      RunningStart(sh, D(), fs);
      AddedStart(sh, D(), reverse, fs);
      PreorderNone();
      PlacedParts(p, [], fs);
      NothingYet(fs);
      assert fs[..0] == [];
    }

    lemma TakingAt(b: Start, p: nat, par: Ptr, fs: seq<Tree>, a: seq<Tree>, m: nat, k: nat)
      requires Taking(b, p, par, fs, a, Some(m), k)
      ensures Valid() && m < |list| && k < |fs| && fs[k].id == m
      ensures ShownCond(sh, P(), m) == ShownCond(sh, D(), m)
    {
      hide Running, TakeLoop, BelowAdded, Limited, Sound, Logged, Grown, LimitedIn, ChooseGroups, Preorder, Unique;
      TakePlaced(b.links, L(), sh.prompts, p, par, fs, a, m, k);
      PlacedParts(p, [], fs);
      FreeAt(b.limits, limits, fs, k);
      LimitedFree(limits, D(), P(), m);
    }

    /** Where the loop ends, the links are either put in order, or as before. */
    lemma TakingEnd(b: Start, p: nat, par: Ptr, fs: seq<Tree>, a: seq<Tree>, menu: Ptr, k: nat)
      requires Taking(b, p, par, fs, a, menu, k)
      ensures Valid() && Settled() && k <= |fs| && b.links.Has(p) && p < |list| && (menu.None? ==> k == |fs|)
      ensures Running(sh, b.deps, D(), fs, k) && BelowAdded(sh, D(), b.reverse, reverse, fs[..k])
      ensures log == b.log + Preorder(fs[..k]) && Preorder(a) == Preorder(fs[..k]) && PromptedBelow(sh.prompts, a)
      ensures AllBelong(sh, D(), p, a) && Grown(sh, D(), fs, k, a) && Logged(sh.prompts, b.groups, groups, a)
      ensures LimitedIn(b.limits, limits, Nodes(fs[..k]))
      ensures a == [] ==>
        Placed(L(), p, par, a, fs[k..]) && L().parent[p] == b.links.parent[p] &&
            SameBut(b.links, L(), {p} + Nodes(fs[..k]))
      ensures a != [] ==> a[|a| - 1].id < |list|
      ensures a != [] ==>
        var l := Take(L(), p, a[|a| - 1].id);
        Placed(l, p, par, a, fs[k..]) && l.parent[p] == b.links.parent[p] && SameBut(b.links, l, {p} + Nodes(fs[..k]))
    {
      hide Seg, Unique, Preorder, SameBut, PromptedBelow, Running, TakeLoop, BelowAdded, TopsNnf, Placed, AllBelong;
      hide Limited, Sound, Logged, Grown, LimitedIn, Free, Nodes, ChooseGroups;
      TakeKnown(b.links, L(), sh.prompts, p, par, fs, a, menu, k);
      if a == [] {
        TakeNone(b.links, L(), sh.prompts, p, par, fs, menu, k);
      } else {
        TakeEnd(b.links, L(), sh.prompts, p, par, fs, a, menu, k);
      }
    }

    lemma NoKids(l: Links, p: nat, par: Ptr, fs: seq<Tree>)
      requires Placed(l, p, par, [], fs)
      ensures l.list[p] == None
    {
    }

    lemma TakeKnown(l0: Links, l: Links, prompts: set<nat>, p: nat, par: Ptr, fs: seq<Tree>, a: seq<Tree>, menu: Ptr,
        k: nat)
      requires TakeLoop(l0, l, prompts, p, par, fs, a, menu, k)
      ensures l0.Has(p) && l.Has(p) && l.parent[p] == l0.parent[p] && SameBut(l0, l, {p} + Nodes(fs[..k]))
      ensures Preorder(a) == Preorder(fs[..k]) && PromptedBelow(prompts, a) && (menu.None? ==> k == |fs|)
    {
      if menu.None? {
        SegHead(l, menu, None, par, fs[k..]);
      }
    }

    /** menu_finalize: nodes keep their depth-first order, each is handled once,
        children inherit conditions, selects are recorded, the children of choices
        become choice values, no child without a prompt keeps children, and the
        shape of the result is the described one. */
    method Finalize(p: nat, ghost par: Ptr, ghost kids: seq<Tree>, ghost fs: seq<Tree>) returns (ghost g: seq<Tree>,
        ghost k: nat)
      requires Valid() && Settled() && Placed(L(), p, par, kids, fs) && DepsReady(sh, D(), p, fs)
      requires Free(limits, {p} + Nodes(kids) + Nodes(fs))
      modifies this
      ensures Valid() && Settled() && Finalised(old(L()), L(), sh.prompts, p, par, kids, fs, g, k)
      ensures DepsDone(sh, old(D()), D(), p, kids, fs, k)
      ensures k <= |fs| && Added(sh, D(), old(reverse), reverse, p, kids, fs[..k])
      ensures log == old(log) + ([p] + Preorder(kids) + Preorder(fs[..k]))
      ensures LimitedIn(old(limits), limits, Nodes(kids) + Nodes(fs[..k]))
      ensures Logged(sh.prompts, old(groups), groups, [Node(p, g)])
      ensures Shaped(sh, D(), p, kids, fs, g, k)
      decreases Count(kids) + Count(fs), 4
    {
      hide Seg, Unique, Preorder, SameBut, Prompted, PromptedBelow, Running, BelowAdded, TopsAdded, TopsDone, TopsNnf;
      hide Finalised;
      hide DepsDone, Added, BothAdded, Inherited, Nnf, Limited, Sound, Logged, Grown, LimitedIn, Free, ChooseGroups;
      hide AllBelong;
      hide Flat, Shaped, Nodes, ChooseAll, Ids, AddDirect;
      ghost var b := Here();
      ghost var l0, d0, r0 := b.links, b.deps, b.reverse;
      assert p < |list| && p < |parent|;
      FreeParts(limits, p, kids, fs);
      NoList(l0, p, par, kids, fs);
      log := log + [p];
      ghost var f, r1;
      if list[p].Some? {
        PropagateKids(p, par, kids, fs);
        ghost var d1, rm := D(), reverse;
        TopsNnfDone(sh, d0, d1, ParentDep(sh, d0, p), kids);
        f := FinalizeKids(p, par, kids, fs);
        k, r1 := 0, reverse;
        ChildrenEnd(sh, d0, d1, D(), r0, rm, reverse, p, kids, fs);
        NoneTaken(l0, L(), p, kids, fs);
        LimitedMore(b.limits, limits, Nodes(kids), Nodes(kids) + Nodes(fs[..0]));
      } else {
        f, k, r1 := FinalizeLeaf(p, par, fs);
      }
      PreorderNone();
      g := FinishNode(p, b, r1, par, kids, fs, f, k);
    }

    /** The part of menu_finalize for a node without children. */
    method FinalizeLeaf(p: nat, ghost par: Ptr, ghost fs: seq<Tree>) returns (ghost f: seq<Tree>, ghost k: nat,
        ghost r: Reverse)
      requires Valid() && Settled() && Placed(L(), p, par, [], fs) && TopsNnf(D(), fs)
      requires Free(limits, {p} + Nodes([]) + Nodes(fs))
      modifies this
      ensures Valid() && Settled() && k <= |fs| && Placed(L(), p, par, f, fs[k..]) && PromptedBelow(sh.prompts, f)
      ensures Preorder(f) == Preorder([]) + Preorder(fs[..k]) && log == old(log) + Preorder(fs[..k])
      ensures L().parent[p] == old(L()).parent[p] && SameBut(old(L()), L(), {p} + Nodes([]) + Nodes(fs[..k]))
      ensures LimitedIn(old(limits), limits, Nodes([]) + Nodes(fs[..k]))
      ensures Logged(sh.prompts, old(groups), groups, f) && Gathered(sh, D(), p, [], fs, f, k)
      ensures DepsDone(sh, old(D()), D(), p, [], fs, k)
      ensures BothAdded(sh, D(), old(reverse), r, [], fs[..k]) && reverse == AddDirect(sh, D(), r, p)
      decreases Count(fs), 3
    {
      hide Seg, Unique, Preorder, SameBut, PromptedBelow, Running, BelowAdded, TopsNnf, DepsDone, BothAdded, Limited;
      hide Sound;
      hide Logged, Grown, LimitedIn, Free, ChooseGroups, AllBelong, Refused, Nodes, AddDirect;
      ghost var b := Here();
      FreeParts(limits, p, [], fs);
      PreorderNone();
      if sh.SymOf(p).Some? {
        f, k := TakeSiblings(p, par, fs);
      } else {
        f, k := [], 0;
        NoSymbol(D(), reverse, p, par, fs);
      }
      r := reverse;
      TakenDone(sh, b.deps, D(), p, fs, k);
      TakenAdded(sh, D(), b.reverse, reverse, fs[..k]);
      NodesNone(p, fs[..k]);
      LimitedMore(b.limits, limits, Nodes(fs[..k]), Nodes([]) + Nodes(fs[..k]));
      StaysFree(b.limits, limits, p, [], fs, k);
      FreePrompt(limits, D(), P(), p, {});
      OwnAlike(sh, D(), P(), p, r, r);
      if sh.SymOf(p).Some? {
        reverse := AddDirect(sh, Deps(dep, props), reverse, p);
      }
    }

    /** The last part of menu_finalize: the loop over the children, and the reverse
        dependency of a choice that is not optional. */
    method FinishNode(p: nat, ghost b: Start, ghost r1: Reverse, ghost par: Ptr,
        ghost kids: seq<Tree>, ghost fs: seq<Tree>, ghost f: seq<Tree>, ghost k: nat) returns (ghost g: seq<Tree>)
      requires Valid() && Settled() && k <= |fs| && Placed(L(), p, par, f, fs[k..]) && PromptedBelow(sh.prompts, f)
      requires Preorder(f) == Preorder(kids) + Preorder(fs[..k]) && Unique([p] + Preorder(kids) + Preorder(fs))
      requires b.links.Has(p) && L().parent[p] == b.links.parent[p]
      requires SameBut(b.links, L(), {p} + Nodes(kids) + Nodes(fs[..k]))
      requires LimitedIn(b.limits, limits, Nodes(kids) + Nodes(fs[..k]))
      requires Free(b.limits, {p} + Nodes(kids) + Nodes(fs))
      requires Logged(sh.prompts, b.groups, groups, f) && Gathered(sh, D(), p, kids, fs, f, k)
      requires BothAdded(sh, D(), b.reverse, r1, kids, fs[..k])
      requires reverse == if kids == [] then AddDirect(sh, D(), r1, p) else r1
      modifies this
      ensures Valid() && Settled() && D() == old(D()) && log == old(log)
      ensures Finalised(b.links, L(), sh.prompts, p, par, kids, fs, g, k)
      ensures Added(sh, D(), b.reverse, reverse, p, kids, fs[..k])
      ensures LimitedIn(b.limits, limits, Nodes(kids) + Nodes(fs[..k]))
      ensures Logged(sh.prompts, b.groups, groups, [Node(p, g)]) && Shaped(sh, D(), p, kids, fs, g, k)
    {
      hide Seg, Unique, Preorder, SameBut, Prompted, PromptedBelow, Finalised, Added, BothAdded, Limited, Sound, Logged;
      hide LimitedIn, Free, ChooseGroups, Flat, Shaped, Gathered, Nodes, ChooseAll, Ids, Placed, AddDirect;
      ghost var l1, lim, gs, r2 := L(), limits, groups, reverse;
      HasRoot(l1, p, par, f, fs[k..]);
      g := Flatten(p, par, f, fs[k..]);
      FinalisedFlat(b.links, l1, L(), sh.prompts, p, par, kids, fs, f, g, k);
      FlatNodesAre(f, kids, fs, k);
      LimitedTrans(b.limits, lim, limits, Nodes(kids) + Nodes(fs[..k]), Nodes(f), Nodes(kids) + Nodes(fs[..k]));
      StaysFree(b.limits, limits, p, kids, fs, k);
      FreePrompt(limits, D(), P(), p, {});
      OwnAlike(sh, D(), P(), p, r2, r2);
      reverse := AddForced(sh, Deps(dep, props), reverse, p);
      OwnAdded(sh, D(), b.reverse, r1, r2, p, kids, fs[..k]);
      groups := groups + [Group(p, Ids(g))];
      ChooseGroupMore(sh, gs, Group(p, Ids(g)));
      LoggedNode(sh.prompts, b.groups, gs, p, f, g);
      ShapedNow(sh, D(), p, kids, fs, f, k);
    }

    lemma HasRoot(l: Links, p: nat, par: Ptr, f: seq<Tree>, fs: seq<Tree>)
      requires Placed(l, p, par, f, fs)
      ensures l.Has(p)
    {
    }

    lemma ShapedNow(sh: Shape, d: Deps, p: nat, kids: seq<Tree>, fs: seq<Tree>, h: seq<Tree>, k: nat)
      requires k <= |fs| && Gathered(sh, d, p, kids, fs, h, k)
      ensures Shaped(sh, d, p, kids, fs, Flat(sh.prompts, h), k)
    {
      hide Gathered, Flat;
    }

    lemma FreeParts(limits: map<nat, Sym>, p: nat, kids: seq<Tree>, fs: seq<Tree>)
      requires Free(limits, {p} + Nodes(kids) + Nodes(fs))
      ensures Free(limits, {p} + Tops(kids)) && Free(limits, Nodes(kids)) && Free(limits, {p} + Nodes(fs))
    {
      hide Preorder;
      BelowTops(kids);
    }

    lemma LimitedMore(a: map<nat, Sym>, b: map<nat, Sym>, ns: set<nat>, ns': set<nat>)
      requires LimitedIn(a, b, ns) && ns <= ns'
      ensures LimitedIn(a, b, ns')
    {
    }

    /** The node itself has not been limited by its own call. */
    lemma StaysFree(a: map<nat, Sym>, b: map<nat, Sym>, p: nat, kids: seq<Tree>, fs: seq<Tree>, k: nat)
      requires Unique([p] + Preorder(kids) + Preorder(fs)) && k <= |fs| && Free(a, {p} + Nodes(kids) + Nodes(fs))
      requires LimitedIn(a, b, Nodes(kids) + Nodes(fs[..k]))
      ensures Free(b, {p} + {})
    {
      hide Preorder, Unique;
      PlacedParts(p, kids, fs);
      TakeDrop(fs, k);
    }

    lemma FlatNodesAre(f: seq<Tree>, kids: seq<Tree>, fs: seq<Tree>, k: nat)
      requires k <= |fs| && Preorder(f) == Preorder(kids) + Preorder(fs[..k])
      ensures Nodes(f) == Nodes(kids) + Nodes(fs[..k])
    {
      hide Preorder;
    }

    lemma OwnAlike(sh: Shape, d: Deps, e: Deps, p: nat, r: Reverse, r': Reverse)
      requires e.DepOf(p) == d.DepOf(p) && PromptCond(sh, e, p) == PromptCond(sh, d, p)
      ensures AddDirect(sh, e, r, p) == AddDirect(sh, d, r, p) && AddForced(sh, e, r', p) == AddForced(sh, d, r', p)
      ensures sh.SymOf(p).None? ==> AddDirect(sh, d, r, p) == r
    {
    }

    lemma NoList(l: Links, p: nat, par: Ptr, kids: seq<Tree>, fs: seq<Tree>)
      requires Placed(l, p, par, kids, fs)
      ensures kids == [] <==> l.list[p] == None
    {
      SegHead(l, l.list[p], None, Some(p), kids);
    }

    lemma NodesNone(p: nat, f: seq<Tree>)
      ensures {p} + Nodes([]) + Nodes(f) == {p} + Nodes(f)
    {
      PreorderNone();
    }

    /** A node with children takes no siblings. */
    lemma NoneTaken(l: Links, l': Links, p: nat, kids: seq<Tree>, fs: seq<Tree>)
      requires SameBut(l, l', {p} + Nodes(kids) + Nodes(fs[..0]))
      ensures fs[0..] == fs && fs[..0] == []
    {
    }

    lemma NoSymbol(d: Deps, r: Reverse, p: nat, par: Ptr, fs: seq<Tree>)
      requires Valid() && Placed(L(), p, par, [], fs)
      ensures fs[0..] == fs && fs[..0] == [] && Running(sh, d, d, fs, 0) && BelowAdded(sh, d, r, r, fs[..0])
      ensures SameBut(L(), L(), {p} + Nodes([]) + Nodes(fs[..0])) && Preorder([]) == Preorder(fs[..0])
      ensures PromptedBelow(sh.prompts, []) && LimitedIn(limits, limits, Nodes(fs[..0]))
      ensures Logged(sh.prompts, groups, groups, [])
    {
      RunningStart(sh, d, fs);
      AddedStart(sh, d, r, fs);
      LoggedStart(sh.prompts, groups);
    }

    lemma ChildrenEnd(sh: Shape, d: Deps, m: Deps, d': Deps, r0: Reverse, r: Reverse, r': Reverse, p: nat,
        kids: seq<Tree>, fs: seq<Tree>)
      requires Unique([p] + Preorder(kids) + Preorder(fs)) && TopsDone(sh, d, m, ParentDep(sh, d, p), kids)
      requires DepsBut(d, m, Tops(kids))
      requires Running(sh, m, d', kids, |kids|) && TopsAdded(sh, m, r0, r, kids) && BelowAdded(sh, d', r, r', kids)
      ensures DepsDone(sh, d, d', p, kids, fs, 0) && BothAdded(sh, d', r0, r', kids, [])
    {
      hide Preorder, Unique, TopsDone, TopsAdded, BelowAdded, Inherited, BothAdded;
      PlacedParts(p, kids, fs);
      ChildrenDone(sh, d, m, d', p, kids, fs);
      TopsApart(kids);
      assert kids[..|kids|] == kids;
      ChildrenAdded(sh, m, d', r0, r, r', kids);
    }
  }
}
