/** Choice values: which nodes menu_finalize makes members of a choice, and the
    conditions of which of them it limits to the choice being y. */
module MenuChoices {
  import opened Tristates
  import opened Exprs
  import opened Symbols
  import opened MenuTrees
  import opened MenuDeps

  /** A node whose list has been gone through, and its children at the end. */
  datatype Group = Group(node: nat, kids: seq<nat>)

  /** The symbols with SYMBOL_CHOICEVAL, the values of each choice, and the nodes
      that have been limited, each with its choice. */
  datatype Choosing = Choosing(vals: set<Sym>, members: map<Sym, seq<Sym>>, limits: map<nat, Sym>) {
    function MembersOf(c: Sym): seq<Sym> {
      if c in members then members[c] else []
    }
  }

  const NOTHING_CHOSEN := Choosing({}, map[], map[])

  /** Does the child n of the choice p become a new choice value? */
  predicate Takes(sh: Shape, ch: Choosing, p: nat, n: nat) {
    p in sh.choices && sh.SymOf(p).Some? && sh.SymOf(n).Some? && sh.SymOf(n).value !in ch.vals
  }

  /** Values of a tristate choice that are not tristate need the choice at y. */
  predicate NeedsYes(sh: Shape, p: nat, n: nat) {
    sh.SymOf(p).Some? && sh.SymOf(p).value.IsTristate() && sh.SymOf(n).Some? && !sh.SymOf(n).value.IsTristate()
  }

  /** One turn of the loop over the children of p. */
  function Choose(sh: Shape, ch: Choosing, p: nat, n: nat): Choosing {
    if !Takes(sh, ch, p, n) then ch
    else
      var c, m := sh.SymOf(p).value, sh.SymOf(n).value;
      Choosing(ch.vals + {m}, ch.members[c := ch.MembersOf(c) + [m]], if NeedsYes(sh, p, n) then ch.limits[n := c]
          else ch.limits)
  }

  function ChooseAll(sh: Shape, ch: Choosing, p: nat, ids: seq<nat>): Choosing {
    if ids == [] then ch else Choose(sh, ChooseAll(sh, ch, p, ids[..|ids| - 1]), p, ids[|ids| - 1])
  }

  function ChooseGroups(sh: Shape, groups: seq<Group>): Choosing {
    if groups == [] then NOTHING_CHOSEN
    else
      var last := groups[|groups| - 1];
      ChooseAll(sh, ChooseGroups(sh, groups[..|groups| - 1]), last.node, last.kids)
  }

  lemma ChooseOneMore(sh: Shape, ch: Choosing, p: nat, ids: seq<nat>, n: nat)
    ensures ChooseAll(sh, ch, p, ids + [n]) == Choose(sh, ChooseAll(sh, ch, p, ids), p, n)
  {
    assert (ids + [n])[..|ids|] == ids;
  }

  lemma ChooseGroupMore(sh: Shape, groups: seq<Group>, g: Group)
    ensures ChooseGroups(sh, groups + [g]) == ChooseAll(sh, ChooseGroups(sh, groups), g.node, g.kids)
  {
    assert (groups + [g])[..|groups|] == groups;
  }

  /** Limited nodes belong to choice values, and are limited by tristate choices. */
  ghost predicate Sound(sh: Shape, ch: Choosing) {
    forall n :: n in ch.limits ==>
      sh.SymOf(n).Some? && sh.SymOf(n).value in ch.vals && !sh.SymOf(n).value.IsTristate() && ch.limits[n].IsTristate()
  }

  // ----- limited conditions -----

  function LimitCond(limits: map<nat, Sym>, n: nat, e: Option<Expr>): Option<Expr> {
    if n in limits then AllocAnd(Some(ECmp(Equal, limits[n], SymYes)), e) else e
  }

  function LimitTri(limits: map<nat, Sym>, n: nat, env: Env): Tristate {
    if n in limits then OfBool(env.tri(limits[n]) == YES) else YES
  }

  /** A limited condition is n unless the choice is y. */
  lemma LimitValue(limits: map<nat, Sym>, n: nat, e: Option<Expr>, env: Env)
    requires Consistent(env) && (n in limits ==> limits[n].IsTristate())
    ensures EvalOpt(LimitCond(limits, n, e), env) == And(LimitTri(limits, n, env), EvalOpt(e, env))
    ensures EvalOpt(LimitCond(limits, n, e), env) ==
      if n in limits && env.tri(limits[n]) != YES then NO else EvalOpt(e, env)
  {
    if n in limits {
      var c := ECmp(Equal, limits[n], SymYes);
      assert Eval(c, env) == LimitTri(limits, n, env);
      if e.Some? {
        assert Eval(EBin(AndOp, c, e.value), env) == And(Eval(c, env), Eval(e.value, env));
      }
    }
  }

  function LimitProp(limits: map<nat, Sym>, n: nat, p: NodeProp): NodeProp {
    p.(cond := LimitCond(limits, n, p.cond))
  }

  /** None of these nodes is limited. */
  ghost predicate Free(limits: map<nat, Sym>, ns: set<nat>) {
    forall n :: n in ns ==> n !in limits
  }

  /** Only these nodes have been limited since. */
  ghost predicate LimitedIn(before: map<nat, Sym>, after: map<nat, Sym>, ns: set<nat>) {
    forall n :: n in after ==> n in before || n in ns
  }

  lemma LimitedTrans(a: map<nat, Sym>, b: map<nat, Sym>, c: map<nat, Sym>, ns: set<nat>, ns': set<nat>, all: set<nat>)
    requires LimitedIn(a, b, ns) && LimitedIn(b, c, ns') && ns <= all && ns' <= all
    ensures LimitedIn(a, c, all)
  {
  }

  /** The call on tree i finds its nodes and those behind it free. */
  lemma FreeAt(a: map<nat, Sym>, b: map<nat, Sym>, f: seq<Tree>, i: nat)
    requires Unique(Preorder(f)) && i < |f| && Free(a, Nodes(f)) && LimitedIn(a, b, Nodes(f[..i]))
    ensures Free(b, {f[i].id} + Nodes(f[i].kids) + Nodes(f[i + 1..]))
  {
    hide Preorder, Unique;
    SplitUnique(f, i);
    TakeDrop(f, i);
    NodesSplit(f[i..]);
    assert f[i..][0] == f[i] && f[i..][1..] == f[i + 1..];
  }

  lemma LimitedStep(a: map<nat, Sym>, b: map<nat, Sym>, c: map<nat, Sym>, f: seq<Tree>, i: nat, k: nat)
    requires i + 1 + k <= |f| && LimitedIn(a, b, Nodes(f[..i]))
    requires LimitedIn(b, c, Nodes(f[i].kids) + Nodes(f[i + 1..][..k]))
    ensures LimitedIn(a, c, Nodes(f[..i + 1 + k]))
  {
    hide Preorder, LimitedIn;
    var j := i + 1 + k;
    TakeDrop(f[..j], i);
    NodesSplit(f[i..j]);
    assert f[..j][..i] == f[..i] && f[..j][i..] == f[i..j];
    assert f[i..j][0] == f[i] && f[i..j][1..] == f[i + 1..][..k];
    LimitedTrans(a, b, c, Nodes(f[..i]), Nodes(f[i].kids) + Nodes(f[i + 1..][..k]), Nodes(f[..j]));
  }

  /** The conditions `e` are the inherited conditions `d` with these limits. */
  ghost predicate Limited(limits: map<nat, Sym>, d: Deps, e: Deps) {
    && |d.dep| == |e.dep| && |d.props| == |e.props| && (forall n :: n in limits ==> n < |d.dep|)
    && (forall n: nat :: n < |d.dep| ==> e.DepOf(n) == LimitCond(limits, n, d.DepOf(n)))
    && (forall n: nat :: n < |d.props| ==> |e.PropsOf(n)| == |d.PropsOf(n)|)
    && (forall n: nat, i :: n < |d.props| && 0 <= i < |d.PropsOf(n)| ==>
        e.PropsOf(n)[i] == LimitProp(limits, n, d.PropsOf(n)[i]))
  }

  lemma LimitedFree(limits: map<nat, Sym>, d: Deps, e: Deps, n: nat)
    requires Limited(limits, d, e) && n !in limits
    ensures e.DepOf(n) == d.DepOf(n) && e.PropsOf(n) == d.PropsOf(n)
  {
    assert n < |d.props| ==> e.PropsOf(n) == d.PropsOf(n);
  }

  lemma LimitedDep(limits: map<nat, Sym>, d: Deps, e: Deps, n: nat, c: Option<Expr>)
    requires Limited(limits, d, e) && n !in limits && n < |d.dep|
    ensures Limited(limits, d.(dep := d.dep[n := c]), e.(dep := e.dep[n := c]))
  {
    var d', e' := d.(dep := d.dep[n := c]), e.(dep := e.dep[n := c]);
    assert forall m: nat :: d'.PropsOf(m) == d.PropsOf(m) && e'.PropsOf(m) == e.PropsOf(m);
    assert forall m: nat :: m != n ==> d'.DepOf(m) == d.DepOf(m) && e'.DepOf(m) == e.DepOf(m);
  }

  lemma LimitedProps(limits: map<nat, Sym>, d: Deps, e: Deps, n: nat, ps: seq<NodeProp>)
    requires Limited(limits, d, e) && n !in limits && n < |d.props|
    ensures Limited(limits, d.(props := d.props[n := ps]), e.(props := e.props[n := ps]))
  {
    var d', e' := d.(props := d.props[n := ps]), e.(props := e.props[n := ps]);
    assert forall m: nat :: d'.DepOf(m) == d.DepOf(m) && e'.DepOf(m) == e.DepOf(m);
    assert forall m: nat :: m != n ==> d'.PropsOf(m) == d.PropsOf(m) && e'.PropsOf(m) == e.PropsOf(m);
  }

  /** Node n gets a limit. */
  lemma LimitedNow(limits: map<nat, Sym>, d: Deps, e: Deps, e': Deps, n: nat, c: Sym)
    requires Limited(limits, d, e) && n !in limits && n < |d.dep| && |d.dep| == |d.props|
    requires |e'.dep| == |e.dep| && |e'.props| == |e.props|
    requires forall m: nat :: m != n ==> e'.DepOf(m) == e.DepOf(m) && e'.PropsOf(m) == e.PropsOf(m)
    requires e'.DepOf(n) == LimitCond(limits[n := c], n, e.DepOf(n)) && |e'.PropsOf(n)| == |e.PropsOf(n)|
    requires forall i :: 0 <= i < |e.PropsOf(n)| ==> e'.PropsOf(n)[i] == LimitProp(limits[n := c], n, e.PropsOf(n)[i])
    ensures Limited(limits[n := c], d, e')
  {
    LimitedFree(limits, d, e, n);
  }

  // ----- groups and the finished menu -----

  function Ids(f: seq<Tree>): seq<nat> {
    if f == [] then [] else Ids(f[..|f| - 1]) + [f[|f| - 1].id]
  }

  lemma IdsOneMore(f: seq<Tree>, t: Tree)
    ensures Ids(f + [t]) == Ids(f) + [t.id]
  {
    assert (f + [t])[..|f|] == f;
  }

  /** Somewhere in the forest this node has these children. */
  ghost predicate Occurs(f: seq<Tree>, g: Group)
    decreases f
  {
    f != [] && ((f[0].id == g.node && Ids(f[0].kids) == g.kids) || Occurs(f[0].kids, g) || Occurs(f[1..], g))
  }

  lemma {:induction false} OccursConcat(f: seq<Tree>, f': seq<Tree>, g: Group)
    ensures Occurs(f + f', g) <==> Occurs(f, g) || Occurs(f', g)
    decreases |f|
  {
    if f == [] {
      assert f + f' == f';
    } else {
      assert (f + f')[1..] == f[1..] + f';
      OccursConcat(f[1..], f', g);
    }
  }

  lemma OccursUnit(t: Tree, g: Group)
    ensures Occurs([t], g) <==> (t.id == g.node && Ids(t.kids) == g.kids) || Occurs(t.kids, g)
  {
  }

  /** Flattening leaves the children of nodes with a prompt alone. */
  lemma {:induction false} OccursFlat(prompts: set<nat>, f: seq<Tree>, g: Group)
    requires g.node in prompts
    ensures Occurs(Flat(prompts, f), g) <==> Occurs(f, g)
    decreases Count(f)
  {
    if f != [] {
      PreorderConcat(f[0].kids, f[1..]);
      FlatUnfold(prompts, f);
      if f[0].kids != [] && f[0].id !in prompts {
        OccursFlat(prompts, f[0].kids + f[1..], g);
        OccursConcat(f[0].kids, f[1..], g);
        OccursConcat([Node(f[0].id, [])], Flat(prompts, f[0].kids + f[1..]), g);
        OccursUnit(Node(f[0].id, []), g);
      } else {
        OccursFlat(prompts, f[1..], g);
        OccursConcat([f[0]], Flat(prompts, f[1..]), g);
        OccursUnit(f[0], g);
      }
    }
  }

  /** The groups gone through since `before` are, for nodes with a prompt, those of
      the forest. */
  ghost predicate Logged(prompts: set<nat>, before: seq<Group>, after: seq<Group>, f: seq<Tree>) {
    before <= after && forall g: Group :: g.node in prompts ==> (g in after[|before|..] <==> Occurs(f, g))
  }

  lemma LoggedStart(prompts: set<nat>, groups: seq<Group>)
    ensures Logged(prompts, groups, groups, [])
  {
  }

  lemma LoggedMore(prompts: set<nat>, a: seq<Group>, b: seq<Group>, c: seq<Group>, f: seq<Tree>, f': seq<Tree>)
    requires Logged(prompts, a, b, f) && Logged(prompts, b, c, f')
    ensures Logged(prompts, a, c, f + f')
  {
    hide Occurs;
    assert c[|a|..] == b[|a|..] + c[|b|..];
    forall g: Group | g.node in prompts
      ensures g in c[|a|..] <==> Occurs(f + f', g)
    {
      OccursConcat(f, f', g);
    }
  }

  /** The list of p is finished. */
  lemma LoggedNode(prompts: set<nat>, a: seq<Group>, b: seq<Group>, p: nat, h: seq<Tree>, f: seq<Tree>)
    requires Logged(prompts, a, b, h) && f == Flat(prompts, h)
    ensures Logged(prompts, a, b + [Group(p, Ids(f))], [Node(p, f)])
  {
    hide Occurs, Flat, Ids;
    var c := b + [Group(p, Ids(f))];
    assert c[|a|..] == b[|a|..] + [Group(p, Ids(f))];
    forall g: Group | g.node in prompts
      ensures g in c[|a|..] <==> Occurs([Node(p, f)], g)
    {
      OccursUnit(Node(p, f), g);
      OccursFlat(prompts, h, g);
    }
  }

  // ----- choices in the finished menu -----

  /** The symbol of this node is declared nowhere else. */
  ghost predicate Lone(sh: Shape, n: nat) {
    sh.SymOf(n).Some? && forall m: nat :: sh.SymOf(m) == sh.SymOf(n) ==> m == n
  }

  predicate IsChoice(sh: Shape, p: nat) {
    p in sh.choices && sh.SymOf(p).Some?
  }

  /** Node n has been in the list of a choice. */
  ghost predicate Met(sh: Shape, groups: seq<Group>, n: nat) {
    exists g :: g in groups && IsChoice(sh, g.node) && n in g.kids
  }

  /** All choices that have n in their list are q. */
  ghost predicate OneHome(sh: Shape, groups: seq<Group>, n: nat, q: nat) {
    forall g :: g in groups && IsChoice(sh, g.node) && n in g.kids ==> g.node == q
  }

  /** What the loop over one list does to a node with a symbol of its own. */
  lemma {:induction false} ListEffect(sh: Shape, ch: Choosing, p: nat, ids: seq<nat>, n: nat)
    requires Lone(sh, n)
    ensures var ch', m := ChooseAll(sh, ch, p, ids), sh.SymOf(n).value;
            (m in ch'.vals <==> m in ch.vals || (IsChoice(sh, p) && n in ids)) &&
            (n in ch'.limits <==>
                n in ch.limits || (m !in ch.vals && IsChoice(sh, p) && n in ids && NeedsYes(sh, p, n))) &&
            (n in ch.limits && m in ch.vals ==> ch'.limits[n] == ch.limits[n]) &&
            (n !in ch.limits && n in ch'.limits ==> ch'.limits[n] == sh.SymOf(p).value)
  {
    if ids != [] {
      var rest, last := ids[..|ids| - 1], ids[|ids| - 1];
      ListEffect(sh, ch, p, rest, n);
      assert ids == rest + [last];
    }
  }

  /** And the loops over all lists, when n is only ever in the list of q. */
  lemma {:induction false} GroupsEffect(sh: Shape, groups: seq<Group>, n: nat, q: nat)
    requires Lone(sh, n) && OneHome(sh, groups, n, q)
    ensures var ch, m := ChooseGroups(sh, groups), sh.SymOf(n).value;
            (m in ch.vals <==> Met(sh, groups, n)) &&
            (n in ch.limits <==> Met(sh, groups, n) && NeedsYes(sh, q, n)) &&
            (n in ch.limits ==> ch.limits[n] == sh.SymOf(q).value)
  {
    hide NeedsYes, ChooseAll;
    if groups != [] {
      var rest, last := groups[..|groups| - 1], groups[|groups| - 1];
      assert groups == rest + [last];
      assert last in groups;
      GroupsEffect(sh, rest, n, q);
      ListEffect(sh, ChooseGroups(sh, rest), last.node, last.kids, n);
      assert Met(sh, groups, n) <==> Met(sh, rest, n) || (IsChoice(sh, last.node) && n in last.kids);
    }
  }

  lemma {:induction false} IdsIn(f: seq<Tree>, n: nat)
    requires n in Ids(f)
    ensures n in Tops(f)
  {
    var rest, last := f[..|f| - 1], f[|f| - 1];
    if n in Ids(rest) {
      IdsIn(rest, n);
    }
    BelowSplit(f, |f| - 1);
    assert f[|f| - 1..] == [last];
    TopsUnitIs(last);
  }

  lemma TopsUnitIs(t: Tree)
    ensures Tops([t]) == {t.id}
  {
  }

  lemma {:induction false} OccursBelow(f: seq<Tree>, g: Group, n: nat)
    requires Occurs(f, g) && n in g.kids
    ensures n in Below(f) && g.node in Nodes(f) && Below(f) <= Nodes(f)
    decreases f
  {
    hide Preorder;
    NodesSplit(f);
    BelowTops(f);
    if f[0].id == g.node && Ids(f[0].kids) == g.kids {
      IdsIn(f[0].kids, n);
      BelowTops(f[0].kids);
    } else if Occurs(f[0].kids, g) {
      OccursBelow(f[0].kids, g, n);
    } else {
      OccursBelow(f[1..], g, n);
    }
  }

  /** In a forest with distinct nodes no node is the child of two others. */
  lemma {:induction false} OneParent(f: seq<Tree>, g: Group, g': Group, n: nat)
    requires Unique(Preorder(f)) && Occurs(f, g) && Occurs(f, g') && n in g.kids && n in g'.kids
    ensures g == g'
    decreases f
  {
    hide Preorder, Unique, Ids, Nodes;
    UniqueForest(f);
    TopsApart(f[0].kids);
    HomeAt(f, g, n);
    HomeAt(f, g', n);
    if Occurs(f[0].kids, g) && Occurs(f[0].kids, g') {
      OneParent(f[0].kids, g, g', n);
    } else if Occurs(f[1..], g) && Occurs(f[1..], g') {
      OneParent(f[1..], g, g', n);
    }
  }

  /** Where the child n of a group is. */
  lemma HomeAt(f: seq<Tree>, g: Group, n: nat)
    requires Occurs(f, g) && n in g.kids
    ensures f[0].id == g.node && Ids(f[0].kids) == g.kids ==> n in Tops(f[0].kids) && n in Nodes(f[0].kids)
    ensures Occurs(f[0].kids, g) ==> n in Below(f[0].kids) && n in Nodes(f[0].kids)
    ensures Occurs(f[1..], g) ==> n in Nodes(f[1..])
  {
    hide Preorder;
    if f[0].id == g.node && Ids(f[0].kids) == g.kids {
      IdsIn(f[0].kids, n);
      BelowTops(f[0].kids);
    }
    if Occurs(f[0].kids, g) {
      OccursBelow(f[0].kids, g, n);
    }
    if Occurs(f[1..], g) {
      OccursBelow(f[1..], g, n);
    }
  }

  lemma {:induction false} OccursNode(f: seq<Tree>, g: Group)
    requires Occurs(f, g)
    ensures g.node in Nodes(f)
    decreases f
  {
    hide Ids;
    NodesSplit(f);
    if Occurs(f[0].kids, g) {
      OccursNode(f[0].kids, g);
    } else if Occurs(f[1..], g) {
      OccursNode(f[1..], g);
    }
  }

  /** and no node has two lists. */
  lemma {:induction false} OneListEach(f: seq<Tree>, g: Group, g': Group)
    requires Unique(Preorder(f)) && Occurs(f, g) && Occurs(f, g') && g.node == g'.node
    ensures g == g'
    decreases f
  {
    hide Preorder, Unique, Ids, Nodes;
    UniqueForest(f);
    NodeAt(f, g);
    NodeAt(f, g');
    if Occurs(f[0].kids, g) && Occurs(f[0].kids, g') {
      OneListEach(f[0].kids, g, g');
    } else if Occurs(f[1..], g) && Occurs(f[1..], g') {
      OneListEach(f[1..], g, g');
    }
  }

  lemma NodeAt(f: seq<Tree>, g: Group)
    requires f != []
    ensures Occurs(f[0].kids, g) ==> g.node in Nodes(f[0].kids)
    ensures Occurs(f[1..], g) ==> g.node in Nodes(f[1..])
  {
    if Occurs(f[0].kids, g) {
      OccursNode(f[0].kids, g);
    }
    if Occurs(f[1..], g) {
      OccursNode(f[1..], g);
    }
  }

  /** The finished menu: every node once, and choices have prompts, as they must. */
  ghost predicate Finished(sh: Shape, menu: seq<Tree>, groups: seq<Group>) {
    Unique(Preorder(menu)) && sh.choices <= sh.prompts && Logged(sh.prompts, [], groups, menu)
  }

  lemma FinishedGroup(sh: Shape, menu: seq<Tree>, groups: seq<Group>, g: Group)
    requires Finished(sh, menu, groups) && IsChoice(sh, g.node)
    ensures g in groups <==> Occurs(menu, g)
  {
    hide Preorder, Unique, Occurs;
    var none: seq<Group> := [];
    assert groups[|none|..] == groups;
  }

  lemma FinishedHome(sh: Shape, menu: seq<Tree>, groups: seq<Group>, g: Group, n: nat)
    requires Finished(sh, menu, groups) && IsChoice(sh, g.node) && Occurs(menu, g) && n in g.kids
    ensures OneHome(sh, groups, n, g.node) && Met(sh, groups, n)
  {
    hide Finished, Occurs;
    FinishedGroup(sh, menu, groups, g);
    forall g' | g' in groups && IsChoice(sh, g'.node) && n in g'.kids
      ensures g'.node == g.node
    {
      FinishedGroup(sh, menu, groups, g');
      FinishedParent(sh, menu, groups, g, g', n);
    }
  }

  lemma FinishedParent(sh: Shape, menu: seq<Tree>, groups: seq<Group>, g: Group, g': Group, n: nat)
    requires Finished(sh, menu, groups) && Occurs(menu, g) && Occurs(menu, g') && n in g.kids && n in g'.kids
    ensures g == g'
  {
    hide Occurs, Preorder, Unique;
    OneParent(menu, g, g', n);
  }

  lemma FinishedList(sh: Shape, menu: seq<Tree>, groups: seq<Group>, g: Group, g': Group)
    requires Finished(sh, menu, groups) && Occurs(menu, g) && Occurs(menu, g') && g.node == g'.node
    ensures g == g'
  {
    hide Occurs, Preorder, Unique;
    OneListEach(menu, g, g');
  }

  /** A child of a choice in the finished menu, whose symbol is declared only there,
      is limited exactly if the choice is tristate and it is not. */
  lemma LimitedChild(sh: Shape, menu: seq<Tree>, groups: seq<Group>, g: Group, n: nat)
    requires Finished(sh, menu, groups) && IsChoice(sh, g.node) && Occurs(menu, g) && n in g.kids && Lone(sh, n)
    ensures var limits := ChooseGroups(sh, groups).limits;
            (n in limits <==> sh.SymOf(g.node).value.IsTristate() && !sh.SymOf(n).value.IsTristate()) &&
            (n in limits ==> limits[n] == sh.SymOf(g.node).value)
  {
    assert NeedsYes(sh, g.node, n) <==> sh.SymOf(g.node).value.IsTristate() && !sh.SymOf(n).value.IsTristate();
    hide Finished, Occurs, NeedsYes, ChooseGroups, Lone, OneHome, Met;
    FinishedHome(sh, menu, groups, g, n);
    GroupsEffect(sh, groups, n, g.node);
  }

  /** A node that is not the child of a choice is not limited. */
  lemma UnlimitedElsewhere(sh: Shape, menu: seq<Tree>, groups: seq<Group>, n: nat)
    requires Finished(sh, menu, groups) && Lone(sh, n)
    requires forall g: Group :: IsChoice(sh, g.node) && Occurs(menu, g) ==> n !in g.kids
    ensures n !in ChooseGroups(sh, groups).limits
  {
    hide Finished, Occurs, NeedsYes, ChooseGroups, Lone;
    forall g | g in groups && IsChoice(sh, g.node)
      ensures n !in g.kids
    {
      FinishedGroup(sh, menu, groups, g);
    }
    GroupsEffect(sh, groups, n, 0);
  }

  // ----- the values of a choice -----

  function SymbolsOf(sh: Shape, ids: seq<nat>): seq<Sym> {
    if ids == [] then []
    else SymbolsOf(sh, ids[..|ids| - 1]) + (var s := sh.SymOf(ids[|ids| - 1]); if s.Some? then [s.value] else [])
  }

  /** These nodes are distinct, and each symbol among them is declared only there. */
  ghost predicate LoneAll(sh: Shape, ids: seq<nat>) {
    Unique(ids) && forall n :: n in ids && sh.SymOf(n).Some? ==> Lone(sh, n)
  }

  lemma {:induction false} ListCollects(sh: Shape, ch: Choosing, p: nat, ids: seq<nat>)
    requires IsChoice(sh, p) && LoneAll(sh, ids)
    requires forall n :: n in ids && sh.SymOf(n).Some? ==> sh.SymOf(n).value !in ch.vals
    ensures ChooseAll(sh, ch, p, ids).MembersOf(sh.SymOf(p).value) ==
        ch.MembersOf(sh.SymOf(p).value) + SymbolsOf(sh, ids)
  {
    if ids != [] {
      var rest, last := ids[..|ids| - 1], ids[|ids| - 1];
      assert ids == rest + [last];
      ListCollects(sh, ch, p, rest);
      assert last !in rest;
      if sh.SymOf(last).Some? {
        ListEffect(sh, ch, p, rest, last);
      }
    }
  }

  /** A list all of whose symbols are choice values already adds nothing. */
  lemma {:induction false} ListIdle(sh: Shape, ch: Choosing, p: nat, ids: seq<nat>)
    requires !IsChoice(sh, p) || forall n :: n in ids && sh.SymOf(n).Some? ==> sh.SymOf(n).value in ch.vals
    ensures ChooseAll(sh, ch, p, ids) == ch
  {
    if ids != [] {
      var rest, last := ids[..|ids| - 1], ids[|ids| - 1];
      assert ids == rest + [last];
      ListIdle(sh, ch, p, rest);
    }
  }

  lemma {:induction false} ListElsewhere(sh: Shape, ch: Choosing, p: nat, ids: seq<nat>, c: Sym)
    requires sh.SymOf(p) != Some(c)
    ensures ChooseAll(sh, ch, p, ids).MembersOf(c) == ch.MembersOf(c)
  {
    if ids != [] {
      ListElsewhere(sh, ch, p, ids[..|ids| - 1], c);
    }
  }

  /** All lists of q hold these children. */
  ghost predicate OneList(groups: seq<Group>, q: nat, ids: seq<nat>) {
    forall g :: g in groups && g.node == q ==> g.kids == ids
  }

  lemma {:induction false} GroupsCollect(sh: Shape, groups: seq<Group>, q: nat, ids: seq<nat>)
    requires IsChoice(sh, q) && Lone(sh, q) && LoneAll(sh, ids) && OneList(groups, q, ids)
    requires forall n :: n in ids ==> OneHome(sh, groups, n, q)
    ensures ChooseGroups(sh, groups).MembersOf(sh.SymOf(q).value) ==
      if Group(q, ids) in groups then SymbolsOf(sh, ids) else []
  {
    hide ChooseAll, SymbolsOf;
    if groups != [] {
      var rest, last := groups[..|groups| - 1], groups[|groups| - 1];
      assert groups == rest + [last];
      assert last in groups;
      GroupsCollect(sh, rest, q, ids);
      var ch := ChooseGroups(sh, rest);
      if last.node == q {
        assert last == Group(q, ids);
        forall n | n in ids && sh.SymOf(n).Some?
          ensures sh.SymOf(n).value in ch.vals <==> Group(q, ids) in rest
        {
          GroupsEffect(sh, rest, n, q);
          if Met(sh, rest, n) {
            var g :| g in rest && IsChoice(sh, g.node) && n in g.kids;
            assert g in groups;
          }
          assert Group(q, ids) in rest ==> Met(sh, rest, n);
        }
        if Group(q, ids) in rest {
          ListIdle(sh, ch, q, ids);
        } else {
          ListCollects(sh, ch, q, ids);
        }
      } else {
        ListElsewhere(sh, ch, last.node, last.kids, sh.SymOf(q).value);
      }
    }
  }

  /** When no symbol is declared twice, the values of a choice are the symbols of
      its children in the finished menu, in the order of the menu. */
  lemma MembersInOrder(sh: Shape, menu: seq<Tree>, groups: seq<Group>, q: nat, ids: seq<nat>)
    requires Finished(sh, menu, groups) && IsChoice(sh, q) && Occurs(menu, Group(q, ids))
    requires Lone(sh, q) && LoneAll(sh, ids)
    ensures ChooseGroups(sh, groups).MembersOf(sh.SymOf(q).value) == SymbolsOf(sh, ids)
  {
    hide Finished, Occurs, ChooseGroups, Lone, LoneAll, OneHome, Met;
    FinishedGroup(sh, menu, groups, Group(q, ids));
    forall g | g in groups && g.node == q
      ensures g.kids == ids
    {
      FinishedGroup(sh, menu, groups, g);
      FinishedList(sh, menu, groups, g, Group(q, ids));
    }
    forall n | n in ids
      ensures OneHome(sh, groups, n, q)
    {
      FinishedHome(sh, menu, groups, Group(q, ids), n);
    }
    GroupsCollect(sh, groups, q, ids);
  }

  // ----- what the evaluator relies on -----

  /** Choices and their values name each other: every choice value is a value of
      exactly one choice, and only once. */
  ghost predicate Partition(ch: Choosing) {
    && (forall c: Sym, s: Sym :: s in ch.MembersOf(c) ==> s in ch.vals)
    && (forall s: Sym :: s in ch.vals ==> exists c: Sym :: s in ch.MembersOf(c))
    && (forall c: Sym, c': Sym, s: Sym :: s in ch.MembersOf(c) && s in ch.MembersOf(c') ==> c == c')
    && (forall c: Sym, i, j :: 0 <= i < j < |ch.MembersOf(c)| ==> ch.MembersOf(c)[i] != ch.MembersOf(c)[j])
  }

  lemma ChoosePartition(sh: Shape, ch: Choosing, p: nat, n: nat)
    requires Partition(ch)
    ensures Partition(Choose(sh, ch, p, n))
  {
    if Takes(sh, ch, p, n) {
      var c, m, ch' := sh.SymOf(p).value, sh.SymOf(n).value, Choose(sh, ch, p, n);
      assert ch'.MembersOf(c) == ch.MembersOf(c) + [m];
      assert forall c': Sym :: c' != c ==> ch'.MembersOf(c') == ch.MembersOf(c');
      forall s: Sym | s in ch'.vals
        ensures exists d: Sym :: s in ch'.MembersOf(d)
      {
        if s == m {
          assert m in ch'.MembersOf(c);
        } else {
          var d: Sym :| s in ch.MembersOf(d);
          assert s in ch'.MembersOf(d);
        }
      }
    }
  }

  lemma {:induction false} ListPartition(sh: Shape, ch: Choosing, p: nat, ids: seq<nat>)
    requires Partition(ch)
    ensures Partition(ChooseAll(sh, ch, p, ids))
  {
    hide Partition, Choose;
    if ids != [] {
      ListPartition(sh, ch, p, ids[..|ids| - 1]);
      ChoosePartition(sh, ChooseAll(sh, ch, p, ids[..|ids| - 1]), p, ids[|ids| - 1]);
    }
  }

  lemma {:induction false} ValuesPartition(sh: Shape, groups: seq<Group>)
    ensures Partition(ChooseGroups(sh, groups))
  {
    if groups != [] {
      var last := groups[|groups| - 1];
      ValuesPartition(sh, groups[..|groups| - 1]);
      ListPartition(sh, ChooseGroups(sh, groups[..|groups| - 1]), last.node, last.kids);
    }
  }

  /** The conditions at a declared child of a choice are at most the choice, and n
      unless it is y when they are limited. */
  lemma ConditionsBounded(sh: Shape, d: Deps, d': Deps, limits: map<nat, Sym>, c: Sym, n: nat, i: nat, env: Env)
    requires NodeDone(sh, d, d', Some(ESym(c)), n) && i < |d'.PropsOf(n)| && WellFormed(env)
    requires n in limits ==> limits[n].IsTristate()
    ensures EvalOpt(LimitCond(limits, n, d'.PropsOf(n)[i].cond), env) <= And(LimitTri(limits, n, env), env.tri(c))
  {
    LimitValue(limits, n, d'.PropsOf(n)[i].cond, env);
    assert PropInherits(sh, n, d'.DepOf(n), d.PropsOf(n)[i], d'.PropsOf(n)[i]);
    assert EvalOpt(d'.DepOf(n), env) <= EvalOpt(Some(ESym(c)), env) == env.tri(c);
  }
}
