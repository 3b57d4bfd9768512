/** The walk of conf_write over the finished menu: down into lists, along next
    pointers, and up through parents. */
module MenuWalk {
  import opened Tristates
  import opened Exprs
  import opened MenuTrees
  import opened MenuDeps
  import opened MenuSelects
  import opened MenuReverse
  import opened MenuChoices
  import opened MenuShapes
  import opened Menu

  /** An ancestor of the cursor, and the siblings that follow it. */
  datatype Level = Level(node: nat, rest: seq<Tree>)

  /** The nodes above a level with this parent, up to the root. */
  ghost predicate Above(l: Links, par: Ptr, stack: seq<Level>)
    decreases |stack|
  {
    if stack == [] then par == None
    else
      var n := stack[0].node;
      && par == Some(n) && l.Has(n)
      && Seg(l, l.next[n], None, l.parent[n], stack[0].rest)
      && Above(l, l.parent[n], stack[1..])
  }

  function Later(stack: seq<Level>): seq<nat> {
    if stack == [] then [] else Preorder(stack[0].rest) + Later(stack[1..])
  }

  /** What is still to be visited when the cursor is at the head of `cur`. */
  function Todo(cur: seq<Tree>, stack: seq<Level>): seq<nat> {
    Preorder(cur) + Later(stack)
  }

  lemma TodoFirst(cur: seq<Tree>, stack: seq<Level>)
    requires cur != []
    ensures Todo(cur, stack) == [cur[0].id] + Todo(cur[0].kids, [Level(cur[0].id, cur[1..])] + stack)
    ensures cur[0].kids == [] ==> Todo(cur, stack) == [cur[0].id] + Todo(cur[1..], stack)
  {
    hide Preorder;
    PreorderFirst(cur);
    PreorderNone();
    var down := [Level(cur[0].id, cur[1..])] + stack;
    assert down[1..] == stack;
  }

  /** From a node without children or done with them: its next sibling, or the
      next sibling of the closest ancestor that has one. */
  method Advance(l: Links, m: nat, ghost par: Ptr, ghost rest: seq<Tree>, ghost stack: seq<Level>)
    returns (menu: Ptr, ghost par': Ptr, ghost cur: seq<Tree>, ghost stack': seq<Level>)
    requires l.Has(m) && l.parent[m] == par && Seg(l, l.next[m], None, par, rest) && Above(l, par, stack)
    ensures Seg(l, menu, None, par', cur) && Above(l, par', stack') && Todo(cur, stack') == Todo(rest, stack)
    ensures menu.None? ==> Todo(cur, stack') == []
  {
    hide Preorder, Seg;
    var n := m;
    par', cur, stack' := par, rest, stack;
    while l.next[n].None?
      invariant l.Has(n) && l.parent[n] == par' && Seg(l, l.next[n], None, par', cur) && Above(l, par', stack')
      invariant Todo(cur, stack') == Todo(rest, stack)
      decreases |stack'|
    {
      SegHead(l, l.next[n], None, par', cur);
      PreorderNone();
      if l.parent[n].None? {
        NoneAbove(l, par', stack');
        return None, par', cur, stack';
      }
      n := l.parent[n].value;
      cur, par', stack' := stack'[0].rest, l.parent[n], stack'[1..];
    }
    menu := l.next[n];
  }

  lemma NoneAbove(l: Links, par: Ptr, stack: seq<Level>)
    requires Above(l, par, stack) && par == None
    ensures stack == []
  {
  }

  /** The walk visits every node below the root once, in depth-first order, and
      ends. */
  method Walk(l: Links, root: nat, ghost f: seq<Tree>) returns (visits: seq<nat>)
    requires l.Has(root) && l.next[root].None? && l.parent[root].None? && Seg(l, l.list[root], None, Some(root), f)
    ensures visits == Preorder(f)
  {
    hide Preorder, Seg, Above, Todo;
    visits := [];
    var menu := l.list[root];
    ghost var par: Ptr, cur, stack := Some(root), f, [Level(root, [])];
    RootLevel(l, root, f);
    SegHead(l, menu, None, par, f);
    while menu.Some?
      invariant Seg(l, menu, None, par, cur) && Above(l, par, stack)
      invariant visits + Todo(cur, stack) == Preorder(f)
      invariant menu.None? ==> Todo(cur, stack) == []
      decreases |Todo(cur, stack)|
    {
      var m := menu.value;
      SegHead(l, menu, None, par, cur);
      SegUncons(l, menu, None, par, cur);
      TodoFirst(cur, stack);
      ghost var kids, rest := cur[0].kids, cur[1..];
      ghost var todo := Todo(cur, stack);
      SegHead(l, l.list[m], None, Some(m), kids);
      visits := visits + [m];
      if l.list[m].Some? {
        menu := l.list[m];
        AboveDown(l, m, par, rest, stack);
        cur, stack, par := kids, [Level(m, rest)] + stack, Some(m);
      } else {
        menu, par, cur, stack := Advance(l, m, par, rest, stack);
      }
      assert todo == [m] + Todo(cur, stack);
    }
  }

  lemma AboveDown(l: Links, m: nat, par: Ptr, rest: seq<Tree>, stack: seq<Level>)
    requires l.Has(m) && l.parent[m] == par && Seg(l, l.next[m], None, par, rest) && Above(l, par, stack)
    ensures Above(l, Some(m), [Level(m, rest)] + stack)
  {
    var down := [Level(m, rest)] + stack;
    assert down[1..] == stack;
  }

  lemma RootLevel(l: Links, root: nat, f: seq<Tree>)
    requires l.Has(root) && l.next[root].None? && l.parent[root].None?
    ensures Above(l, Some(root), [Level(root, [])]) && [] + Todo(f, [Level(root, [])]) == Preorder(f)
    ensures f == [] ==> Todo(f, [Level(root, [])]) == []
  {
    var stack := [Level(root, [])];
    assert stack[1..] == [];
    PreorderNone();
    assert Later(stack) == Preorder([]) + Later([]);
  }

  // ----- the whole menu -----

  /** The declared menu: `f` below the root, which stands alone. */
  ghost predicate Declared(t: MenuTree, root: nat, f: seq<Tree>)
    reads t
  {
    && t.Valid() && t.Settled() && t.groups == [] && t.limits == map[]
    && Placed(t.L(), root, None, f, []) && t.parent[root] == None && t.D().DepOf(root) == None &&
        t.sh.SymOf(root) == None
  }

  /** menu_finalize on the root and then the walk: the nodes come out in the order
      in which they were declared, each finalised once and visited once, in a menu
      of the described shape, in which no node without a prompt has children. The
      condition of each node is the minimum of its own and its ancestors' declared
      conditions, and of its choice being y where that is asked for. rev_dep,
      implied and dir_dep hold exactly what the nodes contribute: rev_dep of a symbol
      is the largest of its selects, implied of its implies, and dir_dep of the
      conditions of its childless nodes. The choice values
      are those of the lists of the finished menu. */
  method FinalizeAndWalk(t: MenuTree, root: nat, ghost f: seq<Tree>) returns (visits: seq<nat>, ghost g: seq<Tree>)
    requires Declared(t, root, f)
    modifies t
    ensures visits == Preorder(f) && t.log == old(t.log) + [root] + Preorder(f)
    ensures t.Valid() && Placed(t.L(), root, None, g, []) && Preorder(g) == Preorder(f) && Prompted(t.sh.prompts, g)
    ensures Shaped(t.sh, t.D(), root, f, [], g, 0) && Inherited(t.sh, old(t.D()), t.D(), None, f)
    ensures forall env: Env, n: nat :: WellFormed(env) && n in Nodes(f) ==>
      Some(EvalOpt(t.P().DepOf(n), env)) == AtMost(LimitTri(t.limits, n, env), Wanted(t.sh, old(t.D()), env, YES, f, n))
    ensures forall slot, s, env: Env ::
      SlotVal(t.reverse, slot, s, env) ==
          Most(SlotVal(old(t.reverse), slot, s, env), FromForest(t.sh, t.D(), f, slot, s, env))
    ensures SelectsCounted(t.sh, t.D(), f, old(t.reverse.rev), t.reverse.rev)
    ensures ImpliesCounted(t.sh, t.D(), f, old(t.reverse.imp), t.reverse.imp)
    ensures DirectCounted(t.sh, t.D(), f, old(t.reverse.dir), t.reverse.dir)
    ensures t.C() == ChooseGroups(t.sh, t.groups) && Logged(t.sh.prompts, [], t.groups, [Node(root, g)])
    ensures t.sh.choices <= t.sh.prompts ==> Finished(t.sh, [Node(root, g)], t.groups)
  {
    hide Preorder, Seg, Unique, Inherited, Wanted, SlotVal, FromForest, Prompted, SameBut, Shaped, Limited, Sound;
    hide LimitTri, SelectsCounted, ImpliesCounted, DirectCounted;
    hide Logged, ChooseGroups, Nodes, DepsBut, Added;
    ghost var d0, r0 := t.D(), t.reverse;
    ghost var k;
    g, k := t.Finalize(root, None, f, []);
    assert k == 0;
    PreorderNone();
    EndAlone(t.L(), root, g);
    visits := Walk(Links(t.list, t.next, t.parent), root, g);
    forall env: Env, n: nat | WellFormed(env) && n in Nodes(f)
      ensures Some(EvalOpt(t.P().DepOf(n), env)) == AtMost(LimitTri(t.limits, n, env), Wanted(t.sh, d0, env, YES, f, n))
    {
      WantedIsValue(t.sh, d0, t.D(), env, None, f, n);
      WantedSomewhere(t.sh, d0, env, YES, f, n);
      CondValue(t.sh, t.limits, t.C(), t.D(), t.P(), n, env);
    }
    AddedWhole(t.sh, t.D(), r0, t.reverse, root, f);
    AllCounted(t.sh, t.D(), f, r0, t.reverse);
    if t.sh.choices <= t.sh.prompts {
      MenuIsFinished(t.sh, root, f, g, t.groups);
    }
  }

  function AtMost(limit: Tristate, t: Option<Tristate>): Option<Tristate> {
    if t.None? then None else Some(And(limit, t.value))
  }

  /** A condition is the inherited one, as far as the choice allows. */
  lemma CondValue(sh: Shape, limits: map<nat, Sym>, ch: Choosing, d: Deps, e: Deps, n: nat, env: Env)
    requires Limited(limits, d, e) && Sound(sh, ch) && ch.limits == limits && Consistent(env)
    ensures EvalOpt(e.DepOf(n), env) == And(LimitTri(limits, n, env), EvalOpt(d.DepOf(n), env))
  {
    LimitValue(limits, n, d.DepOf(n), env);
    if n !in limits {
      LimitedFree(limits, d, e, n);
    }
  }

  lemma EndAlone(l: Links, root: nat, g: seq<Tree>)
    requires Placed(l, root, None, g, [])
    ensures l.next[root].None?
  {
  }

  lemma AddedWhole(sh: Shape, d: Deps, r: Reverse, r': Reverse, root: nat, f: seq<Tree>)
    requires Added(sh, d, r, r', root, f, []) && sh.SymOf(root) == None
    ensures forall slot, s, env: Env ::
      SlotVal(r', slot, s, env) == Most(SlotVal(r, slot, s, env), FromForest(sh, d, f, slot, s, env))
  {
    hide SlotVal, FromForest;
  }

  /** Every node is in the finished menu once. */
  lemma MenuIsFinished(sh: Shape, root: nat, f: seq<Tree>, g: seq<Tree>, groups: seq<Group>)
    requires Unique([root] + Preorder(f) + Preorder([])) && Preorder(g) == Preorder(f) && sh.choices <= sh.prompts
    requires Logged(sh.prompts, [], groups, [Node(root, g)])
    ensures Finished(sh, [Node(root, g)], groups)
  {
    hide Preorder, Unique;
    PreorderNone();
    PreorderUnit(Node(root, g));
    assert [root] + Preorder(f) + Preorder([]) == [root] + Preorder(g);
  }
}
