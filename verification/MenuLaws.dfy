/** The conditions of the finished menu from parent to child: what one node gets
    from the node above it, and a property from its node. */
module MenuLaws {
  import opened Tristates
  import opened Exprs
  import opened Transform
  import opened Symbols
  import opened MenuTrees
  import opened MenuDeps

  /** Node n is declared directly below node q. */
  ghost predicate ChildOf(f: seq<Tree>, q: nat, n: nat)
    decreases f
  {
    f != [] && ((f[0].id == q && n in Tops(f[0].kids)) || ChildOf(f[0].kids, q, n) || ChildOf(f[1..], q, n))
  }

  /** A declared condition, in which m stands for m && MODULES. */
  ghost function Own(sh: Shape, e: Option<Expr>, env: Env): Tristate {
    EvalOpt(e, WithModules(env, sh.modules))
  }

  lemma OwnRewritten(sh: Shape, e: Option<Expr>, env: Env)
    requires env.tri(SymMod) == MOD
    ensures EvalOpt(RewriteMOpt(e, sh.modules), env) == Own(sh, e, env)
  {
    hide Eval, RewriteM;
    if e.Some? {
      RewriteMMeaning(e.value, sh.modules, env);
    }
  }

  lemma {:induction false} TopCondition(sh: Shape, d: Deps, d': Deps, parent: Option<Expr>, f: seq<Tree>, n: nat,
      env: Env)
    requires Inherited(sh, d, d', parent, f) && n in Tops(f) && WellFormed(env)
    ensures EvalOpt(d'.DepOf(n), env) == And(EvalOpt(parent, env), Own(sh, d.DepOf(n), env))
  {
    hide PropsInherit, Own;
    if f[0].id == n {
      OwnRewritten(sh, d.DepOf(n), env);
    } else {
      TopCondition(sh, d, d', parent, f[1..], n, env);
    }
  }

  /** The condition of a node is the minimum of its own and that of the node above
      it, where a choice stands for the value of its symbol. */
  lemma {:induction false} ChildCondition(sh: Shape, d: Deps, d': Deps, parent: Option<Expr>, f: seq<Tree>, q: nat,
      n: nat, env: Env)
    requires Inherited(sh, d, d', parent, f) && ChildOf(f, q, n) && WellFormed(env)
    ensures EvalOpt(d'.DepOf(n), env) ==
      And(if q in sh.choices && sh.SymOf(q).Some? then env.tri(sh.SymOf(q).value) else EvalOpt(d'.DepOf(q), env),
          Own(sh, d.DepOf(n), env))
    decreases f
  {
    hide NodeDone, Own, ChildOf;
    ChildWhere(f, q, n);
    if f[0].id == q && n in Tops(f[0].kids) {
      TopCondition(sh, d, d', ParentDep(sh, d', q), f[0].kids, n, env);
    } else if ChildOf(f[0].kids, q, n) {
      ChildCondition(sh, d, d', ParentDep(sh, d', f[0].id), f[0].kids, q, n, env);
    } else {
      ChildCondition(sh, d, d', parent, f[1..], q, n, env);
    }
  }

  lemma ChildWhere(f: seq<Tree>, q: nat, n: nat)
    requires ChildOf(f, q, n)
    ensures f != [] && ((f[0].id == q && n in Tops(f[0].kids)) || ChildOf(f[0].kids, q, n) || ChildOf(f[1..], q, n))
  {
  }

  /** The condition of a property is the minimum of its own and that of its node.
      For a symbol that was not tristate when it was handled, it is at most that,
      and n in the same cases. */
  lemma {:induction false} PropertyCondition(sh: Shape, d: Deps, d': Deps, parent: Option<Expr>, f: seq<Tree>, n: nat,
      i: nat, env: Env)
    requires Inherited(sh, d, d', parent, f) && n in Nodes(f) && WellFormed(env)
    requires i < |d.PropsOf(n)|
    ensures |d'.PropsOf(n)| == |d.PropsOf(n)|
    ensures d'.PropsOf(n)[i].kind == d.PropsOf(n)[i].kind && d'.PropsOf(n)[i].target == d.PropsOf(n)[i].target
    ensures var want, got :=
              And(EvalOpt(d'.DepOf(n), env), Own(sh, d.PropsOf(n)[i].cond, env)), EvalOpt(d'.PropsOf(n)[i].cond, env);
            got <= want && (got == NO <==> want == NO) &&
            (sh.SymOf(n).None? || (sh.SymOf(n).value.IsTristate() && n !in sh.late) ==> got == want)
    decreases f
  {
    hide Preorder, Own;
    PreorderNone();
    NodesSplit(f);
    if f[0].id == n {
      OwnRewritten(sh, d.PropsOf(n)[i].cond, env);
      assert PropInherits(sh, n, d'.DepOf(n), d.PropsOf(n)[i], d'.PropsOf(n)[i]);
    } else if n in Nodes(f[0].kids) {
      PropertyCondition(sh, d, d', ParentDep(sh, d', f[0].id), f[0].kids, n, i, env);
    } else {
      PropertyCondition(sh, d, d', parent, f[1..], n, i, env);
    }
  }
}
