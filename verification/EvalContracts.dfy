/** What each part of the evaluator has to achieve, as relations between the
    state before and the state after, and how these relations compose. */
module EvalContracts {
  import opened Tristates
  import opened Exprs
  import opened Symbols
  import opened Valuation
  import opened EvalState

  // ----- expressions -----

  /** sym_calc_value: on a good cache, a readable symbol comes out up to date
      with its value, and the cache stays good. */
  ghost predicate ValueDone(ctx: Ctx, a: EState, z: EState, s: Sym) {
    ctx.Good(a) && ctx.Readable(a, s) ==> ctx.Kept(a, z) && z.IsValid(s) && z.Curr(s) == ctx.u(s)
  }

  ghost predicate ExprDone(ctx: Ctx, a: EState, z: EState, e: Expr, t: Tristate) {
    ctx.Good(a) && ctx.ReadAll(a, Syms(e)) ==>
      ctx.Kept(a, z) && z.AllValid(Syms(e)) && t == Eval(e, ctx.w.EnvOf(ctx.u))
  }

  ghost predicate OptDone(ctx: Ctx, a: EState, z: EState, e: Option<Expr>, t: Tristate) {
    ctx.Good(a) && ctx.ReadAll(a, SymsOpt(e)) ==>
      ctx.Kept(a, z) && z.AllValid(SymsOpt(e)) && t == EvalOpt(e, ctx.w.EnvOf(ctx.u))
  }

  ghost predicate TextDone(ctx: Ctx, a: EState, z: EState, s: Sym, text: string) {
    ctx.Good(a) && a.IsValid(s) && s !in ctx.act ==> ctx.Kept(a, z) && text == ctx.w.Text(ctx.u, s)
  }

  ghost predicate BothValid(ctx: Ctx, a: EState, l: Sym, r: Sym) {
    ctx.Good(a) && a.IsValid(l) && a.IsValid(r) && l !in ctx.act && r !in ctx.act
  }

  /** Two texts read one after the other from a state where both are up to date. */
  ghost predicate TextsDone(ctx: Ctx, a: EState, z: EState, l: Sym, r: Sym, x: string, y: string) {
    BothValid(ctx, a, l, r) ==> ctx.Kept(a, z) && x == ctx.w.Text(ctx.u, l) && y == ctx.w.Text(ctx.u, r)
  }

  lemma SymIsExpr(ctx: Ctx, a: EState, z: EState, s: Sym)
    requires ValueDone(ctx, a, z, s)
    ensures ExprDone(ctx, a, z, ESym(s), z.Curr(s).tri)
  {
    hide Ctx.Good, Ctx.Kept, Ctx.Readable;
    assert s in Syms(ESym(s));
  }

  lemma NotExpr(ctx: Ctx, a: EState, z: EState, e: Expr, t: Tristate)
    requires ExprDone(ctx, a, z, e, t)
    ensures ExprDone(ctx, a, z, ENot(e), Not(t))
  {
    hide Ctx.Good, Ctx.Kept, Ctx.Readable, World.EnvOf;
  }

  lemma BinExpr(ctx: Ctx, a: EState, m: EState, z: EState, op: BinOp, l: Expr, r: Expr, t1: Tristate, t2: Tristate)
    requires ExprDone(ctx, a, m, l, t1) && ExprDone(ctx, m, z, r, t2)
    ensures ExprDone(ctx, a, z, EBin(op, l, r), Apply(op, t1, t2))
  {
    hide Ctx.Good, Ctx.Frame, Ctx.Readable, World.EnvOf;
    if ctx.Good(a) && ctx.ReadAll(a, Syms(EBin(op, l, r))) {
      ctx.ReadLater(a, m, Syms(r));
      ctx.ValidLater(m, z, Syms(l));
      ctx.KeptTrans(a, m, z);
    }
  }

  lemma BothTexts(ctx: Ctx, a: EState, m: EState, z: EState, l: Sym, r: Sym, x: string, y: string)
    requires TextDone(ctx, a, m, l, x) && TextDone(ctx, m, z, r, y)
    ensures TextsDone(ctx, a, z, l, r, x, y)
  {
    hide Ctx.Good, Ctx.Frame, World.Text;
    if BothValid(ctx, a, l, r) {
      ctx.ValidLater(a, m, {r});
      ctx.KeptTrans(a, m, z);
    }
  }

  lemma BothValues(ctx: Ctx, a: EState, m: EState, z: EState, l: Sym, r: Sym)
    requires ValueDone(ctx, a, m, l) && ValueDone(ctx, m, z, r)
    ensures ctx.Good(a) && ctx.ReadAll(a, {l, r}) ==> ctx.Kept(a, z) && BothValid(ctx, z, l, r)
  {
    hide Ctx.Good, Ctx.Frame, Ctx.Readable;
    if ctx.Good(a) && ctx.ReadAll(a, {l, r}) {
      ctx.ReadableInactive(a, l);
      ctx.ReadableInactive(a, r);
      ctx.ReadLater(a, m, {l, r});
      ctx.KeptTrans(a, m, z);
      ctx.ValidLater(m, z, {l});
      assert z.AllValid({l});
    }
  }

  lemma CmpExpr(ctx: Ctx, a: EState, m: EState, z: EState, cmp: CmpOp, l: Sym, r: Sym, x: string, y: string)
    requires ctx.Good(a) && ctx.ReadAll(a, {l, r}) ==> ctx.Kept(a, m) && BothValid(ctx, m, l, r)
    requires TextsDone(ctx, m, z, l, r, x, y)
    ensures ExprDone(ctx, a, z, ECmp(cmp, l, r), OfBool(Holds(cmp, ctx.w.compare(l.Type(), x, r.Type(), y))))
  {
    hide Ctx.Good, Ctx.Frame, Ctx.Readable, World.Text;
    if ctx.Good(a) && ctx.ReadAll(a, {l, r}) {
      ctx.KeptTrans(a, m, z);
      ctx.ValidLater(m, z, {l, r});
    }
  }

  lemma TextAtOnce(ctx: Ctx, a: EState, s: Sym, text: string)
    requires !s.IsLogical() ==> text == a.Curr(s).str
    requires s.IsLogical() ==> a.Curr(s).tri != MOD && text == TristateText(a.Curr(s).tri, NO)
    ensures TextDone(ctx, a, a, s, text)
  {
    hide Ctx.Good;
    if ctx.Good(a) && a.IsValid(s) && s !in ctx.act {
      ctx.KeptRefl(a);
      ctx.SettledAt(a, s);
    }
  }

  /** The text of m depends on the value of MODULES. */
  lemma TextOfMod(ctx: Ctx, a: EState, z: EState, s: Sym)
    requires s.IsLogical() && a.Curr(s).tri == MOD && ValueDone(ctx, a, z, ctx.w.cfg.modules)
    ensures TextDone(ctx, a, z, s, TristateText(MOD, z.Curr(ctx.w.cfg.modules).tri))
  {
    hide Ctx.Kept, Ctx.LowBool, Ctx.UserKept, Ctx.MembersZero, Ctx.ActiveAbove, World.SolvesBelow, Ctx.Ready;
    if ctx.Good(a) && a.IsValid(s) && s !in ctx.act {
      ctx.SettledAt(a, s);
    }
  }

  lemma NoExpr(ctx: Ctx, a: EState)
    ensures OptDone(ctx, a, a, None, YES)
  {
    hide Ctx.Good, Ctx.Kept;
    if ctx.Good(a) {
      ctx.KeptRefl(a);
    }
  }

  lemma SomeExpr(ctx: Ctx, a: EState, z: EState, e: Expr, t: Tristate)
    requires ExprDone(ctx, a, z, e, t)
    ensures OptDone(ctx, a, z, Some(e), t)
  {
    hide Ctx.Good, Ctx.Kept, Ctx.ReadAll, World.EnvOf;
  }

  // ----- visibility -----

  /** The references of `s` can be read from a good cache. */
  ghost predicate Open(ctx: Ctx, a: EState, s: Sym) {
    ctx.Good(a) && ctx.ReadAll(a, ctx.w.cfg.Refs(s))
  }

  predicate ChoiceValid(cfg: Config, z: EState, s: Sym) {
    cfg.RoleOf(s).Member? ==> z.IsValid(cfg.RoleOf(s).choice)
  }

  /** One prompt of `s` has the value t, and the choice of a member is up to date. */
  ghost predicate PromptDone(ctx: Ctx, a: EState, z: EState, s: Sym, p: Prop, t: Tristate) {
    Open(ctx, a, s) ==> ctx.Kept(a, z) && t == ctx.w.PromptTri(ctx.u, s, p) && ChoiceValid(ctx.w.cfg, z, s)
  }

  predicate AnyText(props: seq<Prop>) {
    exists i :: 0 <= i < |props| && props[i].hasText
  }

  /** The first prompts of `s` together have the value t. */
  ghost predicate PromptsDone(ctx: Ctx, a: EState, z: EState, s: Sym, props: seq<Prop>, t: Tristate) {
    Open(ctx, a, s) ==>
      ctx.Kept(a, z) && t == ctx.w.PromptsTri(ctx.u, s, props) && (AnyText(props) ==> ChoiceValid(ctx.w.cfg, z, s))
  }

  lemma OpenLater(ctx: Ctx, a: EState, z: EState, s: Sym)
    requires Open(ctx, a, s) && ctx.Kept(a, z)
    ensures Open(ctx, z, s)
  {
    hide Ctx.Frame, Config.Refs, Ctx.Readable, Ctx.Good;
    ctx.ReadLater(a, z, ctx.w.cfg.Refs(s));
    ctx.KeptGood(a, z);
  }

  /** sym_calc_visibility for one prompt: t is the value of its condition. */
  lemma OnePrompt(ctx: Ctx, a: EState, z: EState, s: Sym, p: Prop, t: Tristate)
    requires OptDone(ctx, a, z, p.visible, t) && p in ctx.w.cfg.InfoOf(s).props && p.hasText
    ensures var role := ctx.w.cfg.RoleOf(s);
            PromptDone(ctx, a, z, s, p,
              if role.Member? && s.IsTristate() && t == MOD && z.Curr(role.choice).tri == YES then NO else t)
  {
    hide Ctx.Good, Ctx.Frame, Ctx.Kept, Config.Refs, EvalOpt, World.EnvOf, Ctx.Readable;
    if Open(ctx, a, s) {
      ctx.PropReads(a, s, p);
      if ctx.w.cfg.RoleOf(s).Member? {
        ctx.PromptSeen(a, z, s, p);
      }
    }
  }

  lemma NoPrompts(ctx: Ctx, a: EState, s: Sym)
    ensures PromptsDone(ctx, a, a, s, [], NO)
  {
    hide Ctx.Good, Ctx.Kept, Ctx.ReadAll, Config.Refs;
    if ctx.Good(a) {
      ctx.KeptRefl(a);
    }
  }

  lemma OneMorePrompt(ctx: Ctx, a: EState, m: EState, z: EState, s: Sym, props: seq<Prop>, p: Prop, t: Tristate,
      t': Tristate)
    requires PromptsDone(ctx, a, m, s, props, t) && PromptDone(ctx, m, z, s, p, t') && p.hasText
    ensures PromptsDone(ctx, a, z, s, props + [p], Or(t, t'))
  {
    hide Open, Ctx.Kept, World.PromptTri, ChoiceValid;
    if Open(ctx, a, s) {
      OpenLater(ctx, a, m, s);
      ctx.KeptTrans(a, m, z);
      assert (props + [p])[..|props|] == props;
    }
  }

  lemma NoMorePrompt(ctx: Ctx, a: EState, z: EState, s: Sym, props: seq<Prop>, p: Prop, t: Tristate)
    requires PromptsDone(ctx, a, z, s, props, t) && !p.hasText
    ensures PromptsDone(ctx, a, z, s, props + [p], t)
  {
    hide Open, Ctx.Kept, World.PromptTri, ChoiceValid;
    assert (props + [p])[..|props|] == props;
    if AnyText(props + [p]) {
      var i :| 0 <= i < |props + [p]| && (props + [p])[i].hasText;
      assert props[i].hasText;
    }
  }

  /** sym_calc_visibility: visibility and dependencies of `s` are right, its
      value is left alone. */
  ghost predicate VisibilityDone(ctx: Ctx, a: EState, z: EState, s: Sym) {
    Open(ctx, a, s) && ctx.Writable(a, s) ==>
      ctx.Good(z) && ctx.FrameBut(a, z, s) && ctx.Viewed(z, s) && z.CellOf(s).curr == a.CellOf(s).curr
  }

  /** The first part is done: the visibility is written. */
  ghost predicate VisibleDone(ctx: Ctx, a: EState, z: EState, s: Sym) {
    Open(ctx, a, s) && ctx.Writable(a, s) ==>
      ctx.ViewStart(z, s) && ctx.FrameBut(a, z, s) && z.CellOf(s).curr == a.CellOf(s).curr &&
      (ctx.w.cfg.RoleOf(s).Member? ==> ctx.Viewed(z, s))
  }

  lemma VisibleNow(ctx: Ctx, a: EState, m: EState, s: Sym, tri: Tristate)
    requires PromptsDone(ctx, a, m, s, ctx.w.cfg.InfoOf(s).props, tri) && s.Sym?
    ensures var t := if tri == MOD && (!s.IsTristate() || m.modulesVal == NO) then YES else tri;
            VisibleDone(ctx, a, m.WithCell(s, m.CellOf(s).(visible := t)), s)
  {
    hide Ctx.Good, Ctx.Frame, Ctx.FrameBut, Ctx.Kept, Ctx.Viewed, World.PromptsTri, Config.Refs, Ctx.ReadAll;
    if Open(ctx, a, s) && ctx.Writable(a, s) {
      ctx.KeptGood(a, m);
      ctx.ModulesValue(m);
      if ctx.w.cfg.RoleOf(s).Member? {
        ctx.MemberHasPrompt(a, s);
      }
      var t := if tri == MOD && (!s.IsTristate() || m.modulesVal == NO) then YES else tri;
      ctx.VisibleWritten(a, m, s, m.CellOf(s).(visible := t));
    }
  }

  /** The dependencies of a symbol whose visibility is known. */
  ghost predicate DependenciesDone(ctx: Ctx, a: EState, z: EState, s: Sym) {
    ctx.ViewStart(a, s) ==>
      ctx.Good(z) && ctx.FrameBut(a, z, s) && ctx.Viewed(z, s) && z.CellOf(s).curr == a.CellOf(s).curr
  }

  lemma MemberVisible(ctx: Ctx, a: EState, z: EState, s: Sym)
    requires VisibleDone(ctx, a, z, s) && ctx.w.cfg.RoleOf(s).Member?
    ensures VisibilityDone(ctx, a, z, s)
  {
    hide Ctx.Good, Ctx.FrameBut, Ctx.Viewed, Open, Ctx.ReadAll, World.VisibleOf;
  }

  lemma PlainVisible(ctx: Ctx, a: EState, m: EState, z: EState, s: Sym)
    requires VisibleDone(ctx, a, m, s) && DependenciesDone(ctx, m, z, s)
    ensures VisibilityDone(ctx, a, z, s)
  {
    hide Ctx.Good, Ctx.FrameBut, Ctx.Viewed, Open, Ctx.ViewStart;
    if Open(ctx, a, s) && ctx.Writable(a, s) {
      ctx.FrameButTrans(a, m, z, s);
    }
  }

  ghost predicate RoundedDone(ctx: Ctx, a: EState, z: EState, s: Sym, e: Option<Expr>, absent: Tristate, t: Tristate) {
    ctx.ViewStart(a, s) ==>
      ctx.Kept(a, z) && t == ctx.w.Round(s, ctx.w.VisibleOf(ctx.u, s), ctx.w.OrAbsent(ctx.u, e, absent))
  }

  /** The value of an optional dependency, absent or evaluated, before rounding. */
  ghost predicate AbsentDone(ctx: Ctx, a: EState, z: EState, s: Sym, e: Option<Expr>, absent: Tristate, t: Tristate) {
    ctx.ViewStart(a, s) ==> ctx.Kept(a, z) && t == ctx.w.OrAbsent(ctx.u, e, absent)
  }

  lemma AbsentNow(ctx: Ctx, a: EState, s: Sym, absent: Tristate)
    ensures AbsentDone(ctx, a, a, s, None, absent, absent)
  {
    hide Ctx.Good, Ctx.Kept, Ctx.ReadAll, World.VisibleOf;
    if ctx.ViewStart(a, s) {
      ctx.KeptRefl(a);
    }
  }

  lemma PresentNow(ctx: Ctx, a: EState, z: EState, s: Sym, e: Expr, absent: Tristate, t: Tristate)
    requires ExprDone(ctx, a, z, e, t) && Syms(e) <= ctx.w.cfg.Refs(s)
    ensures AbsentDone(ctx, a, z, s, Some(e), absent, t)
  {
    hide Ctx.Good, Ctx.Kept, Ctx.Readable, World.VisibleOf, Config.Refs, World.EnvOf;
    if ctx.ViewStart(a, s) {
      ctx.ReadParts(a, ctx.w.cfg.Refs(s), Syms(e));
    }
  }

  lemma RoundedNow(ctx: Ctx, a: EState, z: EState, s: Sym, e: Option<Expr>, absent: Tristate, t: Tristate)
    requires AbsentDone(ctx, a, z, s, e, absent, t) && !ctx.w.cfg.RoleOf(s).Member?
    ensures var acts := s.IsBool() || (s.IsTristate() && z.modulesVal == NO);
            RoundedDone(ctx, a, z, s, e, absent, if t == MOD && acts then YES else t)
  {
    hide Ctx.Good, Ctx.Kept, Ctx.ReadAll, World.VisibleOf, Config.Refs, World.OrAbsent;
    if ctx.ViewStart(a, s) {
      ctx.CellKept(a, z, s);
    }
  }

  /** The three dependencies, calculated and written one after the other. */
  lemma AllDependencies(ctx: Ctx, a: EState, m: EState, m1: EState, m2: EState, s: Sym, t: Tristate, t1: Tristate,
      t2: Tristate)
    requires s.Sym? && !ctx.w.cfg.RoleOf(s).Member?
    requires RoundedDone(ctx, a, m, s, ctx.w.cfg.InfoOf(s).dirDep, YES, t)
    requires RoundedDone(ctx, m.WithCell(s, m.CellOf(s).(dir := t)), m1, s, ctx.w.cfg.InfoOf(s).revDep, NO, t1)
    requires RoundedDone(ctx, m1.WithCell(s, m1.CellOf(s).(rev := t1)), m2, s, ctx.w.cfg.InfoOf(s).implied, NO, t2)
    ensures DependenciesDone(ctx, a, m2.WithCell(s, m2.CellOf(s).(imp := t2)), s)
  {
    hide Ctx.Good, Ctx.Kept, Ctx.FrameBut, Ctx.ReadAll, Ctx.ViewStart, Ctx.Viewed, World.VisibleOf, World.Round;
    hide World.OrAbsent, Config.Refs;
    if ctx.ViewStart(a, s) {
      var c, c1, c2 := m.CellOf(s).(dir := t), m1.CellOf(s).(rev := t1), m2.CellOf(s).(imp := t2);
      ctx.FrameButRefl(a, s);
      ctx.DependencyWritten(a, a, m, s, c);
      ctx.DependencyWritten(a, m.WithCell(s, c), m1, s, c1);
      ctx.DependencyWritten(a, m1.WithCell(s, c1), m2, s, c2);
      ctx.AllViewed(a, m, m.WithCell(s, c), m1.WithCell(s, c1), m2.WithCell(s, c2), s);
    }
  }

  // ----- values -----

  /** sym_get_default_prop: the search has reached the default properties `rest`. */
  ghost predicate DefaultSought(ctx: Ctx, a: EState, z: EState, s: Sym, rest: seq<Prop>) {
    Open(ctx, a, s) ==>
      ctx.Kept(a, z) && ctx.w.DefaultOf(ctx.u, ctx.w.cfg.InfoOf(s).props) == ctx.w.DefaultOf(ctx.u, rest)
  }

  ghost predicate DefaultDone(ctx: Ctx, a: EState, z: EState, s: Sym, p: Option<Prop>, visible: Tristate) {
    Open(ctx, a, s) ==>
      ctx.Kept(a, z) && p == ctx.w.DefaultOf(ctx.u, ctx.w.cfg.InfoOf(s).props) &&
      (p.Some? ==> visible == EvalOpt(p.value.visible, ctx.w.EnvOf(ctx.u)))
  }

  lemma SeekDefault(ctx: Ctx, a: EState, s: Sym)
    ensures DefaultSought(ctx, a, a, s, ctx.w.cfg.InfoOf(s).props)
  {
    hide Ctx.Good, Ctx.Kept, Ctx.ReadAll, Config.Refs, World.DefaultOf;
    if ctx.Good(a) {
      ctx.KeptRefl(a);
    }
  }

  lemma SkipDefault(ctx: Ctx, a: EState, z: EState, s: Sym, rest: seq<Prop>)
    requires DefaultSought(ctx, a, z, s, rest) && |rest| > 0 && !rest[0].kind.DefaultProp?
    ensures DefaultSought(ctx, a, z, s, rest[1..])
  {
    hide Open, Ctx.Kept, EvalOpt, World.EnvOf;
  }

  lemma TryDefault(ctx: Ctx, a: EState, m: EState, z: EState, s: Sym, rest: seq<Prop>, t: Tristate)
    requires DefaultSought(ctx, a, m, s, rest) && |rest| > 0 && rest[0].kind.DefaultProp?
    requires rest[0] in ctx.w.cfg.InfoOf(s).props && OptDone(ctx, m, z, rest[0].visible, t)
    ensures t == NO ==> DefaultSought(ctx, a, z, s, rest[1..])
    ensures t != NO ==> DefaultDone(ctx, a, z, s, Some(rest[0]), t)
  {
    hide Ctx.Good, Ctx.Kept, Ctx.ReadAll, EvalOpt, World.EnvOf, Config.Refs;
    if Open(ctx, a, s) {
      OpenLater(ctx, a, m, s);
      ctx.PropReads(m, s, rest[0]);
      ctx.KeptTrans(a, m, z);
    }
  }

  lemma NoDefault(ctx: Ctx, a: EState, z: EState, s: Sym)
    requires DefaultSought(ctx, a, z, s, [])
    ensures DefaultDone(ctx, a, z, s, None, NO)
  {
    hide Open, Ctx.Kept, EvalOpt, World.EnvOf;
  }

  ghost predicate FromDefaultDone(ctx: Ctx, a: EState, z: EState, s: Sym, t: Tristate) {
    Open(ctx, a, s) ==> ctx.Kept(a, z) && t == ctx.w.FromDefault(ctx.u, s)
  }

  lemma FromNone(ctx: Ctx, a: EState, z: EState, s: Sym, visible: Tristate)
    requires DefaultDone(ctx, a, z, s, None, visible)
    ensures FromDefaultDone(ctx, a, z, s, NO)
  {
    hide Open, Ctx.Kept, EvalOpt, World.EnvOf, World.DefaultOf;
  }

  lemma FromSome(ctx: Ctx, a: EState, m: EState, z: EState, s: Sym, p: Prop, visible: Tristate, t: Tristate)
    requires DefaultDone(ctx, a, m, s, Some(p), visible) && OptDone(ctx, m, z, p.value, t)
    requires p in ctx.w.cfg.InfoOf(s).props && p.kind.DefaultProp? && !ctx.w.cfg.RoleOf(s).Choice?
    ensures FromDefaultDone(ctx, a, z, s, And(t, visible))
  {
    hide Ctx.Good, Ctx.Kept, Ctx.ReadAll, EvalOpt, World.EnvOf, Config.Refs, World.DefaultOf;
    if Open(ctx, a, s) {
      OpenLater(ctx, a, m, s);
      ctx.PropReads(m, s, p);
      ctx.KeptTrans(a, m, z);
    }
  }

  /** A result worked out for a symbol in progress whose visibility is known. */
  ghost predicate DefaultTriDone(ctx: Ctx, a: EState, z: EState, s: Sym, t: Tristate) {
    ctx.Looking(a, s) ==> ctx.Kept(a, z) && t == ctx.w.DefaultTri(ctx.u, s)
  }

  lemma WithImplied(ctx: Ctx, a: EState, z: EState, s: Sym, t: Tristate)
    requires FromDefaultDone(ctx, a, z, s, t)
    ensures var cell := z.CellOf(s);
            DefaultTriDone(ctx, a, z, s, if cell.imp != NO then And(Or(t, cell.imp), cell.dir) else t)
  {
    hide Ctx.Looking, Ctx.Good, Ctx.Kept, Ctx.ReadAll, Config.Refs, World.VisibleOf, World.ImpliedOf, World.DirOf;
    hide World.RevOf, World.FromDefault;
    if ctx.Looking(a, s) {
      ctx.LookingAt(a, s);
      ctx.LookingLater(a, z, s);
    }
  }

  /** The wanted value of `s`: the user's or the default. */
  ghost predicate WantedDone(ctx: Ctx, a: EState, z: EState, s: Sym, t: Tristate) {
    ctx.Looking(a, s) ==> ctx.Kept(a, z) && t == ctx.w.WantedTri(ctx.u, s)
  }

  lemma WantedByUser(ctx: Ctx, a: EState, s: Sym)
    requires a.CellOf(s).visible != NO && s in a.hasUser
    ensures WantedDone(ctx, a, a, s, And((if s in a.user then a.user[s] else NO_USER).tri, a.CellOf(s).visible))
  {
    hide Ctx.Looking, Ctx.Good, Ctx.Kept, Ctx.ReadAll, Config.Refs, World.VisibleOf, World.ImpliedOf, World.DirOf;
    hide World.RevOf, World.DefaultTri;
    if ctx.Looking(a, s) {
      ctx.LookingAt(a, s);
    }
  }

  lemma WantedByDefault(ctx: Ctx, a: EState, z: EState, s: Sym, t: Tristate)
    requires !(a.CellOf(s).visible != NO && s in a.hasUser)
    requires if ctx.w.cfg.RoleOf(s).Choice? then z == a && t == NO else DefaultTriDone(ctx, a, z, s, t)
    ensures WantedDone(ctx, a, z, s, t)
  {
    hide Ctx.Looking, Ctx.Good, Ctx.Kept, Ctx.ReadAll, Config.Refs, World.VisibleOf, World.ImpliedOf, World.DirOf;
    hide World.RevOf, World.DefaultTri;
    if ctx.Looking(a, s) {
      ctx.LookingAt(a, s);
    }
  }

  ghost predicate LogicalDone(ctx: Ctx, a: EState, z: EState, s: Sym, t: Tristate) {
    ctx.Looking(a, s) ==> ctx.Kept(a, z) && t == ctx.w.LogicalTri(ctx.u, s)
  }

  /** sym_get_type. */
  predicate ActsBoolIn(cfg: Config, z: EState, s: Sym) {
    s.IsBool() || (s.IsTristate() && ((cfg.RoleOf(s).Member? && z.CellOf(s).visible == YES) || z.modulesVal == NO))
  }

  function RoundIn(cfg: Config, z: EState, s: Sym, t: Tristate): Tristate {
    if t == MOD && ActsBoolIn(cfg, z, s) then YES else t
  }

  /** A visible choice member is y exactly when the choice selects it. */
  lemma MemberLogical(ctx: Ctx, a: EState, s: Sym)
    requires ctx.w.cfg.RoleOf(s).Member? && a.CellOf(s).visible == YES
    ensures LogicalDone(ctx, a, a, s,
        RoundIn(ctx.w.cfg, a, s, OfBool(a.Curr(ctx.w.cfg.RoleOf(s).choice).pick == Some(s))))
  {
    hide Ctx.Looking, Ctx.Good, Ctx.Kept, Ctx.ReadAll, Config.Refs, World.VisibleOf, World.ImpliedOf, World.DirOf;
    hide World.RevOf, World.WantedTri;
    if ctx.Looking(a, s) {
      ctx.LookingAt(a, s);
    }
  }

  lemma SelectedLogical(ctx: Ctx, a: EState, z: EState, s: Sym, t: Tristate)
    requires WantedDone(ctx, a, z, s, t) && !(ctx.w.cfg.RoleOf(s).Member? && a.CellOf(s).visible == YES)
    ensures var cell := z.CellOf(s);
            LogicalDone(ctx, a, z, s,
                RoundIn(ctx.w.cfg, z, s, if cell.dir == NO && cell.rev != NO then NO else Or(t, cell.rev)))
  {
    hide Ctx.Looking, Ctx.Good, Ctx.Kept, Ctx.ReadAll, Config.Refs, World.VisibleOf, World.ImpliedOf, World.DirOf;
    hide World.RevOf, World.WantedTri;
    if ctx.Looking(a, s) {
      ctx.LookingAt(a, s);
      ctx.LookingLater(a, z, s);
    }
  }

  ghost predicate StringDone(ctx: Ctx, a: EState, z: EState, s: Sym, val: Val) {
    ctx.Looking(a, s) ==> ctx.Kept(a, z) && val == ctx.w.StringVal(ctx.u, s)
  }

  lemma StringByUser(ctx: Ctx, a: EState, s: Sym)
    requires a.CellOf(s).visible != NO && s in a.hasUser
    ensures StringDone(ctx, a, a, s, Val(NO, (if s in a.user then a.user[s] else NO_USER).str, None))
  {
    hide Ctx.Looking, Ctx.Good, Ctx.Kept, Ctx.ReadAll, Config.Refs, World.VisibleOf, World.DirOf, World.RevOf;
    hide World.ImpliedOf, World.DefaultOf;
    if ctx.Looking(a, s) {
      ctx.LookingAt(a, s);
    }
  }

  lemma StringByNone(ctx: Ctx, a: EState, z: EState, s: Sym, p: Option<Prop>, visible: Tristate)
    requires !(a.CellOf(s).visible != NO && s in a.hasUser)
    requires DefaultDone(ctx, a, z, s, p, visible) && (p.Some? ==> PropSymbol(p.value).None?)
    ensures StringDone(ctx, a, z, s, Val(NO, "", None))
  {
    hide Ctx.Looking, Ctx.Good, Ctx.Kept, Ctx.ReadAll, Config.Refs, World.VisibleOf, World.DirOf, World.RevOf;
    hide World.ImpliedOf, World.DefaultOf, EvalOpt;
    if ctx.Looking(a, s) {
      ctx.LookingAt(a, s);
    }
  }

  lemma StringByDefault(ctx: Ctx, a: EState, m: EState, z: EState, s: Sym, p: Prop, visible: Tristate, ds: Sym)
    requires !(a.CellOf(s).visible != NO && s in a.hasUser)
    requires DefaultDone(ctx, a, m, s, Some(p), visible) && PropSymbol(p) == Some(ds) && ValueDone(ctx, m, z, ds)
    requires p in ctx.w.cfg.InfoOf(s).props && p.kind.DefaultProp? && !ctx.w.cfg.RoleOf(s).Choice?
    ensures StringDone(ctx, a, z, s, Val(NO, z.Curr(ds).str, None))
  {
    hide Ctx.Looking, Ctx.Good, Ctx.Kept, Ctx.ReadAll, Config.Refs, World.VisibleOf, World.DirOf, World.RevOf;
    hide World.ImpliedOf, World.DefaultOf, EvalOpt, Ctx.Readable;
    if ctx.Looking(a, s) {
      ctx.LookingAt(a, s);
      OpenLater(ctx, a, m, s);
      ctx.DefaultReads(m, s, p, ds);
      ctx.KeptTrans(a, m, z);
    }
  }

  ghost predicate PlainDone(ctx: Ctx, a: EState, z: EState, s: Sym, val: Val) {
    ctx.Looking(a, s) ==> ctx.Kept(a, z) && val == ctx.w.PlainVal(ctx.u, s)
  }

  lemma PlainLogical(ctx: Ctx, a: EState, z: EState, s: Sym, t: Tristate)
    requires s.IsLogical() && LogicalDone(ctx, a, z, s, t)
    ensures PlainDone(ctx, a, z, s, Val(t, "n", None))
  {
    hide Ctx.Looking, Ctx.Kept, World.LogicalTri;
  }

  lemma PlainString(ctx: Ctx, a: EState, z: EState, s: Sym, val: Val)
    requires !s.IsLogical() && StringDone(ctx, a, z, s, val)
    ensures PlainDone(ctx, a, z, s, val)
  {
    hide Ctx.Looking, Ctx.Kept, World.StringVal;
  }

  // ----- choices -----

  /** The visibility of the first n members of a choice that is asking for them
      is calculated; allSet says that the visible ones have a user value. */
  ghost predicate MembersDone(ctx: Ctx, a: EState, z: EState, c: Sym, n: nat, allSet: bool)
    requires ctx.w.cfg.RoleOf(c).Choice? && n <= |ctx.w.cfg.RoleOf(c).members|
  {
    ctx.ChoiceOpen(a, c) && c in ctx.asking ==>
      ctx.MembersOnly(a, z, c) && ctx.MembersSeen(z, c, n) && (allSet <==> ctx.SetUpTo(c, n))
  }

  lemma NoMembers(ctx: Ctx, a: EState, c: Sym)
    requires ctx.w.cfg.RoleOf(c).Choice?
    ensures MembersDone(ctx, a, a, c, 0, true)
  {
    hide Ctx.ChoiceOpen, Ctx.MembersOnly;
    if ctx.ChoiceOpen(a, c) {
      ctx.MembersOnlyRefl(a, c);
    }
  }

  lemma OneMoreMember(ctx: Ctx, a: EState, m: EState, z: EState, c: Sym, i: nat, allSet: bool)
    requires ctx.w.cfg.RoleOf(c).Choice? && i < |ctx.w.cfg.RoleOf(c).members|
    requires MembersDone(ctx, a, m, c, i, allSet) && VisibilityDone(ctx, m, z, ctx.w.cfg.RoleOf(c).members[i])
    ensures var x := ctx.w.cfg.RoleOf(c).members[i];
            MembersDone(ctx, a, z, c, i + 1, allSet && (z.CellOf(x).visible != NO ==> x in z.hasUser))
  {
    hide Ctx.ChoiceOpen, Ctx.MembersSeen, Ctx.MembersOnly, Ctx.Good, Ctx.FrameBut, Ctx.Viewed, Ctx.ReadAll, Config.Refs;
    hide World.VisibleOf, Ctx.SetUpTo;
    if ctx.ChoiceOpen(a, c) && c in ctx.asking {
      ctx.OpenMember(a, m, c, i);
      ctx.MemberViewed(a, m, z, c, i);
      MemberSet(ctx, m, z, c, i);
    }
  }

  lemma MemberSet(ctx: Ctx, m: EState, z: EState, c: Sym, i: nat)
    requires ctx.w.cfg.RoleOf(c).Choice? && i < |ctx.w.cfg.RoleOf(c).members| && ctx.Good(z)
    requires ctx.w.cfg.RoleOf(ctx.w.cfg.RoleOf(c).members[i]) == Member(c)
    requires ctx.Viewed(z, ctx.w.cfg.RoleOf(c).members[i])
    ensures var x := ctx.w.cfg.RoleOf(c).members[i];
            ctx.SetUpTo(c, i + 1) <==> ctx.SetUpTo(c, i) && (z.CellOf(x).visible != NO ==> x in z.hasUser)
  {
    hide World.VisibleOf, World.DirOf, World.RevOf, World.ImpliedOf, World.PlainVal, Ctx.Settled, Ctx.ModulesKnown;
    hide Ctx.Shown, Ctx.MembersAfter, Ctx.MembersZero, World.SolvesBelow;
  }

  /** The search for a default of the choice has reached the properties `rest`. */
  ghost predicate ChoiceSought(ctx: Ctx, a: EState, z: EState, c: Sym, rest: seq<Prop>)
    requires ctx.w.cfg.RoleOf(c).Choice?
  {
    ctx.ChoiceViewed(a, c) ==>
      ctx.MembersOnly(a, z, c) && ctx.ChoiceViewed(z, c) &&
      ctx.w.FirstDefault(ctx.u, ctx.w.cfg.InfoOf(c).props) == ctx.w.FirstDefault(ctx.u, rest)
  }

  ghost predicate ChoiceDefaultDone(ctx: Ctx, a: EState, z: EState, c: Sym, pick: Option<Sym>)
    requires ctx.w.cfg.RoleOf(c).Choice?
  {
    ctx.ChoiceViewed(a, c) ==>
      ctx.MembersOnly(a, z, c) && ctx.ChoiceViewed(z, c) &&
      pick == ctx.w.FirstDefault(ctx.u, ctx.w.cfg.InfoOf(c).props)
  }

  lemma SeekChoice(ctx: Ctx, a: EState, c: Sym)
    requires ctx.w.cfg.RoleOf(c).Choice?
    ensures ChoiceSought(ctx, a, a, c, ctx.w.cfg.InfoOf(c).props)
  {
    hide Ctx.ChoiceViewed, Ctx.MembersOnly, World.FirstDefault;
    if ctx.ChoiceViewed(a, c) {
      ctx.ViewedRefl(a, c);
    }
  }

  lemma SkipChoice(ctx: Ctx, a: EState, z: EState, c: Sym, rest: seq<Prop>)
    requires ctx.w.cfg.RoleOf(c).Choice? && ChoiceSought(ctx, a, z, c, rest) && |rest| > 0 && !rest[0].kind.DefaultProp?
    ensures ChoiceSought(ctx, a, z, c, rest[1..])
  {
    hide Ctx.ChoiceViewed, Ctx.MembersOnly, EvalOpt, World.EnvOf;
  }

  /** The first property of `rest` is a default with condition value t; its symbol
      is taken if the condition is not n and the symbol is visible. */
  lemma TryChoice(ctx: Ctx, a: EState, m: EState, z: EState, c: Sym, rest: seq<Prop>, t: Tristate)
    requires ctx.w.cfg.RoleOf(c).Choice? && ChoiceSought(ctx, a, m, c, rest) && |rest| > 0 && rest[0].kind.DefaultProp?
    requires rest[0] in ctx.w.cfg.InfoOf(c).props && OptDone(ctx, m, z, rest[0].visible, t)
    ensures var taken := t != NO && PropSymbol(rest[0]).Some? && z.CellOf(PropSymbol(rest[0]).value).visible != NO;
            if taken then ChoiceDefaultDone(ctx, a, z, c, PropSymbol(rest[0]))
                else ChoiceSought(ctx, a, z, c, rest[1..])
  {
    hide Ctx.ChoiceViewed, Ctx.MembersOnly, Ctx.Good, Ctx.Kept, Ctx.ReadAll, EvalOpt, World.EnvOf, World.VisibleOf;
    if ctx.ChoiceViewed(a, c) {
      ctx.ChoiceReads(m, c, rest[0]);
      ctx.ViewedLater(a, m, z, c);
      if PropSymbol(rest[0]).Some? {
        ctx.DefaultSeen(z, c, rest[0]);
      }
    }
  }

  lemma NoChoiceDefault(ctx: Ctx, a: EState, z: EState, c: Sym)
    requires ctx.w.cfg.RoleOf(c).Choice? && ChoiceSought(ctx, a, z, c, [])
    ensures ChoiceDefaultDone(ctx, a, z, c, None)
  {
    hide Ctx.ChoiceViewed, Ctx.MembersOnly;
  }

  ghost predicate FirstSeenDone(ctx: Ctx, a: EState, c: Sym, pick: Option<Sym>)
    requires ctx.w.cfg.RoleOf(c).Choice?
  {
    ctx.ChoiceViewed(a, c) ==> pick == ctx.w.FirstVisible(ctx.u, ctx.w.cfg.RoleOf(c).members)
  }

  /** sym_calc_choice: of the cells only the members' visibility moves, the user's
      value of the choice is kept or forgotten as it should, and the pick is right. */
  ghost predicate ChoiceDone(ctx: Ctx, a: EState, z: EState, c: Sym, pick: Option<Sym>)
    requires ctx.w.cfg.RoleOf(c).Choice?
  {
    Asked(ctx, a, c) ==> ctx.MembersOnly(a, z, c) && pick == ctx.w.PickOf(ctx.u, c)
  }

  /** A choice is about to look at its members. */
  ghost predicate Asked(ctx: Ctx, a: EState, c: Sym) {
    ctx.Ask(c).ChoiceOpen(a, c) && c !in ctx.act && c !in ctx.asking
  }

  /** The members are seen, and the choice has decided about the user's value. */
  ghost predicate Answered(ctx: Ctx, a: EState, z: EState, c: Sym)
    requires ctx.w.cfg.RoleOf(c).Choice?
  {
    Asked(ctx, a, c) ==> ctx.MembersOnly(a, z, c) && ctx.ChoiceViewed(z, c)
  }

  /** After the members' visibility, the user's value of the choice may be forgotten. */
  lemma MembersReady(ctx: Ctx, a: EState, m: EState, z: EState, c: Sym, allSet: bool)
    requires ctx.w.cfg.RoleOf(c).Choice?
    requires MembersDone(ctx.Ask(c), a, m, c, |ctx.w.cfg.RoleOf(c).members|, allSet)
    requires z == if allSet then m else m.(hasUser := m.hasUser - {c})
    ensures Answered(ctx, a, z, c)
  {
    hide Ctx.ChoiceOpen, Ctx.MembersOnly, Ctx.MembersSeen, Ctx.ChoiceViewed, Ctx.SetUpTo;
    if Asked(ctx, a, c) {
      AskedAlike(ctx, m, c);
      ctx.UserForgotten(a, m, c, z.hasUser);
      assert z == m.(hasUser := z.hasUser);
      ctx.NowViewed(a, m, z, c);
    }
  }

  lemma AskedAlike(ctx: Ctx, m: EState, c: Sym)
    requires ctx.w.cfg.RoleOf(c).Choice?
    ensures var n := |ctx.w.cfg.RoleOf(c).members|;
            (ctx.Ask(c).MembersSeen(m, c, n) <==> ctx.MembersSeen(m, c, n)) &&
                (ctx.Ask(c).SetUpTo(c, n) <==> ctx.SetUpTo(c, n))
  {
    hide World.VisibleOf;
  }

  lemma PickedByUser(ctx: Ctx, a: EState, z: EState, c: Sym, pick: Sym)
    requires ctx.w.cfg.RoleOf(c).Choice? && Answered(ctx, a, z, c)
    requires (if c in z.user then z.user[c] else NO_USER).pick == Some(pick) && z.CellOf(pick).visible != NO
    ensures ChoiceDone(ctx, a, z, c, Some(pick))
  {
    hide Ctx.ChoiceOpen, Asked, Ctx.MembersOnly, Ctx.ChoiceViewed, World.VisibleOf, World.FirstDefault;
    hide World.FirstVisible;
    if Asked(ctx, a, c) {
      ctx.PickSeen(z, c);
    }
  }

  lemma PickedOtherwise(ctx: Ctx, a: EState, m: EState, z: EState, c: Sym, first: Option<Sym>, pick: Option<Sym>)
    requires ctx.w.cfg.RoleOf(c).Choice? && Answered(ctx, a, m, c)
    requires var wish := (if c in m.user then m.user[c] else NO_USER).pick; wish.Some? ==>
        m.CellOf(wish.value).visible == NO
    requires ChoiceDefaultDone(ctx, m, z, c, first)
    requires if first.Some? then pick == first else FirstSeenDone(ctx, z, c, pick)
    ensures ChoiceDone(ctx, a, z, c, pick)
  {
    hide Ctx.ChoiceOpen, Asked, Ctx.MembersOnly, Ctx.ChoiceViewed, World.VisibleOf, World.FirstDefault;
    hide World.FirstVisible;
    if Asked(ctx, a, c) {
      ctx.PickSeen(m, c);
      ctx.MembersOnlyTrans(a, m, z, c);
    }
  }

  // ----- whole values -----

  /** A marked symbol has got its value and is no longer in progress. */
  ghost predicate MarkedDone(ctx: Ctx, a: EState, z: EState, s: Sym) {
    Open(ctx, a, s) && ctx.Entered(s) ==>
      ctx.Without(s).Good(z) && ctx.FrameBut(a, z, s) && z.Curr(s) == ctx.u(s)
  }

  ghost predicate ResetDone(ctx: Ctx, a: EState, z: EState, s: Sym) {
    Open(ctx, a, s) && ctx.Entered(s) ==> ctx.Looking(z, s) && ctx.FrameBut(a, z, s)
  }

  lemma ResetNow(ctx: Ctx, a: EState, m: EState, s: Sym, val: Val)
    requires VisibilityDone(ctx, a, m, s) && s.Sym?
    ensures ResetDone(ctx, a, m.WithCell(s, m.CellOf(s).(curr := val)), s)
  {
    hide Ctx.Good, Ctx.Looking, Ctx.FrameBut, Ctx.Viewed, Ctx.ReadAll, Config.Refs, World.Step;
    if Open(ctx, a, s) && ctx.Entered(s) {
      ctx.ReadFramed(a, m, s);
      ctx.CurrWritten(a, m, s, val);
    }
  }

  ghost predicate PickingDone(ctx: Ctx, a: EState, z: EState, c: Sym) {
    ctx.Looking(a, c) && ctx.Entered(c) && a.Curr(c) == ctx.w.PlainVal(ctx.u, c) && a.Curr(c).tri == YES ==>
      ctx.Without(c).Good(z) && ctx.FrameBut(a, z, c) && z.Curr(c) == ctx.u(c)
  }

  lemma PickedNow(ctx: Ctx, a: EState, m: EState, c: Sym, pick: Option<Sym>)
    requires ctx.w.cfg.RoleOf(c).Choice? && c.Sym? && !c.Type().UnknownType? && ctx.w.cfg.Sane()
    requires ChoiceDone(ctx.AtYes(c), a, m, c, pick)
    ensures PickingDone(ctx, a, m.WithCell(c, m.CellOf(c).(curr := Val(if pick.None? then NO else YES, "n", pick))), c)
  {
    hide Ctx.Good, Ctx.Looking, Ctx.FrameBut, Ctx.MembersOnly, Ctx.ChoiceOpen, Config.Sane, World.PlainVal;
    hide World.PickOf;
    if ctx.Looking(a, c) && ctx.Entered(c) && a.Curr(c) == ctx.w.PlainVal(ctx.u, c) && a.Curr(c).tri == YES {
      ctx.w.ChoiceVal(ctx.u, c);
      ctx.ChoiceEntered(a, c);
      EnteredNotAsking(ctx, a, c);
      ctx.FrameButRefl(a, c);
      ctx.ChoiceLeft(a, a, m, c);
    }
  }

  lemma EnteredNotAsking(ctx: Ctx, a: EState, c: Sym)
    requires ctx.Looking(a, c)
    ensures c in ctx.act && c !in ctx.asking && ctx.AtYes(c).asking == ctx.asking && c !in ctx.AtYes(c).act
  {
  }

  /** A symbol that is no choice at y looks at no members. */
  lemma ForgetsNothing(ctx: Ctx, z: EState, s: Sym, val: Val)
    requires ctx.Looking(z, s) && ctx.Entered(s) && val == ctx.w.PlainVal(ctx.u, s) && !s.Type().UnknownType?
    requires !(ctx.w.cfg.RoleOf(s).Choice? && val.tri == YES)
    ensures !ctx.Looked(s)
  {
    hide World.PlainVal, World.AllSet, World.Step;
    ctx.PlainBase(s);
  }

  /** The plain value is written: a choice at y goes on to look for its member,
      any other symbol is done. */
  lemma PlainWritten(ctx: Ctx, a: EState, m: EState, z: EState, s: Sym, val: Val)
    requires ResetDone(ctx, a, m, s) && PlainDone(ctx, m, z, s, val) && s.Sym? && !s.Type().UnknownType?
    ensures var z' := z.WithCell(s, z.CellOf(s).(curr := val));
            if ctx.w.cfg.RoleOf(s).Choice? && val.tri == YES then PlainSet(ctx, a, z', s) else MarkedDone(ctx, a, z', s)
  {
    hide Ctx.Good, Ctx.Looking, Ctx.Kept, Ctx.FrameBut, Open, World.PlainVal, World.PickOf;
    if Open(ctx, a, s) && ctx.Entered(s) {
      ctx.ValueWritten(a, m, z, s, val);
      var z' := z.WithCell(s, z.CellOf(s).(curr := val));
      if !(ctx.w.cfg.RoleOf(s).Choice? && val.tri == YES) {
        ctx.LookingGood(z', s);
        ForgetsNothing(ctx, z', s, val);
        ctx.Finished(z', s);
      }
    }
  }

  ghost predicate PlainSet(ctx: Ctx, a: EState, z: EState, c: Sym) {
    Open(ctx, a, c) && ctx.Entered(c) ==>
      ctx.Looking(z, c) && ctx.FrameBut(a, z, c) && z.Curr(c) == ctx.w.PlainVal(ctx.u, c)
  }

  lemma ChoiceMarked(ctx: Ctx, a: EState, m: EState, z: EState, c: Sym)
    requires PlainSet(ctx, a, m, c) && m.Curr(c).tri == YES && PickingDone(ctx, m, z, c)
    ensures MarkedDone(ctx, a, z, c)
  {
    hide Ctx.Good, Ctx.Looking, Ctx.FrameBut, Open, World.PlainVal;
    if Open(ctx, a, c) && ctx.Entered(c) {
      ctx.FrameButTrans(a, m, z, c);
    }
  }

  lemma UntypedMarked(ctx: Ctx, a: EState, s: Sym)
    requires s.Sym? && s.Type().UnknownType?
    ensures MarkedDone(ctx, a, a.WithCell(s, a.CellOf(s).(curr := Val(NO, ctx.w.name(s), None))), s)
  {
    hide Ctx.Good, Ctx.FrameBut, Ctx.ReadAll, Config.Refs;
    if Open(ctx, a, s) && ctx.Entered(s) {
      ctx.UntypedDone(a, s);
    }
  }

  /** The start of an evaluation: of a symbol below the place the run has
      reached, or of MODULES itself. */
  ghost predicate Starting(ctx: Ctx, a: EState, s: Sym) {
    (ctx.Good(a) && s.Sym? && s !in a.valid && ctx.rank(s) < ctx.b) || (ctx.Opening(a) && s == ctx.w.cfg.modules)
  }

  /** What holds once the value of `s` is worked out, but for modules_val. */
  ghost predicate NowDone(ctx: Ctx, a: EState, z: EState, s: Sym) {
    Starting(ctx, a, s) ==>
      ctx.Good(z) && s in z.valid && s !in z.need && z.Curr(s) == ctx.u(s) &&
      (ctx.Good(a) && ctx.rank(s) < ctx.b ==> ctx.Kept(a, z) && s != ctx.w.cfg.modules)
  }

  lemma NowMarked(ctx: Ctx, a: EState, z: EState, s: Sym)
    requires MarkedDone(ctx.Enter(s), a.WithValid(s), z, s)
    ensures NowDone(ctx, a, z, s)
  {
    hide Ctx.Good, Ctx.FrameBut, Ctx.Kept, Ctx.ReadAll, Ctx.Entered, Ctx.Opening;
    if Starting(ctx, a, s) {
      ctx.StartNow(a, s);
      ctx.Ended(a, s, z);
    }
  }

  /** MODULES has got its value, and modules_val with it. */
  ghost predicate ModulesDone(ctx: Ctx, a: EState, z: EState) {
    ctx.Opening(a) ==>
      z.IsValid(ctx.w.cfg.modules) && z.modulesVal == ctx.u(ctx.w.cfg.modules).tri &&
          ctx.Good(z.(modulesVal := ctx.w.modulesVal))
  }

  lemma ModulesCommitted(ctx: Ctx, a: EState, m: EState)
    requires NowDone(ctx, a, m, ctx.w.cfg.modules) && ctx.w.cfg.modules.Sym?
    ensures var s := ctx.w.cfg.modules;
            ModulesDone(ctx, a,
                m.(modulesVal := if m.CellOf(s).curr != a.CellOf(s).curr then m.CellOf(s).curr.tri else m.modulesVal))
  {
    hide Ctx.FrameBut, Ctx.Kept, Ctx.Ready, Ctx.Settled, Ctx.UserKept, Ctx.ActiveAbove, Ctx.ModulesKnown;
    hide Ctx.MembersZero, World.SolvesBelow;
    if ctx.Opening(a) {
      assert m.(modulesVal := ctx.w.modulesVal) == m;
    }
  }

  /** An untyped MODULES is n, and modules_val stays n. */
  lemma ModulesUntyped(ctx: Ctx, a: EState, m: EState)
    requires NowDone(ctx, a, m, ctx.w.cfg.modules) && ctx.w.cfg.modules.Sym? && ctx.w.cfg.modules.Type().UnknownType?
    requires m.Curr(ctx.w.cfg.modules).tri == NO
    ensures ModulesDone(ctx, a, m)
  {
    hide Ctx.FrameBut, Ctx.Kept, Ctx.Ready, Ctx.Settled, Ctx.UserKept, Ctx.ActiveAbove, Ctx.ModulesKnown;
    hide Ctx.MembersZero;
    hide World.SolvesBelow, Ctx.Shown, Ctx.MembersAfter;
    if ctx.Opening(a) {
      assert m.(modulesVal := ctx.w.modulesVal) == m;
    }
  }

  lemma ValueNow(ctx: Ctx, a: EState, z: EState, s: Sym)
    requires s.Sym? && s !in a.valid && NowDone(ctx, a, z, s)
    ensures ValueDone(ctx, a, z, s)
  {
    hide Ctx.Good, Ctx.Kept, Ctx.Opening;
    if ctx.Good(a) && ctx.Readable(a, s) {
      ctx.ReadyValue(a, s);
    }
  }

  /** MODULES itself is only evaluated first, never from below a run. */
  lemma ModulesAlone(ctx: Ctx, a: EState, m: EState, z: EState)
    requires NowDone(ctx, a, m, ctx.w.cfg.modules) && ctx.w.cfg.modules.Sym?
    ensures ctx.w.cfg.modules !in a.valid ==> ValueDone(ctx, a, z, ctx.w.cfg.modules)
  {
    hide Ctx.Good, Ctx.Kept, Ctx.Opening;
    var s := ctx.w.cfg.modules;
    if ctx.Good(a) && ctx.Readable(a, s) && s !in a.valid {
      ctx.ReadyValue(a, s);
    }
  }

  lemma NeedNotStarted(ctx: Ctx, a: EState, m: EState, s: Sym)
    requires NowDone(ctx, a, m, s) && s in m.need
    ensures !Starting(ctx, a, s)
  {
    hide Ctx.Good, Ctx.Kept, Ctx.Opening;
  }

  lemma Unstarted(ctx: Ctx, a: EState, z: EState, s: Sym)
    requires !Starting(ctx, a, s) && s.Sym?
    ensures s !in a.valid ==> ValueDone(ctx, a, z, s)
    ensures s == ctx.w.cfg.modules ==> ModulesDone(ctx, a, z)
  {
    hide Ctx.Good, Ctx.Kept, Ctx.Opening;
    if ctx.Good(a) && ctx.Readable(a, s) {
      ctx.ReadyValue(a, s);
    }
  }

  lemma ValueCached(ctx: Ctx, a: EState, s: Sym)
    requires a.IsValid(s)
    ensures ValueDone(ctx, a, a, s)
    ensures s == ctx.w.cfg.modules ==> ModulesDone(ctx, a, a)
  {
    hide Ctx.Good, Ctx.Kept;
    if ctx.Good(a) && ctx.Readable(a, s) {
      ctx.ReadyValue(a, s);
    }
  }

  /** A pending choice is never met on a good cache. */
  lemma NotGood(ctx: Ctx, a: EState, z: EState, s: Sym)
    requires s in a.need
    ensures ValueDone(ctx, a, z, s) && ModulesDone(ctx, a, z)
  {
  }
}
