/** The lazy evaluator of symbol.c: sym_calc_value, sym_calc_visibility,
    sym_calc_choice and expr_calc_value, updating the state in place. */
module Evaluator {
  import opened Tristates
  import opened Exprs
  import opened Symbols
  import opened Sets
  import opened Valuation
  import opened EvalState
  import opened EvalContracts
  import opened Meaning

  /** The world in which a run starts; modules_val is n until MODULES is known. */
  function StartWorld(cfg: Config, compare: Compare, name: Sym -> string,
      hasUser: set<Sym>, user: map<Sym, User>): World
  {
    World(cfg, compare, name, hasUser, user, NO)
  }

  class SymTable {
    const cfg: Config
    const compare: Compare
    const name: Sym -> string
    var valid: set<Sym>
    var need: set<Sym>
    var cells: map<Sym, Cell>
    var hasUser: set<Sym>
    var user: map<Sym, User>
    var modulesVal: Tristate

    /** After the Kconfig files and .config have been read: nothing is calculated. */
    constructor (cfg: Config, compare: Compare, name: Sym -> string, hasUser: set<Sym>, user: map<Sym, User>)
      requires cfg.Sane()
      ensures Wf() && Models(StartWorld(cfg, compare, name, hasUser, user))
      ensures AtRest(StartWorld(cfg, compare, name, hasUser, user), Now())
    {
      this.cfg, this.compare, this.name := cfg, compare, name;
      this.hasUser, this.user := hasUser, user;
      valid, need, cells, modulesVal := {}, {}, map[], NO;
    }

    ghost function Now(): EState
      reads this
    {
      EState(valid, need, cells, hasUser, user, modulesVal)
    }

    ghost predicate Wf()
      reads this
    {
      cfg.Sane() && valid <= cfg.Universe() && need <= cfg.Universe()
    }

    ghost predicate Matches(ctx: Ctx) {
      ctx.w.cfg == cfg && ctx.w.compare == compare && ctx.w.name == name
    }

    ghost function Stale(): nat
      reads this
    {
      |cfg.Universe() - valid|
    }

    lemma ClosedRefs(s: Sym)
      requires cfg.Sane()
      ensures cfg.Refs(s) <= cfg.Universe()
      ensures cfg.RoleOf(s).Member? ==>
          cfg.RoleOf(s).choice in cfg.Universe() && cfg.RoleOf(cfg.RoleOf(s).choice).Choice?
      ensures cfg.RoleOf(s).Choice? ==> forall i :: 0 <= i < |cfg.RoleOf(s).members| ==>
          cfg.RoleOf(s).members[i] in cfg.Universe()
    {
      hide Config.Refs;
      var g := cfg.Graph();
      forall t | t in cfg.Refs(s)
        ensures t in cfg.Universe()
      {
        assert t in g.refs(s);
      }
      if cfg.RoleOf(s).Member? {
        assert g.MemberOf(s, cfg.RoleOf(s).choice);
        assert g.role(cfg.RoleOf(s).choice).Choice?;
      }
      if cfg.RoleOf(s).Choice? {
        assert g.role(s).Choice?;
        forall i | 0 <= i < |cfg.RoleOf(s).members|
          ensures cfg.RoleOf(s).members[i] in cfg.Universe()
        {
          assert cfg.RoleOf(s).members[i] in g.role(s).members;
        }
      }
    }

    /** What the termination order gives after one call, and after two. */
    lemma Shrunk(a: EState, z: EState)
      requires a.ShrinksTo(z)
      ensures |z.need| < |a.need| || (|z.need| == |a.need| && |cfg.Universe() - z.valid| <= |cfg.Universe() - a.valid|)
    {
      SubsetSize(z.need, a.need);
      if z.need == a.need {
        Fewer(cfg.Universe(), a.valid, z.valid);
      } else {
        var x :| x in a.need && x !in z.need;
        SubsetSize(z.need, a.need - {x});
      }
    }

    lemma Onward(a: EState, m: EState, z: EState)
      requires a.ShrinksTo(m) && m.ShrinksTo(z)
      ensures a.ShrinksTo(z)
      ensures |z.need| < |a.need| || (|z.need| == |a.need| && |cfg.Universe() - z.valid| <= |cfg.Universe() - a.valid|)
    {
      Shrunk(a, z);
    }

    // ----- single assignments -----

    method SetValid(s: Sym)
      requires Wf() && s in cfg.Universe()
      modifies this`valid
      ensures Wf() && old(Now()).ShrinksTo(Now()) && Now() == old(Now()).WithValid(s)
    {
      valid := valid + {s};
    }

    method SetCell(s: Sym, cell: Cell)
      requires Wf()
      modifies this`cells
      ensures Wf() && old(Now()).ShrinksTo(Now()) && Now() == old(Now()).WithCell(s, cell)
    {
      cells := cells[s := cell];
    }

    method ForgetUser(c: Sym)
      requires Wf()
      modifies this`hasUser
      ensures Wf() && old(Now()).ShrinksTo(Now()) && Now() == old(Now()).(hasUser := old(hasUser) - {c})
    {
      hasUser := hasUser - {c};
    }

    method ForgetNeed(s: Sym)
      requires Wf() && s in need
      modifies this`need
      ensures Wf() && |need| < old(|need|) && old(Now()).ShrinksTo(Now()) && need == old(need) - {s}
    {
      need := need - {s};
    }

    function CellAt(s: Sym): (cell: Cell)
      reads this
      ensures cell == Now().CellOf(s)
    {
      if s in cells then cells[s] else ZERO_CELL
    }

    function CurrAt(s: Sym): (val: Val)
      reads this
      ensures val == Now().Curr(s)
    {
      if s.Sym? then CellAt(s).curr else ConstVal(s)
    }

    function UserAt(s: Sym): User
      reads this
    {
      if s in user then user[s] else NO_USER
    }

    // ----- expr_calc_value -----

    method CalcExpr(e: Expr, ghost ctx: Ctx) returns (t: Tristate)
      requires Wf() && Matches(ctx) && Syms(e) <= cfg.Universe()
      modifies this
      ensures Wf() && old(Now()).ShrinksTo(Now())
      ensures ExprDone(ctx, old(Now()), Now(), e, t)
      decreases |need|, Stale(), 2, e
    {
      hide ExprDone, ValueDone, Config.Sane, Config.Universe, EState.ShrinksTo, Eval;
      ghost var a := Now();
      match e
      case ESym(s) =>
        CalcValue(s, ctx);
        t := CurrAt(s).tri;
        SymIsExpr(ctx, a, Now(), s);
      case ENot(x) =>
        var t1 := CalcExpr(x, ctx);
        t := Not(t1);
        NotExpr(ctx, a, Now(), x, t1);
      case EBin(op, l, r) =>
        t := CalcBin(op, l, r, ctx);
      case ECmp(cmp, l, r) =>
        t := CalcCmp(cmp, l, r, ctx);
    }

    method CalcBin(op: BinOp, l: Expr, r: Expr, ghost ctx: Ctx) returns (t: Tristate)
      requires Wf() && Matches(ctx) && Syms(l) <= cfg.Universe() && Syms(r) <= cfg.Universe()
      modifies this
      ensures Wf() && old(Now()).ShrinksTo(Now())
      ensures ExprDone(ctx, old(Now()), Now(), EBin(op, l, r), t)
      decreases |need|, Stale(), 2, EBin(op, l, r), 0
    {
      hide ExprDone, Config.Sane, Config.Universe, EState.ShrinksTo, Eval;
      ghost var a := Now();
      var t1 := CalcExpr(l, ctx);
      ghost var m := Now();
      Shrunk(a, m);
      var t2 := CalcExpr(r, ctx);
      t := Apply(op, t1, t2);
      Onward(a, m, Now());
      BinExpr(ctx, a, m, Now(), op, l, r, t1, t2);
    }

    /** One comparison atom: both symbols are evaluated, then their texts compared. */
    method CalcCmp(cmp: CmpOp, l: Sym, r: Sym, ghost ctx: Ctx) returns (t: Tristate)
      requires Wf() && Matches(ctx) && l in cfg.Universe() && r in cfg.Universe()
      modifies this
      ensures Wf() && old(Now()).ShrinksTo(Now())
      ensures ExprDone(ctx, old(Now()), Now(), ECmp(cmp, l, r), t)
      decreases |need|, Stale(), 1, 1
    {
      hide ExprDone, ValueDone, TextsDone, BothValid, Config.Sane, Config.Universe, EState.ShrinksTo, Eval, Ctx.ReadAll;
      hide Ctx.Kept, Ctx.Good;
      ghost var a := Now();
      CalcValue(l, ctx);
      ghost var m := Now();
      Shrunk(a, m);
      CalcValue(r, ctx);
      ghost var m1 := Now();
      Onward(a, m, m1);
      BothValues(ctx, a, m, m1, l, r);
      var x, y := CalcTexts(l, r, ctx);
      t := OfBool(Holds(cmp, compare(l.Type(), x, r.Type(), y)));
      Onward(a, m1, Now());
      CmpExpr(ctx, a, m1, Now(), cmp, l, r, x, y);
    }

    method CalcTexts(l: Sym, r: Sym, ghost ctx: Ctx) returns (x: string, y: string)
      requires Wf() && Matches(ctx)
      modifies this
      ensures Wf() && old(Now()).ShrinksTo(Now())
      ensures TextsDone(ctx, old(Now()), Now(), l, r, x, y)
      decreases |need|, Stale(), 1, 0, 1
    {
      hide TextDone, TextsDone, Config.Sane, EState.ShrinksTo;
      ghost var a := Now();
      x := CalcText(l, ctx);
      ghost var m := Now();
      Shrunk(a, m);
      y := CalcText(r, ctx);
      Onward(a, m, Now());
      BothTexts(ctx, a, m, Now(), l, r, x, y);
    }

    /** sym_get_string_value. */
    method CalcText(s: Sym, ghost ctx: Ctx) returns (text: string)
      requires Wf() && Matches(ctx)
      modifies this
      ensures Wf() && old(Now()).ShrinksTo(Now())
      ensures TextDone(ctx, old(Now()), Now(), s, text)
      decreases |need|, Stale(), 1, 0, 0
    {
      hide TextDone, ValueDone;
      ghost var a := Now();
      if !s.IsLogical() {
        TextAtOnce(ctx, a, s, CurrAt(s).str);
        return CurrAt(s).str;
      }
      match CurrAt(s).tri
      case 0 =>
        TextAtOnce(ctx, a, s, "n");
        return "n";
      case 2 =>
        TextAtOnce(ctx, a, s, "y");
        return "y";
      case _ =>
        CalcValue(cfg.modules, ctx);
        TextOfMod(ctx, a, Now(), s);
        return TristateText(MOD, CurrAt(cfg.modules).tri);
    }

    method CalcOpt(e: Option<Expr>, ghost ctx: Ctx) returns (t: Tristate)
      requires Wf() && Matches(ctx) && SymsOpt(e) <= cfg.Universe()
      modifies this
      ensures Wf() && old(Now()).ShrinksTo(Now())
      ensures OptDone(ctx, old(Now()), Now(), e, t)
      decreases |need|, Stale(), 3
    {
      hide OptDone, ExprDone, Config.Sane, Config.Universe;
      ghost var a := Now();
      if e.None? {
        NoExpr(ctx, a);
        return YES;
      }
      t := CalcExpr(e.value, ctx);
      SomeExpr(ctx, a, Now(), e.value, t);
    }

    // ----- sym_calc_visibility -----

    /** One turn of the prompt loop. */
    method CalcPrompt(s: Sym, p: Prop, ghost ctx: Ctx) returns (t: Tristate)
      requires Wf() && Matches(ctx) && p in cfg.InfoOf(s).props && p.hasText
      modifies this
      ensures Wf() && old(Now()).ShrinksTo(Now())
      ensures PromptDone(ctx, old(Now()), Now(), s, p, t)
      decreases |need|, Stale(), 4
    {
      hide OptDone, PromptDone, Config.Sane, Config.Universe, EState.ShrinksTo;
      ghost var a := Now();
      PropInside(s, p);
      t := CalcOpt(p.visible, ctx);
      OnePrompt(ctx, a, Now(), s, p, t);
      if cfg.RoleOf(s).Member? && s.IsTristate() && t == MOD && CurrAt(cfg.RoleOf(s).choice).tri == YES {
        t := NO;
      }
    }

    /** The prompt loop of sym_calc_visibility. */
    method CalcPrompts(s: Sym, ghost ctx: Ctx) returns (tri: Tristate)
      requires Wf() && Matches(ctx)
      modifies this
      ensures Wf() && old(Now()).ShrinksTo(Now())
      ensures PromptsDone(ctx, old(Now()), Now(), s, cfg.InfoOf(s).props, tri)
      decreases |need|, Stale(), 5
    {
      hide PromptsDone, PromptDone, Config.Sane, Config.Universe, EState.ShrinksTo;
      var props := cfg.InfoOf(s).props;
      ghost var a := Now();
      tri := NO;
      NoPrompts(ctx, a, s);
      Still(a);
      var i := 0;
      while i < |props|
        invariant 0 <= i <= |props|
        invariant Wf() && a.ShrinksTo(Now())
        invariant PromptsDone(ctx, a, Now(), s, props[..i], tri)
      {
        ghost var m := Now();
        Shrunk(a, m);
        assert props[..i + 1] == props[..i] + [props[i]];
        if props[i].hasText {
          var t := CalcPrompt(s, props[i], ctx);
          OneMorePrompt(ctx, a, m, Now(), s, props[..i], props[i], tri, t);
          tri := Or(tri, t);
          Onward(a, m, Now());
        } else {
          NoMorePrompt(ctx, a, m, s, props[..i], props[i], tri);
        }
        i := i + 1;
      }
      assert props[..i] == props;
    }

    lemma Still(a: EState)
      ensures a.ShrinksTo(a)
    {
    }

    lemma PropInside(s: Sym, p: Prop)
      requires cfg.Sane() && p in cfg.InfoOf(s).props
      ensures p.hasText || p.kind.DefaultProp? ==> SymsOpt(p.visible) <= cfg.Universe()
      ensures p.kind.DefaultProp? && !cfg.RoleOf(s).Choice? ==> SymsOpt(p.value) <= cfg.Universe()
    {
      hide Config.Refs;
      ClosedRefs(s);
      var props := cfg.InfoOf(s).props;
      var i :| 0 <= i < |props| && props[i] == p;
      RefsOfProps(cfg, s, props, i);
      PropsOfRefs(s);
    }

    lemma PropsOfRefs(s: Sym)
      ensures cfg.PropsRefs(s, cfg.InfoOf(s).props) <= cfg.Refs(s)
    {
    }

    /** sym_calc_visibility. */
    method CalcVisibility(s: Sym, ghost ctx: Ctx)
      requires Wf() && Matches(ctx) && s.Sym?
      modifies this
      ensures Wf() && old(Now()).ShrinksTo(Now())
      ensures VisibilityDone(ctx, old(Now()), Now(), s)
      decreases |need|, Stale(), 6
    {
      hide VisibilityDone, VisibleDone, DependenciesDone, PromptsDone, Config.Sane, EState.ShrinksTo, EState.WithCell;
      ghost var a := Now();
      var tri := CalcPrompts(s, ctx);
      ghost var m := Now();
      VisibleNow(ctx, a, m, s, tri);
      if tri == MOD && (!s.IsTristate() || modulesVal == NO) {
        tri := YES;
      }
      SetCell(s, CellAt(s).(visible := tri));
      ghost var z := Now();
      Onward(a, m, z);
      if cfg.RoleOf(s).Member? {
        MemberVisible(ctx, a, z, s);
        return;
      }
      CalcDependencies(s, ctx);
      Onward(a, z, Now());
      PlainVisible(ctx, a, z, Now(), s);
    }

    /** The second part of sym_calc_visibility, for symbols outside of choices. */
    method CalcDependencies(s: Sym, ghost ctx: Ctx)
      requires Wf() && Matches(ctx) && s.Sym? && !cfg.RoleOf(s).Member?
      modifies this
      ensures Wf() && old(Now()).ShrinksTo(Now())
      ensures DependenciesDone(ctx, old(Now()), Now(), s)
      decreases |need|, Stale(), 5
    {
      hide DependenciesDone, RoundedDone, Config.Sane, Config.Refs, EState.ShrinksTo, EState.WithCell;
      ghost var a := Now();
      DependencyRefs(s);
      var t := CalcRounded(s, cfg.InfoOf(s).dirDep, YES, ctx);
      ghost var m := Now();
      SetCell(s, CellAt(s).(dir := t));
      Onward(a, m, Now());
      ghost var z := Now();
      var t1 := CalcRounded(s, cfg.InfoOf(s).revDep, NO, ctx);
      ghost var m1 := Now();
      Onward(a, z, m1);
      SetCell(s, CellAt(s).(rev := t1));
      Onward(a, m1, Now());
      ghost var z1 := Now();
      var t2 := CalcRounded(s, cfg.InfoOf(s).implied, NO, ctx);
      ghost var m2 := Now();
      Onward(a, z1, m2);
      SetCell(s, CellAt(s).(imp := t2));
      Onward(a, m2, Now());
      AllDependencies(ctx, a, m, m1, m2, s, t, t1, t2);
    }

    /** One of the three dependencies, with m raised to y for a symbol that acts
        as a bool. */
    method CalcRounded(s: Sym, e: Option<Expr>, absent: Tristate, ghost ctx: Ctx) returns (t: Tristate)
      requires Wf() && Matches(ctx) && s.Sym? && !cfg.RoleOf(s).Member? && SymsOpt(e) <= cfg.Refs(s)
      modifies this
      ensures Wf() && old(Now()).ShrinksTo(Now())
      ensures RoundedDone(ctx, old(Now()), Now(), s, e, absent, t)
      decreases |need|, Stale(), 4
    {
      hide RoundedDone, AbsentDone, ExprDone, Config.Sane, Config.Refs, Config.Universe;
      ghost var a := Now();
      t := absent;
      ClosedRefs(s);
      if e.Some? {
        t := CalcExpr(e.value, ctx);
        PresentNow(ctx, a, Now(), s, e.value, absent, t);
      } else {
        AbsentNow(ctx, a, s, absent);
      }
      RoundedNow(ctx, a, Now(), s, e, absent, t);
      if t == MOD && (s.IsBool() || (s.IsTristate() && modulesVal == NO)) {
        t := YES;
      }
    }

    lemma DependencyRefs(s: Sym)
      requires cfg.Sane()
      ensures SymsOpt(cfg.InfoOf(s).dirDep) <= cfg.Refs(s) <= cfg.Universe()
      ensures SymsOpt(cfg.InfoOf(s).revDep) <= cfg.Refs(s) && SymsOpt(cfg.InfoOf(s).implied) <= cfg.Refs(s)
    {
      ClosedRefs(s);
    }

    // ----- values -----

    /** sym_get_default_prop, with the value of the condition it found. */
    method CalcDefault(s: Sym, ghost ctx: Ctx) returns (p: Option<Prop>, visible: Tristate)
      requires Wf() && Matches(ctx)
      modifies this
      ensures Wf() && old(Now()).ShrinksTo(Now())
      ensures p.Some? ==> p.value.kind.DefaultProp? && p.value in cfg.InfoOf(s).props
      ensures DefaultDone(ctx, old(Now()), Now(), s, p, visible)
      decreases |need|, Stale(), 4
    {
      hide DefaultDone, DefaultSought, OptDone, Config.Sane, Config.Universe, EState.ShrinksTo;
      var props := cfg.InfoOf(s).props;
      ghost var a := Now();
      SeekDefault(ctx, a, s);
      Still(a);
      p, visible := None, NO;
      var i := 0;
      assert props[0..] == props;
      while i < |props|
        invariant 0 <= i <= |props|
        invariant Wf() && a.ShrinksTo(Now())
        invariant DefaultSought(ctx, a, Now(), s, props[i..])
      {
        ghost var m := Now();
        Shrunk(a, m);
        assert props[i..][1..] == props[i + 1..] && props[i..][0] == props[i];
        if props[i].kind.DefaultProp? {
          PropInside(s, props[i]);
          visible := CalcOpt(props[i].visible, ctx);
          TryDefault(ctx, a, m, Now(), s, props[i..], visible);
          Onward(a, m, Now());
          if visible != NO {
            return Some(props[i]), visible;
          }
        } else {
          SkipDefault(ctx, a, m, s, props[i..]);
        }
        i := i + 1;
      }
      assert props[i..] == [];
      NoDefault(ctx, a, Now(), s);
      return None, NO;
    }

    /** The value of the default that applies, limited by its condition. */
    method CalcFromDefault(s: Sym, ghost ctx: Ctx) returns (t: Tristate)
      requires Wf() && Matches(ctx) && !cfg.RoleOf(s).Choice?
      modifies this
      ensures Wf() && old(Now()).ShrinksTo(Now())
      ensures FromDefaultDone(ctx, old(Now()), Now(), s, t)
      decreases |need|, Stale(), 5
    {
      hide FromDefaultDone, DefaultDone, OptDone, Config.Sane, Config.Universe, EState.ShrinksTo;
      ghost var a := Now();
      var p, visible := CalcDefault(s, ctx);
      ghost var m := Now();
      if p.None? {
        FromNone(ctx, a, m, s, visible);
        return NO;
      }
      PropInside(s, p.value);
      Shrunk(a, m);
      t := CalcOpt(p.value.value, ctx);
      Onward(a, m, Now());
      FromSome(ctx, a, m, Now(), s, p.value, visible, t);
      t := And(t, visible);
    }

    /** The default and implied value of a bool or tristate symbol. */
    method CalcDefaultTri(s: Sym, ghost ctx: Ctx) returns (t: Tristate)
      requires Wf() && Matches(ctx) && !cfg.RoleOf(s).Choice?
      modifies this
      ensures Wf() && old(Now()).ShrinksTo(Now())
      ensures DefaultTriDone(ctx, old(Now()), Now(), s, t)
      decreases |need|, Stale(), 6
    {
      hide DefaultTriDone, FromDefaultDone, Config.Sane;
      ghost var a := Now();
      t := CalcFromDefault(s, ctx);
      WithImplied(ctx, a, Now(), s, t);
      if CellAt(s).imp != NO {
        t := And(Or(t, CellAt(s).imp), CellAt(s).dir);
      }
    }

    /** The user's value if there is one to use, else the default. */
    method CalcWanted(s: Sym, ghost ctx: Ctx) returns (t: Tristate)
      requires Wf() && Matches(ctx)
      modifies this
      ensures Wf() && old(Now()).ShrinksTo(Now())
      ensures WantedDone(ctx, old(Now()), Now(), s, t)
      decreases |need|, Stale(), 7
    {
      hide WantedDone, DefaultTriDone, Config.Sane;
      ghost var a := Now();
      if CellAt(s).visible != NO && s in hasUser {
        WantedByUser(ctx, a, s);
        return And(UserAt(s).tri, CellAt(s).visible);
      }
      t := NO;
      if !cfg.RoleOf(s).Choice? {
        t := CalcDefaultTri(s, ctx);
      }
      WantedByDefault(ctx, a, Now(), s, t);
    }

    /** sym_get_type says S_BOOLEAN. */
    predicate ActsBool(s: Sym)
      reads this
    {
      s.IsBool() || (s.IsTristate() && ((cfg.RoleOf(s).Member? && CellAt(s).visible == YES) || modulesVal == NO))
    }

    /** The switch of sym_calc_value for bool and tristate symbols. */
    method CalcLogical(s: Sym, ghost ctx: Ctx) returns (t: Tristate)
      requires Wf() && Matches(ctx)
      modifies this
      ensures Wf() && old(Now()).ShrinksTo(Now())
      ensures LogicalDone(ctx, old(Now()), Now(), s, t)
      decreases |need|, Stale(), 8
    {
      hide LogicalDone, WantedDone, Config.Sane;
      ghost var a := Now();
      if cfg.RoleOf(s).Member? && CellAt(s).visible == YES {
        t := OfBool(CurrAt(cfg.RoleOf(s).choice).pick == Some(s));
        MemberLogical(ctx, a, s);
      } else {
        var wanted := CalcWanted(s, ctx);
        t := if CellAt(s).dir == NO && CellAt(s).rev != NO then NO else Or(wanted, CellAt(s).rev);
        SelectedLogical(ctx, a, Now(), s, wanted);
      }
      if t == MOD && ActsBool(s) {
        t := YES;
      }
    }

    /** The switch of sym_calc_value for string, int and hex symbols. */
    method CalcString(s: Sym, ghost ctx: Ctx) returns (val: Val)
      requires Wf() && Matches(ctx) && !s.IsLogical() && !s.Type().UnknownType?
      modifies this
      ensures Wf() && old(Now()).ShrinksTo(Now())
      ensures StringDone(ctx, old(Now()), Now(), s, val)
      decreases |need|, Stale(), 8
    {
      hide StringDone, DefaultDone, ValueDone, Config.Universe, EState.ShrinksTo, Config.Graph;
      ghost var a := Now();
      if CellAt(s).visible != NO && s in hasUser {
        StringByUser(ctx, a, s);
        Still(a);
        return Val(NO, UserAt(s).str, None);
      }
      var p, visible := CalcDefault(s, ctx);
      ghost var m := Now();
      if p.None? || PropSymbol(p.value).None? {
        StringByNone(ctx, a, m, s, p, visible);
        return Val(NO, "", None);
      }
      var ds := PropSymbol(p.value).value;
      PropInside(s, p.value);
      Shrunk(a, m);
      CalcValue(ds, ctx);
      Onward(a, m, Now());
      StringByDefault(ctx, a, m, Now(), s, p.value, visible, ds);
      val := Val(NO, CurrAt(ds).str, None);
    }

    /** The switch of sym_calc_value. */
    method CalcPlain(s: Sym, ghost ctx: Ctx) returns (val: Val)
      requires Wf() && Matches(ctx) && !s.Type().UnknownType?
      modifies this
      ensures Wf() && old(Now()).ShrinksTo(Now())
      ensures PlainDone(ctx, old(Now()), Now(), s, val)
      decreases |need|, Stale(), 9
    {
      hide PlainDone, LogicalDone, StringDone, Config.Sane;
      ghost var a := Now();
      if s.IsLogical() {
        var t := CalcLogical(s, ctx);
        val := Val(t, "n", None);
        PlainLogical(ctx, a, Now(), s, t);
      } else {
        val := CalcString(s, ctx);
        PlainString(ctx, a, Now(), s, val);
      }
    }

    // ----- sym_calc_choice -----

    /** Calculates the visibility of all members; the result says whether every
        visible one has a value from the user. */
    method CalcMembers(c: Sym, ghost ctx: Ctx) returns (allSet: bool)
      requires Wf() && Matches(ctx) && cfg.RoleOf(c).Choice?
      modifies this
      ensures Wf() && old(Now()).ShrinksTo(Now())
      ensures MembersDone(ctx, old(Now()), Now(), c, |cfg.RoleOf(c).members|, allSet)
      decreases |need|, Stale(), 8
    {
      hide MembersDone, VisibilityDone, Config.Sane, EState.ShrinksTo;
      var members := cfg.RoleOf(c).members;
      ghost var a := Now();
      NoMembers(ctx, a, c);
      Still(a);
      allSet := true;
      var i := 0;
      while i < |members|
        invariant 0 <= i <= |members|
        invariant Wf() && a.ShrinksTo(Now())
        invariant MembersDone(ctx, a, Now(), c, i, allSet)
      {
        ghost var m := Now();
        Shrunk(a, m);
        MemberIsSymbol(c, i);
        CalcVisibility(members[i], ctx);
        OneMoreMember(ctx, a, m, Now(), c, i, allSet);
        Onward(a, m, Now());
        if CellAt(members[i]).visible != NO && members[i] !in hasUser {
          allSet := false;
        }
        i := i + 1;
      }
    }

    lemma MemberIsSymbol(c: Sym, i: nat)
      requires cfg.Sane() && cfg.RoleOf(c).Choice? && i < |cfg.RoleOf(c).members|
      ensures cfg.RoleOf(c).members[i].Sym?
    {
      var m := cfg.RoleOf(c).members[i];
      assert m in cfg.Graph().role(c).members;
      assert cfg.Graph().MemberOf(m, c);
    }

    /** sym_choice_default, first part: the first default of the choice that
        applies and is visible. */
    method CalcChoiceDefault(c: Sym, ghost ctx: Ctx) returns (pick: Option<Sym>)
      requires Wf() && Matches(ctx) && cfg.RoleOf(c).Choice?
      modifies this
      ensures Wf() && old(Now()).ShrinksTo(Now())
      ensures ChoiceDefaultDone(ctx, old(Now()), Now(), c, pick)
      decreases |need|, Stale(), 8
    {
      hide ChoiceDefaultDone, ChoiceSought, OptDone, Config.Sane, Config.Universe, EState.ShrinksTo;
      var props := cfg.InfoOf(c).props;
      ghost var a := Now();
      SeekChoice(ctx, a, c);
      Still(a);
      var i := 0;
      assert props[0..] == props;
      while i < |props|
        invariant 0 <= i <= |props|
        invariant Wf() && a.ShrinksTo(Now())
        invariant ChoiceSought(ctx, a, Now(), c, props[i..])
      {
        ghost var m := Now();
        Shrunk(a, m);
        assert props[i..][1..] == props[i + 1..] && props[i..][0] == props[i];
        if props[i].kind.DefaultProp? {
          PropInside(c, props[i]);
          var t := CalcOpt(props[i].visible, ctx);
          TryChoice(ctx, a, m, Now(), c, props[i..], t);
          Onward(a, m, Now());
          if t != NO && PropSymbol(props[i]).Some? && CellAt(PropSymbol(props[i]).value).visible != NO {
            return PropSymbol(props[i]);
          }
        } else {
          SkipChoice(ctx, a, m, c, props[i..]);
        }
        i := i + 1;
      }
      assert props[i..] == [];
      NoChoiceDefault(ctx, a, Now(), c);
      return None;
    }

    /** sym_choice_default, second part: the first visible member. */
    method FirstSeen(c: Sym, ghost ctx: Ctx) returns (pick: Option<Sym>)
      requires Matches(ctx) && cfg.RoleOf(c).Choice?
      ensures FirstSeenDone(ctx, Now(), c, pick)
    {
      hide Ctx.ChoiceOpen, World.VisibleOf;
      var members := cfg.RoleOf(c).members;
      var i := 0;
      assert members[0..] == members;
      while i < |members|
        invariant 0 <= i <= |members|
        invariant ctx.ChoiceViewed(Now(), c) ==>
            ctx.w.FirstVisible(ctx.u, members) == ctx.w.FirstVisible(ctx.u, members[i..])
      {
        assert members[i..][1..] == members[i + 1..];
        if CellAt(members[i]).visible != NO {
          return Some(members[i]);
        }
        i := i + 1;
      }
      return None;
    }

    /** sym_calc_choice. */
    method CalcChoice(c: Sym, ghost ctx: Ctx) returns (pick: Option<Sym>)
      requires Wf() && Matches(ctx) && cfg.RoleOf(c).Choice?
      modifies this
      ensures Wf() && old(Now()).ShrinksTo(Now())
      ensures ChoiceDone(ctx, old(Now()), Now(), c, pick)
      decreases |need|, Stale(), 9
    {
      hide ChoiceDone, Asked, Answered, MembersDone, ChoiceDefaultDone, FirstSeenDone, Ctx.ChoiceOpen, Ctx.MembersOnly;
      hide Ctx.ChoiceViewed, Config.Sane, EState.ShrinksTo;
      ghost var a := Now();
      var allSet := CalcMembers(c, ctx.Ask(c));
      ghost var m := Now();
      Still(m);
      if !allSet {
        ForgetUser(c);
      }
      ghost var m1 := Now();
      MembersReady(ctx, a, m, m1, c, allSet);
      Onward(a, m, m1);
      var wish := UserAt(c).pick;
      if wish.Some? && CellAt(wish.value).visible != NO {
        PickedByUser(ctx, a, m1, c, wish.value);
        return wish;
      }
      var first := CalcChoiceDefault(c, ctx);
      Onward(a, m1, Now());
      pick := first;
      if first.None? {
        pick := FirstSeen(c, ctx);
      }
      PickedOtherwise(ctx, a, m1, Now(), c, first, pick);
    }

    // ----- sym_calc_value -----

    /** Calculates the visibility of a symbol in progress and sets the value that
        a recursive reference would see. */
    method ResetValue(s: Sym, ghost ctx: Ctx)
      requires Wf() && Matches(ctx) && s.Sym?
      modifies this
      ensures Wf() && old(Now()).ShrinksTo(Now())
      ensures ResetDone(ctx, old(Now()), Now(), s)
      decreases |need|, Stale(), 7
    {
      hide ResetDone, VisibilityDone, Config.Sane, EState.ShrinksTo, EState.WithCell;
      ghost var a := Now();
      CalcVisibility(s, ctx);
      ghost var m := Now();
      var val := Val(NO, if s.IsLogical() then "n" else "", None);
      SetCell(s, CellAt(s).(curr := val));
      ResetNow(ctx, a, m, s, val);
      Onward(a, m, Now());
    }

    /** The end of sym_calc_value for a choice at y. */
    method PickMember(c: Sym, ghost ctx: Ctx)
      requires Wf() && Matches(ctx) && cfg.RoleOf(c).Choice? && c.Sym? && !c.Type().UnknownType?
      modifies this
      ensures Wf() && old(Now()).ShrinksTo(Now())
      ensures PickingDone(ctx, old(Now()), Now(), c)
      decreases |need|, Stale(), 10
    {
      hide PickingDone, ChoiceDone, Config.Sane, EState.ShrinksTo, EState.WithCell;
      ghost var a := Now();
      var pick := CalcChoice(c, ctx.AtYes(c));
      ghost var m := Now();
      SetCell(c, CellAt(c).(curr := Val(if pick.None? then NO else YES, "n", pick)));
      PickedNow(ctx, a, m, c, pick);
      Onward(a, m, Now());
    }

    /** The part of sym_calc_value that works out the value of a marked symbol. */
    method CalcMarked(s: Sym, ghost ctx: Ctx)
      requires Wf() && Matches(ctx) && s.Sym? && !s.Type().UnknownType?
      modifies this
      ensures Wf() && old(Now()).ShrinksTo(Now())
      ensures MarkedDone(ctx, old(Now()), Now(), s)
      decreases |need|, Stale(), 11
    {
      hide MarkedDone, ResetDone, PlainDone, PlainSet, PickingDone, Config.Sane, EState.ShrinksTo, EState.WithCell;
      ghost var a := Now();
      ResetValue(s, ctx);
      ghost var m := Now();
      Shrunk(a, m);
      var val := CalcPlain(s, ctx);
      ghost var m1 := Now();
      Onward(a, m, m1);
      SetCell(s, CellAt(s).(curr := val));
      ghost var m2 := Now();
      Onward(a, m1, m2);
      PlainWritten(ctx, a, m, m1, s, val);
      if cfg.RoleOf(s).Choice? && val.tri == YES {
        WrittenCurr(m1, s, val);
        PickMember(s, ctx);
        Onward(a, m2, Now());
        ChoiceMarked(ctx, a, m2, Now(), s);
      }
    }

    lemma WrittenCurr(a: EState, s: Sym, val: Val)
      requires s.Sym?
      ensures a.WithCell(s, a.CellOf(s).(curr := val)).Curr(s) == val
    {
    }

    /** A new value of MODULES is copied to modules_val. */
    method CommitModules(s: Sym, before: Val)
      requires Wf()
      modifies this`modulesVal
      ensures Wf() && old(Now()).ShrinksTo(Now())
      ensures s != cfg.modules ==> Now() == old(Now())
      ensures s == cfg.modules ==>
        var curr := old(Now()).CellOf(s).curr;
        Now() == old(Now()).(modulesVal := if curr != before then curr.tri else old(modulesVal))
    {
      if CellAt(s).curr != before {
        if s == cfg.modules {
          modulesVal := CellAt(s).curr.tri;
        }
      }
    }

    /** set_all_choice_values: members without a value from the user are set to n,
        and the choice is to be calculated again. */
    method SetAllChoiceValues(c: Sym)
      requires cfg.RoleOf(c).Choice? && Wf() && c in need
      modifies this`user, this`hasUser, this`valid, this`need
      ensures Wf() && old(Now()).ShrinksTo(Now())
      ensures hasUser == old(hasUser) + {c} && valid == old(valid) - {c} && need == old(need) - {c}
      ensures forall s :: s in cfg.RoleOf(c).members && s !in old(hasUser) ==> UserAt(s) == old(UserAt(s)).(tri := NO)
      ensures forall s :: !(s in cfg.RoleOf(c).members && s !in old(hasUser)) ==> UserAt(s) == old(UserAt(s))
    {
      var members := cfg.RoleOf(c).members;
      var i := 0;
      while i < |members|
        invariant 0 <= i <= |members|
        invariant hasUser == old(hasUser) && valid == old(valid) && need == old(need)
        invariant forall s :: s in members[..i] && s !in old(hasUser) ==> UserAt(s) == old(UserAt(s)).(tri := NO)
        invariant forall s :: !(s in members[..i] && s !in old(hasUser)) ==> UserAt(s) == old(UserAt(s))
      {
        if members[i] !in hasUser {
          user := user[members[i] := UserAt(members[i]).(tri := NO)];
        }
        i := i + 1;
      }
      hasUser := hasUser + {c};
      valid := valid - {c};
      need := need - {c};
    }

    /** A marked symbol without a type gets its name as value, and no more is done. */
    method CalcUntyped(s: Sym, ghost a: EState, ghost ctx: Ctx)
      requires Wf() && Matches(ctx) && s.Sym? && s.Type().UnknownType? && Now() == a.WithValid(s)
      modifies this`cells
      ensures Wf() && old(Now()).ShrinksTo(Now())
      ensures s !in a.valid ==> ValueDone(ctx, a, Now(), s)
      ensures s == cfg.modules ==> ModulesDone(ctx, a, Now())
    {
      hide ValueDone, NowDone, MarkedDone, ModulesDone, Config.Sane, EState.ShrinksTo, EState.WithCell;
      hide EState.WithValid;
      ghost var a1 := Now();
      var val := Val(NO, name(s), None);
      SetCell(s, CellAt(s).(curr := val));
      ghost var z := Now();
      UntypedMarked(ctx.Enter(s), a1, s);
      WrittenCurr(a1, s, val);
      NowMarked(ctx, a, z, s);
      if s == cfg.modules {
        ModulesUntyped(ctx, a, z);
        ModulesAlone(ctx, a, z, z);
      } else if s !in a.valid {
        ValueNow(ctx, a, z, s);
      }
    }

    /** sym_calc_value from the point where the symbol is marked up to date. */
    method CalcNow(s: Sym, ghost ctx: Ctx)
      requires Wf() && Matches(ctx) && s.Sym? && s in cfg.Universe()
      modifies this
      ensures Wf() && old(Now()).ShrinksTo(Now())
      ensures s !in old(valid) ==> ValueDone(ctx, old(Now()), Now(), s)
      ensures s == cfg.modules ==> ModulesDone(ctx, old(Now()), Now())
      decreases |need|, |cfg.Universe() - (valid + {s})|, 12
    {
      hide ValueDone, NowDone, MarkedDone, ModulesDone, Config.Sane, EState.ShrinksTo;
      ghost var a := Now();
      var before := CellAt(s).curr;
      SetValid(s);
      ghost var a1 := Now();
      if s.Type().UnknownType? {
        CalcUntyped(s, a, ctx);
        Onward(a, a1, Now());
        return;
      }
      CalcMarked(s, ctx.Enter(s));
      ghost var m := Now();
      Onward(a, a1, m);
      NowMarked(ctx, a, m, s);
      CommitModules(s, before);
      ghost var z := Now();
      Onward(a, m, z);
      if s == cfg.modules {
        ModulesCommitted(ctx, a, m);
        ModulesAlone(ctx, a, m, z);
      } else if s !in a.valid {
        ValueNow(ctx, a, m, s);
      }
      if cfg.RoleOf(s).Choice? && s in need {
        SetAllChoiceValues(s);
        Onward(a, z, Now());
        NeedNotStarted(ctx, a, m, s);
        Unstarted(ctx, a, Now(), s);
      }
    }

    /** sym_calc_value. */
    method CalcValue(s: Sym, ghost ctx: Ctx)
      requires Wf() && Matches(ctx) && s in cfg.Universe()
      modifies this
      ensures Wf() && old(Now()).ShrinksTo(Now())
      ensures ValueDone(ctx, old(Now()), Now(), s)
      ensures s == cfg.modules ==> ModulesDone(ctx, old(Now()), Now())
      decreases |need|, Stale(), 0
    {
      hide ValueDone, ModulesDone, Config.Sane, EState.ShrinksTo;
      ghost var a := Now();
      if !s.Sym? || s in valid {
        ValueCached(ctx, a, s);
        Still(a);
        return;
      }
      if cfg.RoleOf(s).Member? && s in need {
        ForgetNeed(s);
        ghost var m := Now();
        ClosedRefs(s);
        CalcValue(cfg.RoleOf(s).choice, ctx);
        Shrunk(m, Now());
        Onward(a, m, Now());
        ghost var m1 := Now();
        CalcNow(s, ctx);
        Onward(a, m1, Now());
        NotGood(ctx, a, Now(), s);
        return;
      }
      FewerBy(cfg.Universe(), valid, valid + {s}, s);
      CalcNow(s, ctx);
    }

    // ----- whole runs -----

    ghost predicate Models(w: World) {
      w.cfg == cfg && w.compare == compare && w.name == name
    }

    /** sym_clear_all_valid: afterwards the cache agrees with the meaning. */
    method ClearAllValid(ghost w: World, ghost rank: Sym -> nat, ghost v: Sym -> Val)
      requires Wf() && Models(w) && Ordered(w, rank) && IsMeaning(w, v) && AtRest(w, Now())
      modifies this
      ensures Wf() && UpToDate(w, rank, v, Now())
    {
      hide Config.Sane, Ordered, IsMeaning, UpToDate, ModulesDone, ValueDone;
      valid := {};
      ghost var a := Now();
      ModulesInside();
      CalcValue(cfg.modules, if cfg.modules.Sym? then First(w, rank, v, a)
          else Final(w, rank, v, rank(cfg.modules) + 1));
      if cfg.modules.Sym? {
        NowUpToDate(w, rank, v, a, Now());
      } else {
        UpToDateAtOnce(w, rank, v, a);
        StaysUpToDate(w, rank, v, a, Now(), cfg.modules);
      }
    }

    lemma ModulesInside()
      requires cfg.Sane()
      ensures cfg.modules in cfg.Universe()
    {
    }

    /** Evaluating any one symbol gives its value and keeps the cache right. */
    method Evaluate(s: Sym, ghost w: World, ghost rank: Sym -> nat, ghost v: Sym -> Val) returns (val: Val)
      requires Wf() && Models(w) && UpToDate(w, rank, v, Now()) && s in cfg.Universe()
      modifies this
      ensures Wf() && UpToDate(w, rank, v, Now()) && val == v(s) && Now().IsValid(s) && old(valid) <= valid
    {
      hide Config.Sane, UpToDate, ValueDone;
      ghost var a := Now();
      CalcValue(s, Final(w, rank, v, rank(s) + 1));
      StaysUpToDate(w, rank, v, a, Now(), s);
      val := CurrAt(s);
    }

    /** One evaluation after the other. */
    method EvaluateEach(order: seq<Sym>, ghost w: World, ghost rank: Sym -> nat,
        ghost v: Sym -> Val) returns (vals: seq<Val>)
      requires Wf() && Models(w) && UpToDate(w, rank, v, Now())
      requires forall s :: s in order ==> s in cfg.Universe()
      modifies this
      ensures Wf() && UpToDate(w, rank, v, Now()) && Now().AllValid(set s | s in order)
      ensures |vals| == |order| && forall i :: 0 <= i < |order| ==> vals[i] == v(order[i])
    {
      hide Config.Sane, UpToDate;
      vals := [];
      var i := 0;
      while i < |order|
        invariant 0 <= i <= |order| && |vals| == i
        invariant Wf() && UpToDate(w, rank, v, Now())
        invariant forall j :: 0 <= j < i ==> vals[j] == v(order[j]) && Now().IsValid(order[j])
      {
        var val := Evaluate(order[i], w, rank, v);
        vals := vals + [val];
        i := i + 1;
      }
    }

    /** Whatever the order of the calls, every call gives the value of the
        plain definition. */
    method EvaluateAll(order: seq<Sym>, ghost w: World, ghost rank: Sym -> nat,
        ghost v: Sym -> Val) returns (vals: seq<Val>)
      requires Wf() && Models(w) && Ordered(w, rank) && IsMeaning(w, v) && AtRest(w, Now())
      requires forall s :: s in order ==> s in cfg.Universe()
      modifies this
      ensures Wf() && UpToDate(w, rank, v, Now()) && Now().AllValid(set s | s in order)
      ensures |vals| == |order| && forall i :: 0 <= i < |order| ==> vals[i] == v(order[i])
    {
      hide Config.Sane, Ordered, IsMeaning, UpToDate, AtRest;
      ClearAllValid(w, rank, v);
      vals := EvaluateEach(order, w, rank, v);
    }

    /** Everything is evaluated, the flags are cleared, and everything is evaluated
        again: the second run gives the values of the first exactly if each choice
        that forgets the user's value is made y by its reverse dependency alone. */
    method EvaluateTwice(order: seq<Sym>, ghost w: World, ghost rank: Sym -> nat, ghost v: Sym -> Val)
      returns (first: seq<Val>, second: seq<Val>, ghost v': Sym -> Val)
      requires Wf() && Models(w) && UpToDate(w, rank, v, Now())
      requires forall s :: s in order <==> s in cfg.Universe()
      modifies this
      ensures Wf() && |first| == |second| == |order|
      ensures forall i :: 0 <= i < |order| ==> first[i] == v(order[i]) && second[i] == v'(order[i])
      ensures (forall t: Sym :: v'(t) == v(t)) <==>
        forall c: Sym :: c in w.hasUser && Settling(w, v).Forgets(v, c) ==> Settling(w, v).RevOf(v, c) == YES
    {
      hide Config.Sane, Ordered, IsMeaning, UpToDate, AtRest, World.Forgets, World.RevOf;
      first := EvaluateEach(order, w, rank, v);
      ghost var a := Now();
      UpToDateRests(w, rank, v, a);
      v' := MeaningExists(Present(w, a), rank);
      EvaluatedAgain(w, rank, v, v', a);
      AllForgotten(w, rank, v, a, order);
      second := EvaluateAll(order, Present(w, a), rank, v');
    }

    lemma ChoiceInside(c: Sym)
      requires cfg.Sane() && cfg.RoleOf(c).Choice?
      ensures c.Sym? && c in cfg.Universe()
    {
    }

    lemma AllForgotten(w: World, rank: Sym -> nat, v: Sym -> Val, a: EState, order: seq<Sym>)
      requires Models(w) && UpToDate(w, rank, v, a) && a.AllValid(set s | s in order) && cfg.Sane()
      requires forall s :: s in order <==> s in cfg.Universe()
      ensures forall c: Sym :: c in w.hasUser && c !in a.hasUser <==> c in w.hasUser && Settling(w, v).Forgets(v, c)
    {
      hide UpToDate, Config.Sane;
      UsersKept(w, rank, v, a);
      forall c: Sym | Settling(w, v).Forgets(v, c)
        ensures c in a.valid
      {
        ChoiceInside(c);
        assert c in (set s | s in order);
        assert a.IsValid(c);
      }
    }

    /** The cell of `s` shows its visibility and its reverse dependency. */
    ghost predicate Shows(w: World, v: Sym -> Val, s: Sym)
      reads this
    {
      CellAt(s).visible == Settling(w, v).VisibleOf(v, s) && CellAt(s).rev == Settling(w, v).RevOf(v, s)
    }

    /** sym_tristate_within_range. */
    method TristateWithinRange(s: Sym, val: Tristate, ghost w: World, ghost v: Sym -> Val) returns (ok: bool)
      requires Models(w) && (s.IsLogical() ==> Shows(w, v, s)) && modulesVal == v(w.cfg.modules).tri
      ensures ok == InRange(Settling(w, v), v, s, val)
    {
      hide World.VisibleOf, World.RevOf;
      var visible, rev := CellAt(s).visible, CellAt(s).rev;
      if visible == NO || !s.IsLogical() || (ActsBool(s) && val == MOD) || visible <= rev {
        return false;
      }
      if cfg.RoleOf(s).Member? && visible == YES {
        return val == YES;
      }
      return rev <= val <= visible;
    }

    /** The visible members of a choice have a user value from now on. */
    method FlagMembers(members: seq<Sym>)
      requires Wf()
      modifies this`hasUser
      ensures Wf() && hasUser == old(hasUser) + (set m | m in members && Now().CellOf(m).visible != NO)
    {
      var i := 0;
      while i < |members|
        invariant 0 <= i <= |members|
        invariant hasUser == old(hasUser) + (set m | m in members[..i] && CellAt(m).visible != NO)
      {
        assert members[..i + 1] == members[..i] + [members[i]];
        if CellAt(members[i]).visible != NO {
          hasUser := hasUser + {members[i]};
        }
        i := i + 1;
      }
      assert members[..i] == members;
    }

    /** A choice gets its new pick, and a user value together with its visible members. */
    method PickByUser(c: Sym, s: Sym)
      requires Wf() && cfg.RoleOf(c).Choice?
      modifies this`hasUser, this`user
      ensures Wf() && Now() == Picked(cfg, old(Now()), c, s)
    {
      user := user[c := UserAt(c).(pick := Some(s))];
      hasUser := hasUser + {c};
      ghost var a := Now();
      FlagMembers(cfg.RoleOf(c).members);
      assert forall m :: Now().CellOf(m) == a.CellOf(m);
    }

    /** The flags and values that sym_set_tristate_value stores. */
    method StoreUser(s: Sym, val: Tristate)
      requires Wf()
      modifies this`hasUser, this`user
      ensures Wf() && Now() == Stored(cfg, old(Now()), s, val)
    {
      hide Picked;
      hasUser := hasUser + {s};
      if PicksMember(cfg, s, val) {
        PickByUser(cfg.RoleOf(s).choice, s);
      }
      user := user[s := UserAt(s).(tri := val)];
    }

    /** sym_set_tristate_value: a refused value changes nothing. A new value is
        stored, and everything is evaluated again; it comes out unless a select
        forces the symbol against its own dependencies, provided that the choices
        that have forgotten the user's value keep their own. The value that the
        symbol already has is only stored. */
    method SetTristateValue(s: Sym, val: Tristate, ghost w: World, ghost rank: Sym -> nat, ghost v: Sym -> Val)
      returns (ok: bool, ghost v': Sym -> Val)
      requires Wf() && Models(w) && UpToDate(w, rank, v, Now())
      requires s.Sym? && s in valid && rank(s) > rank(cfg.modules)
      modifies this
      ensures Wf() && ok == (v(s).tri == val || InRange(Settling(w, v), v, s, val))
      ensures !ok ==> Now() == old(Now())
      ensures ok && v(s).tri != val ==>
        UpToDate(Present(w, Stored(cfg, old(Now()), s, val)), rank, v', Now()) &&
        Comes(Settling(w, v), v, rank, old(hasUser), v', s, val)
      ensures ok && val == YES ==>
        forall c, m :: SetWith(cfg, old(Now()), c, s, m) && m != c ==> m in hasUser
      ensures ok && val == YES && v(s).tri != YES && PicksAtYes(Settling(w, v), v, rank, old(hasUser), s) ==>
        var c := cfg.RoleOf(s).choice;
        c in hasUser && !Settling(Present(w, Stored(cfg, old(Now()), s, val)), v').Forgets(v', c)
      ensures v(s).tri == val ==>
        Now() == Stored(cfg, old(Now()), s, val) && Ordered(Present(w, Now()), rank) && AtRest(Present(w, Now()), Now())
      ensures v(s).tri == val && s.IsLogical() && cfg.RoleOf(s).Plain? ==>
        (UpToDate(WithOwn(w, v, s), rank, v, Now()) <==> OwnValueHolds(Settling(w, v), v, s))
    {
      hide Config.Sane, UpToDate, InRange, Ordered, IsMeaning, AtRest, Config.Graph, Comes, Stored, OwnValueHolds;
      v' := v;
      UpToDateParts(w, rank, v, s);
      var current := CurrAt(s).tri;
      if current != val {
        ok := TristateWithinRange(s, val, w, v);
        if !ok {
          return;
        }
      }
      ok := true;
      ghost var a := Now();
      StoreUser(s, val);
      StoredRests(w, rank, v, a, s, val);
      if current != val {
        ghost var w' := Present(w, Stored(cfg, a, s, val));
        v' := MeaningExists(w', rank);
        ClearAllValid(w', rank, v');
        AcceptedValue(w, rank, v, v', a, s, val);
        if val == YES {
          MembersKept(w, rank, v, v', a, Now(), s);
        }
      } else if s.IsLogical() && cfg.RoleOf(s).Plain? {
        OwnValue(w, rank, v, a, s);
      }
      MembersFlagged(a, s, val);
    }

    /** The members that the choice sees are among the stored user values. */
    lemma MembersFlagged(a: EState, s: Sym, val: Tristate)
      ensures val == YES ==> forall c, m :: SetWith(cfg, a, c, s, m) ==> m in Stored(cfg, a, s, val).hasUser
    {
      hide Stored;
      StoredExactly(cfg, a, s, val);
    }

    lemma UpToDateParts(w: World, rank: Sym -> nat, v: Sym -> Val, s: Sym)
      requires UpToDate(w, rank, v, Now()) && Now().IsValid(s)
      ensures Now().Curr(s) == v(s) && modulesVal == v(w.cfg.modules).tri && Ordered(w, rank) && IsMeaning(w, v)
      ensures s.Sym? && s.IsLogical() ==> Shows(w, v, s)
    {
      hide Ordered, IsMeaning, Ctx.Ready, World.SolvesBelow, World.VisibleOf, World.DirOf, World.RevOf;
      if s.Sym? && s.IsLogical() {
        assert Final(w, rank, v, 0).ShownAt(Now(), s);
      }
    }
  }
}
