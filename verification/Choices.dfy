/** A bool choice at y: exactly one of its members is y, and it is the one that
    sym_calc_choice is meant to find. */
module Choices {
  import opened Tristates
  import opened Exprs
  import opened Symbols
  import opened Valuation

  /** The two assignments show every symbol with the same tristate and text. */
  ghost predicate Looks(v: Sym -> Val, v': Sym -> Val) {
    forall t: Sym :: v(t).tri == v'(t).tri && v(t).str == v'(t).str
  }

  lemma EvalLooks(w: World, v: Sym -> Val, v': Sym -> Val, e: Expr)
    requires Looks(v, v')
    ensures Eval(e, w.EnvOf(v)) == Eval(e, w.EnvOf(v'))
  {
    forall s, t | s in Syms(e) && t in Syms(e)
      ensures w.EnvOf(v).order(s, t) == w.EnvOf(v').order(s, t)
    {
      assert w.Text(v, s) == w.Text(v', s) && w.Text(v, t) == w.Text(v', t);
    }
    EvalLocal(e, w.EnvOf(v), w.EnvOf(v'));
  }

  lemma {:induction false} PromptsLook(w: World, v: Sym -> Val, v': Sym -> Val, s: Sym, props: seq<Prop>)
    requires Looks(v, v')
    ensures w.PromptsTri(v, s, props) == w.PromptsTri(v', s, props)
  {
    hide World.EnvOf;
    if props != [] {
      PromptsLook(w, v, v', s, props[..|props| - 1]);
      var p := props[|props| - 1];
      if p.visible.Some? {
        EvalLooks(w, v, v', p.visible.value);
      }
    }
  }

  /** A choice at y sees its members as everyone does. */
  lemma AtYesLooks(w: World, v: Sym -> Val, c: Sym, s: Sym)
    requires v(c).tri == YES && v(c).str == "n"
    ensures w.VisibleOf(w.AtYes(v, c), s) == w.VisibleOf(v, s)
  {
    PromptsLook(w, w.AtYes(v, c), v, s, w.cfg.InfoOf(s).props);
  }

  lemma {:induction false} DefaultLooks(w: World, v: Sym -> Val, v': Sym -> Val, props: seq<Prop>)
    requires Looks(v, v')
    ensures w.FirstDefault(v, props) == w.FirstDefault(v', props)
  {
    hide World.EnvOf;
    if props != [] {
      var p := props[0];
      if p.visible.Some? {
        EvalLooks(w, v, v', p.visible.value);
      }
      if PropSymbol(p).Some? {
        PromptsLook(w, v, v', PropSymbol(p).value, w.cfg.InfoOf(PropSymbol(p).value).props);
      }
      DefaultLooks(w, v, v', props[1..]);
    }
  }

  lemma {:induction false} FirstLooks(w: World, v: Sym -> Val, v': Sym -> Val, members: seq<Sym>)
    requires Looks(v, v')
    ensures w.FirstVisible(v, members) == w.FirstVisible(v', members)
  {
    if members != [] {
      PromptsLook(w, v, v', members[0], w.cfg.InfoOf(members[0]).props);
      FirstLooks(w, v, v', members[1..]);
    }
  }

  lemma PickLooks(w: World, v: Sym -> Val, v': Sym -> Val, c: Sym)
    requires Looks(v, v') && w.cfg.RoleOf(c).Choice?
    ensures w.PickOf(v, c) == w.PickOf(v', c)
  {
    hide World.EnvOf, Looks;
    DefaultLooks(w, v, v', w.cfg.InfoOf(c).props);
    FirstLooks(w, v, v', w.cfg.RoleOf(c).members);
    var wish := w.UserOf(c).pick;
    if wish.Some? {
      PromptsLook(w, v, v', wish.value, w.cfg.InfoOf(wish.value).props);
    }
  }

  ghost predicate SomeVisible(w: World, v: Sym -> Val, members: seq<Sym>) {
    exists m :: m in members && w.VisibleOf(v, m) != NO
  }

  lemma {:induction false} FirstVisibleFinds(w: World, v: Sym -> Val, members: seq<Sym>)
    ensures var pick := w.FirstVisible(v, members);
            (pick.Some? <==> SomeVisible(w, v, members)) &&
            (pick.Some? ==> pick.value in members && w.VisibleOf(v, pick.value) != NO)
  {
    hide World.VisibleOf;
    if members != [] {
      FirstVisibleFinds(w, v, members[1..]);
      assert members == [members[0]] + members[1..];
    }
  }

  lemma {:induction false} FirstDefaultFinds(w: World, v: Sym -> Val, props: seq<Prop>)
    ensures var pick := w.FirstDefault(v, props);
            pick.Some? ==> w.VisibleOf(v, pick.value) != NO &&
                           exists p :: p in props && p.kind.DefaultProp? && PropSymbol(p) == pick
  {
    hide World.VisibleOf, World.EnvOf, EvalOpt;
    if props != [] {
      FirstDefaultFinds(w, v, props[1..]);
      assert props == [props[0]] + props[1..];
    }
  }

  /** A choice finds a member exactly when one is visible, and the member it
      finds is visible. */
  lemma PickIsVisible(w: World, v: Sym -> Val, c: Sym)
    requires w.WellFormed() && w.cfg.RoleOf(c).Choice?
    ensures w.PickOf(v, c).Some? <==> SomeVisible(w, v, w.cfg.RoleOf(c).members)
    ensures var pick := w.PickOf(v, c);
            pick.Some? ==> pick.value in w.cfg.RoleOf(c).members && w.VisibleOf(v, pick.value) != NO
  {
    hide World.VisibleOf, World.EnvOf, EvalOpt, Config.Graph, World.FirstDefault, World.FirstVisible;
    FirstVisibleFinds(w, v, w.cfg.RoleOf(c).members);
    FirstDefaultFinds(w, v, w.cfg.InfoOf(c).props);
  }

  /** A choice that would be y stays y exactly when one of its members is visible
      from a choice at y. */
  lemma ChoiceStaysYes(w: World, v: Sym -> Val, c: Sym)
    requires w.WellFormed() && w.Solution(v) && w.cfg.RoleOf(c).Choice? && !c.Type().UnknownType?
    requires w.LogicalTri(v, c) == YES
    ensures v(c).tri == YES <==> SomeVisible(w, w.AtYes(v, c), w.cfg.RoleOf(c).members)
  {
    hide World.LogicalTri, World.PickOf, Config.Graph, SomeVisible;
    assert v(c) == w.Step(v, c);
    PickIsVisible(w, w.AtYes(v, c), c);
  }

  /** A bool member without defaults of its own is y when its choice selects it
      and it is visible, and n otherwise. */
  lemma BoolMember(w: World, v: Sym -> Val, c: Sym, m: Sym)
    requires w.WellFormed() && w.Solution(v) && w.cfg.RoleOf(m) == Member(c) && m.IsBool() && m.Sym?
    requires forall p :: p in w.cfg.InfoOf(m).props ==> !p.kind.DefaultProp?
    ensures v(m).tri == OfBool(w.VisibleOf(v, m) != NO && v(c).pick == Some(m))
  {
    hide World.PromptsTri, World.EnvOf, EvalOpt, Config.Graph, World.WellFormed, World.DefaultOf;
    assert v(m) == w.Step(v, m);
    NoDefaults(w, v, w.cfg.InfoOf(m).props);
  }

  lemma {:induction false} NoDefaults(w: World, v: Sym -> Val, props: seq<Prop>)
    requires forall p :: p in props ==> !p.kind.DefaultProp?
    ensures w.DefaultOf(v, props).None?
  {
    if props != [] {
      NoDefaults(w, v, props[1..]);
    }
  }

  ghost predicate BoolMembers(w: World, c: Sym)
    requires w.cfg.RoleOf(c).Choice?
  {
    forall m :: m in w.cfg.RoleOf(c).members ==>
      m.IsBool() && forall p :: p in w.cfg.InfoOf(m).props ==> !p.kind.DefaultProp?
  }

  /** In every solution a bool choice at y has exactly one member at y: the user's
      pick if visible, else the first applicable visible default, else the first
      visible member. */
  lemma ExactlyOneMember(w: World, v: Sym -> Val, c: Sym)
    requires w.WellFormed() && w.Solution(v) && w.cfg.RoleOf(c).Choice? && !c.Type().UnknownType?
    requires BoolMembers(w, c) && v(c).tri == YES
    ensures var pick := w.PickOf(v, c);
            pick.Some? && pick.value in w.cfg.RoleOf(c).members && v(pick.value).tri == YES &&
            forall m :: m in w.cfg.RoleOf(c).members && v(m).tri != NO ==> m == pick.value
  {
    hide World.VisibleOf, World.EnvOf, EvalOpt, World.LogicalTri, World.PickOf, Config.Graph, BoolMembers;
    hide World.WellFormed;
    ChoiceAtYes(w, v, c);
    var pick := w.PickOf(v, c);
    PickIsVisible(w, v, c);
    forall m | m in w.cfg.RoleOf(c).members
      ensures v(m).tri == OfBool(w.VisibleOf(v, m) != NO && pick == Some(m))
    {
      MemberParts(w, c, m);
      BoolMember(w, v, c, m);
    }
  }

  lemma MemberParts(w: World, c: Sym, m: Sym)
    requires w.WellFormed() && w.cfg.RoleOf(c).Choice? && m in w.cfg.RoleOf(c).members && BoolMembers(w, c)
    ensures w.cfg.RoleOf(m) == Member(c) && m.Sym? && m.IsBool()
    ensures forall p :: p in w.cfg.InfoOf(m).props ==> !p.kind.DefaultProp?
  {
    assert w.cfg.Graph().role(c).Choice? && m in w.cfg.Graph().role(c).members;
    assert w.cfg.Graph().MemberOf(m, c);
  }

  lemma ChoiceAtYes(w: World, v: Sym -> Val, c: Sym)
    requires w.WellFormed() && w.Solution(v) && w.cfg.RoleOf(c).Choice? && !c.Type().UnknownType? && v(c).tri == YES
    ensures v(c).pick == w.PickOf(v, c) && v(c).pick.Some?
  {
    hide World.LogicalTri, World.PickOf, Config.Graph;
    assert v(c) == w.Step(v, c);
    assert Looks(v, w.AtYes(v, c));
    PickLooks(w, v, w.AtYes(v, c), c);
  }
}
