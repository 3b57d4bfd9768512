/** What the values of a solution are, read off the properties of the symbols:
    prompts, user values, selects, implies, defaults and picks. */
module ValueLaws {
  import opened Tristates
  import opened Exprs
  import opened Symbols
  import opened Valuation
  import opened Choices

  // ----- visibility -----

  /** A prompt with text whose condition has this value. */
  ghost predicate PromptAt(w: World, v: Sym -> Val, s: Sym, t: Tristate) {
    exists p :: p in w.cfg.InfoOf(s).props && p.hasText && EvalOpt(p.visible, w.EnvOf(v)) == t
  }

  lemma {:induction false} PromptsLargest(w: World, v: Sym -> Val, s: Sym, props: seq<Prop>)
    requires !w.cfg.RoleOf(s).Member?
    ensures forall p :: p in props && p.hasText ==> EvalOpt(p.visible, w.EnvOf(v)) <= w.PromptsTri(v, s, props)
    ensures var t := w.PromptsTri(v, s, props);
            t == NO || exists p :: p in props && p.hasText && EvalOpt(p.visible, w.EnvOf(v)) == t
  {
    hide World.EnvOf, EvalOpt;
    if props != [] {
      var rest, last := props[..|props| - 1], props[|props| - 1];
      PromptsLargest(w, v, s, rest);
      assert forall p :: p in props <==> p in rest || p == last;
    }
  }

  /** Outside of choices a symbol is as visible as the largest condition of its
      prompts says, where m means y unless the symbol is tristate and there are
      modules. */
  lemma VisibleIsLargest(w: World, v: Sym -> Val, s: Sym)
    requires !w.cfg.RoleOf(s).Member?
    ensures w.VisibleOf(v, s) == YES <==>
      PromptAt(w, v, s, YES) || (PromptAt(w, v, s, MOD) && (!s.IsTristate() || w.modulesVal == NO))
    ensures w.VisibleOf(v, s) == MOD <==>
      !PromptAt(w, v, s, YES) && PromptAt(w, v, s, MOD) && s.IsTristate() && w.modulesVal != NO
  {
    hide World.EnvOf, EvalOpt;
    PromptsLargest(w, v, s, w.cfg.InfoOf(s).props);
  }

  lemma {:induction false} MemberPrompts(w: World, v: Sym -> Val, s: Sym, props: seq<Prop>)
    requires w.cfg.RoleOf(s).Member? && s.IsTristate() && v(w.cfg.RoleOf(s).choice).tri == YES
    ensures w.PromptsTri(v, s, props) ==
      OfBool(exists p :: p in props && p.hasText && EvalOpt(p.visible, w.EnvOf(v)) == YES)
  {
    hide World.EnvOf, EvalOpt;
    if props != [] {
      var rest, last := props[..|props| - 1], props[|props| - 1];
      MemberPrompts(w, v, s, rest);
      assert forall p :: p in props <==> p in rest || p == last;
    }
  }

  /** A tristate member of a choice at y is visible only by a condition that is y. */
  lemma MemberVisibleAtYes(w: World, v: Sym -> Val, s: Sym)
    requires w.cfg.RoleOf(s).Member? && s.IsTristate() && v(w.cfg.RoleOf(s).choice).tri == YES
    ensures w.VisibleOf(v, s) == OfBool(PromptAt(w, v, s, YES))
  {
    hide World.EnvOf, EvalOpt;
    MemberPrompts(w, v, s, w.cfg.InfoOf(s).props);
  }

  // ----- selects and implies -----

  /** A select is a lower limit, unless the direct dependencies are n: then the
      symbol is n. */
  lemma SelectLimits(w: World, v: Sym -> Val, s: Sym)
    requires w.Solution(v) && s.Sym? && s.IsLogical() && w.cfg.RoleOf(s).Plain?
    requires w.cfg.InfoOf(s).revDep.Some?
    ensures var i, env := w.cfg.InfoOf(s), w.EnvOf(v);
            var selected := Eval(i.revDep.value, env);
            (EvalOpt(i.dirDep, env) != NO ==> selected <= v(s).tri) &&
            (EvalOpt(i.dirDep, env) == NO && selected != NO ==> v(s).tri == NO)
  {
    hide World.EnvOf, World.PromptsTri, World.WantedTri;
    assert v(s) == w.Step(v, s);
  }

  /** An imply is a lower limit for a symbol that the user has not set, as far as
      the direct dependencies allow. */
  lemma ImplyLimits(w: World, v: Sym -> Val, s: Sym)
    requires w.Solution(v) && s.Sym? && s.IsLogical() && w.cfg.RoleOf(s).Plain?
    requires w.cfg.InfoOf(s).implied.Some? && (w.VisibleOf(v, s) == NO || s !in w.hasUser)
    ensures var i, env := w.cfg.InfoOf(s), w.EnvOf(v);
            var wanted := Eval(i.implied.value, env);
            (wanted != NO && i.revDep.None? ==> And(wanted, EvalOpt(i.dirDep, env)) <= v(s).tri) &&
            (wanted != NO && i.revDep.None? && EvalOpt(i.dirDep, env) == NO ==> v(s).tri == NO)
  {
    hide World.EnvOf, World.PromptsTri, World.FromDefault;
    assert v(s) == w.Step(v, s);
  }

  // ----- user values and defaults -----

  /** m counts as y for a bool symbol, and where there are no modules. */
  function NoHalf(w: World, s: Sym, t: Tristate): Tristate {
    if t == MOD && (s.IsBool() || w.modulesVal == NO) then YES else t
  }

  /** A visible symbol has the user's value, up to its visibility. */
  lemma UserValueHolds(w: World, v: Sym -> Val, s: Sym)
    requires w.Solution(v) && s.Sym? && s.IsLogical() && w.cfg.RoleOf(s).Plain?
    requires w.VisibleOf(v, s) != NO && s in w.hasUser && w.cfg.InfoOf(s).revDep.None?
    ensures v(s).tri == NoHalf(w, s, And(w.UserOf(s).tri, w.VisibleOf(v, s)))
  {
    hide World.EnvOf, World.PromptsTri, World.DefaultTri;
    assert v(s) == w.Step(v, s);
  }

  /** Property i is the first default whose condition is not n. */
  ghost predicate FirstApplies(w: World, v: Sym -> Val, props: seq<Prop>, i: nat) {
    && i < |props| && props[i].kind == DefaultProp && EvalOpt(props[i].visible, w.EnvOf(v)) != NO
    && forall j :: 0 <= j < i && props[j].kind == DefaultProp ==> EvalOpt(props[j].visible, w.EnvOf(v)) == NO
  }

  ghost predicate NoneApplies(w: World, v: Sym -> Val, props: seq<Prop>) {
    forall p :: p in props && p.kind == DefaultProp ==> EvalOpt(p.visible, w.EnvOf(v)) == NO
  }

  lemma {:induction false} FirstFound(w: World, v: Sym -> Val, props: seq<Prop>, i: nat)
    requires FirstApplies(w, v, props, i)
    ensures w.DefaultOf(v, props) == Some(props[i])
    decreases |props|
  {
    hide World.EnvOf, EvalOpt;
    if i > 0 {
      assert props[0].kind == DefaultProp ==> EvalOpt(props[0].visible, w.EnvOf(v)) == NO;
      assert forall j :: 0 <= j < i - 1 ==> props[1..][j] == props[j + 1];
      FirstFound(w, v, props[1..], i - 1);
    }
  }

  lemma {:induction false} NoneFound(w: World, v: Sym -> Val, props: seq<Prop>)
    requires NoneApplies(w, v, props)
    ensures w.DefaultOf(v, props).None?
  {
    hide World.EnvOf, EvalOpt;
    if props != [] {
      assert props[0] in props;
      NoneFound(w, v, props[1..]);
    }
  }

  /** A symbol that nobody sets, selects or implies has the value of its first
      default that applies, up to the condition of that default, or is n. */
  lemma DefaultHolds(w: World, v: Sym -> Val, s: Sym, i: nat)
    requires w.Solution(v) && s.Sym? && s.IsLogical() && w.cfg.RoleOf(s).Plain?
    requires w.VisibleOf(v, s) == NO || s !in w.hasUser
    requires w.cfg.InfoOf(s).revDep.None? && w.cfg.InfoOf(s).implied.None?
    ensures var props, env := w.cfg.InfoOf(s).props, w.EnvOf(v);
            (FirstApplies(w, v, props, i) ==>
              v(s).tri == NoHalf(w, s, And(EvalOpt(props[i].value, env), EvalOpt(props[i].visible, env)))) &&
            (NoneApplies(w, v, props) ==> v(s).tri == NO)
  {
    hide World.EnvOf, World.PromptsTri, EvalOpt, World.DefaultOf, FirstApplies, NoneApplies;
    assert v(s) == w.Step(v, s);
    var props := w.cfg.InfoOf(s).props;
    if FirstApplies(w, v, props, i) {
      FirstFound(w, v, props, i);
    }
    if NoneApplies(w, v, props) {
      NoneFound(w, v, props);
    }
  }

  /** A choice that nobody sets or selects is n, whatever its defaults. */
  lemma ChoiceUnset(w: World, v: Sym -> Val, c: Sym)
    requires w.Solution(v) && c.Sym? && c.IsLogical() && w.cfg.RoleOf(c).Choice?
    requires w.VisibleOf(v, c) == NO || c !in w.hasUser
    requires w.cfg.InfoOf(c).revDep.None?
    ensures v(c).tri == NO
  {
    hide World.EnvOf, World.PromptsTri, World.DefaultTri, World.PickOf;
    assert v(c) == w.Step(v, c);
  }

  /** A string, int or hex symbol has the user's text while it is visible, else
      that of the symbol in its first default that applies. */
  lemma TextHolds(w: World, v: Sym -> Val, s: Sym, i: nat, t: Sym)
    requires w.Solution(v) && s.Sym? && !s.IsLogical() && !s.Type().UnknownType? && w.cfg.RoleOf(s).Plain?
    ensures w.VisibleOf(v, s) != NO && s in w.hasUser ==> v(s).str == w.UserOf(s).str
    ensures var props := w.cfg.InfoOf(s).props;
            w.VisibleOf(v, s) == NO || s !in w.hasUser ==>
              (FirstApplies(w, v, props, i) && props[i].value == Some(ESym(t)) ==> v(s).str == v(t).str) &&
              (NoneApplies(w, v, props) ==> v(s).str == "")
  {
    hide World.EnvOf, World.PromptsTri, EvalOpt, World.DefaultOf, FirstApplies, NoneApplies;
    assert v(s) == w.Step(v, s);
    var props := w.cfg.InfoOf(s).props;
    if FirstApplies(w, v, props, i) {
      FirstFound(w, v, props, i);
    }
    if NoneApplies(w, v, props) {
      NoneFound(w, v, props);
    }
  }

  // ----- picks -----

  /** Property i of the choice is a default that applies and whose symbol is visible. */
  ghost predicate Offers(w: World, v: Sym -> Val, p: Prop, m: Sym) {
    && p.kind == DefaultProp && EvalOpt(p.visible, w.EnvOf(v)) != NO
    && p.value == Some(ESym(m)) && w.VisibleOf(v, m) != NO
  }

  lemma {:induction false} FirstOffer(w: World, v: Sym -> Val, props: seq<Prop>, i: nat, m: Sym)
    requires i <= |props| && forall j, x :: 0 <= j < i ==> !Offers(w, v, props[j], x)
    requires i < |props| ==> Offers(w, v, props[i], m)
    ensures w.FirstDefault(v, props) == if i < |props| then Some(m) else None
    decreases |props|
  {
    hide World.EnvOf, EvalOpt, World.VisibleOf;
    if i > 0 {
      assert PropSymbol(props[0]).Some? ==> !Offers(w, v, props[0], PropSymbol(props[0]).value);
      assert forall j :: 0 <= j < i - 1 ==> props[1..][j] == props[j + 1];
      FirstOffer(w, v, props[1..], i - 1, m);
    }
  }

  lemma {:induction false} FirstSeen(w: World, v: Sym -> Val, members: seq<Sym>, i: nat)
    requires i < |members| && w.VisibleOf(v, members[i]) != NO
    requires forall j :: 0 <= j < i ==> w.VisibleOf(v, members[j]) == NO
    ensures w.FirstVisible(v, members) == Some(members[i])
    decreases |members|
  {
    hide World.VisibleOf;
    if i > 0 {
      assert forall j :: 0 <= j < i - 1 ==> members[1..][j] == members[j + 1];
      FirstSeen(w, v, members[1..], i - 1);
    }
  }

  /** A choice at y picks the user's member while it is visible, */
  lemma UserPick(w: World, v: Sym -> Val, c: Sym, m: Sym)
    requires w.WellFormed() && w.Solution(v) && w.cfg.RoleOf(c).Choice? && !c.Type().UnknownType? && v(c).tri == YES
    requires w.UserOf(c).pick == Some(m) && w.VisibleOf(v, m) != NO
    ensures v(c).pick == Some(m)
  {
    hide World.WellFormed, World.Solution, World.VisibleOf;
    ChoiceAtYes(w, v, c);
  }

  /** else the first visible member that a default offers, */
  lemma DefaultPick(w: World, v: Sym -> Val, c: Sym, i: nat, m: Sym)
    requires w.WellFormed() && w.Solution(v) && w.cfg.RoleOf(c).Choice? && !c.Type().UnknownType? && v(c).tri == YES
    requires w.UserOf(c).pick.Some? ==> w.VisibleOf(v, w.UserOf(c).pick.value) == NO
    requires var props := w.cfg.InfoOf(c).props;
             i < |props| && Offers(w, v, props[i], m) && forall j, x :: 0 <= j < i ==> !Offers(w, v, props[j], x)
    ensures v(c).pick == Some(m)
  {
    hide World.WellFormed, World.Solution, World.VisibleOf, World.FirstDefault, Offers;
    ChoiceAtYes(w, v, c);
    FirstOffer(w, v, w.cfg.InfoOf(c).props, i, m);
  }

  /** else the first visible member. */
  lemma FirstPick(w: World, v: Sym -> Val, c: Sym, i: nat)
    requires w.WellFormed() && w.Solution(v) && w.cfg.RoleOf(c).Choice? && !c.Type().UnknownType? && v(c).tri == YES
    requires w.UserOf(c).pick.Some? ==> w.VisibleOf(v, w.UserOf(c).pick.value) == NO
    requires forall p, x :: p in w.cfg.InfoOf(c).props ==> !Offers(w, v, p, x)
    requires i < |w.cfg.RoleOf(c).members| && w.VisibleOf(v, w.cfg.RoleOf(c).members[i]) != NO
    requires forall j :: 0 <= j < i ==> w.VisibleOf(v, w.cfg.RoleOf(c).members[j]) == NO
    ensures v(c).pick == Some(w.cfg.RoleOf(c).members[i])
  {
    hide World.WellFormed, World.Solution, World.VisibleOf, World.FirstDefault, World.FirstVisible, Offers;
    ChoiceAtYes(w, v, c);
    FirstOffer(w, v, w.cfg.InfoOf(c).props, |w.cfg.InfoOf(c).props|, c);
    FirstSeen(w, v, w.cfg.RoleOf(c).members, i);
  }

  /** A choice at y forgets the user's value exactly when one of its visible members
      has none of its own. */
  lemma ForgetsExactly(w: World, v: Sym -> Val, c: Sym)
    requires w.WellFormed() && w.Solution(v) && w.cfg.RoleOf(c).Choice? && !c.Type().UnknownType? && v(c).tri == YES
    ensures w.Forgets(v, c) <==> exists m :: m in w.cfg.RoleOf(c).members && w.VisibleOf(v, m) != NO && m !in w.hasUser
  {
    hide World.VisibleOf, World.PickOf, World.LogicalTri, Config.Graph;
    assert v(c) == w.Step(v, c);
    forall m: Sym
      ensures w.VisibleOf(w.AtYes(v, c), m) == w.VisibleOf(v, m)
    {
      AtYesLooks(w, v, c, m);
    }
  }
}
