/** Small configurations on which the results about evaluation fail when one of
    their conditions is dropped. */
module Witnesses {
  import opened Tristates
  import opened Exprs
  import opened Symbols
  import opened Valuation
  import opened EvalState
  import opened Meaning
  import opened Evaluator

  const C := Sym(0, BooleanType, false)
  const M := Sym(1, BooleanType, false)
  const S := Sym(2, BooleanType, false)

  /** A prompt with this condition. */
  function Asks(cond: Option<Expr>): Prop {
    Prop(PromptProp, true, cond, None)
  }

  /** `default y if cond` */
  function YesIf(cond: Expr): Prop {
    Prop(DefaultProp, false, Some(cond), Some(ESym(SymYes)))
  }

  function Entry(role: Role, p: Prop): Info {
    Info(role, [p], None, None, None)
  }

  // ----- a choice that forgets -----

  /** An optional choice C with the member M, and a symbol S that depends on C. */
  const OPTIONAL_CHOICE := Config(
    map[C := Entry(Choice([M]), Asks(None)), M := Entry(Member(C), Asks(Some(ESym(C)))),
        S := Entry(Plain, Asks(Some(ESym(C))))],
    SymNo)

  function ByDepth(x: Sym): nat {
    if !x.Sym? then 0 else if x == C then 1 else if x == S then 2 else 3
  }

  lemma OneProp(w: World, v: Sym -> Val, s: Sym, role: Role, p: Prop)
    requires w.cfg.InfoOf(s) == Entry(role, p) && s.IsBool()
    ensures p.hasText ==> w.VisibleOf(v, s) == (if EvalOpt(p.visible, w.EnvOf(v)) == NO then NO else YES) ||
                          (EvalOpt(p.visible, w.EnvOf(v)) == MOD && w.VisibleOf(v, s) == YES)
    ensures !p.hasText ==> w.VisibleOf(v, s) == NO
    ensures var d := w.DefaultOf(v, w.cfg.InfoOf(s).props);
            d == if p.kind.DefaultProp? && EvalOpt(p.visible, w.EnvOf(v)) != NO then Some(p) else None
    ensures !p.kind.DefaultProp? ==> w.FirstDefault(v, w.cfg.InfoOf(s).props) == None
    ensures w.RevOf(v, s) == NO && w.ImpliedOf(v, s) == NO && (!role.Member? ==> w.DirOf(v, s) == YES)
  {
    hide World.EnvOf;
    var none: seq<Prop> := [];
    assert [p][..0] == none && [p][1..] == none;
    assert w.PromptsTri(v, s, none) == NO;
  }

  lemma OptionalRefs(x: Sym)
    ensures OPTIONAL_CHOICE.Refs(x) == if x == M || x == S then {C} else {}
    ensures OPTIONAL_CHOICE.RoleOf(x) == if x == C then Choice([M]) else if x == M then Member(C) else Plain
  {
    if x == C {
      RefsOfOne(OPTIONAL_CHOICE, C, Asks(None));
    } else if x == M || x == S {
      RefsOfOne(OPTIONAL_CHOICE, x, Asks(Some(ESym(C))));
    }
  }

  /** What has to hold of one symbol of a table with the choice c and its member m. */
  ghost predicate FitsOne(cfg: Config, rank: Sym -> nat, c: Sym, m: Sym, x: Sym) {
    && cfg.RoleOf(x) == (if x == c then Choice([m]) else if x == m then Member(c) else Plain)
    && (cfg.Refs(x) != {} ==> x.Sym? && x in cfg.info)
    && (forall t: Sym :: t in cfg.Refs(x) ==> t in cfg.Universe() && rank(t) < rank(x))
    && (forall p: Prop :: p in cfg.InfoOf(x).props && p.hasText ==> Config.FollowsVisible(p))
  }

  lemma OneChoice(cfg: Config, rank: Sym -> nat, c: Sym, m: Sym)
    requires c.Sym? && m.Sym? && c.IsLogical() && c in cfg.info && m in cfg.info && rank(c) < rank(m)
    requires cfg.modules == SymNo || (cfg.modules.Sym? && cfg.modules in cfg.info)
    requires forall x: Sym :: FitsOne(cfg, rank, c, m, x)
    ensures cfg.Sane() && cfg.Graph().Ranks(rank)
    ensures (forall t: Sym :: t in cfg.Refs(m) ==> t == c || rank(t) < rank(c)) ==> cfg.Graph().NoFeedback(rank)
  {
    hide Config.Refs, Config.RoleOf, FitsOne, Config.InfoOf, Config.FollowsVisible;
    var g := cfg.Graph();
    forall x: Sym, t: Sym | t in g.refs(x)
      ensures t in g.universe && rank(t) < rank(x)
    {
      FitsRefs(cfg, rank, c, m, x, t);
    }
    forall x: Sym, t: Sym | t in g.refs(x)
      ensures g.InTable(x)
    {
      FitsRefs(cfg, rank, c, m, x, t);
    }
    forall x: Sym
      ensures cfg.RoleOf(x) == (if x == c then Choice([m]) else if x == m then Member(c) else Plain)
    {
      FitsRole(cfg, rank, c, m, x);
    }
    forall x: Sym, p: Prop | p in cfg.InfoOf(x).props && p.hasText
      ensures Config.FollowsVisible(p)
    {
      FitsProp(cfg, rank, c, m, x, p);
    }
    assert cfg.RoleOf(c).members == [m] && cfg.RoleOf(m) == Member(c);
  }

  lemma FitsRefs(cfg: Config, rank: Sym -> nat, c: Sym, m: Sym, x: Sym, t: Sym)
    requires FitsOne(cfg, rank, c, m, x) && t in cfg.Refs(x)
    ensures t in cfg.Universe() && rank(t) < rank(x) && x.Sym? && x in cfg.Universe()
  {
    hide Config.Refs;
  }

  lemma FitsRole(cfg: Config, rank: Sym -> nat, c: Sym, m: Sym, x: Sym)
    requires FitsOne(cfg, rank, c, m, x)
    ensures cfg.RoleOf(x) == (if x == c then Choice([m]) else if x == m then Member(c) else Plain)
  {
    hide Config.Refs, Config.RoleOf;
  }

  lemma FitsProp(cfg: Config, rank: Sym -> nat, c: Sym, m: Sym, x: Sym, p: Prop)
    requires FitsOne(cfg, rank, c, m, x) && p in cfg.InfoOf(x).props && p.hasText
    ensures Config.FollowsVisible(p)
  {
    hide Config.Refs;
  }

  lemma OptionalGraph()
    ensures OPTIONAL_CHOICE.Sane()
    ensures OPTIONAL_CHOICE.Graph().Ranks(ByDepth) && OPTIONAL_CHOICE.Graph().NoFeedback(ByDepth)
  {
    hide Config.Refs, Config.Graph, FitsOne;
    forall x: Sym
      ensures FitsOne(OPTIONAL_CHOICE, ByDepth, C, M, x)
    {
      OptionalFits(x);
    }
    OptionalRefs(M);
    OneChoice(OPTIONAL_CHOICE, ByDepth, C, M);
  }

  lemma OptionalFits(x: Sym)
    ensures FitsOne(OPTIONAL_CHOICE, ByDepth, C, M, x)
  {
    hide Config.Refs;
    OptionalRefs(x);
  }

  lemma OptionalOrdered(w: World)
    requires w.cfg == OPTIONAL_CHOICE && forall x: Sym :: w.UserOf(x).pick == None
    ensures Ordered(w, ByDepth)
  {
    hide DepGraph.Ranks, DepGraph.NoFeedback, Config.Graph, Config.Sane;
    OptionalGraph();
    forall x: Sym
      ensures OPTIONAL_CHOICE.RoleOf(x) == if x == C then Choice([M]) else if x == M then Member(C) else Plain
    {
      OptionalRefs(x);
    }
    assert Asks(Some(ESym(C))) in w.cfg.InfoOf(M).props;
  }

  lemma RefsOfOne(cfg: Config, s: Sym, p: Prop)
    requires cfg.InfoOf(s).props == [p] && cfg.InfoOf(s) == Entry(cfg.RoleOf(s), p)
    ensures cfg.Refs(s) == cfg.PropRefs(s, p)
  {
    var none: seq<Prop> := [];
    assert [p][..0] == none;
    assert cfg.PropsRefs(s, none) == {};
  }

  /** The choice is y, and forgets that the user wanted it; S can be set to y. */
  lemma ChoiceForgets(w: World, v: Sym -> Val)
    requires w.cfg == OPTIONAL_CHOICE && w.Solution(v) && w.modulesVal == NO
    requires w.hasUser == {C} && w.UserOf(C) == User(YES, "", None)
    ensures w.Forgets(v, C) && v(S).tri == NO && InRange(w, v, S, YES) && Obeyed(w, v, S, YES)
  {
    hide World.EnvOf, World.VisibleOf, World.DirOf, World.RevOf, World.ImpliedOf, World.DefaultOf, World.FirstDefault;
    OneProp(w, v, C, Choice([M]), Asks(None));
    OneProp(w, w.AtYes(v, C), C, Choice([M]), Asks(None));
    OneProp(w, w.AtYes(v, C), M, Member(C), Asks(Some(ESym(C))));
    OneProp(w, v, S, Plain, Asks(Some(ESym(C))));
    ShowsC(w, v);
    ShowsC(w, w.AtYes(v, C));
    assert v(C) == w.Step(v, C);
    assert v(S) == w.Step(v, S);
  }

  lemma ShowsC(w: World, v: Sym -> Val)
    ensures EvalOpt(Some(ESym(C)), w.EnvOf(v)) == v(C).tri
  {
  }

  /** Without the user's wish the choice is n, and S is not visible. */
  lemma ChoiceFalls(w: World, v: Sym -> Val)
    requires w.cfg == OPTIONAL_CHOICE && w.Solution(v) && C !in w.hasUser
    ensures v(S).tri == NO
  {
    hide World.EnvOf, World.VisibleOf, World.DirOf, World.RevOf, World.ImpliedOf, World.DefaultOf, World.FirstDefault;
    OneProp(w, v, C, Choice([M]), Asks(None));
    OneProp(w, v, S, Plain, Asks(Some(ESym(C))));
    ShowsC(w, v);
    assert v(C) == w.Step(v, C);
    assert v(S) == w.Step(v, S);
  }

  /** A run in which an accepted value is lost: the choice is evaluated and forgets
      the user's y, setting S to y is accepted, and then S is n. */
  method LosesAcceptedValue(compare: Compare, name: Sym -> string) returns (ok: bool, val: Val)
    ensures ok && val.tri == NO
  {
    hide Ordered, UpToDate, InRange, Obeyed, Comes, Settling, World.Forgets, AtRest, OwnValueHolds, Config.Sane, Stored;
    hide World.WellFormed, IsMeaning;
    var user := map[C := User(YES, "", None)];
    ghost var w := StartWorld(OPTIONAL_CHOICE, compare, name, {C}, user);
    OptionalOrdered(w);
    OrderedSane(w, ByDepth);
    ghost var v := MeaningExists(w, ByDepth);
    AcceptedFirst(w, v);
    var t := new SymTable(OPTIONAL_CHOICE, compare, name, {C}, user);
    var vals := t.EvaluateAll([C, S], w, ByDepth, v);
    ghost var a := t.Now();
    EvaluatedTwo(a, C, S);
    UsersKept(w, ByDepth, v, a);
    ghost var v';
    ok, v' := t.SetTristateValue(S, YES, w, ByDepth, v);
    ghost var w' := Present(w, Stored(OPTIONAL_CHOICE, a, S, YES));
    StoredPlain(OPTIONAL_CHOICE, a, C, S);
    LostThen(w', ByDepth, v', t.Now());
    val := t.Evaluate(S, w', ByDepth, v');
  }

  lemma OrderedSane(w: World, rank: Sym -> nat)
    requires Ordered(w, rank)
    ensures w.cfg.Sane()
  {
  }

  lemma EvaluatedTwo(a: EState, c: Sym, s: Sym)
    requires a.AllValid(set x | x in [c, s]) && c.Sym? && s.Sym?
    ensures c in a.valid && s in a.valid
  {
    var both := set x | x in [c, s];
    assert c in both && s in both;
    assert a.IsValid(c) && a.IsValid(s);
  }

  lemma StoredPlain(cfg: Config, a: EState, c: Sym, s: Sym)
    requires c !in a.hasUser && c != s && cfg.RoleOf(s).Plain?
    ensures var z := Stored(cfg, a, s, YES);
            c !in z.hasUser && s in z.hasUser && UserIn(z, s).tri == YES
  {
  }

  lemma AcceptedFirst(w: World, v: Sym -> Val)
    requires w.cfg == OPTIONAL_CHOICE && IsMeaning(w, v) && w.hasUser == {C} && w.UserOf(C) == User(YES, "", None)
    ensures Settling(w, v).Forgets(v, C) && v(S).tri == NO && InRange(Settling(w, v), v, S, YES)
  {
    hide World.Forgets, InRange, Obeyed, World.PlainVal;
    assert v(SymNo) == Settling(w, v).Step(v, SymNo);
    ChoiceForgets(Settling(w, v), v);
  }

  lemma LostThen(w: World, rank: Sym -> nat, v: Sym -> Val, a: EState)
    requires w.cfg == OPTIONAL_CHOICE && UpToDate(w, rank, v, a) && C !in w.hasUser
    ensures v(S).tri == NO
  {
    hide Ordered, World.Solution;
    ChoiceFalls(Settling(w, v), v);
  }

  // ----- a tristate choice that forgets -----

  const MODS := Sym(4, BooleanType, false)
  const CT := Sym(5, TristateType, false)
  const MT := Sym(6, TristateType, false)
  const ST := Sym(7, TristateType, false)

  /** MODULES is y; CT is a tristate choice that is not optional, with the value MT,
      and ST depends on it. */
  const FORCED_CHOICE := Config(
    map[MODS := Entry(Plain, YesIf(ESym(SymYes))),
        CT := Info(Choice([MT]), [Asks(None)], None, Some(ESym(SymMod)), None),
        MT := Entry(Member(CT), Asks(Some(ESym(CT)))), ST := Entry(Plain, Asks(Some(ESym(CT))))],
    MODS)

  function ForcedDepth(x: Sym): nat {
    if !x.Sym? then 0 else if x == MODS then 1 else if x == CT then 2 else if x == ST then 3 else 4
  }

  lemma ForcedRefs(x: Sym)
    ensures FORCED_CHOICE.Refs(x) ==
        if x == MODS then {SymYes} else if x == CT then {SymMod} else if x == MT || x == ST then {CT} else {}
    ensures FORCED_CHOICE.RoleOf(x) == if x == CT then Choice([MT]) else if x == MT then Member(CT) else Plain
  {
    var none: seq<Prop> := [];
    if x == MODS {
      RefsOfOne(FORCED_CHOICE, MODS, YesIf(ESym(SymYes)));
    } else if x == CT {
      assert [Asks(None)][..0] == none && FORCED_CHOICE.PropsRefs(CT, none) == {};
      assert FORCED_CHOICE.PropsRefs(CT, [Asks(None)]) == {};
    } else if x == MT || x == ST {
      RefsOfOne(FORCED_CHOICE, x, Asks(Some(ESym(CT))));
    }
  }

  lemma ForcedGraph()
    ensures FORCED_CHOICE.Sane()
    ensures FORCED_CHOICE.Graph().Ranks(ForcedDepth) && FORCED_CHOICE.Graph().NoFeedback(ForcedDepth)
  {
    hide Config.Refs, Config.Graph, FitsOne;
    forall x: Sym
      ensures FitsOne(FORCED_CHOICE, ForcedDepth, CT, MT, x)
    {
      ForcedFits(x);
    }
    ForcedRefs(MT);
    OneChoice(FORCED_CHOICE, ForcedDepth, CT, MT);
  }

  lemma ForcedFits(x: Sym)
    ensures FitsOne(FORCED_CHOICE, ForcedDepth, CT, MT, x)
  {
    hide Config.Refs;
    ForcedRefs(x);
  }

  lemma ForcedOrdered(w: World)
    requires w.cfg == FORCED_CHOICE && forall x: Sym :: w.UserOf(x).pick == None
    ensures Ordered(w, ForcedDepth)
  {
    hide DepGraph.Ranks, DepGraph.NoFeedback, Config.Graph, Config.Sane;
    ForcedGraph();
    forall x: Sym
      ensures FORCED_CHOICE.RoleOf(x) == if x == CT then Choice([MT]) else if x == MT then Member(CT) else Plain
    {
      ForcedRefs(x);
    }
    assert Asks(Some(ESym(CT))) in w.cfg.InfoOf(MT).props;
  }

  /** A symbol with one prompt and no defaults. */
  lemma OnlyPrompt(w: World, v: Sym -> Val, s: Sym, cond: Option<Expr>)
    requires w.cfg.InfoOf(s).props == [Asks(cond)] && s.IsTristate() && w.modulesVal != NO
    ensures w.VisibleOf(v, s) == w.PromptTri(v, s, Asks(cond))
    ensures w.DefaultOf(v, w.cfg.InfoOf(s).props) == None && w.FirstDefault(v, w.cfg.InfoOf(s).props) == None
  {
    hide World.EnvOf;
    var none: seq<Prop> := [];
    assert [Asks(cond)][..0] == none && [Asks(cond)][1..] == none;
    assert w.PromptsTri(v, s, none) == NO;
  }

  lemma ModulesYes(w: World, v: Sym -> Val)
    requires w.cfg == FORCED_CHOICE && w.Solution(v)
    ensures v(MODS).tri == YES && v(SymMod).tri == MOD
  {
    hide World.EnvOf, World.VisibleOf, World.DirOf, World.RevOf, World.ImpliedOf, World.DefaultOf;
    OneProp(w, v, MODS, Plain, YesIf(ESym(SymYes)));
    assert EvalOpt(Some(ESym(SymYes)), w.EnvOf(v)) == v(SymYes).tri by {
      FeedbackShows(w, v);
    }
    assert v(SymYes) == w.Step(v, SymYes) && v(SymMod) == w.Step(v, SymMod) && v(MODS) == w.Step(v, MODS);
  }

  lemma ShowsCT(w: World, v: Sym -> Val)
    ensures EvalOpt(Some(ESym(CT)), w.EnvOf(v)) == v(CT).tri
    ensures w.OrAbsent(v, Some(ESym(SymMod)), NO) == v(SymMod).tri
  {
  }

  /** The choice is y and forgets it; ST can be set to y. */
  lemma ForcedForgets(w: World, v: Sym -> Val)
    requires w.cfg == FORCED_CHOICE && w.Solution(v) && w.modulesVal == YES
    requires w.hasUser == {CT} && w.UserOf(CT) == User(YES, "", None)
    ensures w.Forgets(v, CT) && Forced(w, v, CT) && v(ST).tri == NO && InRange(w, v, ST, YES)
  {
    hide World.EnvOf, World.VisibleOf, World.DefaultOf, World.FirstDefault, EvalOpt, World.OrAbsent;
    ModulesYes(w, v);
    var u := w.AtYes(v, CT);
    OnlyPrompt(w, v, CT, None);
    OnlyPrompt(w, u, CT, None);
    OnlyPrompt(w, u, MT, Some(ESym(CT)));
    OnlyPrompt(w, v, ST, Some(ESym(CT)));
    ShowsCT(w, v);
    ShowsCT(w, u);
    NothingAbsent(w, v);
    assert v(CT) == w.Step(v, CT) && v(ST) == w.Step(v, ST);
    assert w.FirstVisible(u, [MT]) == Some(MT);
  }

  lemma NothingAbsent(w: World, v: Sym -> Val)
    ensures EvalOpt(None, w.EnvOf(v)) == YES && w.OrAbsent(v, None, NO) == NO && w.OrAbsent(v, None, YES) == YES
  {
  }

  /** Without the user's wish the choice is m, and so is ST at most. */
  lemma ForcedFalls(w: World, v: Sym -> Val)
    requires w.cfg == FORCED_CHOICE && w.Solution(v) && w.modulesVal == YES && CT !in w.hasUser
    requires ST in w.hasUser && w.UserOf(ST).tri == YES
    ensures v(CT).tri == MOD && v(ST).tri == MOD
  {
    hide World.EnvOf, World.VisibleOf, World.DefaultOf, World.FirstDefault, EvalOpt, World.OrAbsent;
    ModulesYes(w, v);
    OnlyPrompt(w, v, CT, None);
    OnlyPrompt(w, v, ST, Some(ESym(CT)));
    ShowsCT(w, v);
    NothingAbsent(w, v);
    assert v(CT) == w.Step(v, CT) && v(ST) == w.Step(v, ST);
  }

  /** The same run below a tristate choice that is not optional: setting ST to y is
      accepted, and then ST is m, because the choice has fallen to m. */
  method LosesToForcedChoice(compare: Compare, name: Sym -> string) returns (ok: bool, val: Val)
    ensures ok && val.tri == MOD
  {
    hide Ordered, UpToDate, InRange, Obeyed, Comes, Settling, World.Forgets, AtRest, OwnValueHolds, Config.Sane, Stored;
    hide World.WellFormed, IsMeaning;
    var user := map[CT := User(YES, "", None)];
    ghost var w := StartWorld(FORCED_CHOICE, compare, name, {CT}, user);
    ForcedOrdered(w);
    OrderedSane(w, ForcedDepth);
    ghost var v := MeaningExists(w, ForcedDepth);
    ForcedFirst(w, v);
    var t := new SymTable(FORCED_CHOICE, compare, name, {CT}, user);
    var vals := t.EvaluateAll([CT, ST], w, ForcedDepth, v);
    ghost var a := t.Now();
    EvaluatedTwo(a, CT, ST);
    UsersKept(w, ForcedDepth, v, a);
    ghost var v';
    ok, v' := t.SetTristateValue(ST, YES, w, ForcedDepth, v);
    ghost var w' := Present(w, Stored(FORCED_CHOICE, a, ST, YES));
    StoredPlain(FORCED_CHOICE, a, CT, ST);
    ForcedThen(w', ForcedDepth, v', t.Now());
    val := t.Evaluate(ST, w', ForcedDepth, v');
  }

  lemma ForcedFirst(w: World, v: Sym -> Val)
    requires w.cfg == FORCED_CHOICE && IsMeaning(w, v) && w.hasUser == {CT} && w.UserOf(CT) == User(YES, "", None)
    ensures Settling(w, v).Forgets(v, CT) && v(ST).tri == NO && InRange(Settling(w, v), v, ST, YES)
  {
    hide World.Forgets, InRange, Forced, World.Solution;
    ModulesYes(Settling(w, v), v);
    ForcedForgets(Settling(w, v), v);
  }

  lemma ForcedThen(w: World, rank: Sym -> nat, v: Sym -> Val, a: EState)
    requires w.cfg == FORCED_CHOICE && UpToDate(w, rank, v, a) && CT !in w.hasUser && ST in w.hasUser
    requires w.UserOf(ST).tri == YES
    ensures v(ST).tri == MOD
  {
    hide Ordered, World.Solution;
    ModulesYes(Settling(w, v), v);
    ForcedFalls(Settling(w, v), v);
  }

  // ----- feedback into a choice -----

  const T := Sym(3, BooleanType, false)

  /** A choice C whose only member M is visible if T is, and T is y if C is n. */
  const FEEDBACK := Config(
    map[C := Entry(Choice([M]), Asks(None)), M := Entry(Member(C), Asks(Some(EBin(AndOp, ESym(C), ESym(T))))),
        T := Entry(Plain, YesIf(ENot(ESym(C))))],
    SymNo)

  function FeedbackDepth(x: Sym): nat {
    if x == C then 1 else if x == T then 2 else if x == M then 3 else 0
  }

  lemma FeedbackRefs(x: Sym)
    ensures FEEDBACK.Refs(x) == if x == M then {C, T} else if x == T then {C, SymYes} else {}
    ensures FEEDBACK.RoleOf(x) == if x == C then Choice([M]) else if x == M then Member(C) else Plain
  {
    if x == C {
      RefsOfOne(FEEDBACK, C, Asks(None));
    } else if x == M {
      RefsOfOne(FEEDBACK, M, Asks(Some(EBin(AndOp, ESym(C), ESym(T)))));
    } else if x == T {
      RefsOfOne(FEEDBACK, T, YesIf(ENot(ESym(C))));
    }
  }

  /** The dependencies have no cycle, but the member feeds back into its choice. */
  lemma FeedbackRanked()
    ensures FEEDBACK.Sane() && FEEDBACK.Graph().Ranks(FeedbackDepth)
    ensures forall rank: Sym -> nat :: FEEDBACK.Graph().Ranks(rank) ==> !FEEDBACK.Graph().NoFeedback(rank)
  {
    hide Config.Refs, FitsOne, Config.Sane;
    forall x: Sym
      ensures FitsOne(FEEDBACK, FeedbackDepth, C, M, x)
    {
      FeedbackFits(x);
    }
    OneChoice(FEEDBACK, FeedbackDepth, C, M);
    FeedbackRefs(T);
    FeedbackRefs(M);
    forall rank: Sym -> nat | FEEDBACK.Graph().Ranks(rank)
      ensures !FEEDBACK.Graph().NoFeedback(rank)
    {
      assert C in FEEDBACK.Graph().refs(T) && T in FEEDBACK.Graph().refs(M) && FEEDBACK.Graph().MemberOf(M, C);
    }
  }

  lemma FeedbackFits(x: Sym)
    ensures FitsOne(FEEDBACK, FeedbackDepth, C, M, x)
  {
    hide Config.Refs;
    FeedbackRefs(x);
  }

  /** The definitions contradict each other when the user wants the choice: if it
      is y then T is n, and no member is visible; if it is n then T is y, and M is
      visible to a choice at y. */
  lemma FeedbackHasNoSolution(w: World, v: Sym -> Val)
    requires w.cfg == FEEDBACK && C in w.hasUser && w.UserOf(C) == User(YES, "", None)
    ensures !w.Solution(v)
  {
    hide World.Step;
    if w.Solution(v) {
      ChoiceFollows(w, v);
      MemberOpposes(w, v);
    }
  }

  lemma ChoiceFollows(w: World, v: Sym -> Val)
    requires w.cfg == FEEDBACK && C in w.hasUser && w.UserOf(C) == User(YES, "", None) && v(C) == w.Step(v, C)
    ensures v(C).tri == if v(T).tri != NO then YES else NO
  {
    hide World.EnvOf, World.VisibleOf, World.DirOf, World.RevOf, World.ImpliedOf, World.DefaultOf, World.FirstDefault;
    OneProp(w, v, C, Choice([M]), Asks(None));
    OneProp(w, w.AtYes(v, C), C, Choice([M]), Asks(None));
    OneProp(w, w.AtYes(v, C), M, Member(C), Asks(Some(EBin(AndOp, ESym(C), ESym(T)))));
    FeedbackShows(w, w.AtYes(v, C));
    assert [M][1..] == [];
    assert w.FirstVisible(w.AtYes(v, C), [M]) == if v(T).tri != NO then Some(M) else None;
  }

  lemma MemberOpposes(w: World, v: Sym -> Val)
    requires w.cfg == FEEDBACK && v(T) == w.Step(v, T) && v(SymYes) == w.Step(v, SymYes)
    ensures v(T).tri == NO <==> v(C).tri == YES
  {
    hide World.EnvOf, World.VisibleOf, World.DirOf, World.RevOf, World.ImpliedOf, World.DefaultOf, World.FirstDefault;
    OneProp(w, v, T, Plain, YesIf(ENot(ESym(C))));
    FeedbackShows(w, v);
  }

  lemma FeedbackShows(w: World, v: Sym -> Val)
    ensures EvalOpt(Some(EBin(AndOp, ESym(C), ESym(T))), w.EnvOf(v)) == And(v(C).tri, v(T).tri)
    ensures EvalOpt(Some(ENot(ESym(C))), w.EnvOf(v)) == Not(v(C).tri)
    ensures EvalOpt(Some(ESym(SymYes)), w.EnvOf(v)) == v(SymYes).tri
  {
  }
}
