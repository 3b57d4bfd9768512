/** The plain definition of symbol values that sym_calc_value memoises: what
    each value must be, given the values of the symbols it depends on. */
module Valuation {
  import opened Tristates
  import opened Exprs
  import opened Symbols

  /** A calculated value: the tristate, the text of a string, int or hex
      symbol, and for a choice the member it selects. */
  datatype Val = Val(tri: Tristate, str: string, pick: Option<Sym>)

  /** def[S_DEF_USER]. */
  datatype User = User(tri: Tristate, str: string, pick: Option<Sym>)

  const NO_USER := User(NO, "", None)

  /** The three constants are always up to date. */
  function ConstVal(s: Sym): Val {
    if s == SymYes then Val(YES, "y", None)
    else if s == SymMod then Val(MOD, "m", None)
    else Val(NO, "n", None)
  }

  /** sym_get_string_value of a bool or tristate value. */
  function TristateText(t: Tristate, modules: Tristate): string {
    if t == NO then "n"
    else if t == YES then "y"
    else if modules == NO then "n" else "m"
  }

  type Compare = (SymType, string, SymType, string) -> int

  /** prop_get_symbol. */
  function PropSymbol(p: Prop): Option<Sym> {
    if p.value.Some? && p.value.value.ESym? then Some(p.value.value.sym) else None
  }

  /** The configuration, the outcome of comparing two typed texts, the names,
      the user's values, and modules_val. */
  datatype World = World(
    cfg: Config, compare: Compare, name: Sym -> string,
    hasUser: set<Sym>, user: map<Sym, User>, modulesVal: Tristate)
  {
    function UserOf(s: Sym): User {
      if s in user then user[s] else NO_USER
    }

    /** sym_get_string_value, with modules_val standing for the value of MODULES. */
    function Text(v: Sym -> Val, s: Sym): string {
      if s.IsLogical() then TristateText(v(s).tri, modulesVal) else v(s).str
    }

    function EnvOf(v: Sym -> Val): Env {
      Env(s => v(s).tri, (a: Sym, b: Sym) => compare(a.Type(), Text(v, a), b.Type(), Text(v, b)))
    }

    function ChoiceTri(v: Sym -> Val, s: Sym): Tristate {
      if cfg.RoleOf(s).Member? then v(cfg.RoleOf(s).choice).tri else NO
    }

    /** One prompt: a tristate choice value at m is invisible when its choice is y. */
    function PromptTri(v: Sym -> Val, s: Sym, p: Prop): Tristate {
      var t := EvalOpt(p.visible, EnvOf(v));
      if cfg.RoleOf(s).Member? && s.IsTristate() && t == MOD && ChoiceTri(v, s) == YES then NO else t
    }

    function PromptsTri(v: Sym -> Val, s: Sym, props: seq<Prop>): Tristate {
      if props == [] then NO
      else
        var t := PromptsTri(v, s, props[..|props| - 1]);
        var p := props[|props| - 1];
        if p.hasText then Or(t, PromptTri(v, s, p)) else t
    }

    function RoundVisible(s: Sym, t: Tristate): Tristate {
      if t == MOD && (!s.IsTristate() || modulesVal == NO) then YES else t
    }

    function VisibleOf(v: Sym -> Val, s: Sym): Tristate {
      RoundVisible(s, PromptsTri(v, s, cfg.InfoOf(s).props))
    }

    /** sym_get_type says S_BOOLEAN. */
    predicate ActsBool(s: Sym, visible: Tristate) {
      s.IsBool() || (s.IsTristate() && ((cfg.RoleOf(s).Member? && visible == YES) || modulesVal == NO))
    }

    function Round(s: Sym, visible: Tristate, t: Tristate): Tristate {
      if t == MOD && ActsBool(s, visible) then YES else t
    }

    /** A missing direct dependency counts as y, missing reverse ones as n; the
        dependencies of choice members are never calculated. */
    function DirOf(v: Sym -> Val, s: Sym): Tristate {
      if cfg.RoleOf(s).Member? then NO
      else Round(s, VisibleOf(v, s), OrAbsent(v, cfg.InfoOf(s).dirDep, YES))
    }

    function OrAbsent(v: Sym -> Val, e: Option<Expr>, absent: Tristate): Tristate {
      if e.None? then absent else Eval(e.value, EnvOf(v))
    }

    function RevOf(v: Sym -> Val, s: Sym): Tristate {
      if cfg.RoleOf(s).Member? then NO
      else Round(s, VisibleOf(v, s), OrAbsent(v, cfg.InfoOf(s).revDep, NO))
    }

    function ImpliedOf(v: Sym -> Val, s: Sym): Tristate {
      if cfg.RoleOf(s).Member? then NO
      else Round(s, VisibleOf(v, s), OrAbsent(v, cfg.InfoOf(s).implied, NO))
    }

    /** The first default property whose condition is not n. */
    function DefaultOf(v: Sym -> Val, props: seq<Prop>): Option<Prop> {
      if props == [] then None
      else if props[0].kind.DefaultProp? && EvalOpt(props[0].visible, EnvOf(v)) != NO then Some(props[0])
      else DefaultOf(v, props[1..])
    }

    function FromDefault(v: Sym -> Val, s: Sym): Tristate {
      var p := DefaultOf(v, cfg.InfoOf(s).props);
      if p.None? then NO else And(EvalOpt(p.value.value, EnvOf(v)), EvalOpt(p.value.visible, EnvOf(v)))
    }

    /** The value from defaults and implies. */
    function DefaultTri(v: Sym -> Val, s: Sym): Tristate {
      var t := FromDefault(v, s);
      if ImpliedOf(v, s) != NO then And(Or(t, ImpliedOf(v, s)), DirOf(v, s)) else t
    }

    /** The wanted value before selects: the user's, or else the default. */
    function WantedTri(v: Sym -> Val, s: Sym): Tristate {
      if VisibleOf(v, s) != NO && s in hasUser then And(UserOf(s).tri, VisibleOf(v, s))
      else if cfg.RoleOf(s).Choice? then NO
      else DefaultTri(v, s)
    }

    /** Selects raise the value, except that a select that the direct
        dependencies forbid drops it to n. */
    function SelectedTri(t: Tristate, dir: Tristate, rev: Tristate): Tristate {
      if dir == NO && rev != NO then NO else Or(t, rev)
    }

    function LogicalTri(v: Sym -> Val, s: Sym): Tristate {
      var visible := VisibleOf(v, s);
      var t :=
        if cfg.RoleOf(s).Member? && visible == YES then OfBool(v(cfg.RoleOf(s).choice).pick == Some(s))
        else SelectedTri(WantedTri(v, s), DirOf(v, s), RevOf(v, s));
      Round(s, visible, t)
    }

    /** The assignment a choice shows while it looks for its member: y. */
    function AtYes(v: Sym -> Val, c: Sym): Sym -> Val {
      s => if s == c then Val(YES, "n", None) else v(s)
    }

    function FirstVisible(v: Sym -> Val, members: seq<Sym>): Option<Sym> {
      if members == [] then None
      else if VisibleOf(v, members[0]) != NO then Some(members[0])
      else FirstVisible(v, members[1..])
    }

    function FirstDefault(v: Sym -> Val, props: seq<Prop>): Option<Sym> {
      if props == [] then None
      else if props[0].kind.DefaultProp? && EvalOpt(props[0].visible, EnvOf(v)) != NO &&
              PropSymbol(props[0]).Some? && VisibleOf(v, PropSymbol(props[0]).value) != NO then
        PropSymbol(props[0])
      else FirstDefault(v, props[1..])
    }

    /** The member of a choice at y: the user's pick if visible, else the first
        applicable visible default, else the first visible member. */
    function PickOf(v: Sym -> Val, c: Sym): Option<Sym>
      requires cfg.RoleOf(c).Choice?
    {
      if UserOf(c).pick.Some? && VisibleOf(v, UserOf(c).pick.value) != NO then UserOf(c).pick
      else if FirstDefault(v, cfg.InfoOf(c).props).Some? then FirstDefault(v, cfg.InfoOf(c).props)
      else FirstVisible(v, cfg.RoleOf(c).members)
    }

    function StringVal(v: Sym -> Val, s: Sym): Val {
      if VisibleOf(v, s) != NO && s in hasUser then Val(NO, UserOf(s).str, None)
      else
        var p := DefaultOf(v, cfg.InfoOf(s).props);
        if p.Some? && PropSymbol(p.value).Some? then Val(NO, v(PropSymbol(p.value).value).str, None)
        else Val(NO, "", None)
    }

    /** The value before a choice at y looks for its member. */
    function PlainVal(v: Sym -> Val, s: Sym): Val {
      if s.IsLogical() then Val(LogicalTri(v, s), "n", None) else StringVal(v, s)
    }

    lemma ChoiceVal(v: Sym -> Val, c: Sym)
      requires cfg.Sane() && cfg.RoleOf(c).Choice? && !c.Type().UnknownType?
      ensures PlainVal(v, c) == Val(PlainVal(v, c).tri, "n", None)
    {
    }

    /** The value of a symbol, given the values of all others. */
    function Step(v: Sym -> Val, s: Sym): Val {
      if !s.Sym? then ConstVal(s)
      else if s.Type().UnknownType? then Val(NO, name(s), None)
      else if cfg.RoleOf(s).Choice? && PlainVal(v, s).tri == YES then
        var pick := PickOf(AtYes(v, s), s);
        Val(if pick.None? then NO else YES, "n", pick)
      else PlainVal(v, s)
    }

    /** Every visible member of the choice has a value from the user. */
    ghost predicate AllSet(v: Sym -> Val, c: Sym)
      requires cfg.RoleOf(c).Choice?
    {
      forall m :: m in cfg.RoleOf(c).members && VisibleOf(v, m) != NO ==> m in hasUser
    }

    /** The choices that lose the user's value when they are evaluated: those at
        y with a visible member that has no value from the user. */
    ghost predicate Forgets(v: Sym -> Val, c: Sym) {
      cfg.RoleOf(c).Choice? && !c.Type().UnknownType? && PlainVal(v, c).tri == YES && !AllSet(AtYes(v, c), c)
    }

    /** Every value is what the definition says. */
    ghost predicate Solution(v: Sym -> Val) {
      forall s: Sym :: v(s) == Step(v, s)
    }

    /** The same, below one place of a ranking. */
    ghost predicate SolvesBelow(v: Sym -> Val, rank: Sym -> nat, b: nat) {
      forall s: Sym :: rank(s) < b ==> v(s) == Step(v, s)
    }

    // ----- what a value depends on -----

    ghost predicate Agree(v: Sym -> Val, v': Sym -> Val, ss: set<Sym>) {
      forall t :: t in ss ==> v(t) == v'(t)
    }

    lemma EvalAgree(e: Expr, v: Sym -> Val, v': Sym -> Val)
      requires Agree(v, v', Syms(e))
      ensures Eval(e, EnvOf(v)) == Eval(e, EnvOf(v'))
    {
      forall s, t | s in Syms(e) && t in Syms(e)
        ensures EnvOf(v).order(s, t) == EnvOf(v').order(s, t)
      {
        assert Text(v, s) == Text(v', s) && Text(v, t) == Text(v', t);
      }
      EvalLocal(e, EnvOf(v), EnvOf(v'));
    }

    lemma EvalOptAgree(e: Option<Expr>, v: Sym -> Val, v': Sym -> Val)
      requires Agree(v, v', SymsOpt(e))
      ensures EvalOpt(e, EnvOf(v)) == EvalOpt(e, EnvOf(v'))
      ensures forall t: Tristate :: OrAbsent(v, e, t) == OrAbsent(v', e, t)
    {
      if e.Some? {
        EvalAgree(e.value, v, v');
      }
    }

    /** The defaults of a choice and the user's pick are members, and a member has a prompt
        and its prompt conditions mention the choice (as menu_finalize arranges). */
    ghost predicate WellFormed() {
      && cfg.Sane()
      && (forall c: Sym, p: Prop :: p in cfg.InfoOf(c).props && cfg.RoleOf(c).Choice? && p.kind.DefaultProp? ==>
          PropSymbol(p).Some? && PropSymbol(p).value in cfg.RoleOf(c).members)
      && (forall c: Sym :: cfg.RoleOf(c).Choice? && UserOf(c).pick.Some? ==>
          UserOf(c).pick.value in cfg.RoleOf(c).members)
      && (forall m: Sym :: cfg.RoleOf(m).Member? ==> MentionsChoice(m))
    }

    ghost predicate MentionsChoice(m: Sym)
      requires cfg.RoleOf(m).Member?
    {
      && (exists p :: p in cfg.InfoOf(m).props && p.hasText)
      && (forall p :: p in cfg.InfoOf(m).props && p.hasText ==> cfg.RoleOf(m).choice in SymsOpt(p.visible))
    }

    /** What the visibility, dependencies and defaults of `s` read. */
    ghost predicate AgreeFor(v: Sym -> Val, v': Sym -> Val, s: Sym) {
      Agree(v, v', cfg.Refs(s)) && (cfg.RoleOf(s).Member? ==> v(cfg.RoleOf(s).choice) == v'(cfg.RoleOf(s).choice))
    }

    lemma {:induction false} PromptsAgree(v: Sym -> Val, v': Sym -> Val, s: Sym, props: seq<Prop>)
      requires AgreeFor(v, v', s) && cfg.PropsRefs(s, props) <= cfg.Refs(s)
      requires forall p :: p in props && p.hasText ==> Config.FollowsVisible(p)
      ensures PromptsTri(v, s, props) == PromptsTri(v', s, props)
    {
      if props != [] {
        var p := props[|props| - 1];
        PromptsAgree(v, v', s, props[..|props| - 1]);
        if p.hasText {
          assert SymsOpt(p.visible) <= cfg.PropRefs(s, p);
          EvalOptAgree(p.visible, v, v');
        }
      }
    }

    lemma VisibleAgree(v: Sym -> Val, v': Sym -> Val, s: Sym)
      requires WellFormed() && AgreeFor(v, v', s)
      ensures VisibleOf(v, s) == VisibleOf(v', s)
    {
      PromptsAgree(v, v', s, cfg.InfoOf(s).props);
    }

    lemma DependenciesAgree(v: Sym -> Val, v': Sym -> Val, s: Sym)
      requires WellFormed() && AgreeFor(v, v', s)
      ensures DirOf(v, s) == DirOf(v', s) && RevOf(v, s) == RevOf(v', s) && ImpliedOf(v, s) == ImpliedOf(v', s)
    {
      VisibleAgree(v, v', s);
      EvalOptAgree(cfg.InfoOf(s).dirDep, v, v');
      EvalOptAgree(cfg.InfoOf(s).revDep, v, v');
      EvalOptAgree(cfg.InfoOf(s).implied, v, v');
    }

    ghost predicate DefaultsSeenAlike(v: Sym -> Val, v': Sym -> Val, props: seq<Prop>) {
      forall p :: p in props && p.kind.DefaultProp? && PropSymbol(p).Some? ==>
        VisibleOf(v, PropSymbol(p).value) == VisibleOf(v', PropSymbol(p).value)
    }

    lemma {:induction false} DefaultAgree(v: Sym -> Val, v': Sym -> Val, s: Sym, props: seq<Prop>)
      requires Agree(v, v', cfg.Refs(s))
      requires forall p :: p in props ==> cfg.PropRefs(s, p) <= cfg.Refs(s)
      ensures DefaultOf(v, props) == DefaultOf(v', props)
      ensures DefaultOf(v, props).Some? ==>
          DefaultOf(v, props).value in props && DefaultOf(v, props).value.kind.DefaultProp?
      ensures DefaultsSeenAlike(v, v', props) ==> FirstDefault(v, props) == FirstDefault(v', props)
    {
      if props != [] {
        var p := props[0];
        assert cfg.PropRefs(s, p) <= cfg.Refs(s);
        if p.kind.DefaultProp? {
          EvalOptAgree(p.visible, v, v');
        }
        DefaultAgree(v, v', s, props[1..]);
      }
    }

    lemma {:induction false} FirstVisibleAgree(v: Sym -> Val, v': Sym -> Val, members: seq<Sym>)
      requires forall m :: m in members ==> VisibleOf(v, m) == VisibleOf(v', m)
      ensures FirstVisible(v, members) == FirstVisible(v', members)
    {
      if members != [] {
        FirstVisibleAgree(v, v', members[1..]);
      }
    }

    lemma PropsInRefs(s: Sym)
      ensures forall p :: p in cfg.InfoOf(s).props ==> cfg.PropRefs(s, p) <= cfg.Refs(s)
    {
      var props := cfg.InfoOf(s).props;
      forall p | p in props
        ensures cfg.PropRefs(s, p) <= cfg.Refs(s)
      {
        var i :| 0 <= i < |props| && props[i] == p;
        RefsOfProps(cfg, s, props, i);
      }
    }

    lemma LogicalAgree(v: Sym -> Val, v': Sym -> Val, s: Sym)
      requires WellFormed() && AgreeFor(v, v', s)
      ensures LogicalTri(v, s) == LogicalTri(v', s)
    {
      hide Config.Refs, WantedTri;
      VisibleAgree(v, v', s);
      DependenciesAgree(v, v', s);
      WantedAgree(v, v', s);
    }

    lemma WantedAgree(v: Sym -> Val, v': Sym -> Val, s: Sym)
      requires WellFormed() && AgreeFor(v, v', s)
      ensures WantedTri(v, s) == WantedTri(v', s)
    {
      hide WellFormed, AgreeFor, VisibleOf, DirOf, RevOf, ImpliedOf, Config.Refs;
      VisibleAgree(v, v', s);
      DependenciesAgree(v, v', s);
      if !cfg.RoleOf(s).Choice? {
        DefaultTriParts(v, v', s);
      }
    }

    lemma DefaultTriParts(v: Sym -> Val, v': Sym -> Val, s: Sym)
      requires AgreeFor(v, v', s) && !cfg.RoleOf(s).Choice?
      ensures var d := DefaultOf(v, cfg.InfoOf(s).props);
              d == DefaultOf(v', cfg.InfoOf(s).props) &&
              (d.Some? ==> EvalOpt(d.value.visible, EnvOf(v)) == EvalOpt(d.value.visible, EnvOf(v')) &&
                           EvalOpt(d.value.value, EnvOf(v)) == EvalOpt(d.value.value, EnvOf(v')))
    {
      PropsInRefs(s);
      DefaultAgree(v, v', s, cfg.InfoOf(s).props);
      DefaultValueAgree(v, v', s);
    }

    lemma DefaultValueAgree(v: Sym -> Val, v': Sym -> Val, s: Sym)
      requires Agree(v, v', cfg.Refs(s)) && !cfg.RoleOf(s).Choice?
      ensures var d := DefaultOf(v, cfg.InfoOf(s).props);
              d.Some? ==> EvalOpt(d.value.visible, EnvOf(v)) == EvalOpt(d.value.visible, EnvOf(v')) &&
                          EvalOpt(d.value.value, EnvOf(v)) == EvalOpt(d.value.value, EnvOf(v')) &&
                          (PropSymbol(d.value).Some? ==> PropSymbol(d.value).value in cfg.Refs(s))
    {
      PropsInRefs(s);
      DefaultAgree(v, v', s, cfg.InfoOf(s).props);
      var d := DefaultOf(v, cfg.InfoOf(s).props);
      if d.Some? {
        assert cfg.PropRefs(s, d.value) == SymsOpt(d.value.visible) + SymsOpt(d.value.value);
        EvalOptAgree(d.value.visible, v, v');
        EvalOptAgree(d.value.value, v, v');
      }
    }

    /** The pick of a choice depends on what its own conditions and those of its
        members read. */
    lemma PickAgree(v: Sym -> Val, v': Sym -> Val, c: Sym)
      requires WellFormed() && cfg.RoleOf(c).Choice? && AgreeFor(v, v', c)
      requires forall m :: m in cfg.RoleOf(c).members ==> AgreeFor(v, v', m)
      ensures PickOf(v, c) == PickOf(v', c)
    {
      forall m | m in cfg.RoleOf(c).members
        ensures VisibleOf(v, m) == VisibleOf(v', m)
      {
        VisibleAgree(v, v', m);
      }
      FirstVisibleAgree(v, v', cfg.RoleOf(c).members);
      PropsInRefs(c);
      DefaultAgree(v, v', c, cfg.InfoOf(c).props);
    }

    /** The definition of a symbol's value reads only values of lower rank. */
    lemma StepLocal(v: Sym -> Val, v': Sym -> Val, rank: Sym -> nat, s: Sym)
      requires WellFormed() && cfg.Graph().Ranks(rank) && cfg.Graph().NoFeedback(rank)
      requires forall t: Sym :: rank(t) < rank(s) ==> v(t) == v'(t)
      ensures Step(v, s) == Step(v', s)
    {
      hide WellFormed, LogicalTri, PickOf, StringVal, DepGraph.Ranks, DepGraph.NoFeedback, DepGraph.Closed, AgreeFor;
      hide Config.Graph;
      RanksBelow(v, v', rank, s);
      LogicalAgree(v, v', s);
      if !s.Type().UnknownType? && !s.IsLogical() {
        StringAgree(v, v', s);
      }
      if cfg.RoleOf(s).Choice? {
        PickLocal(v, v', rank, s);
      }
    }

    lemma PickLocal(v: Sym -> Val, v': Sym -> Val, rank: Sym -> nat, c: Sym)
      requires WellFormed() && cfg.Graph().Ranks(rank) && cfg.Graph().NoFeedback(rank) && cfg.RoleOf(c).Choice?
      requires forall t: Sym :: rank(t) < rank(c) ==> v(t) == v'(t)
      ensures PickOf(AtYes(v, c), c) == PickOf(AtYes(v', c), c)
    {
      var w, w' := AtYes(v, c), AtYes(v', c);
      forall m | m in cfg.RoleOf(c).members
        ensures AgreeFor(w, w', m)
      {
        MembersBelow(v, v', rank, c, m);
      }
      RanksBelow(v, v', rank, c);
      assert AgreeFor(w, w', c);
      PickAgree(w, w', c);
    }

    lemma StringAgree(v: Sym -> Val, v': Sym -> Val, s: Sym)
      requires WellFormed() && AgreeFor(v, v', s) && !s.IsLogical() && !s.Type().UnknownType?
      ensures StringVal(v, s) == StringVal(v', s)
    {
      VisibleAgree(v, v', s);
      PropsInRefs(s);
      DefaultAgree(v, v', s, cfg.InfoOf(s).props);
      DefaultValueAgree(v, v', s);
    }

    lemma RanksBelow(v: Sym -> Val, v': Sym -> Val, rank: Sym -> nat, s: Sym)
      requires cfg.Graph().Ranks(rank)
      requires forall t: Sym :: rank(t) < rank(s) ==> v(t) == v'(t)
      ensures AgreeFor(v, v', s)
    {
      forall t | t in cfg.Refs(s)
        ensures v(t) == v'(t)
      {
        assert t in cfg.Graph().refs(s);
      }
      if cfg.RoleOf(s).Member? {
        assert cfg.Graph().MemberOf(s, cfg.RoleOf(s).choice);
      }
    }

    lemma MembersBelow(v: Sym -> Val, v': Sym -> Val, rank: Sym -> nat, c: Sym, m: Sym)
      requires cfg.Graph().Closed() && cfg.Graph().NoFeedback(rank) && cfg.RoleOf(c).Choice?
      requires m in cfg.RoleOf(c).members
      requires forall t: Sym :: rank(t) < rank(c) ==> v(t) == v'(t)
      ensures AgreeFor(AtYes(v, c), AtYes(v', c), m) && cfg.RoleOf(m) == Member(c)
    {
      assert cfg.Graph().role(c).Choice? && m in cfg.Graph().role(c).members;
      assert cfg.Graph().MemberOf(m, c);
      forall t | t in cfg.Refs(m)
        ensures AtYes(v, c)(t) == AtYes(v', c)(t)
      {
        assert t in cfg.Graph().refs(m);
      }
    }
  }

  // ----- solutions -----

  /** On a ranked configuration there is at most one solution, */
  lemma {:induction false} SolutionUnique(w: World, rank: Sym -> nat, v: Sym -> Val, v': Sym -> Val, s: Sym)
    requires w.WellFormed() && w.cfg.Graph().Ranks(rank) && w.cfg.Graph().NoFeedback(rank)
    requires w.Solution(v) && w.Solution(v')
    ensures v(s) == v'(s)
    decreases rank(s)
  {
    hide World.Step, World.WellFormed, Config.Graph, DepGraph.Ranks, DepGraph.NoFeedback;
    forall t: Sym | rank(t) < rank(s)
      ensures v(t) == v'(t)
    {
      SolutionUnique(w, rank, v, v', t);
    }
    w.StepLocal(v, v', rank, s);
  }

  ghost function Rounds(w: World, k: nat): Sym -> Val {
    if k == 0 then s => Val(NO, "", None)
    else
      var before := Rounds(w, k - 1);
      s => w.Step(before, s)
  }

  lemma {:induction false} RoundsSettle(w: World, rank: Sym -> nat, k: nat, s: Sym)
    requires w.WellFormed() && w.cfg.Graph().Ranks(rank) && w.cfg.Graph().NoFeedback(rank)
    requires rank(s) < k
    ensures Rounds(w, k)(s) == Rounds(w, rank(s) + 1)(s)
    decreases rank(s)
  {
    hide World.Step, World.WellFormed, Config.Graph, DepGraph.Ranks, DepGraph.NoFeedback;
    forall t: Sym | rank(t) < rank(s)
      ensures Rounds(w, k - 1)(t) == Rounds(w, rank(s))(t)
    {
      RoundsSettle(w, rank, k - 1, t);
      RoundsSettle(w, rank, rank(s), t);
    }
    w.StepLocal(Rounds(w, k - 1), Rounds(w, rank(s)), rank, s);
    RoundsStep(w, k, s);
    RoundsStep(w, rank(s) + 1, s);
  }

  lemma RoundsStep(w: World, k: nat, s: Sym)
    requires k > 0
    ensures Rounds(w, k)(s) == w.Step(Rounds(w, k - 1), s)
  {
    hide World.Step;
  }

  /** and there is one: each value settles after as many rounds as its rank. */
  lemma SolutionExists(w: World, rank: Sym -> nat)
    requires w.WellFormed() && w.cfg.Graph().Ranks(rank) && w.cfg.Graph().NoFeedback(rank)
    ensures exists v: Sym -> Val :: w.Solution(v)
  {
    hide World.Step, World.WellFormed, Config.Graph, DepGraph.Ranks, DepGraph.NoFeedback;
    var v: Sym -> Val := s => Rounds(w, rank(s) + 1)(s);
    forall s: Sym
      ensures v(s) == w.Step(v, s)
    {
      forall t: Sym | rank(t) < rank(s)
        ensures v(t) == Rounds(w, rank(s))(t)
      {
        RoundsSettle(w, rank, rank(s), t);
      }
      w.StepLocal(v, Rounds(w, rank(s)), rank, s);
      RoundsStep(w, rank(s) + 1, s);
    }
    assert w.Solution(v);
  }

  /** The references of a symbol, taken apart. */
  lemma {:induction false} RefsOfProps(cfg: Config, s: Sym, props: seq<Prop>, i: nat)
    requires i < |props|
    ensures cfg.PropRefs(s, props[i]) <= cfg.PropsRefs(s, props)
    decreases |props|
  {
    if i < |props| - 1 {
      assert props[..|props| - 1][i] == props[i];
      RefsOfProps(cfg, s, props[..|props| - 1], i);
    }
  }
}
