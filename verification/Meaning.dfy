/** The meaning of a configuration: the one assignment in which every symbol has
    the value that its definition gives and modules_val is the value of MODULES. */
module Meaning {
  import opened Tristates
  import opened Exprs
  import opened Symbols
  import opened Valuation
  import opened EvalState
  import opened EvalContracts
  import opened Choices

  /** The world as it is once MODULES has the value it has in `v`. */
  function Settling(w: World, v: Sym -> Val): World {
    w.(modulesVal := v(w.cfg.modules).tri)
  }

  ghost predicate IsMeaning(w: World, v: Sym -> Val) {
    Settling(w, v).Solution(v)
  }

  /** Everything that MODULES depends on is a plain bool symbol, and the ranking
      puts it before all other symbols. */
  ghost predicate BoolFirst(cfg: Config, rank: Sym -> nat) {
    forall x: Sym :: rank(x) <= rank(cfg.modules) && x.Sym? ==>
      (x.IsBool() || x.Type().UnknownType?) && cfg.RoleOf(x).Plain?
  }

  ghost predicate Ordered(w: World, rank: Sym -> nat) {
    w.WellFormed() && w.cfg.Graph().Ranks(rank) && w.cfg.Graph().NoFeedback(rank) && BoolFirst(w.cfg, rank)
  }

  /** A set of symbols closed under dependencies, all plain bools. */
  ghost predicate BoolClosed(cfg: Config, d: set<Sym>) {
    && cfg.modules in d
    && (forall s: Sym, t: Sym :: s in d && cfg.Graph().Edge(s, t) ==> t in d)
    && (forall s: Sym :: s in d && s.Sym? ==> (s.IsBool() || s.Type().UnknownType?) && cfg.RoleOf(s).Plain?)
  }

  /** If MODULES depends on plain bool symbols only, any ranking can be changed
      to one that puts these first. */
  lemma ModulesFirst(w: World, rank: Sym -> nat, d: set<Sym>) returns (first: Sym -> nat)
    requires w.WellFormed() && w.cfg.Graph().Ranks(rank) && w.cfg.Graph().NoFeedback(rank) && BoolClosed(w.cfg, d)
    ensures Ordered(w, first)
  {
    hide World.WellFormed, Config.Graph;
    var top := rank(w.cfg.modules);
    first := s => if s in d then rank(s) else rank(s) + top + 1;
    var g := w.cfg.Graph();
    forall s: Sym, t: Sym | t in g.refs(s)
      ensures first(t) < first(s)
    {
      assert g.Edge(s, t);
    }
    forall s: Sym, c: Sym | g.MemberOf(s, c)
      ensures first(c) < first(s)
    {
      assert g.Edge(s, c);
    }
    forall m: Sym, c: Sym, t: Sym | g.MemberOf(m, c) && t in g.refs(m)
      ensures t == c || first(t) < first(c)
    {
      ChoiceOutside(w, d, m, c);
    }
  }

  lemma ChoiceOutside(w: World, d: set<Sym>, m: Sym, c: Sym)
    requires w.WellFormed() && BoolClosed(w.cfg, d) && w.cfg.Graph().MemberOf(m, c)
    ensures c !in d
  {
    assert w.cfg.Graph().role(c).Choice?;
  }

  // ----- modules_val does not matter up to MODULES -----

  ghost predicate NeverMod(v: Sym -> Val, ss: set<Sym>) {
    forall t :: t in ss && t.Sym? ==> v(t).tri != MOD
  }

  /** Two worlds with the same configuration show these symbols alike. */
  ghost predicate Alike(w: World, w': World, v: Sym -> Val, ss: set<Sym>) {
    && w.cfg == w'.cfg && w.compare == w'.compare && w.name == w'.name
    && forall t :: t in ss ==> w.Text(v, t) == w'.Text(v, t)
  }

  lemma AlikeNeverMod(w: World, w': World, v: Sym -> Val, ss: set<Sym>)
    requires w' == w.(modulesVal := w'.modulesVal) && NeverMod(v, ss)
    ensures Alike(w, w', v, ss)
  {
  }

  lemma EvalAlike(w: World, w': World, v: Sym -> Val, e: Expr)
    requires Alike(w, w', v, Syms(e))
    ensures Eval(e, w.EnvOf(v)) == Eval(e, w'.EnvOf(v))
  {
    hide World.Text;
    forall s, t | s in Syms(e) && t in Syms(e)
      ensures w.EnvOf(v).order(s, t) == w'.EnvOf(v).order(s, t)
    {
      assert w.Text(v, s) == w'.Text(v, s) && w.Text(v, t) == w'.Text(v, t);
    }
    EvalLocal(e, w.EnvOf(v), w'.EnvOf(v));
  }

  lemma OptAlike(w: World, w': World, v: Sym -> Val, e: Option<Expr>)
    requires Alike(w, w', v, SymsOpt(e))
    ensures EvalOpt(e, w.EnvOf(v)) == EvalOpt(e, w'.EnvOf(v))
    ensures forall t: Tristate :: w.OrAbsent(v, e, t) == w'.OrAbsent(v, e, t)
  {
    hide World.Text;
    if e.Some? {
      EvalAlike(w, w', v, e.value);
    }
  }

  lemma {:induction false} PromptsAlike(w: World, w': World, v: Sym -> Val, s: Sym, props: seq<Prop>)
    requires Alike(w, w', v, w.cfg.Refs(s)) && w.cfg.PropsRefs(s, props) <= w.cfg.Refs(s)
    requires forall p :: p in props && p.hasText ==> Config.FollowsVisible(p)
    ensures w.PromptsTri(v, s, props) == w'.PromptsTri(v, s, props)
  {
    hide World.Text;
    if props != [] {
      var p := props[|props| - 1];
      PromptsAlike(w, w', v, s, props[..|props| - 1]);
      if p.hasText {
        assert SymsOpt(p.visible) <= w.cfg.PropRefs(s, p);
        OptAlike(w, w', v, p.visible);
      }
    }
  }

  lemma {:induction false} DefaultAlike(w: World, w': World, v: Sym -> Val, s: Sym, props: seq<Prop>)
    requires Alike(w, w', v, w.cfg.Refs(s))
    requires forall p :: p in props ==> w.cfg.PropRefs(s, p) <= w.cfg.Refs(s)
    ensures var d := w.DefaultOf(v, props);
            d == w'.DefaultOf(v, props) &&
            (d.Some? ==> EvalOpt(d.value.visible, w.EnvOf(v)) == EvalOpt(d.value.visible, w'.EnvOf(v)) &&
                         (!w.cfg.RoleOf(s).Choice? ==>
                             EvalOpt(d.value.value, w.EnvOf(v)) == EvalOpt(d.value.value, w'.EnvOf(v))))
    ensures (forall p :: p in props && p.kind.DefaultProp? && PropSymbol(p).Some? ==>
              w.VisibleOf(v, PropSymbol(p).value) == w'.VisibleOf(v, PropSymbol(p).value)) ==>
            w.FirstDefault(v, props) == w'.FirstDefault(v, props)
  {
    hide Config.Refs, World.EnvOf, World.Text, World.VisibleOf;
    if props != [] {
      var p := props[0];
      assert w.cfg.PropRefs(s, p) <= w.cfg.Refs(s);
      if p.kind.DefaultProp? {
        OptAlike(w, w', v, p.visible);
        if !w.cfg.RoleOf(s).Choice? {
          assert w.cfg.PropRefs(s, p) == SymsOpt(p.visible) + SymsOpt(p.value);
          OptAlike(w, w', v, p.value);
        }
      }
      DefaultAlike(w, w', v, s, props[1..]);
    }
  }

  /** A plain bool symbol whose references are never m has the same value for
      every modules_val. */
  lemma StepAnyModules(w: World, w': World, v: Sym -> Val, s: Sym)
    requires w' == w.(modulesVal := w'.modulesVal) && w.WellFormed() && NeverMod(v, w.cfg.Refs(s))
    requires !s.Sym? || ((s.IsBool() || s.Type().UnknownType?) && w.cfg.RoleOf(s).Plain?)
    ensures w.Step(v, s) == w'.Step(v, s)
  {
    hide Config.Refs, World.WellFormed, World.EnvOf, EvalOpt, World.OrAbsent, World.VisibleOf, World.DefaultOf;
    if s.Sym? && s.IsBool() {
      VisibleAnyModules(w, w', v, s);
      DepsAnyModules(w, w', v, s);
      w.PropsInRefs(s);
      AlikeNeverMod(w, w', v, w.cfg.Refs(s));
      DefaultAlike(w, w', v, s, w.cfg.InfoOf(s).props);
    }
  }

  lemma VisibleAnyModules(w: World, w': World, v: Sym -> Val, s: Sym)
    requires w' == w.(modulesVal := w'.modulesVal) && w.WellFormed() && NeverMod(v, w.cfg.Refs(s))
    requires s.IsBool() && w.cfg.RoleOf(s).Plain?
    ensures w.VisibleOf(v, s) == w'.VisibleOf(v, s)
  {
    hide Config.Graph;
    AlikeNeverMod(w, w', v, w.cfg.Refs(s));
    PromptsAlike(w, w', v, s, w.cfg.InfoOf(s).props);
  }

  lemma DepsAnyModules(w: World, w': World, v: Sym -> Val, s: Sym)
    requires w' == w.(modulesVal := w'.modulesVal) && w.WellFormed() && NeverMod(v, w.cfg.Refs(s))
    requires s.IsBool() && w.cfg.RoleOf(s).Plain?
    ensures w.DirOf(v, s) == w'.DirOf(v, s) && w.RevOf(v, s) == w'.RevOf(v, s)
    ensures w.ImpliedOf(v, s) == w'.ImpliedOf(v, s)
  {
    hide World.WellFormed, World.OrAbsent, World.VisibleOf;
    VisibleAnyModules(w, w', v, s);
    AlikeNeverMod(w, w', v, w.cfg.Refs(s));
    var info := w.cfg.InfoOf(s);
    OptAlike(w, w', v, info.dirDep);
    OptAlike(w, w', v, info.revDep);
    OptAlike(w, w', v, info.implied);
  }

  /** Up to MODULES, a meaning satisfies the definitions for every modules_val. */
  lemma LowStep(w: World, w': World, rank: Sym -> nat, v: Sym -> Val, s: Sym)
    requires w' == w.(modulesVal := w'.modulesVal) && Ordered(w, rank) && w.Solution(v)
    requires rank(s) <= rank(w.cfg.modules)
    ensures v(s) == w'.Step(v, s)
  {
    hide World.WellFormed, World.Step, DepGraph.Ranks, DepGraph.NoFeedback, Config.Graph, Config.Refs;
    forall t | t in w.cfg.Refs(s) && t.Sym?
      ensures v(t).tri != MOD
    {
      RefLower(w, rank, s, t);
      LowNeverMod(w, v, t);
    }
    StepAnyModules(w, w', v, s);
  }

  lemma RefLower(w: World, rank: Sym -> nat, s: Sym, t: Sym)
    requires w.cfg.Graph().Ranks(rank) && t in w.cfg.Refs(s)
    ensures rank(t) < rank(s)
  {
    assert t in w.cfg.Graph().refs(s);
  }

  lemma LowNeverMod(w: World, v: Sym -> Val, s: Sym)
    requires w.Solution(v) && s.Sym? && (s.IsBool() || s.Type().UnknownType?) && w.cfg.RoleOf(s).Plain?
    ensures v(s).tri != MOD
  {
    hide World.VisibleOf, World.WantedTri, World.DirOf, World.RevOf, World.StringVal;
    assert v(s) == w.Step(v, s);
  }

  /** Two solutions agree up to MODULES, whatever their modules_val. */
  lemma {:induction false} LowSame(w: World, w': World, rank: Sym -> nat, v: Sym -> Val, v': Sym -> Val, s: Sym)
    requires w' == w.(modulesVal := w'.modulesVal) && Ordered(w, rank) && w.Solution(v) && w'.Solution(v')
    requires rank(s) <= rank(w.cfg.modules)
    ensures v(s) == v'(s)
    decreases rank(s)
  {
    hide World.WellFormed, World.Step, DepGraph.Ranks, DepGraph.NoFeedback, Config.Graph;
    forall t: Sym | rank(t) < rank(s)
      ensures v(t) == v'(t)
    {
      LowSame(w, w', rank, v, v', t);
    }
    SameForm(w, w');
    LowStep(w, w', rank, v, s);
    w'.StepLocal(v, v', rank, s);
  }

  lemma SameForm(w: World, w': World)
    requires w' == w.(modulesVal := w'.modulesVal) && w.WellFormed()
    ensures w'.WellFormed()
  {
    forall m: Sym | w.cfg.RoleOf(m).Member?
      ensures w'.MentionsChoice(m)
    {
      assert w.MentionsChoice(m);
    }
  }

  /** Every ordered configuration has a meaning, */
  lemma MeaningExists(w: World, rank: Sym -> nat) returns (v: Sym -> Val)
    requires Ordered(w, rank)
    ensures IsMeaning(w, v)
  {
    hide World.WellFormed, World.Solution, DepGraph.Ranks, DepGraph.NoFeedback, Config.Graph;
    SolutionExists(w, rank);
    var v0: Sym -> Val :| w.Solution(v0);
    var w' := Settling(w, v0);
    SameForm(w, w');
    SolutionExists(w', rank);
    v :| w'.Solution(v);
    LowSame(w, w', rank, v0, v, w.cfg.modules);
    assert Settling(w, v) == w';
  }

  /** and only one. */
  lemma MeaningUnique(w: World, rank: Sym -> nat, v: Sym -> Val, v': Sym -> Val, s: Sym)
    requires Ordered(w, rank) && IsMeaning(w, v) && IsMeaning(w, v')
    ensures v(s) == v'(s)
  {
    hide World.WellFormed, World.Solution, DepGraph.Ranks, DepGraph.NoFeedback, Config.Graph;
    var a, b := Settling(w, v), Settling(w, v');
    SameForm(w, a);
    LowSame(a, b, rank, v, v', w.cfg.modules);
    SolutionUnique(a, rank, v, v', s);
  }

  // ----- caches that agree with the meaning -----

  function Final(w: World, rank: Sym -> nat, v: Sym -> Val, b: nat): Ctx {
    Ctx(Settling(w, v), rank, v, v, {}, {}, b)
  }

  /** Every symbol that is up to date has its value in the meaning `v`. */
  ghost predicate UpToDate(w: World, rank: Sym -> nat, v: Sym -> Val, a: EState) {
    Ordered(w, rank) && IsMeaning(w, v) && Final(w, rank, v, 0).Good(a) && a.IsValid(w.cfg.modules)
  }

  /** From an up-to-date cache every symbol may be evaluated. */
  lemma AnyPlace(w: World, rank: Sym -> nat, v: Sym -> Val, a: EState, b: nat)
    requires UpToDate(w, rank, v, a)
    ensures Final(w, rank, v, b).Good(a)
  {
    hide World.WellFormed, World.Step, DepGraph.Ranks, DepGraph.NoFeedback, Config.Graph, BoolFirst, Ctx.MembersShown;
    hide World.VisibleOf, World.DirOf, World.RevOf, World.Forgets;
    Final(w, rank, v, 0).ShownOn(a, Final(w, rank, v, b), a);
  }

  lemma StaysUpToDate(w: World, rank: Sym -> nat, v: Sym -> Val, a: EState, z: EState, s: Sym)
    requires UpToDate(w, rank, v, a) && ValueDone(Final(w, rank, v, rank(s) + 1), a, z, s)
    ensures UpToDate(w, rank, v, z) && z.IsValid(s) && z.Curr(s) == v(s) && a.valid <= z.valid
  {
    hide World.WellFormed, World.Step, DepGraph.Ranks, DepGraph.NoFeedback, Config.Graph, BoolFirst, Ctx.MembersShown;
    hide World.VisibleOf, World.DirOf, World.RevOf, World.Forgets;
    AnyPlace(w, rank, v, a, rank(s) + 1);
    BackToStart(w, rank, v, z, rank(s) + 1);
  }

  lemma BackToStart(w: World, rank: Sym -> nat, v: Sym -> Val, z: EState, b: nat)
    requires Final(w, rank, v, b).Good(z) && IsMeaning(w, v) && z.IsValid(w.cfg.modules)
    ensures Final(w, rank, v, 0).Good(z)
  {
    hide World.WellFormed, World.Step, DepGraph.Ranks, DepGraph.NoFeedback, Config.Graph, BoolFirst, Ctx.MembersShown;
    hide World.VisibleOf, World.DirOf, World.RevOf, World.Forgets;
    Final(w, rank, v, b).ShownOn(z, Final(w, rank, v, 0), z);
  }

  /** No evaluation is under way: the state agrees with `w`, nothing is pending. */
  ghost predicate AtRest(w: World, a: EState) {
    && a.need == {} && a.hasUser == w.hasUser && a.user == w.user && a.modulesVal == a.Curr(w.cfg.modules).tri
    && (w.cfg.modules.Type().UnknownType? ==> a.modulesVal == NO)
    && (forall m :: w.cfg.RoleOf(m).Member? ==> a.CellOf(m).dir == a.CellOf(m).rev == a.CellOf(m).imp == NO)
  }

  /** The state after sym_clear_all_valid has cleared the flags. */
  ghost predicate Cleared(w: World, a: EState) {
    AtRest(w, a) && a.valid == {}
  }

  function First(w: World, rank: Sym -> nat, v: Sym -> Val, a: EState): Ctx {
    Ctx(w.(modulesVal := a.modulesVal), rank, v, v, {}, {}, rank(w.cfg.modules))
  }

  lemma OpeningCleared(w: World, rank: Sym -> nat, v: Sym -> Val, a: EState)
    requires Ordered(w, rank) && IsMeaning(w, v) && Cleared(w, a) && w.cfg.modules.Sym?
    ensures First(w, rank, v, a).Opening(a)
  {
    hide World.WellFormed, World.Step, DepGraph.Ranks, DepGraph.NoFeedback, Config.Graph;
    var w', w1 := Settling(w, v), w.(modulesVal := a.modulesVal);
    SameForm(w, w');
    SameForm(w, w1);
    forall s: Sym | rank(s) <= rank(w.cfg.modules)
      ensures v(s) == w1.Step(v, s)
    {
      LowStep(w', w1, rank, v, s);
    }
    ConstantsSettled(w', v);
  }

  lemma ConstantsSettled(w: World, v: Sym -> Val)
    requires w.Solution(v)
    ensures forall s: Sym :: !s.Sym? ==> v(s) == ConstVal(s)
  {
    hide World.PlainVal, World.PickOf;
    forall s: Sym | !s.Sym?
      ensures v(s) == ConstVal(s)
    {
      assert v(s) == w.Step(v, s);
    }
  }

  /** What is stored for the symbols up to MODULES does not depend on modules_val. */
  lemma ShownAnyModules(w: World, w': World, rank: Sym -> nat, v: Sym -> Val, s: Sym)
    requires w' == w.(modulesVal := w'.modulesVal) && Ordered(w, rank) && w.Solution(v)
    requires rank(s) <= rank(w.cfg.modules)
    requires s.IsLogical() && w.cfg.RoleOf(s).Plain?
    ensures w.VisibleOf(v, s) == w'.VisibleOf(v, s) && w.DirOf(v, s) == w'.DirOf(v, s)
    ensures w.RevOf(v, s) == w'.RevOf(v, s)
  {
    hide World.WellFormed, World.Step, DepGraph.Ranks, DepGraph.NoFeedback, Config.Graph, Config.Refs;
    forall t | t in w.cfg.Refs(s) && t.Sym?
      ensures v(t).tri != MOD
    {
      RefLower(w, rank, s, t);
      LowNeverMod(w, v, t);
    }
    VisibleAnyModules(w, w', v, s);
    DepsAnyModules(w, w', v, s);
  }

  /** After MODULES is evaluated the whole cache is up to date, */
  lemma NowUpToDate(w: World, rank: Sym -> nat, v: Sym -> Val, a: EState, z: EState)
    requires Ordered(w, rank) && IsMeaning(w, v) && Cleared(w, a) && w.cfg.modules.Sym?
    requires ModulesDone(First(w, rank, v, a), a, z)
    ensures UpToDate(w, rank, v, z)
  {
    hide World.WellFormed, World.Step, World.VisibleOf, World.DirOf, World.RevOf, DepGraph.Ranks, DepGraph.NoFeedback;
    hide Config.Graph, Ctx.LowBool;
    hide Ctx.MembersShown;
    OpeningCleared(w, rank, v, a);
    SameForm(w, Settling(w, v));
    ShownNow(w, rank, v, a, z);
    MembersNow(w, rank, v, a, z);
  }

  lemma ShownNow(w: World, rank: Sym -> nat, v: Sym -> Val, a: EState, z: EState)
    requires Ordered(w, rank) && IsMeaning(w, v) && First(w, rank, v, a).Good(z.(modulesVal := a.modulesVal))
    requires z.modulesVal == v(w.cfg.modules).tri
    ensures Final(w, rank, v, 0).Shown(z)
  {
    hide World.WellFormed, World.Step, World.VisibleOf, World.DirOf, World.RevOf, World.Solution, DepGraph.Ranks;
    hide DepGraph.NoFeedback, Config.Graph, Ctx.Settled, Ctx.UserKept, Ctx.MembersZero;
    var w1, w2 := First(w, rank, v, a).w, Settling(w, v);
    SameForm(w, w2);
    forall x: Sym | x in z.valid && x.IsLogical() && w.cfg.RoleOf(x).Plain?
      ensures Final(w, rank, v, 0).ShownAt(z, x)
    {
      assert First(w, rank, v, a).ShownAt(z.(modulesVal := a.modulesVal), x);
      if w1 != w2 {
        assert z.(modulesVal := a.modulesVal).IsValid(x);
        ShownAnyModules(w2, w1, rank, v, x);
      }
    }
  }

  /** A choice that was evaluated before modules_val was known met the same. */
  lemma MembersNow(w: World, rank: Sym -> nat, v: Sym -> Val, a: EState, z: EState)
    requires Ordered(w, rank) && IsMeaning(w, v) && First(w, rank, v, a).Good(z.(modulesVal := a.modulesVal))
    requires z.modulesVal == v(w.cfg.modules).tri
    ensures Final(w, rank, v, 0).MembersShown(z)
  {
    hide World.WellFormed, World.Step, World.VisibleOf, World.DirOf, World.RevOf, World.Solution, DepGraph.Ranks;
    hide DepGraph.NoFeedback, Config.Graph, Ctx.Settled, Ctx.UserKept, Ctx.MembersZero, World.PlainVal, Ctx.Shown;
    var m1 := z.(modulesVal := a.modulesVal);
    forall m: Sym
      ensures Final(w, rank, v, 0).MemberShownAt(z, m)
    {
      assert First(w, rank, v, a).MemberShownAt(m1, m);
      if First(w, rank, v, a).w != Settling(w, v) && w.cfg.RoleOf(m).Member? && w.cfg.RoleOf(m).choice in z.valid {
        assert m1.IsValid(w.cfg.RoleOf(m).choice);
      }
    }
  }

  /** and at once when there is no symbol MODULES. */
  lemma UpToDateAtOnce(w: World, rank: Sym -> nat, v: Sym -> Val, a: EState)
    requires Ordered(w, rank) && IsMeaning(w, v) && Cleared(w, a) && !w.cfg.modules.Sym?
    ensures UpToDate(w, rank, v, a)
  {
    hide World.WellFormed, World.Step, DepGraph.Ranks, DepGraph.NoFeedback, Config.Graph, Ctx.LowBool, Ctx.NoModYet;
    ConstantsSettled(Settling(w, v), v);
    SameForm(w, Settling(w, v));
  }

  // ----- setting a user value -----

  /** The world as the flags and user values of the state now describe it. */
  function Present(w: World, a: EState): World {
    w.(hasUser := a.hasUser, user := a.user)
  }

  /** What is known of the users' values when the cache is up to date: all are
      there, but for the evaluated choices that have forgotten theirs. */
  lemma UsersKept(w: World, rank: Sym -> nat, v: Sym -> Val, a: EState)
    requires UpToDate(w, rank, v, a)
    ensures a.user == w.user
    ensures forall x :: x in a.hasUser <==> x in w.hasUser && !(x in a.valid && Settling(w, v).Forgets(v, x))
  {
    hide World.WellFormed, World.Step, DepGraph.Ranks, DepGraph.NoFeedback, Config.Graph, BoolFirst, World.Forgets;
    var ctx := Final(w, rank, v, 0);
    forall x
      ensures x in a.hasUser <==> x in w.hasUser && !(x in a.valid && Settling(w, v).Forgets(v, x))
    {
      assert x in a.hasUser <==> x in w.hasUser && !ctx.Forgot(a, x);
    }
  }

  /** Without choices nothing is forgotten. */
  lemma NothingForgotten(w: World, rank: Sym -> nat, v: Sym -> Val, a: EState)
    requires UpToDate(w, rank, v, a) && w.cfg.Graph().ChoiceFree()
    ensures a.hasUser == w.hasUser
  {
    hide World.WellFormed, World.Step, DepGraph.Ranks, DepGraph.NoFeedback, BoolFirst, UpToDate;
    UsersKept(w, rank, v, a);
    forall x: Sym
      ensures !Settling(w, v).Forgets(v, x)
    {
      assert w.cfg.Graph().role(x).Plain?;
    }
  }

  /** An up-to-date state is at rest in the world that it now describes. */
  lemma UpToDateRests(w: World, rank: Sym -> nat, v: Sym -> Val, a: EState)
    requires UpToDate(w, rank, v, a)
    ensures Ordered(Present(w, a), rank) && AtRest(Present(w, a), a)
  {
    hide World.WellFormed, World.Step, DepGraph.Ranks, DepGraph.NoFeedback, Config.Graph, BoolFirst, World.Forgets;
    UntypedModules(w, v);
    SameRules(w, Present(w, a), rank);
  }

  lemma UntypedModules(w: World, v: Sym -> Val)
    requires w.WellFormed() && IsMeaning(w, v)
    ensures w.cfg.modules.Type().UnknownType? ==> v(w.cfg.modules).tri == NO
  {
    hide World.PlainVal, World.PickOf, Config.Graph;
    var m := w.cfg.modules;
    assert v(m) == Settling(w, v).Step(v, m);
  }

  /** Another user, whose picks are still members. */
  ghost predicate OtherUser(w: World, w': World) {
    && w' == w.(hasUser := w'.hasUser, user := w'.user)
    && forall c: Sym :: w.cfg.RoleOf(c).Choice? && w'.UserOf(c).pick.Some? ==>
         w'.UserOf(c).pick.value in w.cfg.RoleOf(c).members
  }

  lemma SameRules(w: World, w': World, rank: Sym -> nat)
    requires Ordered(w, rank) && w' == w.(hasUser := w'.hasUser, user := w'.user)
    requires w'.user == w.user || OtherUser(w, w')
    ensures Ordered(w', rank)
  {
    hide DepGraph.Ranks, DepGraph.NoFeedback, Config.Graph, BoolFirst, Config.Sane;
    forall m: Sym | w.cfg.RoleOf(m).Member?
      ensures w'.MentionsChoice(m)
    {
      assert w.MentionsChoice(m);
    }
    forall c: Sym
      ensures w'.user == w.user ==> w'.UserOf(c) == w.UserOf(c)
    {
    }
  }

  /** What does not depend on the user at all. */
  lemma ViewAlike(w: World, w': World, v: Sym -> Val, t: Sym)
    requires w' == w.(hasUser := w'.hasUser, user := w'.user) && w.WellFormed()
    ensures w.VisibleOf(v, t) == w'.VisibleOf(v, t)
    ensures w.DirOf(v, t) == w'.DirOf(v, t) && w.RevOf(v, t) == w'.RevOf(v, t)
    ensures w.ImpliedOf(v, t) == w'.ImpliedOf(v, t)
  {
    hide World.WellFormed, World.VisibleOf, World.OrAbsent, Config.Refs;
    VisibleAlike(w, w', v, t);
    var info := w.cfg.InfoOf(t);
    OptAlike(w, w', v, info.dirDep);
    OptAlike(w, w', v, info.revDep);
    OptAlike(w, w', v, info.implied);
  }

  lemma VisibleAlike(w: World, w': World, v: Sym -> Val, t: Sym)
    requires w' == w.(hasUser := w'.hasUser, user := w'.user) && w.WellFormed()
    ensures w.VisibleOf(v, t) == w'.VisibleOf(v, t)
  {
    hide Config.Graph;
    PromptsAlike(w, w', v, t, w.cfg.InfoOf(t).props);
  }

  /** The two users say the same of this symbol. */
  predicate SameUser(w: World, w': World, t: Sym) {
    w.UserOf(t) == w'.UserOf(t) && (t in w.hasUser <==> t in w'.hasUser)
  }

  lemma StepAlike(w: World, w': World, v: Sym -> Val, t: Sym)
    requires w' == w.(hasUser := w'.hasUser, user := w'.user) && SameUser(w, w', t) && w.WellFormed()
    ensures w.Step(v, t) == w'.Step(v, t) && w.PlainVal(v, t) == w'.PlainVal(v, t)
  {
    hide World.WellFormed, World.LogicalTri, World.StringVal, World.PickOf;
    PlainAlike(w, w', v, t);
    if w.cfg.RoleOf(t).Choice? {
      PickAlike(w, w', w.AtYes(v, t), t);
    }
  }

  lemma PlainAlike(w: World, w': World, v: Sym -> Val, t: Sym)
    requires w' == w.(hasUser := w'.hasUser, user := w'.user) && SameUser(w, w', t) && w.WellFormed()
    ensures w.LogicalTri(v, t) == w'.LogicalTri(v, t) && w.StringVal(v, t) == w'.StringVal(v, t)
  {
    hide World.WellFormed, World.VisibleOf, World.DirOf, World.RevOf, World.ImpliedOf, World.FromDefault;
    hide World.DefaultOf;
    ViewAlike(w, w', v, t);
    DefaultsAlike(w, w', v, t);
  }

  lemma DefaultsAlike(w: World, w': World, v: Sym -> Val, t: Sym)
    requires w' == w.(hasUser := w'.hasUser, user := w'.user)
    ensures w.DefaultOf(v, w.cfg.InfoOf(t).props) == w'.DefaultOf(v, w.cfg.InfoOf(t).props)
    ensures !w.cfg.RoleOf(t).Choice? ==> w.FromDefault(v, t) == w'.FromDefault(v, t)
  {
    hide EvalOpt, World.DefaultOf, Config.Refs;
    w.PropsInRefs(t);
    DefaultAlike(w, w', v, t, w.cfg.InfoOf(t).props);
  }

  lemma PickAlike(w: World, w': World, v: Sym -> Val, c: Sym)
    requires w' == w.(hasUser := w'.hasUser, user := w'.user) && w.WellFormed() && w.cfg.RoleOf(c).Choice?
    requires w.UserOf(c).pick == w'.UserOf(c).pick
    ensures w.PickOf(v, c) == w'.PickOf(v, c)
  {
    hide World.WellFormed, World.VisibleOf, World.DirOf, World.RevOf, World.ImpliedOf, EvalOpt, World.DefaultOf;
    hide Config.Refs;
    forall t: Sym
      ensures w.VisibleOf(v, t) == w'.VisibleOf(v, t)
    {
      ViewAlike(w, w', v, t);
    }
    w.PropsInRefs(c);
    DefaultAlike(w, w', v, c, w.cfg.InfoOf(c).props);
    FirstAlike(w, w', v, w.cfg.RoleOf(c).members);
  }

  lemma {:induction false} FirstAlike(w: World, w': World, v: Sym -> Val, members: seq<Sym>)
    requires forall t: Sym :: w.VisibleOf(v, t) == w'.VisibleOf(v, t)
    ensures w.FirstVisible(v, members) == w'.FirstVisible(v, members)
  {
    if members != [] {
      FirstAlike(w, w', v, members[1..]);
    }
  }

  /** A choice that forgets the user's value keeps its own when it is evaluated
      again exactly when its reverse dependency alone makes it y. */
  lemma StepForgot(w: World, w': World, v: Sym -> Val, c: Sym)
    requires w' == w.(hasUser := w'.hasUser, user := w'.user) && w.WellFormed() && w.UserOf(c) == w'.UserOf(c)
    requires c !in w'.hasUser && w.Forgets(v, c)
    ensures w'.Step(v, c) == w.Step(v, c) <==> w.RevOf(v, c) == YES
  {
    hide World.WellFormed, World.VisibleOf, World.DirOf, World.ImpliedOf, World.OrAbsent, World.PickOf, Config.Graph;
    hide World.AllSet;
    hide World.DefaultTri;
    ChoiceIsLogical(w, c);
    ViewAlike(w, w', v, c);
    PickAlike(w, w', w.AtYes(v, c), c);
    PickIsVisible(w, w.AtYes(v, c), c);
    NotAllSet(w, v, c);
  }

  lemma ChoiceIsLogical(w: World, c: Sym)
    requires w.WellFormed() && w.cfg.RoleOf(c).Choice? && !c.Type().UnknownType?
    ensures c.Sym? && c.IsLogical()
  {
    hide Config.Graph;
  }

  lemma NotAllSet(w: World, v: Sym -> Val, c: Sym)
    requires w.cfg.RoleOf(c).Choice? && !w.AllSet(w.AtYes(v, c), c)
    ensures SomeVisible(w, w.AtYes(v, c), w.cfg.RoleOf(c).members)
  {
    hide World.VisibleOf;
  }

  /** Two solutions agree below n when the definitions do. */
  lemma {:induction false} LowerSame(w: World, w': World, rank: Sym -> nat, v: Sym -> Val, v': Sym -> Val, n: nat,
      t: Sym)
    requires w'.WellFormed() && w'.cfg.Graph().Ranks(rank) && w'.cfg.Graph().NoFeedback(rank)
    requires w.Solution(v) && w'.Solution(v') && rank(t) < n
    requires forall x: Sym :: rank(x) < n ==> w.Step(v, x) == w'.Step(v, x)
    ensures v(t) == v'(t)
    decreases rank(t)
  {
    hide World.WellFormed, World.Step, DepGraph.Ranks, DepGraph.NoFeedback, Config.Graph;
    forall x: Sym | rank(x) < rank(t)
      ensures v(x) == v'(x)
    {
      LowerSame(w, w', rank, v, v', n, x);
    }
    w'.StepLocal(v, v', rank, t);
  }

  /** Up to MODULES two users have said the same: both meanings have the same
      modules_val. */
  lemma SameModules(w: World, w': World, rank: Sym -> nat, v: Sym -> Val, v': Sym -> Val)
    requires Ordered(w, rank) && Ordered(w', rank) && w' == w.(hasUser := w'.hasUser, user := w'.user)
    requires IsMeaning(w, v) && IsMeaning(w', v')
    requires forall x: Sym :: rank(x) <= rank(w.cfg.modules) ==> SameUser(w, w', x)
    ensures v(w.cfg.modules).tri == v'(w.cfg.modules).tri
  {
    hide World.WellFormed, World.Solution, World.Step, DepGraph.Ranks, DepGraph.NoFeedback, Config.Graph, BoolFirst;
    var w1, w2 := Settling(w, v), Settling(w', v');
    var mid := w2.(modulesVal := w1.modulesVal);
    SameForm(w, w1);
    SameForm(w', w2);
    SameForm(w', mid);
    SolutionExists(mid, rank);
    var v0: Sym -> Val :| mid.Solution(v0);
    forall x: Sym | rank(x) < rank(w.cfg.modules) + 1
      ensures w1.Step(v, x) == mid.Step(v, x)
    {
      assert SameUser(w, w', x);
      StepAlike(w1, mid, v, x);
    }
    LowerSame(w1, mid, rank, v, v0, rank(w.cfg.modules) + 1, w.cfg.modules);
    LowSame(mid, w2, rank, v0, v', w.cfg.modules);
  }

  /** Below n the users differ at most in choices that have forgotten a value. */
  ghost predicate OnlyForgot(w: World, w': World, v: Sym -> Val, rank: Sym -> nat, n: nat) {
    forall t: Sym :: rank(t) < n ==>
      w.UserOf(t) == w'.UserOf(t) && (SameUser(w, w', t) || (t !in w'.hasUser && w.Forgets(v, t)))
  }

  /** Every choice below n that has forgotten the user's value is made y by its
      reverse dependency alone. */
  ghost predicate Firm(w: World, v: Sym -> Val, rank: Sym -> nat, hasUser: set<Sym>, n: nat) {
    forall c: Sym :: rank(c) < n && c in w.hasUser && c !in hasUser ==> w.RevOf(v, c) == YES
  }

  /** The reverse dependency that menu_finalize gives to a choice that is not
      optional: at least its visibility, up to m. */
  ghost predicate Forced(w: World, v: Sym -> Val, c: Sym) {
    w.OrAbsent(v, w.cfg.InfoOf(c).revDep, NO) >= And(w.PromptsTri(v, c, w.cfg.InfoOf(c).props), MOD)
  }

  /** Such a choice is firm exactly if it acts as a bool, or is selected to y besides. */
  lemma ForcedChoice(w: World, v: Sym -> Val, c: Sym)
    requires w.WellFormed() && w.Forgets(v, c) && Forced(w, v, c)
    ensures w.RevOf(v, c) == YES <==>
        w.ActsBool(c, w.VisibleOf(v, c)) || w.OrAbsent(v, w.cfg.InfoOf(c).revDep, NO) == YES
  {
    hide World.WellFormed, World.PromptsTri, World.DirOf, World.OrAbsent, World.AllSet, World.DefaultTri;
    ChoiceIsLogical(w, c);
  }

  /** So choices that are not optional and act as bools never take a value along, */
  lemma ForcedFirm(w: World, v: Sym -> Val, rank: Sym -> nat, hasUser: set<Sym>, n: nat)
    requires w.WellFormed()
    requires forall c: Sym :: rank(c) < n && c in w.hasUser && c !in hasUser ==>
        w.Forgets(v, c) && Forced(w, v, c) && w.ActsBool(c, w.VisibleOf(v, c))
    ensures Firm(w, v, rank, hasUser, n)
  {
    hide World.WellFormed, World.Forgets, Forced, World.ActsBool, World.RevOf;
    forall c: Sym | rank(c) < n && c in w.hasUser && c !in hasUser
      ensures w.RevOf(v, c) == YES
    {
      ForcedChoice(w, v, c);
    }
  }

  /** while a tristate one with modules, which nothing else selects to y, falls to m. */
  lemma TristateDrops(w: World, w': World, v: Sym -> Val, c: Sym)
    requires w' == w.(hasUser := w'.hasUser, user := w'.user) && w.WellFormed() && w.UserOf(c) == w'.UserOf(c)
    requires c !in w'.hasUser && w.Forgets(v, c) && c.IsTristate() && w.modulesVal != NO
    requires w.OrAbsent(v, w.cfg.InfoOf(c).revDep, NO) == MOD
    ensures w.Step(v, c).tri == YES && w'.Step(v, c).tri == MOD
  {
    hide World.WellFormed, World.VisibleOf, World.DirOf, World.ImpliedOf, World.OrAbsent, World.PickOf, Config.Graph;
    hide World.AllSet, World.DefaultTri;
    ViewAlike(w, w', v, c);
    PickIsVisible(w, w.AtYes(v, c), c);
    NotAllSet(w, v, c);
    ChoiceIsLogical(w, c);
    assert w'.OrAbsent(v, w'.cfg.InfoOf(c).revDep, NO) == MOD by {
      RevAlike(w, w', v, c);
    }
  }

  lemma RevAlike(w: World, w': World, v: Sym -> Val, c: Sym)
    requires w' == w.(hasUser := w'.hasUser, user := w'.user)
    ensures w.OrAbsent(v, w.cfg.InfoOf(c).revDep, NO) == w'.OrAbsent(v, w.cfg.InfoOf(c).revDep, NO)
  {
    hide Config.Refs;
    OptAlike(w, w', v, w.cfg.InfoOf(c).revDep);
  }

  /** What lies below n keeps its values exactly when the choices are firm. */
  lemma LowerStays(w: World, w': World, rank: Sym -> nat, v: Sym -> Val, v': Sym -> Val, n: nat)
    requires w.WellFormed() && w'.WellFormed() && w.cfg.Graph().Ranks(rank) && w.cfg.Graph().NoFeedback(rank)
    requires w' == w.(hasUser := w'.hasUser, user := w'.user) && w.Solution(v) && w'.Solution(v')
    requires OnlyForgot(w, w', v, rank, n)
    ensures (forall t: Sym :: rank(t) < n ==> v'(t) == v(t)) <==> Firm(w, v, rank, w'.hasUser, n)
  {
    hide World.WellFormed, World.Step, DepGraph.Ranks, DepGraph.NoFeedback, Config.Graph, World.RevOf, World.Forgets;
    if Firm(w, v, rank, w'.hasUser, n) {
      forall x: Sym | rank(x) < n
        ensures w.Step(v, x) == w'.Step(v, x)
      {
        if SameUser(w, w', x) {
          StepAlike(w, w', v, x);
        } else {
          StepForgot(w, w', v, x);
        }
      }
      forall t: Sym | rank(t) < n
        ensures v'(t) == v(t)
      {
        LowerSame(w, w', rank, v, v', n, t);
      }
    }
    if forall t: Sym :: rank(t) < n ==> v'(t) == v(t) {
      forall c: Sym | rank(c) < n && c in w.hasUser && c !in w'.hasUser
        ensures w.RevOf(v, c) == YES
      {
        w'.StepLocal(v, v', rank, c);
        StepForgot(w, w', v, c);
      }
    }
  }

  /** sym_tristate_within_range in terms of the values that should be. */
  predicate InRange(w: World, v: Sym -> Val, s: Sym, val: Tristate) {
    && w.VisibleOf(v, s) != NO && s.IsLogical()
    && !(w.ActsBool(s, w.VisibleOf(v, s)) && val == MOD)
    && w.VisibleOf(v, s) > w.RevOf(v, s)
    && if w.cfg.RoleOf(s).Member? &&
        w.VisibleOf(v, s) == YES then val == YES else w.RevOf(v, s) <= val <= w.VisibleOf(v, s)
  }

  // ----- what sym_set_tristate_value stores -----

  function UserIn(a: EState, s: Sym): User {
    if s in a.user then a.user[s] else NO_USER
  }

  /** The choice c gets s as the user's pick, and it and its visible members have
      a user value from now on. */
  function Picked(cfg: Config, a: EState, c: Sym, s: Sym): EState
    requires cfg.RoleOf(c).Choice?
  {
    var seen := set m | m in cfg.RoleOf(c).members && a.CellOf(m).visible != NO;
    a.(user := a.user[c := UserIn(a, c).(pick := Some(s))], hasUser := a.hasUser + {c} + seen)
  }

  predicate PicksMember(cfg: Config, s: Sym, val: Tristate) {
    cfg.RoleOf(s).Member? && cfg.RoleOf(cfg.RoleOf(s).choice).Choice? && val == YES
  }

  function Stored(cfg: Config, a: EState, s: Sym, val: Tristate): EState {
    var a1 := a.(hasUser := a.hasUser + {s});
    var a2 := if PicksMember(cfg, s, val) then Picked(cfg, a1, cfg.RoleOf(s).choice, s) else a1;
    a2.(user := a2.user[s := UserIn(a2, s).(tri := val)])
  }

  /** How far down the stored value can be noticed. */
  function Reach(cfg: Config, rank: Sym -> nat, s: Sym, val: Tristate): nat {
    if PicksMember(cfg, s, val) then rank(cfg.RoleOf(s).choice) else rank(s)
  }

  lemma StoredElsewhere(cfg: Config, a: EState, s: Sym, val: Tristate, x: Sym)
    requires x != s && (PicksMember(cfg, s, val) ==> x != cfg.RoleOf(s).choice)
    ensures UserIn(Stored(cfg, a, s, val), x) == UserIn(a, x)
    ensures (PicksMember(cfg, s, val) && x in cfg.RoleOf(cfg.RoleOf(s).choice).members) ||
            (x in Stored(cfg, a, s, val).hasUser <==> x in a.hasUser)
  {
  }

  /** What the user says afterwards, as far as it matters below. */
  lemma StoredUsers(w: World, rank: Sym -> nat, v: Sym -> Val, a: EState, s: Sym, val: Tristate)
    requires UpToDate(w, rank, v, a) && s.Sym? && rank(s) > rank(w.cfg.modules)
    ensures var w' := Present(w, Stored(w.cfg, a, s, val));
            (forall x: Sym :: rank(x) <= rank(w.cfg.modules) ==> SameUser(w, w', x)) &&
            OnlyForgot(Settling(w, v), Present(Settling(w, v), Stored(w.cfg, a, s, val)), v, rank,
                Reach(w.cfg, rank, s, val)) &&
            Reach(w.cfg, rank, s, val) > rank(w.cfg.modules) &&
            (forall x: Sym :: rank(x) < Reach(w.cfg, rank, s, val) ==> (x in w'.hasUser <==> x in a.hasUser))
  {
    hide World.WellFormed, World.Step, World.Forgets, Stored, UpToDate, Config.Graph, DepGraph.Ranks;
    hide DepGraph.NoFeedback;
    UsersKept(w, rank, v, a);
    OrderedParts(w, rank, v, a);
    var w' := Present(w, Stored(w.cfg, a, s, val));
    ChoiceAbove(w, rank, s);
    forall x: Sym | rank(x) < Reach(w.cfg, rank, s, val)
      ensures w.UserOf(x) == w'.UserOf(x) && (x in w'.hasUser <==> x in a.hasUser)
    {
      if w.cfg.RoleOf(s).Member? && x in w.cfg.RoleOf(w.cfg.RoleOf(s).choice).members && PicksMember(w.cfg, s, val) {
        MemberAbove(w, rank, w.cfg.RoleOf(s).choice, x);
      }
      StoredElsewhere(w.cfg, a, s, val, x);
    }
    forall x: Sym | rank(x) <= rank(w.cfg.modules)
      ensures SameUser(w, w', x)
    {
      LowIsPlain(w, rank, x);
      NoChoiceForgets(Settling(w, v), v, x);
    }
  }

  lemma OrderedParts(w: World, rank: Sym -> nat, v: Sym -> Val, a: EState)
    requires UpToDate(w, rank, v, a)
    ensures Ordered(w, rank) && IsMeaning(w, v)
  {
  }

  lemma NoChoiceForgets(w: World, v: Sym -> Val, x: Sym)
    requires !w.cfg.RoleOf(x).Choice?
    ensures !w.Forgets(v, x)
  {
  }

  /** A choice ranks below its members, and above MODULES. */
  lemma ChoiceAbove(w: World, rank: Sym -> nat, s: Sym)
    requires Ordered(w, rank)
    ensures w.cfg.RoleOf(s).Member? ==>
      var c := w.cfg.RoleOf(s).choice;
      w.cfg.RoleOf(c).Choice? && rank(w.cfg.modules) < rank(c) < rank(s) && s in w.cfg.RoleOf(c).members && s.Sym? &&
          c.Sym?
  {
    if w.cfg.RoleOf(s).Member? {
      assert w.cfg.Graph().MemberOf(s, w.cfg.RoleOf(s).choice);
    }
  }

  lemma LowIsPlain(w: World, rank: Sym -> nat, x: Sym)
    requires Ordered(w, rank) && rank(x) <= rank(w.cfg.modules)
    ensures w.cfg.RoleOf(x).Plain?
  {
    hide DepGraph.Ranks, DepGraph.NoFeedback;
    ChoiceAbove(w, rank, x);
  }

  lemma MemberAbove(w: World, rank: Sym -> nat, c: Sym, m: Sym)
    requires Ordered(w, rank) && w.cfg.RoleOf(c).Choice? && m in w.cfg.RoleOf(c).members
    ensures rank(c) < rank(m) && w.cfg.RoleOf(m) == Member(c) && m.Sym?
  {
    assert w.cfg.Graph().role(c).Choice? && m in w.cfg.Graph().role(c).members;
    assert w.cfg.Graph().MemberOf(m, c);
  }

  /** The stored state is at rest, and the rules still hold in its world. */
  lemma StoredRests(w: World, rank: Sym -> nat, v: Sym -> Val, a: EState, s: Sym, val: Tristate)
    requires UpToDate(w, rank, v, a) && s.Sym?
    ensures var z := Stored(w.cfg, a, s, val); Ordered(Present(w, z), rank) && AtRest(Present(w, z), z)
  {
    hide World.WellFormed, DepGraph.Ranks, DepGraph.NoFeedback, Config.Graph, BoolFirst, UpToDate, World.Forgets;
    OrderedParts(w, rank, v, a);
    UpToDateRests(w, rank, v, a);
    UsersKept(w, rank, v, a);
    ChoiceAbove(w, rank, s);
    PicksInside(w, a, s, val);
    SameRules(w, Present(w, Stored(w.cfg, a, s, val)), rank);
  }

  lemma PicksInside(w: World, a: EState, s: Sym, val: Tristate)
    requires w.WellFormed() && a.user == w.user
    requires PicksMember(w.cfg, s, val) ==> s in w.cfg.RoleOf(w.cfg.RoleOf(s).choice).members
    ensures OtherUser(w, Present(w, Stored(w.cfg, a, s, val)))
  {
    hide Config.Graph;
    var w' := Present(w, Stored(w.cfg, a, s, val));
    forall c: Sym | w.cfg.RoleOf(c).Choice? && w'.UserOf(c).pick.Some?
      ensures w'.UserOf(c).pick.value in w.cfg.RoleOf(c).members
    {
      assert w'.UserOf(c).pick == w.UserOf(c).pick || (PicksMember(w.cfg, s, val) && c == w.cfg.RoleOf(s).choice);
    }
  }

  /** What is stored for the symbol itself and its choice. */
  lemma StoredHere(w: World, a: EState, s: Sym, val: Tristate)
    requires a.user == w.user && (w.cfg.RoleOf(s).Member? ==> w.cfg.RoleOf(s).choice != s)
    ensures var w' := Present(w, Stored(w.cfg, a, s, val));
            w'.UserOf(s).tri == val && s in w'.hasUser &&
            (PicksMember(w.cfg, s, val) ==>
              var c := w.cfg.RoleOf(s).choice;
              c in w'.hasUser && w'.UserOf(c).pick == Some(s) && w'.UserOf(c).tri == w.UserOf(c).tri)
  {
  }

  /** A value at the place of s, when nothing below has moved. */
  lemma ValueComes(w: World, w': World, rank: Sym -> nat, v: Sym -> Val, v': Sym -> Val, s: Sym, val: Tristate)
    requires w.WellFormed() && w'.WellFormed() && w.cfg.Graph().Ranks(rank) && w.cfg.Graph().NoFeedback(rank)
    requires w' == w.(hasUser := w'.hasUser, user := w'.user) && w'.Solution(v') && s.Sym?
    requires InRange(w, v, s, val) && (w.cfg.RoleOf(s).Member? ==> val != YES)
    requires s in w'.hasUser && w'.UserOf(s).tri == val
    requires forall t: Sym :: rank(t) < rank(s) ==> v'(t) == v(t)
    ensures v'(s).tri == val <==> Obeyed(w, v, s, val)
  {
    hide World.WellFormed, World.VisibleOf, World.DirOf, World.RevOf, World.ImpliedOf, World.DefaultTri, DepGraph.Ranks;
    hide DepGraph.NoFeedback, Config.Graph, World.PickOf, SomeVisible, World.Solution;
    w.RanksBelow(v, v', rank, s);
    w.VisibleAgree(v, v', s);
    w.DependenciesAgree(v, v', s);
    ViewAlike(w, w', v', s);
    assert v'(s) == w'.Step(v', s) by {
      SolvedAt(w', v', s);
    }
    if w.cfg.RoleOf(s).Choice? {
      PickIsVisible(w', w'.AtYes(v', s), s);
      SeenAlike(w, w', rank, v, v', s);
    }
  }

  lemma SolvedAt(w: World, v: Sym -> Val, s: Sym)
    requires w.Solution(v)
    ensures v(s) == w.Step(v, s)
  {
    hide World.Step;
  }

  /** A choice sees its members alike when nothing below it has moved. */
  lemma SeenAlike(w: World, w': World, rank: Sym -> nat, v: Sym -> Val, v': Sym -> Val, c: Sym)
    requires w.WellFormed() && w.cfg.Graph().NoFeedback(rank) && w.cfg.RoleOf(c).Choice?
    requires w' == w.(hasUser := w'.hasUser, user := w'.user)
    requires forall t: Sym :: rank(t) < rank(c) ==> v'(t) == v(t)
    ensures SomeVisible(w, w.AtYes(v, c), w.cfg.RoleOf(c).members) <==>
        SomeVisible(w', w'.AtYes(v', c), w.cfg.RoleOf(c).members)
    ensures forall m :: m in w.cfg.RoleOf(c).members ==>
        w.VisibleOf(w.AtYes(v, c), m) == w'.VisibleOf(w'.AtYes(v', c), m)
  {
    hide World.WellFormed, World.VisibleOf, DepGraph.NoFeedback, Config.Graph;
    forall m | m in w.cfg.RoleOf(c).members
      ensures w.VisibleOf(w.AtYes(v, c), m) == w'.VisibleOf(w'.AtYes(v', c), m)
    {
      FormClosed(w);
      w.MembersBelow(v, v', rank, c, m);
      w.VisibleAgree(w.AtYes(v, c), w.AtYes(v', c), m);
      ViewAlike(w, w', w.AtYes(v', c), m);
    }
  }

  lemma FormClosed(w: World)
    requires w.WellFormed()
    ensures w.cfg.Graph().Closed()
  {
  }

  /** A choice at y stays y when it gets a user value, and picks the member. */
  lemma ChoiceComes(w: World, w': World, rank: Sym -> nat, v: Sym -> Val, v': Sym -> Val, c: Sym, s: Sym)
    requires w.WellFormed() && w'.WellFormed() && w.cfg.Graph().Ranks(rank) && w.cfg.Graph().NoFeedback(rank)
    requires w' == w.(hasUser := w'.hasUser, user := w'.user) && w.Solution(v) && w'.Solution(v')
    requires w.cfg.RoleOf(c).Choice? && s in w.cfg.RoleOf(c).members && v(c).tri == YES && w.VisibleOf(v, s) != NO
    requires c in w'.hasUser && w'.UserOf(c).pick == Some(s) && w'.UserOf(c).tri == w.UserOf(c).tri
    requires forall t: Sym :: rank(t) < rank(c) ==> v'(t) == v(t)
    ensures v'(c) == Val(YES, "n", Some(s))
  {
    hide World.WellFormed, World.VisibleOf, World.DirOf, World.RevOf, World.ImpliedOf, World.DefaultTri, DepGraph.Ranks;
    hide DepGraph.NoFeedback, Config.Graph, World.Solution, World.FirstDefault, World.FirstVisible, World.StringVal;
    SolvedAt(w, v, c);
    SolvedAt(w', v', c);
    YesIsLogical(w, v, c);
    w.RanksBelow(v, v', rank, c);
    w.VisibleAgree(v, v', c);
    w.DependenciesAgree(v, v', c);
    ViewAlike(w, w', v', c);
    SeenAlike(w, w', rank, v, v', c);
    AtYesLooks(w, v, c, s);
  }

  lemma YesIsLogical(w: World, v: Sym -> Val, c: Sym)
    requires w.WellFormed() && w.cfg.RoleOf(c).Choice? && v(c) == w.Step(v, c) && v(c).tri == YES
    ensures c.Sym? && c.IsLogical() && !c.Type().UnknownType? && v(c).str == "n" && w.LogicalTri(v, c) == YES
  {
    hide Config.Graph, World.LogicalTri, World.PickOf;
  }

  /** A visible member that the user sets to y. */
  lemma MemberComes(w: World, w': World, rank: Sym -> nat, v: Sym -> Val, v': Sym -> Val, c: Sym, s: Sym)
    requires w.WellFormed() && w'.WellFormed() && w.cfg.Graph().Ranks(rank) && w.cfg.Graph().NoFeedback(rank)
    requires w' == w.(hasUser := w'.hasUser, user := w'.user) && w.Solution(v) && w'.Solution(v')
    requires w.cfg.RoleOf(c).Choice? && w.cfg.RoleOf(s) == Member(c) && s in w.cfg.RoleOf(c).members && s.Sym?
    requires v(c).tri == YES && InRange(w, v, s, YES)
    requires c in w'.hasUser && w'.UserOf(c).pick == Some(s) && w'.UserOf(c).tri == w.UserOf(c).tri
    requires forall t: Sym :: rank(t) < rank(c) ==> v'(t) == v(t)
    ensures v'(s).tri == YES
  {
    hide World.WellFormed, World.VisibleOf, World.DirOf, World.RevOf, World.ImpliedOf, World.WantedTri, DepGraph.Ranks;
    hide DepGraph.NoFeedback, Config.Graph, World.Solution, World.PickOf, World.AtYes;
    ChoiceComes(w, w', rank, v, v', c, s);
    SeenAlike(w, w', rank, v, v', c);
    SolvedAt(w, v, c);
    YesIsLogical(w, v, c);
    AtYesLooks(w, v, c, s);
    AtYesLooks(w', v', c, s);
    assert v'(s) == w'.Step(v', s) by {
      SolvedAt(w', v', s);
    }
  }

  /** An accepted value is kept by the selects, and a choice at y needs a member. */
  ghost predicate Obeyed(w: World, v: Sym -> Val, s: Sym, val: Tristate) {
    && !(w.DirOf(v, s) == NO && w.RevOf(v, s) != NO)
    && (w.cfg.RoleOf(s).Choice? && val == YES ==> SomeVisible(w, w.AtYes(v, s), w.cfg.RoleOf(s).members))
  }

  /** When an accepted value is stored and everything is evaluated again, it comes
      out exactly if it is obeyed, provided that the choices below are firm; for a
      member that becomes y, provided that its choice is y. */
  ghost predicate Comes(w: World, v: Sym -> Val, rank: Sym -> nat, hasUser: set<Sym>, v': Sym -> Val, s: Sym,
      val: Tristate)
  {
    Firm(w, v, rank, hasUser, Reach(w.cfg, rank, s, val)) ==>
      if PicksMember(w.cfg, s, val) then v(w.cfg.RoleOf(s).choice).tri == YES ==> v'(s).tri == YES
      else v'(s).tri == val <==> Obeyed(w, v, s, val)
  }

  /** The prompt conditions of a member are at most its choice, and n below a choice
      that is not y if the choice is tristate and the member is not. */
  ghost predicate BelowChoice(w: World, v: Sym -> Val, s: Sym)
    requires w.cfg.RoleOf(s).Member?
  {
    var c := w.cfg.RoleOf(s).choice;
    forall p :: p in w.cfg.InfoOf(s).props && p.hasText ==>
      var t := EvalOpt(p.visible, w.EnvOf(v));
      t <= v(c).tri && (c.IsTristate() && !s.IsTristate() && t != NO ==> v(c).tri == YES)
  }

  /** A member that is bounded by its choice can only be set to y below a choice at y. */
  lemma BoundedMember(w: World, v: Sym -> Val, s: Sym)
    requires w.WellFormed() && w.Solution(v) && s.Sym? && w.cfg.RoleOf(s).Member? && BelowChoice(w, v, s)
    requires InRange(w, v, s, YES)
    ensures v(w.cfg.RoleOf(s).choice).tri == YES
  {
    hide World.WellFormed, World.EnvOf, EvalOpt, World.RevOf, World.Solution, World.Step;
    var c := w.cfg.RoleOf(s).choice;
    BoundedPrompts(w, v, s, w.cfg.InfoOf(s).props);
    SolvedAt(w, v, c);
    MemberChoice(w, s);
    NoHalfChoice(w, v, c);
  }

  lemma {:induction false} BoundedPrompts(w: World, v: Sym -> Val, s: Sym, props: seq<Prop>)
    requires w.cfg.RoleOf(s).Member? && BelowChoice(w, v, s) && forall p :: p in props ==> p in w.cfg.InfoOf(s).props
    ensures var c, t := w.cfg.RoleOf(s).choice, w.PromptsTri(v, s, props);
            t <= v(c).tri && (c.IsTristate() && !s.IsTristate() && t != NO ==> v(c).tri == YES)
  {
    hide World.EnvOf, EvalOpt;
    if props != [] {
      BoundedPrompts(w, v, s, props[..|props| - 1]);
    }
  }

  lemma MemberChoice(w: World, s: Sym)
    requires w.WellFormed() && w.cfg.RoleOf(s).Member?
    ensures var c := w.cfg.RoleOf(s).choice; c.Sym? && (c.IsLogical() || c.Type().UnknownType?)
  {
    assert w.cfg.Graph().MemberOf(s, w.cfg.RoleOf(s).choice);
  }

  /** A choice is not m without modules, nor when it is bool, nor without a type. */
  lemma NoHalfChoice(w: World, v: Sym -> Val, c: Sym)
    requires v(c) == w.Step(v, c) && c.Sym? && (c.IsLogical() || c.Type().UnknownType?)
    ensures v(c).tri == MOD ==> c.IsTristate() && w.modulesVal != NO
  {
    hide World.VisibleOf, World.WantedTri, World.DirOf, World.RevOf, World.PickOf;
  }

  lemma FirmAlike(w: World, v: Sym -> Val, rank: Sym -> nat, has: set<Sym>, has': set<Sym>, n: nat)
    requires Firm(w, v, rank, has, n) && forall x: Sym :: rank(x) < n ==> (x in has' <==> x in has)
    ensures Firm(w, v, rank, has', n)
  {
  }

  lemma AcceptedValue(w: World, rank: Sym -> nat, v: Sym -> Val, v': Sym -> Val, a: EState, s: Sym, val: Tristate)
    requires UpToDate(w, rank, v, a) && s.Sym? && rank(s) > rank(w.cfg.modules) && InRange(Settling(w, v), v, s, val)
    requires IsMeaning(Present(w, Stored(w.cfg, a, s, val)), v')
    ensures Comes(Settling(w, v), v, rank, a.hasUser, v', s, val)
  {
    hide World.WellFormed, World.Solution, DepGraph.Ranks, DepGraph.NoFeedback, Config.Graph, BoolFirst, World.Step;
    hide UpToDate, Stored, Firm, InRange, OnlyForgot, Obeyed;
    var z := Stored(w.cfg, a, s, val);
    var w1, w2 := Settling(w, v), Present(Settling(w, v), z);
    var n := Reach(w.cfg, rank, s, val);
    OrderedParts(w, rank, v, a);
    StoredRests(w, rank, v, a, s, val);
    StoredUsers(w, rank, v, a, s, val);
    SameModules(w, Present(w, z), rank, v, v');
    assert w2 == Settling(Present(w, z), v');
    SameForm(w, w1);
    SameForm(Present(w, z), w2);
    if Firm(w1, v, rank, a.hasUser, n) {
      assert Firm(w1, v, rank, w2.hasUser, n) by {
        FirmAlike(w1, v, rank, a.hasUser, w2.hasUser, n);
      }
      LowerStays(w1, w2, rank, v, v', n);
      UsersKept(w, rank, v, a);
      ChoiceAbove(w, rank, s);
      StoredHere(w1, a, s, val);
      if PicksMember(w.cfg, s, val) {
        if v(w.cfg.RoleOf(s).choice).tri == YES {
          MemberComes(w1, w2, rank, v, v', w.cfg.RoleOf(s).choice, s);
        }
      } else {
        ValueComes(w1, w2, rank, v, v', s, val);
      }
    }
  }

  // ----- what becomes of the choice -----

  /** s is a member of c that is set to y, and x is c or a member that c sees. */
  ghost predicate SetWith(cfg: Config, a: EState, c: Sym, s: Sym, x: Sym) {
    && cfg.RoleOf(s) == Member(c) && cfg.RoleOf(c).Choice?
    && (x == c || (x in cfg.RoleOf(c).members && a.CellOf(x).visible != NO))
  }

  /** Exactly what is stored: the value of the symbol, and when that is y for a
      member, it as the pick of its choice; with it the choice and its members
      that are not invisible count as set by the user. */
  lemma StoredExactly(cfg: Config, a: EState, s: Sym, val: Tristate)
    ensures var z := Stored(cfg, a, s, val);
            z == a.(hasUser := z.hasUser, user := z.user) &&
            (forall x :: x in z.hasUser <==>
              x in a.hasUser || x == s || (val == YES && exists c :: SetWith(cfg, a, c, s, x))) &&
            (forall x :: UserIn(z, x).str == UserIn(a, x).str &&
              UserIn(z, x).tri == (if x == s then val else UserIn(a, x).tri) &&
              UserIn(z, x).pick ==
                (if val == YES && cfg.RoleOf(s) == Member(x) && cfg.RoleOf(x).Choice? then Some(s)
                 else UserIn(a, x).pick))
  {
    if PicksMember(cfg, s, val) {
      var c := cfg.RoleOf(s).choice;
      assert forall x :: SetWith(cfg, a, c, s, x) <==>
        x == c || (x in cfg.RoleOf(c).members && a.CellOf(x).visible != NO);
    }
  }

  /** An evaluated choice at y shows the visibility of each member in its cell. */
  lemma MemberCells(w: World, rank: Sym -> nat, v: Sym -> Val, a: EState, c: Sym, m: Sym)
    requires UpToDate(w, rank, v, a) && w.cfg.RoleOf(m) == Member(c) && w.cfg.RoleOf(c).Choice?
    requires c in a.valid && v(c).tri == YES
    ensures a.CellOf(m).visible == Settling(w, v).VisibleOf(Settling(w, v).AtYes(v, c), m)
  {
    hide World.WellFormed, World.VisibleOf, DepGraph.Ranks, DepGraph.NoFeedback, Config.Graph, BoolFirst, World.Step;
    hide World.LogicalTri, World.Solution;
    var w1 := Settling(w, v);
    SameForm(w, w1);
    SolvedAt(w1, v, c);
    YesIsLogical(w1, v, c);
    AtYesLooks(w1, v, c, m);
    assert Final(w, rank, v, 0).MemberShownAt(a, m);
  }

  lemma ChoiceEvaluated(w: World, rank: Sym -> nat, v: Sym -> Val, a: EState, s: Sym)
    requires UpToDate(w, rank, v, a) && s in a.valid && s.IsLogical() && w.cfg.RoleOf(s).Member?
    ensures w.cfg.RoleOf(s).choice in a.valid
  {
    hide World.WellFormed, World.VisibleOf, DepGraph.Ranks, DepGraph.NoFeedback, Config.Graph, BoolFirst, World.Step;
  }

  /** When the user sets a member to y, its choice at y does not forget the user's
      value: all members that it sees have one now. */
  lemma PickedStays(w: World, rank: Sym -> nat, v: Sym -> Val, v': Sym -> Val, a: EState, s: Sym)
    requires UpToDate(w, rank, v, a) && s.Sym? && s in a.valid && rank(s) > rank(w.cfg.modules)
    requires PicksMember(w.cfg, s, YES) && InRange(Settling(w, v), v, s, YES)
    requires v(w.cfg.RoleOf(s).choice).tri == YES
    requires Firm(Settling(w, v), v, rank, a.hasUser, rank(w.cfg.RoleOf(s).choice))
    requires IsMeaning(Present(w, Stored(w.cfg, a, s, YES)), v')
    ensures !Settling(Present(w, Stored(w.cfg, a, s, YES)), v').Forgets(v', w.cfg.RoleOf(s).choice)
  {
    hide World.WellFormed, World.Solution, DepGraph.Ranks, DepGraph.NoFeedback, Config.Graph, BoolFirst, World.Step;
    hide UpToDate, Stored, Firm, OnlyForgot, World.VisibleOf, World.PlainVal;
    var z, c := Stored(w.cfg, a, s, YES), w.cfg.RoleOf(s).choice;
    var w1, w2 := Settling(w, v), Present(Settling(w, v), z);
    OrderedParts(w, rank, v, a);
    StoredRests(w, rank, v, a, s, YES);
    StoredUsers(w, rank, v, a, s, YES);
    SameModules(w, Present(w, z), rank, v, v');
    assert w2 == Settling(Present(w, z), v');
    SameForm(w, w1);
    SameForm(Present(w, z), w2);
    FirmAlike(w1, v, rank, a.hasUser, w2.hasUser, rank(c));
    LowerStays(w1, w2, rank, v, v', rank(c));
    SeenAlike(w1, w2, rank, v, v', c);
    ChoiceEvaluated(w, rank, v, a, s);
    forall m | m in w.cfg.RoleOf(c).members && w2.VisibleOf(w2.AtYes(v', c), m) != NO
      ensures m in w2.hasUser
    {
      MemberAbove(w, rank, c, m);
      MemberCells(w, rank, v, a, c, m);
      StoredExactly(w.cfg, a, s, YES);
      assert SetWith(w.cfg, a, c, s, m);
    }
  }

  /** The user values of members, and of choices that do not forget, are still
      there after everything has been evaluated. */
  lemma UsersLast(w: World, rank: Sym -> nat, v: Sym -> Val, a: EState)
    requires UpToDate(w, rank, v, a)
    ensures forall m: Sym :: w.cfg.RoleOf(m).Member? && m in w.hasUser ==> m in a.hasUser
    ensures forall c: Sym :: c in w.hasUser && !Settling(w, v).Forgets(v, c) ==> c in a.hasUser
  {
    hide World.WellFormed, UpToDate, World.Forgets;
    UsersKept(w, rank, v, a);
    forall m: Sym | w.cfg.RoleOf(m).Member?
      ensures !Settling(w, v).Forgets(v, m)
    {
      NoChoiceForgets(Settling(w, v), v, m);
    }
  }

  /** s is a member of a choice at y, below which nothing moves. */
  ghost predicate PicksAtYes(w: World, v: Sym -> Val, rank: Sym -> nat, hasUser: set<Sym>, s: Sym) {
    && PicksMember(w.cfg, s, YES) && v(w.cfg.RoleOf(s).choice).tri == YES
    && Firm(w, v, rank, hasUser, rank(w.cfg.RoleOf(s).choice))
  }

  /** After the evaluation that follows, all members that the choice saw have a
      user value, and a choice that was y has one itself and will not forget it. */
  lemma MembersKept(w: World, rank: Sym -> nat, v: Sym -> Val, v': Sym -> Val, a: EState, z: EState, s: Sym)
    requires UpToDate(w, rank, v, a) && s.Sym? && s in a.valid && rank(s) > rank(w.cfg.modules)
    requires InRange(Settling(w, v), v, s, YES)
    requires UpToDate(Present(w, Stored(w.cfg, a, s, YES)), rank, v', z)
    ensures forall c, m :: SetWith(w.cfg, a, c, s, m) && m != c ==> m in z.hasUser
    ensures PicksAtYes(Settling(w, v), v, rank, a.hasUser, s) ==>
      var c := w.cfg.RoleOf(s).choice;
      c in z.hasUser && !Settling(Present(w, Stored(w.cfg, a, s, YES)), v').Forgets(v', c)
  {
    hide World.WellFormed, UpToDate, World.Forgets, Stored, Firm, IsMeaning, Ordered, InRange;
    var w' := Present(w, Stored(w.cfg, a, s, YES));
    StoredExactly(w.cfg, a, s, YES);
    UsersLast(w', rank, v', z);
    OrderedParts(w', rank, v', z);
    OrderedParts(w, rank, v, a);
    forall c, m | SetWith(w.cfg, a, c, s, m) && m != c
      ensures m in z.hasUser
    {
      MemberAbove(w, rank, c, m);
    }
    if PicksAtYes(Settling(w, v), v, rank, a.hasUser, s) {
      PickedStays(w, rank, v, v', a, s);
      assert SetWith(w.cfg, a, w.cfg.RoleOf(s).choice, s, w.cfg.RoleOf(s).choice);
    }
  }

  // ----- evaluating again -----

  /** When everything is evaluated and the flags are cleared, the next evaluation
      gives the same values exactly if every choice that has forgotten the user's
      value is made y by its reverse dependency alone. */
  lemma EvaluatedAgain(w: World, rank: Sym -> nat, v: Sym -> Val, v': Sym -> Val, a: EState)
    requires UpToDate(w, rank, v, a) && IsMeaning(Present(w, a), v')
    ensures (forall t: Sym :: v'(t) == v(t)) <==>
      forall c: Sym :: c in w.hasUser && c !in a.hasUser ==> Settling(w, v).RevOf(v, c) == YES
  {
    hide World.WellFormed, World.Solution, DepGraph.Ranks, DepGraph.NoFeedback, Config.Graph, BoolFirst, World.Step;
    hide UpToDate, World.RevOf, World.Forgets;
    var w1, w2 := Settling(w, v), Present(Settling(w, v), a);
    OrderedParts(w, rank, v, a);
    UpToDateRests(w, rank, v, a);
    UsersKept(w, rank, v, a);
    SameLow(w, rank, v, a);
    SameModules(w, Present(w, a), rank, v, v');
    assert w2 == Settling(Present(w, a), v');
    SameForm(w, w1);
    SameForm(Present(w, a), w2);
    forall n: nat
      ensures (forall t: Sym :: rank(t) < n ==> v'(t) == v(t)) <==> Firm(w1, v, rank, a.hasUser, n)
    {
      LowerStays(w1, w2, rank, v, v', n);
    }
    AllRanks(w1, v, v', rank, a.hasUser);
  }

  lemma SameLow(w: World, rank: Sym -> nat, v: Sym -> Val, a: EState)
    requires UpToDate(w, rank, v, a)
    ensures forall x: Sym :: rank(x) <= rank(w.cfg.modules) ==> SameUser(w, Present(w, a), x)
  {
    hide World.WellFormed, World.Solution, DepGraph.Ranks, DepGraph.NoFeedback, Config.Graph, World.Step;
    hide UpToDate, World.Forgets;
    OrderedParts(w, rank, v, a);
    UsersKept(w, rank, v, a);
    forall x: Sym | rank(x) <= rank(w.cfg.modules)
      ensures SameUser(w, Present(w, a), x)
    {
      LowIsPlain(w, rank, x);
      NoChoiceForgets(Settling(w, v), v, x);
    }
  }

  lemma AllRanks(w: World, v: Sym -> Val, v': Sym -> Val, rank: Sym -> nat, has: set<Sym>)
    requires forall n: nat :: (forall t: Sym :: rank(t) < n ==> v'(t) == v(t)) <==> Firm(w, v, rank, has, n)
    ensures (forall t: Sym :: v'(t) == v(t)) <==>
      forall c: Sym :: c in w.hasUser && c !in has ==> w.RevOf(v, c) == YES
  {
    hide World.RevOf;
    if forall t: Sym :: v'(t) == v(t) {
      forall c: Sym | c in w.hasUser && c !in has
        ensures w.RevOf(v, c) == YES
      {
        assert Firm(w, v, rank, has, rank(c) + 1);
      }
    }
    if forall c: Sym :: c in w.hasUser && c !in has ==> w.RevOf(v, c) == YES {
      forall t: Sym
        ensures v'(t) == v(t)
      {
        assert Firm(w, v, rank, has, rank(t) + 1);
      }
    }
  }

  // ----- storing the value that a symbol already has -----

  /** The stored value is what the symbol gets when it is evaluated again. */
  ghost predicate OwnValueHolds(w: World, v: Sym -> Val, s: Sym) {
    w.VisibleOf(v, s) == NO || v(s).tri <= Or(w.VisibleOf(v, s), w.RevOf(v, s))
  }

  /** The world in which the user has said of s what it already is. */
  function WithOwn(w: World, v: Sym -> Val, s: Sym): World {
    w.(hasUser := w.hasUser + {s}, user := w.user[s := w.UserOf(s).(tri := v(s).tri)])
  }

  lemma OwnStep(w: World, w': World, v: Sym -> Val, s: Sym)
    requires w.WellFormed() && w.Solution(v) && s.Sym? && s.IsLogical() && w.cfg.RoleOf(s).Plain?
    requires w' == w.(hasUser := w'.hasUser, user := w'.user) && s in w'.hasUser && w'.UserOf(s).tri == v(s).tri
    ensures w'.Step(v, s) == v(s) <==> OwnValueHolds(w, v, s)
  {
    hide World.WellFormed, World.VisibleOf, World.OrAbsent, World.FromDefault, World.DirOf, World.ImpliedOf;
    hide World.Solution;
    SolvedAt(w, v, s);
    ViewAlike(w, w', v, s);
    DefaultsAlike(w, w', v, s);
    NoModVisible(w, v, s);
  }

  /** A refused value would not have come out either, except the one to which the
      selects hold a symbol that is no more visible than selected. */
  lemma RefusedValue(w: World, w': World, v: Sym -> Val, s: Sym, val: Tristate)
    requires w.WellFormed() && w.Solution(v) && s.Sym? && !w.cfg.RoleOf(s).Choice?
    requires w' == w.(hasUser := w'.hasUser, user := w'.user) && s in w'.hasUser && w'.UserOf(s).tri == val
    requires !InRange(w, v, s, val) && v(s).tri != val
    ensures w'.Step(v, s).tri == val <==>
      s.IsLogical() && NO < w.VisibleOf(v, s) <= w.RevOf(v, s) == val && w.DirOf(v, s) != NO
  {
    hide World.WellFormed, World.PromptsTri, World.OrAbsent, World.FromDefault, World.DirOf, World.ImpliedOf;
    hide World.Solution;
    SolvedAt(w, v, s);
    ViewAlike(w, w', v, s);
    DefaultsAlike(w, w', v, s);
  }

  lemma NoModVisible(w: World, v: Sym -> Val, s: Sym)
    requires w.cfg.RoleOf(s).Plain? && s.IsLogical()
    ensures w.VisibleOf(v, s) == MOD || w.RevOf(v, s) == MOD ==> !w.ActsBool(s, w.VisibleOf(v, s))
  {
    hide World.PromptsTri, World.OrAbsent;
  }

  lemma ForgetsAlike(w: World, w': World, v: Sym -> Val, s: Sym, x: Sym)
    requires w.WellFormed() && w' == w.(hasUser := w'.hasUser, user := w'.user) && w.cfg.RoleOf(s).Plain?
    requires forall t: Sym :: t != s ==> SameUser(w, w', t)
    ensures w.Forgets(v, x) <==> w'.Forgets(v, x)
  {
    hide World.WellFormed, World.VisibleOf, World.PlainVal, Config.Graph, World.Step;
    if w.cfg.RoleOf(x).Choice? {
      StepAlike(w, w', v, x);
      forall m | m in w.cfg.RoleOf(x).members
        ensures w.VisibleOf(w.AtYes(v, x), m) == w'.VisibleOf(w'.AtYes(v, x), m) && SameUser(w, w', m)
      {
        ViewAlike(w, w', w.AtYes(v, x), m);
        MembersName(w, x, m);
      }
    }
  }

  lemma MembersName(w: World, c: Sym, m: Sym)
    requires w.WellFormed() && w.cfg.RoleOf(c).Choice? && m in w.cfg.RoleOf(c).members
    ensures w.cfg.RoleOf(m) == Member(c)
  {
    assert w.cfg.Graph().role(c).Choice? && m in w.cfg.Graph().role(c).members;
    assert w.cfg.Graph().MemberOf(m, c);
  }

  /** Storing the value that a symbol outside of choices already has leaves the
      flags SYMBOL_VALID alone. The cache is then still right exactly if this value
      does not exceed both the visibility and the selects. */
  lemma OwnValue(w: World, rank: Sym -> nat, v: Sym -> Val, a: EState, s: Sym)
    requires UpToDate(w, rank, v, a) && s.Sym? && s.IsLogical() && w.cfg.RoleOf(s).Plain? && s in a.valid
    ensures UpToDate(WithOwn(w, v, s), rank, v, Stored(w.cfg, a, s, v(s).tri)) <==> OwnValueHolds(Settling(w, v), v, s)
  {
    hide World.WellFormed, DepGraph.Ranks, DepGraph.NoFeedback, Config.Graph, BoolFirst, UpToDate, World.Step;
    hide OwnValueHolds;
    OrderedParts(w, rank, v, a);
    var w', z := WithOwn(w, v, s), Stored(w.cfg, a, s, v(s).tri);
    SameForm(w, Settling(w, v));
    OwnStep(Settling(w, v), Settling(w', v), v, s);
    if UpToDate(w', rank, v, z) {
      OrderedParts(w', rank, v, z);
      assert v(s) == Settling(w', v).Step(v, s);
    }
    if OwnValueHolds(Settling(w, v), v, s) {
      OwnStays(w, rank, v, a, s);
    }
  }

  lemma OwnStays(w: World, rank: Sym -> nat, v: Sym -> Val, a: EState, s: Sym)
    requires UpToDate(w, rank, v, a) && s.Sym? && s.IsLogical() && w.cfg.RoleOf(s).Plain? && s in a.valid
    requires Settling(WithOwn(w, v, s), v).Step(v, s) == v(s)
    ensures UpToDate(WithOwn(w, v, s), rank, v, Stored(w.cfg, a, s, v(s).tri))
  {
    hide World.WellFormed, DepGraph.Ranks, DepGraph.NoFeedback, Config.Graph, BoolFirst, World.Step, UpToDate, WithOwn;
    hide IsMeaning, World.Forgets;
    var w' := WithOwn(w, v, s);
    OrderedParts(w, rank, v, a);
    OwnForm(w, v, s);
    SameRules(w, w', rank);
    OwnMeaning(w, v, s);
    OwnGood(w, rank, v, a, s);
  }

  lemma OwnMeaning(w: World, v: Sym -> Val, s: Sym)
    requires w.WellFormed() && IsMeaning(w, v) && Settling(WithOwn(w, v, s), v).Step(v, s) == v(s)
    ensures IsMeaning(WithOwn(w, v, s), v)
  {
    hide World.WellFormed, World.Step;
    var w1, w2 := Settling(w, v), Settling(WithOwn(w, v, s), v);
    SameForm(w, w1);
    forall t: Sym
      ensures v(t) == w2.Step(v, t)
    {
      if t != s {
        StepAlike(w1, w2, v, t);
      }
    }
  }

  lemma OwnAlike(w: World, v: Sym -> Val, s: Sym)
    requires w.WellFormed() && w.cfg.RoleOf(s).Plain?
    ensures var w1, w2 := Settling(w, v), Settling(WithOwn(w, v, s), v);
            !w2.Forgets(v, s) && (forall x: Sym :: w1.Forgets(v, x) <==> w2.Forgets(v, x)) &&
            (forall x: Sym :: w1.VisibleOf(v, x) == w2.VisibleOf(v, x) && w1.DirOf(v, x) == w2.DirOf(v, x) &&
                              w1.RevOf(v, x) == w2.RevOf(v, x))
  {
    hide World.WellFormed, World.Forgets, World.VisibleOf, World.DirOf, World.RevOf;
    var w1, w2 := Settling(w, v), Settling(WithOwn(w, v, s), v);
    SameForm(w, w1);
    forall x: Sym
      ensures w1.Forgets(v, x) <==> w2.Forgets(v, x)
      ensures w1.VisibleOf(v, x) == w2.VisibleOf(v, x) && w1.DirOf(v, x) == w2.DirOf(v, x)
      ensures w1.RevOf(v, x) == w2.RevOf(v, x)
    {
      ForgetsAlike(w1, w2, v, s, x);
      ViewAlike(w1, w2, v, x);
    }
    NoChoiceForgets(w2, v, s);
  }

  lemma OwnGood(w: World, rank: Sym -> nat, v: Sym -> Val, a: EState, s: Sym)
    requires UpToDate(w, rank, v, a) && Ordered(WithOwn(w, v, s), rank) && IsMeaning(WithOwn(w, v, s), v)
    requires s.Sym? && w.cfg.RoleOf(s).Plain? && s in a.valid
    ensures UpToDate(WithOwn(w, v, s), rank, v, Stored(w.cfg, a, s, v(s).tri))
  {
    hide World.WellFormed, DepGraph.Ranks, DepGraph.NoFeedback, Config.Graph, World.Step, World.Forgets;
    hide World.VisibleOf;
    hide World.DirOf, World.RevOf, World.Solution, Ctx.MembersShown;
    var z := Stored(w.cfg, a, s, v(s).tri);
    OwnMembers(w, rank, v, a, s);
    SameForm(WithOwn(w, v, s), Settling(WithOwn(w, v, s), v));
    OwnAlike(w, v, s);
    forall x: Sym | x in z.valid && x.IsLogical()
      ensures Final(WithOwn(w, v, s), rank, v, 0).ShownAt(z, x)
    {
      assert Final(w, rank, v, 0).ShownAt(a, x);
    }
  }

  lemma OwnMembers(w: World, rank: Sym -> nat, v: Sym -> Val, a: EState, s: Sym)
    requires w.WellFormed() && w.cfg.RoleOf(s).Plain? && Final(w, rank, v, 0).MembersShown(a)
    ensures Final(WithOwn(w, v, s), rank, v, 0).MembersShown(Stored(w.cfg, a, s, v(s).tri))
  {
    hide World.WellFormed, World.PlainVal, World.VisibleOf, World.Step, Config.Graph;
    var w1, w2 := Settling(w, v), Settling(WithOwn(w, v, s), v);
    SameForm(w, w1);
    forall m: Sym
      ensures Final(WithOwn(w, v, s), rank, v, 0).MemberShownAt(Stored(w.cfg, a, s, v(s).tri), m)
    {
      assert Final(w, rank, v, 0).MemberShownAt(a, m);
      ViewAlike(w1, w2, v, m);
      if w.cfg.RoleOf(m).Member? && w.cfg.RoleOf(m).choice != s {
        StepAlike(w1, w2, v, w.cfg.RoleOf(m).choice);
      }
    }
  }

  lemma OwnForm(w: World, v: Sym -> Val, s: Sym)
    requires w.WellFormed() && w.cfg.RoleOf(s).Plain?
    ensures OtherUser(w, WithOwn(w, v, s))
  {
    hide Config.Graph;
  }
}
