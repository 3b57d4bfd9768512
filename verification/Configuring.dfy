/** The stages together: rewritten conditions, the dependency check, and the
    evaluation of the symbols. */
module Configuring {
  import opened Tristates
  import opened Exprs
  import opened Transform
  import opened Symbols
  import opened Valuation
  import opened Checker
  import opened Meaning
  import opened Evaluator

  /** Comparing the texts of bool, tristate and constant symbols is comparing
      "n", "m" and "y" as strings. */
  ghost predicate ComparesTexts(w: World) {
    forall a: SymType, x: string, y: string ::
      (a == BooleanType || a == TristateType || a == UnknownType) && x in ["n", "m", "y"] && y in ["n", "m", "y"] ==>
      (w.compare(a, x, UnknownType, y) == 0 <==> x == y)
  }

  /** Without modules no symbol is m, and a bool symbol never is. */
  lemma NoMod(w: World, v: Sym -> Val, s: Sym)
    requires w.WellFormed() && w.Solution(v) && s.Sym? && s.IsLogical() && (s.IsBool() || w.modulesVal == NO)
    ensures v(s).tri != MOD
  {
    hide World.VisibleOf, World.WantedTri, World.DirOf, World.RevOf, World.PickOf, World.WellFormed;
    assert v(s) == w.Step(v, s);
  }

  /** The values of a solution are a consistent assignment for the conditions. */
  lemma SolutionConsistent(w: World, v: Sym -> Val)
    requires w.WellFormed() && w.Solution(v) && ComparesTexts(w)
    ensures Consistent(w.EnvOf(v))
  {
    hide World.WellFormed, World.Step;
    ConstantsSettled(w, v);
    forall s: Sym | s.IsBool()
      ensures v(s).tri != MOD
    {
      NoMod(w, v, s);
    }
    forall s: Sym, c: Sym | (s.IsLogical() || s.IsTristateConst()) && c.IsTristateConst()
      ensures w.EnvOf(v).order(s, c) == 0 <==> v(s).tri == v(c).tri
    {
      if s.IsLogical() && w.modulesVal == NO {
        NoMod(w, v, s);
      }
      assert w.Text(v, s) in ["n", "m", "y"] && w.Text(v, c) in ["n", "m", "y"];
    }
  }

  /** Rewriting a condition with expr_transform never changes its value in the
      meaning of the configuration. */
  lemma RewritingKeepsMeaning(w: World, v: Sym -> Val, e: Expr)
    requires w.WellFormed() && IsMeaning(w, v) && ComparesTexts(w)
    ensures Eval(Transform.Transform(e), Settling(w, v).EnvOf(v)) == Eval(e, Settling(w, v).EnvOf(v))
  {
    hide World.WellFormed, World.EnvOf, Consistent, World.Solution;
    SameForm(w, Settling(w, v));
    SolutionConsistent(Settling(w, v), v);
    TransformPreserves(e, Settling(w, v).EnvOf(v));
  }

  /** conf_parse and then any evaluations: when the check of a configuration
      reports nothing, and it has no choices or no feedback into them, it has
      exactly one meaning, and every evaluation, in any order, gives the value it
      has there. */
  method CheckThenEvaluate(cfg: Config, compare: Compare, name: Sym -> string, hasUser: set<Sym>, user: map<Sym, User>,
      symbols: seq<Sym>, order: seq<Sym>, ghost d: set<Sym>)
    returns (errors: nat, vals: seq<Val>, ghost v: Sym -> Val)
    requires StartWorld(cfg, compare, name, hasUser, user).WellFormed() && BoolClosed(cfg, d)
    requires cfg.Graph().ChoiceFree() || exists rank: Sym -> nat :: cfg.Graph().Augmented().Ranks(rank)
    requires forall s :: s in symbols <==> s.Sym? && s in cfg.Universe()
    requires forall s :: s in order ==> s in cfg.Universe()
    ensures (exists rank: Sym -> nat :: cfg.Graph().Augmented().Ranks(rank)) <==> errors == 0
    ensures var w := StartWorld(cfg, compare, name, hasUser, user);
            errors == 0 ==>
              IsMeaning(w, v) && (forall v': Sym -> Val, s: Sym :: IsMeaning(w, v') ==> v'(s) == v(s)) &&
              |vals| == |order| && forall i :: 0 <= i < |order| ==> vals[i] == v(order[i])
  {
    hide World.WellFormed, IsMeaning, BoolClosed, AtRest, Ordered, Config.Graph, DepGraph.Augmented;
    vals := [];
    v := s => Val(NO, "", None);
    ghost var w := StartWorld(cfg, compare, name, hasUser, user);
    TableClosed(w);
    AllRankings(cfg);
    errors := CheckDependencies(cfg, true, symbols);
    if errors == 0 {
      ghost var rank: Sym -> nat :| cfg.Graph().Augmented().Ranks(rank);
      ghost var first := ModulesFirst(w, rank, d);
      v := MeaningExists(w, first);
      forall v': Sym -> Val, s: Sym | IsMeaning(w, v')
        ensures v'(s) == v(s)
      {
        MeaningUnique(w, first, v', v, s);
      }
      var t := new SymTable(cfg, compare, name, hasUser, user);
      vals := t.EvaluateAll(order, w, first, v);
    }
  }

  lemma TableClosed(w: World)
    requires w.WellFormed()
    ensures w.cfg.Sane() && w.cfg.Graph().Closed()
  {
  }

  /** Rankings without feedback are rankings of the augmented graph; without
      choices all rankings are. */
  lemma AllRankings(cfg: Config)
    requires cfg.Graph().Closed()
    ensures forall rank: Sym -> nat ::
      cfg.Graph().Augmented().Ranks(rank) <==> cfg.Graph().Ranks(rank) && cfg.Graph().NoFeedback(rank)
    ensures cfg.Graph().ChoiceFree() ==> forall rank: Sym -> nat :: cfg.Graph().NoFeedback(rank)
  {
    hide DepGraph.Ranks, DepGraph.Augmented, Config.Graph, DepGraph.Closed;
    forall rank: Sym -> nat
      ensures cfg.Graph().Augmented().Ranks(rank) <==> cfg.Graph().Ranks(rank) && cfg.Graph().NoFeedback(rank)
      ensures cfg.Graph().ChoiceFree() ==> cfg.Graph().NoFeedback(rank)
    {
      cfg.Graph().AugmentedRanks(rank);
    }
  }
}
