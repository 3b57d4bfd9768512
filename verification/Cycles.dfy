/** What a reported recursive dependency is: a cycle of steps that are read off
    the symbols and their properties. */
module Cycles {
  import opened Tristates
  import opened Exprs
  import opened Symbols

  // ----- steps -----

  /** s depends on t: by its direct, reverse or weak reverse dependency, by the
      condition of a property, or by a default value unless s is a choice. */
  ghost predicate DependsOn(cfg: Config, s: Sym, t: Sym) {
    var i := cfg.InfoOf(s);
    || t in SymsOpt(i.dirDep) || t in SymsOpt(i.revDep) || t in SymsOpt(i.implied)
    || (exists p :: p in i.props && p.kind !in {ChoiceProp, SelectProp, ImplyProp} && t in SymsOpt(p.visible))
    || (!i.role.Choice? && exists p :: p in i.props && p.kind == DefaultProp && t in SymsOpt(p.value))
  }

  /** A dependency, or the step from a member to its choice. */
  ghost predicate Direct(cfg: Config, s: Sym, t: Sym) {
    DependsOn(cfg, s, t) || cfg.RoleOf(s) == Member(t)
  }

  /** One step of a cycle: a direct one, or from a choice to another symbol that a
      member depends on. */
  ghost predicate Leads(cfg: Config, s: Sym, t: Sym) {
    || Direct(cfg, s, t)
    || (cfg.RoleOf(s).Choice? && t != s && exists m :: m in cfg.RoleOf(s).members && DependsOn(cfg, m, t))
  }

  ghost predicate Cycle(cfg: Config, p: seq<Sym>) {
    |p| >= 2 && p[0] == p[|p| - 1] && forall i :: 0 <= i < |p| - 1 ==> Leads(cfg, p[i], p[i + 1])
  }

  ghost predicate DirectCycle(cfg: Config, p: seq<Sym>) {
    |p| >= 2 && p[0] == p[|p| - 1] && forall i :: 0 <= i < |p| - 1 ==> Direct(cfg, p[i], p[i + 1])
  }

  lemma {:induction false} PropsMention(cfg: Config, s: Sym, props: seq<Prop>, t: Sym)
    ensures t in cfg.PropsRefs(s, props) <==> exists p :: p in props && t in cfg.PropRefs(s, p)
  {
    if props != [] {
      var last := props[|props| - 1];
      PropsMention(cfg, s, props[..|props| - 1], t);
      assert forall p :: p in props <==> p in props[..|props| - 1] || p == last;
    }
  }

  /** The references that the check follows are exactly those dependencies. */
  lemma RefsAreDependencies(cfg: Config, s: Sym, t: Sym)
    ensures t in cfg.Refs(s) <==> DependsOn(cfg, s, t)
  {
    PropsMention(cfg, s, cfg.InfoOf(s).props, t);
  }

  // ----- finite graphs -----

  ghost predicate Inside(g: DepGraph) {
    forall s: Sym, t: Sym :: g.Edge(s, t) ==> s in g.universe && t in g.universe
  }

  /** The symbols in `done` are ranked below `clock`, above all they lead to. */
  ghost predicate RankedTo(g: DepGraph, done: set<Sym>, rank: Sym -> nat, clock: nat) {
    && done <= g.universe
    && (forall s :: s in done ==> rank(s) < clock)
    && (forall s: Sym, t: Sym :: s in done && g.Edge(s, t) ==> t in done && rank(t) < rank(s))
  }

  /** Everything that s leads to is in `done`. */
  ghost predicate Ready(g: DepGraph, done: set<Sym>, s: Sym) {
    forall t :: g.Edge(s, t) ==> t in done
  }

  /** s leads back into `rest`. */
  ghost predicate Stays(g: DepGraph, rest: set<Sym>, s: Sym) {
    exists t :: t in rest && g.Edge(s, t)
  }

  ghost predicate Round(g: DepGraph, p: seq<Sym>) {
    |p| >= 2 && g.Chain(p) && p[0] == p[|p| - 1]
  }

  /** A finite graph is ranked or has a cycle. */
  lemma {:induction false} RankedOrCyclic(g: DepGraph, done: set<Sym>, rank: Sym -> nat, clock: nat)
    requires Inside(g) && RankedTo(g, done, rank, clock)
    ensures (exists r: Sym -> nat :: g.Ranks(r)) || (exists p: seq<Sym> :: Round(g, p))
    decreases |g.universe - done|
  {
    hide DepGraph.Edge, DepGraph.Ranks, RankedTo, Inside, Ready, Stays, Round;
    var rest := g.universe - done;
    if rest == {} {
      AllRanked(g, done, rank, clock);
    } else if s :| s in rest && Ready(g, done, s) {
      OneMore(g, done, rank, clock, s);
      Smaller(g.universe - (done + {s}), rest, s);
      RankedOrCyclic(g, done + {s}, (x: Sym) => if x == s then clock else rank(x), clock + 1);
    } else {
      forall s | s in rest
        ensures Stays(g, rest, s)
      {
        NotReady(g, done, s);
      }
      var s :| s in rest;
      WalkRound(g, rest, [s]);
    }
  }

  lemma OneMore(g: DepGraph, done: set<Sym>, rank: Sym -> nat, clock: nat, s: Sym)
    requires RankedTo(g, done, rank, clock) && s in g.universe && s !in done && Ready(g, done, s)
    ensures RankedTo(g, done + {s}, (x: Sym) => if x == s then clock else rank(x), clock + 1)
  {
    hide DepGraph.Edge;
  }

  lemma NotReady(g: DepGraph, done: set<Sym>, s: Sym)
    requires Inside(g) && !Ready(g, done, s)
    ensures Stays(g, g.universe - done, s)
  {
    hide DepGraph.Edge;
    var t :| g.Edge(s, t) && t !in done;
    assert t in g.universe - done;
  }

  lemma Smaller(a: set<Sym>, b: set<Sym>, s: Sym)
    requires a <= b && s in b && s !in a
    ensures |a| < |b|
  {
    assert |a| <= |b - {s}| by {
      Subset(a, b - {s});
    }
  }

  lemma Subset(a: set<Sym>, b: set<Sym>)
    requires a <= b
    ensures |a| <= |b|
  {
    assert b == a + (b - a);
  }

  lemma AllRanked(g: DepGraph, done: set<Sym>, rank: Sym -> nat, clock: nat)
    requires Inside(g) && RankedTo(g, done, rank, clock) && g.universe - done == {}
    ensures g.Ranks(rank)
  {
    hide DepGraph.Edge;
    forall s: Sym, t: Sym | g.Edge(s, t)
      ensures rank(t) < rank(s)
    {
      assert s in g.universe && s !in g.universe - done;
    }
    AllEdges(g, rank);
  }

  lemma AllEdges(g: DepGraph, rank: Sym -> nat)
    requires forall s: Sym, t: Sym :: g.Edge(s, t) ==> rank(t) < rank(s)
    ensures g.Ranks(rank)
  {
    forall s: Sym, t: Sym | t in g.refs(s)
      ensures rank(t) < rank(s)
    {
      assert g.Edge(s, t);
    }
    forall s: Sym, c: Sym | g.MemberOf(s, c)
      ensures rank(c) < rank(s)
    {
      assert g.Edge(s, c);
    }
  }

  /** A walk that never has to stop comes round. */
  lemma {:induction false} WalkRound(g: DepGraph, rest: set<Sym>, p: seq<Sym>)
    requires p != [] && g.Chain(p) && forall s :: s in p ==> s in rest
    requires forall s :: s in rest ==> Stays(g, rest, s)
    ensures exists q: seq<Sym> :: Round(g, q)
    decreases |rest - (set s | s in p)|
  {
    hide DepGraph.Edge, DepGraph.Chain, Stays, Round;
    var t := Onward(g, rest, p[|p| - 1]);
    Longer(g, p, t);
    if i :| 0 <= i < |p| && p[i] == t {
      CutRound(g, p + [t], i);
    } else {
      var q := p + [t];
      Smaller(rest - (set s | s in q), rest - (set s | s in p), t);
      WalkRound(g, rest, q);
    }
  }

  lemma Onward(g: DepGraph, rest: set<Sym>, s: Sym) returns (t: Sym)
    requires Stays(g, rest, s)
    ensures t in rest && g.Edge(s, t)
  {
    t :| t in rest && g.Edge(s, t);
  }

  lemma Longer(g: DepGraph, p: seq<Sym>, t: Sym)
    requires p != [] && g.Chain(p) && g.Edge(p[|p| - 1], t)
    ensures g.Chain(p + [t])
  {
    hide DepGraph.Edge;
    var q := p + [t];
    forall i | 0 <= i < |q| - 1
      ensures g.Edge(q[i], q[i + 1])
    {
      if i < |p| - 1 {
        assert g.Edge(p[i], p[i + 1]);
      }
    }
  }

  lemma CutRound(g: DepGraph, q: seq<Sym>, i: nat)
    requires i < |q| - 1 && g.Chain(q) && q[i] == q[|q| - 1]
    ensures Round(g, q[i..])
  {
    hide DepGraph.Edge;
    var r := q[i..];
    forall j | 0 <= j < |r| - 1
      ensures g.Edge(r[j], r[j + 1])
    {
      assert g.Edge(q[i + j], q[i + j + 1]);
    }
  }

  // ----- the converse for the check -----

  /** Without a ranking that keeps feedback out, the steps have a cycle. */
  lemma UnrankedHasCycle(cfg: Config)
    requires cfg.Graph().Closed()
    requires !exists rank: Sym -> nat :: cfg.Graph().Ranks(rank) && cfg.Graph().NoFeedback(rank)
    ensures exists p :: Cycle(cfg, p)
  {
    hide Config.Refs, DepGraph.NoFeedback, DepGraph.Ranks;
    var g := cfg.Graph().Augmented();
    forall s: Sym, t: Sym | g.Edge(s, t)
      ensures s in g.universe && t in g.universe
    {
      AugmentedInside(cfg, s, t);
    }
    RankedOrCyclic(g, {}, s => 0, 0);
    if rank: Sym -> nat :| g.Ranks(rank) {
      cfg.Graph().AugmentedRanks(rank);
      assert false;
    }
    var p: seq<Sym> :| Round(g, p);
    forall i | 0 <= i < |p| - 1
      ensures Leads(cfg, p[i], p[i + 1])
    {
      assert g.Edge(p[i], p[i + 1]);
      AugmentedLeads(cfg, p[i], p[i + 1]);
    }
    assert Cycle(cfg, p);
  }

  lemma AugmentedInside(cfg: Config, s: Sym, t: Sym)
    requires cfg.Graph().Closed() && cfg.Graph().Augmented().Edge(s, t)
    ensures s in cfg.Universe() && t in cfg.Universe()
  {
    hide Config.Refs;
    var g := cfg.Graph();
    if t in g.refs(s) {
    } else if cfg.RoleOf(s).Choice? && t in g.Augmented().refs(s) {
      var m :| m in cfg.RoleOf(s).members && t in g.refs(m);
      assert g.MemberOf(m, s);
    } else {
      assert g.MemberOf(s, t);
    }
  }

  lemma AugmentedLeads(cfg: Config, s: Sym, t: Sym)
    requires cfg.Graph().Augmented().Edge(s, t)
    ensures Leads(cfg, s, t)
  {
    hide Config.Refs, DependsOn;
    var g := cfg.Graph();
    RefsAreDependencies(cfg, s, t);
    if t !in g.refs(s) && g.role(s) != Member(t) {
      var m :| m in cfg.RoleOf(s).members && t in g.refs(m);
      RefsAreDependencies(cfg, m, t);
    }
  }

  /** A ranked configuration has no cycle of direct steps. */
  lemma RankedHasNoCycle(cfg: Config, rank: Sym -> nat)
    requires cfg.Graph().Ranks(rank)
    ensures forall p :: !DirectCycle(cfg, p)
  {
    hide Config.Refs, DependsOn, DepGraph.Ranks;
    var g := cfg.Graph();
    g.RankedIsAcyclic(rank);
    forall p
      ensures !DirectCycle(cfg, p)
    {
      if DirectCycle(cfg, p) {
        DirectChain(cfg, p);
      }
    }
  }

  lemma DirectChain(cfg: Config, p: seq<Sym>)
    requires DirectCycle(cfg, p)
    ensures cfg.Graph().Chain(p)
  {
    hide Config.Refs, DependsOn;
    forall i | 0 <= i < |p| - 1
      ensures cfg.Graph().Edge(p[i], p[i + 1])
    {
      assert Direct(cfg, p[i], p[i + 1]);
      RefsAreDependencies(cfg, p[i], p[i + 1]);
    }
  }
}
