/** Symbols, their properties and their dependencies, as they stand once the
    menu tree has been finalised (expr.h, symbol.c). */
module Symbols {
  import opened Tristates
  import opened Exprs

  datatype PropKind =
    | PromptProp | CommentProp | MenuProp | DefaultProp | ChoiceProp
    | SelectProp | ImplyProp | RangeProp | SymbolProp | ResetProp

  /** hasText says that the property counts as a prompt (for_all_prompts). */
  datatype Prop = Prop(kind: PropKind, hasText: bool, visible: Option<Expr>, value: Option<Expr>)

  datatype Role = Plain | Choice(members: seq<Sym>) | Member(choice: Sym)

  datatype Info = Info(
    role: Role, props: seq<Prop>,
    dirDep: Option<Expr>, revDep: Option<Expr>, implied: Option<Expr>)

  const BARE := Info(Plain, [], None, None, None)

  /** What the dependency check and the evaluator need to know of the symbols:
      who refers to whom, and who belongs to which choice. */
  datatype DepGraph = DepGraph(universe: set<Sym>, refs: Sym -> set<Sym>, role: Sym -> Role) {
    predicate MemberOf(s: Sym, c: Sym) {
      role(s) == Member(c)
    }

    predicate InTable(s: Sym) {
      s.Sym? && s in universe
    }

    /** Only symbols of the table refer to others, references stay inside the
        universe, and choices and their members name each other. */
    ghost predicate Closed() {
      && (forall s: Sym, t: Sym :: t in refs(s) ==> t in universe)
      && (forall s: Sym, t: Sym :: t in refs(s) ==> InTable(s))
      && (forall s: Sym, c: Sym :: MemberOf(s, c) ==>
          InTable(s) && c in universe && role(c).Choice? && s in role(c).members)
      && (forall c: Sym, m: Sym :: role(c).Choice? && m in role(c).members ==> m in universe && MemberOf(m, c))
    }

    ghost predicate ChoiceFree() {
      forall s: Sym :: role(s).Plain?
    }

    /** `rank` orders the symbols below everything that depends on them, and a
        choice below its members. */
    ghost predicate Ranks(rank: Sym -> nat) {
      && (forall s: Sym, t: Sym :: t in refs(s) ==> rank(t) < rank(s))
      && (forall s: Sym, c: Sym :: MemberOf(s, c) ==> rank(c) < rank(s))
    }

    /** The conditions of a choice member see the choice itself, or symbols
        below the choice, but no symbol that depends on the choice. */
    ghost predicate NoFeedback(rank: Sym -> nat) {
      forall m: Sym, c: Sym, t: Sym :: MemberOf(m, c) && t in refs(m) ==> t == c || rank(t) < rank(c)
    }

    /** The graph in which a choice also refers to what its members refer to. */
    function Augmented(): DepGraph {
      var g := this;
      DepGraph(universe,
        s => refs(s) + (if g.role(s).Choice? then set m, t | m in g.role(s).members && t in g.refs(m) && t != s ::
            t else {}),
        role)
    }

    /** A ranking of that graph is a ranking without feedback into choices. */
    lemma AugmentedRanks(rank: Sym -> nat)
      requires Closed()
      ensures Augmented().Ranks(rank) <==> Ranks(rank) && NoFeedback(rank)
    {
      var g := Augmented();
      if g.Ranks(rank) {
        forall s: Sym, t: Sym | t in refs(s)
          ensures rank(t) < rank(s)
        {
          assert t in g.refs(s);
        }
        forall s: Sym, c: Sym | MemberOf(s, c)
          ensures rank(c) < rank(s)
        {
          assert g.MemberOf(s, c);
        }
        forall m: Sym, c: Sym, t: Sym | MemberOf(m, c) && t in refs(m) && t != c
          ensures rank(t) < rank(c)
        {
          assert t in g.refs(c);
        }
      }
      if Ranks(rank) && NoFeedback(rank) {
        forall s: Sym, t: Sym | t in g.refs(s)
          ensures rank(t) < rank(s)
        {
          if t !in refs(s) {
            var m :| m in role(s).members && t in refs(m) && t != s;
            assert MemberOf(m, s);
          }
        }
        forall s: Sym, c: Sym | g.MemberOf(s, c)
          ensures rank(c) < rank(s)
        {
          assert MemberOf(s, c);
        }
      }
    }

    /** One dependency step: a reference, or from a member to its choice. */
    ghost predicate Edge(s: Sym, t: Sym) {
      t in refs(s) || MemberOf(s, t)
    }

    ghost predicate Chain(p: seq<Sym>) {
      forall i :: 0 <= i < |p| - 1 ==> Edge(p[i], p[i + 1])
    }

    lemma {:induction false} RankedChain(rank: Sym -> nat, p: seq<Sym>)
      requires Ranks(rank) && Chain(p) && |p| >= 2
      ensures rank(p[|p| - 1]) < rank(p[0])
    {
      assert Edge(p[0], p[1]);
      if |p| > 2 {
        forall i | 0 <= i < |p[1..]| - 1
          ensures Edge(p[1..][i], p[1..][i + 1])
        {
          assert Edge(p[i + 1], p[i + 2]);
        }
        RankedChain(rank, p[1..]);
      }
    }

    /** A ranked graph has no dependency cycle. */
    lemma RankedIsAcyclic(rank: Sym -> nat)
      requires Ranks(rank)
      ensures forall p: seq<Sym> :: Chain(p) && |p| >= 2 ==> p[0] != p[|p| - 1]
    {
      forall p: seq<Sym> | Chain(p) && |p| >= 2
        ensures p[0] != p[|p| - 1]
      {
        RankedChain(rank, p);
      }
    }
  }

  /** All symbols of the hash table; y, m and n live outside of it. */
  datatype Config = Config(info: map<Sym, Info>, modules: Sym) {
    function InfoOf(s: Sym): Info {
      if s in info then info[s] else BARE
    }

    function Universe(): set<Sym> {
      info.Keys + {SymYes, SymMod, SymNo}
    }

    function RoleOf(s: Sym): Role {
      InfoOf(s).role
    }

    /** Does sym_check_sym_deps follow the condition of this property? */
    static predicate FollowsVisible(p: Prop) {
      !p.kind.ChoiceProp? && !p.kind.SelectProp? && !p.kind.ImplyProp?
    }

    predicate FollowsValue(s: Sym, p: Prop) {
      FollowsVisible(p) && p.kind.DefaultProp? && !RoleOf(s).Choice?
    }

    function PropRefs(s: Sym, p: Prop): set<Sym> {
      (if FollowsVisible(p) then SymsOpt(p.visible) else {}) +
      (if FollowsValue(s, p) then SymsOpt(p.value) else {})
    }

    function PropsRefs(s: Sym, props: seq<Prop>): set<Sym> {
      if props == [] then {} else PropsRefs(s, props[..|props| - 1]) + PropRefs(s, props[|props| - 1])
    }

    /** The dependencies of a symbol: its direct, reverse and weak reverse
        dependencies, prompt and default conditions, and default values. */
    function Refs(s: Sym): set<Sym> {
      SymsOpt(InfoOf(s).dirDep) + SymsOpt(InfoOf(s).revDep) + SymsOpt(InfoOf(s).implied) + PropsRefs(s, InfoOf(s).props)
    }

    function Graph(): DepGraph {
      DepGraph(Universe(), s => Refs(s), s => RoleOf(s))
    }

    /** The dependency graph is closed, MODULES is a symbol of the table or the
        constant n, only prompts carry a text, and choices are bool, tristate or
        untyped. */
    ghost predicate Sane() {
      && Graph().Closed() && (modules == SymNo || (modules.Sym? && modules in info))
      && (forall s: Sym, p: Prop :: p in InfoOf(s).props && p.hasText ==> FollowsVisible(p))
      && (forall c: Sym :: RoleOf(c).Choice? ==> c.Sym? && (c.IsLogical() || c.Type().UnknownType?))
    }
  }
}
