/** The memoised state of the symbols, and what it means for the cache to agree
    with the plain definition of the values. */
module EvalState {
  import opened Tristates
  import opened Exprs
  import opened Symbols
  import opened Valuation
  import opened Choices

  /** curr, visible, and the tri fields of dir_dep, rev_dep and implied. */
  datatype Cell = Cell(curr: Val, visible: Tristate, dir: Tristate, rev: Tristate, imp: Tristate)

  const ZERO_CELL := Cell(Val(NO, "", None), NO, NO, NO, NO)

  /** The mutable parts of all symbols: the sets stand for the flags
      SYMBOL_VALID, SYMBOL_NEED_SET_CHOICE_VALUES and SYMBOL_DEF_USER. */
  datatype EState = EState(
    valid: set<Sym>, need: set<Sym>, cells: map<Sym, Cell>,
    hasUser: set<Sym>, user: map<Sym, User>, modulesVal: Tristate)
  {
    function CellOf(s: Sym): Cell {
      if s in cells then cells[s] else ZERO_CELL
    }

    function Curr(s: Sym): Val {
      if s.Sym? then CellOf(s).curr else ConstVal(s)
    }

    predicate IsValid(s: Sym) {
      !s.Sym? || s in valid
    }

    predicate AllValid(ss: set<Sym>) {
      forall s :: s in ss ==> IsValid(s)
    }

    function WithCell(s: Sym, c: Cell): EState {
      this.(cells := cells[s := c])
    }

    function WithValid(s: Sym): EState {
      this.(valid := valid + {s})
    }

    /** The termination order of sym_calc_value: pending choices first, then the
        symbols that are not up to date. */
    ghost predicate ShrinksTo(b: EState) {
      b.need <= need && (b.need == need ==> valid <= b.valid)
    }
  }

  /** A point in a run: the solution `u` that the cache must agree with, the
      symbols in progress, the choices that have not decided yet whether to keep
      the user's value, and a place `b` of the ranking that they have reached:
      everything below may still be evaluated. While a choice at y looks for its
      member `u` shows the choice at y; `base` is the solution itself. */
  datatype Ctx = Ctx(
    w: World, rank: Sym -> nat, u: Sym -> Val, base: Sym -> Val, act: set<Sym>, asking: set<Sym>, b: nat)
  {
    ghost predicate Ready() {
      w.WellFormed() && w.cfg.Graph().Ranks(rank) && w.cfg.Graph().NoFeedback(rank)
    }

    /** Every symbol marked SYMBOL_VALID and not in progress holds its value. */
    ghost predicate Settled(a: EState) {
      forall x :: a.IsValid(x) && x !in act ==> a.Curr(x) == u(x)
    }

    /** This symbol is evaluated, and has forgotten the user's value. */
    ghost predicate Forgot(a: EState, x: Sym) {
      x in a.valid && x !in act && x !in asking && w.Forgets(base, x)
    }

    /** The user's values are as in the world, but for the choices that have
        forgotten theirs. */
    ghost predicate UserKept(a: EState) {
      a.user == w.user && forall x :: x in a.hasUser <==> x in w.hasUser && !Forgot(a, x)
    }

    ghost predicate ActiveAbove(a: EState) {
      && (forall x :: x in act ==> x in a.valid && rank(x) >= b)
      && (forall x :: x in asking ==> x in a.valid && rank(x) >= b && x !in act)
    }

    /** A choice is done before its members. */
    ghost predicate MembersAfter(a: EState) {
      forall m: Sym :: m in a.valid && m !in act && m.IsLogical() && w.cfg.RoleOf(m).Member? ==>
        w.cfg.RoleOf(m).choice in a.valid && w.cfg.RoleOf(m).choice !in act && w.cfg.RoleOf(m).choice !in asking
    }

    /** Everything up to MODULES is a plain bool symbol or an untyped one. */
    ghost predicate LowBool() {
      forall x: Sym :: rank(x) <= rank(w.cfg.modules) && x.Sym? ==>
        (x.IsBool() || x.Type().UnknownType?) && w.cfg.RoleOf(x).Plain?
    }

    ghost predicate NoModYet(a: EState) {
      forall x: Sym :: a.IsValid(x) && x !in act && x.Sym? ==> u(x).tri != MOD && rank(x) <= rank(w.cfg.modules)
    }

    /** Either MODULES is up to date, or this run is still below it. */
    ghost predicate ModulesKnown(a: EState) {
      var m := w.cfg.modules;
      (a.IsValid(m) && m !in act && u(m).tri == w.modulesVal) ||
      (b <= rank(m) && LowBool() && NoModYet(a))
    }

    ghost predicate MembersZero(a: EState) {
      forall m :: w.cfg.RoleOf(m).Member? ==> a.CellOf(m).dir == a.CellOf(m).rev == a.CellOf(m).imp == NO
    }

    /** The stored visibility and dependencies of a bool or tristate symbol. */
    ghost predicate ShownAt(a: EState, x: Sym) {
      a.CellOf(x).visible == w.VisibleOf(base, x) && a.CellOf(x).dir == w.DirOf(base, x) &&
          a.CellOf(x).rev == w.RevOf(base, x)
    }

    ghost predicate Shown(a: EState) {
      forall x: Sym :: x in a.valid && x !in act && x.IsLogical() ==> ShownAt(a, x)
    }

    /** The choice is y and has looked at its members. */
    ghost predicate Found(c: Sym) {
      && w.cfg.RoleOf(c).Choice? && !c.Type().UnknownType? && w.PlainVal(base, c).tri == YES
      && base(c).tri == YES && base(c).str == "n"
    }

    ghost predicate MemberShownAt(a: EState, m: Sym) {
      w.cfg.RoleOf(m).Member? ==>
        var c := w.cfg.RoleOf(m).choice;
        c in a.valid && c !in act && c !in asking && Found(c) ==> a.CellOf(m).visible == w.VisibleOf(base, m)
    }

    /** The members of an evaluated choice at y show their visibility, whether or
        not they are up to date themselves. */
    ghost predicate MembersShown(a: EState) {
      forall m: Sym :: MemberShownAt(a, m)
    }

    ghost predicate BaseBelow() {
      forall x: Sym :: rank(x) < b ==> base(x) == u(x)
    }

    /** The cache is right as far as this run has got. */
    ghost predicate Good(a: EState) {
      && Ready() && a.need == {} && a.modulesVal == w.modulesVal
      && Settled(a) && UserKept(a) && ActiveAbove(a) && ModulesKnown(a) && MembersZero(a)
      && MembersAfter(a) && Shown(a) && MembersShown(a)
      && BaseBelow() && w.SolvesBelow(u, rank, b)
    }

    /** This symbol can be read now: it is up to date, or may be evaluated. */
    ghost predicate Readable(a: EState, t: Sym) {
      (a.IsValid(t) && t !in act) || rank(t) < b
    }

    ghost predicate ReadAll(a: EState, ss: set<Sym>) {
      forall t :: t in ss ==> Readable(a, t)
    }

    /** What the evaluation of lower symbols leaves alone at and above `b`. Only
        the visibility of choice members moves, while their choice is evaluated. */
    ghost predicate SameAbove(a: EState, z: EState, x: Sym) {
      && (x in a.valid <==> x in z.valid)
      && a.CellOf(x).curr == z.CellOf(x).curr && a.CellOf(x).dir == z.CellOf(x).dir
      && a.CellOf(x).rev == z.CellOf(x).rev && a.CellOf(x).imp == z.CellOf(x).imp
    }

    ghost predicate SameVisible(a: EState, z: EState, x: Sym) {
      a.CellOf(x).visible == z.CellOf(x).visible
    }

    ghost predicate Awaiting(a: EState, x: Sym) {
      w.cfg.RoleOf(x).Member? && w.cfg.RoleOf(x).choice !in a.valid
    }

    ghost predicate Frame(a: EState, z: EState) {
      && a.valid <= z.valid
      && (forall x :: rank(x) >= b ==> SameAbove(a, z, x))
      && (forall x :: rank(x) >= b ==> Awaiting(a, x) || SameVisible(a, z, x))
    }

    ghost predicate Kept(a: EState, z: EState) {
      Good(z) && Frame(a, z)
    }

    /** The same, but the cell of `s` itself may change, and the visibility of
        its members when it is a choice. */
    ghost predicate FrameBut(a: EState, z: EState, s: Sym) {
      && a.valid <= z.valid && (s in a.valid <==> s in z.valid)
      && (forall x :: rank(x) >= b && x != s ==> SameAbove(a, z, x))
      && (forall x :: rank(x) >= b && x != s ==> Awaiting(a, x) || w.cfg.RoleOf(x) == Member(s) || SameVisible(a, z, x))
    }

    // ----- steps -----

    lemma KeptRefl(a: EState)
      requires Good(a)
      ensures Kept(a, a)
    {
    }

    lemma KeptTrans(a: EState, m: EState, z: EState)
      requires Kept(a, m) && Kept(m, z)
      ensures Kept(a, z)
    {
      forall x | rank(x) >= b
        ensures SameAbove(a, z, x) && (Awaiting(a, x) || SameVisible(a, z, x))
      {
        assert SameAbove(a, m, x) && SameAbove(m, z, x);
      }
    }

    lemma ReadLater(a: EState, z: EState, ss: set<Sym>)
      requires Kept(a, z) && ReadAll(a, ss)
      ensures ReadAll(z, ss)
    {
    }

    lemma ValidLater(a: EState, z: EState, ss: set<Sym>)
      requires Kept(a, z) && a.AllValid(ss)
      ensures z.AllValid(ss)
    {
    }

    lemma SettledAt(a: EState, s: Sym)
      requires Good(a) && a.IsValid(s) && s !in act
      ensures a.Curr(s) == u(s)
    {
    }

    lemma ReadableInactive(a: EState, t: Sym)
      requires Good(a) && Readable(a, t)
      ensures t !in act
    {
    }

    /** The members' visibility is still right from another point of view, in which
        no further choice is done. */
    lemma ShownOn(a: EState, that: Ctx, z: EState)
      requires MembersShown(a) && that.w == w && that.base == base
      requires forall c :: c in z.valid && c !in that.act && c !in that.asking ==>
          Found(c) ==> c in a.valid && c !in act && c !in asking
      requires forall m :: z.CellOf(m).visible == a.CellOf(m).visible
      ensures that.MembersShown(z)
    {
      hide World.VisibleOf, World.PlainVal, Config.RoleOf;
      forall m: Sym
        ensures that.MemberShownAt(z, m)
      {
        assert MemberShownAt(a, m);
      }
    }

    /** s in progress, and everything below it open. */
    function Enter(s: Sym): Ctx {
      this.(act := act + {s}, b := rank(s))
    }

    lemma Entering(a: EState, s: Sym)
      requires Good(a) && s.Sym? && s !in a.valid && rank(s) <= b
      ensures Enter(s).Good(a.WithValid(s))
      ensures Enter(s).ReadAll(a.WithValid(s), w.cfg.Refs(s))
    {
      hide World.WellFormed, DepGraph.Ranks, DepGraph.NoFeedback, Config.Graph, World.Step, Config.Refs, Config.RoleOf;
      hide MembersShown;
      EnteringReads(a, s);
      EnteringSettled(a, s);
      ShownOn(a, Enter(s), a.WithValid(s));
    }

    lemma EnteringSettled(a: EState, s: Sym)
      requires Settled(a) && UserKept(a) && ActiveAbove(a) && ModulesKnown(a)
      requires s.Sym? && s !in a.valid && rank(s) <= b
      ensures var c, z := Enter(s), a.WithValid(s);
              c.Settled(z) && c.UserKept(z) && c.ActiveAbove(z) && c.ModulesKnown(z)
    {
    }

    lemma EnteringReads(a: EState, s: Sym)
      requires Ready()
      ensures Enter(s).ReadAll(a.WithValid(s), w.cfg.Refs(s))
    {
      hide Config.Refs;
      forall t | t in w.cfg.Refs(s)
        ensures rank(t) < rank(s)
      {
        RefsBelow(s, t);
      }
    }

    lemma RefsBelow(s: Sym, t: Sym)
      requires Ready() && t in w.cfg.Refs(s)
      ensures rank(t) < rank(s)
    {
      assert t in w.cfg.Graph().refs(s);
    }

    /** The visibility of `s` may be written: it is in progress where the run has
        arrived, or a member whose choice is looking at it. */
    predicate Writable(a: EState, s: Sym) {
      || (s in act && rank(s) == b)
      || (w.cfg.RoleOf(s).Member? && w.cfg.RoleOf(s).choice in asking && rank(s) >= b &&
          (s in act || s !in a.valid || !s.IsLogical()))
    }

    /** Writing the cell of a symbol in progress, or of a symbol that is not up
        to date, keeps the cache right. */
    lemma Writing(a: EState, s: Sym, cell: Cell)
      requires Good(a) && s.Sym? && rank(s) >= b
      requires s in act || s !in a.valid || (!s.IsLogical() && cell.curr == a.CellOf(s).curr)
      requires w.cfg.RoleOf(s).Member? ==> cell.dir == cell.rev == cell.imp == NO
      requires RightView(a, s, cell.visible)
      ensures Good(a.WithCell(s, cell)) && FrameBut(a, a.WithCell(s, cell), s)
    {
      hide World.WellFormed, DepGraph.Ranks, DepGraph.NoFeedback, Config.Graph, World.Step, Config.Refs, MembersShown;
      WritingShown(a, s, cell);
    }

    /** This visibility may be written for s: the one it has, or the right one, or
        any as long as its choice is looking. */
    ghost predicate RightView(a: EState, s: Sym, visible: Tristate) {
      w.cfg.RoleOf(s).Member? ==>
        visible == a.CellOf(s).visible || w.cfg.RoleOf(s).choice in asking || visible == w.VisibleOf(base, s)
    }

    lemma WritingShown(a: EState, s: Sym, cell: Cell)
      requires MembersShown(a) && RightView(a, s, cell.visible)
      ensures MembersShown(a.WithCell(s, cell))
    {
      hide World.VisibleOf, Found, Config.RoleOf;
      forall m: Sym
        ensures MemberShownAt(a.WithCell(s, cell), m)
      {
        assert MemberShownAt(a, m);
      }
    }

    lemma FrameButTrans(a: EState, m: EState, z: EState, s: Sym)
      requires FrameBut(a, m, s) && FrameBut(m, z, s)
      ensures FrameBut(a, z, s)
    {
      forall x | rank(x) >= b && x != s
        ensures SameAbove(a, z, x) && (Awaiting(a, x) || w.cfg.RoleOf(x) == Member(s) || SameVisible(a, z, x))
      {
        assert SameAbove(a, m, x) && SameAbove(m, z, x);
      }
    }

    /** A step that keeps everything keeps all but `s`. */
    lemma FrameToBut(a: EState, z: EState, s: Sym)
      requires Frame(a, z) && rank(s) >= b
      ensures FrameBut(a, z, s)
      ensures SameAbove(a, z, s) && (Awaiting(a, s) || SameVisible(a, z, s))
    {
      assert SameAbove(a, z, s);
    }

    /** `s` is done: it leaves the symbols in progress with its right value. */
    function Without(s: Sym): Ctx {
      this.(act := act - {s})
    }

    lemma Leaving(a: EState, s: Sym, z: EState)
      requires Good(a) && s.Sym? && s !in a.valid && rank(s) < b
      requires Enter(s).Without(s).Good(z) && Enter(s).FrameBut(a.WithValid(s), z, s) && z.Curr(s) == u(s)
      ensures Kept(a, z) && s in z.valid && s !in act
    {
      hide World.WellFormed, DepGraph.Ranks, DepGraph.NoFeedback, Config.Graph, World.Step, Config.Refs;
      hide MembersShown;
      assert Enter(s).Without(s).act == act;
      LeavingFrame(a, s, z);
      Enter(s).Without(s).ShownOn(z, this, z);
    }

    lemma LeavingFrame(a: EState, s: Sym, z: EState)
      requires s.Sym? && s !in a.valid && rank(s) < b
      requires Enter(s).FrameBut(a.WithValid(s), z, s)
      ensures Frame(a, z) && s in z.valid
    {
      forall x | rank(x) >= b
        ensures SameAbove(a, z, x) && (Awaiting(a, x) || SameVisible(a, z, x))
      {
        assert SameAbove(a, a.WithValid(s), x) && Enter(s).SameAbove(a.WithValid(s), z, x);
      }
    }

    /** The cell of a symbol that is not a choice member stays. */
    lemma CellStays(a: EState, z: EState, s: Sym)
      requires Frame(a, z) && rank(s) >= b && !w.cfg.RoleOf(s).Member?
      ensures z.CellOf(s) == a.CellOf(s)
    {
      assert SameAbove(a, z, s);
    }

    /** A choice member's cell stays once its choice is up to date. */
    lemma MemberCellStays(a: EState, z: EState, s: Sym)
      requires Frame(a, z) && rank(s) >= b && w.cfg.RoleOf(s).Member? && w.cfg.RoleOf(s).choice in a.valid
      ensures z.CellOf(s) == a.CellOf(s)
    {
      assert SameAbove(a, z, s);
    }

    /** Evaluating lower symbols and then writing one field of the cell of `s`. */
    lemma CalcThenWrite(a: EState, m: EState, m': EState, s: Sym, cell: Cell)
      requires FrameBut(a, m, s) && Kept(m, m') && s.Sym? && Writable(m, s) && cell.curr == m'.CellOf(s).curr
      requires w.cfg.RoleOf(s).Member? ==> cell.dir == cell.rev == cell.imp == NO
      requires RightView(m', s, cell.visible)
      ensures Good(m'.WithCell(s, cell)) && FrameBut(a, m'.WithCell(s, cell), s)
      ensures m'.CellOf(s).curr == m.CellOf(s).curr
    {
      hide Good, World.WellFormed, DepGraph.Ranks, DepGraph.NoFeedback, Config.Graph, World.Step, Config.Refs;
      hide SameVisible, SameAbove, RightView;
      FrameToBut(m, m', s);
      CurrStays(m, m', s);
      Writing(m', s, cell);
      FrameButTrans(a, m, m', s);
      FrameButTrans(a, m', m'.WithCell(s, cell), s);
    }

    lemma CurrStays(a: EState, z: EState, s: Sym)
      requires Frame(a, z) && rank(s) >= b
      ensures z.CellOf(s).curr == a.CellOf(s).curr && z.CellOf(s).dir == a.CellOf(s).dir
      ensures z.CellOf(s).rev == a.CellOf(s).rev && z.CellOf(s).imp == a.CellOf(s).imp
    {
      assert SameAbove(a, z, s);
    }

    lemma MemberZero(a: EState, s: Sym)
      requires Good(a) && w.cfg.RoleOf(s).Member?
      ensures a.CellOf(s).dir == a.CellOf(s).rev == a.CellOf(s).imp == NO
    {
    }

    /** The visibility and, for symbols outside of choices, the dependencies in
        the cell of `s` are what they should be. */
    ghost predicate Viewed(z: EState, s: Sym) {
      && z.CellOf(s).visible == w.VisibleOf(u, s)
      && z.CellOf(s).dir == w.DirOf(u, s) && z.CellOf(s).rev == w.RevOf(u, s) && z.CellOf(s).imp == w.ImpliedOf(u, s)
      && (w.cfg.RoleOf(s).Member? ==> z.IsValid(w.cfg.RoleOf(s).choice))
    }

    lemma ViewedStays(a: EState, z: EState, s: Sym)
      requires Kept(a, z) && rank(s) >= b && Viewed(a, s) && (w.cfg.RoleOf(s).Member? ==> w.cfg.RoleOf(s).choice.Sym?)
      ensures Viewed(z, s) && z.CellOf(s) == a.CellOf(s)
    {
      if w.cfg.RoleOf(s).Member? {
        MemberCellStays(a, z, s);
      } else {
        CellStays(a, z, s);
      }
    }

    lemma PropReads(a: EState, s: Sym, p: Prop)
      requires Good(a) && ReadAll(a, w.cfg.Refs(s)) && p in w.cfg.InfoOf(s).props
      ensures p.hasText || p.kind.DefaultProp? ==> ReadAll(a, SymsOpt(p.visible))
      ensures p.kind.DefaultProp? && !w.cfg.RoleOf(s).Choice? ==> ReadAll(a, SymsOpt(p.value))
    {
      hide Config.Refs, Settled, UserKept, ActiveAbove, ModulesKnown, MembersZero, World.SolvesBelow;
      w.PropsInRefs(s);
      assert w.cfg.PropRefs(s, p) <= w.cfg.Refs(s);
    }

    /** After a prompt condition of a choice member its choice is up to date. */
    lemma PromptSeen(a: EState, z: EState, s: Sym, p: Prop)
      requires Good(a) && ReadAll(a, w.cfg.Refs(s)) && p in w.cfg.InfoOf(s).props && p.hasText
      requires Kept(a, z) && z.AllValid(SymsOpt(p.visible)) && w.cfg.RoleOf(s).Member?
      ensures z.IsValid(w.cfg.RoleOf(s).choice) && z.Curr(w.cfg.RoleOf(s).choice) == u(w.cfg.RoleOf(s).choice)
    {
      hide Config.Refs;
      var c := w.cfg.RoleOf(s).choice;
      PropReads(a, s, p);
      assert w.MentionsChoice(s);
      assert c in SymsOpt(p.visible);
      ReadableInactive(a, c);
      SettledAt(z, c);
    }

    lemma KeptGood(a: EState, z: EState)
      requires Kept(a, z)
      ensures Good(z)
    {
    }

    lemma MemberHasPrompt(a: EState, s: Sym)
      requires Good(a) && w.cfg.RoleOf(s).Member?
      ensures exists i :: 0 <= i < |w.cfg.InfoOf(s).props| && w.cfg.InfoOf(s).props[i].hasText
    {
      assert w.MentionsChoice(s);
      var p :| p in w.cfg.InfoOf(s).props && p.hasText;
    }

    lemma FrameButRefl(a: EState, s: Sym)
      ensures FrameBut(a, a, s)
    {
    }

    lemma ModulesValue(a: EState)
      requires Good(a)
      ensures a.modulesVal == w.modulesVal
    {
    }

    /** After the prompts, the visibility is written. */
    lemma VisibleWritten(a: EState, m: EState, s: Sym, cell: Cell)
      requires Good(a) && ReadAll(a, w.cfg.Refs(s)) && s.Sym? && Writable(a, s) && Kept(a, m)
      requires cell == m.CellOf(s).(visible := w.VisibleOf(u, s))
      ensures var z := m.WithCell(s, cell);
              Good(z) && FrameBut(a, z, s) && z.CellOf(s).curr == a.CellOf(s).curr &&
              Writable(z, s) && ReadAll(z, w.cfg.Refs(s)) &&
              (w.cfg.RoleOf(s).Member? && m.IsValid(w.cfg.RoleOf(s).choice) ==> Viewed(z, s))
    {
      hide Good, Frame, SameVisible, SameAbove, Kept, World.VisibleOf, Config.Refs;
      FrameButRefl(a, s);
      KeptGood(a, m);
      if w.cfg.RoleOf(s).Member? {
        MemberZero(m, s);
        ViewWritten(a, m, s);
      }
      CalcThenWrite(a, a, m, s, cell);
      ReadLater(a, m, w.cfg.Refs(s));
    }

    lemma ViewWritten(a: EState, m: EState, s: Sym)
      requires Good(m) && Writable(a, s)
      ensures RightView(m, s, w.VisibleOf(u, s))
    {
      hide World.VisibleOf, World.WellFormed, DepGraph.Ranks, DepGraph.NoFeedback, World.SolvesBelow;
      if rank(s) == b {
        ViewedBase(s);
      }
    }

    lemma ReadParts(a: EState, all: set<Sym>, part: set<Sym>)
      requires ReadAll(a, all) && part <= all
      ensures ReadAll(a, part)
    {
    }

    /** The visibility of `s` is known and its references can be read. */
    ghost predicate ViewStart(a: EState, s: Sym) {
      Good(a) && ReadAll(a, w.cfg.Refs(s)) && Writable(a, s) && a.CellOf(s).visible == w.VisibleOf(u, s)
    }

    lemma CellKept(a: EState, z: EState, s: Sym)
      requires ViewStart(a, s) && Kept(a, z) && !w.cfg.RoleOf(s).Member?
      ensures z.CellOf(s) == a.CellOf(s) && z.modulesVal == w.modulesVal
    {
      hide World.VisibleOf;
      CellStays(a, z, s);
    }

    /** One of dir_dep, rev_dep and implied has been evaluated and written. */
    lemma DependencyWritten(a: EState, z: EState, m: EState, s: Sym, cell: Cell)
      requires ViewStart(z, s) && FrameBut(a, z, s) && Kept(z, m)
      requires s.Sym? && !w.cfg.RoleOf(s).Member? && cell.curr == m.CellOf(s).curr
      requires cell.visible == m.CellOf(s).visible
      ensures var z' := m.WithCell(s, cell);
              ViewStart(z', s) && FrameBut(a, z', s) && m.CellOf(s) == z.CellOf(s) && z'.CellOf(s) == cell
    {
      hide Good, Frame, FrameBut, Config.Refs, World.VisibleOf;
      CalcThenWrite(a, z, m, s, cell);
      CellStays(z, m, s);
      ReadLater(z, m, w.cfg.Refs(s));
    }

    /** The three written fields together are what they should be. */
    lemma AllViewed(a: EState, m: EState, m1: EState, m2: EState, z: EState, s: Sym)
      requires ViewStart(a, s) && ViewStart(z, s) && !w.cfg.RoleOf(s).Member?
      requires m.CellOf(s) == a.CellOf(s)
      requires m1.CellOf(s) ==
          m.CellOf(s).(dir := w.Round(s, w.VisibleOf(u, s), w.OrAbsent(u, w.cfg.InfoOf(s).dirDep, YES)))
      requires m2.CellOf(s) ==
          m1.CellOf(s).(rev := w.Round(s, w.VisibleOf(u, s), w.OrAbsent(u, w.cfg.InfoOf(s).revDep, NO)))
      requires z.CellOf(s) ==
          m2.CellOf(s).(imp := w.Round(s, w.VisibleOf(u, s), w.OrAbsent(u, w.cfg.InfoOf(s).implied, NO)))
      ensures Good(z) && Viewed(z, s) && z.CellOf(s).curr == a.CellOf(s).curr
    {
      hide Good, World.VisibleOf, Config.Refs, World.Round;
    }

    /** The value of `s`, which is in progress, is about to be worked out. */
    ghost predicate Looking(a: EState, s: Sym) {
      && Good(a) && ReadAll(a, w.cfg.Refs(s)) && Viewed(a, s) && s in act
      && (w.cfg.RoleOf(s).Member? ==> w.cfg.RoleOf(s).choice.Sym? && w.cfg.RoleOf(s).choice !in act)
    }

    lemma LookingLater(a: EState, z: EState, s: Sym)
      requires Looking(a, s) && Kept(a, z)
      ensures Looking(z, s) && z.CellOf(s) == a.CellOf(s) && Viewed(z, s) && z.modulesVal == w.modulesVal
    {
      hide Viewed, Readable;
      assert rank(s) >= b;
      ViewedStays(a, z, s);
      ReadLater(a, z, w.cfg.Refs(s));
    }

    lemma LookingAt(a: EState, s: Sym)
      requires Looking(a, s)
      ensures Kept(a, a) && Viewed(a, s) && a.modulesVal == w.modulesVal && Good(a) && ReadAll(a, w.cfg.Refs(s))
      ensures (s in a.hasUser <==> s in w.hasUser) && a.user == w.user
      ensures w.cfg.RoleOf(s).Member? ==> a.Curr(w.cfg.RoleOf(s).choice) == u(w.cfg.RoleOf(s).choice)
    {
      hide Readable, World.SolvesBelow, World.VisibleOf;
      if w.cfg.RoleOf(s).Member? {
        SettledAt(a, w.cfg.RoleOf(s).choice);
      }
    }

    // ----- choices -----

    /** The point of view of a choice at y that looks for its member. */
    function AtYes(c: Sym): Ctx {
      this.(u := w.AtYes(u, c), act := act - {c})
    }

    /** The choice c has not decided yet whether to keep the user's value. */
    function Ask(c: Sym): Ctx {
      this.(asking := asking + {c})
    }

    ghost predicate MembersSeen(z: EState, c: Sym, n: nat)
      requires w.cfg.RoleOf(c).Choice? && n <= |w.cfg.RoleOf(c).members|
    {
      forall j :: 0 <= j < n ==>
          z.CellOf(w.cfg.RoleOf(c).members[j]).visible == w.VisibleOf(u, w.cfg.RoleOf(c).members[j])
    }

    /** The choice is up to date and the conditions of its members can be read. */
    ghost predicate ChoiceOpen(a: EState, c: Sym) {
      && Good(a) && w.cfg.RoleOf(c).Choice? && c in a.valid && rank(c) >= b && Facing(c)
      && ReadAll(a, w.cfg.Refs(c))
      && (forall m :: m in w.cfg.RoleOf(c).members ==>
          ReadAll(a, w.cfg.Refs(m)) && rank(m) >= b && m != c && m.Sym? && w.cfg.RoleOf(m) == Member(c))
    }

    /** Since `a`, only lower symbols and the visibility of the members moved. */
    ghost predicate MembersOnly(a: EState, z: EState, c: Sym) {
      ChoiceOpen(z, c) && FrameBut(a, z, c) && z.CellOf(c) == a.CellOf(c)
    }

    lemma MembersOnlyRefl(a: EState, c: Sym)
      requires ChoiceOpen(a, c)
      ensures MembersOnly(a, a, c)
    {
      hide ChoiceOpen;
      FrameButRefl(a, c);
    }

    /** One member's visibility has been calculated. */
    lemma MemberViewed(a: EState, m: EState, z: EState, c: Sym, i: nat)
      requires MembersOnly(a, m, c) && i < |w.cfg.RoleOf(c).members| && MembersSeen(m, c, i)
      requires var x := w.cfg.RoleOf(c).members[i];
               Good(z) && FrameBut(m, z, x) && Viewed(z, x) && z.CellOf(x).curr == m.CellOf(x).curr
      ensures MembersOnly(a, z, c) && MembersSeen(z, c, i + 1)
    {
      hide Good, Viewed, Readable, World.VisibleOf, Config.Refs;
      var x := w.cfg.RoleOf(c).members[i];
      MemberViewedFrame(a, m, z, c, x);
    }

    lemma ReadMore(a: EState, z: EState, ss: set<Sym>)
      requires ReadAll(a, ss) && a.valid <= z.valid
      ensures ReadAll(z, ss)
    {
    }

    /** A choice member is not a choice itself. */
    lemma MemberIsNoChoice(x: Sym, y: Sym)
      requires Ready() && w.cfg.RoleOf(x).Member?
      ensures w.cfg.RoleOf(y) != Member(x)
    {
      if w.cfg.RoleOf(y) == Member(x) {
        assert w.cfg.Graph().MemberOf(y, x);
      }
    }

    lemma MemberSame(m: EState, z: EState, c: Sym, x: Sym)
      requires ChoiceOpen(m, c) && x in w.cfg.RoleOf(c).members
      requires Good(z) && FrameBut(m, z, x) && z.CellOf(x).curr == m.CellOf(x).curr
      ensures SameAbove(m, z, x) && SameAbove(m, z, c) && SameVisible(m, z, c) && rank(x) >= b && x != c
      ensures forall y :: rank(y) >= b && y != x ==> Awaiting(m, y) || SameVisible(m, z, y)
      ensures forall y :: y in w.cfg.RoleOf(c).members && y != x ==> SameVisible(m, z, y)
    {
      hide Readable, World.SolvesBelow, Ready, Settled, UserKept, ActiveAbove, ModulesKnown, ReadAll;
      MemberZero(m, x);
      MemberZero(z, x);
      assert w.cfg.RoleOf(x) == Member(c);
      forall y: Sym
        ensures w.cfg.RoleOf(y) != Member(x)
      {
        MemberIsNoChoice(x, y);
      }
    }

    lemma StillOpen(m: EState, z: EState, c: Sym)
      requires ChoiceOpen(m, c) && Good(z) && m.valid <= z.valid
      ensures ChoiceOpen(z, c)
    {
      hide Readable, Good;
      ReadMore(m, z, w.cfg.Refs(c));
      forall x | x in w.cfg.RoleOf(c).members
        ensures ReadAll(z, w.cfg.Refs(x))
      {
        ReadMore(m, z, w.cfg.Refs(x));
      }
    }

    lemma MemberViewedFrame(a: EState, m: EState, z: EState, c: Sym, x: Sym)
      requires MembersOnly(a, m, c) && x in w.cfg.RoleOf(c).members
      requires Good(z) && FrameBut(m, z, x) && Viewed(z, x) && z.CellOf(x).curr == m.CellOf(x).curr
      ensures MembersOnly(a, z, c)
      ensures z.CellOf(x).visible == w.VisibleOf(u, x)
      ensures forall y :: y in w.cfg.RoleOf(c).members && y != x ==> z.CellOf(y).visible == m.CellOf(y).visible
    {
      hide Good, Readable, ReadAll;
      StillOpen(m, z, c);
      MemberSame(m, z, c, x);
      assert w.cfg.RoleOf(x) == Member(c);
      forall y | rank(y) >= b && y != c
        ensures SameAbove(a, z, y) && (Awaiting(a, y) || w.cfg.RoleOf(y) == Member(c) || SameVisible(a, z, y))
      {
        assert SameAbove(a, m, y) && SameAbove(m, z, y);
        if y != x && !Awaiting(a, y) && w.cfg.RoleOf(y) != Member(c) {
          assert SameVisible(a, m, y) && !Awaiting(m, y);
        }
      }
    }

    // ----- one evaluation from start to end -----

    lemma ChoiceBelow(s: Sym)
      requires Ready() && w.cfg.RoleOf(s).Member?
      ensures rank(w.cfg.RoleOf(s).choice) < rank(s) && w.cfg.RoleOf(s).choice.Sym?
    {
      assert w.cfg.Graph().MemberOf(s, w.cfg.RoleOf(s).choice);
    }

    /** The cell of `s` is rewritten, its dependencies and visibility untouched. */
    lemma CurrWritten(a: EState, z: EState, s: Sym, val: Val)
      requires Good(z) && FrameBut(a, z, s) && Viewed(z, s) && ReadAll(z, w.cfg.Refs(s))
      requires s.Sym? && s in act && rank(s) == b
      ensures var z' := z.WithCell(s, z.CellOf(s).(curr := val));
              Looking(z', s) && FrameBut(a, z', s) && z'.Curr(s) == val
    {
      hide World.WellFormed, DepGraph.Ranks, DepGraph.NoFeedback, Config.Graph, World.Step, Config.Refs;
      hide World.VisibleOf, Settled, UserKept, ModulesKnown, World.SolvesBelow;
      var cell := z.CellOf(s).(curr := val);
      if w.cfg.RoleOf(s).Member? {
        MemberZero(z, s);
        ChoiceBelow(s);
      }
      Writing(z, s, cell);
      FrameButTrans(a, z, z.WithCell(s, cell), s);
    }

    /** Everything up to MODULES is never m. */
    lemma LowNotMod(s: Sym)
      requires LowBool() && rank(s) <= rank(w.cfg.modules) && s.Sym? && u(s) == w.Step(u, s)
      ensures u(s).tri != MOD
    {
      hide World.VisibleOf, World.WantedTri, World.DirOf, World.RevOf, World.StringVal;
    }

    /** At the place the run has reached, the solution itself gives the same view. */
    lemma ViewedBase(s: Sym)
      requires Ready() && BaseBelow() && rank(s) == b
      ensures w.VisibleOf(u, s) == w.VisibleOf(base, s) && w.DirOf(u, s) == w.DirOf(base, s)
      ensures w.RevOf(u, s) == w.RevOf(base, s)
    {
      hide World.WellFormed, DepGraph.Ranks, DepGraph.NoFeedback, Config.Graph, Config.Refs, World.VisibleOf;
      hide World.DirOf, World.RevOf, World.ImpliedOf;
      w.RanksBelow(u, base, rank, s);
      w.VisibleAgree(u, base, s);
      w.DependenciesAgree(u, base, s);
    }

    lemma PlainBase(s: Sym)
      requires Ready() && BaseBelow() && rank(s) == b && !s.Type().UnknownType?
      ensures w.PlainVal(u, s) == w.PlainVal(base, s)
    {
      hide World.WellFormed, DepGraph.Ranks, DepGraph.NoFeedback, Config.Graph, Config.Refs, World.LogicalTri;
      hide World.StringVal;
      w.RanksBelow(u, base, rank, s);
      if s.IsLogical() {
        w.LogicalAgree(u, base, s);
      } else {
        w.StringAgree(u, base, s);
      }
    }

    /** A choice that would be y looks at its members. */
    ghost predicate Looked(s: Sym) {
      w.cfg.RoleOf(s).Choice? && !s.Type().UnknownType? && w.PlainVal(base, s).tri == YES
    }

    lemma LookedFound(s: Sym)
      requires !Looked(s)
      ensures !Found(s) && !w.Forgets(base, s)
    {
      hide World.PlainVal, World.AllSet;
    }

    lemma FinishedShown(z: EState, s: Sym)
      requires MembersShown(z) && !Looked(s)
      ensures Without(s).MembersShown(z)
    {
      hide MembersShown, Looked;
      LookedFound(s);
      ShownOn(z, Without(s), z);
    }

    lemma FinishedSettled(z: EState, s: Sym)
      requires Good(z) && s.Sym? && s in act && z.Curr(s) == u(s) && rank(s) == b && u(s) == w.Step(u, s)
      requires !w.Forgets(base, s)
      ensures Without(s).Settled(z) && Without(s).UserKept(z) && Without(s).ActiveAbove(z) && Without(s).ModulesKnown(z)
    {
      hide World.WellFormed, DepGraph.Ranks, DepGraph.NoFeedback, Config.Graph, World.Step, Config.Refs, MembersShown;
      hide World.VisibleOf, World.DirOf, World.RevOf, World.ImpliedOf, World.Forgets, World.SolvesBelow;
      hide MembersAfter, Shown, MembersZero;
      if LowBool() && b <= rank(w.cfg.modules) {
        LowNotMod(s);
      }
    }

    lemma FinishedViewed(z: EState, s: Sym)
      requires Good(z) && s.Sym? && s in act && rank(s) == b && (s.IsLogical() ==> Viewed(z, s))
      ensures Without(s).MembersAfter(z) && Without(s).Shown(z)
    {
      hide World.WellFormed, DepGraph.Ranks, DepGraph.NoFeedback, Config.Graph, World.Step, Config.Refs, MembersShown;
      hide World.VisibleOf, World.DirOf, World.RevOf, World.ImpliedOf, World.Forgets, World.SolvesBelow;
      hide Settled, UserKept, ModulesKnown, MembersZero;
      ViewedBase(s);
      if w.cfg.RoleOf(s).Member? {
        ChoiceBelow(s);
      }
    }

    lemma Finished(z: EState, s: Sym)
      requires Good(z) && s.Sym? && s in act && z.Curr(s) == u(s) && rank(s) == b && u(s) == w.Step(u, s)
      requires (s.IsLogical() ==> Viewed(z, s)) && !Looked(s)
      ensures Without(s).Good(z)
    {
      hide World.WellFormed, DepGraph.Ranks, DepGraph.NoFeedback, Config.Graph, World.Step, Config.Refs, Viewed, Looked;
      hide Settled, UserKept, ActiveAbove, ModulesKnown, MembersAfter, Shown, MembersShown, World.SolvesBelow;
      FinishedShown(z, s);
      LookedFound(s);
      FinishedSettled(z, s);
      FinishedViewed(z, s);
    }

    /** This is the view that the choice c, which would be y, has of its members. */
    ghost predicate Facing(c: Sym)
      requires w.cfg.RoleOf(c).Choice?
    {
      && !c.Type().UnknownType? && w.PlainVal(base, c).tri == YES
      && forall m :: m in w.cfg.RoleOf(c).members ==> w.VisibleOf(u, m) == w.VisibleOf(w.AtYes(base, c), m)
    }

    lemma FacingNow(c: Sym)
      requires Ready() && BaseBelow() && rank(c) == b && w.cfg.RoleOf(c).Choice? && !c.Type().UnknownType?
      requires w.PlainVal(u, c).tri == YES
      ensures AtYes(c).Facing(c)
    {
      hide World.WellFormed, DepGraph.Ranks, DepGraph.NoFeedback, Config.Graph, World.VisibleOf, World.PlainVal;
      PlainBase(c);
      forall m | m in w.cfg.RoleOf(c).members
        ensures w.VisibleOf(w.AtYes(u, c), m) == w.VisibleOf(w.AtYes(base, c), m)
      {
        ChoiceClosed();
        w.MembersBelow(u, base, rank, c, m);
        w.VisibleAgree(w.AtYes(u, c), w.AtYes(base, c), m);
      }
    }

    lemma ChoiceClosed()
      requires Ready()
      ensures w.cfg.Graph().Closed()
    {
    }

    /** A choice at y starts to look for its member: the members may be viewed. */
    lemma ChoiceEntered(z: EState, c: Sym)
      requires Looking(z, c) && w.cfg.RoleOf(c).Choice? && rank(c) == b && c.Sym? && z.Curr(c) == Val(YES, "n", None)
      requires !c.Type().UnknownType? && w.PlainVal(u, c).tri == YES
      ensures AtYes(c).Ask(c).ChoiceOpen(z, c)
    {
      hide World.WellFormed, DepGraph.Ranks, DepGraph.NoFeedback, Config.Graph, World.Step, Config.Refs;
      hide World.VisibleOf;
      hide World.PlainVal, Facing, Viewed;
      ChoiceGood(z, c);
      FacingNow(c);
      FacingAsked(c);
      forall m | m in w.cfg.RoleOf(c).members
        ensures AtYes(c).Ask(c).ReadAll(z, w.cfg.Refs(m)) && rank(m) >= b && m != c && m.Sym?
        ensures w.cfg.RoleOf(m) == Member(c)
      {
        MemberBelow(c, m);
      }
    }

    lemma FacingAsked(c: Sym)
      requires w.cfg.RoleOf(c).Choice? && AtYes(c).Facing(c)
      ensures AtYes(c).Ask(c).Facing(c)
    {
    }

    lemma MemberBelow(c: Sym, m: Sym)
      requires Ready() && w.cfg.RoleOf(c).Choice? && m in w.cfg.RoleOf(c).members
      ensures w.cfg.RoleOf(m) == Member(c) && m.Sym? && rank(c) < rank(m)
      ensures forall t :: t in w.cfg.Refs(m) ==> t == c || rank(t) < rank(c)
    {
      hide Config.Refs;
      assert w.cfg.Graph().role(c).Choice? && m in w.cfg.Graph().role(c).members;
      assert w.cfg.Graph().MemberOf(m, c);
      forall t | t in w.cfg.Refs(m)
        ensures t == c || rank(t) < rank(c)
      {
        assert t in w.cfg.Graph().refs(m);
      }
    }

    lemma ChoiceGood(z: EState, c: Sym)
      requires Good(z) && c in act && c.Sym? && rank(c) == b && w.cfg.RoleOf(c).Choice?
      requires z.Curr(c) == Val(YES, "n", None)
      requires Viewed(z, c)
      ensures AtYes(c).Ask(c).Good(z)
    {
      hide World.WellFormed, DepGraph.Ranks, DepGraph.NoFeedback, Config.Graph, World.Step, Config.Refs, World.Forgets;
      hide World.VisibleOf, World.DirOf, World.RevOf, World.ImpliedOf;
      hide MembersShown;
      ShownOn(z, AtYes(c).Ask(c), z);
      ViewedBase(c);
      forall x: Sym | rank(x) < b
        ensures w.AtYes(u, c)(x) == w.Step(w.AtYes(u, c), x)
      {
        w.StepLocal(u, w.AtYes(u, c), rank, x);
      }
    }

    /** The choice leaves with the member it found. */
    lemma ChoiceLeft(a: EState, z: EState, m: EState, c: Sym)
      requires Looking(z, c) && FrameBut(a, z, c) && w.cfg.RoleOf(c).Choice? && rank(c) == b && c.Sym?
      requires AtYes(c).MembersOnly(z, m, c) && u(c) == w.Step(u, c)
      ensures var z' := m.WithCell(c, m.CellOf(c).(curr := u(c)));
              Without(c).Good(z') && FrameBut(a, z', c) && z'.Curr(c) == u(c)
    {
      hide Good, World.Step, Config.Refs, World.VisibleOf, ReadAll, Viewed, Facing;
      var z' := m.WithCell(c, m.CellOf(c).(curr := u(c)));
      ChoiceLeftGood(z, m, c);
      assert FrameBut(z, m, c) && FrameBut(m, z', c);
      FrameButTrans(a, z, m, c);
      FrameButTrans(a, m, z', c);
    }

    lemma LeftShown(m: EState, c: Sym, z: EState)
      requires AtYes(c).MembersShown(m) && z == m.WithCell(c, m.CellOf(c).(curr := u(c)))
      ensures Without(c).MembersShown(z)
    {
      hide MembersShown;
      AtYes(c).ShownOn(m, Without(c), z);
    }

    lemma LeftSettled(a: EState, m: EState, c: Sym, z: EState)
      requires Good(a) && AtYes(c).Good(m) && w.cfg.RoleOf(c).Choice? && rank(c) == b && c.Sym? && c in m.valid
      requires z == m.WithCell(c, m.CellOf(c).(curr := u(c)))
      ensures Without(c).Settled(z) && Without(c).UserKept(z) && Without(c).ActiveAbove(z) && Without(c).ModulesKnown(z)
    {
      hide World.WellFormed, DepGraph.Ranks, DepGraph.NoFeedback, Config.Graph, World.Step, Config.Refs, MembersShown;
      hide World.SolvesBelow, World.Forgets, Shown, MembersAfter, MembersZero;
    }

    lemma LeftViewed(m: EState, c: Sym, z: EState)
      requires AtYes(c).Good(m) && w.cfg.RoleOf(c).Choice? && z == m.WithCell(c, m.CellOf(c).(curr := u(c)))
      ensures Without(c).MembersAfter(z) && Without(c).Shown(z) && Without(c).MembersZero(z)
    {
      hide World.WellFormed, DepGraph.Ranks, DepGraph.NoFeedback, Config.Graph, World.Step, Config.Refs, MembersShown;
      hide World.SolvesBelow, World.VisibleOf, World.DirOf, World.RevOf, Settled, UserKept, ActiveAbove, ModulesKnown;
    }

    lemma ChoiceLeftGood(z: EState, m: EState, c: Sym)
      requires Good(z) && w.cfg.RoleOf(c).Choice? && rank(c) == b && c.Sym?
      requires AtYes(c).Good(m) && c in m.valid
      ensures Without(c).Good(m.WithCell(c, m.CellOf(c).(curr := u(c))))
    {
      hide Settled, UserKept, ActiveAbove, ModulesKnown, MembersAfter, Shown, MembersZero, MembersShown;
      hide World.SolvesBelow, World.WellFormed, DepGraph.Ranks, DepGraph.NoFeedback, Config.Graph;
      var z' := m.WithCell(c, m.CellOf(c).(curr := u(c)));
      LeftShown(m, c, z');
      LeftSettled(z, m, c, z');
      LeftViewed(m, c, z');
    }

    /** The first n members are set by the user if they are visible. */
    ghost predicate SetUpTo(c: Sym, n: nat)
      requires w.cfg.RoleOf(c).Choice? && n <= |w.cfg.RoleOf(c).members|
    {
      forall j :: 0 <= j < n && w.VisibleOf(u, w.cfg.RoleOf(c).members[j]) != NO ==>
          w.cfg.RoleOf(c).members[j] in w.hasUser
    }

    lemma SetUpToAll(c: Sym)
      requires w.cfg.RoleOf(c).Choice? && Facing(c)
      ensures SetUpTo(c, |w.cfg.RoleOf(c).members|) <==> !w.Forgets(base, c)
    {
      hide World.VisibleOf, World.PlainVal;
      var members := w.cfg.RoleOf(c).members;
      if SetUpTo(c, |members|) {
        forall m | m in members && w.VisibleOf(w.AtYes(base, c), m) != NO
          ensures m in w.hasUser
        {
          var j :| 0 <= j < |members| && members[j] == m;
        }
      } else {
        var j :| 0 <= j < |members| && w.VisibleOf(u, members[j]) != NO && members[j] !in w.hasUser;
        assert members[j] in members;
      }
    }

    /** A choice has decided: it forgets the user's value when a visible member
        has none of its own. */
    lemma UserForgotten(a: EState, z: EState, c: Sym, has: set<Sym>)
      requires Ask(c).MembersOnly(a, z, c) && c !in act && c !in asking
      requires has == if SetUpTo(c, |w.cfg.RoleOf(c).members|) then z.hasUser else z.hasUser - {c}
      requires MembersSeen(z, c, |w.cfg.RoleOf(c).members|)
      ensures MembersOnly(a, z.(hasUser := has), c)
    {
      hide Good, Config.Refs, ReadAll, Facing, SetUpTo, MembersSeen;
      FacingAnswered(c);
      SetUpToAll(c);
      SeenShown(z, c, has);
      GoodForgets(z, c, has);
      ReadForgets(c, z, has);
    }

    lemma FacingAnswered(c: Sym)
      requires w.cfg.RoleOf(c).Choice? && Ask(c).Facing(c)
      ensures Facing(c)
    {
    }

    /** The choice has seen its members, and they show it. */
    lemma SeenShown(z: EState, c: Sym, has: set<Sym>)
      requires Ask(c).ChoiceOpen(z, c) && Facing(c) && MembersSeen(z, c, |w.cfg.RoleOf(c).members|)
      ensures MembersShown(z.(hasUser := has))
    {
      hide World.VisibleOf, World.PlainVal, World.WellFormed, Config.Refs, ReadAll;
      forall m: Sym
        ensures MemberShownAt(z.(hasUser := has), m)
      {
        assert Ask(c).MemberShownAt(z, m);
        if w.cfg.RoleOf(m) == Member(c) && Found(c) {
          MemberListed(m, c);
          var j :| 0 <= j < |w.cfg.RoleOf(c).members| && w.cfg.RoleOf(c).members[j] == m;
          AtYesLooks(w, base, c, m);
        }
      }
    }

    lemma MemberListed(m: Sym, c: Sym)
      requires Ready() && w.cfg.RoleOf(m) == Member(c)
      ensures w.cfg.RoleOf(c).Choice? && m in w.cfg.RoleOf(c).members
    {
      assert w.cfg.Graph().MemberOf(m, c);
    }

    lemma GoodForgets(z: EState, c: Sym, has: set<Sym>)
      requires Ask(c).Good(z) && c in z.valid && c !in act && c !in asking
      requires has == if w.Forgets(base, c) then z.hasUser - {c} else z.hasUser
      requires MembersShown(z.(hasUser := has))
      ensures Good(z.(hasUser := has))
    {
      hide MembersShown;
      hide World.WellFormed, DepGraph.Ranks, DepGraph.NoFeedback, Config.Graph, World.VisibleOf, World.DirOf;
      hide World.RevOf, World.SolvesBelow, World.Forgets, World.Step;
    }

    lemma ReadForgets(c: Sym, z: EState, has: set<Sym>)
      ensures forall ss :: Ask(c).ReadAll(z, ss) ==> ReadAll(z.(hasUser := has), ss)
    {
    }

    /** Lower evaluations leave an open choice and its viewed members as they are. */
    lemma MembersStay(a: EState, z: EState, c: Sym)
      requires ChoiceOpen(a, c) && MembersSeen(a, c, |w.cfg.RoleOf(c).members|) && Kept(a, z)
      ensures MembersOnly(a, z, c) && MembersSeen(z, c, |w.cfg.RoleOf(c).members|)
    {
      hide Good, Readable, World.VisibleOf, Config.Refs;
      KeptGood(a, z);
      StillOpen(a, z, c);
      FrameToBut(a, z, c);
      var members := w.cfg.RoleOf(c).members;
      forall j | 0 <= j < |members|
        ensures SameVisible(a, z, members[j])
      {
        assert members[j] in members;
        assert SameAbove(a, z, members[j]) && !Awaiting(a, members[j]);
      }
    }

    lemma MembersOnlyTrans(a: EState, m: EState, z: EState, c: Sym)
      requires MembersOnly(a, m, c) && MembersOnly(m, z, c)
      ensures MembersOnly(a, z, c)
    {
      hide ChoiceOpen, SameAbove, SameVisible, FrameBut;
      FrameButTrans(a, m, z, c);
    }

    /** `s` is in progress at the place the run has reached. */
    ghost predicate Entered(s: Sym) {
      s in act && rank(s) == b && u(s) == w.Step(u, s)
    }

    lemma ReadFramed(a: EState, z: EState, s: Sym)
      requires FrameBut(a, z, s) && ReadAll(a, w.cfg.Refs(s))
      ensures ReadAll(z, w.cfg.Refs(s)) && FrameBut(a, a, s)
    {
    }

    /** The value of `s` has been calculated and is written. */
    lemma ValueWritten(a: EState, m: EState, z: EState, s: Sym, val: Val)
      requires Looking(m, s) && FrameBut(a, m, s) && Kept(m, z) && Entered(s) && s.Sym?
      ensures var z' := z.WithCell(s, z.CellOf(s).(curr := val));
              Looking(z', s) && FrameBut(a, z', s) && z'.Curr(s) == val && z.Curr(s) == m.Curr(s)
    {
      hide Looking, Good, Frame, FrameBut, Viewed, ReadAll, Config.Refs, World.Step;
      LookingLater(m, z, s);
      KeptFramed(m, z, s);
      FrameButTrans(a, m, z, s);
      LookingAt(z, s);
      CurrWritten(a, z, s, val);
    }

    lemma KeptFramed(a: EState, z: EState, s: Sym)
      requires Kept(a, z) && rank(s) >= b
      ensures FrameBut(a, z, s)
    {
      FrameToBut(a, z, s);
    }

    lemma LookingGood(a: EState, s: Sym)
      requires Looking(a, s)
      ensures Good(a) && Viewed(a, s)
    {
    }

    lemma DefaultReads(a: EState, s: Sym, p: Prop, t: Sym)
      requires Good(a) && ReadAll(a, w.cfg.Refs(s)) && p in w.cfg.InfoOf(s).props && p.kind.DefaultProp?
      requires !w.cfg.RoleOf(s).Choice? && PropSymbol(p) == Some(t)
      ensures Readable(a, t)
    {
      hide Config.Refs, Settled, UserKept, ActiveAbove, ModulesKnown, MembersZero, World.SolvesBelow, Readable;
      PropReads(a, s, p);
      assert t in SymsOpt(p.value);
    }

    lemma OpenMember(a: EState, m: EState, c: Sym, i: nat)
      requires MembersOnly(a, m, c) && i < |w.cfg.RoleOf(c).members| && c in asking
      ensures var x := w.cfg.RoleOf(c).members[i];
              Good(m) && ReadAll(m, w.cfg.Refs(x)) && Writable(m, x) && w.cfg.RoleOf(x) == Member(c)
    {
      hide Settled, ActiveAbove, ModulesKnown, Shown, World.SolvesBelow, BaseBelow, MembersZero, Facing, Ready;
      hide Readable, FrameBut;
      assert w.cfg.RoleOf(w.cfg.RoleOf(c).members[i]) == Member(c);
    }

    /** The choice is open and the visibility of all members is calculated. */
    ghost predicate ChoiceViewed(a: EState, c: Sym)
      requires w.cfg.RoleOf(c).Choice?
    {
      ChoiceOpen(a, c) && MembersSeen(a, c, |w.cfg.RoleOf(c).members|)
    }

    lemma ViewedRefl(a: EState, c: Sym)
      requires w.cfg.RoleOf(c).Choice? && ChoiceViewed(a, c)
      ensures MembersOnly(a, a, c)
    {
      hide ChoiceOpen;
    }

    lemma ChoiceReads(a: EState, c: Sym, p: Prop)
      requires w.cfg.RoleOf(c).Choice? && ChoiceViewed(a, c) && p in w.cfg.InfoOf(c).props && p.kind.DefaultProp?
      ensures Good(a) && ReadAll(a, SymsOpt(p.visible))
    {
      hide Readable, Config.Refs, World.VisibleOf, Ready, Settled, UserKept, ActiveAbove, ModulesKnown, MembersZero;
      hide World.SolvesBelow;
      PropReads(a, c, p);
    }

    lemma ViewedLater(a: EState, m: EState, z: EState, c: Sym)
      requires w.cfg.RoleOf(c).Choice? && MembersOnly(a, m, c) && ChoiceViewed(m, c) && Kept(m, z)
      ensures MembersOnly(a, z, c) && ChoiceViewed(z, c)
    {
      hide ChoiceOpen, MembersSeen, Kept, FrameBut;
      MembersStay(m, z, c);
      MembersOnlyTrans(a, m, z, c);
    }

    /** The symbol of a default of a choice is a member, so its visibility is known. */
    lemma DefaultSeen(a: EState, c: Sym, p: Prop)
      requires w.cfg.RoleOf(c).Choice? && ChoiceViewed(a, c) && p in w.cfg.InfoOf(c).props && p.kind.DefaultProp?
      requires PropSymbol(p).Some?
      ensures a.CellOf(PropSymbol(p).value).visible == w.VisibleOf(u, PropSymbol(p).value)
    {
      hide Readable, Config.Refs, World.VisibleOf, Settled, UserKept, ActiveAbove, ModulesKnown, MembersZero;
      hide World.SolvesBelow, DepGraph.Ranks, DepGraph.NoFeedback, ReadAll;
      assert PropSymbol(p).value in w.cfg.RoleOf(c).members;
    }

    lemma PickSeen(a: EState, c: Sym)
      requires w.cfg.RoleOf(c).Choice? && ChoiceViewed(a, c)
      ensures a.user == w.user
      ensures var pick := w.UserOf(c).pick; pick.Some? ==> a.CellOf(pick.value).visible == w.VisibleOf(u, pick.value)
    {
      hide Readable, Config.Refs, World.VisibleOf, Settled, ActiveAbove, ModulesKnown, MembersZero, World.SolvesBelow;
      hide DepGraph.Ranks, DepGraph.NoFeedback, ReadAll;
      var pick := w.UserOf(c).pick;
      if pick.Some? {
        assert pick.value in w.cfg.RoleOf(c).members;
      }
    }

    lemma NowViewed(a: EState, m: EState, z: EState, c: Sym)
      requires w.cfg.RoleOf(c).Choice? && MembersSeen(m, c, |w.cfg.RoleOf(c).members|)
      requires MembersOnly(a, z, c) && z.cells == m.cells
      ensures ChoiceViewed(z, c)
    {
      hide ChoiceOpen, FrameBut;
    }

    // ----- the evaluation of MODULES itself -----

    /** Nothing is in progress, and MODULES is the next symbol to evaluate. */
    ghost predicate Opening(a: EState) {
      var m := w.cfg.modules;
      && Good(a) && act == {} && b == rank(m) && m.Sym? && m !in a.valid && u(m) == w.Step(u, m)
      && a.modulesVal == a.Curr(m).tri && (m.Type().UnknownType? ==> a.modulesVal == NO)
    }

    lemma EnteredNow(a: EState, s: Sym)
      requires Good(a) && s.Sym? && s !in a.valid && rank(s) <= b && (rank(s) < b || u(s) == w.Step(u, s))
      ensures Enter(s).Good(a.WithValid(s)) && Enter(s).ReadAll(a.WithValid(s), w.cfg.Refs(s)) && Enter(s).Entered(s)
    {
      hide World.WellFormed, DepGraph.Ranks, DepGraph.NoFeedback, Config.Graph, World.Step, Config.Refs, Settled;
      hide UserKept, ActiveAbove, ModulesKnown, MembersZero;
      Entering(a, s);
    }

    lemma UntypedDone(a: EState, s: Sym)
      requires Good(a) && Entered(s) && s.Sym? && s.Type().UnknownType?
      ensures u(s) == Val(NO, w.name(s), None)
      ensures var z := a.WithCell(s, a.CellOf(s).(curr := u(s)));
              Without(s).Good(z) && FrameBut(a, z, s) && z.Curr(s) == u(s)
    {
      hide World.WellFormed, DepGraph.Ranks, DepGraph.NoFeedback, Config.Graph, World.PlainVal, Config.Refs, Settled;
      hide UserKept, ActiveAbove, ModulesKnown, World.SolvesBelow;
      var cell := a.CellOf(s).(curr := u(s));
      Writing(a, s, cell);
      Finished(a.WithCell(s, cell), s);
    }

    lemma NotModules(a: EState, s: Sym)
      requires Good(a) && s.Sym? && s !in a.valid && rank(s) < b
      ensures s != w.cfg.modules && s !in a.need && s !in act
    {
    }

    lemma OpeningDone(a: EState, z: EState)
      requires Opening(a) && Enter(w.cfg.modules).Without(w.cfg.modules).Good(z)
      requires z.Curr(w.cfg.modules) == u(w.cfg.modules)
      ensures Good(z)
    {
      assert Enter(w.cfg.modules).Without(w.cfg.modules) == this by {
        assert {w.cfg.modules} - {w.cfg.modules} == {};
      }
    }

    lemma StartNow(a: EState, s: Sym)
      requires (Good(a) && s.Sym? && s !in a.valid && rank(s) < b) || (Opening(a) && s == w.cfg.modules)
      ensures Enter(s).Good(a.WithValid(s)) && Enter(s).ReadAll(a.WithValid(s), w.cfg.Refs(s)) && Enter(s).Entered(s)
    {
      hide Good, World.Step, ReadAll, Config.Refs, Entered;
      EnteredNow(a, s);
    }

    /** What holds after the value of `s` is worked out, but for modules_val. */
    lemma Ended(a: EState, s: Sym, z: EState)
      requires (Good(a) && s.Sym? && s !in a.valid && rank(s) < b) || (Opening(a) && s == w.cfg.modules)
      requires Enter(s).Without(s).Good(z) && Enter(s).FrameBut(a.WithValid(s), z, s) && z.Curr(s) == u(s)
      ensures Good(a) && rank(s) < b ==> Kept(a, z) && s != w.cfg.modules
      ensures s !in z.need && s in z.valid && s !in act && z.modulesVal == w.modulesVal && Good(z)
    {
      hide World.WellFormed, DepGraph.Ranks, DepGraph.NoFeedback, Config.Graph, World.Step, Config.Refs, Settled;
      hide UserKept, ActiveAbove, ModulesKnown, MembersZero;
      if Good(a) && s !in a.valid && rank(s) < b {
        NotModules(a, s);
        Leaving(a, s, z);
      } else {
        OpeningDone(a, z);
      }
    }

    lemma ReadyValue(a: EState, s: Sym)
      requires Good(a) && Readable(a, s)
      ensures s !in act && Kept(a, a) && s !in a.need
      ensures a.IsValid(s) ==> a.Curr(s) == u(s)
      ensures s.Sym? && s !in a.valid ==> rank(s) < b
    {
    }
  }
}
