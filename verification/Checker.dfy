/** The recursive dependency check of symbol.c: a depth-first search with the
    two colours SYMBOL_CHECK and SYMBOL_CHECKED and a stack for the report. */
module Checker {
  import opened Tristates
  import opened Exprs
  import opened Symbols
  import opened Cycles
  import opened Sets

  /** The colours, and a place for every symbol, which counts once its search has ended. */
  datatype Marks = Marks(check: set<Sym>, checked: set<Sym>, place: Sym -> nat, clock: nat) {
    /** The search of this symbol has ended. */
    predicate Done(s: Sym) {
      s in checked && s !in check
    }
  }

  /** The dep_stack entries, linked downwards. */
  datatype Frames = Bottom | Frame(top: Sym, prev: Frames) {
    predicate Has(s: Sym) {
      Frame? && (top == s || prev.Has(s))
    }
  }

  function Override(f: Sym -> nat, ss: set<Sym>, n: nat): Sym -> nat {
    s => if s in ss then n else f(s)
  }

  /** What stays fixed: the dependency graph, recursive_is_error, and for the
      converse an arbitrary candidate order of the symbols. */
  datatype Setting = Setting(graph: DepGraph, recursiveIsError: bool, order: Sym -> nat) {
    /** Where a marked symbol shows on the stack: a choice member by its choice. */
    function Anchor(s: Sym): Sym {
      if graph.role(s).Member? then graph.role(s).choice else s
    }

    ghost predicate Coloured(m: Marks, frames: Frames) {
      && graph.Closed()
      && m.check <= m.checked <= graph.universe
      && (forall s :: s in m.check ==> frames.Has(Anchor(s)))
      && (forall s: Sym, c: Sym :: graph.MemberOf(s, c) ==> (s in m.checked <==> c in m.checked))
    }

    /** Every symbol whose search has ended stands above its dependencies. */
    ghost predicate Placed(m: Marks) {
      && (forall s :: m.Done(s) ==> m.place(s) < m.clock)
      && (forall s, t :: m.Done(s) && t in graph.refs(s) ==> m.Done(t) && m.place(t) < m.place(s))
      && (forall s, c :: m.Done(s) && graph.MemberOf(s, c) ==> m.Done(c) && m.place(c) < m.place(s))
    }

    ghost predicate Extends(a: Marks, b: Marks) {
      a.clock <= b.clock && forall s :: a.Done(s) ==> b.Done(s) && b.place(s) == a.place(s)
    }

    ghost predicate AllDone(m: Marks, ss: set<Sym>) {
      forall s :: s in ss ==> m.Done(s)
    }

    /** The candidate order is a ranking without feedback. */
    ghost predicate Ordered() {
      graph.Ranks(order) && graph.NoFeedback(order)
    }

    /** A search from `s` cannot run into a marked symbol. */
    ghost predicate Clear(m: Marks, s: Sym) {
      m.Done(s) || forall x :: x in m.check ==> order(s) < order(x)
    }

    ghost predicate AllClear(m: Marks, ss: set<Sym>) {
      forall s :: s in ss ==> Clear(m, s)
    }

    /** What a search of the symbols `goal` does: it restores SYMBOL_CHECK; when
        errors are off it can only report a symbol that is still marked; when
        they are on and it reports nothing, all of `goal` has found its place;
        and it reports nothing when it cannot run into a marked symbol. */
    ghost predicate Searched(a: Marks, b: Marks, r: Option<Sym>, goal: set<Sym>) {
      && b.check == a.check && a.checked <= b.checked
      && (!recursiveIsError && r.Some? ==> r.value in a.check)
      && (recursiveIsError && r.None? && Placed(a) ==> Placed(b) && Extends(a, b) && AllDone(b, goal))
      && (Ordered() && AllClear(a, goal) ==> r.None?)
    }

    /** The last step of sym_check_deps: with errors off a symbol's own report
        ends with it. */
    function Report(r: Option<Sym>, s: Sym): Option<Sym> {
      if !recursiveIsError && r == Some(s) then None else r
    }

    /** A report of one of its members counts as a report of the choice. */
    function OfChoice(r: Option<Sym>, c: Sym): Option<Sym> {
      if r.Some? && graph.role(r.value) == Member(c) then Some(c) else r
    }

    lemma Pushed(m: Marks, frames: Frames, s: Sym)
      requires Coloured(m, frames)
      ensures Coloured(m, Frame(s, frames))
    {
    }

    lemma Inside(m: Marks, frames: Frames, s: Sym)
      requires Coloured(m, frames)
      ensures graph.refs(s) <= graph.universe
      ensures graph.role(s).Choice? ==> forall i :: 0 <= i < |graph.role(s).members| ==>
          graph.role(s).members[i] in graph.universe
    {
    }

    /** A choice that has not been searched, with its members. */
    lemma Group(m: Marks, frames: Frames, c: Sym, ms: set<Sym>)
      requires Coloured(m, frames) && graph.role(c).Choice? && ms == (set m | m in graph.role(c).members)
      requires c !in m.checked
      ensures NewGroup(m, c, ms) && ms <= graph.universe
      ensures forall s :: s in ms <==> graph.role(s) == Member(c)
    {
      forall s | s in ms
        ensures graph.MemberOf(s, c)
      {
      }
      forall s | graph.role(s) == Member(c)
        ensures s in ms
      {
        assert graph.MemberOf(s, c);
      }
    }

    lemma GroupMarked(m: Marks, frames: Frames, c: Sym, ms: set<Sym>)
      requires Coloured(m, frames)
      requires c in graph.universe && graph.role(c).Choice? && ms == (set m | m in graph.role(c).members)
      requires c !in m.checked
      ensures Coloured(Mark(m, ms + {c}), Frame(c, Frame(c, frames)))
    {
      Group(m, frames, c, ms);
      forall s, d | graph.MemberOf(s, d)
        ensures s in Mark(m, ms + {c}).checked <==> d in Mark(m, ms + {c}).checked
      {
        assert d != s && graph.role(d).Choice?;
      }
    }

    lemma PlainMarked(m: Marks, frames: Frames, s: Sym)
      requires Coloured(m, frames) && s in graph.universe && graph.role(s).Plain?
      ensures Coloured(Mark(m, {s}), Frame(s, frames))
    {
      forall t, d | graph.MemberOf(t, d)
        ensures t in Mark(m, {s}).checked <==> d in Mark(m, {s}).checked
      {
      }
    }

    /** Only symbols that were marked before are marked again. */
    lemma Unmarked(a: Marks, frames: Frames, b: Marks, frames': Frames, c: Marks)
      requires Coloured(a, frames) && Coloured(b, frames') && c.check == a.check && c.checked == b.checked
      requires c.check <= b.check
      ensures Coloured(c, frames)
    {
    }

    lemma ChoiceUnmarked(a: Marks, frames: Frames, b: Marks, frames': Frames, d: Marks, r: Option<Sym>, c: Sym,
        ms: set<Sym>)
      requires Coloured(a, frames) && Coloured(b, frames') && d == Finish(b, {c}) && ChoiceStage(a, d, r, c, ms)
      requires forall s :: s in ms ==> graph.role(s) == Member(c)
      ensures Coloured(d, Frame(c, frames))
    {
    }

    lemma Nested(m: Marks, frames: Frames)
      requires Coloured(m, frames)
      ensures m.check <= m.checked <= graph.universe
    {
    }

    lemma SearchedMarks(a: Marks, b: Marks, r: Option<Sym>, goal: set<Sym>)
      requires Searched(a, b, r, goal)
      ensures b.check == a.check && a.checked <= b.checked
    {
    }

    lemma SearchedNothing(a: Marks)
      ensures Searched(a, a, None, {})
    {
    }

    lemma SearchedBoth(a: Marks, b: Marks, c: Marks, r: Option<Sym>, g: set<Sym>, h: set<Sym>)
      requires Searched(a, b, None, g) && Searched(b, c, r, h)
      ensures Searched(a, c, r, g + h)
    {
      if AllClear(a, g + h) {
        assert AllClear(b, h) by {
          forall s | s in h
            ensures Clear(b, s)
          {
            assert Clear(a, s);
          }
        }
      }
    }

    lemma SearchedEarly(a: Marks, b: Marks, r: Option<Sym>, g: set<Sym>, h: set<Sym>)
      requires Searched(a, b, r, g) && r.Some? && g <= h
      ensures Searched(a, b, r, h)
    {
      if AllClear(a, h) {
        assert AllClear(a, g);
      }
    }

    function Mark(m: Marks, ss: set<Sym>): Marks {
      m.(check := m.check + ss, checked := m.checked + ss)
    }

    /** Give the symbols `ss`, all marked and with their dependencies placed, the
        next place, and unmark them. */
    ghost function Finish(m: Marks, ss: set<Sym>): Marks {
      m.(check := m.check - ss, place := Override(m.place, ss, m.clock), clock := m.clock + 1)
    }

    lemma FinishPlaces(m: Marks, ss: set<Sym>)
      requires Placed(m) && ss <= m.check <= m.checked
      requires forall s, t :: s in ss && t in graph.refs(s) ==> m.Done(t)
      requires forall s, c :: s in ss && graph.MemberOf(s, c) ==> m.Done(c)
      ensures Placed(Finish(m, ss)) && Extends(m, Finish(m, ss))
    {
      var n := Finish(m, ss);
      forall s | n.Done(s)
        ensures s in ss || m.Done(s)
      {
      }
      forall s | m.Done(s)
        ensures n.Done(s) && n.place(s) == m.place(s)
      {
      }
      forall s, t | n.Done(s) && t in graph.refs(s)
        ensures n.Done(t) && n.place(t) < n.place(s)
      {
        assert m.Done(t);
      }
    }

    /** Marking symbols that have not been searched keeps the places. */
    lemma MarkKeepsPlaces(m: Marks, ss: set<Sym>)
      requires Placed(m) && ss !! m.checked && m.check <= m.checked
      ensures Placed(Mark(m, ss))
    {
      var n := Mark(m, ss);
      forall s
        ensures n.Done(s) <==> m.Done(s)
      {
      }
    }

    /** A plain symbol: mark, search its dependencies, unmark. */
    lemma SearchedPlain(a: Marks, b: Marks, r: Option<Sym>, s: Sym)
      requires graph.role(s).Plain? && s !in a.checked && a.check <= a.checked
      requires Searched(Mark(a, {s}), b, r, graph.refs(s)) && b.check <= b.checked
      ensures Searched(a, Finish(b, {s}), Report(r, s), {s})
    {
      if recursiveIsError && r.None? && Placed(a) {
        MarkKeepsPlaces(a, {s});
        FinishPlaces(b, {s});
      }
      if Ordered() && AllClear(a, {s}) {
        assert Clear(a, s);
        assert AllClear(Mark(a, {s}), graph.refs(s));
      }
    }

    /** Half way through a choice group: the choice is searched, its members
        are still marked. */
    ghost predicate ChoiceStage(a: Marks, m: Marks, r: Option<Sym>, c: Sym, ms: set<Sym>) {
      && m.check == a.check + ms && a.checked + ms + {c} <= m.checked
      && (!recursiveIsError && r.Some? ==> r.value in a.check + ms + {c})
      && (recursiveIsError && r.None? && Placed(a) ==> Placed(m) && Extends(a, m) && m.Done(c))
      && (Ordered() && Clear(a, c) ==> r.None?)
    }

    ghost predicate NewGroup(a: Marks, c: Sym, ms: set<Sym>) {
      && graph.Closed() && graph.role(c).Choice? && ms == (set m | m in graph.role(c).members)
      && c !in a.checked && ms !! a.checked && a.check <= a.checked && c !in ms
    }

    lemma SearchedChoice(a: Marks, b: Marks, r: Option<Sym>, c: Sym, ms: set<Sym>)
      requires NewGroup(a, c, ms)
      requires Searched(Mark(a, ms + {c}), b, r, graph.refs(c)) && b.check <= b.checked
      ensures ChoiceStage(a, Finish(b, {c}), r, c, ms)
    {
      assert Finish(b, {c}).check == a.check + ms;
      if recursiveIsError && r.None? && Placed(a) {
        MarkKeepsPlaces(a, ms + {c});
        FinishPlaces(b, {c});
      }
      if Ordered() && Clear(a, c) {
        forall t, x | t in graph.refs(c) && x in a.check + ms + {c}
          ensures order(t) < order(x)
        {
          assert x in ms ==> graph.MemberOf(x, c);
        }
      }
    }

    ghost function RefsOf(list: seq<Sym>): set<Sym> {
      set s, t | s in list && t in graph.refs(s) :: t
    }

    /** A symbol whose search has begun or ended. */
    lemma Already(m: Marks, frames: Frames, s: Sym)
      requires Coloured(m, frames)
      ensures s in m.check && (Ordered() ==> !Clear(m, s)) ==> Searched(m, m, Some(s), {s})
      ensures s in m.check ==> !Clear(m, s)
      ensures s in m.checked && s !in m.check ==> Searched(m, m, None, {s})
      ensures m.check <= m.checked <= graph.universe
    {
      if AllClear(m, {s}) {
        assert Clear(m, s);
      }
    }

    lemma MemberChoice(m: Marks, frames: Frames, s: Sym, c: Sym)
      requires Coloured(m, frames) && graph.role(s) == Member(c)
      ensures c in graph.universe && graph.role(c).Choice? && (s in m.checked <==> c in m.checked)
    {
      assert graph.MemberOf(s, c);
    }

    lemma SearchedMember(a: Marks, frames: Frames, b: Marks, frames': Frames, r: Option<Sym>, s: Sym, c: Sym)
      requires Coloured(a, frames) && Coloured(b, frames') && graph.role(s) == Member(c) && s !in a.checked
      requires Searched(a, b, r, {c})
      ensures Coloured(b, frames)
      ensures Searched(a, b, Report(r, s), {s})
    {
      assert graph.MemberOf(s, c);
      if Ordered() && AllClear(a, {s}) {
        assert Clear(a, s) && Clear(a, c);
      }
    }

    lemma Parts(m: Marks, ss: set<Sym>)
      ensures Mark(m, ss).check == m.check + ss && Mark(m, ss).checked == m.checked + ss
      ensures Finish(m, ss).check == m.check - ss && Finish(m, ss).checked == m.checked
    {
    }

    lemma MarkTwice(m: Marks, a: set<Sym>, b: set<Sym>)
      ensures Mark(Mark(m, a), b) == Mark(m, a + b)
    {
      assert m.check + a + b == m.check + (a + b) && m.checked + a + b == m.checked + (a + b);
    }

    lemma GroupBegins(m: Marks, frames: Frames, c: Sym, ms: set<Sym>)
      requires Coloured(m, frames) && c in graph.universe && c !in m.checked
      requires graph.role(c).Choice? && ms == (set m | m in graph.role(c).members)
      ensures var m' := Mark(Mark(m, ms), {c});
              Coloured(m', Frame(c, Frame(c, frames))) && c in m'.checked && m.checked <= m'.checked
    {
      MarkTwice(m, ms, {c});
      GroupMarked(m, frames, c, ms);
    }

    lemma GroupHalfway(m: Marks, frames: Frames, b: Marks, r: Option<Sym>, c: Sym, ms: set<Sym>)
      requires Coloured(m, frames) && c !in m.checked && c in b.checked
      requires graph.role(c).Choice? && ms == (set m | m in graph.role(c).members)
      requires Coloured(b, Frame(c, Frame(c, frames)))
      requires Searched(Mark(Mark(m, ms), {c}), b, r, graph.refs(c))
      ensures ChoiceStage(m, Finish(b, {c}), r, c, ms) && Coloured(Finish(b, {c}), Frame(c, frames))
      ensures m.checked <= b.checked == Finish(b, {c}).checked
    {
      hide Searched, Placed, Extends, Ordered, Clear;
      Group(m, frames, c, ms);
      MarkTwice(m, ms, {c});
      SearchedMarks(Mark(m, ms + {c}), b, r, graph.refs(c));
      SearchedChoice(m, b, r, c, ms);
      ChoiceUnmarked(m, frames, b, Frame(c, Frame(c, frames)), Finish(b, {c}), r, c, ms);
    }

    lemma NothingPlaced(m: Marks)
      requires m.check == {} && m.checked == {}
      ensures Placed(m)
    {
    }

    /** Once every symbol of the table has its place, the places rank the graph. */
    lemma PlacesRank(m: Marks)
      requires graph.Closed() && Placed(m)
      requires forall s: Sym :: graph.InTable(s) ==> m.Done(s)
      ensures graph.Ranks(m.place)
    {
      forall s: Sym, t: Sym | t in graph.refs(s)
        ensures m.place(t) < m.place(s)
      {
        assert m.Done(s);
      }
      forall s: Sym, c: Sym | graph.MemberOf(s, c)
        ensures m.place(c) < m.place(s)
      {
        assert m.Done(s);
      }
    }

    lemma NoRefs()
      ensures RefsOf([]) == {}
    {
    }

    lemma SearchedOneMore(a: Marks, b: Marks, c: Marks, r: Option<Sym>, list: seq<Sym>, i: nat)
      requires i < |list|
      requires Searched(a, b, None, RefsOf(list[..i])) && Searched(b, c, r, graph.refs(list[i]))
      ensures Searched(a, c, r, RefsOf(list[..i + 1])) && RefsOf(list[..i + 1]) <= RefsOf(list)
    {
      SearchedBoth(a, b, c, r, RefsOf(list[..i]), graph.refs(list[i]));
      assert list[..i + 1] == list[..i] + [list[i]];
      assert RefsOf(list[..i]) + graph.refs(list[i]) == RefsOf(list[..i + 1]);
    }

    lemma MembersClear(a: Marks, m: Marks, c: Sym, ms: set<Sym>)
      requires NewGroup(a, c, ms) && m.check == a.check + ms && c in m.checked
      requires Ordered() && Clear(a, c)
      ensures AllClear(m, RefsOf(graph.role(c).members))
    {
      forall t | t in RefsOf(graph.role(c).members)
        ensures Clear(m, t)
      {
        var s :| s in ms && t in graph.refs(s);
        assert graph.MemberOf(s, c);
        forall x | x in m.check && t != c
          ensures order(t) < order(x)
        {
          assert x in ms ==> graph.MemberOf(x, c);
        }
      }
    }

    lemma MembersPlaced(a: Marks, m: Marks, b: Marks, c: Sym, ms: set<Sym>)
      requires NewGroup(a, c, ms)
      requires Placed(b) && Extends(m, b) && m.Done(c) && ms <= b.check <= b.checked
      requires AllDone(b, RefsOf(graph.role(c).members))
      ensures Placed(Finish(b, ms)) && Extends(b, Finish(b, ms)) && Finish(b, ms).Done(c)
    {
      forall s, t | s in ms && t in graph.refs(s)
        ensures b.Done(t)
      {
        assert t in RefsOf(graph.role(c).members);
      }
      forall s, d | s in ms && graph.MemberOf(s, d)
        ensures b.Done(d)
      {
        assert graph.MemberOf(s, c);
      }
      FinishPlaces(b, ms);
    }

    /** Both stages together, and the report mapped to the choice. */
    lemma SearchedMembers(a: Marks, m: Marks, r1: Option<Sym>, b: Marks, r: Option<Sym>, c: Sym, ms: set<Sym>)
      requires NewGroup(a, c, ms) && ChoiceStage(a, m, r1, c, ms)
      requires b.check <= b.checked
      requires if r1.Some? then b == m && r == r1 else Searched(m, b, r, RefsOf(graph.role(c).members))
      ensures Searched(a, Finish(b, ms), Report(OfChoice(r, c), c), {c})
      ensures Finish(b, ms).check == a.check && Finish(b, ms).checked == b.checked && a.check <= b.check
    {
      hide Placed, Extends, Ordered;
      var n := Finish(b, ms);
      assert n.check == a.check;
      if r.Some? && r.value in ms {
        assert graph.MemberOf(r.value, c);
      }
      if recursiveIsError && r.None? && Placed(a) {
        MembersPlaced(a, m, b, c, ms);
        ExtendsTrans(a, m, b);
        ExtendsTrans(a, b, n);
      }
      if Ordered() && AllClear(a, {c}) {
        assert Clear(a, c);
        MembersClear(a, m, c, ms);
      }
    }

    lemma ExtendsTrans(a: Marks, b: Marks, c: Marks)
      requires Extends(a, b) && Extends(b, c)
      ensures Extends(a, c)
    {
    }
  }

  class DepChecker {
    ghost const env: Setting
    const cfg: Config
    const recursiveIsError: bool
    var check: set<Sym>
    var checked: set<Sym>
    var stack: Frames
    ghost var place: Sym -> nat
    ghost var clock: nat

    constructor (cfg: Config, recursiveIsError: bool, ghost order: Sym -> nat)
      requires cfg.Graph().Closed()
      ensures this.cfg == cfg && this.recursiveIsError == recursiveIsError
      ensures env == Setting(cfg.Graph(), recursiveIsError, order)
      ensures Valid() && Now() == Marks({}, {}, s => 0, 0) && stack == Bottom
    {
      this.cfg := cfg;
      this.recursiveIsError := recursiveIsError;
      env := Setting(cfg.Graph(), recursiveIsError, order);
      check, checked, stack, place, clock := {}, {}, Bottom, s => 0, 0;
    }

    ghost function Now(): Marks
      reads this
    {
      Marks(check, checked, place, clock)
    }

    ghost predicate ValidOn(frames: Frames)
      reads this
    {
      env.graph == cfg.Graph() && recursiveIsError == env.recursiveIsError && env.Coloured(Now(), frames)
    }

    ghost predicate Valid()
      reads this
    {
      ValidOn(stack)
    }

    lemma GraphOf(s: Sym)
      requires env.graph == cfg.Graph()
      ensures env.graph.role(s) == cfg.RoleOf(s) && env.graph.refs(s) == cfg.Refs(s)
    {
    }

    ghost function Unchecked(): nat
      reads this
    {
      |env.graph.universe - checked|
    }

    /** sym_check_print_recursive: the search for the reported symbol on the
        stack. The branch "unexpected recursive dependency error" is the result
        false, and it never happens. */
    method FindOnStack(last: Sym) returns (found: bool)
      requires Valid() && last in check
      modifies this`stack
      ensures found && stack == old(stack)
    {
      var target := last;
      var pushed := false;
      if cfg.RoleOf(last).Member? {
        stack := Frame(last, stack);
        pushed := true;
        target := cfg.RoleOf(last).choice;
      }
      assert target == env.Anchor(last) && stack.Has(target);
      found := false;
      var at := stack;
      while at.Frame? && !found
        invariant found || at.Has(target)
        decreases at, !found
      {
        if at.top == target {
          found := true;
        } else {
          at := at.prev;
        }
      }
      if pushed {
        stack := stack.prev;
      }
    }

    /** Set SYMBOL_CHECK and SYMBOL_CHECKED. */
    method SetFlags(ss: set<Sym>)
      modifies this`check, this`checked
      ensures Now() == env.Mark(old(Now()), ss)
    {
      check, checked := check + ss, checked + ss;
    }

    /** Clear SYMBOL_CHECK: the search of these symbols has ended. */
    method ClearCheck(ss: set<Sym>)
      modifies this`check, this`place, this`clock
      ensures Now() == env.Finish(old(Now()), ss)
    {
      check := check - ss;
      place, clock := Override(place, ss, clock), clock + 1;
    }

    /** sym_check_expr_deps. */
    method CheckExprDeps(e: Option<Expr>) returns (r: Option<Sym>)
      requires Valid() && SymsOpt(e) <= env.graph.universe
      modifies this
      ensures Valid() && stack == old(stack) && old(checked) <= checked
      ensures env.Searched(old(Now()), Now(), r, SymsOpt(e))
      decreases Unchecked(), 5
    {
      hide Setting.Searched, Setting.Coloured, Config.Graph;
      if e.None? {
        env.SearchedNothing(Now());
        return None;
      }
      r := CheckExpr(e.value);
    }

    method CheckExpr(e: Expr) returns (r: Option<Sym>)
      requires Valid() && Syms(e) <= env.graph.universe
      modifies this
      ensures Valid() && stack == old(stack) && old(checked) <= checked
      ensures env.Searched(old(Now()), Now(), r, Syms(e))
      decreases Unchecked(), 4, e
    {
      hide Setting.Searched, Setting.Coloured, Config.Graph;
      match e
      case EBin(_, left, right) =>
        r := CheckExpr(left);
        if r.Some? {
          env.SearchedEarly(old(Now()), Now(), r, Syms(left), Syms(e));
          return;
        }
        ghost var mid := Now();
        Fewer(env.graph.universe, old(checked), checked);
        r := CheckExpr(right);
        env.SearchedBoth(old(Now()), mid, Now(), r, Syms(left), Syms(right));
      case ENot(x) =>
        r := CheckExpr(x);
      case ECmp(_, left, right) =>
        r := CheckDeps(left);
        if r.Some? {
          env.SearchedEarly(old(Now()), Now(), r, {left}, Syms(e));
          return;
        }
        ghost var mid := Now();
        Fewer(env.graph.universe, old(checked), checked);
        r := CheckDeps(right);
        env.SearchedBoth(old(Now()), mid, Now(), r, {left}, {right});
        assert {left} + {right} == Syms(e);
      case ESym(s) =>
        r := CheckDeps(s);
    }

    /** sym_check_sym_deps. */
    method CheckSymDeps(s: Sym) returns (r: Option<Sym>)
      requires ValidOn(Frame(s, stack)) && s in env.graph.universe
      modifies this
      ensures ValidOn(Frame(s, stack)) && stack == old(stack) && old(checked) <= checked
      ensures env.Searched(old(Now()), Now(), r, env.graph.refs(s))
      decreases Unchecked(), 7
    {
      hide Setting.Searched, Setting.Coloured, Config.Graph;
      stack := Frame(s, stack);
      r := CheckDirect(s);
      stack := stack.prev;
    }

    /** The three dependency expressions, then the properties. */
    method CheckDirect(s: Sym) returns (r: Option<Sym>)
      requires Valid() && s in env.graph.universe
      modifies this
      ensures Valid() && stack == old(stack) && old(checked) <= checked
      ensures env.Searched(old(Now()), Now(), r, env.graph.refs(s))
      decreases Unchecked(), 6, 2
    {
      hide Setting.Searched, Setting.Coloured, Config.Graph;
      var info := cfg.InfoOf(s);
      ghost var m0 := Now();
      ghost var d, v, i := SymsOpt(info.dirDep), SymsOpt(info.revDep), SymsOpt(info.implied);
      env.Inside(m0, stack, s);
      GraphOf(s);
      r := CheckExprDeps(info.dirDep);
      if r.Some? {
        env.SearchedEarly(m0, Now(), r, d, cfg.Refs(s));
        return;
      }
      ghost var m1 := Now();
      Fewer(env.graph.universe, old(checked), checked);
      r := CheckExprDeps(info.revDep);
      env.SearchedBoth(m0, m1, Now(), r, d, v);
      if r.Some? {
        env.SearchedEarly(m0, Now(), r, d + v, cfg.Refs(s));
        return;
      }
      ghost var m2 := Now();
      Fewer(env.graph.universe, old(checked), checked);
      r := CheckExprDeps(info.implied);
      env.SearchedBoth(m0, m2, Now(), r, d + v, i);
      if r.Some? {
        env.SearchedEarly(m0, Now(), r, d + v + i, cfg.Refs(s));
        return;
      }
      ghost var m3 := Now();
      Fewer(env.graph.universe, old(checked), checked);
      r := CheckProps(s);
      env.SearchedBoth(m0, m3, Now(), r, d + v + i, cfg.PropsRefs(s, info.props));
    }

    /** The property loop of sym_check_sym_deps. */
    method CheckProps(s: Sym) returns (r: Option<Sym>)
      requires Valid() && s in env.graph.universe
      modifies this
      ensures Valid() && stack == old(stack) && old(checked) <= checked
      ensures env.Searched(old(Now()), Now(), r, cfg.PropsRefs(s, cfg.InfoOf(s).props))
      decreases Unchecked(), 6, 1
    {
      hide Setting.Searched, Setting.Coloured, Config.PropRefs, Config.PropsRefs, Config.Graph;
      var props := cfg.InfoOf(s).props;
      r := None;
      var i := 0;
      env.SearchedNothing(Now());
      PropsPrefix(s, props, 0);
      while i < |props|
        invariant 0 <= i <= |props|
        invariant Valid() && stack == old(stack) && old(checked) <= checked
        invariant r.None? && env.Searched(old(Now()), Now(), r, cfg.PropsRefs(s, props[..i]))
      {
        ghost var mid := Now();
        Fewer(env.graph.universe, old(checked), checked);
        PropsPrefix(s, props, i + 1);
        r := CheckProp(s, i);
        env.SearchedBoth(old(Now()), mid, Now(), r, cfg.PropsRefs(s, props[..i]), cfg.PropRefs(s, props[i]));
        if r.Some? {
          env.SearchedEarly(old(Now()), Now(), r, cfg.PropsRefs(s, props[..i + 1]), cfg.PropsRefs(s, props));
          return;
        }
        i := i + 1;
      }
      assert props[..i] == props;
    }

    lemma {:induction false} PropsPrefix(s: Sym, props: seq<Prop>, n: nat)
      requires n <= |props|
      ensures cfg.PropsRefs(s, props[..n]) <= cfg.PropsRefs(s, props)
      ensures n == 0 ==> cfg.PropsRefs(s, props[..n]) == {}
      ensures n > 0 ==> cfg.PropsRefs(s, props[..n]) == cfg.PropsRefs(s, props[..n - 1]) + cfg.PropRefs(s, props[n - 1])
      decreases |props|
    {
      if n > 0 {
        assert props[..n][..n - 1] == props[..n - 1];
      }
      if n < |props| {
        assert props[..|props| - 1][..n] == props[..n];
        PropsPrefix(s, props[..|props| - 1], n);
      } else {
        assert props[..n] == props;
      }
    }

    lemma PropParts(s: Sym, p: Prop)
      ensures cfg.PropRefs(s, p) ==
        if !Config.FollowsVisible(p) then {}
        else if cfg.FollowsValue(s, p) then SymsOpt(p.visible) + SymsOpt(p.value)
        else SymsOpt(p.visible)
    {
    }

    method CheckProp(s: Sym, i: nat) returns (r: Option<Sym>)
      requires Valid() && s in env.graph.universe && i < |cfg.InfoOf(s).props|
      modifies this
      ensures Valid() && stack == old(stack) && old(checked) <= checked
      ensures env.Searched(old(Now()), Now(), r, cfg.PropRefs(s, cfg.InfoOf(s).props[i]))
      decreases Unchecked(), 6, 0
    {
      hide Setting.Searched, Setting.Coloured, Config.Graph, Config.PropRefs;
      var prop := cfg.InfoOf(s).props[i];
      ghost var refs := cfg.PropRefs(s, prop);
      PropsPrefix(s, cfg.InfoOf(s).props, i + 1);
      GraphOf(s);
      env.Inside(Now(), stack, s);
      PropParts(s, prop);
      env.SearchedNothing(Now());
      r := None;
      if !Config.FollowsVisible(prop) {
        return;
      }
      r := CheckExprDeps(prop.visible);
      if r.Some? {
        env.SearchedEarly(old(Now()), Now(), r, SymsOpt(prop.visible), refs);
        return;
      }
      if cfg.FollowsValue(s, prop) {
        ghost var mid := Now();
        Fewer(env.graph.universe, old(checked), checked);
        r := CheckExprDeps(prop.value);
        env.SearchedBoth(old(Now()), mid, Now(), r, SymsOpt(prop.visible), SymsOpt(prop.value));
      }
    }

    /** sym_check_choice_deps. */
    method CheckChoiceDeps(c: Sym) returns (r: Option<Sym>)
      requires Valid() && c in env.graph.universe && c !in checked && env.graph.role(c).Choice?
      modifies this
      ensures Valid() && stack == old(stack) && old(checked) <= checked
      ensures env.Searched(old(Now()), Now(), env.Report(r, c), {c})
      decreases Unchecked(), 0, 1
    {
      hide Setting.Searched, Setting.Coloured, Setting.Ordered, Setting.Clear, Setting.RefsOf, Setting.NewGroup;
      hide Setting.ChoiceStage, Setting.Placed, Setting.Extends, Setting.Finish, Setting.Report, Setting.OfChoice;
      hide Config.Graph, Frames.Has;
      ghost var m0 := Now();
      GraphOf(c);
      var members := set m | m in cfg.RoleOf(c).members;
      env.Group(m0, stack, c, members);
      stack := Frame(c, stack);
      r := CheckChoiceItself(c, members, old(stack));
      ghost var m1, r1 := Now(), r;
      if r.None? {
        FewerBy(env.graph.universe, old(checked), checked, c);
        r := CheckMembers(c);
      }
      ghost var b := Now();
      env.Nested(b, stack);
      env.SearchedMembers(m0, m1, r1, b, r, c, members);
      ClearCheck(members);
      env.Unmarked(m0, old(stack), b, stack, Now());
      r := MapReport(r, c);
      stack := stack.prev;
    }

    /** A reported member of the choice becomes the choice itself. */
    method MapReport(r: Option<Sym>, c: Sym) returns (r': Option<Sym>)
      requires env.graph == cfg.Graph()
      ensures r' == env.OfChoice(r, c)
    {
      r' := r;
      if r.Some? {
        GraphOf(r.value);
        if cfg.RoleOf(r.value) == Member(c) {
          r' := Some(c);
        }
      }
    }

    /** Mark the whole group and search the dependencies of the choice itself. */
    method CheckChoiceItself(c: Sym, members: set<Sym>, ghost frames: Frames) returns (r: Option<Sym>)
      requires stack == Frame(c, frames) && ValidOn(frames)
      requires c in env.graph.universe && env.graph.role(c).Choice? && members == set m | m in env.graph.role(c).members
      requires c !in checked
      modifies this
      ensures Valid() && stack == old(stack) && old(checked) <= checked
      ensures c in checked && env.ChoiceStage(old(Now()), Now(), r, c, members)
      decreases Unchecked(), 0, 0
    {
      hide Setting.Searched, Setting.Coloured, Setting.Ordered, Setting.Clear, Setting.RefsOf, Setting.NewGroup;
      hide Setting.ChoiceStage, Setting.Placed, Setting.Extends, Setting.Finish, Setting.Mark, Config.Graph, Frames.Has;
      ghost var m0 := Now();
      env.GroupBegins(m0, frames, c, members);
      SetFlags(members);
      SetFlags({c});
      FewerBy(env.graph.universe, old(checked), checked, c);
      r := CheckSymDeps(c);
      ghost var b := Now();
      ClearCheck({c});
      env.GroupHalfway(m0, frames, b, r, c, members);
    }

    method CheckMembers(c: Sym) returns (r: Option<Sym>)
      requires Valid() && env.graph.role(c).Choice?
      modifies this
      ensures Valid() && stack == old(stack) && old(checked) <= checked
      ensures env.Searched(old(Now()), Now(), r, env.RefsOf(env.graph.role(c).members))
      decreases Unchecked(), 8
    {
      hide Setting.Searched, Setting.Coloured, Setting.RefsOf, Config.Graph;
      GraphOf(c);
      var list := cfg.RoleOf(c).members;
      r := None;
      var i := 0;
      env.SearchedNothing(Now());
      env.NoRefs();
      assert list[..0] == [];
      while i < |list|
        invariant 0 <= i <= |list|
        invariant Valid() && stack == old(stack) && old(checked) <= checked
        invariant r.None? && env.Searched(old(Now()), Now(), r, env.RefsOf(list[..i]))
      {
        ghost var mid := Now();
        Fewer(env.graph.universe, old(checked), checked);
        env.Inside(mid, stack, c);
        assert env.graph.role(c).members[i] == list[i];
        env.Pushed(mid, stack, list[i]);
        r := CheckSymDeps(list[i]);
        env.SearchedMarks(mid, Now(), r, env.graph.refs(list[i]));
        env.Unmarked(mid, stack, Now(), Frame(list[i], stack), Now());
        env.SearchedOneMore(old(Now()), mid, Now(), r, list, i);
        if r.Some? {
          env.SearchedEarly(old(Now()), Now(), r, env.RefsOf(list[..i + 1]), env.RefsOf(list));
          return;
        }
        i := i + 1;
      }
      assert list[..i] == list;
    }

    /** sym_check_deps. */
    method CheckDeps(s: Sym) returns (r: Option<Sym>)
      requires Valid() && s in env.graph.universe
      modifies this
      ensures Valid() && stack == old(stack) && old(checked) <= checked
      ensures env.Searched(old(Now()), Now(), r, {s})
      decreases Unchecked(), if env.graph.role(s).Member? then 3 else 1
    {
      hide Config.Graph, Setting.Ordered, Setting.Extends, Setting.Placed;
      GraphOf(s);
      env.Already(Now(), stack, s);
      if s in check {
        var found := FindOnStack(s);
        return Some(s);
      }
      if s in checked {
        return None;
      }
      if cfg.RoleOf(s).Member? {
        r := CheckMember(s);
      } else if cfg.RoleOf(s).Choice? {
        r := CheckChoiceDeps(s);
      } else {
        r := CheckPlain(s);
      }
      r := if !recursiveIsError && r == Some(s) then None else r;
    }

    /** sym_check_deps for every symbol, counting the reports. */
    method CheckAll(table: seq<Sym>) returns (errors: nat)
      requires Valid() && check == {} && checked == {}
      requires forall s :: s in table ==> s in env.graph.universe
      modifies this
      ensures Valid() && check == {}
      ensures !recursiveIsError ==> errors == 0
      ensures recursiveIsError && errors == 0 ==> env.Placed(Now()) && forall s :: s in table ==> Now().Done(s)
      ensures env.Ordered() ==> errors == 0
    {
      hide Setting.Coloured, Setting.Ordered, Setting.Placed, Setting.Extends, Config.Graph;
      errors := 0;
      env.NothingPlaced(Now());
      for i := 0 to |table|
        invariant Valid() && check == {}
        invariant !recursiveIsError ==> errors == 0
        invariant recursiveIsError && errors == 0 ==> env.Placed(Now()) && forall j :: 0 <= j < i ==>
            table[j] in checked
        invariant env.Ordered() ==> errors == 0
      {
        var r := CheckDeps(table[i]);
        if r.Some? {
          errors := errors + 1;
        }
      }
    }

    /** For a choice member the check starts with the choice. */
    method CheckMember(s: Sym) returns (r: Option<Sym>)
      requires Valid() && s in env.graph.universe && s !in checked && env.graph.role(s).Member?
      modifies this
      ensures Valid() && stack == old(stack) && old(checked) <= checked
      ensures env.Searched(old(Now()), Now(), env.Report(r, s), {s})
      decreases Unchecked(), 2
    {
      hide Setting.Searched, Setting.Coloured, Setting.Ordered, Setting.Placed, Setting.Clear, Setting.Extends;
      hide Config.Graph;
      GraphOf(s);
      ghost var m0 := Now();
      var c := cfg.RoleOf(s).choice;
      env.MemberChoice(m0, stack, s, c);
      stack := Frame(s, stack);
      env.Pushed(m0, old(stack), s);
      r := CheckDeps(c);
      env.SearchedMember(m0, old(stack), Now(), stack, r, s, c);
      stack := stack.prev;
    }

    method CheckPlain(s: Sym) returns (r: Option<Sym>)
      requires Valid() && s in env.graph.universe && s !in checked && env.graph.role(s).Plain?
      modifies this
      ensures Valid() && stack == old(stack) && old(checked) <= checked
      ensures env.Searched(old(Now()), Now(), env.Report(r, s), {s})
      decreases Unchecked(), 0
    {
      hide Setting.Searched, Setting.Coloured, Setting.Ordered, Setting.Clear, Setting.Placed, Setting.Extends;
      hide Setting.Finish, Setting.Mark, Config.Graph, Frames.Has;
      ghost var m0 := Now();
      SetFlags({s});
      env.Parts(m0, {s});
      FewerBy(env.graph.universe, old(checked), checked, s);
      env.PlainMarked(m0, stack, s);
      env.Nested(m0, stack);
      r := CheckSymDeps(s);
      ghost var b := Now();
      ClearCheck({s});
      env.Parts(b, {s});
      env.SearchedMarks(env.Mark(m0, {s}), b, r, env.graph.refs(s));
      env.Nested(b, Frame(s, stack));
      env.Unmarked(m0, stack, b, Frame(s, stack), Now());
      env.SearchedPlain(m0, b, r, s);
    }
  }

  /** The check loop of conf_parse over the symbols of the table. */
  method CheckDependencies(cfg: Config, recursiveIsError: bool, table: seq<Sym>) returns (errors: nat)
    requires cfg.Graph().Closed()
    requires forall s: Sym :: s.Sym? && s in cfg.Universe() ==> s in table
    requires forall s :: s in table ==> s in cfg.Universe()
    ensures !recursiveIsError ==> errors == 0
    ensures recursiveIsError && errors == 0 ==> exists rank: Sym -> nat :: cfg.Graph().Ranks(rank)
    ensures (exists rank: Sym -> nat :: cfg.Graph().Ranks(rank) && cfg.Graph().NoFeedback(rank)) ==> errors == 0
    ensures errors > 0 ==> exists p :: Cycle(cfg, p)
    ensures recursiveIsError && errors == 0 ==> forall p :: !DirectCycle(cfg, p)
  {
    ghost var order: Sym -> nat := s => 0;
    if exists rank: Sym -> nat :: cfg.Graph().Ranks(rank) && cfg.Graph().NoFeedback(rank) {
      order :| cfg.Graph().Ranks(order) && cfg.Graph().NoFeedback(order);
    }
    var checker := new DepChecker(cfg, recursiveIsError, order);
    errors := checker.CheckAll(table);
    if recursiveIsError && errors == 0 {
      checker.env.PlacesRank(checker.Now());
      ghost var rank: Sym -> nat :| cfg.Graph().Ranks(rank);
      RankedHasNoCycle(cfg, rank);
    }
    if errors > 0 {
      UnrankedHasCycle(cfg);
    }
  }
}
