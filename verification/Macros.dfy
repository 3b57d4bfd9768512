/** Expansion of the Kconfig macro language (preprocess.c). */
module Macros {
  import opened Tristates

  datatype Flavor = Recursive | Simple

  datatype Variable = Variable(name: string, value: string, flavor: Flavor, expCount: nat)

  datatype ErrorKind =
    | Unterminated | TooManyArguments
    | ReferencesItself(name: string) | TooDeep
    | TooFewFor(name: string) | TooManyFor(name: string)
    | UserError(message: string) | ShellFailed

  /** Errors end the program; no text is produced. */
  datatype Outcome = Text(text: string) | Error(kind: ErrorKind)

  /** What the expander asks of its surroundings: the number a text spells out
      (strtoul), environment variables, shell commands, file name and line. */
  datatype Outside = Outside(
    number: string -> Option<nat>, getenv: string -> Option<string>,
    shell: string -> Option<string>, fileName: string, lineNumber: string)

  const MAX_ARGS: nat := 16
  const MAX_DEPTH: nat := 1000

  // ----- parentheses and commas -----

  /** Opening minus closing parentheses. */
  function Depth(s: string): int {
    if s == [] then 0
    else Depth(s[..|s| - 1]) + (if s[|s| - 1] == '(' then 1 else if s[|s| - 1] == ')' then -1 else 0)
  }

  /** No prefix closes more than it has opened, and in the end all is closed. */
  ghost predicate Balanced(s: string) {
    Depth(s) == 0 && forall i :: 0 <= i <= |s| ==> Depth(s[..i]) >= 0
  }

  /** The position of the parenthesis that closes the reference, or the end. */
  function Close(s: string, q: nat, nest: nat): (r: nat)
    requires q <= |s|
    ensures q <= r <= |s| && (r < |s| ==> s[r] == ')')
    decreases |s| - q
  {
    if q == |s| then q
    else if s[q] == '(' then Close(s, q + 1, nest + 1)
    else if s[q] == ')' then (if nest == 0 then q else Close(s, q + 1, nest - 1))
    else Close(s, q + 1, nest)
  }

  lemma {:induction false} CloseBalances(s: string, p: nat, q: nat, nest: nat)
    requires p <= q <= |s| && Depth(s[p..q]) == nest && forall i :: p <= i <= q ==> Depth(s[p..i]) >= 0
    requires Close(s, q, nest) < |s|
    ensures var r := Close(s, q, nest); Depth(s[p..r]) == 0 && forall i :: p <= i <= r ==> Depth(s[p..i]) >= 0
    decreases |s| - q
  {
    if !(s[q] == ')' && nest == 0) {
      assert s[p..q + 1][..q - p] == s[p..q];
      CloseBalances(s, p, q + 1, if s[q] == '(' then nest + 1 else if s[q] == ')' then nest - 1 else nest);
    }
  }

  /** The clause between the parentheses of a reference is balanced. */
  lemma ClauseBalanced(s: string, p: nat)
    requires p <= |s| && Close(s, p, 0) < |s|
    ensures Balanced(s[p..Close(s, p, 0)])
  {
    hide Depth, Close;
    NoDepth(s, p);
    CloseBalances(s, p, p, 0);
    var q := Close(s, p, 0);
    forall i | 0 <= i <= q - p
      ensures Depth(s[p..q][..i]) >= 0
    {
      FrontOfPart(s, p, q, i);
      assert Depth(s[p..p + i]) >= 0;
    }
  }

  lemma NoDepth(s: string, p: nat)
    requires p <= |s|
    ensures Depth(s[p..p]) == 0
  {
  }

  lemma FrontOfPart(s: string, p: nat, q: nat, i: nat)
    requires p <= q <= |s| && i <= q - p
    ensures s[p..q][..i] == s[p..p + i]
  {
  }

  function Step(nest: int, c: char): int {
    if c == '(' then nest + 1 else if c == ')' then nest - 1 else nest
  }

  /** The parts of a clause between the commas outside of all parentheses. */
  function Tokens(c: string, nest: int): (ts: seq<string>)
    ensures |ts| > 0
    ensures forall t :: t in ts ==> |t| <= |c|
  {
    if c == [] then [[]]
    else if nest == 0 && c[0] == ',' then [[]] + Tokens(c[1..], nest)
    else
      var ts := Tokens(c[1..], Step(nest, c[0]));
      [[c[0]] + ts[0]] + ts[1..]
  }

  function Join(ts: seq<string>): string
    requires |ts| > 0
  {
    if |ts| == 1 then ts[0] else ts[0] + "," + Join(ts[1..])
  }

  lemma JoinFront(a: string, ts: seq<string>)
    requires |ts| > 0
    ensures Join([a] + ts) == a + "," + Join(ts)
  {
    hide Join;
    JoinMore([a] + ts);
    assert ([a] + ts)[1..] == ts;
  }

  lemma JoinMore(ts: seq<string>)
    requires |ts| > 1
    ensures Join(ts) == ts[0] + "," + Join(ts[1..])
  {
  }

  lemma JoinGrown(c: char, ts: seq<string>)
    requires |ts| > 0
    ensures Join([[c] + ts[0]] + ts[1..]) == [c] + Join(ts)
  {
    hide Join;
    var all := [[c] + ts[0]] + ts[1..];
    if |ts| == 1 {
      assert all == [[c] + ts[0]] && ts == [ts[0]];
      JoinOne(ts[0]);
      JoinOne([c] + ts[0]);
    } else {
      JoinMore(ts);
      JoinFront([c] + ts[0], ts[1..]);
      ConsAssociates([c], ts[0], ",", Join(ts[1..]));
    }
  }

  lemma ConsAssociates(a: string, b: string, c: string, d: string)
    ensures (a + b) + c + d == a + (b + c + d)
  {
  }

  /** Joined by commas again, the parts give the clause back. */
  lemma {:induction false} JoinTokens(c: string, nest: int)
    ensures Join(Tokens(c, nest)) == c
  {
    hide Join;
    if c == [] {
      JoinOne(c);
    } else if nest == 0 && c[0] == ',' {
      JoinTokens(c[1..], nest);
      JoinFront([], Tokens(c[1..], nest));
      assert [] + "," + c[1..] == c;
    } else {
      JoinTokens(c[1..], Step(nest, c[0]));
      JoinGrown(c[0], Tokens(c[1..], Step(nest, c[0])));
      assert [c[0]] + c[1..] == c;
    }
  }

  predicate Plain(t: string) {
    ',' !in t && '(' !in t && ')' !in t
  }

  /** Parts without commas and parentheses come back out when joined by commas. */
  lemma {:induction false} TokensJoined(ts: seq<string>)
    requires |ts| > 0 && forall t :: t in ts ==> Plain(t)
    ensures Tokens(Join(ts), 0) == ts
  {
    hide Join, Tokens;
    assert ts[0] in ts && Plain(ts[0]);
    if |ts| == 1 {
      JoinOne(ts[0]);
      assert ts == [ts[0]];
      TokensOne(ts[0], 0);
    } else {
      JoinMore(ts);
      TokensJoined(ts[1..]);
      TokensFront(ts[0], Join(ts[1..]));
      assert ts == [ts[0]] + ts[1..];
    }
  }

  lemma TokensEnd(nest: int)
    ensures Tokens([], nest) == [[]]
  {
  }

  lemma TokensComma(rest: string)
    ensures Tokens("," + rest, 0) == [[]] + Tokens(rest, 0)
  {
    assert ("," + rest)[1..] == rest;
  }

  lemma TokensStep(c: char, rest: string, nest: int)
    requires !(nest == 0 && c == ',')
    ensures var ts := Tokens(rest, Step(nest, c)); Tokens([c] + rest, nest) == [[c] + ts[0]] + ts[1..]
  {
    assert ([c] + rest)[1..] == rest;
  }

  lemma {:induction false} TokensOne(t: string, nest: int)
    requires '(' !in t && ')' !in t && (nest == 0 ==> ',' !in t)
    ensures Tokens(t, nest) == [t]
  {
    hide Tokens;
    if t == [] {
      TokensEnd(nest);
    } else {
      TokensOne(t[1..], nest);
      TokensStep(t[0], t[1..], nest);
      assert [t[0]] + t[1..] == t;
    }
  }

  lemma {:induction false} TokensFront(a: string, rest: string)
    requires Plain(a)
    ensures Tokens(a + "," + rest, 0) == [a] + Tokens(rest, 0)
  {
    hide Tokens;
    if a == [] {
      TokensComma(rest);
      assert a + "," + rest == "," + rest;
    } else {
      var more := a[1..] + "," + rest;
      TokensFront(a[1..], rest);
      TokensStep(a[0], more, 0);
      assert [a[0]] + more == a + "," + rest;
      assert ([a[1..]] + Tokens(rest, 0))[1..] == Tokens(rest, 0);
      assert [a[0]] + a[1..] == a;
    }
  }

  /** A part in parentheses stays in one piece, commas and all. */
  lemma TokensInside(t: string)
    requires '(' !in t && ')' !in t
    ensures Tokens("(" + t + ")", 0) == ["(" + t + ")"]
  {
    hide Tokens;
    TokensClosed(t);
    TokensStep('(', t + ")", 0);
    assert ['('] + (t + ")") == "(" + t + ")";
    assert [t + ")"][1..] == [];
  }

  lemma {:induction false} TokensClosed(t: string)
    requires '(' !in t && ')' !in t
    ensures Tokens(t + ")", 1) == [t + ")"]
  {
    hide Tokens;
    if t == [] {
      TokensEnd(0);
      TokensStep(')', [], 1);
      assert t + ")" == [')'] + [];
    } else {
      TokensClosed(t[1..]);
      TokensStep(t[0], t[1..] + ")", 1);
      assert [t[0]] + (t[1..] + ")") == t + ")";
      assert [t[1..] + ")"][1..] == [];
    }
  }

  lemma JoinOne(c: string)
    ensures Join([c]) == c
  {
  }

  // ----- the measure -----

  function Room(v: Variable): nat {
    if v.expCount <= MAX_DEPTH then MAX_DEPTH + 1 - v.expCount else 0
  }

  /** The sum over the variables of 1001 minus the expansion count. */
  function Budget(vars: seq<Variable>): nat {
    if vars == [] then 0 else Budget(vars[..|vars| - 1]) + Room(vars[|vars| - 1])
  }

  function Bump(vars: seq<Variable>, i: nat): (r: seq<Variable>)
    requires i < |vars|
    ensures |r| == |vars|
  {
    vars[i := vars[i].(expCount := vars[i].expCount + 1)]
  }

  lemma {:induction false} BumpSpends(vars: seq<Variable>, i: nat)
    requires i < |vars| && vars[i].expCount <= MAX_DEPTH
    ensures Budget(Bump(vars, i)) == Budget(vars) - 1
    decreases |vars|
  {
    var front, last := vars[..|vars| - 1], |vars| - 1;
    if i == last {
      assert Bump(vars, i)[..last] == front;
    } else {
      assert Bump(vars, i)[..last] == Bump(front, i);
      BumpSpends(front, i);
    }
  }

  // ----- what expansion means: the counts belong to the context of a reference -----

  function Find(vars: seq<Variable>, name: string, i: nat): (r: nat)
    requires i <= |vars|
    ensures i <= r <= |vars| && (r < |vars| ==> vars[r].name == name)
    decreases |vars| - i
  {
    if i == |vars| || vars[i].name == name then i else Find(vars, name, i + 1)
  }

  function Before(front: string, o: Outcome): Outcome {
    if o.Error? then o else Text(front + o.text)
  }

  datatype Outcomes = Texts(texts: seq<string>) | Failure(kind: ErrorKind)

  function Expand(w: Outside, vars: seq<Variable>, s: string, args: seq<string>): Outcome
    decreases Budget(vars), |s|, 2
  {
    if s == [] then Text([])
    else if s[0] != '$' then Before([s[0]], Expand(w, vars, s[1..], args))
    else if |s| == 1 || s[1] != '(' then Before("$", Expand(w, vars, s[1..], args))
    else
      var q := Close(s, 2, 0);
      if q == |s| then Error(Unterminated)
      else
        var clause := Evaluate(w, vars, s[2..q], args);
        if clause.Error? then clause else Before(clause.text, Expand(w, vars, s[q + 1..], args))
  }

  /** The value of a clause: an argument of the surrounding call, or a variable,
      built-in function or environment variable, with its arguments expanded. */
  function Evaluate(w: Outside, vars: seq<Variable>, clause: string, args: seq<string>): Outcome
    decreases Budget(vars), |clause|, 4
  {
    var n := w.number(clause);
    if n.Some? && 0 < n.value <= |args| then Text(args[n.value - 1])
    else
      var ts := Tokens(clause, 0);
      if |ts| > MAX_ARGS then Error(TooManyArguments)
      else
        var name := Expand(w, vars, ts[0], args);
        if name.Error? then name
        else
          var argv := ExpandAll(w, vars, ts[1..], args, |clause|);
          if argv.Failure? then Error(argv.kind) else Apply(w, vars, name.text, argv.texts)
  }

  function ExpandAll(w: Outside, vars: seq<Variable>, ts: seq<string>, args: seq<string>, bound: nat): (r: Outcomes)
    requires forall t :: t in ts ==> |t| <= bound
    ensures r.Texts? ==> |r.texts| == |ts|
    decreases Budget(vars), bound, 3, |ts|
  {
    if ts == [] then Texts([])
    else
      var front := ExpandAll(w, vars, ts[..|ts| - 1], args, bound);
      if front.Failure? then front
      else
        var last := Expand(w, vars, ts[|ts| - 1], args);
        if last.Error? then Failure(last.kind) else Texts(front.texts + [last.text])
  }

  function Apply(w: Outside, vars: seq<Variable>, name: string, argv: seq<string>): Outcome
    decreases Budget(vars), 0, 1
  {
    var i := Find(vars, name, 0);
    if i < |vars| then ApplyVariable(w, vars, i, argv)
    else if IsFunction(name) then Builtin(w, name, argv)
    else if argv == [] && name != [] && w.getenv(name).Some? then Text(w.getenv(name).value)
    else Text([])
  }

  /** A recursive variable is expanded with one more expansion of it under way. */
  function ApplyVariable(w: Outside, vars: seq<Variable>, i: nat, argv: seq<string>): Outcome
    requires i < |vars|
    decreases Budget(vars), 0, 0
  {
    var v := vars[i];
    if argv == [] && v.expCount != 0 then Error(ReferencesItself(v.name))
    else if v.expCount > MAX_DEPTH then Error(TooDeep)
    else if v.flavor.Simple? then Text(v.value)
    else
      BumpSpends(vars, i);
      Expand(w, Bump(vars, i), v.value, argv)
  }

  predicate IsFunction(name: string) {
    name in {"error-if", "filename", "info", "lineno", "shell", "warning-if"}
  }

  function Arity(name: string): nat {
    if name == "error-if" || name == "warning-if" then 2 else if name == "info" || name == "shell" then 1 else 0
  }

  function Builtin(w: Outside, name: string, argv: seq<string>): Outcome
    requires IsFunction(name)
  {
    if |argv| < Arity(name) then Error(TooFewFor(name))
    else if |argv| > Arity(name) then Error(TooManyFor(name))
    else if name == "error-if" then (if argv[0] == "y" then Error(UserError(argv[1])) else Text([]))
    else if name == "filename" then Text(w.fileName)
    else if name == "lineno" then Text(w.lineNumber)
    else if name == "shell" then
      var out := w.shell(argv[0]);
      if out.None? then Error(ShellFailed) else Text(out.value)
    else Text([])
  }

  // ----- laws of expansion -----

  /** A text without references stands for itself. */
  lemma {:induction false} NoReferences(w: Outside, vars: seq<Variable>, s: string, args: seq<string>)
    requires '$' !in s
    ensures Expand(w, vars, s, args) == Text(s)
  {
    if s != [] {
      NoReferences(w, vars, s[1..], args);
      assert [s[0]] + s[1..] == s;
    }
  }

  /** A text in front without references passes through. */
  lemma {:induction false} PlainFront(w: Outside, vars: seq<Variable>, a: string, b: string, args: seq<string>)
    requires '$' !in a
    ensures Expand(w, vars, a + b, args) == Before(a, Expand(w, vars, b, args))
  {
    if a == [] {
      assert a + b == b;
      BeforeBefore([], [], Expand(w, vars, b, args));
    } else {
      assert (a + b)[1..] == a[1..] + b;
      PlainFront(w, vars, a[1..], b, args);
      BeforeBefore([a[0]], a[1..], Expand(w, vars, b, args));
      assert [a[0]] + a[1..] == a;
    }
  }

  lemma BeforeBefore(a: string, b: string, o: Outcome)
    ensures Before(a, Before(b, o)) == Before(a + b, o) && Before([], o) == o
  {
    if o.Text? {
      assert a + (b + o.text) == (a + b) + o.text;
      assert [] + o.text == o.text;
    }
  }

  /** A variable that is being expanded cannot be referred to without arguments. */
  lemma SelfReference(w: Outside, vars: seq<Variable>, name: string, args: seq<string>)
    requires Find(vars, name, 0) < |vars| && vars[Find(vars, name, 0)].expCount > 0
    requires w.number(name).None? && Tokens(name, 0) == [name] && '$' !in name
    ensures Evaluate(w, vars, name, args) == Error(ReferencesItself(name))
  {
    hide Expand, Tokens;
    NoReferences(w, vars, name, args);
    var none: seq<string> := [];
    assert Tokens(name, 0)[1..] == none && Tokens(name, 0)[0] == name;
    assert ExpandAll(w, vars, none, args, |name|) == Texts([]);
    assert Apply(w, vars, name, []) == Error(ReferencesItself(name));
  }

  /** A reference to a number is the argument of that number, counted from 1. */
  lemma Positional(w: Outside, vars: seq<Variable>, d: string, args: seq<string>)
    requires w.number(d).Some? && 0 < w.number(d).value <= |args| && '(' !in d && ')' !in d
    ensures Expand(w, vars, "$(" + d + ")", args) == Text(args[w.number(d).value - 1])
  {
    var s := "$(" + d + ")";
    CloseAfter(s, 2, |s| - 1);
    assert s[2..|s| - 1] == d;
    assert s[|s|..] == [];
    var arg := args[w.number(d).value - 1];
    assert Evaluate(w, vars, d, args) == Text(arg);
    assert arg + [] == arg;
  }

  /** Without parentheses in between the reference ends at q. */
  lemma {:induction false} CloseAfter(s: string, p: nat, q: nat)
    requires p <= q < |s| && s[q] == ')' && forall i :: p <= i < q ==> s[i] != '(' && s[i] != ')'
    ensures Close(s, p, 0) == q
    decreases q - p
  {
    if p < q {
      CloseAfter(s, p + 1, q);
    }
  }

  /** Arguments without references are passed on as they are, in their order. */
  lemma {:induction false} PlainArguments(w: Outside, vars: seq<Variable>, ts: seq<string>, args: seq<string>,
                                          bound: nat)
    requires (forall t :: t in ts ==> |t| <= bound) && forall t :: t in ts ==> '$' !in t
    ensures ExpandAll(w, vars, ts, args, bound) == Texts(ts)
  {
    hide Expand;
    if ts != [] {
      PlainArguments(w, vars, ts[..|ts| - 1], args, bound);
      NoReferences(w, vars, ts[|ts| - 1], args);
      assert ts[..|ts| - 1] + [ts[|ts| - 1]] == ts;
    }
  }

  /** A call of the recursive variable whose value is a reference to the number k,
      with plain arguments between commas, gives the k-th of them. */
  lemma CallGivesArgument(w: Outside, vars: seq<Variable>, d: string, name: string, argv: seq<string>,
                          args: seq<string>)
    requires w.number(d).Some? && 0 < w.number(d).value <= |argv| && '(' !in d && ')' !in d
    requires Find(vars, name, 0) < |vars|
    requires var v := vars[Find(vars, name, 0)];
             v.flavor.Recursive? && v.value == "$(" + d + ")" && v.expCount <= MAX_DEPTH
    requires w.number(Join([name] + argv)).None? && |argv| < MAX_ARGS
    requires forall t :: t in [name] + argv ==> '$' !in t && Plain(t)
    ensures Evaluate(w, vars, Join([name] + argv), args) == Text(argv[w.number(d).value - 1])
  {
    hide Expand, Tokens, ExpandAll, Find, Join, Plain;
    var clause := Join([name] + argv);
    TokensJoined([name] + argv);
    assert name in [name] + argv && forall t :: t in argv ==> t in [name] + argv;
    NoReferences(w, vars, name, args);
    assert Tokens(clause, 0)[1..] == argv && Tokens(clause, 0)[0] == name;
    assert forall t :: t in argv ==> t in Tokens(clause, 0);
    PlainArguments(w, vars, argv, args, |clause|);
    var i := Find(vars, name, 0);
    Positional(w, Bump(vars, i), d, argv);
    assert ApplyVariable(w, vars, i, argv) == Text(argv[w.number(d).value - 1]);
  }

  // ----- the expander of preprocess.c -----

  class Expander {
    var vars: seq<Variable>
    var envList: seq<(string, string)>
    const w: Outside

    /** No environment variable has been asked for yet. */
    constructor (w: Outside, vars: seq<Variable>)
      ensures Valid() && this.w == w && this.vars == vars && envList == []
    {
      this.w, this.vars, envList := w, vars, [];
    }

    /** The remembered environment variables hold what getenv said. */
    predicate Valid()
      reads this
    {
      forall e :: e in envList ==> w.getenv(e.0) == Some(e.1)
    }

    /** expand_string_with_args. */
    method ExpandString(s: string, args: seq<string>) returns (r: Outcome)
      requires Valid()
      modifies this
      ensures Valid() && r == Expand(w, old(vars), s, args) && (r.Text? ==> vars == old(vars))
      decreases Budget(vars), |s|, 2
    {
      hide Evaluate, Budget, Expand, Close;
      ghost var v := vars;
      var out := [];
      var from, p := 0, 0;
      assert s[0..] == s;
      BeforeBefore([], [], Expand(w, v, s, args));
      while p < |s|
        invariant 0 <= from <= p <= |s| && Valid() && vars == v
        invariant Expand(w, v, s, args) == Before(out + s[from..p], Expand(w, v, s[p..], args))
        decreases |s| - p
      {
        if s[p] == '$' {
          var front := out + s[from..p];
          var expansion, next := ExpandDollar(s, p + 1, args);
          DollarShift(v, s, p + 1, args, expansion, next);
          if expansion.Error? {
            return expansion;
          }
          BeforeBefore(front, expansion.text, Expand(w, v, s[next..], args));
          out := front + expansion.text;
          from, p := next, next;
          assert out + s[from..p] == out;
        } else {
          PlainStep(v, s, p, args);
          BeforeBefore(out + s[from..p], [s[p]], Expand(w, v, s[p + 1..], args));
          assert out + s[from..p] + [s[p]] == out + s[from..p + 1];
          p := p + 1;
        }
      }
      NothingLeft(v, s[p..], args);
      out := out + s[from..];
      assert s[from..p] == s[from..];
      assert out + [] == out;
      return Text(out);
    }

    lemma PlainStep(v: seq<Variable>, s: string, p: nat, args: seq<string>)
      requires p < |s| && s[p] != '$'
      ensures Expand(w, v, s[p..], args) == Before([s[p]], Expand(w, v, s[p + 1..], args))
    {
      hide Evaluate, Close;
      assert s[p..][1..] == s[p + 1..];
    }

    lemma NothingLeft(v: seq<Variable>, s: string, args: seq<string>)
      requires s == []
      ensures Expand(w, v, s, args) == Text([])
    {
    }

    /** What a '$' in front of position p gives: itself, or the value of the
        clause between the parentheses, up to position `next`. */
    ghost predicate DollarDone(v: seq<Variable>, s: string, p: nat, args: seq<string>, r: Outcome, next: nat)
      requires p <= |s|
    {
      if p == |s| || s[p] != '(' then r == Text("$") && next == p
      else
        var q := Close(s, p + 1, 0);
        if q == |s| then r == Error(Unterminated)
        else r == Evaluate(w, v, s[p + 1..q], args) && next == q + 1
    }

    lemma DollarShift(v: seq<Variable>, s: string, p: nat, args: seq<string>, r: Outcome, next: nat)
      requires 0 < p <= |s| && s[p - 1] == '$' && DollarDone(v, s, p, args, r, next)
      ensures r.Error? ==> Expand(w, v, s[p - 1..], args) == r
      ensures r.Text? ==>
          p <= next <= |s| && Expand(w, v, s[p - 1..], args) == Before(r.text, Expand(w, v, s[next..], args))
    {
      hide Evaluate, Expand, Close;
      var rest := s[p - 1..];
      if p == |s| || s[p] != '(' {
        assert rest[1..] == s[p..];
        DollarAlone(v, rest, args);
      } else {
        CloseShift(s, p - 1, 2, 0);
        DollarClause(v, rest, args);
        var q := Close(rest, 2, 0);
        if q < |rest| {
          assert rest[2..q] == s[p + 1..p - 1 + q] && rest[q + 1..] == s[p + q..];
        }
      }
    }

    lemma DollarAlone(v: seq<Variable>, s: string, args: seq<string>)
      requires s != [] && s[0] == '$' && (|s| == 1 || s[1] != '(')
      ensures Expand(w, v, s, args) == Before("$", Expand(w, v, s[1..], args))
    {
      hide Evaluate, Close;
    }

    lemma DollarClause(v: seq<Variable>, s: string, args: seq<string>)
      requires |s| >= 2 && s[0] == '$' && s[1] == '('
      ensures var q := Close(s, 2, 0);
              Expand(w, v, s, args) ==
                if q == |s| then Error(Unterminated)
                else
                  var clause := Evaluate(w, v, s[2..q], args);
                  if clause.Error? then clause else Before(clause.text, Expand(w, v, s[q + 1..], args))
    {
      hide Evaluate, Close;
    }

    lemma {:induction false} CloseShift(s: string, base: nat, q: nat, nest: nat)
      requires base + q <= |s|
      ensures Close(s[base..], q, nest) == Close(s, base + q, nest) - base
      decreases |s| - q
    {
      if base + q < |s| {
        if s[base + q] == '(' {
          CloseShift(s, base, q + 1, nest + 1);
        } else if s[base + q] == ')' {
          if nest > 0 {
            CloseShift(s, base, q + 1, nest - 1);
          }
        } else {
          CloseShift(s, base, q + 1, nest);
        }
      }
    }

    /** expand_dollar_with_args: p is the position behind the '$'. */
    method ExpandDollar(s: string, p: nat, args: seq<string>) returns (r: Outcome, next: nat)
      requires Valid() && 0 < p <= |s|
      modifies this
      ensures Valid() && DollarDone(old(vars), s, p, args, r, next) && (r.Text? ==> vars == old(vars))
      decreases Budget(vars), |s|, 1
    {
      hide Evaluate, Budget;
      if p == |s| || s[p] != '(' {
        return Text("$"), p;
      }
      var nest, q := 0, p + 1;
      while q < |s|
        invariant p < q <= |s| && nest >= 0
        invariant Close(s, p + 1, 0) == Close(s, q, nest)
      {
        if s[q] == '(' {
          nest := nest + 1;
        } else if s[q] == ')' {
          if nest == 0 {
            break;
          }
          nest := nest - 1;
        }
        q := q + 1;
      }
      if q == |s| {
        return Error(Unterminated), q;
      }
      ClauseBalanced(s, p + 1);
      r := EvalClause(s[p + 1..q], args);
      next := q + 1;
    }

    /** The loop of eval_clause that splits a clause. */
    method SplitClause(clause: string) returns (ok: bool, ts: seq<string>)
      requires Balanced(clause)
      ensures ok == (|Tokens(clause, 0)| <= MAX_ARGS)
      ensures ok ==> ts == Tokens(clause, 0) && Join(ts) == clause
    {
      hide Join, Tokens, Glue, Depth, Balanced;
      ts := [];
      var prev, p, nest := 0, 0, 0;
      assert clause[0..] == clause && clause[0..0] == [];
      NoDepth(clause, 0);
      assert clause[..0] == clause[0..0];
      GlueNothing(Tokens(clause, 0));
      while p < |clause|
        invariant 0 <= prev <= p <= |clause| && nest == Depth(clause[..p]) >= 0 && |ts| <= MAX_ARGS
        invariant Tokens(clause, 0) == Glue(ts, clause[prev..p], Tokens(clause[p..], nest))
      {
        DepthStep(clause, p);
        if nest == 0 && clause[p] == ',' {
          SplitComma(clause, clause[prev..p], p, ts);
          if |ts| >= MAX_ARGS {
            return false, [];
          }
          ts := ts + [clause[prev..p]];
          prev := p + 1;
        } else {
          SplitPlain(clause, prev, p, nest, ts);
          if clause[p] == '(' {
            nest := nest + 1;
          } else if clause[p] == ')' {
            nest := nest - 1;
          }
        }
        p := p + 1;
      }
      assert clause[p..] == [] && clause[prev..p] == clause[prev..];
      GlueEnd(ts, clause[prev..], nest);
      if |ts| >= MAX_ARGS {
        return false, [];
      }
      ts := ts + [clause[prev..]];
      JoinTokens(clause, 0);
      return true, ts;
    }

    static lemma DepthStep(clause: string, p: nat)
      requires Balanced(clause) && p < |clause|
      ensures Depth(clause[..p + 1]) == Step(Depth(clause[..p]), clause[p]) >= 0
    {
      assert clause[..p + 1][..p] == clause[..p];
    }

    /** The finished tokens, the started one, and those of the rest. */
    static function Glue(done: seq<string>, part: string, ts: seq<string>): (all: seq<string>)
      requires |ts| > 0
      ensures |all| == |done| + |ts|
    {
      done + [part + ts[0]] + ts[1..]
    }

    static lemma GlueNothing(ts: seq<string>)
      requires |ts| > 0
      ensures Glue([], [], ts) == ts
    {
      assert [] + ts[0] == ts[0];
    }

    static lemma GlueEnd(done: seq<string>, part: string, nest: int)
      ensures Glue(done, part, Tokens([], nest)) == done + [part]
    {
      assert part + [] == part;
    }

    static lemma GlueStart(part: string, ts: seq<string>, done: seq<string>)
      requires |ts| > 0
      ensures Glue(done + [part], [], ts) == done + [part] + ts
    {
      assert [] + ts[0] == ts[0];
      assert [ts[0]] + ts[1..] == ts;
    }

    static lemma SplitComma(c: string, part: string, p: nat, done: seq<string>)
      requires p < |c| && c[p] == ','
      ensures Glue(done, part, Tokens(c[p..], 0)) == Glue(done + [part], c[p + 1..p + 1], Tokens(c[p + 1..], 0))
    {
      assert c[p..][1..] == c[p + 1..];
      var ts := Tokens(c[p + 1..], 0);
      assert Tokens(c[p..], 0) == [[]] + ts;
      assert ([[]] + ts)[1..] == ts && part + [] == part && c[p + 1..p + 1] == [];
      assert Glue(done, part, [[]] + ts) == done + [part] + ts;
      GlueStart(part, ts, done);
    }

    static lemma SplitPlain(c: string, prev: nat, p: nat, nest: int, done: seq<string>)
      requires prev <= p < |c| && !(nest == 0 && c[p] == ',')
      ensures Glue(done, c[prev..p], Tokens(c[p..], nest)) ==
        Glue(done, c[prev..p + 1], Tokens(c[p + 1..], Step(nest, c[p])))
    {
      assert c[p..][1..] == c[p + 1..];
      var ts := Tokens(c[p + 1..], Step(nest, c[p]));
      var all := [[c[p]] + ts[0]] + ts[1..];
      assert Tokens(c[p..], nest) == all;
      assert all[1..] == ts[1..];
      assert c[prev..p] + ([c[p]] + ts[0]) == c[prev..p + 1] + ts[0];
    }

    /** eval_clause. */
    method EvalClause(clause: string, args: seq<string>) returns (r: Outcome)
      requires Valid() && Balanced(clause)
      modifies this
      ensures Valid() && r == Evaluate(w, old(vars), clause, args) && (r.Text? ==> vars == old(vars))
      decreases Budget(vars), |clause|, 4
    {
      hide Expand, ExpandAll, Apply, Budget;
      ghost var v := vars;
      var n := w.number(clause);
      if n.Some? && 0 < n.value <= |args| {
        return Text(args[n.value - 1]);
      }
      var ok, ts := SplitClause(clause);
      if !ok {
        return Error(TooManyArguments);
      }
      var name := ExpandString(ts[0], args);
      if name.Error? {
        return name;
      }
      var argv := ExpandArguments(ts[1..], args, |clause|);
      if argv.Failure? {
        return Error(argv.kind);
      }
      r := ApplyName(name.text, argv.texts);
    }

    method ExpandArguments(ts: seq<string>, args: seq<string>, ghost bound: nat) returns (r: Outcomes)
      requires Valid() && forall t :: t in ts ==> |t| <= bound
      modifies this
      ensures Valid() && r == ExpandAll(w, old(vars), ts, args, bound) && (r.Texts? ==> vars == old(vars))
      decreases Budget(vars), bound, 3
    {
      hide Expand, Budget, ExpandAll;
      ghost var v := vars;
      var argv := [];
      var i := 0;
      NoArguments(v, ts[..0], args, bound);
      while i < |ts|
        invariant 0 <= i <= |ts| && Valid() && vars == v
        invariant ExpandAll(w, v, ts[..i], args, bound) == Texts(argv)
      {
        OneMoreArgument(w, v, ts, args, bound, i, argv);
        var arg := ExpandString(ts[i], args);
        if arg.Error? {
          AllFail(w, v, ts, args, bound, i + 1, arg.kind);
          return Failure(arg.kind);
        }
        argv := argv + [arg.text];
        i := i + 1;
      }
      assert ts[..i] == ts;
      return Texts(argv);
    }

    lemma NoArguments(v: seq<Variable>, ts: seq<string>, args: seq<string>, bound: nat)
      requires ts == []
      ensures ExpandAll(w, v, ts, args, bound) == Texts([])
    {
    }

    static lemma OneMoreArgument(w: Outside, v: seq<Variable>, ts: seq<string>, args: seq<string>, bound: nat, i: nat,
        argv: seq<string>)
      requires i < |ts| && (forall t :: t in ts ==> |t| <= bound)
      requires ExpandAll(w, v, ts[..i], args, bound) == Texts(argv)
      ensures ExpandAll(w, v, ts[..i + 1], args, bound) ==
        var last := Expand(w, v, ts[i], args);
        if last.Error? then Failure(last.kind) else Texts(argv + [last.text])
    {
      hide Expand;
      assert ts[..i + 1][..i] == ts[..i];
    }

    static lemma {:induction false} AllFail(w: Outside, v: seq<Variable>, ts: seq<string>, args: seq<string>,
        bound: nat, i: nat, kind: ErrorKind)
      requires i <= |ts| && (forall t :: t in ts ==> |t| <= bound)
      requires ExpandAll(w, v, ts[..i], args, bound) == Failure(kind)
      ensures ExpandAll(w, v, ts, args, bound) == Failure(kind)
      decreases |ts| - i
    {
      hide Expand;
      if i < |ts| {
        assert ts[..i + 1][..i] == ts[..i];
        AllFail(w, v, ts, args, bound, i + 1, kind);
      } else {
        assert ts[..i] == ts;
      }
    }

    /** The search for a variable, a built-in function and an environment variable. */
    method ApplyName(name: string, argv: seq<string>) returns (r: Outcome)
      requires Valid()
      modifies this
      ensures Valid() && r == Apply(w, old(vars), name, argv) && (r.Text? ==> vars == old(vars))
      decreases Budget(vars), 0, 1
    {
      hide ApplyVariable, Budget;
      var i := Lookup(name);
      if i < |vars| {
        r := VariableExpand(i, argv);
        return;
      }
      if IsFunction(name) {
        return Builtin(w, name, argv);
      }
      if argv == [] {
        var value := EnvExpand(name);
        if value.Some? {
          return Text(value.value);
        }
      }
      return Text([]);
    }

    /** variable_lookup. */
    method Lookup(name: string) returns (i: nat)
      ensures i == Find(vars, name, 0)
    {
      i := 0;
      while i < |vars| && vars[i].name != name
        invariant 0 <= i <= |vars| && Find(vars, name, 0) == Find(vars, name, i)
      {
        i := i + 1;
      }
    }

    /** env_expand: a variable that was asked for before is not asked for again. */
    method EnvExpand(name: string) returns (value: Option<string>)
      requires Valid()
      modifies this`envList
      ensures Valid() && value == if name == [] then None else w.getenv(name)
    {
      if name == [] {
        return None;
      }
      var i := 0;
      while i < |envList|
        invariant 0 <= i <= |envList|
      {
        if envList[i].0 == name {
          assert envList[i] in envList;
          return Some(envList[i].1);
        }
        i := i + 1;
      }
      value := w.getenv(name);
      if value.Some? {
        envList := envList + [(name, value.value)];
      }
    }

    /** variable_expand: the count goes up for the time of the expansion. */
    method VariableExpand(i: nat, argv: seq<string>) returns (r: Outcome)
      requires Valid() && i < |vars|
      modifies this
      ensures Valid() && r == ApplyVariable(w, old(vars), i, argv) && (r.Text? ==> vars == old(vars))
      decreases Budget(vars), 0, 0
    {
      hide Expand, Budget;
      ghost var v := vars;
      if argv == [] && vars[i].expCount != 0 {
        return Error(ReferencesItself(vars[i].name));
      }
      if vars[i].expCount > MAX_DEPTH {
        return Error(TooDeep);
      }
      BumpSpends(vars, i);
      vars := vars[i := vars[i].(expCount := vars[i].expCount + 1)];
      assert vars == Bump(v, i);
      if vars[i].flavor.Recursive? {
        r := ExpandString(vars[i].value, argv);
      } else {
        r := Text(vars[i].value);
      }
      if r.Text? {
        vars := vars[i := vars[i].(expCount := vars[i].expCount - 1)];
        assert vars == v;
      }
    }
  }
}
