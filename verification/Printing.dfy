/** expr_print and the expression grammar of parser.y, on tokens. */
module Printing {
  import opened Tristates
  import opened Exprs

  /** A word stands for the symbol that it names. */
  datatype Token = TWord(sym: Sym) | TCmp(cmp: CmpOp) | TNot | TAnd | TOr | TOpen | TClose

  /** The surrounding operator that expr_print passes down; Top is E_NONE. */
  datatype Prev = Top | UnderNot | UnderBin(op: BinOp)

  /** expr_compare_type(prevtoken, e->type) > 0 */
  predicate NeedsParens(prev: Prev, e: Expr) {
    match prev
    case Top => false
    case UnderNot => e.EBin?
    case UnderBin(op) => op.AndOp? && e.EBin? && e.op.OrOp?
  }

  function OpToken(op: BinOp): Token {
    if op.AndOp? then TAnd else TOr
  }

  function Print(e: Expr, prev: Prev): seq<Token>
    decreases e, 1
  {
    if NeedsParens(prev, e) then [TOpen] + PrintBare(e) + [TClose] else PrintBare(e)
  }

  function PrintBare(e: Expr): seq<Token>
    decreases e, 0
  {
    match e
    case ESym(s) => [TWord(s)]
    case ENot(x) => [TNot] + Print(x, UnderNot)
    case ECmp(c, l, r) => [TWord(l), TCmp(c), TWord(r)]
    case EBin(op, l, r) => Print(l, UnderBin(op)) + [OpToken(op)] + Print(r, UnderBin(op))
  }

  /** A null expression prints as y. */
  function PrintOpt(e: Option<Expr>): seq<Token> {
    if e.None? then [TWord(SymYes)] else Print(e.value, Top)
  }

  // ----- the grammar: NOT binds tightest, then AND, then OR, to the left -----

  datatype Parsed = Failed | Parsed(e: Expr, rest: seq<Token>)

  predicate StartsWith(ts: seq<Token>, t: Token) {
    |ts| > 0 && ts[0] == t
  }

  function ParseUnary(ts: seq<Token>): (p: Parsed)
    ensures p.Parsed? ==> |p.rest| < |ts|
    decreases |ts|, 0
  {
    if ts == [] then Failed
    else match ts[0]
      case TNot =>
        var p := ParseUnary(ts[1..]);
        if p.Failed? then Failed else Parsed(ENot(p.e), p.rest)
      case TOpen =>
        var p := ParseChain(OrOp, ts[1..]);
        if p.Parsed? && StartsWith(p.rest, TClose) then Parsed(p.e, p.rest[1..]) else Failed
      case TWord(s) =>
        if |ts| >= 2 && ts[1].TCmp? then
          if |ts| >= 3 && ts[2].TWord? then Parsed(ECmp(ts[1].cmp, s, ts[2].sym), ts[3..]) else Failed
        else Parsed(ESym(s), ts[1..])
      case _ => Failed
  }

  /** One operand of a chain: an AND chain inside of an OR chain, a unary
      expression inside of an AND chain. */
  function ParseOperand(op: BinOp, ts: seq<Token>): (p: Parsed)
    ensures p.Parsed? ==> |p.rest| < |ts|
    decreases |ts|, if op.OrOp? then 3 else 1
  {
    if op.OrOp? then ParseChain(AndOp, ts) else ParseUnary(ts)
  }

  function ParseChain(op: BinOp, ts: seq<Token>): (p: Parsed)
    ensures p.Parsed? ==> |p.rest| < |ts|
    decreases |ts|, if op.OrOp? then 4 else 2
  {
    var p := ParseOperand(op, ts);
    if p.Failed? then Failed else ParseMore(op, p.e, p.rest)
  }

  /** The rest of a chain, with what was read so far as left operand. */
  function ParseMore(op: BinOp, e: Expr, ts: seq<Token>): (p: Parsed)
    ensures p.Parsed? ==> |p.rest| <= |ts|
    decreases |ts|, 5
  {
    if StartsWith(ts, OpToken(op)) then
      var p := ParseOperand(op, ts[1..]);
      if p.Failed? then Failed else ParseMore(op, EBin(op, e, p.e), p.rest)
    else Parsed(e, ts)
  }

  function Parse(ts: seq<Token>): Option<Expr> {
    var p := ParseChain(OrOp, ts);
    if p.Parsed? && p.rest == [] then Some(p.e) else None
  }

  // ----- reassociation -----

  /** y op-joined to x, keeping the chain of y to the left. */
  function Attach(op: BinOp, x: Expr, y: Expr): Expr
    decreases y
  {
    if y.EBin? && y.op == op then EBin(op, Attach(op, x, y.left), y.right) else EBin(op, x, y)
  }

  /** The same expression with every AND and OR chain leaning to the left. */
  function LeftAssoc(e: Expr): Expr {
    match e
    case ESym(_) => e
    case ECmp(_, _, _) => e
    case ENot(x) => ENot(LeftAssoc(x))
    case EBin(op, l, r) => Attach(op, LeftAssoc(l), LeftAssoc(r))
  }

  lemma {:induction false} AttachAssociates(op: BinOp, x: Expr, y: Expr, z: Expr)
    ensures Attach(op, Attach(op, x, y), z) == Attach(op, x, Attach(op, y, z))
    decreases z
  {
    if z.EBin? && z.op == op {
      AttachAssociates(op, x, y, z.left);
    }
  }

  lemma {:induction false} AttachValue(op: BinOp, x: Expr, y: Expr, env: Env)
    ensures Eval(Attach(op, x, y), env) == Apply(op, Eval(x, env), Eval(y, env))
    decreases y
  {
    if y.EBin? && y.op == op {
      AttachValue(op, x, y.left, env);
    }
  }

  /** Reassociation keeps the value, */
  lemma {:induction false} LeftAssocValue(e: Expr, env: Env)
    ensures Eval(LeftAssoc(e), env) == Eval(e, env)
  {
    match e
    case ESym(_) =>
    case ECmp(_, _, _) =>
    case ENot(x) => LeftAssocValue(x, env);
    case EBin(op, l, r) =>
      LeftAssocValue(l, env);
      LeftAssocValue(r, env);
      AttachValue(op, LeftAssoc(l), LeftAssoc(r), env);
  }

  /** the operands of each chain, from left to right. */
  function Operands(op: BinOp, e: Expr): seq<Expr> {
    if e.EBin? && e.op == op then Operands(op, e.left) + Operands(op, e.right) else [e]
  }

  function MapLeft(es: seq<Expr>): seq<Expr> {
    if es == [] then [] else MapLeft(es[..|es| - 1]) + [LeftAssoc(es[|es| - 1])]
  }

  lemma {:induction false} MapLeftConcat(a: seq<Expr>, b: seq<Expr>)
    ensures MapLeft(a + b) == MapLeft(a) + MapLeft(b)
  {
    if b == [] {
      assert a + b == a;
    } else {
      assert (a + b)[..|a + b| - 1] == a + b[..|b| - 1];
      MapLeftConcat(a, b[..|b| - 1]);
    }
  }

  lemma {:induction false} AttachOperands(op: BinOp, x: Expr, y: Expr)
    ensures Operands(op, Attach(op, x, y)) == Operands(op, x) + Operands(op, y)
    decreases y
  {
    if y.EBin? && y.op == op {
      AttachOperands(op, x, y.left);
    }
  }

  lemma LeftAssocKind(e: Expr)
    ensures LeftAssoc(e).EBin? == e.EBin? && (e.EBin? ==> LeftAssoc(e).op == e.op)
  {
  }

  /** and every chain keeps its operands in their order. */
  lemma {:induction false} LeftAssocOperands(op: BinOp, e: Expr)
    ensures Operands(op, LeftAssoc(e)) == MapLeft(Operands(op, e))
  {
    LeftAssocKind(e);
    if e.EBin? && e.op == op {
      LeftAssocOperands(op, e.left);
      LeftAssocOperands(op, e.right);
      AttachOperands(op, LeftAssoc(e.left), LeftAssoc(e.right));
      MapLeftConcat(Operands(op, e.left), Operands(op, e.right));
    } else {
      assert Operands(op, e) == [e];
    }
  }

  // ----- parsing what was printed -----

  /** Where an operand of a chain ends: not at a comparison, and not at a token
      that would carry the chain on. */
  predicate Ends(op: BinOp, ts: seq<Token>) {
    ts == [] || ts[0].TClose? || ts[0].TOr? || (op.AndOp? && ts[0].TAnd?)
  }

  lemma StepParens(inner: seq<Token>, e: Expr, rest: seq<Token>)
    requires ParseChain(OrOp, inner + ([TClose] + rest)) == Parsed(e, [TClose] + rest)
    ensures ParseUnary([TOpen] + inner + [TClose] + rest) == Parsed(e, rest)
  {
    hide ParseChain;
    var ts := [TOpen] + inner + [TClose] + rest;
    assert ts[1..] == inner + ([TClose] + rest);
    assert ([TClose] + rest)[1..] == rest;
  }

  lemma StepNot(ts: seq<Token>, e: Expr, rest: seq<Token>)
    requires ParseUnary(ts) == Parsed(e, rest)
    ensures ParseUnary([TNot] + ts) == Parsed(ENot(e), rest)
  {
    hide ParseChain;
    assert ([TNot] + ts)[1..] == ts;
  }

  lemma StepAtom(e: Expr, rest: seq<Token>)
    requires (e.ESym? || e.ECmp?) && Ends(AndOp, rest)
    ensures ParseUnary(PrintBare(e) + rest) == Parsed(e, rest)
  {
    hide ParseChain;
    var ts := PrintBare(e) + rest;
    assert e.ESym? ==> ts[1..] == rest;
    assert e.ECmp? ==> ts[3..] == rest;
  }

  lemma {:induction false} ParsesUnary(e: Expr, prev: Prev, rest: seq<Token>)
    requires !e.EBin? || NeedsParens(prev, e)
    requires Ends(AndOp, rest)
    ensures ParseUnary(Print(e, prev) + rest) == Parsed(LeftAssoc(e), rest)
    decreases e, 6
  {
    hide ParseChain, ParseUnary;
    if NeedsParens(prev, e) {
      ParsesChain(e, [TClose] + rest);
      StepParens(PrintBare(e), LeftAssoc(e), rest);
    } else if e.ENot? {
      assert Print(e, prev) + rest == [TNot] + (Print(e.arg, UnderNot) + rest);
      ParsesUnary(e.arg, UnderNot, rest);
      StepNot(Print(e.arg, UnderNot) + rest, LeftAssoc(e.arg), rest);
    } else {
      StepAtom(e, rest);
    }
  }

  /** An operand printed inside of a chain is read as one chain of its own. */
  lemma {:induction false} ParsesOperand(op: BinOp, e: Expr, rest: seq<Token>)
    requires !(e.EBin? && e.op == op) && Ends(op, rest)
    ensures ParseOperand(op, Print(e, UnderBin(op)) + rest) == Parsed(LeftAssoc(e), rest)
    decreases e, if e.EBin? && op.OrOp? then 2 else 7
  {
    if op.AndOp? {
      ParsesUnary(e, UnderBin(AndOp), rest);
    } else if e.EBin? {
      ParsesFirst(AndOp, e, rest);
    } else {
      ParsesUnary(e, UnderBin(OrOp), rest);
      var ts := Print(e, UnderBin(OrOp)) + rest;
      assert ParseOperand(AndOp, ts) == Parsed(LeftAssoc(e), rest);
      assert ParseChain(AndOp, ts) == ParseMore(AndOp, LeftAssoc(e), rest);
      assert !StartsWith(rest, OpToken(AndOp));
    }
  }

  lemma PrintPair(op: BinOp, l: Expr, r: Expr)
    ensures Print(EBin(op, l, r), UnderBin(op)) == Print(l, UnderBin(op)) + [OpToken(op)] + Print(r, UnderBin(op))
  {
  }

  lemma MoreStep(op: BinOp, acc: Expr, ts: seq<Token>, e: Expr, rest: seq<Token>)
    requires ParseOperand(op, ts) == Parsed(e, rest)
    ensures ParseMore(op, acc, [OpToken(op)] + ts) == ParseMore(op, EBin(op, acc, e), rest)
  {
    hide ParseOperand;
    assert ([OpToken(op)] + ts)[1..] == ts;
  }

  /** The first operands of a chain, */
  lemma {:induction false} ParsesFirst(op: BinOp, e: Expr, rest: seq<Token>)
    requires Ends(op, rest) || StartsWith(rest, OpToken(op))
    ensures ParseChain(op, Print(e, UnderBin(op)) + rest) == ParseMore(op, LeftAssoc(e), rest)
    decreases e, if e.EBin? then (if e.op == op then 1 else if op.OrOp? then 3 else 8) else 8
  {
    hide Print, ParseMore, ParseOperand;
    if e.EBin? && e.op == op {
      var more := [OpToken(op)] + (Print(e.right, UnderBin(op)) + rest);
      PrintPair(op, e.left, e.right);
      assert Print(e, UnderBin(op)) + rest == Print(e.left, UnderBin(op)) + more;
      ParsesFirst(op, e.left, more);
      ParsesMore(op, LeftAssoc(e.left), e.right, rest);
    } else {
      ParsesOperand(op, e, rest);
    }
  }

  /** and the operands that follow. */
  lemma {:induction false} ParsesMore(op: BinOp, acc: Expr, e: Expr, rest: seq<Token>)
    requires Ends(op, rest) || StartsWith(rest, OpToken(op))
    ensures ParseMore(op, acc, [OpToken(op)] + (Print(e, UnderBin(op)) + rest)) ==
        ParseMore(op, Attach(op, acc, LeftAssoc(e)), rest)
    decreases e, 8
  {
    hide Print, ParseMore, ParseOperand;
    if e.EBin? && e.op == op {
      var more := [OpToken(op)] + (Print(e.right, UnderBin(op)) + rest);
      PrintPair(op, e.left, e.right);
      assert Print(e, UnderBin(op)) + rest == Print(e.left, UnderBin(op)) + more;
      ParsesMore(op, acc, e.left, more);
      ParsesMore(op, Attach(op, acc, LeftAssoc(e.left)), e.right, rest);
      AttachAssociates(op, acc, LeftAssoc(e.left), LeftAssoc(e.right));
    } else {
      ParsesOperand(op, e, rest);
      MoreStep(op, acc, Print(e, UnderBin(op)) + rest, LeftAssoc(e), rest);
      LeftAssocKind(e);
    }
  }

  lemma {:induction false} ParsesChain(e: Expr, rest: seq<Token>)
    requires rest == [] || rest[0].TClose?
    ensures ParseChain(OrOp, PrintBare(e) + rest) == Parsed(LeftAssoc(e), rest)
    decreases e, if e.EBin? then 5 else 9
  {
    ParsesFirst(OrOp, e, rest);
  }

  /** Printing and parsing gives the same expression up to reassociation, */
  lemma PrintThenParse(e: Expr)
    ensures Parse(Print(e, Top)) == Some(LeftAssoc(e))
  {
    ParsesChain(e, []);
    assert Print(e, Top) + [] == Print(e, Top);
  }

  /** hence with the same value everywhere, also for the null expression. */
  lemma PrintedValue(e: Option<Expr>, env: Env)
    requires env.tri(SymYes) == YES
    ensures Parse(PrintOpt(e)).Some? && EvalOpt(Parse(PrintOpt(e)), env) == EvalOpt(e, env)
  {
    if e.Some? {
      PrintThenParse(e.value);
      LeftAssocValue(e.value, env);
    } else {
      PrintThenParse(E_YES);
    }
  }

  // ----- what is printed -----

  /** How many nodes of the expression have this operator. */
  function Count(op: BinOp, e: Expr): nat {
    match e
    case ESym(_) => 0
    case ECmp(_, _, _) => 0
    case ENot(x) => Count(op, x)
    case EBin(o, l, r) => Count(op, l) + Count(op, r) + (if o == op then 1 else 0)
  }

  predicate IsOr(e: Expr) {
    e.EBin? && e.op == OrOp
  }

  /** How many operands cannot do without parentheses: an OR below an AND, and an
      AND or OR below a NOT. */
  function Nested(e: Expr): nat {
    match e
    case ESym(_) => 0
    case ECmp(_, _, _) => 0
    case ENot(x) => Nested(x) + (if x.EBin? then 1 else 0)
    case EBin(o, l, r) =>
      Nested(l) + Nested(r) + (if o == AndOp && IsOr(l) then 1 else 0) + (if o == AndOp && IsOr(r) then 1 else 0)
  }

  lemma {:induction false} BarePrinted(e: Expr)
    ensures var ts := multiset(PrintBare(e));
            ts[TAnd] == Count(AndOp, e) && ts[TOr] == Count(OrOp, e) && ts[TOpen] == ts[TClose] == Nested(e)
  {
    hide Print, PrintBare;
    match e
    case ESym(_) => LeafPrinted(e);
    case ECmp(_, _, _) => LeafPrinted(e);
    case ENot(x) =>
      BarePrinted(x);
      ParensPrinted(x, UnderNot);
      NotPrinted(x);
    case EBin(op, l, r) =>
      BarePrinted(l);
      BarePrinted(r);
      ParensPrinted(l, UnderBin(op));
      ParensPrinted(r, UnderBin(op));
      PairPrinted(op, l, r);
  }

  lemma LeafPrinted(e: Expr)
    requires e.ESym? || e.ECmp?
    ensures var ts := multiset(PrintBare(e)); ts[TAnd] == ts[TOr] == ts[TOpen] == ts[TClose] == 0
  {
  }

  lemma NotPrinted(x: Expr)
    ensures multiset(PrintBare(ENot(x))) == multiset{TNot} + multiset(Print(x, UnderNot))
  {
    hide Print;
  }

  lemma PairPrinted(op: BinOp, l: Expr, r: Expr)
    ensures multiset(PrintBare(EBin(op, l, r))) ==
      multiset(Print(l, UnderBin(op))) + multiset{OpToken(op)} + multiset(Print(r, UnderBin(op)))
  {
    hide Print, OpToken;
  }

  lemma ParensPrinted(e: Expr, prev: Prev)
    ensures var ts, bare := multiset(Print(e, prev)), multiset(PrintBare(e));
            var more := if prev == UnderNot && e.EBin? then 1
                        else if prev == UnderBin(AndOp) && e.EBin? && e.op == OrOp then 1 else 0;
            ts[TAnd] == bare[TAnd] && ts[TOr] == bare[TOr] &&
            ts[TOpen] == bare[TOpen] + more && ts[TClose] == bare[TClose] + more
  {
    hide PrintBare;
  }

  /** Each AND prints one && and each OR one ||, and parentheses stand only where
      the grammar needs them. */
  lemma TokensPrinted(e: Expr)
    ensures var ts := multiset(Print(e, Top));
            ts[TAnd] == Count(AndOp, e) && ts[TOr] == Count(OrOp, e) && ts[TOpen] == ts[TClose] == Nested(e)
  {
    BarePrinted(e);
  }

  lemma PairOfWords(op: BinOp, a: Sym, b: Sym)
    ensures PrintBare(EBin(op, ESym(a), ESym(b))) == [TWord(a), OpToken(op), TWord(b)]
  {
    assert Print(ESym(a), UnderBin(op)) == [TWord(a)] && Print(ESym(b), UnderBin(op)) == [TWord(b)];
  }

  /** AND binds tighter than OR, */
  lemma AndBeforeOr(a: Sym, b: Sym, c: Sym)
    ensures Parse([TWord(a), TOr, TWord(b), TAnd, TWord(c)]) == Some(EBin(OrOp, ESym(a), EBin(AndOp, ESym(b), ESym(c))))
    ensures Parse([TWord(a), TAnd, TWord(b), TOr, TWord(c)]) == Some(EBin(OrOp, EBin(AndOp, ESym(a), ESym(b)), ESym(c)))
  {
    hide Parse, PrintBare;
    var x, z := ESym(a), ESym(c);
    PairOfWords(AndOp, b, c);
    PairOfWords(AndOp, a, b);
    var bc, ab := EBin(AndOp, ESym(b), z), EBin(AndOp, x, ESym(b));
    PrintThenParse(EBin(OrOp, x, bc));
    PrintThenParse(EBin(OrOp, ab, z));
    OrPrinted(x, bc);
    OrPrinted(ab, z);
    WordPrinted(a);
    WordPrinted(c);
    assert [TWord(a)] + [TOr] + [TWord(b), TAnd, TWord(c)] == [TWord(a), TOr, TWord(b), TAnd, TWord(c)];
    assert [TWord(a), TAnd, TWord(b)] + [TOr] + [TWord(c)] == [TWord(a), TAnd, TWord(b), TOr, TWord(c)];
    assert LeftAssoc(bc) == bc && LeftAssoc(ab) == ab && LeftAssoc(x) == x && LeftAssoc(z) == z;
    assert LeftAssoc(EBin(OrOp, x, bc)) == EBin(OrOp, x, bc) && LeftAssoc(EBin(OrOp, ab, z)) == EBin(OrOp, ab, z);
  }

  lemma WordPrinted(a: Sym)
    ensures PrintBare(ESym(a)) == [TWord(a)]
  {
  }

  lemma OrPrinted(l: Expr, r: Expr)
    ensures Print(EBin(OrOp, l, r), Top) == PrintBare(l) + [TOr] + PrintBare(r)
  {
    assert Print(l, UnderBin(OrOp)) == PrintBare(l) && Print(r, UnderBin(OrOp)) == PrintBare(r);
  }

  /** and NOT tighter than both. */
  lemma NotBeforeBoth(op: BinOp, a: Sym, b: Sym)
    ensures Parse([TNot, TWord(a), OpToken(op), TWord(b)]) == Some(EBin(op, ENot(ESym(a)), ESym(b)))
  {
    hide Parse;
    var e := EBin(op, ENot(ESym(a)), ESym(b));
    PrintThenParse(e);
    assert Print(ESym(a), UnderNot) == [TWord(a)] && Print(ESym(b), UnderBin(op)) == [TWord(b)];
    assert Print(ENot(ESym(a)), UnderBin(op)) == [TNot, TWord(a)];
    assert Print(e, Top) == [TNot, TWord(a), OpToken(op), TWord(b)];
    assert LeftAssoc(ESym(a)) == ESym(a) && LeftAssoc(ENot(ESym(a))) == ENot(ESym(a)) && LeftAssoc(e) == e;
  }
}
