/** Slots of an expression tree: a slot is the path that leads to it from the
    root, through AND and OR nodes only. */
module Spines {
  import opened Exprs

  datatype Dir = L | R

  type Path = seq<Dir>

  /** The path descends through AND and OR nodes only. */
  predicate OnTree(t: Expr, p: Path) {
    p == [] || (t.EBin? && OnTree(if p[0].L? then t.left else t.right, p[1..]))
  }

  function At(t: Expr, p: Path): Expr
    requires OnTree(t, p)
  {
    if p == [] then t else At(if p[0].L? then t.left else t.right, p[1..])
  }

  function Put(t: Expr, p: Path, x: Expr): Expr
    requires OnTree(t, p)
  {
    if p == [] then x
    else if p[0].L? then EBin(t.op, Put(t.left, p[1..], x), t.right)
    else EBin(t.op, t.left, Put(t.right, p[1..], x))
  }

  predicate IsOp(op: BinOp, t: Expr) {
    t.EBin? && t.op == op
  }

  /** Every node strictly above the end of the path is an `op` node. */
  predicate OnSpine(op: BinOp, t: Expr, p: Path)
    ensures OnSpine(op, t, p) ==> OnTree(t, p)
  {
    p == [] || (IsOp(op, t) && OnSpine(op, if p[0].L? then t.left else t.right, p[1..]))
  }

  predicate SpineLeaf(op: BinOp, t: Expr, p: Path) {
    OnSpine(op, t, p) && !IsOp(op, At(t, p))
  }

  // ----- paths -----

  lemma {:induction false} AtConcat(t: Expr, p: Path, q: Path)
    requires OnTree(t, p)
    ensures OnTree(t, p + q) <==> OnTree(At(t, p), q)
    ensures OnTree(t, p + q) ==> At(t, p + q) == At(At(t, p), q)
    ensures forall x :: OnTree(t, p + q) ==> Put(t, p + q, x) == Put(t, p, Put(At(t, p), q, x))
  {
    if p == [] {
      assert p + q == q;
    } else {
      assert (p + q)[0] == p[0] && (p + q)[1..] == p[1..] + q;
      AtConcat(if p[0].L? then t.left else t.right, p[1..], q);
    }
  }

  lemma {:induction false} SpineConcat(op: BinOp, t: Expr, p: Path, q: Path)
    requires OnSpine(op, t, p)
    ensures OnSpine(op, t, p + q) <==> OnSpine(op, At(t, p), q)
    ensures OnSpine(op, t, p + q) ==> At(t, p + q) == At(At(t, p), q)
  {
    if p == [] {
      assert p + q == q;
    } else {
      assert (p + q)[0] == p[0] && (p + q)[1..] == p[1..] + q;
      SpineConcat(op, if p[0].L? then t.left else t.right, p[1..], q);
    }
  }

  lemma {:induction false} PutAt(t: Expr, p: Path, x: Expr)
    requires OnTree(t, p)
    ensures OnTree(Put(t, p, x), p) && At(Put(t, p, x), p) == x
    ensures Put(t, p, At(t, p)) == t
    ensures forall y :: Put(Put(t, p, x), p, y) == Put(t, p, y)
    ensures Size(Put(t, p, x)) == Size(t) - Size(At(t, p)) + Size(x)
    ensures Size(At(t, p)) <= Size(t) && (p != [] ==> Size(At(t, p)) < Size(t))
  {
    if p != [] {
      PutAt(if p[0].L? then t.left else t.right, p[1..], x);
    }
  }
}
