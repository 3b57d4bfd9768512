/** Sizes of finite sets, for termination measures. */
module Sets {
  lemma {:induction false} SubsetSize<T>(a: set<T>, b: set<T>)
    requires a <= b
    ensures |a| <= |b|
  {
    if a != {} {
      var x :| x in a;
      SubsetSize(a - {x}, b - {x});
    }
  }

  lemma Fewer<T>(all: set<T>, before: set<T>, after: set<T>)
    requires before <= after
    ensures |all - after| <= |all - before|
  {
    SubsetSize(all - after, all - before);
  }

  lemma FewerBy<T>(all: set<T>, before: set<T>, after: set<T>, s: T)
    requires before <= after && s in all && s !in before && s in after
    ensures |all - after| < |all - before|
  {
    SubsetSize(all - after, all - before - {s});
  }
}
