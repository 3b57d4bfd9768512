/** Menu nodes linked by list, next and parent pointers, and the forests of
    trees that such links stand for. */
module MenuTrees {
  import opened Tristates

  type Ptr = Option<nat>

  /** A menu node and its children. */
  datatype Tree = Node(id: nat, kids: seq<Tree>)

  datatype Links = Links(list: seq<Ptr>, next: seq<Ptr>, parent: seq<Ptr>) {
    predicate Has(n: nat) {
      n < |list| && n < |next| && n < |parent|
    }
  }

  /** The nodes of a forest in depth-first order. */
  function Preorder(f: seq<Tree>): seq<nat>
    decreases f
  {
    if f == [] then [] else [f[0].id] + Preorder(f[0].kids) + Preorder(f[1..])
  }

  function Nodes(f: seq<Tree>): set<nat> {
    set n | n in Preorder(f)
  }

  function Count(f: seq<Tree>): nat {
    |Preorder(f)|
  }

  ghost predicate Unique(s: seq<nat>) {
    forall i, j :: 0 <= i < j < |s| ==> s[i] != s[j]
  }

  /** From `first` on, the next pointers run through the trees of the forest to
      `end`; all have the parent `par`, and their lists hold their children. */
  ghost predicate Seg(l: Links, first: Ptr, end: Ptr, par: Ptr, f: seq<Tree>)
    decreases f
  {
    if f == [] then first == end
    else
      var id := f[0].id;
      && first == Some(id) && l.Has(id) && l.parent[id] == par
      && Seg(l, l.list[id], None, Some(id), f[0].kids)
      && Seg(l, l.next[id], end, par, f[1..])
  }

  /** The links of these nodes are the same. */
  ghost predicate SameAt(l: Links, l': Links, ns: set<nat>) {
    forall n :: n in ns ==>
        (l.Has(n) ==> l'.Has(n) && l.list[n] == l'.list[n] && l.next[n] == l'.next[n] && l.parent[n] == l'.parent[n])
  }

  lemma NodesSplit(f: seq<Tree>)
    requires f != []
    ensures Nodes(f) == {f[0].id} + Nodes(f[0].kids) + Nodes(f[1..])
  {
  }

  lemma {:induction false} SegFrame(l: Links, l': Links, first: Ptr, end: Ptr, par: Ptr, f: seq<Tree>)
    requires Seg(l, first, end, par, f) && SameAt(l, l', Nodes(f))
    ensures Seg(l', first, end, par, f)
    decreases f
  {
    if f != [] {
      NodesSplit(f);
      assert f[0].id in Nodes(f);
      SegFrame(l, l', l.list[f[0].id], None, Some(f[0].id), f[0].kids);
      SegFrame(l, l', l.next[f[0].id], end, par, f[1..]);
    }
  }

  lemma {:induction false} PreorderConcat(f: seq<Tree>, g: seq<Tree>)
    ensures Preorder(f + g) == Preorder(f) + Preorder(g)
    decreases |f|
  {
    if f == [] {
      assert f + g == g;
    } else {
      assert (f + g)[1..] == f[1..] + g;
      PreorderConcat(f[1..], g);
    }
  }

  function Head(f: seq<Tree>, end: Ptr): Ptr {
    if f == [] then end else Some(f[0].id)
  }

  lemma SegHead(l: Links, first: Ptr, end: Ptr, par: Ptr, f: seq<Tree>)
    requires Seg(l, first, end, par, f)
    ensures first == Head(f, end)
  {
  }

  lemma {:induction false} SegJoin(l: Links, first: Ptr, mid: Ptr, end: Ptr, par: Ptr, f: seq<Tree>, g: seq<Tree>)
    requires Seg(l, first, mid, par, f) && Seg(l, mid, end, par, g)
    ensures Seg(l, first, end, par, f + g)
    decreases |f|
  {
    if f == [] {
      assert f + g == g;
    } else {
      assert (f + g)[1..] == f[1..] + g;
      SegJoin(l, l.next[f[0].id], mid, end, par, f[1..], g);
    }
  }

  lemma {:induction false} SegSplit(l: Links, first: Ptr, end: Ptr, par: Ptr, f: seq<Tree>, g: seq<Tree>)
    requires Seg(l, first, end, par, f + g)
    ensures Seg(l, first, Head(g, end), par, f) && Seg(l, Head(g, end), end, par, g)
    decreases |f|
  {
    if f == [] {
      assert f + g == g;
      SegHead(l, first, end, par, g);
    } else {
      assert (f + g)[1..] == f[1..] + g;
      SegSplit(l, l.next[f[0].id], end, par, f[1..], g);
    }
  }

  // ----- distinct nodes -----

  lemma UniqueParts(a: seq<nat>, b: seq<nat>)
    ensures Unique(a + b) <==> Unique(a) && Unique(b) && forall x :: x in a ==> x !in b
  {
    var s := a + b;
    if Unique(s) {
      forall i, j | 0 <= i < j < |a|
        ensures a[i] != a[j]
      {
        assert s[i] == a[i] && s[j] == a[j];
      }
      forall i, j | 0 <= i < j < |b|
        ensures b[i] != b[j]
      {
        assert s[|a| + i] == b[i] && s[|a| + j] == b[j];
      }
      forall i, j | 0 <= i < |a| && 0 <= j < |b|
        ensures a[i] != b[j]
      {
        assert s[i] == a[i] && s[|a| + j] == b[j];
      }
    }
    if Unique(a) && Unique(b) && forall x :: x in a ==> x !in b {
      forall i, j | 0 <= i < j < |s|
        ensures s[i] != s[j]
      {
        if j < |a| {
          assert s[i] == a[i] && s[j] == a[j];
        } else if i >= |a| {
          assert s[i] == b[i - |a|] && s[j] == b[j - |a|];
        } else {
          assert s[i] == a[i] && a[i] in a && s[j] == b[j - |a|];
        }
      }
    }
  }

  /** The first tree, its children and the other trees have no node in common. */
  lemma UniqueForest(f: seq<Tree>)
    requires Unique(Preorder(f)) && f != []
    ensures Unique(Preorder(f[0].kids)) && Unique(Preorder(f[1..]))
    ensures f[0].id !in Nodes(f[0].kids) && f[0].id !in Nodes(f[1..]) && Nodes(f[0].kids) !! Nodes(f[1..])
  {
    var a, b, c := [f[0].id], Preorder(f[0].kids), Preorder(f[1..]);
    assert Preorder(f) == a + b + c;
    UniqueParts(a + b, c);
    UniqueParts(a, b);
    assert f[0].id in a && f[0].id in a + b;
    forall x | x in b
      ensures x !in c
    {
      assert x in a + b;
    }
  }

  // ----- changing links -----

  function WithNext(l: Links, n: nat, p: Ptr): Links
    requires l.Has(n)
  {
    l.(next := l.next[n := p])
  }

  function WithParent(l: Links, n: nat, p: Ptr): Links
    requires l.Has(n)
  {
    l.(parent := l.parent[n := p])
  }

  function WithList(l: Links, n: nat, p: Ptr): Links
    requires l.Has(n)
  {
    l.(list := l.list[n := p])
  }

  lemma SameElsewhere(l: Links, n: nat, p: Ptr, ns: set<nat>)
    requires l.Has(n) && n !in ns
    ensures SameAt(l, WithNext(l, n, p), ns) && SameAt(l, WithParent(l, n, p), ns) && SameAt(l, WithList(l, n, p), ns)
  {
  }

  /** A new end behind the last tree. */
  lemma {:induction false} SegNewEnd(l: Links, first: Ptr, end: Ptr, par: Ptr, f: seq<Tree>, end': Ptr)
    requires Seg(l, first, end, par, f) && f != [] && Unique(Preorder(f))
    ensures l.Has(f[|f| - 1].id) && f[|f| - 1].id in Nodes(f)
    ensures Seg(WithNext(l, f[|f| - 1].id, end'), first, end', par, f)
    decreases |f|
  {
    hide SameAt, Preorder;
    var id, last := f[0].id, f[|f| - 1].id;
    SegLast(l, first, end, par, f);
    UniqueForest(f);
    NodesSplit(f);
    var l' := WithNext(l, last, end');
    if |f| == 1 {
      SameElsewhere(l, id, end', Nodes(f[0].kids));
    } else {
      SegNewEnd(l, l.next[id], end, par, f[1..], end');
      assert f[1..][|f| - 2] == f[|f| - 1];
      SameElsewhere(l, last, end', Nodes(f[0].kids));
    }
    SegFrame(l, l', l.list[id], None, Some(id), f[0].kids);
  }

  /** The end pointer stands behind the last tree. */
  lemma {:induction false} SegLast(l: Links, first: Ptr, end: Ptr, par: Ptr, f: seq<Tree>)
    requires Seg(l, first, end, par, f) && f != []
    ensures l.Has(f[|f| - 1].id) && l.next[f[|f| - 1].id] == end && f[|f| - 1].id in Nodes(f)
    decreases |f|
  {
    NodesSplit(f);
    if |f| > 1 {
      SegLast(l, l.next[f[0].id], end, par, f[1..]);
      assert f[1..][|f| - 2] == f[|f| - 1];
    }
  }

  /** One tree in front. */
  lemma SegCons(l: Links, first: Ptr, end: Ptr, par: Ptr, t: Tree, f: seq<Tree>)
    requires first == Some(t.id) && l.Has(t.id) && l.parent[t.id] == par
    requires Seg(l, l.list[t.id], None, Some(t.id), t.kids) && Seg(l, l.next[t.id], end, par, f)
    ensures Seg(l, first, end, par, [t] + f)
  {
    assert ([t] + f)[1..] == f;
  }

  lemma SegUncons(l: Links, first: Ptr, end: Ptr, par: Ptr, f: seq<Tree>)
    requires Seg(l, first, end, par, f) && f != []
    ensures var id := f[0].id;
            first == Some(id) && l.Has(id) && l.parent[id] == par &&
            Seg(l, l.list[id], None, Some(id), f[0].kids) && Seg(l, l.next[id], end, par, f[1..])
  {
  }

  // ----- prompts -----

  /** Every node below the top level that has children has a prompt. */
  ghost predicate Prompted(prompts: set<nat>, f: seq<Tree>)
    decreases f
  {
    f == [] || ((f[0].kids != [] ==> f[0].id in prompts) && Prompted(prompts, f[0].kids) && Prompted(prompts, f[1..]))
  }

  lemma {:induction false} PromptedConcat(prompts: set<nat>, f: seq<Tree>, g: seq<Tree>)
    ensures Prompted(prompts, f + g) <==> Prompted(prompts, f) && Prompted(prompts, g)
    decreases |f|
  {
    if f == [] {
      assert f + g == g;
    } else {
      assert (f + g)[1..] == f[1..] + g;
      PromptedConcat(prompts, f[1..], g);
    }
  }

  /** The same for the children only: the trees themselves may still be flattened. */
  ghost predicate PromptedBelow(prompts: set<nat>, f: seq<Tree>) {
    forall t :: t in f ==> Prompted(prompts, t.kids)
  }

  // ----- flattening -----

  /** Every node without prompt hands its children to its own parent: they
      follow it as siblings, and are looked at in turn. */
  function Flat(prompts: set<nat>, f: seq<Tree>): seq<Tree>
    decreases Count(f)
  {
    if f == [] then []
    else if f[0].kids != [] && f[0].id !in prompts then
      PreorderConcat(f[0].kids, f[1..]);
      [Node(f[0].id, [])] + Flat(prompts, f[0].kids + f[1..])
    else [f[0]] + Flat(prompts, f[1..])
  }

  lemma {:induction false} FlatPreorder(prompts: set<nat>, f: seq<Tree>)
    ensures Preorder(Flat(prompts, f)) == Preorder(f)
    decreases Count(f)
  {
    if f != [] {
      PreorderConcat(f[0].kids, f[1..]);
      if f[0].kids != [] && f[0].id !in prompts {
        FlatPreorder(prompts, f[0].kids + f[1..]);
        ConsPreorder(Node(f[0].id, []), Flat(prompts, f[0].kids + f[1..]));
      } else {
        FlatPreorder(prompts, f[1..]);
        ConsPreorder(f[0], Flat(prompts, f[1..]));
      }
    }
  }

  lemma ConsPreorder(t: Tree, f: seq<Tree>)
    ensures Preorder([t] + f) == [t.id] + Preorder(t.kids) + Preorder(f)
  {
    assert ([t] + f)[1..] == f;
  }

  lemma {:induction false} FlatPrompted(prompts: set<nat>, f: seq<Tree>)
    requires PromptedBelow(prompts, f)
    ensures Prompted(prompts, Flat(prompts, f))
    decreases Count(f)
  {
    if f != [] {
      PreorderConcat(f[0].kids, f[1..]);
      if f[0].kids != [] && f[0].id !in prompts {
        PromptedKids(prompts, f[0].kids);
        FlatPrompted(prompts, f[0].kids + f[1..]);
      } else {
        FlatPrompted(prompts, f[1..]);
      }
    }
  }

  lemma {:induction false} PromptedKids(prompts: set<nat>, f: seq<Tree>)
    requires Prompted(prompts, f)
    ensures PromptedBelow(prompts, f)
    decreases |f|
  {
    if f != [] {
      PromptedKids(prompts, f[1..]);
      assert f == [f[0]] + f[1..];
    }
  }

  /** One child gets a new parent. */
  lemma ReparentStep(l: Links, first: Ptr, m: nat, p: nat, a: seq<Tree>, b: seq<Tree>)
    requires b != [] && Unique(Preorder(a) + Preorder(b))
    requires Seg(l, first, Some(b[0].id), Some(p), a) && Seg(l, Some(b[0].id), None, Some(m), b)
    ensures l.Has(b[0].id)
    ensures var l' := WithParent(l, b[0].id, Some(p));
            Seg(l', first, l.next[b[0].id], Some(p), a + [b[0]]) && Seg(l', l.next[b[0].id], None, Some(m), b[1..]) &&
            Unique(Preorder(a + [b[0]]) + Preorder(b[1..]))
  {
    hide SameAt;
    var id := b[0].id;
    UniqueParts(Preorder(a), Preorder(b));
    UniqueForest(b);
    SegUncons(l, Some(id), None, Some(m), b);
    var l' := WithParent(l, id, Some(p));
    NodesSplit(b);
    assert id in Preorder(b);
    SameElsewhere(l, id, Some(p), Nodes(a));
    SameElsewhere(l, id, Some(p), Nodes(b[0].kids));
    SameElsewhere(l, id, Some(p), Nodes(b[1..]));
    SegFrame(l, l', first, Some(id), Some(p), a);
    SegFrame(l, l', l.list[id], None, Some(id), b[0].kids);
    SegFrame(l, l', l.next[id], None, Some(m), b[1..]);
    SegCons(l', Some(id), l.next[id], Some(p), b[0], []);
    assert [b[0]] + [] == [b[0]];
    SegJoin(l', first, Some(id), l.next[id], Some(p), a, [b[0]]);
    PreorderMoves(a, b);
  }

  lemma PreorderMoves(a: seq<Tree>, b: seq<Tree>)
    requires b != []
    ensures Preorder(a + [b[0]]) + Preorder(b[1..]) == Preorder(a) + Preorder(b)
  {
    hide Preorder;
    PreorderConcat(a, b);
    PreorderConcat(a + [b[0]], b[1..]);
    assert (a + [b[0]]) + b[1..] == a + b;
  }

  /** The links after the children of m, which end at `last`, are put between m
      and its successor. */
  function Splice(l: Links, m: nat, last: nat): Links
    requires l.Has(m) && l.Has(last)
  {
    var l1 := WithNext(l, last, l.next[m]);
    var l2 := WithNext(l1, m, l1.list[m]);
    WithList(l2, m, None)
  }

  lemma SpliceStep(l: Links, first: Ptr, m: nat, p: nat, done: seq<Tree>, kids: seq<Tree>, rest: seq<Tree>)
    requires kids != [] && l.Has(m) && l.parent[m] == Some(p)
    requires Seg(l, first, Some(m), Some(p), done) && Seg(l, l.list[m], None, Some(p), kids)
    requires Seg(l, l.next[m], None, Some(p), rest)
    requires Unique(Preorder(done) + ([m] + Preorder(kids) + Preorder(rest)))
    ensures var last := kids[|kids| - 1].id;
            l.Has(last) && last in Nodes(kids) &&
            Seg(Splice(l, m, last), first, Some(m), Some(p), done) &&
            Seg(Splice(l, m, last), Some(m), None, Some(p), [Node(m, [])] + (kids + rest))
  {
    hide SameAt, Seg;
    var last := kids[|kids| - 1].id;
    SegLast(l, l.list[m], None, Some(p), kids);
    var l1 := WithNext(l, last, l.next[m]);
    var l2 := WithNext(l1, m, l1.list[m]);
    var l3 := WithList(l2, m, None);
    SplitNodes(done, m, kids, rest);
    SegNewEnd(l, l.list[m], None, Some(p), kids, l.next[m]);
    SameElsewhere(l, last, l.next[m], Nodes(done));
    SameElsewhere(l, last, l.next[m], Nodes(rest));
    SegFrame(l, l1, first, Some(m), Some(p), done);
    SegFrame(l, l1, l.next[m], None, Some(p), rest);
    SegJoin(l1, l.list[m], l.next[m], None, Some(p), kids, rest);
    PreorderConcat(kids, rest);
    SameElsewhere(l1, m, l1.list[m], Nodes(done));
    SameElsewhere(l1, m, l1.list[m], Nodes(kids + rest));
    SegFrame(l1, l2, first, Some(m), Some(p), done);
    SegFrame(l1, l2, l.list[m], None, Some(p), kids + rest);
    SameElsewhere(l2, m, None, Nodes(done));
    SameElsewhere(l2, m, None, Nodes(kids + rest));
    SegFrame(l2, l3, first, Some(m), Some(p), done);
    SegFrame(l2, l3, l.list[m], None, Some(p), kids + rest);
    SegEmpty(l3, Some(m));
    SegCons(l3, Some(m), None, Some(p), Node(m, []), kids + rest);
  }

  lemma SegEmpty(l: Links, par: Ptr)
    ensures Seg(l, None, None, par, [])
  {
  }

  lemma SplitNodes(done: seq<Tree>, m: nat, kids: seq<Tree>, rest: seq<Tree>)
    requires Unique(Preorder(done) + ([m] + Preorder(kids) + Preorder(rest)))
    ensures m !in Nodes(done) && m !in Nodes(kids) && m !in Nodes(rest) && m !in Nodes(kids + rest)
    ensures Nodes(kids) !! Nodes(done) && Nodes(kids) !! Nodes(rest) && Unique(Preorder(kids))
  {
    hide Preorder;
    var a, b, c := Preorder(done), Preorder(kids), Preorder(rest);
    UniqueParts(a, [m] + b + c);
    UniqueParts([m] + b, c);
    UniqueParts([m], b);
    PreorderConcat(kids, rest);
    assert m in [m] && m in [m] + b && m in [m] + b + c;
    forall x | x in b
      ensures x !in a && x !in c
    {
      assert x in [m] + b && x in [m] + b + c;
    }
  }

  /** One more tree of a level is done. */
  lemma StepOver(l: Links, first: Ptr, m: nat, end: Ptr, p: nat, done: seq<Tree>, t: Tree, rest: seq<Tree>)
    requires Seg(l, first, Some(m), Some(p), done) && Seg(l, Some(m), end, Some(p), [t] + rest)
    ensures t.id == m && l.Has(m) && Seg(l, first, l.next[m], Some(p), done + [t])
    ensures Seg(l, l.next[m], end, Some(p), rest)
  {
    hide Preorder;
    SegUncons(l, Some(m), end, Some(p), [t] + rest);
    assert ([t] + rest)[1..] == rest && [t] + [] == [t];
    SegCons(l, Some(m), l.next[m], Some(p), t, []);
    SegJoin(l, first, Some(m), l.next[m], Some(p), done, [t]);
  }

  // ----- what changed -----

  /** Only the links of the nodes in `ns` changed. */
  ghost predicate SameBut(l: Links, l': Links, ns: set<nat>) {
    && |l.list| == |l'.list| && |l.next| == |l'.next| && |l.parent| == |l'.parent|
    && forall n: nat :: l.Has(n) && n !in ns ==>
        l.list[n] == l'.list[n] && l.next[n] == l'.next[n] && l.parent[n] == l'.parent[n]
  }

  lemma SameButTrans(l: Links, m: Links, l': Links, ns: set<nat>, ns': set<nat>)
    requires SameBut(l, m, ns) && SameBut(m, l', ns')
    ensures SameBut(l, l', ns + ns')
  {
  }

  lemma SameButMore(l: Links, l': Links, ns: set<nat>, ns': set<nat>)
    requires SameBut(l, l', ns) && ns <= ns'
    ensures SameBut(l, l', ns')
  {
  }

  lemma SameButFrame(l: Links, l': Links, ns: set<nat>, first: Ptr, end: Ptr, par: Ptr, f: seq<Tree>)
    requires SameBut(l, l', ns) && Seg(l, first, end, par, f) && Nodes(f) !! ns
    ensures Seg(l', first, end, par, f)
  {
    SegFrame(l, l', first, end, par, f);
  }

  // ----- one call of menu_finalize -----

  /** Node p has the children `kids` and the following siblings `fs`. */
  ghost predicate Placed(l: Links, p: nat, par: Ptr, kids: seq<Tree>, fs: seq<Tree>) {
    && l.Has(p) && Seg(l, l.list[p], None, Some(p), kids) && Seg(l, l.next[p], None, par, fs)
    && Unique([p] + Preorder(kids) + Preorder(fs))
  }

  /** The call has put the first k following siblings, finalised, below p; the
      depth-first order is the same, and no child is left without a prompt
      that has children of its own. */
  ghost predicate Finalised(l: Links, l': Links, prompts: set<nat>, p: nat, par: Ptr, kids: seq<Tree>, fs: seq<Tree>,
      kids': seq<Tree>, k: nat)
  {
    && k <= |fs| && Placed(l', p, par, kids', fs[k..]) && Preorder(kids') == Preorder(kids) + Preorder(fs[..k])
    && Prompted(prompts, kids') && l.Has(p) && l'.parent[p] == l.parent[p]
    && SameBut(l, l', {p} + Nodes(kids) + Nodes(fs[..k]))
  }

  lemma PlacedParts(p: nat, kids: seq<Tree>, fs: seq<Tree>)
    requires Unique([p] + Preorder(kids) + Preorder(fs))
    ensures p !in Nodes(kids) && p !in Nodes(fs) && Nodes(kids) !! Nodes(fs) && Unique(Preorder(kids))
    ensures Unique(Preorder(fs))
  {
    hide Preorder;
    var b, c := Preorder(kids), Preorder(fs);
    UniqueParts([p] + b, c);
    UniqueParts([p], b);
    assert p in [p] && p in [p] + b;
    forall x | x in b
      ensures x !in c
    {
      assert x in [p] + b;
    }
  }

  lemma NodesConcat(f: seq<Tree>, g: seq<Tree>)
    ensures Nodes(f + g) == Nodes(f) + Nodes(g)
  {
    hide Preorder;
    PreorderConcat(f, g);
  }

  /** The first k trees and the others. */
  lemma TakeDrop(f: seq<Tree>, k: nat)
    requires k <= |f|
    ensures Preorder(f) == Preorder(f[..k]) + Preorder(f[k..]) && Nodes(f) == Nodes(f[..k]) + Nodes(f[k..])
  {
    hide Preorder;
    assert f[..k] + f[k..] == f;
    PreorderConcat(f[..k], f[k..]);
    NodesConcat(f[..k], f[k..]);
  }

  // ----- the loop over the children -----

  /** The children before `menu` are finalised; those from `menu` on are not. */
  ghost predicate ChildLoop(l0: Links, l: Links, prompts: set<nat>, p: nat, par: Ptr, kids: seq<Tree>, fs: seq<Tree>,
      done: seq<Tree>, menu: Ptr, i: nat)
  {
    && l.Has(p) && i <= |kids|
    && Seg(l, l.list[p], menu, Some(p), done) && Seg(l, menu, None, Some(p), kids[i..]) &&
        Seg(l, l.next[p], None, par, fs)
    && Preorder(done) == Preorder(kids[..i]) && PromptedBelow(prompts, done)
    && l0.Has(p) && l.parent[p] == l0.parent[p] && SameBut(l0, l, Nodes(kids))
    && Unique([p] + Preorder(kids) + Preorder(fs))
  }

  lemma ChildStart(l: Links, prompts: set<nat>, p: nat, par: Ptr, kids: seq<Tree>, fs: seq<Tree>)
    requires Placed(l, p, par, kids, fs)
    ensures ChildLoop(l, l, prompts, p, par, kids, fs, [], l.list[p], 0)
  {
    assert kids[0..] == kids;
  }

  lemma ChildPlaced(l0: Links, l: Links, prompts: set<nat>, p: nat, par: Ptr, kids: seq<Tree>, fs: seq<Tree>,
      done: seq<Tree>, m: nat, i: nat)
    requires ChildLoop(l0, l, prompts, p, par, kids, fs, done, Some(m), i)
    ensures i < |kids| && kids[i].id == m && Placed(l, m, Some(p), kids[i].kids, kids[i + 1..])
    ensures Count(kids[i].kids) + Count(kids[i + 1..]) < Count(kids)
  {
    hide PromptedBelow, SameBut;
    PlacedParts(p, kids, fs);
    TakeDrop(kids, i);
    UniqueParts(Preorder(kids[..i]), Preorder(kids[i..]));
    SegHead(l, Some(m), None, Some(p), kids[i..]);
    SegUncons(l, Some(m), None, Some(p), kids[i..]);
    assert kids[i..][1..] == kids[i + 1..] && kids[i..][0] == kids[i];
  }

  /** One more child is finalised, together with the k siblings it took. */
  lemma ChildDone(l0: Links, l: Links, l': Links, prompts: set<nat>, p: nat, par: Ptr, kids: seq<Tree>, fs: seq<Tree>,
      done: seq<Tree>, m: nat, i: nat, kids': seq<Tree>, k: nat)
    requires ChildLoop(l0, l, prompts, p, par, kids, fs, done, Some(m), i)
    requires i < |kids| && kids[i].id == m
    requires Finalised(l, l', prompts, m, Some(p), kids[i].kids, kids[i + 1..], kids', k)
    ensures l'.Has(m) && ChildLoop(l0, l', prompts, p, par, kids, fs, done + [Node(m, kids')], l'.next[m], i + 1 + k)
  {
    hide Preorder, Seg, Unique, Prompted;
    var j := i + 1 + k;
    assert kids[i + 1..][k..] == kids[j..] && kids[i + 1..][..k] == kids[i + 1..j];
    var moved := {m} + Nodes(kids[i].kids) + Nodes(kids[i + 1..j]);
    ChildNodes(p, kids, fs, i, j);
    ChildFrame(l, l', moved, p, par, kids, fs, done, m, i);
    assert l.parent[m] == Some(p) by {
      SegUncons(l, Some(m), None, Some(p), kids[i..]);
    }
    var t := Node(m, kids');
    SegUnit(l', m, Some(p), kids');
    SegJoin(l', l'.list[p], Some(m), l'.next[m], Some(p), done, [t]);
    ChildOrder(done, t, kids, i, k, kids');
    SameButMore(l, l', moved, Nodes(kids));
    SameButTrans(l0, l, l', Nodes(kids), Nodes(kids));
  }

  lemma ChildEnd(l0: Links, l: Links, prompts: set<nat>, p: nat, par: Ptr, kids: seq<Tree>, fs: seq<Tree>,
      done: seq<Tree>, i: nat)
    requires ChildLoop(l0, l, prompts, p, par, kids, fs, done, None, i)
    ensures i == |kids| && Placed(l, p, par, done, fs) && Preorder(done) == Preorder(kids)
    ensures PromptedBelow(prompts, done)
    ensures l.parent[p] == l0.parent[p] && SameBut(l0, l, {p} + Nodes(kids) + Nodes(fs[..0]))
  {
    SegHead(l, None, None, Some(p), kids[i..]);
    assert kids[..i] == kids;
    SameButMore(l0, l, Nodes(kids), {p} + Nodes(kids) + Nodes(fs[..0]));
  }

  lemma SegUnit(l: Links, m: nat, par: Ptr, kids: seq<Tree>)
    requires l.Has(m) && l.parent[m] == par && Seg(l, l.list[m], None, Some(m), kids)
    ensures Seg(l, Some(m), l.next[m], par, [Node(m, kids)])
  {
    SegCons(l, Some(m), l.next[m], par, Node(m, kids), []);
    assert [Node(m, kids)] + [] == [Node(m, kids)];
  }

  lemma ChildNodes(p: nat, kids: seq<Tree>, fs: seq<Tree>, i: nat, j: nat)
    requires Unique([p] + Preorder(kids) + Preorder(fs)) && i < j <= |kids|
    ensures var moved := {kids[i].id} + Nodes(kids[i].kids) + Nodes(kids[i + 1..j]);
            moved <= Nodes(kids) && moved !! Nodes(kids[..i]) && moved !! Nodes(kids[j..]) && moved !! Nodes(fs) &&
                p !in moved
    ensures Nodes(kids[..i]) !! Nodes(kids[i..]) && p !in Nodes(kids)
  {
    hide Preorder, Unique, Nodes;
    PlacedParts(p, kids, fs);
    TakeDrop(kids, i);
    SplitUnique(kids, i);
    UniqueForest(kids[i..]);
    NodesSplit(kids[i..]);
    assert kids[i..][0] == kids[i] && kids[i..][1..] == kids[i + 1..];
    assert kids[i + 1..][..j - i - 1] == kids[i + 1..j] && kids[i + 1..][j - i - 1..] == kids[j..];
    TakeDrop(kids[i + 1..], j - i - 1);
    SplitUnique(kids[i + 1..], j - i - 1);
  }

  lemma SplitUnique(f: seq<Tree>, i: nat)
    requires i <= |f| && Unique(Preorder(f))
    ensures Unique(Preorder(f[..i])) && Unique(Preorder(f[i..])) && Nodes(f[..i]) !! Nodes(f[i..])
  {
    hide Preorder;
    TakeDrop(f, i);
    UniqueParts(Preorder(f[..i]), Preorder(f[i..]));
  }

  lemma ChildFrame(l: Links, l': Links, moved: set<nat>, p: nat, par: Ptr, kids: seq<Tree>, fs: seq<Tree>,
      done: seq<Tree>, m: nat, i: nat)
    requires i <= |kids| && Preorder(done) == Preorder(kids[..i])
    requires SameBut(l, l', moved) && l.Has(p) && p !in moved && moved !! Nodes(fs) && moved !! Nodes(kids[..i])
    requires Seg(l, l.list[p], Some(m), Some(p), done) && Seg(l, l.next[p], None, par, fs)
    ensures l'.Has(p) && l'.list[p] == l.list[p] && l'.next[p] == l.next[p] && l'.parent[p] == l.parent[p]
    ensures Seg(l', l'.list[p], Some(m), Some(p), done) && Seg(l', l'.next[p], None, par, fs)
  {
    hide Preorder, Seg;
    SameButFrame(l, l', moved, l.list[p], Some(m), Some(p), done);
    SameButFrame(l, l', moved, l.next[p], None, par, fs);
  }

  lemma ChildOrder(done: seq<Tree>, t: Tree, kids: seq<Tree>, i: nat, k: nat, kids': seq<Tree>)
    requires i + 1 + k <= |kids| && t == Node(kids[i].id, kids') && Preorder(done) == Preorder(kids[..i])
    requires Preorder(kids') == Preorder(kids[i].kids) + Preorder(kids[i + 1..i + 1 + k])
    ensures Preorder(done + [t]) == Preorder(kids[..i + 1 + k])
  {
    hide Preorder;
    var j := i + 1 + k;
    PreorderConcat(done, [t]);
    PreorderUnit(t);
    assert kids[..j] == kids[..i] + kids[i..j];
    PreorderConcat(kids[..i], kids[i..j]);
    PreorderFirst(kids[i..j]);
    assert kids[i..j][0] == kids[i] && kids[i..j][1..] == kids[i + 1..j];
  }

  lemma PreorderUnit(t: Tree)
    ensures Preorder([t]) == [t.id] + Preorder(t.kids)
  {
  }

  lemma PreorderNone()
    ensures Preorder([]) == []
  {
  }

  lemma PreorderFirst(f: seq<Tree>)
    requires f != []
    ensures Preorder(f) == [f[0].id] + (Preorder(f[0].kids) + Preorder(f[1..]))
  {
  }

  // ----- the loop that flattens -----

  /** The children before `menu` are in place; `rest` is still to be looked at. */
  ghost predicate FlatLoop(l0: Links, l: Links, prompts: set<nat>, p: nat, par: Ptr, f: seq<Tree>, fs: seq<Tree>,
      done: seq<Tree>, menu: Ptr, rest: seq<Tree>)
  {
    && l0.Has(p) && l.Has(p) && l.parent[p] == l0.parent[p] && SameBut(l0, l, {p} + Nodes(f))
    && Seg(l, l.list[p], menu, Some(p), done) && Seg(l, menu, None, Some(p), rest) && Seg(l, l.next[p], None, par, fs)
    && done + Flat(prompts, rest) == Flat(prompts, f) && Preorder(done) + Preorder(rest) == Preorder(f)
    && Unique([p] + Preorder(f) + Preorder(fs))
  }

  lemma FlatStart(l: Links, prompts: set<nat>, p: nat, par: Ptr, f: seq<Tree>, fs: seq<Tree>)
    requires Placed(l, p, par, f, fs)
    ensures FlatLoop(l, l, prompts, p, par, f, fs, [], l.list[p], f)
  {
  }

  lemma FlatEnd(l0: Links, l: Links, prompts: set<nat>, p: nat, par: Ptr, f: seq<Tree>, fs: seq<Tree>, done: seq<Tree>,
      rest: seq<Tree>)
    requires FlatLoop(l0, l, prompts, p, par, f, fs, done, None, rest) && PromptedBelow(prompts, f)
    ensures Placed(l, p, par, done, fs) && Preorder(done) == Preorder(f) && Prompted(prompts, done)
    ensures done == Flat(prompts, f) && l.parent[p] == l0.parent[p] && SameBut(l0, l, {p} + Nodes(f))
  {
    SegHead(l, None, None, Some(p), rest);
    FlatPrompted(prompts, f);
    FlatPreorder(prompts, f);
    assert done == Flat(prompts, f);
  }

  /** What the loop sees of the node that it is at. */
  lemma FlatAt(l0: Links, l: Links, prompts: set<nat>, p: nat, par: Ptr, f: seq<Tree>, fs: seq<Tree>, done: seq<Tree>,
      m: nat, rest: seq<Tree>)
    requires FlatLoop(l0, l, prompts, p, par, f, fs, done, Some(m), rest)
    ensures rest != [] && rest[0].id == m && l.Has(m) && l.parent[m] == Some(p)
    ensures Seg(l, l.list[m], None, Some(m), rest[0].kids) && Seg(l, l.next[m], None, Some(p), rest[1..])
    ensures l.list[m].None? <==> rest[0].kids == []
    ensures Unique(Preorder(done) + ([m] + Preorder(rest[0].kids) + Preorder(rest[1..])))
    ensures Nodes(rest) <= Nodes(f) && Nodes(done) <= Nodes(f) && Nodes(f) !! Nodes(fs) && p !in Nodes(f)
    ensures Unique(Preorder(rest[0].kids)) && m in Nodes(rest)
  {
    hide SameBut;
    SegHead(l, Some(m), None, Some(p), rest);
    SegUncons(l, Some(m), None, Some(p), rest);
    SegHead(l, l.list[m], None, Some(m), rest[0].kids);
    PlacedParts(p, f, fs);
    UniqueParts(Preorder(done), Preorder(rest));
    UniqueForest(rest);
    FlatNodes(done, rest, f);
  }

  lemma FlatNodes(done: seq<Tree>, rest: seq<Tree>, f: seq<Tree>)
    requires Preorder(done) + Preorder(rest) == Preorder(f)
    ensures Nodes(rest) <= Nodes(f) && Nodes(done) <= Nodes(f)
  {
    hide Preorder;
    forall n | n in Preorder(done) || n in Preorder(rest)
      ensures n in Preorder(f)
    {
      assert n in Preorder(done) + Preorder(rest);
    }
  }

  lemma FlatUnfold(prompts: set<nat>, f: seq<Tree>)
    requires f != []
    ensures f[0].kids == [] || f[0].id in prompts ==> Flat(prompts, f) == [f[0]] + Flat(prompts, f[1..])
    ensures f[0].kids != [] && f[0].id !in prompts ==>
        Flat(prompts, f) == [Node(f[0].id, [])] + Flat(prompts, f[0].kids + f[1..])
  {
  }

  lemma FlatSkip(l0: Links, l: Links, prompts: set<nat>, p: nat, par: Ptr, f: seq<Tree>, fs: seq<Tree>,
      done: seq<Tree>, m: nat, rest: seq<Tree>)
    requires FlatLoop(l0, l, prompts, p, par, f, fs, done, Some(m), rest) && rest != [] && rest[0].id == m
    requires rest[0].kids == [] || m in prompts
    ensures l.Has(m) && FlatLoop(l0, l, prompts, p, par, f, fs, done + [rest[0]], l.next[m], rest[1..])
  {
    hide SameBut, Seg, Preorder, Flat, Unique;
    assert [rest[0]] + rest[1..] == rest;
    StepOver(l, l.list[p], m, None, p, done, rest[0], rest[1..]);
    PreorderMoves(done, rest);
    FlatUnfold(prompts, rest);
    assert done + ([rest[0]] + Flat(prompts, rest[1..])) == done + [rest[0]] + Flat(prompts, rest[1..]);
  }

  /** The parents of the children of m have been changed to p, and they have been
      put behind m. */
  lemma FlatSplice(l0: Links, l: Links, l1: Links, prompts: set<nat>, p: nat, par: Ptr, f: seq<Tree>, fs: seq<Tree>,
      done: seq<Tree>, m: nat, rest: seq<Tree>)
    requires FlatLoop(l0, l, prompts, p, par, f, fs, done, Some(m), rest) && rest != [] && rest[0].id == m
    requires rest[0].kids != [] && m !in prompts
    requires l1.list == l.list && l1.next == l.next && SameBut(l, l1, Nodes(rest[0].kids))
    requires Seg(l1, l1.list[m], None, Some(p), rest[0].kids)
    ensures var kids := rest[0].kids;
            var last := kids[|kids| - 1].id;
            l1.Has(m) && l1.Has(last) && Splice(l1, m, last).Has(m) &&
            FlatLoop(l0, Splice(l1, m, last), prompts, p, par, f, fs, done + [Node(m, [])],
                Splice(l1, m, last).next[m], kids + rest[1..])
  {
    hide SameBut, Preorder, Seg, Flat;
    var kids, r := rest[0].kids, rest[1..];
    var last := kids[|kids| - 1].id;
    FlatAt(l0, l, prompts, p, par, f, fs, done, m, rest);
    SplitNodes(done, m, kids, r);
    NodesSplit(rest);
    assert last in Nodes(kids) by {
      SegLast(l1, l1.list[m], None, Some(p), kids);
    }
    FlatKept(l, l1, p, par, fs, done, m, rest);
    SpliceStep(l1, l1.list[p], m, p, done, kids, r);
    var l2 := Splice(l1, m, last);
    SpliceKept(l1, m, last, p, par, fs, Nodes(f));
    StepOver(l2, l1.list[p], m, None, p, done, Node(m, []), kids + r);
    SameButMore(l, l1, Nodes(kids), {p} + Nodes(f));
    SameButTrans(l0, l, l1, {p} + Nodes(f), {p} + Nodes(f));
    assert {p} + Nodes(f) + ({p} + Nodes(f)) == {p} + Nodes(f);
    SameButMore(l1, l2, Nodes(f), {p} + Nodes(f));
    SameButTrans(l0, l1, l2, {p} + Nodes(f), {p} + Nodes(f));
    assert {p} + Nodes(f) + ({p} + Nodes(f)) == {p} + Nodes(f);
    FlatOrder(prompts, done, m, rest);
  }

  lemma FlatKept(l: Links, l1: Links, p: nat, par: Ptr, fs: seq<Tree>, done: seq<Tree>, m: nat, rest: seq<Tree>)
    requires rest != [] && rest[0].id == m && l.Has(p) && l.Has(m) && p !in Nodes(rest) && l.parent[m] == Some(p)
    requires SameBut(l, l1, Nodes(rest[0].kids)) && l1.list == l.list && l1.next == l.next
    requires Nodes(rest[0].kids) !! Nodes(done) && Nodes(rest[0].kids) !! Nodes(rest[1..])
    requires Nodes(rest[0].kids) !! Nodes(fs)
    requires m !in Nodes(rest[0].kids) && Nodes(rest) == {m} + Nodes(rest[0].kids) + Nodes(rest[1..])
    requires Seg(l, l.list[p], Some(m), Some(p), done) && Seg(l, l.next[m], None, Some(p), rest[1..])
    requires Seg(l, l.next[p], None, par, fs)
    ensures l1.Has(p) && l1.Has(m) && l1.parent[p] == l.parent[p] && l1.parent[m] == Some(p)
    ensures Seg(l1, l1.list[p], Some(m), Some(p), done) && Seg(l1, l1.next[m], None, Some(p), rest[1..])
    ensures Seg(l1, l1.next[p], None, par, fs)
  {
    hide Seg, Preorder;
    var ns := Nodes(rest[0].kids);
    SameButFrame(l, l1, ns, l.list[p], Some(m), Some(p), done);
    SameButFrame(l, l1, ns, l.next[m], None, Some(p), rest[1..]);
    SameButFrame(l, l1, ns, l.next[p], None, par, fs);
  }

  lemma SpliceKept(l: Links, m: nat, last: nat, p: nat, par: Ptr, fs: seq<Tree>, ns: set<nat>)
    requires l.Has(m) && l.Has(last) && l.Has(p) && m in ns && last in ns && p !in ns && ns !! Nodes(fs)
    requires Seg(l, l.next[p], None, par, fs)
    ensures var l' := Splice(l, m, last);
            SameBut(l, l', ns) && l'.Has(p) && l'.Has(m) && l'.list[p] == l.list[p] && l'.next[p] == l.next[p] &&
                l'.parent == l.parent &&
            Seg(l', l'.next[p], None, par, fs)
  {
    hide Seg, Preorder;
    SameButFrame(l, Splice(l, m, last), ns, l.next[p], None, par, fs);
  }

  lemma FlatOrder(prompts: set<nat>, done: seq<Tree>, m: nat, rest: seq<Tree>)
    requires rest != [] && rest[0].id == m && rest[0].kids != [] && m !in prompts
    ensures done + [Node(m, [])] + Flat(prompts, rest[0].kids + rest[1..]) == done + Flat(prompts, rest)
    ensures Preorder(done + [Node(m, [])]) + Preorder(rest[0].kids + rest[1..]) == Preorder(done) + Preorder(rest)
  {
    hide Preorder, Flat;
    FlatUnfold(prompts, rest);
    PreorderConcat(done, [Node(m, [])]);
    PreorderUnit(Node(m, []));
    PreorderNone();
    PreorderConcat(rest[0].kids, rest[1..]);
    PreorderFirst(rest);
    var tail := Flat(prompts, rest[0].kids + rest[1..]);
    assert done + [Node(m, [])] + tail == done + ([Node(m, [])] + tail);
    assert Preorder(done) + [m] + (Preorder(rest[0].kids) + Preorder(rest[1..])) ==
      Preorder(done) + ([m] + (Preorder(rest[0].kids) + Preorder(rest[1..])));
  }

  // ----- the loop that takes following siblings -----

  /** The first k following siblings are finalised and belong to p; next[p] still
      points at the first of them. */
  ghost predicate TakeLoop(l0: Links, l: Links, prompts: set<nat>, p: nat, par: Ptr, fs: seq<Tree>, a: seq<Tree>,
      menu: Ptr, k: nat)
  {
    && l0.Has(p) && l.Has(p) && l.parent[p] == l0.parent[p] && k <= |fs| && l.list[p] == None
    && Seg(l, l.next[p], menu, Some(p), a) && Seg(l, menu, None, par, fs[k..])
    && Preorder(a) == Preorder(fs[..k]) && PromptedBelow(prompts, a) && SameBut(l0, l, Nodes(fs[..k]))
    && Unique([p] + Preorder([]) + Preorder(fs))
  }

  lemma TakeStart(l: Links, prompts: set<nat>, p: nat, par: Ptr, fs: seq<Tree>)
    requires Placed(l, p, par, [], fs)
    ensures TakeLoop(l, l, prompts, p, par, fs, [], l.next[p], 0)
  {
    assert fs[0..] == fs;
  }

  lemma TakePlaced(l0: Links, l: Links, prompts: set<nat>, p: nat, par: Ptr, fs: seq<Tree>, a: seq<Tree>, m: nat,
      k: nat)
    requires TakeLoop(l0, l, prompts, p, par, fs, a, Some(m), k)
    ensures k < |fs| && fs[k].id == m && Placed(l, m, par, fs[k].kids, fs[k + 1..])
    ensures Count(fs[k].kids) + Count(fs[k + 1..]) < Count(fs)
  {
    hide PromptedBelow, SameBut;
    PlacedParts(p, [], fs);
    TakeDrop(fs, k);
    UniqueParts(Preorder(fs[..k]), Preorder(fs[k..]));
    SegHead(l, Some(m), None, par, fs[k..]);
    SegUncons(l, Some(m), None, par, fs[k..]);
    assert fs[k..][1..] == fs[k + 1..] && fs[k..][0] == fs[k];
  }

  /** One more sibling is finalised, together with the n siblings it took, and
      its parent is set to p. */
  lemma TakeDone(l0: Links, l: Links, l1: Links, prompts: set<nat>, p: nat, par: Ptr, fs: seq<Tree>, a: seq<Tree>,
      m: nat, k: nat, kids': seq<Tree>, n: nat)
    requires TakeLoop(l0, l, prompts, p, par, fs, a, Some(m), k)
    requires k < |fs| && fs[k].id == m && Finalised(l, l1, prompts, m, par, fs[k].kids, fs[k + 1..], kids', n)
    ensures l1.Has(m)
    ensures var l2 := WithParent(l1, m, Some(p));
            l2.Has(m) && TakeLoop(l0, l2, prompts, p, par, fs, a + [Node(m, kids')], l2.next[m], k + 1 + n)
  {
    hide Preorder, Seg, Unique, Prompted;
    var j := k + 1 + n;
    assert fs[k + 1..][n..] == fs[j..] && fs[k + 1..][..n] == fs[k + 1..j];
    var moved := {m} + Nodes(fs[k].kids) + Nodes(fs[k + 1..j]);
    TakeNodes(p, fs, k, j);
    TakeFrame(l, l1, moved, p, fs, a, m, k, kids', j);
    SegJoin(WithParent(l1, m, Some(p)), l1.next[p], Some(m), l1.next[m], Some(p), a, [Node(m, kids')]);
    ChildOrder(a, Node(m, kids'), fs, k, n, kids');
    SameButMore(l, l1, moved, Nodes(fs[..j]));
    SameButMore(l0, l, Nodes(fs[..k]), Nodes(fs[..j]));
  }

  lemma TakeFrame(l: Links, l1: Links, moved: set<nat>, p: nat, fs: seq<Tree>, a: seq<Tree>, m: nat, k: nat,
      kids': seq<Tree>, j: nat)
    requires k <= j <= |fs| && Preorder(a) == Preorder(fs[..k])
    requires SameBut(l, l1, moved) && l.Has(p) && l1.Has(m) && p !in moved && m in moved && moved !! Nodes(fs[..k])
    requires moved !! Nodes(fs[j..])
    requires Seg(l, l.next[p], Some(m), Some(p), a) && Unique([m] + Preorder(kids') + Preorder(fs[j..]))
    requires Seg(l1, l1.list[m], None, Some(m), kids')
    ensures var l2 := WithParent(l1, m, Some(p));
            l1.Has(p) && l2.Has(p) && l2.list[p] == l.list[p] && l2.next[p] == l.next[p] &&
                l2.parent[p] == l.parent[p] &&
            Seg(l2, l2.next[p], Some(m), Some(p), a) && Seg(l2, Some(m), l2.next[m], Some(p), [Node(m, kids')])
    ensures var l2 := WithParent(l1, m, Some(p));
            forall par :: Seg(l1, l1.next[m], None, par, fs[j..]) ==> Seg(l2, l2.next[m], None, par, fs[j..])
  {
    hide Preorder, Seg;
    var l2 := WithParent(l1, m, Some(p));
    SameButFrame(l, l1, moved, l.next[p], Some(m), Some(p), a);
    PlacedParts(m, kids', fs[j..]);
    SameElsewhere(l1, m, Some(p), Nodes(a));
    SegFrame(l1, l2, l1.next[p], Some(m), Some(p), a);
    SameElsewhere(l1, m, Some(p), Nodes(kids'));
    SegFrame(l1, l2, l1.list[m], None, Some(m), kids');
    SegUnit(l2, m, Some(p), kids');
    SameElsewhere(l1, m, Some(p), Nodes(fs[j..]));
    forall par | Seg(l1, l1.next[m], None, par, fs[j..])
      ensures Seg(l2, l2.next[m], None, par, fs[j..])
    {
      SegFrame(l1, l2, l1.next[m], None, par, fs[j..]);
    }
  }

  lemma TakeNodes(p: nat, fs: seq<Tree>, k: nat, j: nat)
    requires Unique([p] + Preorder([]) + Preorder(fs)) && k < j <= |fs|
    ensures var moved := {fs[k].id} + Nodes(fs[k].kids) + Nodes(fs[k + 1..j]);
            moved <= Nodes(fs[..j]) && moved !! Nodes(fs[..k]) && moved !! Nodes(fs[j..]) && p !in moved
    ensures Nodes(fs[..k]) <= Nodes(fs[..j])
  {
    hide Preorder;
    PlacedParts(p, [], fs);
    PreorderNone();
    assert [p] + Preorder(fs) + Preorder([]) == [p] + Preorder([]) + Preorder(fs);
    ChildNodes(p, fs, [], k, j);
    TakeDrop(fs[..j], k);
    assert fs[..j][..k] == fs[..k] && fs[..j][k..] == fs[k..j];
    NodesSplit(fs[k..j]);
    assert fs[k..j][0] == fs[k] && fs[k..j][1..] == fs[k + 1..j];
  }

  /** The links after the taken siblings, the last of which is `last`, are made
      the list of p. */
  function Take(l: Links, p: nat, last: nat): Links
    requires l.Has(p) && l.Has(last)
  {
    var l1 := WithList(l, p, l.next[p]);
    var l2 := WithNext(l1, p, l1.next[last]);
    WithNext(l2, last, None)
  }

  lemma TakeEnd(l0: Links, l: Links, prompts: set<nat>, p: nat, par: Ptr, fs: seq<Tree>, a: seq<Tree>, menu: Ptr,
      k: nat)
    requires TakeLoop(l0, l, prompts, p, par, fs, a, menu, k) && a != []
    ensures var last := a[|a| - 1].id;
            l.Has(last) && var l' := Take(l, p, last);
            Placed(l', p, par, a, fs[k..]) && l'.parent[p] == l0.parent[p] && SameBut(l0, l', {p} + Nodes(fs[..k]))
  {
    hide Preorder, Seg;
    var last := a[|a| - 1].id;
    SegLast(l, l.next[p], menu, Some(p), a);
    PlacedParts(p, [], fs);
    TakeDrop(fs, k);
    UniqueParts(Preorder(fs[..k]), Preorder(fs[k..]));
    assert Nodes(a) == Nodes(fs[..k]);
    var l1 := WithList(l, p, l.next[p]);
    var l2 := WithNext(l1, p, l1.next[last]);
    SameElsewhere(l, p, l.next[p], Nodes(a));
    SegFrame(l, l1, l.next[p], menu, Some(p), a);
    SameElsewhere(l1, p, menu, Nodes(a));
    SegFrame(l1, l2, l.next[p], menu, Some(p), a);
    SegNewEnd(l2, l.next[p], menu, Some(p), a, None);
    SameElsewhere(l, p, l.next[p], Nodes(fs[k..]));
    SegFrame(l, l1, menu, None, par, fs[k..]);
    SameElsewhere(l1, p, menu, Nodes(fs[k..]));
    SegFrame(l1, l2, menu, None, par, fs[k..]);
    SameElsewhere(l2, last, None, Nodes(fs[k..]));
    SegFrame(l2, Take(l, p, last), menu, None, par, fs[k..]);
    TakeUnique(p, fs, a, k);
  }

  lemma TakeUnique(p: nat, fs: seq<Tree>, a: seq<Tree>, k: nat)
    requires Unique([p] + Preorder([]) + Preorder(fs)) && k <= |fs| && Preorder(a) == Preorder(fs[..k])
    ensures Unique([p] + Preorder(a) + Preorder(fs[k..]))
  {
    hide Preorder, Unique;
    TakeDrop(fs, k);
    PreorderNone();
    assert [p] + Preorder([]) + Preorder(fs) == [p] + Preorder(a) + Preorder(fs[k..]);
  }

  lemma TakeNone(l0: Links, l: Links, prompts: set<nat>, p: nat, par: Ptr, fs: seq<Tree>, menu: Ptr, k: nat)
    requires TakeLoop(l0, l, prompts, p, par, fs, [], menu, k)
    ensures k == 0 && Placed(l, p, par, [], fs) && fs[k..] == fs && fs[..k] == []
  {
    TakeDrop(fs, k);
    PreorderNone();
    SomeNodes(fs[..k]);
  }

  lemma SomeNodes(f: seq<Tree>)
    ensures Preorder(f) == [] <==> f == []
  {
  }

  /** Flattening what was finalised. */
  lemma FinalisedFlat(l0: Links, l1: Links, l: Links, prompts: set<nat>, p: nat, par: Ptr, kids: seq<Tree>,
      fs: seq<Tree>, f: seq<Tree>, g: seq<Tree>, k: nat)
    requires k <= |fs| && l0.Has(p) && l1.Has(p) && l1.parent[p] == l0.parent[p]
    requires Preorder(f) == Preorder(kids) + Preorder(fs[..k]) && SameBut(l0, l1, {p} + Nodes(kids) + Nodes(fs[..k]))
    requires Placed(l, p, par, g, fs[k..]) && Preorder(g) == Preorder(f) && Prompted(prompts, g)
    requires l.parent[p] == l1.parent[p] && SameBut(l1, l, {p} + Nodes(f))
    ensures Finalised(l0, l, prompts, p, par, kids, fs, g, k)
  {
    hide Preorder, Seg, Unique, Prompted;
    assert Nodes(f) == Nodes(kids) + Nodes(fs[..k]);
    var ns := {p} + Nodes(kids) + Nodes(fs[..k]);
    assert {p} + Nodes(f) == ns && ns + ns == ns;
    SameButTrans(l0, l1, l, ns, ns);
  }

  /** The nodes up to a tree that took k others. */
  lemma PreorderStep(f: seq<Tree>, i: nat, k: nat)
    requires i + 1 + k <= |f|
    ensures Preorder(f[..i + 1 + k]) == Preorder(f[..i]) + ([f[i].id] + Preorder(f[i].kids) + Preorder(f[i + 1..][..k]))
  {
    hide Preorder;
    var j := i + 1 + k;
    assert f[..j] == f[..i] + f[i..j];
    PreorderConcat(f[..i], f[i..j]);
    PreorderFirst(f[i..j]);
    assert f[i..j][0] == f[i] && f[i..j][1..] == f[i + 1..][..k];
  }
}
