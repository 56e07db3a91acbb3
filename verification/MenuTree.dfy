/** The menu tree of scripts/config as linked nodes: struct menu with its next, parent and list
    pointers, and the forest of nodes such links stand for. */
module MenuTree {
  import opened Exprs
  import opened Options

  /** A select or imply property of a symbol: which symbol it acts on, and its visible.expr. */
  datatype Weak = Weak(imply: bool, target: Sym, cond: ExprPtr)

  class Menu {
    var next: Menu?
    var parent: Menu?
    var list: Menu?
    var dep: ExprPtr       // dependencies of the node
    var cond: ExprPtr      // prompt->visible.expr, when there is a prompt
    var selects: seq<Weak> // the selects and implies written at the node
    ghost var visits: nat  // how often menu_finalize has been called on the node

    const sym: Option<Sym>
    const isChoice: bool
    const hasPrompt: bool

    constructor (sym: Option<Sym>, isChoice: bool, hasPrompt: bool, dep: ExprPtr, cond: ExprPtr, selects: seq<Weak>)
      ensures this.sym == sym && this.isChoice == isChoice && this.hasPrompt == hasPrompt
      ensures next == null && parent == null && list == null && visits == 0
      ensures this.dep == dep && this.cond == cond && this.selects == selects
    {
      this.sym, this.isChoice, this.hasPrompt := sym, isChoice, hasPrompt;
      this.dep, this.cond, this.selects, visits := dep, cond, selects, 0;
      next, parent, list := null, null, null;
    }
  }

  /** A list of sibling nodes: the first with the forest of its children, and its later siblings. */
  datatype Forest = Nil | Cons(node: Menu, kids: Forest, rest: Forest)

  /** All nodes in preorder. */
  function Pre(f: Forest): seq<Menu> {
    match f
    case Nil => []
    case Cons(n, k, r) => [n] + Pre(k) + Pre(r)
  }

  function Nodes(f: Forest): set<Menu> {
    match f
    case Nil => {}
    case Cons(n, k, r) => {n} + Nodes(k) + Nodes(r)
  }

  function Append(a: Forest, b: Forest): Forest {
    match a
    case Nil => b
    case Cons(n, k, r) => Cons(n, k, Append(r, b))
  }

  function Head(f: Forest, end: Menu?): Menu? {
    if f.Nil? then end else f.node
  }

  /** No node occurs twice. */
  predicate Proper(f: Forest) {
    match f
    case Nil => true
    case Cons(n, k, r) =>
      n !in Nodes(k) && n !in Nodes(r) && Nodes(k) !! Nodes(r) && Proper(k) && Proper(r)
  }

  /** The chain of next pointers from first up to end holds exactly the nodes of f: every node names
      par as its parent and has its children chained, in the same way, below its list pointer. */
  ghost predicate Chain(f: Forest, first: Menu?, end: Menu?, par: Menu?)
    reads Nodes(f)`next, Nodes(f)`parent, Nodes(f)`list
  {
    match f
    case Nil => first == end
    case Cons(n, k, r) =>
      first == n && n.parent == par && Chain(k, n.list, null, n) && Chain(r, n.next, end, par)
  }

  /** A forest only holds nodes that exist. */
  lemma {:induction false} NodesExist(f: Forest)
    ensures forall n | n in Nodes(f) :: allocated(n)
  {
    if f.Cons? {
      NodesExist(f.kids);
      NodesExist(f.rest);
    }
  }

  lemma {:induction false} AppendNil(a: Forest)
    ensures Append(a, Nil) == a
  {
    if a.Cons? {
      AppendNil(a.rest);
    }
  }

  lemma {:induction false} AppendAssoc(a: Forest, b: Forest, c: Forest)
    ensures Append(Append(a, b), c) == Append(a, Append(b, c))
  {
    if a.Cons? {
      AppendAssoc(a.rest, b, c);
    }
  }

  lemma {:induction false} PreAppend(a: Forest, b: Forest)
    ensures Pre(Append(a, b)) == Pre(a) + Pre(b)
    ensures Nodes(Append(a, b)) == Nodes(a) + Nodes(b)
  {
    if a.Cons? {
      PreAppend(a.rest, b);
      assert [a.node] + Pre(a.kids) + (Pre(a.rest) + Pre(b)) == [a.node] + Pre(a.kids) + Pre(a.rest) + Pre(b);
    }
  }

  lemma {:induction false} ProperAppend(a: Forest, b: Forest)
    ensures Proper(Append(a, b)) <==> Proper(a) && Proper(b) && Nodes(a) !! Nodes(b)
  {
    if a.Cons? {
      ProperAppend(a.rest, b);
      PreAppend(a.rest, b);
    }
  }

  /** A chain may be cut at any node, and two chains that meet may be joined. */
  lemma {:induction false} ChainAppend(a: Forest, b: Forest, first: Menu?, end: Menu?, par: Menu?)
    ensures Chain(Append(a, b), first, end, par)
            <==> Chain(a, first, Head(b, end), par) && Chain(b, Head(b, end), end, par)
  {
    if a.Cons? {
      ChainAppend(a.rest, b, a.node.next, end, par);
    }
  }

  ghost predicate Distinct(s: seq<Menu>) {
    forall i, j | 0 <= i < j < |s| :: s[i] != s[j]
  }

  ghost predicate Apart(a: seq<Menu>, b: seq<Menu>) {
    forall i, j | 0 <= i < |a| && 0 <= j < |b| :: a[i] != b[j]
  }

  lemma DistinctAppend(a: seq<Menu>, b: seq<Menu>)
    ensures Distinct(a + b) <==> Distinct(a) && Distinct(b) && Apart(a, b)
  {
    var c := a + b;
    if Distinct(c) {
      forall i, j | 0 <= i < j < |a|
        ensures a[i] != a[j]
      {
        assert c[i] == a[i] && c[j] == a[j];
      }
      forall i, j | 0 <= i < j < |b|
        ensures b[i] != b[j]
      {
        assert c[|a| + i] == b[i] && c[|a| + j] == b[j];
      }
      forall i, j | 0 <= i < |a| && 0 <= j < |b|
        ensures a[i] != b[j]
      {
        assert c[i] == a[i] && c[|a| + j] == b[j];
      }
    }
    if Distinct(a) && Distinct(b) && Apart(a, b) {
      forall i, j | 0 <= i < j < |c|
        ensures c[i] != c[j]
      {
        assert i < |a| ==> c[i] == a[i];
        assert j >= |a| ==> c[j] == b[j - |a|];
      }
    }
  }

  ghost function Members(s: seq<Menu>): set<Menu> {
    set n | n in s
  }

  lemma {:induction false} PreMembers(f: Forest)
    ensures Members(Pre(f)) == Nodes(f)
  {
    if f.Cons? {
      PreMembers(f.kids);
      PreMembers(f.rest);
      assert Members(Pre(f)) == {f.node} + Members(Pre(f.kids)) + Members(Pre(f.rest));
    }
  }

  lemma ApartIsDisjoint(f: Forest, g: Forest)
    ensures Apart(Pre(f), Pre(g)) <==> Nodes(f) !! Nodes(g)
  {
    PreMembers(f);
    PreMembers(g);
    var a, b := Pre(f), Pre(g);
    if Apart(a, b) {
      forall x | x in Members(a)
        ensures x !in Members(b)
      {
      }
    } else {
      var i, j :| 0 <= i < |a| && 0 <= j < |b| && a[i] == b[j];
      assert a[i] in Members(a) && b[j] in Members(b);
    }
  }

  /** Whether a node occurs twice can be read off the preorder list, so it does not depend on how the
      nodes are grouped into trees. */
  lemma {:induction false} ProperIsDistinct(f: Forest)
    ensures Proper(f) <==> Distinct(Pre(f))
  {
    if f.Cons? {
      var n := f.node;
      ProperIsDistinct(f.kids);
      ProperIsDistinct(f.rest);
      DistinctCons(n, Pre(f.kids) + Pre(f.rest));
      assert Pre(f) == [n] + (Pre(f.kids) + Pre(f.rest));
      DistinctAppend(Pre(f.kids), Pre(f.rest));
      ApartIsDisjoint(f.kids, f.rest);
      PreMembers(f.kids);
      PreMembers(f.rest);
      assert n in Pre(f.kids) <==> n in Members(Pre(f.kids));
      assert n in Pre(f.rest) <==> n in Members(Pre(f.rest));
    }
  }

  lemma DistinctCons(n: Menu, s: seq<Menu>)
    ensures Distinct([n] + s) <==> n !in s && Distinct(s)
  {
    DistinctAppend([n], s);
    if Apart([n], s) {
      forall j | 0 <= j < |s|
        ensures s[j] != n
      {
        assert [n][0] != s[j];
      }
    }
  }

  /** Regrouping nodes without changing their preorder list keeps them distinct. */
  lemma SamePreorder(f: Forest, g: Forest)
    requires Pre(f) == Pre(g)
    ensures Nodes(f) == Nodes(g)
    ensures Proper(f) <==> Proper(g)
  {
    PreMembers(f);
    PreMembers(g);
    ProperIsDistinct(f);
    ProperIsDistinct(g);
  }
}
