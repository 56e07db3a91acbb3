/** The stackless walk of conf_write in scripts/config/confdata.c over the list, next and parent
    pointers of the menu tree. */
module MenuWalk {
  import opened Exprs
  import opened MenuTree

  /** Passing a node on the way down, and passing it again on the way up from its children. */
  datatype Event = Enter(node: Menu) | Leave(node: Menu)

  /** The same walk as a recursion over the tree; only nodes with children are left. */
  function Events(f: Forest): seq<Event> {
    match f
    case Nil => []
    case Cons(n, k, r) => [Enter(n)] + Events(k) + (if k.Nil? then [] else [Leave(n)]) + Events(r)
  }

  /** Whether a node writes a line for its symbol: not for menus and comments, not for choices, and
      only if the symbol has SYMBOL_WRITE. */
  predicate Writes(n: Menu, writable: Sym -> bool) {
    n.sym.Some? && !n.isChoice && writable(n.sym.value)
  }

  /** The symbols written for a list of nodes: each one at its first node. */
  function Lines(nodes: seq<Menu>, writable: Sym -> bool, written: set<Sym>): seq<Sym> {
    if nodes == [] then []
    else
      var n := nodes[0];
      if Writes(n, writable) && n.sym.value !in written then
        [n.sym.value] + Lines(nodes[1..], writable, written + {n.sym.value})
      else Lines(nodes[1..], writable, written)
  }

  /** Each symbol is written at most once, and exactly those symbols that some node calls for. */
  lemma {:induction false} LinesOnce(nodes: seq<Menu>, writable: Sym -> bool, written: set<Sym>)
    ensures var ls := Lines(nodes, writable, written);
      && (forall i, j | 0 <= i < j < |ls| :: ls[i] != ls[j])
      && (forall s :: s in ls <==> s !in written && exists n :: n in nodes && Writes(n, writable) && n.sym.value == s)
  {
    if nodes != [] {
      var n := nodes[0];
      var now := Writes(n, writable) && n.sym.value !in written;
      var written' := if now then written + {n.sym.value} else written;
      LinesOnce(nodes[1..], writable, written');
      var ls, rest := Lines(nodes, writable, written), Lines(nodes[1..], writable, written');
      forall s
        ensures s in ls <==> s !in written && exists m :: m in nodes && Writes(m, writable) && m.sym.value == s
      {
        assert s in ls <==> (now && s == n.sym.value) || s in rest;
        if s !in written && exists m :: m in nodes && Writes(m, writable) && m.sym.value == s {
          var m :| m in nodes && Writes(m, writable) && m.sym.value == s;
          assert m == n || m in nodes[1..];
        }
      }
    }
  }

  /** Where the walk is below the root: each enclosing node with its later siblings, innermost first. */
  datatype Context = Top | Below(node: Menu, rest: Forest, up: Context)

  function Enclosing(c: Context, root: Menu): Menu {
    if c.Top? then root else c.node
  }

  function Pending(c: Context): seq<Event> {
    match c
    case Top => []
    case Below(n, r, up) => [Leave(n)] + Events(r) + Pending(up)
  }

  function PendingNodes(c: Context): seq<Menu> {
    match c
    case Top => []
    case Below(_, r, up) => Pre(r) + PendingNodes(up)
  }

  function ContextNodes(c: Context): set<Menu> {
    match c
    case Top => {}
    case Below(n, r, up) => {n} + Nodes(r) + ContextNodes(up)
  }

  /** The parent pointers lead up through the context, and each later sibling chain is in place. */
  ghost predicate Linked(c: Context, root: Menu)
    reads ContextNodes(c)
  {
    match c
    case Top => true
    case Below(n, r, up) =>
      n.parent == Enclosing(up, root) && Chain(r, n.next, null, Enclosing(up, root)) && Linked(up, root)
  }

  lemma {:induction false} ContextExists(c: Context)
    ensures forall n | n in ContextNodes(c) :: allocated(n)
  {
    if c.Below? {
      NodesExist(c.rest);
      ContextExists(c.up);
    }
  }

  function Depth(c: Context): nat {
    if c.Top? then 0 else 1 + Depth(c.up)
  }

  /** The line of one node, if it calls for one that is not written yet; next is SYMBOL_WRITTEN after. */
  method WriteLine(menu: Menu, writable: Sym -> bool, sofar: seq<Sym>, written: set<Sym>, ghost rest: seq<Menu>)
    returns (lines: seq<Sym>, next: set<Sym>)
    ensures lines + Lines(rest, writable, next) == sofar + Lines([menu] + rest, writable, written)
  {
    lines, next := sofar, written;
    assert ([menu] + rest)[1..] == rest;
    if menu.sym.Some? && !menu.isChoice && menu.sym.value !in written {
      if writable(menu.sym.value) {
        next := written + {menu.sym.value};
        lines := lines + [menu.sym.value];
      }
    }
  }

  class ConfWriter {
    var written: set<Sym>  // SYMBOL_WRITTEN

    constructor ()
      ensures written == {}
    {
      written := {};
    }

    /** The walk visits every node below the root exactly once, in preorder, with the nesting of the
        recursion; it writes each symbol once and leaves no SYMBOL_WRITTEN behind. */
    method Write(root: Menu, writable: Sym -> bool, ghost k: Forest) returns (events: seq<Event>, lines: seq<Sym>)
      requires written == {}
      requires Chain(k, root.list, null, root) && root.next == null && root.parent == null
      modifies this
      ensures events == Events(k)
      ensures lines == Lines(Pre(k), writable, {})
      ensures written == {}
    {
      events, lines := [], [];
      var menu := root.list;
      ghost var f, c := k, Top;
      assert Pre(k) + [] == Pre(k);
      while menu != null
        invariant At(menu, f, c, root)
        invariant events + (Events(f) + Pending(c)) == Events(k)
        invariant lines + Lines(Pre(f) + PendingNodes(c), writable, written) == Lines(Pre(k), writable, {})
        decreases |Pre(f) + PendingNodes(c)|
      {
        ghost var nodes := Pre(f) + PendingNodes(c);
        assert nodes == [menu] + nodes[1..];
        NodesExist(f);
        ContextExists(c);
        lines, written := WriteLine(menu, writable, lines, written, nodes[1..]);
        menu, events, f, c := Advance(root, menu, events, f, c);
      }
      written := {};
    }
  }

  /** A position of the walk: the node it stands on, that node's level and everything above. */
  ghost predicate At(menu: Menu?, f: Forest, c: Context, root: Menu)
    reads Nodes(f)`next, Nodes(f)`parent, Nodes(f)`list
    reads ContextNodes(c)
  {
    menu == Head(f, null) && (f.Nil? ==> c.Top?) && Chain(f, menu, null, Enclosing(c, root)) && Linked(c, root)
  }

  lemma Regroup<T>(a: seq<T>, b: seq<T>, c: seq<T>, d: seq<T>, e: seq<T>, g: seq<T>)
    ensures a + b + (c + (d + e + g)) == a + (b + c + d + e + g)
    ensures c + d == [] ==> a + b + (e + g) == a + (b + c + d + e + g)
    ensures c + d + e == [] ==> a + b + g == a + (b + c + d + e + g)
  {
  }

  /** What is still to come, once the first node of a level has been passed. */
  lemma EventsStep(sofar: seq<Event>, f: Forest, pending: seq<Event>)
    requires f.Cons?
    ensures var events := sofar + [Enter(f.node)];
      sofar + (Events(f) + pending) ==
        if f.kids.Cons? then events + (Events(f.kids) + ([Leave(f.node)] + Events(f.rest) + pending))
        else if f.rest.Cons? then events + (Events(f.rest) + pending)
        else events + pending
  {
    var below, after := Events(f.kids), Events(f.rest);
    var leave := if f.kids.Nil? then [] else [Leave(f.node)];
    assert Events(f) == [Enter(f.node)] + below + leave + after;
    Regroup(sofar, [Enter(f.node)], below, leave, after, pending);
  }

  lemma PreStep(f: Forest, pending: seq<Menu>)
    requires f.Cons?
    ensures Pre(f) + pending ==
      if f.kids.Cons? then [f.node] + (Pre(f.kids) + (Pre(f.rest) + pending))
      else if f.rest.Cons? then [f.node] + (Pre(f.rest) + pending)
      else [f.node] + pending
  {
    assert Pre(f) == [f.node] + Pre(f.kids) + Pre(f.rest);
    RegroupNodes([f.node], Pre(f.kids), Pre(f.rest), pending);
  }

  lemma RegroupNodes<T>(a: seq<T>, b: seq<T>, c: seq<T>, d: seq<T>)
    ensures a + b + c + d == a + (b + (c + d))
    ensures b == [] ==> a + b + c + d == a + (c + d)
    ensures b == c == [] ==> a + b + c + d == a + d
    ensures a + (b + c + d) == a + b + (c + d)
    ensures c == [] ==> a + (b + c + d) == a + b + d
  {
  }

  /** From one node to the next: down to the first child, else to the next sibling, else up. */
  method Advance(root: Menu, menu: Menu, sofar: seq<Event>, ghost f: Forest, ghost c: Context)
    returns (next: Menu?, events: seq<Event>, ghost f': Forest, ghost c': Context)
    requires At(menu, f, c, root) && root.next == null && root.parent == null
    ensures At(next, f', c', root)
    ensures events + (Events(f') + Pending(c')) == sofar + (Events(f) + Pending(c))
    ensures Pre(f) + PendingNodes(c) == [menu] + (Pre(f') + PendingNodes(c'))
  {
    assert Chain(f.kids, menu.list, null, menu) && Chain(f.rest, menu.next, null, Enclosing(c, root));
    EventsStep(sofar, f, Pending(c));
    PreStep(f, PendingNodes(c));
    events := sofar + [Enter(menu)];
    if menu.list != null {
      f', c' := f.kids, Below(menu, f.rest, c);
      next := menu.list;
    } else if menu.next != null {
      f', c' := f.rest, c;
      next := menu.next;
    } else {
      next, events, f', c' := Climb(root, menu, events, c);
    }
  }

  /** The inner loop: up through the parents until one has a later sibling. */
  method Climb(root: Menu, from: Menu, sofar: seq<Event>, ghost c: Context)
    returns (menu: Menu?, events: seq<Event>, ghost f: Forest, ghost c': Context)
    requires from.parent == Enclosing(c, root) && Linked(c, root)
    requires root.next == null && root.parent == null
    ensures events + (Events(f) + Pending(c')) == sofar + Pending(c)
    ensures Pre(f) + PendingNodes(c') == PendingNodes(c)
    ensures At(menu, f, c', root)
  {
    events, c', f := sofar, c, Nil;
    menu := from.parent;
    while menu != null
      invariant menu != null ==> menu == Enclosing(c', root)
      invariant menu == null ==> c'.Top?
      invariant events + Pending(c') == sofar + Pending(c)
      invariant PendingNodes(c') == PendingNodes(c)
      invariant Linked(c', root)
      decreases Depth(c'), menu
    {
      LeaveStep(events, c');
      if menu != root {
        events := events + [Leave(menu)];
      }
      if menu.next != null {
        f, c' := c'.rest, c'.up;
        menu := menu.next;
        return;
      }
      menu := menu.parent;
      if c'.Below? {
        c' := c'.up;
      }
    }
    NothingAhead(c');
  }

  lemma LeaveStep(events: seq<Event>, c: Context)
    ensures c.Below? ==> events + Pending(c) == events + [Leave(c.node)] + (Events(c.rest) + Pending(c.up))
    ensures c.Below? && c.rest.Nil? ==> events + Pending(c) == events + [Leave(c.node)] + Pending(c.up)
    ensures c.Below? && c.rest.Nil? ==> PendingNodes(c) == PendingNodes(c.up)
  {
    if c.Below? {
      assert Pending(c) == [Leave(c.node)] + Events(c.rest) + Pending(c.up);
      RegroupNodes(events, [Leave(c.node)], Events(c.rest), Pending(c.up));
      if c.rest.Nil? {
        RegroupNodes([], [], PendingNodes(c.up), []);
      }
    }
  }

  lemma NothingAhead(c: Context)
    ensures [] + Pending(c) == Pending(c) && [] + PendingNodes(c) == PendingNodes(c)
  {
  }
}
