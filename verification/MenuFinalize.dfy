/** menu_finalize of scripts/config/menu.c on the linked tree: propagation of dependencies to the
    children, automatic submenus and flattening. */
module MenuFinalize {
  import opened Exprs
  import opened ExprDups
  import opened MenuTree
  import opened MenuDeps

  /** Adding one node with its children at the end of a chain. */
  lemma ChainSnoc(f: Forest, n: Menu, k: Forest, first: Menu?, end: Menu?, par: Menu?)
    ensures var g := Append(f, Cons(n, k, Nil));
      && (Chain(g, first, end, par)
          <==> Chain(f, first, n, par) && n.parent == par && n.next == end && Chain(k, n.list, null, n))
      && Nodes(g) == Nodes(f) + {n} + Nodes(k)
      && Pre(g) == Pre(f) + ([n] + Pre(k))
  {
    var one := Cons(n, k, Nil);
    ChainAppend(f, one, first, end, par);
    PreAppend(f, one);
    assert Pre(one) == [n] + Pre(k);
  }

  /** The inner loop of flattening: the children of a node get a new parent, and the last one is
      linked to the node's successor. */
  method Reparent(first: Menu, after: Menu?, par: Menu, ghost f: Forest, ghost oldPar: Menu?)
    requires f.Cons? && Proper(f) && Chain(f, first, null, oldPar)
    modifies Nodes(f)`parent, Nodes(f)`next
    ensures Chain(f, first, after, par)
  {
    var last := first;
    ghost var done, todo := Nil, f;
    while true
      invariant todo.Cons? && last == todo.node && f == Append(done, todo)
      invariant Proper(f) && Nodes(f) == Nodes(done) + Nodes(todo) && Nodes(done) !! Nodes(todo) && Proper(todo)
      invariant Chain(done, first, last, par)
      invariant Chain(todo, last, null, oldPar)
      decreases todo
    {
      ghost var k, r := todo.kids, todo.rest;
      last.parent := par;
      if last.next == null {
        last.next := after;
        ChainSnoc(done, last, k, first, after, par);
        break;
      }
      ChainSnoc(done, last, k, first, last.next, par);
      AppendAssoc(done, Cons(last, k, Nil), r);
      done, todo := Append(done, Cons(last, k, Nil)), r;
      last := last.next;
    }
  }

  /** The preorder length of a forest, which flattening lowers by one in every round. */
  lemma PreLength(f: Forest)
    requires f.Cons?
    ensures |Pre(f)| == 1 + |Pre(f.kids)| + |Pre(f.rest)|
  {
  }

  lemma KidsMoveUp(n: Menu, k: Forest, r: Forest)
    ensures var g := Cons(n, Nil, Append(k, r));
      Pre(g) == Pre(Cons(n, k, r)) && Nodes(g) == Nodes(Cons(n, k, r)) && (Proper(Cons(n, k, r)) ==> Proper(g))
  {
    PreAppend(k, r);
    ProperAppend(k, r);
    assert [n] + Pre(Nil) + (Pre(k) + Pre(r)) == [n] + Pre(k) + Pre(r);
  }

  /** Flattening at one node: without a prompt it gives up its children, which take their place right
      after it. */
  method FlattenAt(menu: Menu, parent: Menu, ghost k: Forest, ghost r: Forest) returns (ghost k': Forest, ghost r': Forest)
    requires Proper(Cons(menu, k, r)) && Chain(Cons(menu, k, r), menu, null, parent)
    modifies Nodes(Cons(menu, k, r))`next, Nodes(Cons(menu, k, r))`parent, Nodes(Cons(menu, k, r))`list
    ensures Pre(Cons(menu, k', r')) == Pre(Cons(menu, k, r))
    ensures Nodes(Cons(menu, k', r')) == Nodes(Cons(menu, k, r)) && Proper(Cons(menu, k', r'))
    ensures Chain(Cons(menu, k', r'), menu, null, parent)
    ensures |Pre(r')| < |Pre(Cons(menu, k, r))|
  {
    PreLength(Cons(menu, k, r));
    assert menu.list == null ==> k == Nil;
    if menu.list != null && !menu.hasPrompt {
      ghost var after := menu.next;
      NodesExist(r);
      Reparent(menu.list, menu.next, parent, k, menu);
      assert Chain(r, after, null, parent);
      menu.next := menu.list;
      menu.list := null;
      assert Chain(r, after, null, parent) && Chain(k, menu.next, after, parent);
      ChainAppend(k, r, menu.next, null, parent);
      KidsMoveUp(menu, k, r);
      k', r' := Nil, Append(k, r);
    } else {
      k', r' := k, r;
    }
  }

  /** A loop over a chain, between the nodes it has passed and those still ahead. */
  ghost predicate Walk(done: Forest, todo: Forest, first: Menu?, menu: Menu?, par: Menu?)
    reads Nodes(done)`next, Nodes(done)`parent, Nodes(done)`list, Nodes(todo)`next, Nodes(todo)`parent, Nodes(todo)`list
  {
    && Proper(done) && Proper(todo) && Nodes(done) !! Nodes(todo)
    && Chain(done, first, menu, par) && Chain(todo, menu, null, par)
  }

  lemma PassedNodes(done: Forest, n: Menu, k: Forest, r: Forest)
    ensures var done' := Append(done, Cons(n, k, Nil));
      && Pre(done') + Pre(r) == Pre(done) + Pre(Cons(n, k, r))
      && Nodes(done') + Nodes(r) == Nodes(done) + Nodes(Cons(n, k, r))
  {
    PreAppend(done, Cons(n, k, Nil));
    OneInFront([n] + Pre(k), Pre(done), Pre(r));
  }

  lemma OneInFront<T>(one: seq<T>, before: seq<T>, after: seq<T>)
    ensures one + [] == one && before + one + after == before + (one + after)
  {
  }

  /** The loop passes one node. */
  lemma WalkOn(done: Forest, n: Menu, k: Forest, r: Forest, first: Menu?, par: Menu?)
    requires Walk(done, Cons(n, k, r), first, n, par)
    ensures var done' := Append(done, Cons(n, k, Nil));
      && Walk(done', r, first, n.next, par)
      && Pre(done') + Pre(r) == Pre(done) + Pre(Cons(n, k, r))
      && Nodes(done') + Nodes(r) == Nodes(done) + Nodes(Cons(n, k, r))
  {
    ChainSnoc(done, n, k, first, n.next, par);
    ProperAppend(done, Cons(n, k, Nil));
    PassedNodes(done, n, k, r);
  }

  /** The last loop of menu_finalize over the children of a node. */
  method Flatten(parent: Menu, ghost f: Forest) returns (ghost g: Forest)
    requires Proper(f) && parent !in Nodes(f) && Chain(f, parent.list, null, parent)
    modifies Nodes(f)`next, Nodes(f)`parent, Nodes(f)`list
    ensures Pre(g) == Pre(f) && Nodes(g) == Nodes(f) && Proper(g)
    ensures Chain(g, parent.list, null, parent)
  {
    var menu := parent.list;
    ghost var done, todo := Nil, f;
    while menu != null
      invariant Pre(done) + Pre(todo) == Pre(f) && Nodes(done) + Nodes(todo) == Nodes(f)
      invariant Walk(done, todo, parent.list, menu, parent)
      decreases |Pre(todo)|
    {
      NodesExist(done);
      ghost var k, r := FlattenAt(menu, parent, todo.kids, todo.rest);
      WalkOn(done, menu, k, r, parent.list, parent);
      done, todo := Append(done, Cons(menu, k, Nil)), r;
      menu := menu.next;
    }
    g := done;
  }

  /** What a node carries: its dependency, the condition of its prompt, its selects and implies, and how
      often it has been finalised. */
  datatype Label = Label(dep: ExprPtr, cond: ExprPtr, selects: seq<Weak>, visits: nat)

  datatype Labels = Bare | Labelled(top: Label, kids: Labels, rest: Labels)

  ghost function LabelOf(n: Menu): Label
    reads n`dep, n`cond, n`selects, n`visits
  {
    Label(n.dep, n.cond, n.selects, n.visits)
  }

  /** What the nodes of a forest carry. */
  ghost function LabelsOf(f: Forest): Labels
    reads Nodes(f)`dep, Nodes(f)`cond, Nodes(f)`selects, Nodes(f)`visits
  {
    match f
    case Nil => Bare
    case Cons(n, k, r) => Labelled(LabelOf(n), LabelsOf(k), LabelsOf(r))
  }

  /** What is fixed during one run: the labels as written, and modules_sym. */
  datatype Run = Run(written: map<Menu, Label>, modulesSym: Sym)

  function At(n: Menu, run: Run): Label {
    if n in run.written then run.written[n] else Label(Null, Null, [], 0)
  }

  /** sym && sym_is_choice(sym); no constant is a choice. */
  predicate IsChoice(n: Menu) {
    n.isChoice && n.sym.Some? && n.sym.value.Config?
  }

  function Owner(n: Menu): SymType {
    if n.sym.Some? then n.sym.value.Type() else Tristate
  }

  /** What is written on the way down to the children of a node that is itself reached by a chain of
      dependencies. Below a choice this is the choice symbol alone. */
  function KidsChain(n: Menu, chain: seq<ExprPtr>, run: Run): seq<ExprPtr> {
    if IsChoice(n) then [Ptr(Leaf(n.sym.value))] else chain + [At(n, run).dep]
  }

  /** The selects and implies of a symbol at a node with the given dependency. */
  function PropagatedSelects(dep: ExprPtr, written: seq<Weak>, owner: SymType, modulesSym: Sym): (ws: seq<Weak>)
    ensures |ws| == |written|
  {
    if written == [] then []
    else
      var w := written[|written| - 1];
      PropagatedSelects(dep, written[..|written| - 1], owner, modulesSym)
      + [w.(cond := PropagateToProperty(dep, w.cond, owner, modulesSym))]
  }

  /** The label of a node after propagation from the parent it was written under. */
  function Inherited(n: Menu, chain: seq<ExprPtr>, run: Run): Label {
    var at, m := At(n, run), run.modulesSym;
    var dep := NodeDep(chain + [at.dep], m);
    Label(dep,
          if n.hasPrompt then PropagateToProperty(dep, at.cond, Owner(n), m) else at.cond,
          if n.sym.Some? then PropagatedSelects(dep, at.selects, Owner(n), m) else at.selects,
          at.visits)
  }

  /** The labels of a forest as written. */
  function Original(f: Forest, run: Run): Labels {
    match f
    case Nil => Bare
    case Cons(n, k, r) => Labelled(At(n, run), Original(k, run), Original(r, run))
  }

  /** The labels of nodes that have got their expressions and wait to be finalised. */
  function Waiting(f: Forest, chain: seq<ExprPtr>, run: Run): Labels {
    match f
    case Nil => Bare
    case Cons(n, k, r) => Labelled(Inherited(n, chain, run), Original(k, run), Waiting(r, chain, run))
  }

  function Visited(before: Label): Label {
    before.(visits := before.visits + 1)
  }

  /** The labels of a finalised forest: everywhere nodes carry the expressions propagated from the
      parent they were written under, and each has been visited once. */
  function Final(f: Forest, chain: seq<ExprPtr>, run: Run): Labels {
    match f
    case Nil => Bare
    case Cons(n, k, r) =>
      Labelled(Visited(Inherited(n, chain, run)), Final(k, KidsChain(n, chain, run), run), Final(r, chain, run))
  }

  function Join(a: Labels, b: Labels): Labels {
    match a
    case Bare => b
    case Labelled(top, kids, rest) => Labelled(top, kids, Join(rest, b))
  }

  lemma {:induction false} LabelsAppend(a: Forest, b: Forest)
    ensures LabelsOf(Append(a, b)) == Join(LabelsOf(a), LabelsOf(b))
  {
    if a.Cons? {
      LabelsAppend(a.rest, b);
    }
  }

  lemma {:induction false} WaitingAppend(a: Forest, b: Forest, chain: seq<ExprPtr>, run: Run)
    ensures Waiting(Append(a, b), chain, run) == Join(Waiting(a, chain, run), Waiting(b, chain, run))
  {
    if a.Cons? {
      WaitingAppend(a.rest, b, chain, run);
    }
  }

  lemma {:induction false} FinalAppend(a: Forest, b: Forest, chain: seq<ExprPtr>, run: Run)
    ensures Final(Append(a, b), chain, run) == Join(Final(a, chain, run), Final(b, chain, run))
  {
    if a.Cons? {
      FinalAppend(a.rest, b, chain, run);
    }
  }

  ghost predicate Untouched(f: Forest, run: Run)
    reads Nodes(f)`dep, Nodes(f)`cond, Nodes(f)`selects, Nodes(f)`visits
  {
    LabelsOf(f) == Original(f, run)
  }

  ghost predicate Pending(f: Forest, chain: seq<ExprPtr>, run: Run)
    reads Nodes(f)`dep, Nodes(f)`cond, Nodes(f)`selects, Nodes(f)`visits
  {
    LabelsOf(f) == Waiting(f, chain, run)
  }

  ghost predicate Done(f: Forest, chain: seq<ExprPtr>, run: Run)
    reads Nodes(f)`dep, Nodes(f)`cond, Nodes(f)`selects, Nodes(f)`visits
  {
    LabelsOf(f) == Final(f, chain, run)
  }

  /** What is collected for symbols: a place where one is defined, or a select or imply of one. */
  datatype Entry = Place(sym: Sym, site: Site) | Pull(imply: bool, target: Sym, selector: Selector)

  function SiteOf(n: Menu, chain: seq<ExprPtr>, run: Run): Site {
    Site(chain + [At(n, run).dep], if n.hasPrompt then [At(n, run).cond] else [])
  }

  function PullList(s: Sym, chain: seq<ExprPtr>, written: seq<Weak>): (list: seq<Entry>)
    ensures |list| == |written|
  {
    if written == [] then []
    else
      var w := written[|written| - 1];
      PullList(s, chain, written[..|written| - 1]) + [Pull(w.imply, w.target, Selector(s, chain, w.cond))]
  }

  /** What is collected from a node when its expressions are propagated. */
  function PullsOf(n: Menu, chain: seq<ExprPtr>, run: Run): multiset<Entry> {
    if n.sym.None? then multiset{} else Bag(PullList(n.sym.value, chain + [At(n, run).dep], At(n, run).selects))
  }

  function Bag<T>(s: seq<T>): multiset<T> {
    if s == [] then multiset{} else Bag(s[..|s| - 1]) + multiset{s[|s| - 1]}
  }

  lemma {:induction false} BagIsMultiset<T>(s: seq<T>)
    ensures Bag(s) == multiset(s)
  {
    if s != [] {
      BagIsMultiset(s[..|s| - 1]);
      assert s == s[..|s| - 1] + [s[|s| - 1]];
    }
  }

  lemma BagOfMore<T>(a: seq<T>, b: seq<T>)
    ensures multiset(a + b) == multiset(a) + Bag(b)
  {
    BagIsMultiset(b);
  }

  function TopPulls(f: Forest, chain: seq<ExprPtr>, run: Run): multiset<Entry> {
    match f
    case Nil => multiset{}
    case Cons(n, _, r) => PullsOf(n, chain, run) + TopPulls(r, chain, run)
  }

  lemma {:induction false} TopPullsAppend(a: Forest, b: Forest, chain: seq<ExprPtr>, run: Run)
    ensures TopPulls(Append(a, b), chain, run) == TopPulls(a, chain, run) + TopPulls(b, chain, run)
  {
    if a.Cons? {
      TopPullsAppend(a.rest, b, chain, run);
    }
  }

  /** What is collected from a node when it is finalised without children. */
  function Here(n: Menu, k: Forest, chain: seq<ExprPtr>, run: Run): multiset<Entry> {
    if k.Nil? && n.sym.Some? then multiset{Place(n.sym.value, SiteOf(n, chain, run))} else multiset{}
  }

  /** What finalising the nodes of a forest collects: their places, and everything below them. */
  function Places(f: Forest, chain: seq<ExprPtr>, run: Run): multiset<Entry>
    decreases f, 0
  {
    match f
    case Nil => multiset{}
    case Cons(n, k, r) => Here(n, k, chain, run) + Below(k, KidsChain(n, chain, run), run) + Places(r, chain, run)
  }

  function Below(k: Forest, chain: seq<ExprPtr>, run: Run): multiset<Entry>
    decreases k, 1
  {
    TopPulls(k, chain, run) + Places(k, chain, run)
  }

  lemma {:induction false} PlacesAppend(a: Forest, b: Forest, chain: seq<ExprPtr>, run: Run)
    ensures Places(Append(a, b), chain, run) == Places(a, chain, run) + Places(b, chain, run)
  {
    if a.Cons? {
      PlacesAppend(a.rest, b, chain, run);
    }
  }

  function SitesOf(log: seq<Entry>, s: Sym): seq<Site> {
    if log == [] then []
    else
      var last := log[|log| - 1];
      SitesOf(log[..|log| - 1], s) + if last.Place? && last.sym == s then [last.site] else []
  }

  function SelectorsOf(log: seq<Entry>, imply: bool, s: Sym): seq<Selector> {
    if log == [] then []
    else
      var last := log[|log| - 1];
      SelectorsOf(log[..|log| - 1], imply, s)
      + if last.Pull? && last.imply == imply && last.target == s then [last.selector] else []
  }

  function Find(of: map<Sym, ExprPtr>, s: Sym): ExprPtr {
    if s in of then of[s] else Null
  }

  /** dir_dep, rev_dep and implied of all symbols. */
  datatype Deps = Deps(direct: map<Sym, ExprPtr>, reverse: map<Sym, ExprPtr>, implied: map<Sym, ExprPtr>)

  function Widened(of: map<Sym, ExprPtr>, s: Sym, dep: ExprPtr): map<Sym, ExprPtr> {
    of[s := AllocOr(Find(of, s), dep)]
  }

  function With(d: Deps, e: Entry, modulesSym: Sym): Deps {
    match e
    case Place(s, site) => d.(direct := Widened(d.direct, s, NodeDep(site.chain, modulesSym)))
    case Pull(imply, s, sel) =>
      if imply then d.(implied := Widened(d.implied, s, SelectorDep(sel, modulesSym)))
      else d.(reverse := Widened(d.reverse, s, SelectorDep(sel, modulesSym)))
  }

  /** What is known after collecting the entries of the log, one after the other. */
  function DepsOf(log: seq<Entry>, modulesSym: Sym): Deps {
    if log == [] then Deps(map[], map[], map[])
    else With(DepsOf(log[..|log| - 1], modulesSym), log[|log| - 1], modulesSym)
  }

  lemma Extended<T>(s: seq<T>, x: T)
    ensures (s + [x])[..|s|] == s && s + [] == s
  {
  }

  lemma WithDirect(d: Deps, e: Entry, s: Sym, modulesSym: Sym)
    ensures Find(With(d, e, modulesSym).direct, s) ==
      if e.Place? && e.sym == s then AllocOr(Find(d.direct, s), NodeDep(e.site.chain, modulesSym)) else Find(d.direct, s)
  {
  }

  lemma OnePlaceAfter(sites: seq<Site>, site: Site, modulesSym: Sym)
    ensures DirectDep(sites + [site], modulesSym) == AllocOr(DirectDep(sites, modulesSym), NodeDep(site.chain, modulesSym))
  {
    Extended(sites, site);
  }

  lemma {:induction false} CollectedDirect(log: seq<Entry>, s: Sym, modulesSym: Sym)
    ensures Find(DepsOf(log, modulesSym).direct, s) == DirectDep(SitesOf(log, s), modulesSym)
  {
    if log != [] {
      var before, last := log[..|log| - 1], log[|log| - 1];
      CollectedDirect(before, s, modulesSym);
      WithDirect(DepsOf(before, modulesSym), last, s, modulesSym);
      var sites := SitesOf(before, s);
      if last.Place? {
        OnePlaceAfter(sites, last.site, modulesSym);
        Extended(sites, last.site);
      } else {
        assert sites + [] == sites;
      }
    }
  }

  function Towards(d: Deps, imply: bool): map<Sym, ExprPtr> {
    if imply then d.implied else d.reverse
  }

  lemma WithTowards(d: Deps, e: Entry, imply: bool, s: Sym, modulesSym: Sym)
    ensures Find(Towards(With(d, e, modulesSym), imply), s) ==
      if e.Pull? && e.imply == imply && e.target == s then
        AllocOr(Find(Towards(d, imply), s), SelectorDep(e.selector, modulesSym))
      else Find(Towards(d, imply), s)
  {
  }

  lemma OneSelectorMore(sels: seq<Selector>, sel: Selector, modulesSym: Sym)
    ensures ReverseDep(sels + [sel], modulesSym) == AllocOr(ReverseDep(sels, modulesSym), SelectorDep(sel, modulesSym))
  {
    Extended(sels, sel);
  }

  lemma {:induction false} CollectedReverse(log: seq<Entry>, imply: bool, s: Sym, modulesSym: Sym)
    ensures Find(Towards(DepsOf(log, modulesSym), imply), s) == ReverseDep(SelectorsOf(log, imply, s), modulesSym)
  {
    if log != [] {
      var before, last := log[..|log| - 1], log[|log| - 1];
      CollectedReverse(before, imply, s, modulesSym);
      WithTowards(DepsOf(before, modulesSym), last, imply, s, modulesSym);
      var sels := SelectorsOf(before, imply, s);
      if last.Pull? {
        OneSelectorMore(sels, last.selector, modulesSym);
        Extended(sels, last.selector);
      } else {
        assert sels + [] == sels;
      }
    }
  }

  /** What is collected for a symbol is the direct dependency over its own places, and the reverse and weak
      reverse dependency over the places that select or imply it. */
  lemma CollectedDeps(log: seq<Entry>, s: Sym, modulesSym: Sym)
    ensures var d := DepsOf(log, modulesSym);
      && Find(d.direct, s) == DirectDep(SitesOf(log, s), modulesSym)
      && Find(d.reverse, s) == ReverseDep(SelectorsOf(log, false, s), modulesSym)
      && Find(d.implied, s) == ReverseDep(SelectorsOf(log, true, s), modulesSym)
  {
    CollectedDirect(log, s, modulesSym);
    CollectedReverse(log, false, s, modulesSym);
    CollectedReverse(log, true, s, modulesSym);
  }

  lemma DepsGrow(log: seq<Entry>, e: Entry, modulesSym: Sym)
    ensures DepsOf(log + [e], modulesSym) == With(DepsOf(log, modulesSym), e, modulesSym)
    ensures multiset(log + [e]) == multiset(log) + multiset{e}
  {
    Extended(log, e);
  }

  /** The dependencies of all symbols while they are collected. */
  class SymbolDeps {
    var of: Deps
    ghost var log: seq<Entry>  // the entries collected so far

    ghost predicate Valid(modulesSym: Sym)
      reads this`of, this`log
    {
      of == DepsOf(log, modulesSym)
    }

    ghost function Collected(): multiset<Entry>
      reads this`log
    {
      multiset(log)
    }

    constructor ()
      ensures log == [] && forall modulesSym :: Valid(modulesSym)
    {
      of, log := Deps(map[], map[], map[]), [];
    }

    /** sym->dir_dep.expr = expr_alloc_or(sym->dir_dep.expr, dep) */
    method Collect(s: Sym, dep: ExprPtr, ghost site: Site, ghost modulesSym: Sym)
      requires Valid(modulesSym) && dep == NodeDep(site.chain, modulesSym)
      modifies this`of, this`log
      ensures Valid(modulesSym) && Collected() == old(Collected()) + multiset{Place(s, site)}
    {
      of := of.(direct := Widened(of.direct, s, dep));
      DepsGrow(log, Place(s, site), modulesSym);
      log := log + [Place(s, site)];
    }

    /** The same for rev_dep and implied of the symbol that a select or imply acts on. */
    method CollectPull(imply: bool, target: Sym, s: Sym, cond: ExprPtr, ghost sel: Selector, ghost modulesSym: Sym)
      requires Valid(modulesSym) && AllocAnd(Ptr(Leaf(s)), cond) == SelectorDep(sel, modulesSym)
      modifies this`of, this`log
      ensures Valid(modulesSym) && log == old(log) + [Pull(imply, target, sel)]
    {
      var dep := AllocAnd(Ptr(Leaf(s)), cond);
      if imply {
        of := of.(implied := Widened(of.implied, target, dep));
      } else {
        of := of.(reverse := Widened(of.reverse, target, dep));
      }
      DepsGrow(log, Pull(imply, target, sel), modulesSym);
      log := log + [Pull(imply, target, sel)];
    }
  }

  /** The dependency that children inherit: for a choice, the choice symbol itself. */
  function ParentDep(n: Menu): ExprPtr
    reads n`dep
  {
    if IsChoice(n) then Ptr(Leaf(n.sym.value)) else n.dep
  }

  lemma ParentDepOfChain(n: Menu, chain: seq<ExprPtr>, run: Run)
    requires n.dep == Inherited(n, chain, run).dep
    ensures ParentDep(n) == NodeDep(KidsChain(n, chain, run), run.modulesSym)
  {
    if IsChoice(n) {
      var c := n.sym.value;
      assert EliminateDups(Leaf(c)) == Leaf(c);
      assert [Ptr(Leaf(c))][..0] == [];
    }
  }

  lemma OneSelectMore(dep: ExprPtr, written: seq<Weak>, w: Weak, owner: SymType, s: Sym, chain: seq<ExprPtr>, modulesSym: Sym)
    ensures PropagatedSelects(dep, written + [w], owner, modulesSym)
            == PropagatedSelects(dep, written, owner, modulesSym)
               + [w.(cond := PropagateToProperty(dep, w.cond, owner, modulesSym))]
    ensures PullList(s, chain, written + [w])
            == PullList(s, chain, written) + [Pull(w.imply, w.target, Selector(s, chain, w.cond))]
  {
    Extended(written, w);
  }

  /** The first i selects and implies of a node have got their conditions and are collected. */
  ghost predicate HalfSelected(kid: Menu, dirs: SymbolDeps, modulesSym: Sym, chain: seq<ExprPtr>, written: seq<Weak>,
                               start: seq<Entry>, i: nat)
    reads kid, dirs
  {
    && kid.sym.Some? && kid.dep == NodeDep(chain, modulesSym) && i <= |written| == |kid.selects|
    && kid.selects[i..] == written[i..]
    && kid.selects[..i] == PropagatedSelects(kid.dep, written[..i], Owner(kid), modulesSym)
    && dirs.Valid(modulesSym) && dirs.log == start + PullList(kid.sym.value, chain, written[..i])
  }

  /** One select or imply of a node. */
  method PropagateSelect(kid: Menu, i: nat, dirs: SymbolDeps, modulesSym: Sym, ghost chain: seq<ExprPtr>,
                         ghost written: seq<Weak>, ghost start: seq<Entry>)
    requires i < |written| && HalfSelected(kid, dirs, modulesSym, chain, written, start, i)
    modifies kid`selects, dirs`of, dirs`log
    ensures HalfSelected(kid, dirs, modulesSym, chain, written, start, i + 1)
  {
    var w := kid.selects[i];
    assert w == written[i];
    var cond := PropagateToProperty(kid.dep, w.cond, Owner(kid), modulesSym);
    OneMore(written, i);
    OneSelectMore(kid.dep, written[..i], w, Owner(kid), kid.sym.value, chain, modulesSym);
    SetOne(kid.selects, i, w.(cond := cond));
    kid.selects := kid.selects[i := w.(cond := cond)];
    dirs.CollectPull(w.imply, w.target, kid.sym.value, cond, Selector(kid.sym.value, chain, w.cond), modulesSym);
    AppendOne(start, PullList(kid.sym.value, chain, written[..i]), Pull(w.imply, w.target, Selector(kid.sym.value, chain, w.cond)));
  }

  lemma SetOne<T>(s: seq<T>, i: nat, x: T)
    requires i < |s|
    ensures s[i := x][..i + 1] == s[..i] + [x] && s[i := x][i + 1..] == s[i + 1..]
    ensures s[i..] == [s[i]] + s[i + 1..]
  {
  }

  lemma AppendOne<T>(a: seq<T>, b: seq<T>, x: T)
    ensures a + b + [x] == a + (b + [x])
  {
  }

  /** The selects and implies of one node, whose dependency is already known. */
  method PropagateSelects(kid: Menu, dirs: SymbolDeps, modulesSym: Sym, ghost chain: seq<ExprPtr>)
    requires kid.sym.Some? && kid.dep == NodeDep(chain, modulesSym) && dirs.Valid(modulesSym)
    modifies kid`selects, dirs`of, dirs`log
    ensures kid.selects == PropagatedSelects(kid.dep, old(kid.selects), Owner(kid), modulesSym)
    ensures dirs.Valid(modulesSym) && dirs.log == old(dirs.log) + PullList(kid.sym.value, chain, old(kid.selects))
  {
    ghost var written := kid.selects;
    assert dirs.log + [] == dirs.log;
    for i := 0 to |kid.selects|
      invariant HalfSelected(kid, dirs, modulesSym, chain, written, old(dirs.log), i)
    {
      PropagateSelect(kid, i, dirs, modulesSym, chain, written, old(dirs.log));
    }
    WholeOf(written);
    WholeOf(kid.selects);
  }

  lemma WholeOf<T>(s: seq<T>)
    ensures s[..|s|] == s
  {
  }

  lemma OneMore<T>(s: seq<T>, i: nat)
    requires i < |s|
    ensures s[..i + 1] == s[..i] + [s[i]]
  {
  }

  /** The dependency of a node, and the condition of its prompt. */
  method PropagateOwn(kid: Menu, inherited: ExprPtr, modulesSym: Sym, ghost chain: seq<ExprPtr>, ghost run: Run)
    requires LabelOf(kid) == At(kid, run) && run.modulesSym == modulesSym && inherited == NodeDep(chain, modulesSym)
    modifies kid`dep, kid`cond
    ensures kid.dep == Inherited(kid, chain, run).dep && kid.cond == Inherited(kid, chain, run).cond
  {
    ghost var here := chain + [kid.dep];
    assert here[..|here| - 1] == chain;
    kid.dep := Propagate(inherited, kid.dep, modulesSym);
    if kid.hasPrompt {
      kid.cond := PropagateToProperty(kid.dep, kid.cond, Owner(kid), modulesSym);
    }
  }

  method PropagateTo(kid: Menu, inherited: ExprPtr, dirs: SymbolDeps, modulesSym: Sym, ghost chain: seq<ExprPtr>, ghost run: Run)
    requires LabelOf(kid) == At(kid, run) && dirs.Valid(modulesSym)
    requires run.modulesSym == modulesSym && inherited == NodeDep(chain, modulesSym)
    modifies kid`dep, kid`cond, kid`selects, dirs`of, dirs`log
    ensures LabelOf(kid) == Inherited(kid, chain, run)
    ensures dirs.Valid(modulesSym) && dirs.Collected() == old(dirs.Collected()) + PullsOf(kid, chain, run)
  {
    ghost var here := chain + [kid.dep];
    PropagateOwn(kid, inherited, modulesSym, chain, run);
    if kid.sym.Some? {
      PropagateSelects(kid, dirs, modulesSym, here);
      BagOfMore(old(dirs.log), PullList(kid.sym.value, here, At(kid, run).selects));
    }
  }

  /** Propagation to one child leaves the labels of the others alone. */
  method PropagateAmong(kid: Menu, inherited: ExprPtr, dirs: SymbolDeps, modulesSym: Sym, ghost chain: seq<ExprPtr>, ghost run: Run,
                        ghost done: Forest, ghost k: Forest, ghost r: Forest)
    requires LabelOf(kid) == At(kid, run) && dirs.Valid(modulesSym)
    requires run.modulesSym == modulesSym && inherited == NodeDep(chain, modulesSym)
    requires kid !in Nodes(done) && kid !in Nodes(k) && kid !in Nodes(r)
    modifies kid`dep, kid`cond, kid`selects, dirs`of, dirs`log
    ensures LabelOf(kid) == Inherited(kid, chain, run)
    ensures LabelsOf(done) == old(LabelsOf(done)) && LabelsOf(k) == old(LabelsOf(k)) && LabelsOf(r) == old(LabelsOf(r))
    ensures dirs.Valid(modulesSym) && dirs.Collected() == old(dirs.Collected()) + PullsOf(kid, chain, run)
  {
    NodesExist(done);
    NodesExist(k);
    NodesExist(r);
    PropagateTo(kid, inherited, dirs, modulesSym, chain, run);
  }

  /** And all links. */
  method PropagateBeside(kid: Menu, inherited: ExprPtr, dirs: SymbolDeps, modulesSym: Sym, ghost chain: seq<ExprPtr>, ghost run: Run,
                         ghost done: Forest, ghost k: Forest, ghost r: Forest, ghost first: Menu?, ghost par: Menu)
    requires LabelOf(kid) == At(kid, run) && dirs.Valid(modulesSym)
    requires run.modulesSym == modulesSym && inherited == NodeDep(chain, modulesSym)
    requires kid !in Nodes(done) && kid !in Nodes(k) && kid !in Nodes(r)
    modifies kid`dep, kid`cond, kid`selects, dirs`of, dirs`log
    ensures LabelOf(kid) == Inherited(kid, chain, run)
    ensures LabelsOf(done) == old(LabelsOf(done)) && LabelsOf(k) == old(LabelsOf(k)) && LabelsOf(r) == old(LabelsOf(r))
    ensures Walk(done, Cons(kid, k, r), first, kid, par) == old(Walk(done, Cons(kid, k, r), first, kid, par))
    ensures dirs.Valid(modulesSym) && dirs.Collected() == old(dirs.Collected()) + PullsOf(kid, chain, run)
  {
    NodesExist(done);
    NodesExist(Cons(kid, k, r));
    PropagateAmong(kid, inherited, dirs, modulesSym, chain, run, done, k, r);
  }

  /** One child gets its expressions, between those that have theirs and those that wait. */
  lemma PendingSnoc(done: Forest, n: Menu, k: Forest, chain: seq<ExprPtr>, run: Run)
    requires Pending(done, chain, run) && Untouched(k, run) && LabelOf(n) == Inherited(n, chain, run)
    ensures Pending(Append(done, Cons(n, k, Nil)), chain, run)
    ensures TopPulls(Append(done, Cons(n, k, Nil)), chain, run) == TopPulls(done, chain, run) + PullsOf(n, chain, run)
  {
    var one := Cons(n, k, Nil);
    LabelsAppend(done, one);
    WaitingAppend(done, one, chain, run);
    assert LabelsOf(Nil) == Bare == Waiting(Nil, chain, run);
    TopPullsAppend(done, one, chain, run);
    assert TopPulls(one, chain, run) == PullsOf(n, chain, run);
  }

  /** One round of the loop below. */
  method PropagateStep(menu: Menu, inherited: ExprPtr, dirs: SymbolDeps, modulesSym: Sym, ghost f: Forest,
                       ghost done: Forest, ghost todo: Forest, ghost first: Menu?, ghost par: Menu,
                       ghost chain: seq<ExprPtr>, ghost run: Run, ghost start: multiset<Entry>)
    returns (ghost done': Forest)
    requires f == Append(done, todo) && Walk(done, todo, first, menu, par)
    requires Pending(done, chain, run) && Untouched(todo, run)
    requires run.modulesSym == modulesSym && inherited == NodeDep(chain, modulesSym)
    requires dirs.Valid(modulesSym) && dirs.Collected() == start + TopPulls(done, chain, run)
    modifies menu`dep, menu`cond, menu`selects, dirs`of, dirs`log
    ensures todo.Cons? && todo.node == menu && f == Append(done', todo.rest)
    ensures Walk(done', todo.rest, first, menu.next, par) && Pending(done', chain, run) && Untouched(todo.rest, run)
    ensures dirs.Valid(modulesSym) && dirs.Collected() == start + TopPulls(done', chain, run)
  {
    PropagateBeside(menu, inherited, dirs, modulesSym, chain, run, done, todo.kids, todo.rest, first, par);
    PendingSnoc(done, menu, todo.kids, chain, run);
    WalkOn(done, menu, todo.kids, todo.rest, first, par);
    AppendAssoc(done, Cons(menu, todo.kids, Nil), todo.rest);
    SumAssoc(start, TopPulls(done, chain, run), PullsOf(menu, chain, run));
    done' := Append(done, Cons(menu, todo.kids, Nil));
  }

  /** The loop of menu_finalize that rewrites the expressions of the children. */
  method PropagateToKids(parent: Menu, dirs: SymbolDeps, modulesSym: Sym, ghost f: Forest, ghost chain: seq<ExprPtr>, ghost run: Run)
    requires Proper(f) && parent !in Nodes(f) && Chain(f, parent.list, null, parent) && Untouched(f, run)
    requires run.modulesSym == modulesSym && ParentDep(parent) == NodeDep(chain, modulesSym) && dirs.Valid(modulesSym)
    modifies Nodes(f)`dep, Nodes(f)`cond, Nodes(f)`selects, dirs`of, dirs`log
    ensures Chain(f, parent.list, null, parent)
    ensures Pending(f, chain, run)
    ensures dirs.Valid(modulesSym) && dirs.Collected() == old(dirs.Collected()) + TopPulls(f, chain, run)
  {
    var menu := parent.list;
    var inherited := ParentDep(parent);
    ghost var done, todo := Nil, f;
    while menu != null
      invariant f == Append(done, todo) && Walk(done, todo, parent.list, menu, parent)
      invariant Pending(done, chain, run) && Untouched(todo, run)
      invariant dirs.Valid(modulesSym) && dirs.Collected() == old(dirs.Collected()) + TopPulls(done, chain, run)
      decreases todo
    {
      PreAppend(done, todo);
      done := PropagateStep(menu, inherited, dirs, modulesSym, f, done, todo, parent.list, parent, chain, run, old(dirs.Collected()));
      todo := todo.rest;
      menu := menu.next;
    }
    AppendNil(done);
  }

  lemma SumAssoc<T>(a: multiset<T>, b: multiset<T>, c: multiset<T>)
    ensures a + b + c == a + (b + c)
  {
  }

  /** What the loops over siblings have left behind: part gone of the forest f is finalised. */
  lemma GoneGrows(gone: Forest, n: Menu, k: Forest, g: Forest, chain: seq<ExprPtr>, run: Run, start: multiset<Entry>)
    requires Done(gone, chain, run) && Done(Cons(n, k, g), chain, run)
    ensures var gone' := Append(gone, Cons(n, k, g));
      && Done(gone', chain, run)
      && start + Places(gone, chain, run) + Places(Cons(n, k, g), chain, run) == start + Places(gone', chain, run)
  {
    LabelsAppend(gone, Cons(n, k, g));
    FinalAppend(gone, Cons(n, k, g), chain, run);
    PlacesAppend(gone, Cons(n, k, g), chain, run);
    SumAssoc(start, Places(gone, chain, run), Places(Cons(n, k, g), chain, run));
  }

  /** Finalises a node, which leaves the links of those before it alone. */
  method FinalizeBeside(menu: Menu, dirs: SymbolDeps, modulesSym: Sym, ghost k: Forest, ghost r: Forest, ghost par: Menu?,
                        ghost chain: seq<ExprPtr>, ghost run: Run,
                        ghost done: Forest, ghost first: Menu?, ghost donePar: Menu?)
    returns (ghost k': Forest, ghost g: Forest, ghost r': Forest)
    requires Proper(Cons(menu, k, r)) && Chain(Cons(menu, k, r), menu, null, par)
    requires run.modulesSym == modulesSym && Pending(Cons(menu, k, r), chain, run) && dirs.Valid(modulesSym)
    requires Nodes(done) !! Nodes(Cons(menu, k, r))
    modifies Nodes(Cons(menu, k, r)), dirs`of, dirs`log
    ensures r == Append(g, r') && Pre(k') == Pre(k) + Pre(g)
    ensures Chain(Cons(menu, k', r'), menu, null, par)
    ensures Done(Cons(menu, k, g), chain, run) && Pending(r', chain, run)
    ensures dirs.Valid(modulesSym) && dirs.Collected() == old(dirs.Collected()) + Places(Cons(menu, k, g), chain, run)
    ensures Chain(done, first, menu, donePar) == old(Chain(done, first, menu, donePar))
    decreases |Pre(Cons(menu, k, r))|, 2
  {
    NodesExist(done);
    k', g, r' := Finalize(menu, dirs, modulesSym, k, r, par, chain, run);
  }

  /** Finalises the next sibling, which leaves those before it alone. */
  method FinalizeNext(menu: Menu, dirs: SymbolDeps, modulesSym: Sym, ghost k: Forest, ghost r: Forest, ghost par: Menu?,
                      ghost chain: seq<ExprPtr>, ghost run: Run,
                      ghost done: Forest, ghost gone: Forest, ghost first: Menu?, ghost donePar: Menu?)
    returns (ghost k': Forest, ghost g: Forest, ghost r': Forest)
    requires Proper(Cons(menu, k, r)) && Chain(Cons(menu, k, r), menu, null, par)
    requires run.modulesSym == modulesSym && Pending(Cons(menu, k, r), chain, run) && dirs.Valid(modulesSym)
    requires Nodes(done) == Nodes(gone) && Nodes(done) !! Nodes(Cons(menu, k, r))
    modifies Nodes(Cons(menu, k, r)), dirs`of, dirs`log
    ensures r == Append(g, r') && Pre(k') == Pre(k) + Pre(g)
    ensures Chain(Cons(menu, k', r'), menu, null, par)
    ensures Done(Cons(menu, k, g), chain, run) && Pending(r', chain, run)
    ensures dirs.Valid(modulesSym) && dirs.Collected() == old(dirs.Collected()) + Places(Cons(menu, k, g), chain, run)
    ensures Chain(done, first, menu, donePar) == old(Chain(done, first, menu, donePar))
    ensures LabelsOf(gone) == old(LabelsOf(gone))
    decreases |Pre(Cons(menu, k, r))|, 3
  {
    NodesExist(gone);
    k', g, r' := FinalizeBeside(menu, dirs, modulesSym, k, r, par, chain, run, done, first, donePar);
  }

  /** One round of the loop below. */
  method FinalizeStep(menu: Menu, parent: Menu, dirs: SymbolDeps, modulesSym: Sym, ghost f: Forest,
                      ghost chain: seq<ExprPtr>, ghost run: Run, ghost done: Forest, ghost gone: Forest, ghost todo: Forest,
                      ghost first: Menu?, ghost start: multiset<Entry>)
    returns (ghost done': Forest, ghost gone': Forest, ghost todo': Forest)
    requires Proper(f) && parent !in Nodes(f)
    requires f == Append(gone, todo) && Pre(done) == Pre(gone) && Nodes(f) == Nodes(done) + Nodes(todo)
    requires Walk(done, todo, first, menu, parent)
    requires run.modulesSym == modulesSym && Done(gone, chain, run) && Pending(todo, chain, run)
    requires dirs.Valid(modulesSym) && dirs.Collected() == start + Places(gone, chain, run)
    modifies Nodes(todo), dirs`of, dirs`log
    ensures f == Append(gone', todo') && Pre(done') == Pre(gone') && Nodes(f) == Nodes(done') + Nodes(todo')
    ensures Walk(done', todo', first, menu.next, parent)
    ensures Done(gone', chain, run) && Pending(todo', chain, run)
    ensures dirs.Valid(modulesSym) && dirs.Collected() == start + Places(gone', chain, run)
    ensures |Pre(todo')| < |Pre(todo)|
    decreases |Pre(todo)|, 4
  {
    ghost var k, r := todo.kids, todo.rest;
    SamePreorder(done, gone);
    ghost var k', g';
    k', g', todo' := FinalizeNext(menu, dirs, modulesSym, k, r, parent, chain, run, done, gone, first, parent);
    ChainSnoc(done, menu, k', first, menu.next, parent);
    StepKids(f, done, gone, menu, k, r, k', g', todo');
    GoneGrows(gone, menu, k, g', chain, run, start);
    done', gone' := Append(done, Cons(menu, k', Nil)), Append(gone, Cons(menu, k, g'));
  }

  /** The recursive loop over the children. */
  method FinalizeKids(parent: Menu, dirs: SymbolDeps, modulesSym: Sym, ghost f: Forest, ghost chain: seq<ExprPtr>, ghost run: Run)
    returns (ghost g: Forest)
    requires Proper(f) && parent !in Nodes(f) && Chain(f, parent.list, null, parent)
    requires run.modulesSym == modulesSym && Pending(f, chain, run) && dirs.Valid(modulesSym)
    modifies Nodes(f), dirs`of, dirs`log
    ensures Pre(g) == Pre(f) && Chain(g, parent.list, null, parent)
    ensures Done(f, chain, run)
    ensures dirs.Valid(modulesSym) && dirs.Collected() == old(dirs.Collected()) + Places(f, chain, run)
    decreases |Pre(f)|, 5
  {
    var menu := parent.list;
    ghost var done, gone, todo := Nil, Nil, f;
    NodesExist(f);
    while menu != null
      invariant f == Append(gone, todo) && Pre(done) == Pre(gone) && Nodes(f) == Nodes(done) + Nodes(todo)
      invariant Walk(done, todo, parent.list, menu, parent)
      invariant Done(gone, chain, run) && Pending(todo, chain, run)
      invariant dirs.Valid(modulesSym) && dirs.Collected() == old(dirs.Collected()) + Places(gone, chain, run)
      invariant |Pre(todo)| <= |Pre(f)|
      decreases |Pre(todo)|
    {
      done, gone, todo :=
        FinalizeStep(menu, parent, dirs, modulesSym, f, chain, run, done, gone, todo, parent.list, old(dirs.Collected()));
      menu := menu.next;
    }
    g := done;
    AppendNil(gone);
  }

  /** The bookkeeping of one round: a node with children k and siblings r has become one with children
      k' that have swallowed the siblings g. */
  lemma SwallowPre(done: Forest, gone: Forest, n: Menu, k: Forest, k': Forest, g: Forest)
    requires Pre(done) == Pre(gone) && Pre(k') == Pre(k) + Pre(g)
    ensures Pre(Append(done, Cons(n, k', Nil))) == Pre(Append(gone, Cons(n, k, g)))
  {
    PreAppend(done, Cons(n, k', Nil));
    PreAppend(gone, Cons(n, k, g));
    PreSame(n, k, k', g);
  }

  lemma PreSame(n: Menu, k: Forest, k': Forest, g: Forest)
    requires Pre(k') == Pre(k) + Pre(g)
    ensures Pre(Cons(n, k', Nil)) == Pre(Cons(n, k, g))
  {
    ThreeInRow([n], Pre(k), Pre(g));
  }

  lemma ThreeInRow<T>(a: seq<T>, b: seq<T>, c: seq<T>)
    ensures a + (b + c) + [] == a + b + c
  {
  }

  lemma RestIsShorter(gone: Forest, n: Menu, k: Forest, g: Forest, r': Forest)
    ensures var f := Append(gone, Cons(n, k, Append(g, r')));
      |Pre(r')| < |Pre(Cons(n, k, Append(g, r')))| <= |Pre(f)|
  {
    PreAppend(g, r');
    PreAppend(gone, Cons(n, k, Append(g, r')));
  }

  lemma StepKids(f: Forest, done: Forest, gone: Forest, n: Menu, k: Forest, r: Forest,
                 k': Forest, g: Forest, r': Forest)
    requires f == Append(gone, Cons(n, k, r)) && Pre(done) == Pre(gone) && Proper(f)
    requires r == Append(g, r') && Pre(k') == Pre(k) + Pre(g)
    ensures var done' := Append(done, Cons(n, k', Nil));
      && f == Append(Append(gone, Cons(n, k, g)), r')
      && Pre(done') == Pre(Append(gone, Cons(n, k, g)))
      && Nodes(f) == Nodes(done') + Nodes(r') && Nodes(done') !! Nodes(r') && Proper(done') && Proper(r')
      && |Pre(r')| < |Pre(Cons(n, k, r))| <= |Pre(f)|
  {
    var done', gone' := Append(done, Cons(n, k', Nil)), Append(gone, Cons(n, k, g));
    AppendAssoc(gone, Cons(n, k, g), r');
    SwallowPre(done, gone, n, k, k', g);
    RestIsShorter(gone, n, k, g, r');
    PreAppend(gone', r');
    ProperAppend(gone', r');
    SamePreorder(done', gone');
  }

  /** The siblings that a node has taken over, already renamed, and those still ahead under the old
      parent. */
  ghost predicate Absorbing(done: Forest, todo: Forest, first: Menu?, menu: Menu?, par: Menu, gp: Menu?)
    reads Nodes(done)`next, Nodes(done)`parent, Nodes(done)`list, Nodes(todo)`next, Nodes(todo)`parent, Nodes(todo)`list
  {
    && Proper(done) && Proper(todo) && Nodes(done) !! Nodes(todo)
    && Chain(done, first, menu, par) && Chain(todo, menu, null, gp)
  }

  /** The expression on which the submenu test of an entry rests. */
  function TestedDep(menu: Menu): ExprPtr
    reads menu
  {
    if menu.hasPrompt then menu.cond else menu.dep
  }

  function TestedBase(menu: Menu): ExprPtr
    reads menu
  {
    if menu.hasPrompt then menu.cond else Null
  }

  /** Finalises the next sibling and gives it the new parent. */
  method AbsorbOne(menu: Menu, parent: Menu, dirs: SymbolDeps, modulesSym: Sym, ghost k: Forest, ghost r: Forest,
                   ghost gp: Menu?, ghost chain: seq<ExprPtr>, ghost run: Run,
                   ghost done: Forest, ghost gone: Forest, ghost first: Menu?)
    returns (ghost k': Forest, ghost g: Forest, ghost r': Forest)
    requires Proper(Cons(menu, k, r)) && Chain(Cons(menu, k, r), menu, null, gp) && parent !in Nodes(Cons(menu, k, r))
    requires run.modulesSym == modulesSym && Pending(Cons(menu, k, r), chain, run) && dirs.Valid(modulesSym)
    requires Nodes(done) == Nodes(gone) && Nodes(done) !! Nodes(Cons(menu, k, r))
    modifies Nodes(Cons(menu, k, r)), dirs`of, dirs`log
    ensures r == Append(g, r') && Pre(k') == Pre(k) + Pre(g)
    ensures menu.parent == parent && Chain(k', menu.list, null, menu) && Chain(r', menu.next, null, gp)
    ensures Done(Cons(menu, k, g), chain, run) && Pending(r', chain, run)
    ensures dirs.Valid(modulesSym) && dirs.Collected() == old(dirs.Collected()) + Places(Cons(menu, k, g), chain, run)
    ensures Chain(done, first, menu, parent) == old(Chain(done, first, menu, parent))
    ensures LabelsOf(gone) == old(LabelsOf(gone))
    decreases |Pre(Cons(menu, k, r))|, 4
  {
    k', g, r' := FinalizeNext(menu, dirs, modulesSym, k, r, gp, chain, run, done, gone, first, parent);
    FinalizedIsProper(menu, k, r, k', g, r');
    SwallowedNodes(k, k', g, r, r');
    Rename(menu, parent, k, k', g, r', gp, done, gone, first);
  }

  lemma SwallowedNodes(k: Forest, k': Forest, g: Forest, r: Forest, r': Forest)
    requires r == Append(g, r') && Pre(k') == Pre(k) + Pre(g)
    ensures Nodes(k') == Nodes(k) + Nodes(g) && Nodes(r) == Nodes(g) + Nodes(r')
  {
    PreAppend(g, r');
    PreAppend(k, g);
    SamePreorder(k', Append(k, g));
  }

  /** Gives a node a new parent. */
  method Rename(menu: Menu, parent: Menu, ghost k: Forest, ghost k': Forest, ghost g: Forest, ghost r': Forest, ghost gp: Menu?,
                ghost done: Forest, ghost gone: Forest, ghost first: Menu?)
    requires menu !in Nodes(k') && menu !in Nodes(r') && menu !in Nodes(done)
    modifies menu`parent
    ensures menu.parent == parent
    ensures Chain(k', menu.list, null, menu) == old(Chain(k', menu.list, null, menu))
    ensures Chain(r', menu.next, null, gp) == old(Chain(r', menu.next, null, gp))
    ensures Chain(done, first, menu, parent) == old(Chain(done, first, menu, parent))
    ensures LabelsOf(Cons(menu, k, g)) == old(LabelsOf(Cons(menu, k, g)))
    ensures LabelsOf(r') == old(LabelsOf(r')) && LabelsOf(gone) == old(LabelsOf(gone))
  {
    menu.parent := parent;
  }

  lemma FinalizedIsProper(n: Menu, k: Forest, r: Forest, k': Forest, g: Forest, r': Forest)
    requires Proper(Cons(n, k, r)) && r == Append(g, r') && Pre(k') == Pre(k) + Pre(g)
    ensures Proper(Cons(n, k', r')) && Nodes(Cons(n, k', r')) == Nodes(Cons(n, k, r))
    ensures Pre(Cons(n, k', r')) == Pre(Cons(n, k, r))
  {
    PreAppend(g, r');
    assert [n] + Pre(k') + Pre(r') == [n] + Pre(k) + (Pre(g) + Pre(r'));
    SamePreorder(Cons(n, k', r'), Cons(n, k, r));
  }

  /** The forest that ends in the last absorbed sibling. */
  ghost predicate EndsIn(done: Forest, last: Menu?, init: Forest, lastKids: Forest) {
    if last == null then done == Nil else done == Append(init, Cons(last, lastKids, Nil))
  }

  /** One round of the loop below. */
  method AbsorbStep(menu: Menu, parent: Menu, dirs: SymbolDeps, modulesSym: Sym, ghost r: Forest, ghost gp: Menu?,
                    ghost chain: seq<ExprPtr>, ghost run: Run, ghost done: Forest, ghost gone: Forest, ghost todo: Forest,
                    ghost first: Menu?, ghost start: multiset<Entry>)
    returns (ghost done': Forest, ghost gone': Forest, ghost todo': Forest, ghost lastKids: Forest)
    requires Proper(r) && parent !in Nodes(r)
    requires r == Append(gone, todo) && Pre(done) == Pre(gone) && Nodes(r) == Nodes(done) + Nodes(todo)
    requires Absorbing(done, todo, first, menu, parent, gp)
    requires run.modulesSym == modulesSym && Done(gone, chain, run) && Pending(todo, chain, run)
    requires dirs.Valid(modulesSym) && dirs.Collected() == start + Places(gone, chain, run)
    modifies Nodes(todo), dirs`of, dirs`log
    ensures r == Append(gone', todo') && Pre(done') == Pre(gone') && Nodes(r) == Nodes(done') + Nodes(todo')
    ensures Absorbing(done', todo', first, menu.next, parent, gp)
    ensures Done(gone', chain, run) && Pending(todo', chain, run)
    ensures dirs.Valid(modulesSym) && dirs.Collected() == start + Places(gone', chain, run)
    ensures |Pre(todo')| < |Pre(todo)| && done' == Append(done, Cons(menu, lastKids, Nil))
    decreases |Pre(todo)|, 5
  {
    ghost var k, g := todo.kids, Nil;
    SamePreorder(done, gone);
    lastKids, g, todo' := AbsorbOne(menu, parent, dirs, modulesSym, k, todo.rest, gp, chain, run, done, gone, first);
    ChainSnoc(done, menu, lastKids, first, menu.next, parent);
    StepKids(r, done, gone, menu, k, todo.rest, lastKids, g, todo');
    GoneGrows(gone, menu, k, g, chain, run, start);
    done', gone' := Append(done, Cons(menu, lastKids, Nil)), Append(gone, Cons(menu, k, g));
  }

  /** The loop of automatic submenu creation: consecutive siblings that pass the dependency test are
      finalised and given the new parent. */
  method AbsorbLoop(parent: Menu, dirs: SymbolDeps, modulesSym: Sym, ghost r: Forest, ghost gp: Menu?,
                    ghost chain: seq<ExprPtr>, ghost run: Run)
    returns (menu: Menu?, last: Menu?, ghost done: Forest, ghost gone: Forest, ghost todo: Forest,
             ghost init: Forest, ghost lastKids: Forest)
    requires parent !in Nodes(r) && Proper(r) && Chain(r, parent.next, null, gp) && parent.sym.Some?
    requires run.modulesSym == modulesSym && Pending(r, chain, run) && dirs.Valid(modulesSym)
    modifies Nodes(r), dirs`of, dirs`log
    ensures r == Append(gone, todo) && Pre(done) == Pre(gone) && Nodes(r) == Nodes(done) + Nodes(todo)
    ensures Absorbing(done, todo, parent.next, menu, parent, gp)
    ensures Done(gone, chain, run) && Pending(todo, chain, run)
    ensures dirs.Valid(modulesSym) && dirs.Collected() == old(dirs.Collected()) + Places(gone, chain, run)
    ensures EndsIn(done, last, init, lastKids)
    decreases |Pre(r)|, 6
  {
    menu, last := parent.next, null;
    done, gone, todo, init, lastKids := Nil, Nil, r, Nil, Nil;
    NodesExist(r);
    while menu != null
      invariant r == Append(gone, todo) && Pre(done) == Pre(gone) && Nodes(r) == Nodes(done) + Nodes(todo)
      invariant Absorbing(done, todo, parent.next, menu, parent, gp)
      invariant Done(gone, chain, run) && Pending(todo, chain, run)
      invariant dirs.Valid(modulesSym) && dirs.Collected() == old(dirs.Collected()) + Places(gone, chain, run)
      invariant |Pre(todo)| <= |Pre(r)|
      invariant EndsIn(done, last, init, lastKids)
      decreases |Pre(todo)|
    {
      if !JoinsSubmenu(TestedDep(menu), parent.sym.value, TestedBase(parent)) {
        break;
      }
      init := done;
      done, gone, todo, lastKids :=
        AbsorbStep(menu, parent, dirs, modulesSym, r, gp, chain, run, done, gone, todo, parent.next, old(dirs.Collected()));
      last := menu;
      menu := menu.next;
    }
  }

  /** Automatic submenu creation: the consecutive siblings that pass the dependency test become the
      children of the node. */
  method Absorb(parent: Menu, dirs: SymbolDeps, modulesSym: Sym, ghost r: Forest, ghost gp: Menu?,
                ghost chain: seq<ExprPtr>, ghost run: Run)
    returns (ghost k': Forest, ghost gone: Forest, ghost r': Forest)
    requires parent !in Nodes(r) && Proper(r) && Chain(r, parent.next, null, gp)
    requires parent.list == null && parent.sym.Some?
    requires run.modulesSym == modulesSym && Pending(r, chain, run) && dirs.Valid(modulesSym)
    modifies Nodes(r), parent`next, parent`list, dirs`of, dirs`log
    ensures r == Append(gone, r') && Pre(k') == Pre(gone)
    ensures Chain(k', parent.list, null, parent) && Chain(r', parent.next, null, gp)
    ensures Done(gone, chain, run) && Pending(r', chain, run)
    ensures dirs.Valid(modulesSym) && dirs.Collected() == old(dirs.Collected()) + Places(gone, chain, run)
    decreases |Pre(r)|, 7
  {
    ghost var init, lastKids;
    var menu, last;
    menu, last, k', gone, r', init, lastKids := AbsorbLoop(parent, dirs, modulesSym, r, gp, chain, run);
    TakeOverAll(parent, last, menu, k', gone, r', gp, init, lastKids);
  }

  /** Takes over the absorbed siblings, if there are any. */
  method TakeOverAll(parent: Menu, last: Menu?, ghost menu: Menu?, ghost done: Forest, ghost gone: Forest, ghost todo: Forest,
                     ghost gp: Menu?, ghost init: Forest, ghost lastKids: Forest)
    requires Absorbing(done, todo, parent.next, menu, parent, gp) && EndsIn(done, last, init, lastKids)
    requires parent !in Nodes(done) && parent !in Nodes(todo) && parent.list == null
    modifies Nodes(done)`next, parent`next, parent`list
    ensures Chain(done, parent.list, null, parent) && Chain(todo, parent.next, null, gp)
    ensures LabelsOf(gone) == old(LabelsOf(gone)) && LabelsOf(todo) == old(LabelsOf(todo))
  {
    if last != null {
      NodesExist(gone);
      NodesExist(todo);
      PreAppend(init, Cons(last, lastKids, Nil));
      TakeOver(parent, last, menu, init, lastKids, todo, gp);
    }
  }

  /** Relinks the nodes up to the last absorbed sibling from after a node to below it. */
  method TakeOver(parent: Menu, last: Menu, ghost menu: Menu?, ghost init: Forest, ghost lastKids: Forest,
                  ghost todo: Forest, ghost gp: Menu?)
    requires Absorbing(Append(init, Cons(last, lastKids, Nil)), todo, parent.next, menu, parent, gp)
    requires parent !in Nodes(Append(init, Cons(last, lastKids, Nil))) && parent !in Nodes(todo)
    modifies parent`next, parent`list, last`next
    ensures Chain(Append(init, Cons(last, lastKids, Nil)), parent.list, null, parent)
    ensures Chain(todo, parent.next, null, gp)
  {
    ChainSnoc(init, last, lastKids, parent.next, menu, parent);
    ProperAppend(init, Cons(last, lastKids, Nil));
    parent.list := parent.next;
    parent.next := last.next;
    last.next := null;
    ChainSnoc(init, last, lastKids, parent.list, null, parent);
  }

  lemma OnePlaceMore(n: Menu, gone: Forest, chain: seq<ExprPtr>, run: Run, start: multiset<Entry>)
    requires n.sym.Some?
    ensures start + Places(gone, chain, run) + multiset{Place(n.sym.value, SiteOf(n, chain, run))}
            == start + Places(Cons(n, Nil, gone), chain, run)
  {
    SumsAgree(start, Places(gone, chain, run), multiset{Place(n.sym.value, SiteOf(n, chain, run))});
  }

  lemma SumsAgree<T>(a: multiset<T>, b: multiset<T>, c: multiset<T>)
    ensures a + b + c == a + (c + (multiset{} + multiset{}) + b)
  {
  }

  /** Collecting leaves the tree alone. */
  method CollectBeside(n: Menu, dirs: SymbolDeps, modulesSym: Sym, ghost site: Site, ghost k: Forest, ghost gone: Forest,
                       ghost r: Forest, ghost gp: Menu?)
    requires n.sym.Some? && n.dep == NodeDep(site.chain, modulesSym) && dirs.Valid(modulesSym)
    modifies dirs`of, dirs`log
    ensures dirs.Valid(modulesSym) && dirs.Collected() == old(dirs.Collected()) + multiset{Place(n.sym.value, site)}
    ensures Chain(k, n.list, null, n) == old(Chain(k, n.list, null, n))
    ensures Chain(r, n.next, null, gp) == old(Chain(r, n.next, null, gp))
    ensures LabelsOf(gone) == old(LabelsOf(gone)) && LabelsOf(r) == old(LabelsOf(r))
  {
    NodesExist(k);
    NodesExist(gone);
    NodesExist(r);
    dirs.Collect(n.sym.value, n.dep, site, modulesSym);
  }

  /** Adds a node's dependency to its symbol's. */
  method CollectPlace(n: Menu, dirs: SymbolDeps, modulesSym: Sym, ghost k: Forest, ghost gone: Forest, ghost r: Forest,
                      ghost gp: Menu?, ghost chain: seq<ExprPtr>, ghost run: Run, ghost start: multiset<Entry>)
    requires n.sym.Some? && n.dep == Inherited(n, chain, run).dep && run.modulesSym == modulesSym
    requires dirs.Valid(modulesSym) && dirs.Collected() == start + Places(gone, chain, run)
    modifies dirs`of, dirs`log
    ensures dirs.Valid(modulesSym) && dirs.Collected() == start + Places(Cons(n, Nil, gone), chain, run)
    ensures Chain(k, n.list, null, n) == old(Chain(k, n.list, null, n))
    ensures Chain(r, n.next, null, gp) == old(Chain(r, n.next, null, gp))
    ensures LabelsOf(gone) == old(LabelsOf(gone)) && LabelsOf(r) == old(LabelsOf(r))
  {
    CollectBeside(n, dirs, modulesSym, SiteOf(n, chain, run), k, gone, r, gp);
    OnePlaceMore(n, gone, chain, run, start);
  }

  /** A symbol node without children gathers siblings and adds to the symbol's direct dependency. */
  method AbsorbAndCollect(parent: Menu, dirs: SymbolDeps, modulesSym: Sym, ghost r: Forest, ghost gp: Menu?,
                          ghost chain: seq<ExprPtr>, ghost run: Run)
    returns (ghost k': Forest, ghost gone: Forest, ghost r': Forest)
    requires parent !in Nodes(r) && Proper(r) && Chain(r, parent.next, null, gp)
    requires parent.list == null && parent.sym.Some? && parent.dep == Inherited(parent, chain, run).dep
    requires run.modulesSym == modulesSym && Pending(r, chain, run) && dirs.Valid(modulesSym)
    modifies Nodes(r), parent`next, parent`list, dirs`of, dirs`log
    ensures r == Append(gone, r') && Pre(k') == Pre(gone)
    ensures Chain(k', parent.list, null, parent) && Chain(r', parent.next, null, gp)
    ensures Done(gone, chain, run) && Pending(r', chain, run)
    ensures dirs.Valid(modulesSym) && dirs.Collected() == old(dirs.Collected()) + Places(Cons(parent, Nil, gone), chain, run)
    decreases |Pre(r)|, 8
  {
    k', gone, r' := Absorb(parent, dirs, modulesSym, r, gp, chain, run);
    CollectPlace(parent, dirs, modulesSym, k', gone, r', gp, chain, run, old(dirs.Collected()));
  }

  lemma NoneGone(n: Menu, k: Forest, chain: seq<ExprPtr>, run: Run)
    requires k.Cons? || n.sym.None?
    ensures Pre(k) + Pre(Nil) == Pre(k) && Done(Nil, chain, run) && (k.Nil? ==> Done(k, KidsChain(n, chain, run), run))
    ensures Places(Cons(n, k, Nil), chain, run) == Below(k, KidsChain(n, chain, run), run)
  {
  }

  lemma NoKids(gone: Forest, chain: seq<ExprPtr>, run: Run)
    ensures Pre(Nil) + Pre(gone) == Pre(gone) && Done(Nil, chain, run)
  {
  }

  /** The two branches of menu_finalize: a node with children recurses into them, a symbol node without
      tries to gather some. */
  method Gather(parent: Menu, dirs: SymbolDeps, modulesSym: Sym, ghost k: Forest, ghost r: Forest, ghost gp: Menu?,
                ghost chain: seq<ExprPtr>, ghost run: Run)
    returns (ghost k': Forest, ghost gone: Forest, ghost r': Forest)
    requires parent !in Nodes(k) && parent !in Nodes(r) && Nodes(k) !! Nodes(r) && Proper(k) && Proper(r)
    requires Chain(k, parent.list, null, parent) && Chain(r, parent.next, null, gp)
    requires run.modulesSym == modulesSym && parent.dep == Inherited(parent, chain, run).dep
    requires Untouched(k, run) && Pending(r, chain, run) && dirs.Valid(modulesSym)
    modifies Nodes(k), Nodes(r), parent`next, parent`list, dirs`of, dirs`log
    ensures r == Append(gone, r') && Pre(k') == Pre(k) + Pre(gone)
    ensures Chain(k', parent.list, null, parent) && Chain(r', parent.next, null, gp)
    ensures Done(k, KidsChain(parent, chain, run), run) && Done(gone, chain, run) && Pending(r', chain, run)
    ensures dirs.Valid(modulesSym) && dirs.Collected() == old(dirs.Collected()) + Places(Cons(parent, k, gone), chain, run)
    decreases |Pre(k)| + |Pre(r)|, 9
  {
    if parent.list != null {
      k' := FinalizeBelow(parent, dirs, modulesSym, k, r, gp, chain, run);
      NoneGone(parent, k, chain, run);
      return k', Nil, r;
    }
    if parent.sym.Some? {
      k', gone, r' := AbsorbAndCollect(parent, dirs, modulesSym, r, gp, chain, run);
      NoKids(gone, KidsChain(parent, chain, run), run);
      return;
    }
    NoneGone(parent, k, chain, run);
    return k, Nil, r;
  }

  /** The same, and it leaves the node's own label alone. */
  method GatherBelow(parent: Menu, dirs: SymbolDeps, modulesSym: Sym, ghost k: Forest, ghost r: Forest, ghost gp: Menu?,
                     ghost chain: seq<ExprPtr>, ghost run: Run)
    returns (ghost k': Forest, ghost gone: Forest, ghost r': Forest)
    requires parent !in Nodes(k) && parent !in Nodes(r) && Nodes(k) !! Nodes(r) && Proper(k) && Proper(r)
    requires Chain(k, parent.list, null, parent) && Chain(r, parent.next, null, gp)
    requires run.modulesSym == modulesSym && parent.dep == Inherited(parent, chain, run).dep
    requires Untouched(k, run) && Pending(r, chain, run) && dirs.Valid(modulesSym)
    modifies Nodes(k), Nodes(r), parent`next, parent`list, dirs`of, dirs`log
    ensures r == Append(gone, r') && Pre(k') == Pre(k) + Pre(gone)
    ensures Chain(k', parent.list, null, parent) && Chain(r', parent.next, null, gp)
    ensures Done(k, KidsChain(parent, chain, run), run) && Done(gone, chain, run) && Pending(r', chain, run)
    ensures dirs.Valid(modulesSym) && dirs.Collected() == old(dirs.Collected()) + Places(Cons(parent, k, gone), chain, run)
    ensures LabelOf(parent) == old(LabelOf(parent))
    decreases |Pre(k)| + |Pre(r)|, 10
  {
    k', gone, r' := Gather(parent, dirs, modulesSym, k, r, gp, chain, run);
  }

  /** The branch of a node with children. */
  method FinalizeBelow(parent: Menu, dirs: SymbolDeps, modulesSym: Sym, ghost k: Forest, ghost r: Forest, ghost gp: Menu?,
                       ghost chain: seq<ExprPtr>, ghost run: Run)
    returns (ghost k': Forest)
    requires parent !in Nodes(k) && Nodes(k) !! Nodes(r) && Proper(k) && Chain(k, parent.list, null, parent)
    requires run.modulesSym == modulesSym && parent.dep == Inherited(parent, chain, run).dep
    requires Untouched(k, run) && dirs.Valid(modulesSym)
    modifies Nodes(k), dirs`of, dirs`log
    ensures Pre(k') == Pre(k) && Chain(k', parent.list, null, parent) && Done(k, KidsChain(parent, chain, run), run)
    ensures Chain(r, parent.next, null, gp) == old(Chain(r, parent.next, null, gp)) && LabelsOf(r) == old(LabelsOf(r))
    ensures dirs.Valid(modulesSym)
    ensures dirs.Collected() == old(dirs.Collected()) + Below(k, KidsChain(parent, chain, run), run)
    decreases |Pre(k)|, 7
  {
    ghost var start := dirs.Collected();
    PropagateBelow(parent, dirs, modulesSym, k, r, gp, chain, run);
    k' := KidsBeside(parent, dirs, modulesSym, k, KidsChain(parent, chain, run), run, r, gp);
    SumAssoc(start, TopPulls(k, KidsChain(parent, chain, run), run), Places(k, KidsChain(parent, chain, run), run));
  }

  /** The loop over the children leaves the siblings of the node alone. */
  method KidsBeside(parent: Menu, dirs: SymbolDeps, modulesSym: Sym, ghost f: Forest, ghost chain: seq<ExprPtr>, ghost run: Run,
                    ghost r: Forest, ghost gp: Menu?)
    returns (ghost g: Forest)
    requires Proper(f) && parent !in Nodes(f) && Nodes(f) !! Nodes(r) && Chain(f, parent.list, null, parent)
    requires run.modulesSym == modulesSym && Pending(f, chain, run) && dirs.Valid(modulesSym)
    modifies Nodes(f), dirs`of, dirs`log
    ensures Pre(g) == Pre(f) && Chain(g, parent.list, null, parent) && Done(f, chain, run)
    ensures Chain(r, parent.next, null, gp) == old(Chain(r, parent.next, null, gp)) && LabelsOf(r) == old(LabelsOf(r))
    ensures dirs.Valid(modulesSym) && dirs.Collected() == old(dirs.Collected()) + Places(f, chain, run)
    decreases |Pre(f)|, 6
  {
    NodesExist(r);
    g := FinalizeKids(parent, dirs, modulesSym, f, chain, run);
  }

  /** Propagation to the children changes nothing else. */
  method PropagateBelow(parent: Menu, dirs: SymbolDeps, modulesSym: Sym, ghost k: Forest, ghost r: Forest, ghost gp: Menu?,
                        ghost chain: seq<ExprPtr>, ghost run: Run)
    requires parent !in Nodes(k) && Nodes(k) !! Nodes(r) && Proper(k) && Chain(k, parent.list, null, parent)
    requires run.modulesSym == modulesSym && parent.dep == Inherited(parent, chain, run).dep && Untouched(k, run)
    requires dirs.Valid(modulesSym)
    modifies Nodes(k)`dep, Nodes(k)`cond, Nodes(k)`selects, dirs`of, dirs`log
    ensures Chain(k, parent.list, null, parent) && Pending(k, KidsChain(parent, chain, run), run)
    ensures Chain(r, parent.next, null, gp) == old(Chain(r, parent.next, null, gp)) && LabelsOf(r) == old(LabelsOf(r))
    ensures dirs.Valid(modulesSym)
    ensures dirs.Collected() == old(dirs.Collected()) + TopPulls(k, KidsChain(parent, chain, run), run)
  {
    NodesExist(r);
    ParentDepOfChain(parent, chain, run);
    PropagateToKids(parent, dirs, modulesSym, k, KidsChain(parent, chain, run), run);
  }

  /** menu_finalize up to its last loop. */
  method FinalizeBody(parent: Menu, dirs: SymbolDeps, modulesSym: Sym, ghost k: Forest, ghost r: Forest, ghost gp: Menu?,
                      ghost chain: seq<ExprPtr>, ghost run: Run)
    returns (ghost k': Forest, ghost gone: Forest, ghost r': Forest)
    requires Proper(Cons(parent, k, r)) && Chain(k, parent.list, null, parent) && Chain(r, parent.next, null, gp)
    requires run.modulesSym == modulesSym && Pending(Cons(parent, k, r), chain, run) && dirs.Valid(modulesSym)
    modifies Nodes(k), Nodes(r), parent`next, parent`list, parent`visits, dirs`of, dirs`log
    ensures r == Append(gone, r') && Pre(k') == Pre(k) + Pre(gone)
    ensures Chain(k', parent.list, null, parent) && Chain(r', parent.next, null, gp)
    ensures Done(Cons(parent, k, gone), chain, run) && Pending(r', chain, run)
    ensures dirs.Valid(modulesSym) && dirs.Collected() == old(dirs.Collected()) + Places(Cons(parent, k, gone), chain, run)
    decreases |Pre(k)| + |Pre(r)|, 11
  {
    Visit(parent, k, r, gp, chain, run);
    k', gone, r' := GatherBelow(parent, dirs, modulesSym, k, r, gp, chain, run);
    DoneNode(parent, k, gone, chain, run);
  }

  lemma DoneNode(n: Menu, k: Forest, gone: Forest, chain: seq<ExprPtr>, run: Run)
    requires LabelOf(n) == Visited(Inherited(n, chain, run))
    requires Done(k, KidsChain(n, chain, run), run) && Done(gone, chain, run)
    ensures Done(Cons(n, k, gone), chain, run)
  {
  }

  /** Counts a call. */
  method Visit(parent: Menu, ghost k: Forest, ghost r: Forest, ghost gp: Menu?, ghost chain: seq<ExprPtr>, ghost run: Run)
    requires parent !in Nodes(k) && parent !in Nodes(r) && Pending(Cons(parent, k, r), chain, run)
    modifies parent`visits
    ensures LabelOf(parent) == Visited(Inherited(parent, chain, run))
    ensures Untouched(k, run) && Pending(r, chain, run)
    ensures Chain(k, parent.list, null, parent) == old(Chain(k, parent.list, null, parent))
    ensures Chain(r, parent.next, null, gp) == old(Chain(r, parent.next, null, gp))
  {
    parent.visits := parent.visits + 1;
  }

  /** menu_finalize */
  method Finalize(parent: Menu, dirs: SymbolDeps, modulesSym: Sym, ghost k: Forest, ghost r: Forest, ghost gp: Menu?,
                  ghost chain: seq<ExprPtr>, ghost run: Run)
    returns (ghost k': Forest, ghost gone: Forest, ghost r': Forest)
    requires Proper(Cons(parent, k, r)) && Chain(Cons(parent, k, r), parent, null, gp)
    requires run.modulesSym == modulesSym && Pending(Cons(parent, k, r), chain, run) && dirs.Valid(modulesSym)
    modifies Nodes(Cons(parent, k, r)), dirs`of, dirs`log
    ensures r == Append(gone, r') && Pre(k') == Pre(k) + Pre(gone)
    ensures Chain(Cons(parent, k', r'), parent, null, gp)
    ensures Done(Cons(parent, k, gone), chain, run) && Pending(r', chain, run)
    ensures dirs.Valid(modulesSym) && dirs.Collected() == old(dirs.Collected()) + Places(Cons(parent, k, gone), chain, run)
    decreases |Pre(Cons(parent, k, r))|, 1
  {
    PreLength(Cons(parent, k, r));
    k', gone, r' := FinalizeBody(parent, dirs, modulesSym, k, r, gp, chain, run);
    FinalizedIsProper(parent, k, r, k', gone, r');
    k' := FlattenBelow(parent, k', Cons(parent, k, gone), r', gp);
  }

  /** Flattening below a node moves nothing else and changes no label. */
  method FlattenBelow(parent: Menu, ghost f: Forest, ghost gone: Forest, ghost r: Forest, ghost gp: Menu?) returns (ghost g: Forest)
    requires Proper(Cons(parent, f, r)) && Chain(f, parent.list, null, parent)
    modifies Nodes(f)`next, Nodes(f)`parent, Nodes(f)`list
    ensures Pre(g) == Pre(f) && Chain(g, parent.list, null, parent) && parent.parent == old(parent.parent)
    ensures Chain(r, parent.next, null, gp) == old(Chain(r, parent.next, null, gp))
    ensures LabelsOf(gone) == old(LabelsOf(gone)) && LabelsOf(r) == old(LabelsOf(r))
  {
    NodesExist(r);
    NodesExist(gone);
    g := Flatten(parent, f);
  }

  lemma {:induction false} Snapshot(f: Forest, run: Run)
    requires forall n | n in Nodes(f) :: At(n, run) == LabelOf(n)
    ensures Untouched(f, run)
  {
    if f.Cons? {
      Snapshot(f.kids, run);
      Snapshot(f.rest, run);
    }
  }

  lemma {:induction false} DoneVisited(f: Forest, chain: seq<ExprPtr>, run: Run)
    requires Done(f, chain, run)
    ensures forall n | n in Nodes(f) :: n.visits == At(n, run).visits + 1
  {
    if f.Cons? {
      DoneVisited(f.kids, KidsChain(f.node, chain, run), run);
      DoneVisited(f.rest, chain, run);
    }
  }

  /** The call of conf_parse on the whole tree: no node is lost, duplicated or moved in preorder, every
      link is consistent again, every node has been finalised exactly once and carries the expressions
      propagated along the tree as it was written, and every symbol's direct dependency is the one of
      its places, each taken once. */
  method FinalizeRoot(root: Menu, dirs: SymbolDeps, modulesSym: Sym, ghost k: Forest, ghost run: Run)
    returns (ghost k': Forest)
    requires Proper(Cons(root, k, Nil)) && Chain(Cons(root, k, Nil), root, null, null)
    requires root.dep == Null && root.cond == Null && root.selects == []
    requires forall n | n in Nodes(Cons(root, k, Nil)) :: At(n, run) == LabelOf(n)
    requires run.modulesSym == modulesSym && dirs.log == [] && dirs.Valid(modulesSym)
    modifies Nodes(Cons(root, k, Nil)), dirs`of, dirs`log
    ensures Pre(k') == Pre(k) && Proper(Cons(root, k', Nil))
    ensures Chain(Cons(root, k', Nil), root, null, null)
    ensures forall n | n in Nodes(Cons(root, k, Nil)) :: n.visits == At(n, run).visits + 1
    ensures Done(Cons(root, k, Nil), [], run)
    ensures dirs.Valid(modulesSym) && dirs.Collected() == Places(Cons(root, k, Nil), [], run)
  {
    Snapshot(Cons(root, k, Nil), run);
    assert [Null][..0] == [] && NodeDep([Null], modulesSym) == Null;
    assert [] + [At(root, run).dep] == [Null];
    ghost var gone, r';
    k', gone, r' := Finalize(root, dirs, modulesSym, k, Nil, null, [], run);
    AppendIsNil(gone, r');
    FinalizedIsProper(root, k, Nil, k', gone, r');
    DoneVisited(Cons(root, k, Nil), [], run);
  }

  lemma AppendIsNil(a: Forest, b: Forest)
    ensures Append(a, b) == Nil <==> a == Nil && b == Nil
  {
  }

  /** What is written on the way down to a node of the forest, and at the node itself. */
  function ChainTo(f: Forest, n: Menu, chain: seq<ExprPtr>, run: Run): seq<ExprPtr>
    requires n in Nodes(f)
  {
    if n == f.node then chain + [At(n, run).dep]
    else if n in Nodes(f.kids) then ChainTo(f.kids, n, KidsChain(f.node, chain, run), run)
    else ChainTo(f.rest, n, chain, run)
  }

  /** In the finished tree every node, at any depth, depends on exactly what was written on the way
      down to it. */
  lemma {:induction false} InheritedMeaning(f: Forest, n: Menu, chain: seq<ExprPtr>, run: Run, env: Env)
    requires ValidEnv(env) && Done(f, chain, run) && n in Nodes(f)
    requires (forall p | p in chain :: PlainPtr(p)) && forall x | x in run.written :: PlainPtr(run.written[x].dep)
    ensures n.dep == NodeDep(ChainTo(f, n, chain, run), run.modulesSym)
    ensures ValPtr(n.dep, env) == ChainValue(ChainTo(f, n, chain, run), run.modulesSym, env)
  {
    if n == f.node {
      NodeDepMeaning(chain + [At(n, run).dep], run.modulesSym, env);
    } else if n in Nodes(f.kids) {
      InheritedMeaning(f.kids, n, KidsChain(f.node, chain, run), run, env);
    } else {
      InheritedMeaning(f.rest, n, chain, run, env);
    }
  }
}
