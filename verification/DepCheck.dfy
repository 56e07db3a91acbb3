/** The recursive dependency check of scripts/config/symbol.c (sym_check_deps and its helpers) for
    graphs without choice groups, and the loop of conf_parse that counts its reports. */
module DepCheck {
  import opened Exprs
  import opened Options
  import opened Symbols

  /** The expressions that sym_check_sym_deps walks for the properties of a symbol. Range bounds,
      which are values of range properties, are not among them. */
  function CheckedProps(props: seq<Property>): seq<ExprPtr> {
    if props == [] then []
    else
      var p := props[0];
      var here := match p.kind
        case Select => []
        case Imply => []
        case Default => [p.cond, p.value]
        case _ => [p.cond];
      here + CheckedProps(props[1..])
  }

  function CheckedExprs(g: Graph, s: Sym): seq<ExprPtr> {
    if s in g then [g[s].dirDep, g[s].revDep, g[s].implied] + CheckedProps(g[s].props) else []
  }

  function AllSyms(ps: seq<ExprPtr>): set<Sym> {
    if ps == [] then {} else SymsPtr(ps[0]) + AllSyms(ps[1..])
  }

  /** The edges of the dependency graph. */
  function Edges(g: Graph, s: Sym): set<Sym> {
    AllSyms(CheckedExprs(g, s))
  }

  type EdgeMap = Sym -> set<Sym>

  ghost predicate IsPath(edge: EdgeMap, p: seq<Sym>) {
    forall i | 0 <= i < |p| - 1 :: p[i + 1] in edge(p[i])
  }

  ghost predicate IsCycle(edge: EdgeMap, p: seq<Sym>) {
    |p| >= 2 && p[0] == p[|p| - 1] && IsPath(edge, p)
  }

  ghost predicate HasCycle(edge: EdgeMap) {
    exists p :: IsCycle(edge, p)
  }

  /** A rank that falls along every edge. */
  ghost predicate Descends(edge: EdgeMap, rank: Sym -> nat) {
    forall s, x | x in edge(s) :: rank(x) < rank(s)
  }

  ghost predicate IsAcyclic(edge: EdgeMap) {
    exists rank :: Descends(edge, rank)
  }

  lemma PathGrows(edge: EdgeMap, p: seq<Sym>, s: Sym)
    requires IsPath(edge, p) && (p != [] ==> s in edge(p[|p| - 1]))
    ensures IsPath(edge, p + [s])
  {
  }

  ghost function Members(p: seq<Sym>): set<Sym> {
    set s | s in p
  }

  lemma {:induction false} RankFallsOnPath(edge: EdgeMap, rank: Sym -> nat, p: seq<Sym>)
    requires Descends(edge, rank) && IsPath(edge, p) && |p| >= 2
    ensures rank(p[|p| - 1]) < rank(p[0])
  {
    assert p[1] in edge(p[0]);
    if |p| > 2 {
      RankFallsOnPath(edge, rank, p[1..]);
    }
  }

  lemma CycleExcludesRank(edge: EdgeMap)
    requires HasCycle(edge)
    ensures !IsAcyclic(edge)
  {
    var p :| IsCycle(edge, p);
    forall rank | Descends(edge, rank)
      ensures false
    {
      RankFallsOnPath(edge, rank, p);
    }
  }

  ghost predicate IsEdgesOf(edge: EdgeMap, g: Graph) {
    forall s {:trigger Edges(g, s)} :: edge(s) == Edges(g, s)
  }

  lemma {:induction false} CheckedPropsCover(props: seq<Property>)
    ensures PropSyms(props) <= AllSyms(CheckedProps(props))
  {
    if props != [] {
      var p := props[0];
      CheckedPropsCover(props[1..]);
      var rest := CheckedProps(props[1..]);
      if p.kind.Default? {
        assert CheckedProps(props) == [p.cond] + ([p.value] + rest);
        AllSymsCons(p.value, rest);
        AllSymsCons(p.cond, [p.value] + rest);
      } else if p.kind == Select || p.kind == Imply {
        assert CheckedProps(props) == rest;
      } else {
        assert CheckedProps(props) == [p.cond] + rest;
        AllSymsCons(p.cond, rest);
      }
    }
  }

  lemma AllSymsCons(p: ExprPtr, ps: seq<ExprPtr>)
    ensures AllSyms([p] + ps) == SymsPtr(p) + AllSyms(ps)
  {
    assert ([p] + ps)[1..] == ps;
  }

  lemma ThreeInFront<T>(a: T, b: T, c: T, s: seq<T>)
    ensures [a, b, c] + s == [a] + ([b] + ([c] + s))
  {
  }

  lemma AllSymsOfThree(a: ExprPtr, b: ExprPtr, c: ExprPtr, ps: seq<ExprPtr>)
    ensures AllSyms([a, b, c] + ps) == SymsPtr(a) + SymsPtr(b) + SymsPtr(c) + AllSyms(ps)
  {
    ThreeInFront(a, b, c, ps);
    AllSymsCons(c, ps);
    AllSymsCons(b, [c] + ps);
    AllSymsCons(a, [b] + ([c] + ps));
  }

  lemma EdgesCoverDeps(g: Graph, s: Sym)
    requires s in g
    ensures Deps(g[s]) <= Edges(g, s)
  {
    var d := g[s];
    CheckedPropsCover(d.props);
    AllSymsOfThree(d.dirDep, d.revDep, d.implied, CheckedProps(d.props));
  }

  /** The checked edges include everything an evaluation reads, so a rank for the check is a rank
      for the evaluator. */
  lemma DescendsIsRanked(g: Graph, edge: EdgeMap, rank: Sym -> nat)
    requires IsEdgesOf(edge, g) && Descends(edge, rank)
    ensures Ranked(g, rank)
  {
    forall s, x | s in g && x in Deps(g[s])
      ensures rank(x) < rank(s)
    {
      EdgesCoverDeps(g, s);
      assert x in Edges(g, s);
    }
  }

  class DepChecker {
    const g: Graph
    const recursiveIsError: bool

    var check: set<Sym>      // SYMBOL_CHECK
    var checked: set<Sym>    // SYMBOL_CHECKED
    var stack: seq<Sym>      // the dep_stack list, bottom first

    ghost const universe: set<Sym>
    ghost const edge: EdgeMap
    ghost var rank: map<Sym, nat>  // ranks given to finished symbols, all below the clock
    ghost var clock: nat

    /** The stack is a path in the graph and holds exactly the symbols with SYMBOL_CHECK. */
    ghost predicate Valid()
      reads this
    {
      && IsEdgesOf(edge, g)
      && (forall s | s in universe :: edge(s) <= universe)
      && check <= checked <= universe
      && check == Members(stack)
      && IsPath(edge, stack)
    }

    ghost predicate Done(s: Sym)
      reads this`check, this`checked
    {
      s in checked && s !in check
    }

    ghost predicate RankedAbove(s: Sym)
      reads this`check, this`checked, this`rank, this`clock
    {
      s in rank && rank[s] < clock && forall x | x in edge(s) :: Done(x) && x in rank && rank[x] < rank[s]
    }

    /** Every finished symbol has only finished dependencies, all ranked below it. */
    ghost predicate Clean()
      reads this`check, this`checked, this`rank, this`clock
    {
      forall s | Done(s) :: RankedAbove(s)
    }

    ghost predicate Finished(syms: set<Sym>)
      reads this`check, this`checked
    {
      forall s | s in syms :: Done(s)
    }

    /** What any part of the search leaves in place. */
    twostate predicate Progress()
      reads this
    {
      check == old(check) && stack == old(stack) && old(checked) <= checked
    }

    constructor (g: Graph, recursiveIsError: bool)
      ensures Valid() && Clean() && check == {} && checked == {} && stack == []
      ensures this.g == g && this.recursiveIsError == recursiveIsError && g.Keys <= universe
    {
      this.g := g;
      this.recursiveIsError := recursiveIsError;
      check, checked, stack := {}, {}, [];
      edge := s => Edges(g, s);
      universe := g.Keys + set s, x | s in g.Keys && x in Edges(g, s) :: x;
      rank, clock := map[], 0;
      new;
      forall s | s in universe
        ensures Edges(this.g, s) <= universe
      {
        if s !in g {
          assert Edges(g, s) == {};
        }
      }
    }

    lemma Shrinks(before: set<Sym>)
      requires before <= checked <= universe
      ensures |universe - checked| <= |universe - before|
      ensures before != checked ==> |universe - checked| < |universe - before|
    {
      SubsetSize(universe - checked, universe - before);
      if x :| x in checked && x !in before {
        assert x in universe - before && x !in universe - checked;
      } else {
        assert before == checked;
      }
    }

    /** sym_check_expr_deps for the symbol on top of the stack. */
    method CheckExpr(e: Expr) returns (r: Option<Sym>)
      requires Valid() && stack != [] && stack[|stack| - 1] in universe && Syms(e) <= edge(stack[|stack| - 1])
      modifies this
      ensures Valid() && Progress()
      ensures r.Some? ==> HasCycle(edge) && (recursiveIsError || r.value in check)
      ensures recursiveIsError && old(Clean()) && r.None? ==> Clean() && Finished(Syms(e))
      decreases |universe - checked|, 2, e
    {
      match e
      case Leaf(s) =>
        r := CheckDeps(s);
      case Neg(a) =>
        r := CheckExpr(a);
      case Bin(_, left, right) =>
        ghost var before := checked;
        r := CheckExpr(left);
        if r.None? {
          Shrinks(before);
          r := CheckExpr(right);
        }
      case Rel(_, s1, s2) =>
        ghost var before := checked;
        r := CheckDeps(s1);
        if r.None? {
          Shrinks(before);
          r := CheckDeps(s2);
        }
    }

    /** Walks the expressions of the symbol on top of the stack in order until one reports. */
    method CheckExprs(s: Sym) returns (r: Option<Sym>)
      requires Valid() && s in universe && stack != [] && stack[|stack| - 1] == s
      modifies this
      ensures Valid() && Progress()
      ensures r.Some? ==> HasCycle(edge) && (recursiveIsError || r.value in check)
      ensures recursiveIsError && old(Clean()) && r.None? ==> Clean() && Finished(edge(s))
      decreases |universe - checked|, 3
    {
      ghost var start := checked;
      var exprs := CheckedExprs(g, s);
      assert exprs[0..] == exprs;
      assert Edges(g, s) == AllSyms(exprs);
      for i := 0 to |exprs|
        invariant Valid() && Progress()
        invariant AllSyms(exprs[i..]) <= edge(s)
        invariant recursiveIsError && old(Clean()) ==> Clean() && (forall x | x in edge(s) :: Done(x) || x in AllSyms(exprs[i..]))
      {
        assert exprs[i..][0] == exprs[i] && exprs[i..][1..] == exprs[i + 1..];
        if exprs[i].Ptr? {
          Shrinks(start);
          r := CheckExpr(exprs[i].e);
          if r.Some? {
            return;
          }
        }
      }
      r := None;
    }

    /** sym_check_sym_deps: push the symbol, check its expressions, pop. */
    method CheckSymDeps(s: Sym) returns (r: Option<Sym>)
      requires s in universe && s !in stack && IsPath(edge, stack + [s])
      requires IsEdgesOf(edge, g) && (forall x | x in universe :: edge(x) <= universe)
      requires check <= checked <= universe
      requires check == Members(stack) + {s}
      modifies this
      ensures Progress() && IsPath(edge, stack + [s]) && checked <= universe
      ensures r.Some? ==> HasCycle(edge) && (recursiveIsError || r.value in check)
      ensures recursiveIsError && old(Clean()) && r.None? ==> Clean() && Finished(edge(s))
      decreases |universe - checked|, 4
    {
      stack := stack + [s];
      assert stack[..|stack| - 1] == old(stack);
      assert check == Members(stack);
      r := CheckExprs(s);
      stack := stack[..|stack| - 1];
    }

    /** Marking a new symbol keeps the finished part of the graph as it was. */
    twostate lemma EnterKeepsClean(s: Sym)
      requires old(Clean()) && s !in old(checked)
      requires check == old(check) + {s} && checked == old(checked) + {s}
      requires rank == old(rank) && clock == old(clock)
      ensures Clean()
    {
      forall x | Done(x)
        ensures RankedAbove(x)
      {
        assert old(Done(x)) && old(RankedAbove(x));
        forall y | y in edge(x)
          ensures Done(y)
        {
          assert old(Done(y));
        }
      }
    }

    /** A symbol all of whose dependencies are finished is finished with the highest rank so far. */
    twostate lemma LeaveKeepsClean(s: Sym)
      requires old(Clean()) && old(Finished(edge(s)))
      requires s in old(check) && check == old(check) - {s} && s in checked && checked == old(checked)
      requires rank == old(rank)[s := old(clock)] && clock == old(clock) + 1
      ensures Clean() && Done(s)
    {
      forall x | Done(x)
        ensures RankedAbove(x)
      {
        assert x != s ==> old(Done(x)) && old(RankedAbove(x));
        forall y | y in edge(x)
          ensures Done(y) && y in rank && rank[y] < rank[x]
        {
          assert old(Done(y)) && old(RankedAbove(y));
        }
      }
    }

    /** Sets SYMBOL_CHECK and SYMBOL_CHECKED before the search from a new symbol. */
    method Enter(s: Sym)
      requires Valid() && s in universe && s !in checked
      requires stack != [] ==> s in edge(stack[|stack| - 1])
      modifies this`check, this`checked
      ensures check == old(check) + {s} == Members(stack) + {s} && checked == old(checked) + {s}
      ensures s !in stack && IsPath(edge, stack + [s]) && IsPath(edge, stack)
      ensures |universe - checked| < |universe - old(checked)|
      ensures old(Clean()) ==> Clean()
    {
      ghost var start := checked;
      check, checked := check + {s}, checked + {s};
      if old(Clean()) {
        EnterKeepsClean(s);
      }
      Shrinks(start);
      PathGrows(edge, stack, s);
    }

    /** Clears SYMBOL_CHECK after the search from a symbol. */
    method Leave(s: Sym)
      requires s !in stack && check == Members(stack) + {s} && check <= checked <= universe
      requires IsEdgesOf(edge, g) && (forall x | x in universe :: edge(x) <= universe) && IsPath(edge, stack)
      modifies this`check, this`rank, this`clock
      ensures Valid() && check == old(check) - {s}
      ensures old(Clean()) && old(Finished(edge(s))) ==> Clean() && Finished({s})
    {
      check := check - {s};
      rank, clock := rank[s := clock], clock + 1;
      if old(Clean()) && old(Finished(edge(s))) {
        LeaveKeepsClean(s);
      }
    }

    /** The part of sym_check_deps that searches from a symbol not seen before. */
    method CheckNew(s: Sym) returns (r: Option<Sym>)
      requires Valid() && s in universe && s !in checked
      requires stack != [] ==> s in edge(stack[|stack| - 1])
      modifies this
      ensures Valid() && Progress()
      ensures r.Some? ==> HasCycle(edge) && (recursiveIsError || r.value in check || r.value == s)
      ensures recursiveIsError && old(Clean()) && r.None? ==> Clean() && Finished({s})
      decreases |universe - checked|, 0
    {
      Enter(s);
      r := CheckSymDeps(s);
      assert IsPath(edge, stack);
      Leave(s);
      assert check == old(check);
    }

    /** sym_check_deps for a symbol outside choices. */
    method CheckDeps(s: Sym) returns (r: Option<Sym>)
      requires Valid() && s in universe
      requires stack != [] ==> s in edge(stack[|stack| - 1])
      modifies this
      ensures Valid() && Progress()
      ensures r.Some? ==> HasCycle(edge) && (recursiveIsError || r.value in check)
      ensures recursiveIsError && old(Clean()) && r.None? ==> Clean() && Finished({s})
      decreases |universe - checked|, 1
    {
      if s in check {
        CycleOnStack(s);
        return Some(s);
      }
      if s in checked {
        return None;
      }
      r := CheckNew(s);
      if !recursiveIsError && r == Some(s) {
        r := None;
      }
    }

    lemma CycleOnStack(s: Sym)
      requires Valid() && s in check && stack != [] && s in edge(stack[|stack| - 1])
      ensures HasCycle(edge)
    {
      var i :| 0 <= i < |stack| && stack[i] == s;
      assert IsCycle(edge, stack[i..] + [s]);
    }

    /** The loop of conf_parse over all symbols, in hash table order. With recursive_is_error set it
        counts nothing exactly when the checked edges have no cycle, and then leaves a rank for the
        evaluator; with it clear it never counts anything. */
    method CheckAll(order: seq<Sym>) returns (errors: nat)
      requires Valid() && Clean() && check == {} && checked == {} && stack == []
      requires (forall s | s in g :: s in order) && (forall s | s in order :: s in universe)
      modifies this
      ensures recursiveIsError ==> (errors == 0 <==> !HasCycle(edge)) && (errors == 0 <==> IsAcyclic(edge))
      ensures !recursiveIsError ==> errors == 0
      ensures forall s :: edge(s) == Edges(g, s)
    {
      errors := 0;
      for i := 0 to |order|
        invariant Valid() && check == {} && stack == []
        invariant errors > 0 ==> recursiveIsError && HasCycle(edge)
        invariant recursiveIsError && errors == 0 ==> Clean() && forall j | 0 <= j < i :: Done(order[j])
      {
        var r := CheckDeps(order[i]);
        if r.Some? {
          errors := errors + 1;
        }
      }
      forall s
        ensures edge(s) == Edges(g, s)
      {
      }
      if errors > 0 {
        CycleExcludesRank(edge);
      } else if recursiveIsError {
        CleanGivesRank(order);
        if HasCycle(edge) {
          CycleExcludesRank(edge);
        }
      }
    }

    /** When all symbols are finished, the ranks of the search descend along all edges. */
    lemma CleanGivesRank(order: seq<Sym>)
      requires Valid() && Clean() && check == {}
      requires (forall s | s in g :: s in order) && forall j | 0 <= j < |order| :: Done(order[j])
      ensures IsAcyclic(edge)
    {
      var ranks := rank;
      var f: Sym -> nat := s => if s in ranks then ranks[s] else 0;
      forall s, x | x in edge(s)
        ensures f(x) < f(s)
      {
        assert x in Edges(g, s);
        assert s in g;
        assert Done(s) && RankedAbove(s);
      }
      assert Descends(edge, f);
    }
  }

  lemma {:induction false} SubsetSize<T>(a: set<T>, b: set<T>)
    requires a <= b
    ensures |a| <= |b|
    ensures a != b ==> |a| < |b|
  {
    if a != {} {
      var x :| x in a;
      SubsetSize(a - {x}, b - {x});
    } else if b != {} {
      var x :| x in b;
      assert |b| == |b - {x}| + 1;
    }
  }
}
