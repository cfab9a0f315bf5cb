/** The check for recursive dependencies, sym_check_deps of support/kconfig/symbol.c. */
module Cycles {
  import opened Tristates
  import opened Wrappers
  import opened Expressions
  import opened Calculation
  import opened SymbolTable

  // ---------- what depends on what ----------

  /** An expression the walk visits for a symbol: rev_dep, the conditions of its properties and the
      values of its defaults. The defaults of a choice name its own values. */
  ghost predicate Visits(d: Def, e: Expr) {
    || d.revDep == Some(e)
    || Some(e) in d.prompts
    || (exists x :: x in d.defaults && (x.cond == Some(e) || (!d.isChoice && x.value == e)))
  }

  ghost predicate Mentions(e: Expr, id: nat) {
    exists typ :: Contains(e, Var(id, typ))
  }

  ghost predicate Edge(defs: seq<Def>, a: nat, b: nat) {
    a < |defs| && b < |defs| && exists e :: Visits(defs[a], e) && Mentions(e, b)
  }

  ghost predicate GroupedSymbol(defs: seq<Def>, s: nat)
    requires s < |defs|
  {
    var d := defs[s];
    && (d.isChoice ==> d.choiceOf.None?) && (!d.isChoice ==> d.members == [])
    && (d.choiceOf.Some? ==>
          d.choiceOf.value < |defs| && defs[d.choiceOf.value].isChoice && s in defs[d.choiceOf.value].members)
  }

  /** A choice has values, and each of them belongs to it. */
  ghost predicate Grouped(defs: seq<Def>) {
    forall s :: 0 <= s < |defs| ==> GroupedSymbol(defs, s)
  }

  /** A choice and its values are checked together, as the choice. */
  function GroupOf(defs: seq<Def>, s: nat): nat {
    if s < |defs| && defs[s].choiceOf.Some? then defs[s].choiceOf.value else s
  }

  /** Every choice value may read its own choice. */
  ghost predicate Outside(defs: seq<Def>, a: nat, b: nat) {
    Edge(defs, a, b) && defs[a].choiceOf != Some(b)
  }

  ghost predicate Link(defs: seq<Def>, g: nat, h: nat) {
    exists a, b :: Outside(defs, a, b) && GroupOf(defs, a) == g && GroupOf(defs, b) == h
  }

  ghost predicate IsPath(defs: seq<Def>, p: seq<nat>) {
    forall i :: 0 <= i < |p| - 1 ==> Link(defs, p[i], p[i + 1])
  }

  ghost predicate IsCycle(defs: seq<Def>, p: seq<nat>) {
    |p| >= 2 && p[0] == p[|p| - 1] && IsPath(defs, p)
  }

  ghost predicate HasCycle(defs: seq<Def>) {
    exists p :: IsCycle(defs, p)
  }

  lemma PathDrop(defs: seq<Def>, p: seq<nat>, i: nat)
    requires IsPath(defs, p) && i <= |p|
    ensures IsPath(defs, p[i..])
  {
    var q := p[i..];
    forall k | 0 <= k < |q| - 1
      ensures Link(defs, q[k], q[k + 1])
    {
      assert Link(defs, p[i + k], p[i + k + 1]);
    }
  }

  /** What is pushed on the stack can be taken off again. */
  lemma Pushed(defs: seq<Def>, stack: seq<nat>, g: nat)
    requires IsPath(defs, stack) && (stack != [] ==> Link(defs, stack[|stack| - 1], g))
    ensures var more := stack + [g];
      && IsPath(defs, more) && (forall k :: k in more <==> k in stack || k == g)
      && more != [] && more[|more| - 1] == g && more[..|more| - 1] == stack
  {
  }

  /** Closing the stack of what is under check is a cycle. */
  lemma ClosingIsCycle(defs: seq<Def>, stack: seq<nat>, g: nat)
    requires IsPath(defs, stack) && g in stack && Link(defs, stack[|stack| - 1], g)
    ensures HasCycle(defs)
  {
    var i :| 0 <= i < |stack| && stack[i] == g;
    var p := stack[i..] + [g];
    PathDrop(defs, stack, i);
    Pushed(defs, stack[i..], g);
    assert IsCycle(defs, p);
  }

  // ---------- ranks ----------

  type Ranks = map<nat, nat>

  ghost predicate EdgesFall(defs: seq<Def>, rank: Ranks) {
    forall a, b :: a in rank && Edge(defs, a, b) ==> b in rank && rank[b] < rank[a]
  }

  ghost predicate PastChoice(defs: seq<Def>, rank: Ranks, m: nat, c: nat) {
    && m in rank && c in rank && c < |defs| && rank[c] < rank[m]
    && forall x :: x in defs[c].members ==> x in rank && rank[x] == rank[m]
  }

  ghost predicate MembersLast(defs: seq<Def>, rank: Ranks) {
    forall m :: m in rank && m < |defs| && defs[m].choiceOf.Some? ==> PastChoice(defs, rank, m, defs[m].choiceOf.value)
  }

  /** Reading leads down; the values of a choice share a rank, which is above that of the choice. */
  ghost predicate Ranked(defs: seq<Def>, rank: Ranks) {
    EdgesFall(defs, rank) && MembersLast(defs, rank)
  }

  ghost predicate PastMembers(defs: seq<Def>, rank: Ranks, c: nat, bound: nat) {
    c < |defs| && forall m :: m in defs[c].members ==> m in rank && rank[m] < bound
  }

  /** Who reads a choice without belonging to it is above the values of the choice as well. */
  ghost predicate ReadersLast(defs: seq<Def>, rank: Ranks) {
    forall a, c :: a in rank && Outside(defs, a, c) ==> PastMembers(defs, rank, c, rank[a])
  }

  ghost predicate Full(defs: seq<Def>, rank: Ranks) {
    forall k :: 0 <= k < |defs| ==> k in rank
  }

  /** Only its own values read a choice that has any. */
  ghost predicate ReadInside(defs: seq<Def>) {
    forall a: nat, c: nat :: Outside(defs, a, c) ==> defs[c].members == []
  }

  /** One that comes last of its unit */
  function Last(defs: seq<Def>, s: nat): nat {
    var g := GroupOf(defs, s);
    if g < |defs| && defs[g].members != [] then defs[g].members[0] else g
  }

  function Level(defs: seq<Def>, rank: Ranks, g: nat): nat {
    if Last(defs, g) in rank then rank[Last(defs, g)] else 0
  }

  lemma LastIsTop(defs: seq<Def>, rank: Ranks, s: nat)
    requires KnownDefs(defs) && Grouped(defs) && Ranked(defs, rank) && Full(defs, rank) && s < |defs|
    ensures GroupOf(defs, s) < |defs| && Last(defs, GroupOf(defs, s)) == Last(defs, s) < |defs|
    ensures rank[s] <= rank[Last(defs, s)] && (!defs[s].isChoice ==> rank[s] == rank[Last(defs, s)])
  {
    assert GroupedSymbol(defs, s);
    var g := GroupOf(defs, s);
    assert GroupedSymbol(defs, g);
    if defs[g].members != [] {
      MembersKnown(defs, g, 0);
      assert defs[g].members[0] in defs[g].members;
      assert PastChoice(defs, rank, defs[g].members[0], g);
    }
  }

  lemma OutsideFalls(defs: seq<Def>, rank: Ranks, a: nat, b: nat)
    requires KnownDefs(defs) && Grouped(defs) && Ranked(defs, rank) && Full(defs, rank)
    requires ReadersLast(defs, rank) && Outside(defs, a, b)
    ensures Level(defs, rank, GroupOf(defs, b)) < Level(defs, rank, GroupOf(defs, a))
  {
    assert rank[b] < rank[a] && PastMembers(defs, rank, b, rank[a]) && GroupedSymbol(defs, b);
    LastIsTop(defs, rank, a);
    LastIsTop(defs, rank, b);
    hide Edge, Outside, Ranked, ReadersLast, KnownDefs, Grouped, Full;
    if defs[b].isChoice && defs[b].members != [] { assert Last(defs, b) in defs[b].members; }
  }

  lemma LinkFalls(defs: seq<Def>, rank: Ranks, g: nat, h: nat)
    requires KnownDefs(defs) && Grouped(defs) && Ranked(defs, rank) && Full(defs, rank)
    requires ReadersLast(defs, rank) && Link(defs, g, h)
    ensures Level(defs, rank, h) < Level(defs, rank, g)
  {
    var a: nat, b: nat :| Outside(defs, a, b) && GroupOf(defs, a) == g && GroupOf(defs, b) == h;
    OutsideFalls(defs, rank, a, b);
  }

  lemma {:induction false} PathFalls(defs: seq<Def>, rank: Ranks, p: seq<nat>)
    requires KnownDefs(defs) && Grouped(defs) && Ranked(defs, rank) && Full(defs, rank)
    requires ReadersLast(defs, rank) && IsPath(defs, p) && p != []
    ensures Level(defs, rank, p[|p| - 1]) + |p| - 1 <= Level(defs, rank, p[0])
  {
    if |p| >= 2 {
      hide KnownDefs, Grouped, Ranked, Full, ReadersLast, Link, Level;
      LinkFalls(defs, rank, p[0], p[1]);
      PathDrop(defs, p, 1);
      PathFalls(defs, rank, p[1..]);
    }
  }

  /** Ranks in which all readers of a choice are above its values leave no room for a cycle. */
  lemma RankedHasNoCycle(defs: seq<Def>, rank: Ranks)
    requires KnownDefs(defs) && Grouped(defs) && Ranked(defs, rank) && Full(defs, rank) && ReadersLast(defs, rank)
    ensures !HasCycle(defs)
  {
    forall p | IsCycle(defs, p)
      ensures false
    {
      PathFalls(defs, rank, p);
    }
  }

  // ---------- what a walk has seen ----------

  /** All symbols of e are among ids. */
  ghost predicate Within(e: Expr, ids: set<nat>) {
    forall id :: Mentions(e, id) ==> id in ids
  }

  ghost predicate WithinOpt(e: Option<Expr>, ids: set<nat>) {
    e.Some? ==> Within(e.value, ids)
  }

  lemma WithinGrows(e: Expr, a: set<nat>, b: set<nat>)
    requires Within(e, a) && a <= b
    ensures Within(e, b)
  {
  }

  ghost predicate EdgesTo(defs: seq<Def>, s: nat, e: Expr) {
    forall id: nat :: Mentions(e, id) && id < |defs| ==> Edge(defs, s, id)
  }

  lemma VisitedEdges(defs: seq<Def>, s: nat, e: Expr)
    requires s < |defs| && Visits(defs[s], e)
    ensures EdgesTo(defs, s, e)
  {
  }

  lemma EdgesToParts(defs: seq<Def>, s: nat, e: Expr)
    requires EdgesTo(defs, s, e)
    ensures e.Not? ==> EdgesTo(defs, s, e.operand)
    ensures e.Bin? ==> EdgesTo(defs, s, e.left) && EdgesTo(defs, s, e.right)
  {
    MentionsParts(e);
  }

  lemma MentionsParts(e: Expr)
    ensures e.Not? ==> forall id :: Mentions(e, id) <==> Mentions(e.operand, id)
    ensures e.Bin? ==> forall id :: Mentions(e, id) <==> Mentions(e.left, id) || Mentions(e.right, id)
  {
    forall id: nat
      ensures e.Not? ==> (Mentions(e, id) <==> Mentions(e.operand, id))
      ensures e.Bin? ==> (Mentions(e, id) <==> Mentions(e.left, id) || Mentions(e.right, id))
    {
      assert forall typ :: e.Not? ==> (Contains(e, Var(id, typ)) <==> Contains(e.operand, Var(id, typ)));
      assert forall typ :: e.Bin? ==> (Contains(e, Var(id, typ)) <==> Contains(e.left, Var(id, typ)) || Contains(e.right, Var(id, typ)));
    }
  }

  /** The symbols of a comparison or plain symbol. */
  lemma MentionsLeaf(e: Expr, id: nat)
    ensures e.Symbol? ==> (Mentions(e, id) <==> e.sym.Var? && e.sym.id == id)
    ensures e.Equal? ==> (Mentions(e, id) <==> (e.lhs.Var? && e.lhs.id == id) || (e.rhs.Var? && e.rhs.id == id))
    ensures e.Unequal? ==> (Mentions(e, id) <==> (e.lhs.Var? && e.lhs.id == id) || (e.rhs.Var? && e.rhs.id == id))
  {
    var leaf := e.Symbol? || e.Equal? || e.Unequal?;
    if e.Symbol? && e.sym.Var? { assert Contains(e, Var(e.sym.id, e.sym.typ)); }
    if (e.Equal? || e.Unequal?) && e.lhs.Var? { assert Contains(e, Var(e.lhs.id, e.lhs.typ)); }
    if (e.Equal? || e.Unequal?) && e.rhs.Var? { assert Contains(e, Var(e.rhs.id, e.rhs.typ)); }
  }

  ghost predicate PromptsWithin(d: Def, i: nat, ids: set<nat>) {
    forall j :: 0 <= j < i && j < |d.prompts| ==> WithinOpt(d.prompts[j], ids)
  }

  ghost predicate DefaultsWithin(d: Def, i: nat, ids: set<nat>) {
    forall j :: 0 <= j < i && j < |d.defaults| ==>
      WithinOpt(d.defaults[j].cond, ids) && (!d.isChoice ==> Within(d.defaults[j].value, ids))
  }

  lemma AllGrow(d: Def, i: nat, a: set<nat>, b: set<nat>)
    requires a <= b
    ensures WithinOpt(d.revDep, a) ==> WithinOpt(d.revDep, b)
    ensures PromptsWithin(d, i, a) ==> PromptsWithin(d, i, b)
    ensures DefaultsWithin(d, i, a) ==> DefaultsWithin(d, i, b)
  {
    forall e: Expr
      ensures Within(e, a) ==> Within(e, b)
    {
      if Within(e, a) { WithinGrows(e, a, b); }
    }
  }

  /** The symbols that s has read and need not be asked again. A choice is only partly checked
      while its values are. */
  ghost function Done(defs: seq<Def>, check: set<nat>, checked: set<nat>, s: nat): set<nat> {
    set k | k in checked - check && (HasCycle(defs) || Through(defs, check, k, s))
  }

  ghost predicate Through(defs: seq<Def>, check: set<nat>, k: nat, s: nat) {
    s < |defs| && k < |defs| && (defs[s].choiceOf == Some(k) || forall m :: m in defs[k].members ==> m !in check)
  }

  lemma DoneGrows(defs: seq<Def>, check: set<nat>, checked: set<nat>, more: set<nat>, s: nat)
    requires checked <= more
    ensures Done(defs, check, checked, s) <= Done(defs, check, more, s)
  {
  }

  /** Every symbol under check belongs to what is on the stack. */
  ghost predicate OnStack(defs: seq<Def>, check: set<nat>, stack: seq<nat>) {
    forall k :: k in check ==> GroupOf(defs, k) in stack
  }

  /** Reading a choice whose values are under check closes a cycle that is not noticed. */
  lemma ReadIsDone(defs: seq<Def>, stack: seq<nat>, check: set<nat>, checked: set<nat>, s: nat, b: nat)
    requires KnownDefs(defs) && Grouped(defs) && IsPath(defs, stack) && OnStack(defs, check, stack)
    requires stack != [] && stack[|stack| - 1] == GroupOf(defs, s) && Edge(defs, s, b) && b in checked - check
    ensures b in Done(defs, check, checked, s)
  {
    if !Through(defs, check, b, s) {
      var m :| m in defs[b].members && m in check;
      assert defs[b] in defs && defs[m].choiceOf == Some(b) && GroupedSymbol(defs, b);
      assert Outside(defs, s, b) && Link(defs, GroupOf(defs, s), b);
      ClosingIsCycle(defs, stack, b);
    }
  }

  lemma AllDone(defs: seq<Def>, s: nat, ids: set<nat>)
    requires s < |defs|
    requires WithinOpt(defs[s].revDep, ids)
    requires PromptsWithin(defs[s], |defs[s].prompts|, ids) && DefaultsWithin(defs[s], |defs[s].defaults|, ids)
    ensures ReadsOnly(defs, s, ids)
  {
    forall b | Edge(defs, s, b)
      ensures b in ids
    {
      var e :| Visits(defs[s], e) && Mentions(e, b);
      assert Within(e, ids);
    }
  }

  ghost predicate ReadsOnly(defs: seq<Def>, s: nat, ids: set<nat>) {
    forall b :: Edge(defs, s, b) ==> b in ids
  }

  /** The ranks given to the symbols that are done: if there is no cycle, readers come last. */
  ghost predicate Rated(defs: seq<Def>, rank: Ranks, top: nat, done: set<nat>) {
    && rank.Keys == done && (forall k :: k in rank ==> rank[k] < top)
    && Ranked(defs, rank) && (HasCycle(defs) || ReadersLast(defs, rank))
  }

  ghost predicate Together(defs: seq<Def>, checked: set<nat>) {
    forall m :: 0 <= m < |defs| ==> (m in checked <==> GroupOf(defs, m) in checked)
  }

  /** What the two marks of a symbol and the report promise. */
  ghost predicate Marked(defs: seq<Def>, check: set<nat>, checked: set<nat>, reported: bool, rank: Ranks, top: nat) {
    && KnownDefs(defs) && Grouped(defs) && Together(defs, checked)
    && check <= checked && (forall k :: k in checked ==> k < |defs|)
    && (reported ==> HasCycle(defs))
    && (!reported ==> Rated(defs, rank, top, checked - check))
  }

  lemma MarkedIsKnown(defs: seq<Def>, check: set<nat>, checked: set<nat>, reported: bool, rank: Ranks, top: nat)
    requires Marked(defs, check, checked, reported, rank, top)
    ensures KnownDefs(defs) && Grouped(defs) && Together(defs, checked)
    ensures check <= checked && forall k :: k in checked ==> k < |defs|
  {
  }

  function Members(defs: seq<Def>, c: nat): (r: set<nat>)
    ensures forall m :: m in r <==> c < |defs| && m in defs[c].members
  {
    if c < |defs| then set m | m in defs[c].members else {}
  }

  lemma VisitsKnown(defs: seq<Def>, s: nat)
    requires KnownDefs(defs) && s < |defs|
    ensures KnownOpt(defs[s].revDep, |defs|)
    ensures defs[s].revDep.Some? ==> EdgesTo(defs, s, defs[s].revDep.value)
  {
    OthersKnown(defs, s);
    if defs[s].revDep.Some? { VisitedEdges(defs, s, defs[s].revDep.value); }
  }

  lemma PromptEdges(defs: seq<Def>, s: nat, i: nat)
    requires s < |defs| && i < |defs[s].prompts|
    ensures defs[s].prompts[i].Some? ==> EdgesTo(defs, s, defs[s].prompts[i].value)
  {
    assert defs[s].prompts[i] in defs[s].prompts;
    if defs[s].prompts[i].Some? { VisitedEdges(defs, s, defs[s].prompts[i].value); }
  }

  lemma DefaultEdges(defs: seq<Def>, s: nat, i: nat)
    requires s < |defs| && i < |defs[s].defaults|
    ensures !defs[s].isChoice ==> EdgesTo(defs, s, defs[s].defaults[i].value)
    ensures defs[s].defaults[i].cond.Some? ==> EdgesTo(defs, s, defs[s].defaults[i].cond.value)
  {
    var x := defs[s].defaults[i];
    assert x in defs[s].defaults;
    if !defs[s].isChoice { VisitedEdges(defs, s, x.value); }
    if x.cond.Some? { VisitedEdges(defs, s, x.cond.value); }
  }

  lemma LeafEdges(defs: seq<Def>, s: nat, e: Expr)
    requires EdgesTo(defs, s, e) && Known(e, |defs|)
    ensures e.Symbol? && e.sym.Var? ==> Edge(defs, s, e.sym.id)
    ensures (e.Equal? || e.Unequal?) && e.lhs.Var? ==> Edge(defs, s, e.lhs.id)
    ensures (e.Equal? || e.Unequal?) && e.rhs.Var? ==> Edge(defs, s, e.rhs.id)
    ensures e.Symbol? ==> forall ids :: (e.sym.Var? ==> e.sym.id in ids) ==> Within(e, ids)
    ensures e.Equal? || e.Unequal? ==> forall ids ::
      (e.lhs.Var? ==> e.lhs.id in ids) && (e.rhs.Var? ==> e.rhs.id in ids) ==> Within(e, ids)
  {
    forall id { MentionsLeaf(e, id); }
  }

  lemma EnterMarked(defs: seq<Def>, check: set<nat>, checked: set<nat>, reported: bool, rank: Ranks, top: nat, s: nat)
    requires Marked(defs, check, checked, reported, rank, top) && s < |defs| && s !in checked && defs[s].choiceOf.None?
    ensures var group := {s} + Members(defs, s);
      && Marked(defs, check + group, checked + group, reported, rank, top)
      && group !! checked && s !in Members(defs, s) && forall k :: k in group ==> GroupOf(defs, k) == s
  {
    var group := {s} + Members(defs, s);
    assert defs[s] in defs;
    hide Rated, HasCycle;
    assert forall m :: m in defs[s].members ==> m < |defs| && defs[m].choiceOf == Some(s);
    assert forall m :: 0 <= m < |defs| && defs[m].choiceOf == Some(s) ==> GroupedSymbol(defs, m);
    assert GroupedSymbol(defs, s);
    forall m | m in group
      ensures m !in checked && m < |defs| && GroupOf(defs, m) == s
    {
      if m != s {
        var i :| 0 <= i < |defs[s].members| && defs[s].members[i] == m;
        MembersKnown(defs, s, i);
      }
      assert m < |defs|;
      assert GroupOf(defs, m) == s;
      assert m in checked ==> s in checked;
    }
    assert (checked + group) - (check + group) == checked - check;
    forall m | 0 <= m < |defs|
      ensures m in checked + group <==> GroupOf(defs, m) in checked + group
    {
      assert GroupedSymbol(defs, m);
    }
  }

  /** A symbol or choice that has read everything is done next. */
  lemma FinishSymbol(defs: seq<Def>, check: set<nat>, checked: set<nat>, rank: Ranks, top: nat, s: nat)
    requires Marked(defs, check, checked, false, rank, top) && s in check && defs[s].choiceOf.None?
    requires ReadsOnly(defs, s, Done(defs, check, checked, s))
    ensures Marked(defs, check - {s}, checked, false, rank[s := top], top + 1)
  {
    var next := rank[s := top];
    assert next.Keys == checked - (check - {s});
    forall m | m in next && m < |defs| && defs[m].choiceOf.Some?
      ensures PastChoice(defs, next, m, defs[m].choiceOf.value)
    {
      assert PastChoice(defs, rank, m, defs[m].choiceOf.value);
    }
    forall a, c | a in next && Outside(defs, a, c) && !HasCycle(defs)
      ensures PastMembers(defs, next, c, next[a])
    {
      if a == s {
        assert Through(defs, check, c, s);
        MembersAreChecked(defs, checked, c);
      } else {
        assert PastMembers(defs, rank, c, rank[a]);
      }
    }
  }

  lemma MembersAreChecked(defs: seq<Def>, checked: set<nat>, c: nat)
    requires KnownDefs(defs) && Together(defs, checked) && c in checked && c < |defs|
    ensures forall m :: m in defs[c].members ==> m in checked && m < |defs|
  {
    assert defs[c] in defs;
    forall m | m in defs[c].members
      ensures m in checked && m < |defs|
    {
      assert m < |defs| && defs[m].choiceOf == Some(c) && GroupOf(defs, m) == c;
    }
  }

  /** So are the values of a choice, all of them together. */
  lemma FinishMembers(defs: seq<Def>, check: set<nat>, checked: set<nat>, rank: Ranks, top: nat, c: nat)
    requires Marked(defs, check, checked, false, rank, top) && c in checked - check && Members(defs, c) <= check
    requires forall m :: m in Members(defs, c) ==> ReadsOnly(defs, m, Done(defs, check, checked, m))
    ensures Marked(defs, check - Members(defs, c), checked, false, rank + (map m | m in Members(defs, c) :: top), top + 1)
  {
    var group := Members(defs, c);
    var next := rank + (map m | m in group :: top);
    forall m | m in group
      ensures m < |defs| && defs[m].choiceOf == Some(c) && m !in rank
    {
      var i :| 0 <= i < |defs[c].members| && defs[c].members[i] == m;
      MembersKnown(defs, c, i);
    }
    assert next.Keys == checked - (check - group);
    MembersRanked(defs, rank, top, c);
    forall a, d | a in next && Outside(defs, a, d) && !HasCycle(defs)
      ensures PastMembers(defs, next, d, next[a])
    {
      if a in group {
        assert d in Done(defs, check, checked, a) && Through(defs, check, d, a);
        MembersAreChecked(defs, checked, d);
      } else {
        assert PastMembers(defs, rank, d, rank[a]);
      }
    }
  }

  lemma MembersRanked(defs: seq<Def>, rank: Ranks, top: nat, c: nat)
    requires Ranked(defs, rank) && c < |defs| && c in rank && forall k :: k in rank ==> rank[k] < top
    requires forall m :: m in Members(defs, c) ==> m < |defs| && defs[m].choiceOf == Some(c) && m !in rank
    requires forall m, b :: m in Members(defs, c) && Edge(defs, m, b) ==> b in rank
    ensures Ranked(defs, rank + (map m | m in Members(defs, c) :: top))
  {
    hide Edge;
    var next := rank + (map m | m in Members(defs, c) :: top);
    forall m | m in next && m < |defs| && defs[m].choiceOf.Some?
      ensures PastChoice(defs, next, m, defs[m].choiceOf.value)
    {
      if m in rank { assert PastChoice(defs, rank, m, defs[m].choiceOf.value); }
    }
  }

  // ---------- when nothing is reported ----------

  /** plan ranks the table, and who reads a choice that is not checked yet is above its values. */
  ghost predicate Planned(defs: seq<Def>, plan: nat -> nat, checked: set<nat>) {
    && (forall a, b :: Edge(defs, a, b) ==> plan(b) < plan(a))
    && (forall m :: 0 <= m < |defs| ==> plan(GroupOf(defs, m)) <= plan(m) <= plan(Last(defs, m)))
    && (forall m :: 0 <= m < |defs| && defs[m].choiceOf.Some? ==> plan(m) == plan(Last(defs, m)))
    && (forall a, c :: Outside(defs, a, c) && c !in checked ==> plan(Last(defs, c)) < plan(a))
  }

  /** Everything under check is planned to come after s. */
  ghost predicate Calm(defs: seq<Def>, plan: nat -> nat, check: set<nat>, checked: set<nat>, s: nat) {
    Planned(defs, plan, checked) && forall k :: k in check ==> plan(s) <= plan(k)
  }

  ghost predicate Quiet(defs: seq<Def>, plan: nat -> nat, check: set<nat>, checked: set<nat>, s: nat) {
    && Planned(defs, plan, checked + {GroupOf(defs, s)})
    && forall k :: k in check ==> plan(if s in checked then s else Last(defs, s)) < plan(k)
  }

  lemma CalmStays(defs: seq<Def>, plan: nat -> nat, check: set<nat>, checked: set<nat>, more: set<nat>, s: nat)
    requires Calm(defs, plan, check, checked, s) && checked <= more
    ensures Calm(defs, plan, check, more, s)
  {
    hide Edge, Outside;
  }

  lemma CalmReads(defs: seq<Def>, plan: nat -> nat, check: set<nat>, checked: set<nat>, s: nat, b: nat)
    requires Calm(defs, plan, check, checked, s) && Edge(defs, s, b) && (defs[s].choiceOf == Some(b) ==> b in checked)
    ensures Quiet(defs, plan, check, checked, b)
  {
    if b !in checked { assert Outside(defs, s, b); }
    hide Edge, Outside;
  }

  lemma QuietEnters(defs: seq<Def>, plan: nat -> nat, check: set<nat>, checked: set<nat>, s: nat)
    requires KnownDefs(defs) && s < |defs| && defs[s].choiceOf.None? && s !in checked && Quiet(defs, plan, check, checked, s)
    ensures var group := {s} + Members(defs, s);
      && Calm(defs, plan, check + group, checked + group, s)
      && forall m :: m in Members(defs, s) ==> Calm(defs, plan, check + group - {s}, checked + group, m)
  {
    var group := {s} + Members(defs, s);
    assert defs[s] in defs;
    assert forall m :: m in defs[s].members ==> m < |defs| && defs[m].choiceOf == Some(s) && Last(defs, m) == Last(defs, s);
    hide Edge, Outside, KnownDefs;
  }

  lemma MembersStayCalm(defs: seq<Def>, plan: nat -> nat, check: set<nat>, checked: set<nat>, more: set<nat>, c: nat)
    requires checked <= more && forall m :: m in Members(defs, c) ==> Calm(defs, plan, check, checked, m)
    ensures forall m :: m in Members(defs, c) ==> Calm(defs, plan, check, more, m)
  {
    forall m | m in Members(defs, c) { CalmStays(defs, plan, check, checked, more, m); }
  }

  lemma PlannedStays(defs: seq<Def>, plan: nat -> nat, checked: set<nat>, more: set<nat>)
    requires Planned(defs, plan, checked) && checked <= more
    ensures Planned(defs, plan, more)
  {
    hide Edge, Outside;
  }

  lemma PlannedIsQuiet(defs: seq<Def>, plan: nat -> nat, checked: set<nat>, first: nat, s: nat)
    requires Planned(defs, plan, {GroupOf(defs, first)}) && Together(defs, checked)
    requires first == s || (first in checked && first < |defs|)
    ensures Quiet(defs, plan, {}, checked, s)
  {
    PlannedStays(defs, plan, {GroupOf(defs, first)}, checked + {GroupOf(defs, s)});
  }

  lemma AllChecked(defs: seq<Def>, checked: set<nat>, reported: bool, rank: Ranks, top: nat)
    requires Marked(defs, {}, checked, reported, rank, top) && (!reported ==> forall k :: 0 <= k < |defs| ==> k in checked)
    ensures reported ==> HasCycle(defs)
    ensures !reported ==> Ranked(defs, rank) && Full(defs, rank) && (HasCycle(defs) <==> !ReadersLast(defs, rank))
    ensures ReadInside(defs) ==> (reported <==> HasCycle(defs))
  {
    hide Ranked, HasCycle;
    if !reported {
      if ReadersLast(defs, rank) { RankedHasNoCycle(defs, rank); }
      if ReadInside(defs) { InsideIsLast(defs, rank); }
    }
  }

  lemma InsideIsLast(defs: seq<Def>, rank: Ranks)
    requires ReadInside(defs)
    ensures ReadersLast(defs, rank)
  {
  }

  lemma EnterOpen(n: nat, checked: set<nat>, s: nat, values: set<nat>)
    requires s < n && s !in checked
    ensures Open(n, checked + ({s} + values)) < Open(n, checked)
  {
    OpenShrinks(n, checked, checked + ({s} + values));
  }

  /** What is known when a group comes under check, and again when it has left. */
  lemma Enters(defs: seq<Def>, check: set<nat>, checked: set<nat>, stack: seq<nat>, reported: bool, rank: Ranks, top: nat, s: nat)
    requires IsPath(defs, stack) && OnStack(defs, check, stack) && Marked(defs, check, checked, reported, rank, top)
    requires s < |defs| && s !in checked && defs[s].choiceOf.None?
    requires stack != [] ==> Link(defs, stack[|stack| - 1], s)
    ensures var values := Members(defs, s);
      var inside, more := check + ({s} + values), stack + [s];
      && IsPath(defs, more) && OnStack(defs, inside, more)
      && Marked(defs, inside, checked + ({s} + values), reported, rank, top)
      && more != [] && more[|more| - 1] == s && more[..|more| - 1] == stack
      && inside - {s} - values == check && s in inside - values && values <= inside
      && Open(|defs|, checked + ({s} + values)) < Open(|defs|, checked)
      && forall k :: k in {s} + values ==> GroupOf(defs, k) == s
  {
    hide Open, IsPath, Link, Grouped, KnownDefs, Members, Together, HasCycle, Rated;
    MarkedIsKnown(defs, check, checked, reported, rank, top);
    EnterMarked(defs, check, checked, reported, rank, top, s);
    EnterOpen(|defs|, checked, s, Members(defs, s));
    Pushed(defs, stack, s);
  }

  lemma GroupKnown(defs: seq<Def>, s: nat)
    requires KnownDefs(defs) && Grouped(defs) && s < |defs|
    ensures GroupOf(defs, s) < |defs| && defs[GroupOf(defs, s)].choiceOf.None?
    ensures GroupOf(defs, GroupOf(defs, s)) == GroupOf(defs, s) && Last(defs, GroupOf(defs, s)) == Last(defs, s)
    ensures s in {GroupOf(defs, s)} + Members(defs, GroupOf(defs, s))
  {
    assert GroupedSymbol(defs, s);
    assert GroupedSymbol(defs, GroupOf(defs, s));
  }

  lemma MemberOf(defs: seq<Def>, c: nat, i: nat)
    requires KnownDefs(defs) && c < |defs| && i < |defs[c].members|
    ensures defs[c].members[i] < |defs| && defs[defs[c].members[i]].choiceOf == Some(c)
    ensures GroupOf(defs, defs[c].members[i]) == c && defs[c].members[i] in Members(defs, c)
  {
    MembersKnown(defs, c, i);
  }

  lemma ReadStays(defs: seq<Def>, check: set<nat>, checked: set<nat>, more: set<nat>, members: seq<nat>, i: nat)
    requires checked <= more && i <= |members|
    ensures forall j :: 0 <= j < i && ReadsOnly(defs, members[j], Done(defs, check, checked, members[j]))
                    ==> ReadsOnly(defs, members[j], Done(defs, check, more, members[j]))
  {
    forall j | 0 <= j < i { DoneGrows(defs, check, checked, more, members[j]); }
  }

  lemma ReportedStays(defs: seq<Def>, check: set<nat>, checked: set<nat>, rank: Ranks, top: nat, ids: set<nat>)
    requires Marked(defs, check, checked, true, rank, top)
    ensures Marked(defs, check - ids, checked, true, rank, top)
  {
  }

  class Checker {
    const defs: seq<Def>
    var check: set<nat>
    var checked: set<nat>
    var stack: seq<nat>
    var reported: bool
    ghost var rank: Ranks
    ghost var top: nat
    ghost const plan: nat -> nat

    /** The stack holds the choices and symbols under check. The entries of the source for a choice
        value and for a choice that is on it already only show in messages. */
    ghost predicate Valid()
      reads this
    {
      IsPath(defs, stack) && OnStack(defs, check, stack) && Marked(defs, check, checked, reported, rank, top)
    }

    /** What has been done stays done; the symbols being checked are the same as before. */
    ghost predicate Since(check0: set<nat>, checked0: set<nat>, stack0: seq<nat>, reported0: bool)
      reads this
    {
      && Valid() && check == check0 && stack == stack0
      && checked0 <= checked && (reported0 ==> reported)
      && Open(|defs|, checked) <= Open(|defs|, checked0)
    }

    ghost predicate IsCalm(s: nat)
      reads this
    {
      Calm(defs, plan, check, checked, s) && !reported
    }

    ghost predicate IsQuiet(s: nat)
      reads this
    {
      Quiet(defs, plan, check, checked, s) && !reported
    }

    constructor (defs: seq<Def>, ghost plan: nat -> nat)
      requires KnownDefs(defs) && Grouped(defs)
      ensures Valid() && this.defs == defs && this.plan == plan
      ensures check == {} && checked == {} && stack == [] && !reported
    {
      this.defs, this.plan := defs, plan;
      check, checked, stack, reported, rank, top := {}, {}, [], false, map[], 0;
    }

    /** s is read by what is on top of the stack. */
    ghost predicate Arrives(s: nat)
      reads this
    {
      && (stack == [] ==> check == {})
      && (stack != [] ==> s in checked - check || Link(defs, stack[|stack| - 1], GroupOf(defs, s)))
    }

    /** sym_check_deps */
    method CheckDeps(s: nat) returns (r: Option<nat>)
      requires Valid() && s < |defs| && Arrives(s)
      modifies this
      ensures Since(old(check), old(checked), old(stack), old(reported))
      ensures r.Some? ==> r.value in check && reported
      ensures !reported ==> s in checked - check
      ensures old(IsQuiet(s)) ==> !reported
      decreases Open(|defs|, checked), 0, if defs[s].choiceOf.Some? then 2 else 1
    {
      hide Edge, HasCycle, KnownDefs, Open, IsPath, Link, Rated, Grouped, Planned, Last;
      if s in check {
        ClosingIsCycle(defs, stack, GroupOf(defs, s));
        reported := true;
        return Some(s);
      }
      if s in checked { return None; }
      MarkedIsKnown(defs, check, checked, reported, rank, top);
      GroupKnown(defs, s);
      if defs[s].choiceOf.Some? {
        r := CheckDeps(defs[s].choiceOf.value);
      } else {
        r := CheckGroup(s);
      }
      if r == Some(s) { r := None; }
    }

    /** sym_check_choice_deps: the choice is checked, then all its values. A symbol that has to do
        with no choice is checked in the same way, without values. */
    method CheckGroup(s: nat) returns (r: Option<nat>)
      requires Valid() && s < |defs| && Arrives(s) && s !in checked && defs[s].choiceOf.None?
      modifies this
      ensures Since(old(check), old(checked), old(stack), old(reported))
      ensures r.Some? ==> (r.value in check || r.value == s) && reported
      ensures !reported ==> {s} + Members(defs, s) <= checked - check
      ensures old(IsQuiet(s)) ==> !reported
      decreases Open(|defs|, checked), 0, 0
    {
      hide Edge, HasCycle, KnownDefs, Open, IsPath, Link, Grouped, Planned, Last, Calm, Quiet, Marked, Done, Members, Together, OnStack, ReadAll, Contains, Known;
      ghost var check0, stack0, quiet := check, stack, IsQuiet(s);
      var values := Members(defs, s);
      Enters(defs, check, checked, stack, reported, rank, top, s);
      MarkedIsKnown(defs, check, checked, reported, rank, top);
      if quiet { QuietEnters(defs, plan, check, checked, s); }
      stack := stack + [s];
      check, checked := check + ({s} + values), checked + ({s} + values);
      r := CheckParts(s);
      UnmarkMembers(s);
      stack := stack[..|stack| - 1];
      assert check == check0 && stack == stack0;
      if r.Some? && GroupOf(defs, r.value) == s { r := Some(s); }
    }

    /** The values are no longer under check. */
    method UnmarkMembers(c: nat)
      requires Valid() && c < |defs| && c in checked - check && Members(defs, c) <= check
      requires !reported ==> ReadAll(Members(defs, c))
      modifies this
      ensures Valid() && check == old(check) - Members(defs, c)
      ensures checked == old(checked) && stack == old(stack) && reported == old(reported)
    {
      hide Edge, HasCycle, KnownDefs, Open, IsPath, Link, Grouped, GroupOf, Marked, Done, Members, Together;
      if !reported {
        FinishMembers(defs, check, checked, rank, top, c);
        rank, top := rank + (map m | m in Members(defs, c) :: top), top + 1;
      } else {
        ReportedStays(defs, check, checked, rank, top, Members(defs, c));
      }
      check := check - Members(defs, c);
    }

    /** The choice, and then its values until something is found */
    method CheckParts(s: nat) returns (r: Option<nat>)
      requires Checking(s) && s < |defs| && defs[s].choiceOf.None? && Members(defs, s) <= check && s !in Members(defs, s)
      modifies this
      ensures Valid() && check == old(check) - {s} && stack == old(stack) && old(checked) <= checked
      ensures (old(reported) ==> reported) && Open(|defs|, checked) <= old(Open(|defs|, checked))
      ensures r.Some? ==> r.value in old(check) && reported
      ensures s in checked - check && (!reported ==> ReadAll(Members(defs, s)))
      ensures old(IsCalm(s) && MembersCalm(check - {s}, s)) ==> !reported
      decreases Open(|defs|, checked), 5
    {
      hide Edge, HasCycle, KnownDefs, Open, IsPath, Link, Grouped, Planned, Last, Calm, Marked, Done, Members, Together;
      MarkedIsKnown(defs, check, checked, reported, rank, top);
      ghost var check0, checked0, calm := check, checked, IsCalm(s) && MembersCalm(check - {s}, s);
      r := CheckSymDeps(s);
      if !reported {
        FinishSymbol(defs, check, checked, rank, top, s);
        rank, top := rank[s := top], top + 1;
      } else {
        ReportedStays(defs, check, checked, rank, top, {s});
      }
      check := check - {s};
      if calm { MembersStayCalm(defs, plan, check, checked0, checked, s); }
      if r.None? { r := CheckMembers(s); }
    }

    ghost predicate ReadAll(ids: set<nat>)
      reads this
    {
      forall m :: m in ids ==> ReadsOnly(defs, m, Done(defs, check, checked, m))
    }

    ghost predicate MembersCalm(check': set<nat>, c: nat)
      reads this
    {
      forall m :: m in Members(defs, c) ==> Calm(defs, plan, check', checked, m)
    }

    method CheckMembers(c: nat) returns (r: Option<nat>)
      requires Valid() && c < |defs| && c in checked - check && Members(defs, c) <= check
      requires stack != [] && stack[|stack| - 1] == c && (defs[c].members != [] ==> defs[c].choiceOf.None?)
      modifies this
      ensures Since(old(check), old(checked), old(stack), old(reported))
      ensures r.Some? ==> r.value in check && reported
      ensures !reported ==> ReadAll(Members(defs, c))
      ensures old(MembersCalm(check, c) && !reported) ==> !reported
      decreases Open(|defs|, checked), 4
    {
      hide Edge, HasCycle, KnownDefs, Open, IsPath, Link, Grouped, Planned, Last, Calm, Done, Together;
      var members := defs[c].members;
      var i := 0;
      while i < |members|
        invariant 0 <= i <= |members|
        invariant Since(old(check), old(checked), old(stack), old(reported))
        invariant !reported ==> forall j :: 0 <= j < i ==> ReadsOnly(defs, members[j], Done(defs, check, checked, members[j]))
        invariant old(MembersCalm(check, c) && !reported) ==> !reported && MembersCalm(check, c)
      {
        MemberOf(defs, c, i);
        ghost var checked1 := checked;
        r := CheckSymDeps(members[i]);
        if r.Some? { return; }
        ReadStays(defs, check, checked1, checked, members, i);
        if old(MembersCalm(check, c) && !reported) { MembersStayCalm(defs, plan, check, checked1, checked, c); }
        i := i + 1;
      }
      return None;
    }

    /** The symbol under check is on top of the stack; if it belongs to a choice, that is done. */
    ghost predicate Checking(s: nat)
      reads this
    {
      && Valid() && s in check && stack != [] && stack[|stack| - 1] == GroupOf(defs, s)
      && s < |defs| && (defs[s].choiceOf.Some? ==> defs[s].choiceOf.value in checked - check)
    }

    /** sym_check_sym_deps: rev_dep, the property conditions and the default values, until something is found. */
    method CheckSymDeps(s: nat) returns (r: Option<nat>)
      requires Checking(s)
      modifies this
      ensures Since(old(check), old(checked), old(stack), old(reported))
      ensures r.Some? ==> r.value in check && reported
      ensures !reported ==> ReadsOnly(defs, s, Done(defs, check, checked, s))
      ensures old(IsCalm(s)) ==> IsCalm(s)
      decreases Open(|defs|, checked), 3
    {
      hide Edge, HasCycle, WithinOpt, PromptsWithin, DefaultsWithin, KnownDefs, Open, EdgesTo, KnownOpt, IsPath, Done, Calm, Marked, Link, ReadsOnly, Grouped;
      var d := defs[s];
      MarkedIsKnown(defs, check, checked, reported, rank, top);
      VisitsKnown(defs, s);
      r := CheckConditionDeps(d.revDep, s);
      if r.Some? { return; }
      ghost var checked1 := checked;
      r := CheckPrompts(s);
      if r.Some? { return; }
      ghost var checked2 := checked;
      DoneGrows(defs, check, checked1, checked2, s);
      AllGrow(d, |d.prompts|, Done(defs, check, checked1, s), Done(defs, check, checked2, s));
      r := CheckDefaults(s);
      DoneGrows(defs, check, checked2, checked, s);
      AllGrow(d, |d.prompts|, Done(defs, check, checked2, s), Done(defs, check, checked, s));
      if !reported { AllDone(defs, s, Done(defs, check, checked, s)); }
    }

    /** The walk over one condition. */
    method CheckConditionDeps(e: Option<Expr>, ghost s: nat) returns (r: Option<nat>)
      requires Checking(s) && KnownOpt(e, |defs|) && (e.Some? ==> EdgesTo(defs, s, e.value))
      modifies this
      ensures Since(old(check), old(checked), old(stack), old(reported))
      ensures r.Some? ==> r.value in check && reported
      ensures !reported ==> WithinOpt(e, Done(defs, check, checked, s))
      ensures old(IsCalm(s)) ==> IsCalm(s)
      decreases Open(|defs|, checked), 2, 0
    {
      hide Edge, HasCycle, KnownDefs, Open, IsPath, Done, Calm, Marked, Link, Grouped;
      if e.None? { return None; }
      r := CheckExprDeps(e.value, s);
    }

    method CheckPrompts(s: nat) returns (r: Option<nat>)
      requires Checking(s)
      modifies this
      ensures Since(old(check), old(checked), old(stack), old(reported))
      ensures r.Some? ==> r.value in check && reported
      ensures !reported ==> PromptsWithin(defs[s], |defs[s].prompts|, Done(defs, check, checked, s))
      ensures old(IsCalm(s)) ==> IsCalm(s)
      decreases Open(|defs|, checked), 2, 1
    {
      hide Edge, HasCycle, WithinOpt, KnownDef, KnownDefs, Open, IsPath, Done, Calm, Marked, Link, Grouped;
      var d := defs[s];
      var i := 0;
      while i < |d.prompts|
        invariant 0 <= i <= |d.prompts|
        invariant Since(old(check), old(checked), old(stack), old(reported))
        invariant !reported ==> PromptsWithin(d, i, Done(defs, check, checked, s))
        invariant old(IsCalm(s)) ==> IsCalm(s)
      {
        ghost var checked1 := checked;
        MarkedIsKnown(defs, check, checked, reported, rank, top);
        PromptKnown(defs, s, i);
        PromptEdges(defs, s, i);
        r := CheckConditionDeps(d.prompts[i], s);
        if r.Some? { return; }
        DoneGrows(defs, check, checked1, checked, s);
        AllGrow(d, i, Done(defs, check, checked1, s), Done(defs, check, checked, s));
        i := i + 1;
      }
      return None;
    }

    /** What a choice has for defaults is not walked, but their conditions are. */
    method CheckDefaults(s: nat) returns (r: Option<nat>)
      requires Checking(s)
      modifies this
      ensures Since(old(check), old(checked), old(stack), old(reported))
      ensures r.Some? ==> r.value in check && reported
      ensures !reported ==> DefaultsWithin(defs[s], |defs[s].defaults|, Done(defs, check, checked, s))
      ensures old(IsCalm(s)) ==> IsCalm(s)
      decreases Open(|defs|, checked), 2, 1
    {
      hide Edge, HasCycle, KnownDef, KnownDefs, Open, IsPath, Within, Done, Calm, Marked, Link, Grouped;
      var d := defs[s];
      var i := 0;
      while i < |d.defaults|
        invariant 0 <= i <= |d.defaults|
        invariant Since(old(check), old(checked), old(stack), old(reported))
        invariant !reported ==> DefaultsWithin(d, i, Done(defs, check, checked, s))
        invariant old(IsCalm(s)) ==> IsCalm(s)
      {
        ghost var checked1 := checked;
        MarkedIsKnown(defs, check, checked, reported, rank, top);
        DefaultKnown(defs, s, i);
        DefaultEdges(defs, s, i);
        r := CheckConditionDeps(d.defaults[i].cond, s);
        if r.Some? { return; }
        ghost var checked2 := checked;
        if !d.isChoice {
          r := CheckExprDeps(d.defaults[i].value, s);
          if r.Some? { return; }
        }
        DoneGrows(defs, check, checked1, checked, s);
        AllGrow(d, i, Done(defs, check, checked1, s), Done(defs, check, checked, s));
        DoneGrows(defs, check, checked2, checked, s);
        if !reported && d.defaults[i].cond.Some? {
          WithinGrows(d.defaults[i].cond.value, Done(defs, check, checked2, s), Done(defs, check, checked, s));
        }
        i := i + 1;
      }
      return None;
    }

    /** sym_check_expr_deps: the first finding ends the walk. */
    method CheckExprDeps(e: Expr, ghost s: nat) returns (r: Option<nat>)
      requires Checking(s) && Known(e, |defs|) && EdgesTo(defs, s, e)
      modifies this
      ensures Since(old(check), old(checked), old(stack), old(reported))
      ensures r.Some? ==> r.value in check && reported
      ensures !reported ==> Within(e, Done(defs, check, checked, s))
      ensures old(IsCalm(s)) ==> IsCalm(s)
      decreases Open(|defs|, checked), 1, Size(e)
    {
      hide Edge, HasCycle, KnownDefs, Open, Mentions, Contains, IsPath, Done, Calm, Marked, Link, Grouped;
      MentionsParts(e);
      EdgesToParts(defs, s, e);
      match e
      case Symbol(x) =>
        LeafEdges(defs, s, e);
        r := CheckOperand(x, s);
      case Not(x) =>
        r := CheckExprDeps(x, s);
      case Bin(_, x, y) =>
        r := CheckExprDeps(x, s);
        if r.Some? { return; }
        ghost var checked1 := checked;
        r := CheckExprDeps(y, s);
        DoneGrows(defs, check, checked1, checked, s);
        if !reported { WithinGrows(x, Done(defs, check, checked1, s), Done(defs, check, checked, s)); }
      case Equal(x, y) =>
        LeafEdges(defs, s, e);
        r := CheckOperands(x, y, s);
      case Unequal(x, y) =>
        LeafEdges(defs, s, e);
        r := CheckOperands(x, y, s);
    }

    method CheckOperands(x: Sym, y: Sym, ghost s: nat) returns (r: Option<nat>)
      requires Checking(s) && KnownSym(x, |defs|) && (x.Var? ==> Edge(defs, s, x.id))
      requires KnownSym(y, |defs|) && (y.Var? ==> Edge(defs, s, y.id))
      modifies this
      ensures Since(old(check), old(checked), old(stack), old(reported))
      ensures r.Some? ==> r.value in check && reported
      ensures !reported ==> (x.Var? ==> x.id in Done(defs, check, checked, s)) && (y.Var? ==> y.id in Done(defs, check, checked, s))
      ensures old(IsCalm(s)) ==> IsCalm(s)
      decreases Open(|defs|, checked), 1, 0, 1
    {
      hide Edge, HasCycle, KnownDefs, Open, IsPath, Done, Calm, Marked, Link, Grouped;
      r := CheckOperand(x, s);
      if r.Some? { return; }
      ghost var checked1 := checked;
      r := CheckOperand(y, s);
      DoneGrows(defs, check, checked1, checked, s);
    }

    /** Constants depend on nothing. */
    method CheckOperand(x: Sym, ghost s: nat) returns (r: Option<nat>)
      requires Checking(s) && KnownSym(x, |defs|) && (x.Var? ==> Edge(defs, s, x.id))
      modifies this
      ensures Since(old(check), old(checked), old(stack), old(reported))
      ensures r.Some? ==> r.value in check && reported
      ensures !reported ==> (x.Var? ==> x.id in Done(defs, check, checked, s))
      ensures old(IsCalm(s)) ==> IsCalm(s)
      decreases Open(|defs|, checked), 1, 0, 0
    {
      hide Edge, HasCycle, KnownDefs, Open, IsPath, Done, Calm, Quiet, Marked, Grouped, Planned;
      if !x.Var? { return None; }
      ghost var calm, checked0 := IsCalm(s), checked;
      MarkedIsKnown(defs, check, checked, reported, rank, top);
      if defs[s].choiceOf != Some(x.id) { assert Outside(defs, s, x.id); }
      if calm { CalmReads(defs, plan, check, checked, s, x.id); }
      hide Link;
      r := CheckDeps(x.id);
      MarkedIsKnown(defs, check, checked, reported, rank, top);
      if !reported { ReadIsDone(defs, stack, check, checked, s, x.id); }
      if calm { CalmStays(defs, plan, check, checked0, checked, s); }
    }

    /** The loop over all symbols that follows menu_finalize, in the order of a hash table. Nothing is
        ever returned to it: the symbol a cycle was closed at is on the stack, and stops the report when
        the recursion is back at it. */
    method CheckAll(order: seq<nat>) returns (errors: int)
      requires Valid() && check == {} && stack == [] && checked == {} && !reported
      requires forall k :: k in order <==> 0 <= k < |defs|
      modifies this
      ensures Valid() && check == {} && stack == []
      ensures errors == 0
      ensures reported ==> HasCycle(defs)
      ensures !reported ==> Ranked(defs, rank) && Full(defs, rank) && (HasCycle(defs) <==> !ReadersLast(defs, rank))
      ensures ReadInside(defs) ==> (reported <==> HasCycle(defs))
      ensures order != [] && Planned(defs, plan, {GroupOf(defs, order[0])}) ==> !reported
    {
      hide Edge, HasCycle, KnownDefs, Open, IsPath, Link, Grouped, Planned, Last, Quiet, Marked, Ranked, ReadersLast, ReadInside, Full;
      errors := 0;
      ghost var planned := order != [] && Planned(defs, plan, {GroupOf(defs, order[0])});
      for i := 0 to |order|
        invariant Valid() && check == {} && stack == [] && errors == 0
        invariant !reported ==> forall k :: 0 <= k < i ==> order[k] in checked
        invariant planned ==> !reported && (i == 0 || order[0] in checked)
      {
        MarkedIsKnown(defs, check, checked, reported, rank, top);
        assert order[i] in order && order[0] in order;
        if planned { PlannedIsQuiet(defs, plan, checked, order[0], order[i]); }
        var r := CheckDeps(order[i]);
        if r.Some? { errors := errors + 1; }
      }
      if !reported {
        forall k | 0 <= k < |defs|
          ensures k in checked
        {
          assert k in order;
        }
      }
      AllChecked(defs, checked, reported, rank, top);
    }
  }

  // ---------- a cycle that is not reported ----------

  function ShownByReader(): seq<Def> {
    [Def("", Boolean, [None], [], None, None, true, [1], None),
     Def("A", Boolean, [Some(Bin(And, Symbol(Var(0, Boolean)), Symbol(Var(2, Boolean))))], [], None, None, false, [], Some(0)),
     Def("X", Boolean, [Some(Symbol(Var(0, Boolean)))], [], None, None, false, [], None)]
  }

  lemma ShownByReaderEdges(a: nat, b: nat)
    ensures Edge(ShownByReader(), a, b) <==> (a == 1 && b in {0, 2}) || (a == 2 && b == 0)
  {
    var defs := ShownByReader();
    var shown, own, reader := Symbol(Var(2, Boolean)), Symbol(Var(0, Boolean)), defs[1].prompts[0].value;
    assert Visits(defs[1], reader) && Visits(defs[2], own);
    assert forall e :: !Visits(defs[0], e);
    MentionsParts(reader);
    MentionsLeaf(own, b);
    MentionsLeaf(shown, b);
    if a == 1 && Edge(defs, a, b) {
      var e :| Visits(defs[1], e) && Mentions(e, b);
      assert e == reader;
    }
    if a == 2 && Edge(defs, a, b) {
      var e :| Visits(defs[2], e) && Mentions(e, b);
      assert e == own;
    }
  }

  lemma ShownByReaderKnown()
    ensures |ShownByReader()| == 3 && KnownDefs(ShownByReader()) && Grouped(ShownByReader())
    ensures forall s: nat :: GroupOf(ShownByReader(), s) == (if s == 1 then 0 else s)
    ensures forall s: nat :: Last(ShownByReader(), s) == (if s == 0 then 1 else s)
    ensures forall s :: 0 <= s < 3 ==> (ShownByReader()[s].choiceOf == if s == 1 then Some(0) else None)
  {
    var defs := ShownByReader();
    assert KnownDef(defs[0], 3) && KnownDef(defs[1], 3) && KnownDef(defs[2], 3);
    hide KnownDef;
    assert forall d :: d in defs ==> d == defs[0] || d == defs[1] || d == defs[2];
  }

  lemma ShownByReaderCycle()
    ensures HasCycle(ShownByReader())
  {
    var defs := ShownByReader();
    ShownByReaderKnown();
    ShownByReaderEdges(1, 2);
    ShownByReaderEdges(2, 0);
    hide Edge, ShownByReader, KnownDefs, Grouped, GroupOf, Last;
    assert Outside(defs, 1, 2) && Outside(defs, 2, 0);
    assert Link(defs, 0, 2) && Link(defs, 2, 0);
    var p := [0, 2, 0];
    assert IsPath(defs, p) && IsCycle(defs, p);
  }

  lemma ShownByReaderPlanned(plan: nat -> nat)
    requires plan(0) == 0 && plan(2) == 1 && plan(1) == 2
    ensures Planned(ShownByReader(), plan, {0})
  {
    var defs := ShownByReader();
    ShownByReaderKnown();
    hide Edge, ShownByReader, KnownDefs, Grouped, GroupOf, Last;
    forall a: nat, b: nat
      ensures Edge(defs, a, b) <==> (a == 1 && b in {0, 2}) || (a == 2 && b == 0)
    {
      ShownByReaderEdges(a, b);
    }
  }

  /** A choice value is shown by a symbol that reads the choice. The choice is checked first: when its
      values are, it is no longer under check, and reading it is not noticed. */
  method MissedCycle() returns (c: Checker)
    ensures c.defs == ShownByReader() && HasCycle(c.defs) && !c.reported
  {
    var defs := ShownByReader();
    ShownByReaderKnown();
    ghost var plan := (k: nat) => if k == 0 then 0 else if k == 2 then 1 else 2;
    ShownByReaderPlanned(plan);
    ShownByReaderCycle();
    hide *;
    c := new Checker(defs, plan);
    var errors := c.CheckAll([0, 1, 2]);
  }

  // ---------- a table without a report can be calculated ----------

  /** A reference carries the type of the symbol it refers to. */
  predicate TypedSym(s: Sym, defs: seq<Def>) {
    s.Var? ==> s.id < |defs| && defs[s.id].typ == s.typ
  }

  predicate TypedExpr(e: Expr, defs: seq<Def>) {
    match e
    case Symbol(s) => TypedSym(s, defs)
    case Not(x) => TypedExpr(x, defs)
    case Bin(_, l, r) => TypedExpr(l, defs) && TypedExpr(r, defs)
    case Equal(a, b) => TypedSym(a, defs) && TypedSym(b, defs)
    case Unequal(a, b) => TypedSym(a, defs) && TypedSym(b, defs)
  }

  ghost predicate TypedDef(d: Def, defs: seq<Def>) {
    && (forall e :: Visits(d, e) ==> TypedExpr(e, defs))
    && (d.dirDep.Some? ==> TypedExpr(d.dirDep.value, defs))
  }

  /** sym_check_deps does not walk dir_dep; its symbols all occur in a property condition. */
  ghost predicate DirWalked(defs: seq<Def>, s: nat)
    requires s < |defs|
  {
    defs[s].dirDep.Some? ==> EdgesTo(defs, s, defs[s].dirDep.value)
  }

  /** What menu_finalize makes of a choice value: it has a prompt, and each mentions the choice. */
  ghost predicate MemberShape(w: World, m: nat)
    requires m < |w.defs|
  {
    var d := w.defs[m];
    d.choiceOf.Some? ==>
      && HasTri(d) && d.prompts != [] && d.defaults == []
      && d.choiceOf.value < |w.defs| && HasTri(w.defs[d.choiceOf.value])
      && forall p :: p in d.prompts ==> p.Some? && Contains(p.value, Var(d.choiceOf.value, w.defs[d.choiceOf.value].typ))
  }

  ghost predicate ChoicesShaped(w: World)
    requires WellFormed(w)
  {
    forall s :: 0 <= s < |w.defs| && w.defs[s].typ != Unknown ==> MemberShape(w, s) && (w.defs[s].isChoice ==> ChoiceBelow(w, s))
  }

  /** A choice is calculated right before its values. */
  function Rank(defs: seq<Def>, rank: Ranks, s: nat): nat {
    if s < |defs| && defs[s].choiceOf.Some? then 2 * Level(defs, rank, s) + 1 else 2 * Level(defs, rank, s)
  }

  function RankIn(defs: seq<Def>, rank: Ranks): nat -> nat {
    (s: nat) => Rank(defs, rank, s)
  }

  /** The expression compares the text of a tristate, which reads MODULES as well. */
  predicate ComparesTristate(e: Expr) {
    match e
    case Not(x) => ComparesTristate(x)
    case Bin(_, l, r) => ComparesTristate(l) || ComparesTristate(r)
    case Equal(a, b) => TypeOf(a) == Tristate || TypeOf(b) == Tristate
    case Unequal(a, b) => TypeOf(a) == Tristate || TypeOf(b) == Tristate
    case Symbol(_) => false
  }

  /** What a symbol reads: dir_dep as well */
  ghost predicate Reads(d: Def, e: Expr) {
    Visits(d, e) || d.dirDep == Some(e)
  }

  /** sym_check_deps does not know that comparing such texts reads MODULES: the symbols that do so
      come after it. */
  ghost predicate TextsLater(defs: seq<Def>, rank: Ranks, modules: nat) {
    forall s, e :: 0 <= s < |defs| && Reads(defs[s], e) && ComparesTristate(e) ==>
      Rank(defs, rank, modules) < Rank(defs, rank, GroupOf(defs, s))
  }

  lemma {:induction false} ComparedIsMentioned(defs: seq<Def>, s: nat, e: Expr)
    requires EdgesTo(defs, s, e) && Known(e, |defs|) && TypedExpr(e, defs) && ComparesTristate(e)
    ensures exists b :: Edge(defs, s, b)
  {
    EdgesToParts(defs, s, e);
    LeafEdges(defs, s, e);
    match e
    case Not(x) => ComparedIsMentioned(defs, s, x);
    case Bin(_, l, r) => if ComparesTristate(l) { ComparedIsMentioned(defs, s, l); } else { ComparedIsMentioned(defs, s, r); }
    case _ =>
  }

  /** Ranks for all symbols, with the readers of a choice above its values */
  ghost predicate Settles(defs: seq<Def>, rank: Ranks) {
    KnownDefs(defs) && Grouped(defs) && Ranked(defs, rank) && Full(defs, rank) && ReadersLast(defs, rank)
  }

  lemma VisitedKnown(defs: seq<Def>, s: nat, e: Expr)
    requires KnownDefs(defs) && s < |defs| && Visits(defs[s], e)
    ensures Known(e, |defs|) && EdgesTo(defs, s, e)
  {
    OthersKnown(defs, s);
    if Some(e) in defs[s].prompts {
      var i :| 0 <= i < |defs[s].prompts| && defs[s].prompts[i] == Some(e);
      PromptKnown(defs, s, i);
    }
    forall i | 0 <= i < |defs[s].defaults|
      ensures Known(defs[s].defaults[i].value, |defs|) && KnownOpt(defs[s].defaults[i].cond, |defs|)
    {
      DefaultKnown(defs, s, i);
    }
    VisitedEdges(defs, s, e);
  }

  lemma EdgeGoesDown(defs: seq<Def>, rank: Ranks, s: nat, b: nat)
    requires Settles(defs, rank) && Edge(defs, s, b)
    ensures defs[s].choiceOf != Some(b) ==> Rank(defs, rank, b) < Rank(defs, rank, GroupOf(defs, s))
    ensures Rank(defs, rank, b) < Rank(defs, rank, s) && Rank(defs, rank, GroupOf(defs, s)) <= Rank(defs, rank, s)
  {
    GroupKnown(defs, s);
    GroupKnown(defs, b);
    if defs[s].choiceOf != Some(b) { OutsideFalls(defs, rank, s, b); }
  }

  /** bound and on are those of a reader to whom everything that s reads is there. */
  lemma {:induction false} EdgesGiveBelow(w: World, s: nat, e: Expr, bound: nat, on: Option<nat>)
    requires WellFormed(w) && Known(e, |w.defs|) && TypedExpr(e, w.defs) && EdgesTo(w.defs, s, e)
    requires forall b: nat :: Edge(w.defs, s, b) ==> on == Some(b) || w.rank(b) < bound
    requires ComparesTristate(e) ==> w.rank(w.modules) < bound
    ensures Below(w, e, bound, on)
  {
    EdgesToParts(w.defs, s, e);
    LeafEdges(w.defs, s, e);
    match e
    case Not(x) => EdgesGiveBelow(w, s, x, bound, on);
    case Bin(_, l, r) => EdgesGiveBelow(w, s, l, bound, on); EdgesGiveBelow(w, s, r, bound, on);
    case _ =>
  }

  /** e can be evaluated before s is calculated. A choice value may read its choice even while the
      choice is calculated, and so may the default conditions of the choice. */
  ghost predicate ReadBelow(w: World, s: nat, e: Expr)
    requires s < |w.defs|
  {
    && Below(w, e, w.rank(s), None)
    && (w.defs[s].choiceOf.Some? ==> Below(w, e, w.rank(w.defs[s].choiceOf.value), w.defs[s].choiceOf))
    && (w.defs[s].isChoice ==> Below(w, e, w.rank(s), Some(s)))
  }

  lemma ReadsBelow(w: World, rank: Ranks, s: nat, e: Expr)
    requires WellFormed(w) && Settles(w.defs, rank) && w.rank == RankIn(w.defs, rank) && TextsLater(w.defs, rank, w.modules)
    requires s < |w.defs| && TypedDef(w.defs[s], w.defs) && DirWalked(w.defs, s) && Reads(w.defs[s], e)
    ensures ReadBelow(w, s, e)
  {
    OthersKnown(w.defs, s);
    if Visits(w.defs[s], e) { VisitedKnown(w.defs, s, e); }
    if ComparesTristate(e) { ComparedIsMentioned(w.defs, s, e); }
    forall b: nat | Edge(w.defs, s, b)
      ensures w.rank(b) < w.rank(s) && w.rank(GroupOf(w.defs, s)) <= w.rank(s)
      ensures w.defs[s].choiceOf != Some(b) ==> w.rank(b) < w.rank(GroupOf(w.defs, s))
    {
      EdgeGoesDown(w.defs, rank, s, b);
    }
    hide Settles, Edge, EdgesTo, Visits, Below, Rank;
    EdgesGiveBelow(w, s, e, w.rank(s), None);
    if w.defs[s].choiceOf.Some? { EdgesGiveBelow(w, s, e, w.rank(w.defs[s].choiceOf.value), w.defs[s].choiceOf); }
    if w.defs[s].isChoice { EdgesGiveBelow(w, s, e, w.rank(s), Some(s)); }
  }

  /** When sym_check_deps reports nothing and there is no cycle, the table is acyclic in the sense that
      the calculation needs, so that sym_calc_value is right on it whatever the order of the calls. */
  lemma UnreportedIsAcyclic(w: World, rank: Ranks)
    requires WellFormed(w) && Settles(w.defs, rank) && ChoicesShaped(w)
    requires forall s :: 0 <= s < |w.defs| ==> TypedDef(w.defs[s], w.defs) && DirWalked(w.defs, s)
    requires TextsLater(w.defs, rank, w.modules) && w.rank == RankIn(w.defs, rank)
    ensures Acyclic(w)
  {
    forall s | 0 <= s < |w.defs|
      ensures SymbolBelow(w, s)
    {
      forall e | Reads(w.defs[s], e) { ReadsBelow(w, rank, s, e); }
      SymbolIsBelow(w, rank, s);
    }
  }

  lemma SymbolIsBelow(w: World, rank: Ranks, s: nat)
    requires WellFormed(w) && Settles(w.defs, rank) && w.rank == RankIn(w.defs, rank) && ChoicesShaped(w)
    requires s < |w.defs| && forall e :: Reads(w.defs[s], e) ==> ReadBelow(w, s, e)
    ensures SymbolBelow(w, s)
  {
    var d := w.defs[s];
    PartsBelow(w, s);
    GroupKnown(w.defs, s);
    assert GroupedSymbol(w.defs, s);
    hide Below, Reads, ReadBelow, ChoiceBelow, Level;
    if d.typ != Unknown && d.choiceOf.Some? {
      assert MemberShape(w, s);
      assert w.rank(d.choiceOf.value) < w.rank(s);
      assert MemberBelow(w, s);
    }
  }

  lemma PartsBelow(w: World, s: nat)
    requires s < |w.defs| && forall e :: Reads(w.defs[s], e) ==> ReadBelow(w, s, e)
    ensures var d := w.defs[s];
      && (forall p :: p in d.prompts && p.Some? ==> ReadBelow(w, s, p.value))
      && (forall x :: x in d.defaults ==> (x.cond.Some? ==> ReadBelow(w, s, x.cond.value)) && (!d.isChoice ==> ReadBelow(w, s, x.value)))
      && (d.dirDep.Some? ==> ReadBelow(w, s, d.dirDep.value)) && (d.revDep.Some? ==> ReadBelow(w, s, d.revDep.value))
  {
    var d := w.defs[s];
    hide ReadBelow;
    forall p | p in d.prompts && p.Some?
      ensures ReadBelow(w, s, p.value)
    {
      assert Reads(d, p.value);
    }
    forall x | x in d.defaults
      ensures (x.cond.Some? ==> ReadBelow(w, s, x.cond.value)) && (!d.isChoice ==> ReadBelow(w, s, x.value))
    {
      if x.cond.Some? { assert Reads(d, x.cond.value); }
      if !d.isChoice { assert Reads(d, x.value); }
    }
    if d.dirDep.Some? { assert Reads(d, d.dirDep.value); }
    if d.revDep.Some? { assert Reads(d, d.revDep.value); }
  }

  /** A MODULES that depends on nothing can always come first. */
  lemma ModulesFirst(defs: seq<Def>, rank: Ranks, modules: nat)
    requires Settles(defs, rank) && modules < |defs| && !defs[modules].isChoice && defs[modules].choiceOf.None?
    requires forall s :: 0 <= s < |defs| ==> TypedDef(defs[s], defs) && DirWalked(defs, s)
    requires forall b: nat :: !Edge(defs, modules, b)
    ensures var first := map k | k in rank :: if k == modules then 0 else rank[k] + 1;
      Settles(defs, first) && TextsLater(defs, first, modules)
  {
    var first := map k | k in rank :: if k == modules then 0 else rank[k] + 1;
    ModulesIsPlain(defs, modules);
    StillRanked(defs, rank, modules, first);
    forall s, e | 0 <= s < |defs| && Reads(defs[s], e) && ComparesTristate(e)
      ensures Rank(defs, first, modules) < Rank(defs, first, GroupOf(defs, s))
    {
      OthersKnown(defs, s);
      if Visits(defs[s], e) { VisitedKnown(defs, s, e); }
      ComparedIsMentioned(defs, s, e);
      OthersLater(defs, first, modules, s);
    }
  }

  lemma OthersLater(defs: seq<Def>, first: Ranks, modules: nat, s: nat)
    requires Settles(defs, first) && modules in first && first[modules] == 0 && forall k :: k in first && k != modules ==> first[k] > 0
    requires s < |defs| && s != modules && modules < |defs| && !defs[modules].isChoice && defs[modules].choiceOf.None?
    ensures Rank(defs, first, modules) < Rank(defs, first, GroupOf(defs, s))
  {
    ModulesIsPlain(defs, modules);
    GroupKnown(defs, s);
    LastIsTop(defs, first, s);
  }

  lemma StillRanked(defs: seq<Def>, rank: Ranks, modules: nat, first: Ranks)
    requires Settles(defs, rank) && (forall b: nat :: !Edge(defs, modules, b))
    requires modules < |defs| && defs[modules].choiceOf.None? && forall c :: 0 <= c < |defs| ==> modules !in defs[c].members
    requires first == map k | k in rank :: if k == modules then 0 else rank[k] + 1
    ensures Settles(defs, first)
  {
    hide Edge;
    forall m | m in first && m < |defs| && defs[m].choiceOf.Some?
      ensures PastChoice(defs, first, m, defs[m].choiceOf.value)
    {
      assert PastChoice(defs, rank, m, defs[m].choiceOf.value);
    }
    forall a, c | a in first && Outside(defs, a, c)
      ensures PastMembers(defs, first, c, first[a])
    {
      assert PastMembers(defs, rank, c, rank[a]);
    }
  }

  lemma ModulesIsPlain(defs: seq<Def>, modules: nat)
    requires KnownDefs(defs) && Grouped(defs) && modules < |defs| && !defs[modules].isChoice && defs[modules].choiceOf.None?
    ensures Last(defs, modules) == modules && forall s :: 0 <= s < |defs| && s != modules ==> Last(defs, s) != modules
    ensures forall c :: 0 <= c < |defs| ==> modules !in defs[c].members
  {
    assert GroupedSymbol(defs, modules);
    forall s | 0 <= s < |defs| && s != modules
      ensures Last(defs, s) != modules
    {
      GroupKnown(defs, s);
      assert GroupedSymbol(defs, s);
    }
  }
}
