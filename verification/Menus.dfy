/** The menu tree: the parent, next and list links of support/kconfig/expr.h, the walk of
    conf_write and conf_write_defconfig in support/kconfig/confdata.c, and the relinking done by
    menu_finalize in support/kconfig/menu.c. */
module Menus {
  import opened Tristates
  import opened Wrappers
  import opened Expressions
  import opened MenuDependencies

  /** The condition of an entry, that of its prompt, and those of its other properties. */
  datatype Conditions = Conditions(dep: Option<Expr>, visible: Option<Expr>, others: seq<Option<Expr>>) {
    function Shown(hasPrompt: bool): Option<Expr> {
      if hasPrompt then visible else dep
    }
  }

  class Menu {
    var next: Menu?
    var parent: Menu?
    var list: Menu?
    /** The symbol the entry defines. */
    const sym: Option<Sym>
    const isChoice: bool
    const hasPrompt: bool
    /** The prompt has a text. */
    const hasText: bool
    /** The condition of the entry, that of its prompt, and those of its other properties. */
    var dep: Option<Expr>
    var visible: Option<Expr>
    var conditions: seq<Option<Expr>>

    constructor (sym: Option<Sym>, isChoice: bool, hasPrompt: bool, hasText: bool)
      ensures this.sym == sym && this.isChoice == isChoice
      ensures this.hasPrompt == hasPrompt && this.hasText == hasText
      ensures next == null && parent == null && list == null
    {
      this.sym, this.isChoice, this.hasPrompt, this.hasText := sym, isChoice, hasPrompt, hasText;
      next, parent, list := null, null, null;
      dep, visible, conditions := None, None, [];
    }

    predicate Titled() {
      hasPrompt && hasText
    }

    function Now(): Conditions
      reads this`dep, this`visible, this`conditions
    {
      Conditions(dep, visible, conditions)
    }

    /** The condition the entries below inherit. */
    function Inherited(): Option<Expr>
      reads this`dep, this`visible, this`conditions
    {
      if sym.Some? && isChoice then Some(Symbol(sym.value)) else Now().Shown(hasPrompt)
    }

    /** The condition of the prompt, which a missing prompt does not have. */
    function Prompt(): Option<Expr>
      reads this`visible
    {
      if hasPrompt then visible else None
    }

    /** The type whose values the conditions of the entry are read with. */
    function ConditionType(): SymType {
      if sym.Some? then TypeOf(sym.value) else Tristate
    }

    /** The conditions of the entry come from those it had, `was`, by adding `outer`. */
    ghost predicate From(outer: Option<Expr>, was: Conditions)
      reads this`dep, this`visible, this`conditions
    {
      && (forall env :: Sharpens(Min(EvalOpt(outer, env), EvalOpt(was.dep, env)), EvalOpt(dep, env)))
      && (if hasPrompt then Narrowed(dep, was.visible, visible, ConditionType()) else visible == was.visible)
      && |conditions| == |was.others|
      && forall i :: 0 <= i < |conditions| ==> Narrowed(dep, was.others[i], conditions[i], ConditionType())
    }

    ghost predicate Off(env: Env)
      reads this`dep, this`visible, this`conditions
    {
      && EvalOpt(dep, env) == NO && (hasPrompt ==> EvalOpt(visible, env) == NO)
      && forall i :: 0 <= i < |conditions| ==> EvalOpt(conditions[i], env) == NO
    }

    /** The new condition of the entry and its properties below an entry that passes on `outer`. */
    method Inherit(outer: Option<Expr>)
      requires NormalOpt(outer)
      modifies this`dep, this`visible, this`conditions
      ensures NormalOpt(Inherited()) && From(outer, old(Now()))
    {
      dep := Conjoin(outer, dep);
      if hasPrompt {
        visible := Narrow(dep, visible, ConditionType());
      }
      var i := 0;
      while i < |conditions|
        modifies this`conditions
        invariant 0 <= i <= |conditions| == |old(conditions)|
        invariant forall j :: 0 <= j < i ==>
          Narrowed(dep, old(conditions)[j], conditions[j], ConditionType())
        invariant forall j :: i <= j < |conditions| ==> conditions[j] == old(conditions)[j]
      {
        var c := Narrow(dep, conditions[i], ConditionType());
        conditions := conditions[i := c];
        i := i + 1;
      }
    }
  }

  /** Where base && own is definite, a reader of type typ finds this value in the condition now. */
  ghost predicate Narrowed(base: Option<Expr>, own: Option<Expr>, now: Option<Expr>, typ: SymType) {
    forall env :: var both := Min(EvalOpt(base, env), EvalOpt(own, env));
      both != MOD ==> both == (if typ == Tristate then EvalOpt(now, env) else Promote(EvalOpt(now, env)))
  }

  method Narrow(base: Option<Expr>, own: Option<Expr>, typ: SymType) returns (now: Option<Expr>)
    requires NormalOpt(base)
    ensures Narrowed(base, own, now, typ) && NormalOpt(now)
  {
    ghost var plain;
    now, plain := PropertyCondition(base, own, typ);
  }

  /** What can be reached from a menu pointer: the entry, what is below it and what follows it. */
  datatype Forest = Nil | Entry(node: Menu, kids: Forest, rest: Forest)

  ghost function Nodes(f: Forest): set<Menu> {
    match f
    case Nil => {}
    case Entry(n, k, r) => {n} + Nodes(k) + Nodes(r)
  }

  /** Entries in the order of the configuration file. */
  ghost function Preorder(f: Forest): seq<Menu> {
    match f
    case Nil => []
    case Entry(n, k, r) => [n] + Preorder(k) + Preorder(r)
  }

  /** No entry occurs twice. */
  ghost predicate Distinct(f: Forest) {
    match f
    case Nil => true
    case Entry(n, k, r) =>
      && n !in Nodes(k) && n !in Nodes(r) && Nodes(k) !! Nodes(r)
      && Distinct(k) && Distinct(r)
  }

  /** The pointer m leads through the top entries of f, which have the parent p, to `end`; below
      each of them the links are complete. */
  ghost predicate Linked(m: Menu?, f: Forest, p: Menu?, end: Menu?)
    reads Nodes(f)`next, Nodes(f)`parent, Nodes(f)`list
  {
    match f
    case Nil => m == end
    case Entry(n, k, r) =>
      m == n && n.parent == p && Linked(n.list, k, n, null) && Linked(n.next, r, p, end)
  }

  // ---------- complete links lead to each entry once ----------

  ghost function Depth(f: Forest): nat {
    match f
    case Nil => 0
    case Entry(_, k, r) => 1 + Depth(k) + Depth(r)
  }

  /** The links determine the forest. */
  lemma {:induction false} LinksDecide(m: Menu?, f: Forest, p: Menu?, g: Forest, q: Menu?)
    requires Linked(m, f, p, null) && Linked(m, g, q, null)
    ensures f == g
  {
    if f.Entry? {
      LinksDecide(f.node.list, f.kids, f.node, g.kids, f.node);
      LinksDecide(f.node.next, f.rest, p, g.rest, q);
    }
  }

  /** What is below an entry of a forest is a smaller forest, and the entry is a top one or has
      its parent among the entries. */
  lemma {:induction false} PartOf(m: Menu?, f: Forest, p: Menu?, x: Menu) returns (g: Forest)
    requires Linked(m, f, p, null) && x in Nodes(f)
    ensures Linked(x.list, g, x, null) && Depth(g) < Depth(f)
    ensures x.parent == p || (x.parent != null && x.parent in Nodes(f))
  {
    if x == f.node {
      g := f.kids;
    } else if x in Nodes(f.kids) {
      g := PartOf(f.node.list, f.kids, f.node, x);
    } else {
      g := PartOf(f.node.next, f.rest, p, x);
    }
  }

  lemma NotBelowItself(f: Forest, x: Menu)
    requires Linked(x.list, f, x, null)
    ensures x !in Nodes(f)
  {
    if x in Nodes(f) {
      var g := PartOf(x.list, f, x, x);
      LinksDecide(x.list, f, x, g, x);
    }
  }

  /** An entry does not follow itself. */
  lemma {:induction false} NotAfterItself(m: Menu?, f: Forest, p: Menu, x: Menu, rest: Forest)
    requires Linked(m, f, p, null) && p !in Nodes(f)
    requires x.parent == p && Linked(x.next, rest, p, null) && Depth(f) <= Depth(rest)
    ensures x !in Nodes(f)
  {
    if f.Entry? {
      if f.node == x { LinksDecide(x.next, f.rest, p, rest, p); }
      if x in Nodes(f.kids) { var _ := PartOf(f.node.list, f.kids, f.node, x); }
      NotAfterItself(f.node.next, f.rest, p, x, rest);
    }
  }

  /** What is below an entry q is apart from a list that leads to neither q nor what is above it. */
  lemma {:induction false} Apart(m: Menu?, f: Forest, q: Menu, o: Menu?, g: Forest, p: Menu)
    requires Linked(m, f, q, null) && Linked(o, g, p, null)
    requires q !in Nodes(g) && q != p && p !in Nodes(f)
    ensures Nodes(f) !! Nodes(g)
  {
    if f.Entry? {
      var n := f.node;
      if n in Nodes(g) { var _ := PartOf(o, g, p, n); }
      Apart(n.list, f.kids, n, o, g, p);
      Apart(n.next, f.rest, q, o, g, p);
    }
  }

  lemma {:induction false} LinkedIsDistinctList(m: Menu?, f: Forest, p: Menu)
    requires Linked(m, f, p, null) && p !in Nodes(f)
    ensures Distinct(f)
  {
    if f.Entry? {
      var n := f.node;
      NotBelowItself(f.kids, n);
      NotAfterItself(n.next, f.rest, p, n, f.rest);
      Apart(n.list, f.kids, n, n.next, f.rest, p);
      LinkedIsDistinctList(n.list, f.kids, n);
      LinkedIsDistinctList(n.next, f.rest, p);
    }
  }

  /** Complete links below an entry lead to no entry twice. */
  lemma LinkedIsDistinct(f: Forest, p: Menu)
    requires Linked(p.list, f, p, null)
    ensures Distinct(f) && p !in Nodes(f)
  {
    NotBelowItself(f, p);
    LinkedIsDistinctList(p.list, f, p);
  }

  /** No entry is repeated. */
  ghost predicate Once(s: seq<Menu>) {
    forall i, j :: 0 <= i < j < |s| ==> s[i] != s[j]
  }

  lemma OnceConcat(s: seq<Menu>, t: seq<Menu>)
    requires Once(s) && Once(t) && Elements(s) !! Elements(t)
    ensures Once(s + t)
  {
    forall i, j | 0 <= i < |s| <= j < |s + t|
      ensures (s + t)[i] != (s + t)[j]
    {
      assert s[i] in Elements(s) && t[j - |s|] in Elements(t);
    }
  }

  lemma {:induction false} PreorderOnce(f: Forest)
    requires Distinct(f)
    ensures Once(Preorder(f)) && Elements(Preorder(f)) == Nodes(f)
  {
    NodesOfPreorder(f);
    if f.Entry? {
      PreorderOnce(f.kids);
      PreorderOnce(f.rest);
      OnceConcat([f.node], Preorder(f.kids));
      OnceConcat([f.node] + Preorder(f.kids), Preorder(f.rest));
    }
  }

  // ---------- the walk ----------

  /** What remains above the entries being walked: the parent and the entries after it. */
  datatype Context = Top | Below(node: Menu, rest: Forest, up: Context)

  ghost function ContextNodes(c: Context): set<Menu> {
    match c
    case Top => {}
    case Below(n, r, u) => {n} + Nodes(r) + ContextNodes(u)
  }

  ghost function Remaining(c: Context): seq<Menu> {
    match c
    case Top => []
    case Below(_, r, u) => Preorder(r) + Remaining(u)
  }

  ghost predicate InContext(root: Menu, p: Menu?, c: Context)
    reads root, ContextNodes(c)
  {
    match c
    case Top => p == root && root.next == null && root.parent == null
    case Below(n, r, u) => p == n && Linked(n.next, r, n.parent, null) && InContext(root, n.parent, u)
  }

  /** The loop of conf_write over the tree below the root menu. It visits every entry exactly once,
      in the order of the recursive preorder. */
  method Walk(root: Menu, ghost f: Forest) returns (visited: seq<Menu>)
    requires root.next == null && root.parent == null && Linked(root.list, f, root, null)
    ensures visited == Preorder(f)
    ensures Once(visited) && Elements(visited) == Nodes(f)
  {
    hide Once, Elements, Distinct;
    LinkedIsDistinct(f, root);
    PreorderOnce(f);
    visited := [];
    var menu := root.list;
    ghost var g, c, p := f, Top, root;
    while menu != null
      invariant menu != null ==> Linked(menu, g, p, null) && InContext(root, p, c)
      invariant menu == null ==> g == Nil && Remaining(c) == []
      invariant visited + (Preorder(g) + Remaining(c)) == Preorder(f)
      decreases |Preorder(g) + Remaining(c)|
    {
      VisitStep(visited, menu, Preorder(g.kids), Preorder(g.rest), Remaining(c));
      visited := visited + [menu];
      ghost var left := Preorder(g.kids) + (Preorder(g.rest) + Remaining(c));
      if menu.list != null {
        c := Below(menu, g.rest, c);
        menu, g, p := menu.list, g.kids, menu;
      } else {
        menu, g, c, p := Onward(root, menu, g.rest, p, c);
      }
      assert Preorder(g) + Remaining(c) == left;
    }
  }

  lemma VisitStep(visited: seq<Menu>, n: Menu, a: seq<Menu>, b: seq<Menu>, c: seq<Menu>)
    ensures visited + ([n] + a + b + c) == visited + [n] + (a + (b + c))
    ensures [n] + a + b + c == [n] + (a + (b + c))
  {
  }

  /** The step from an entry without entries below it: to the next one, or up. */
  method Onward(root: Menu, menu: Menu, ghost rest: Forest, ghost p: Menu?, ghost c: Context)
    returns (m: Menu?, ghost g: Forest, ghost d: Context, ghost up: Menu?)
    requires menu.parent == p && Linked(menu.next, rest, p, null) && InContext(root, p, c)
    ensures Preorder(g) + Remaining(d) == Preorder(rest) + Remaining(c)
    ensures m != null ==> Linked(m, g, up, null) && InContext(root, up, d)
    ensures m == null ==> g == Nil && Remaining(d) == []
  {
    g, d, up := rest, c, p;
    if menu.next != null { return menu.next, g, d, up; }
    m := menu;
    ghost var atRoot := false;
    while true
      invariant m != null && m.next == null && g == Nil
      invariant !atRoot ==> m.parent == up && InContext(root, up, d)
      invariant atRoot ==> m == root && root.parent == null && d == Top
      invariant Preorder(g) + Remaining(d) == Preorder(rest) + Remaining(c)
      decreases d, !atRoot
    {
      m := m.parent;
      if m == null { break; }
      if m.next != null {
        g, d, up := d.rest, d.up, m.parent;
        m := m.next;
        break;
      }
      if d.Below? {
        assert d.rest == Nil;
        d, up := d.up, m.parent;
      } else {
        atRoot := true;
      }
    }
  }

  // ---------- forests as sequences of trees ----------

  ghost function Concat(f: Forest, g: Forest): Forest {
    match f
    case Nil => g
    case Entry(n, k, r) => Entry(n, k, Concat(r, g))
  }

  lemma {:induction false} ConcatOrder(f: Forest, g: Forest)
    ensures Preorder(Concat(f, g)) == Preorder(f) + Preorder(g)
    ensures Nodes(Concat(f, g)) == Nodes(f) + Nodes(g)
  {
    match f
    case Nil =>
    case Entry(n, k, r) => ConcatOrder(r, g);
  }

  lemma {:induction false} ConcatDistinct(f: Forest, g: Forest)
    ensures Distinct(Concat(f, g)) <==> Distinct(f) && Distinct(g) && Nodes(f) !! Nodes(g)
  {
    match f
    case Nil =>
    case Entry(n, k, r) =>
      ConcatOrder(r, g);
      ConcatDistinct(r, g);
  }

  lemma {:induction false} ConcatFlat(f: Forest, g: Forest)
    ensures FlatBelow(f) && FlatBelow(g) ==> FlatBelow(Concat(f, g))
    ensures Flat(f) && Flat(g) ==> Flat(Concat(f, g))
  {
    match f
    case Nil =>
    case Entry(n, k, r) => ConcatFlat(r, g);
  }

  lemma ConcatFacts(f: Forest, g: Forest)
    ensures Preorder(Concat(f, g)) == Preorder(f) + Preorder(g)
    ensures Nodes(Concat(f, g)) == Nodes(f) + Nodes(g)
    ensures Distinct(Concat(f, g)) <==> Distinct(f) && Distinct(g) && Nodes(f) !! Nodes(g)
    ensures FlatBelow(f) && FlatBelow(g) ==> FlatBelow(Concat(f, g))
    ensures Flat(f) && Flat(g) ==> Flat(Concat(f, g))
  {
    ConcatOrder(f, g);
    ConcatDistinct(f, g);
    ConcatFlat(f, g);
  }

  lemma {:induction false} ConcatLinked(m: Menu?, f: Forest, mid: Menu?, g: Forest, p: Menu?, end: Menu?)
    requires Linked(m, f, p, mid) && Linked(mid, g, p, end)
    ensures Linked(m, Concat(f, g), p, end)
  {
    match f
    case Nil =>
    case Entry(n, k, r) => ConcatLinked(n.next, r, mid, g, p, end);
  }

  ghost function Elements(s: seq<Menu>): set<Menu> {
    set n | n in s
  }

  lemma {:induction false} NodesOfPreorder(f: Forest)
    ensures Nodes(f) == Elements(Preorder(f))
  {
    match f
    case Nil =>
    case Entry(n, k, r) =>
      NodesOfPreorder(k);
      NodesOfPreorder(r);
  }

  lemma SizeOfUnion(a: set<Menu>, b: set<Menu>)
    ensures |a + b| <= |a| + |b|
    ensures a !! b <==> |a + b| == |a| + |b|
  {
    assert |a + b| == |a| + |b| - |a * b|;
    if a !! b {
      assert a * b == {};
    } else {
      var x :| x in a && x in b;
      assert x in a * b;
    }
  }

  lemma {:induction false} SizeOfPreorder(f: Forest)
    ensures |Preorder(f)| >= |Nodes(f)|
    ensures Distinct(f) <==> |Preorder(f)| == |Nodes(f)|
  {
    match f
    case Nil =>
    case Entry(n, k, r) =>
      SizeOfPreorder(k);
      SizeOfPreorder(r);
      SizeOfUnion(Nodes(k), Nodes(r));
      SizeOfUnion({n}, Nodes(k) + Nodes(r));
      assert {n} + (Nodes(k) + Nodes(r)) == Nodes(f);
  }

  /** Entries stay the same and distinct as long as their order is the same. */
  lemma SamePreorder(f: Forest, g: Forest)
    requires Preorder(f) == Preorder(g)
    ensures Nodes(f) == Nodes(g)
    ensures Distinct(f) ==> Distinct(g)
  {
    hide *;
    NodesOfPreorder(f);
    NodesOfPreorder(g);
    SizeOfPreorder(f);
    SizeOfPreorder(g);
  }

  /** Every entry that has entries below it has a prompt text. */
  ghost predicate Flat(f: Forest) {
    match f
    case Nil => true
    case Entry(n, k, r) => (k == Nil || n.Titled()) && Flat(k) && Flat(r)
  }

  /** The same, except that the top entries of f are not looked at. */
  ghost predicate FlatBelow(f: Forest) {
    match f
    case Nil => true
    case Entry(n, k, r) => Flat(k) && FlatBelow(r)
  }

  lemma FlatIsFlatBelow(f: Forest)
    requires Flat(f)
    ensures FlatBelow(f)
  {
  }

  lemma {:induction false} Snoc(f: Forest, n: Menu, k: Forest, r: Forest)
    ensures Concat(Concat(f, Entry(n, k, Nil)), r) == Concat(f, Entry(n, k, r))
  {
    match f
    case Nil =>
    case Entry(_, _, s) => Snoc(s, n, k, r);
  }

  /** Adds the entry n to the end of a list. */
  lemma LinkedSnoc(m: Menu?, f: Forest, n: Menu, k: Forest, p: Menu?)
    requires Linked(m, f, p, n) && n.parent == p && Linked(n.list, k, n, null)
    ensures Linked(m, Concat(f, Entry(n, k, Nil)), p, n.next)
  {
    ConcatLinked(m, f, n, Entry(n, k, Nil), p, n.next);
  }

  lemma {:induction false} LinkedLast(m: Menu?, f: Forest, n: Menu, k: Forest, p: Menu?, end: Menu?)
    requires Linked(m, Concat(f, Entry(n, k, Nil)), p, end)
    ensures Linked(m, f, p, n) && n.parent == p && Linked(n.list, k, n, null) && n.next == end
  {
    match f
    case Nil =>
    case Entry(o, _, r) => LinkedLast(o.next, r, n, k, p, end);
  }

  // ---------- menu_finalize ----------

  /** Gives a list of entries another parent and finds the last one. */
  method Reparent(first: Menu, from: Menu, to: Menu, ghost f: Forest)
    returns (last: Menu, ghost front: Forest, ghost k: Forest)
    requires Linked(first, f, from, null) && Distinct(f)
    modifies Nodes(f)`parent
    ensures f == Concat(front, Entry(last, k, Nil))
    ensures Linked(first, front, to, last) && last.parent == to && last.next == null
    ensures Linked(last.list, k, last, null)
  {
    last := first;
    front, k := Nil, f.kids;
    ghost var todo := f.rest;
    while true
      invariant Concat(front, Entry(last, k, todo)) == f
      invariant Linked(first, front, to, last)
      invariant Linked(last, Entry(last, k, todo), from, null)
      decreases todo
    {
      ConcatFacts(front, Entry(last, k, todo));
      last.parent := to;
      if last.next == null { break; }
      LinkedSnoc(first, front, last, k, to);
      Snoc(front, last, k, todo);
      front, last := Concat(front, Entry(last, k, Nil)), last.next;
      k, todo := todo.kids, todo.rest;
    }
  }

  /** Moves the entries below `menu` up: they and the entries after menu get the parent `to`. */
  method Dissolve(menu: Menu, to: Menu, ghost k: Forest, ghost r: Forest)
    requires menu.list != null && Linked(menu, Entry(menu, k, r), to, null) && Distinct(Entry(menu, k, r))
    modifies {menu}`next, {menu}`list, Nodes(k)`next, Nodes(k)`parent
    ensures menu.list == null && Linked(menu.next, Concat(k, r), to, null)
  {
    hide Concat, Preorder, Flat, FlatBelow;
    ghost var front, lk;
    var last;
    assert Linked(menu.next, r, to, null) && allocated(Nodes(r));
    last, front, lk := Reparent(menu.list, menu, to, k);
    ConcatFacts(front, Entry(last, lk, Nil));
    assert Linked(menu.next, r, to, null);
    last.next := menu.next;
    assert Linked(menu.list, front, to, last);
    assert Linked(last, Entry(last, lk, r), to, null);
    ConcatLinked(menu.list, front, last, Entry(last, lk, r), to, null);
    Snoc(front, last, lk, r);
    assert Linked(menu.list, Concat(k, r), to, null);
    ConcatFacts(k, r);
    menu.next := menu.list;
    menu.list := null;
  }

  // What the steps have to say about conditions. `was` gives the conditions that each entry had
  // before menu_finalize.

  ghost predicate Untouched(f: Forest, was: map<Menu, Conditions>)
    reads Nodes(f)`dep, Nodes(f)`visible, Nodes(f)`conditions
  {
    match f
    case Nil => true
    case Entry(n, k, r) => n in was && n.Now() == was[n] && Untouched(k, was) && Untouched(r, was)
  }

  /** The conditions of all entries of f come from those they had and from what the entry above
      passes on, which for the top entries is `outer`. */
  ghost predicate Derived(f: Forest, outer: Option<Expr>, was: map<Menu, Conditions>)
    reads Nodes(f)`dep, Nodes(f)`visible, Nodes(f)`conditions
  {
    match f
    case Nil => true
    case Entry(n, k, r) =>
      n in was && n.From(outer, was[n]) && Derived(k, n.Inherited(), was) && Derived(r, outer, was)
  }

  /** The top entries of f have their new conditions, those below them the old ones. */
  ghost predicate Pending(f: Forest, outer: Option<Expr>, was: map<Menu, Conditions>)
    reads Nodes(f)`dep, Nodes(f)`visible, Nodes(f)`conditions
  {
    match f
    case Nil => true
    case Entry(n, k, r) =>
      && n in was && n.From(outer, was[n]) && NormalOpt(n.Inherited())
      && Untouched(k, was) && Pending(r, outer, was)
  }

  lemma {:induction false} ConcatConditions(f: Forest, g: Forest, outer: Option<Expr>, was: map<Menu, Conditions>)
    ensures Pending(Concat(f, g), outer, was) <==> Pending(f, outer, was) && Pending(g, outer, was)
    ensures Derived(Concat(f, g), outer, was) <==> Derived(f, outer, was) && Derived(g, outer, was)
  {
    match f
    case Nil =>
    case Entry(_, _, r) => ConcatConditions(r, g, outer, was);
  }

  /** Where an entry passes on n, everything written below it is off, as long as the choices there
      are off. */
  lemma {:induction false} SwitchedOff(f: Forest, outer: Option<Expr>, was: map<Menu, Conditions>, env: Env)
    requires Derived(f, outer, was) && EvalOpt(outer, env) == NO
    requires forall n :: n in Nodes(f) && n.isChoice && n.sym.Some? ==> TriOf(n.sym.value, env) == NO
    ensures forall n :: n in Nodes(f) ==> n.Off(env)
  {
    match f
    case Nil =>
    case Entry(n, k, r) =>
      assert Sharpens(Min(EvalOpt(outer, env), EvalOpt(was[n].dep, env)), EvalOpt(n.dep, env));
      assert n.Off(env);
      SwitchedOff(k, n.Inherited(), was, env);
      SwitchedOff(r, outer, was, env);
  }

  /** Gives the entries of a list the conditions they have below an entry that passes on outer. */
  method InheritAll(first: Menu, ghost f: Forest, ghost p: Menu?, outer: Option<Expr>, ghost was: map<Menu, Conditions>)
    requires Linked(first, f, p, null) && Distinct(f) && NormalOpt(outer) && Untouched(f, was)
    modifies Nodes(f)`dep, Nodes(f)`visible, Nodes(f)`conditions
    ensures Pending(f, outer, was)
  {
    hide Preorder, Flat, FlatBelow;
    var m: Menu? := first;
    ghost var done, todo := Nil, f;
    while m != null
      invariant Concat(done, todo) == f
      invariant Linked(m, todo, p, null) && Untouched(todo, was)
      invariant Pending(done, outer, was)
      decreases todo
    {
      ConcatFacts(done, todo);
      assert allocated(Nodes(todo)) && allocated(Nodes(done));
      ghost var k, r := todo.kids, todo.rest;
      assert Untouched(k, was) && Untouched(r, was);
      m.Inherit(outer);
      assert Linked(m, todo, p, null) && Pending(done, outer, was);
      assert Untouched(k, was) && Untouched(r, was);
      ConcatConditions(done, Entry(m, k, Nil), outer, was);
      Snoc(done, m, k, r);
      done, m, todo := Concat(done, Entry(m, k, Nil)), m.next, r;
    }
    ConcatNil(done);
  }

  lemma {:induction false} ConcatNil(f: Forest)
    ensures Concat(f, Nil) == f
  {
    match f
    case Nil =>
    case Entry(_, _, r) => ConcatNil(r);
  }

  /** If m has no prompt text, moves up what is below it. */
  method FlattenOne(m: Menu, parent: Menu, ghost f: Forest) returns (ghost k: Forest, ghost r: Forest)
    requires f.Entry? && Linked(m, f, parent, null) && Distinct(f) && FlatBelow(f)
    modifies {m}`next, {m}`list, Nodes(f.kids)`next, Nodes(f.kids)`parent
    ensures Linked(m, Entry(m, k, r), parent, null) && (k == Nil || m.Titled())
    ensures Flat(k) && FlatBelow(r)
    ensures Preorder(Entry(m, k, r)) == Preorder(f)
    ensures Nodes(Entry(m, k, r)) == Nodes(f) && Distinct(Entry(m, k, r))
  {
    hide Concat, Preorder;
    k, r := f.kids, f.rest;
    if m.list != null && !m.Titled() {
      Dissolve(m, parent, k, r);
      ConcatFacts(k, r);
      FlatIsFlatBelow(k);
      Empty();
      SplitOrder(m, k, r);
      k, r := Nil, Concat(k, r);
      SplitOrder(m, k, r);
      SamePreorder(f, Entry(m, k, r));
    }
  }

  /** One entry moves from the front of todo to the end of done. */
  lemma MoveOn(done: Forest, n: Menu, k: Forest, r: Forest)
    ensures Preorder(Concat(done, Entry(n, k, Nil))) + Preorder(r) == Preorder(done) + Preorder(Entry(n, k, r))
    ensures Nodes(Concat(done, Entry(n, k, Nil))) + Nodes(r) == Nodes(done) + Nodes(Entry(n, k, r))
    ensures Nodes(Concat(done, Entry(n, k, Nil))) == Nodes(done) + Nodes(Entry(n, k, Nil))
    ensures Distinct(done) && Distinct(Entry(n, k, r)) && Nodes(done) !! Nodes(Entry(n, k, r)) ==>
      Distinct(Concat(done, Entry(n, k, Nil))) && Nodes(Concat(done, Entry(n, k, Nil))) !! Nodes(r)
    ensures FlatBelow(done) && Flat(k) ==> FlatBelow(Concat(done, Entry(n, k, Nil)))
    ensures Flat(done) && Flat(k) && (k == Nil || n.Titled()) ==> Flat(Concat(done, Entry(n, k, Nil)))
  {
    Empty();
    ConcatFacts(done, Entry(n, k, Nil));
  }

  /** Moves up what is below entries without a prompt text. */
  method Flatten(parent: Menu, ghost f: Forest) returns (ghost g: Forest)
    requires Linked(parent.list, f, parent, null) && Distinct(f) && parent !in Nodes(f) && FlatBelow(f)
    modifies Nodes(f)`next, Nodes(f)`parent, Nodes(f)`list
    ensures Linked(parent.list, g, parent, null) && Preorder(g) == Preorder(f) && Flat(g)
  {
    hide Concat, Preorder, Flat, FlatBelow;
    var m := parent.list;
    ghost var done, todo := Nil, f;
    Empty();
    while m != null
      invariant Linked(parent.list, done, parent, m) && Linked(m, todo, parent, null)
      invariant Preorder(done) + Preorder(todo) == Preorder(f)
      invariant Flat(done) && FlatBelow(todo)
      invariant Nodes(done) + Nodes(todo) == Nodes(f)
      invariant Nodes(done) !! Nodes(todo) && Distinct(done) && Distinct(todo)
      decreases |Preorder(todo)|
    {
      assert allocated(Nodes(done));
      ghost var k, r := FlattenOne(m, parent, todo);
      assert Linked(parent.list, done, parent, m);
      LinkedSnoc(parent.list, done, m, k, parent);
      MoveOn(done, m, k, r);
      Longer(m, k, r);
      done, m, todo := Concat(done, Entry(m, k, Nil)), m.next, r;
    }
    g := done;
  }

  lemma Empty()
    ensures Preorder(Nil) == [] && Flat(Nil) && FlatBelow(Nil)
    ensures Nodes(Nil) == {} && Distinct(Nil)
  {
  }

  lemma Longer(n: Menu, k: Forest, r: Forest)
    ensures |Preorder(Entry(n, k, r))| == 1 + |Preorder(k)| + |Preorder(r)|
  {
  }

  /** menu_finalize on each entry of a list. An entry can take the ones after it below itself. */
  method FinalizeAll(first: Menu, ghost f: Forest, ghost p: Menu?,
                     ghost outer: Option<Expr>, ghost was: map<Menu, Conditions>)
    returns (ghost g: Forest)
    requires Linked(first, f, p, null) && Distinct(f) && Pending(f, outer, was)
    modifies Nodes(f)
    ensures Linked(first, g, p, null) && Preorder(g) == Preorder(f) && FlatBelow(g)
    ensures Derived(f, outer, was)
    decreases |Preorder(f)|, 2
  {
    hide Concat, Preorder, Flat, FlatBelow, Nodes, Distinct, Pending, Derived;
    var m: Menu? := first;
    ghost var done, todo, taken := Nil, f, Nil;
    Empty();
    EmptyDerived(f, outer, was);
    while m != null
      invariant Linked(first, done, p, m) && Linked(m, todo, p, null)
      invariant Preorder(done) + Preorder(todo) == Preorder(f)
      invariant Concat(taken, todo) == f && Nodes(taken) == Nodes(done)
      invariant FlatBelow(done) && Pending(todo, outer, was) && Derived(taken, outer, was)
      invariant Nodes(done) + Nodes(todo) == Nodes(f)
      invariant Nodes(done) !! Nodes(todo) && Distinct(done) && Distinct(todo)
      decreases |Preorder(todo)|
    {
      assert allocated(Nodes(done)) && allocated(Nodes(taken));
      ghost var t, c := FinalizeNext(m, todo, p, outer, was);
      assert Linked(first, done, p, m) && Derived(taken, outer, was);
      LinkedSnoc(first, done, m, t.kids, p);
      MoveOn(done, m, t.kids, t.rest);
      Longer(m, t.kids, t.rest);
      TakeMore(taken, c, t.rest, outer, was);
      done, m, todo, taken := Concat(done, Entry(m, t.kids, Nil)), m.next, t.rest, Concat(taken, c);
    }
    ConcatNil(taken);
    g := done;
  }

  lemma TakeMore(a: Forest, b: Forest, c: Forest, outer: Option<Expr>, was: map<Menu, Conditions>)
    requires Derived(a, outer, was) && Derived(b, outer, was)
    ensures Derived(Concat(a, b), outer, was)
    ensures Concat(Concat(a, b), c) == Concat(a, Concat(b, c))
    ensures Nodes(Concat(a, b)) == Nodes(a) + Nodes(b)
  {
    ConcatConditions(a, b, outer, was);
    ConcatOrder(a, b);
    ConcatAssociates(a, b, c);
  }

  lemma {:induction false} ConcatAssociates(a: Forest, b: Forest, c: Forest)
    ensures Concat(Concat(a, b), c) == Concat(a, Concat(b, c))
  {
    match a
    case Nil =>
    case Entry(_, _, r) => ConcatAssociates(r, b, c);
  }

  /** menu_finalize on an entry of a list, where c is the part of the list that it settles. */
  method FinalizeNext(m: Menu, ghost f: Forest, ghost p: Menu?,
                      ghost outer: Option<Expr>, ghost was: map<Menu, Conditions>)
    returns (ghost t: Forest, ghost c: Forest)
    requires f.Entry? && Linked(m, f, p, null) && Distinct(f) && Pending(f, outer, was)
    modifies Nodes(f)
    ensures t.Entry? && Linked(m, t, p, null)
    ensures Preorder(t) == Preorder(f) && Distinct(t) && Nodes(t) == Nodes(f) && Distinct(t.rest)
    ensures Flat(t.kids)
    ensures Concat(c, t.rest) == f && Nodes(c) == Nodes(Entry(m, t.kids, Nil))
    ensures Derived(c, outer, was) && Pending(t.rest, outer, was) && m.Now() == old(m.Now())
    decreases |Preorder(f)|, 1
  {
    hide Concat, Preorder, Flat, FlatBelow;
    ghost var d;
    ghost var taken;
    t, d, taken := Finalize(m, f, p, outer, was);
    c := Entry(m, f.kids, d);
    SamePreorder(f, t);
    SettledNodes(t, f, d);
  }

  lemma SettledNodes(t: Forest, f: Forest, d: Forest)
    requires t.Entry? && f.Entry? && t.node == f.node && Preorder(t) == Preorder(f) && Distinct(f)
    requires Concat(d, t.rest) == f.rest
    ensures Concat(Entry(f.node, f.kids, d), t.rest) == f
    ensures Nodes(Entry(f.node, f.kids, d)) == Nodes(Entry(f.node, t.kids, Nil))
  {
    hide Preorder, Concat;
    SamePreorder(f, t);
    ConcatDistinct(d, t.rest);
    ConcatOrder(d, t.rest);
    SameRemainder(f.node, Nodes(f.kids), Nodes(d), Nodes(t.kids), Nodes(t.rest));
    ConcatEntry(f.node, f.kids, d, t.rest);
  }

  lemma ConcatEntry(n: Menu, k: Forest, d: Forest, r: Forest)
    ensures Concat(Entry(n, k, d), r) == Entry(n, k, Concat(d, r))
  {
  }

  lemma SameRemainder(n: Menu, a: set<Menu>, b: set<Menu>, c: set<Menu>, r: set<Menu>)
    requires {n} + a + (b + r) == {n} + c + r
    requires n !in r && a !! r && b !! r && c !! r
    ensures {n} + a + b == {n} + c + {}
  {
    var x, y := {n} + a + b, {n} + c + {};
    assert x + r == y + r && x !! r && y !! r;
    assert x == (x + r) - r;
    assert y == (y + r) - r;
  }

  /** menu_finalize of support/kconfig/menu.c. As for the tree, it changes only nesting: the entries
      keep their order, the links stay consistent, and no entry below the given one has entries
      below it but no prompt text. Some of the entries after the given one, d, may end up below it.
      The conditions of all entries settled by this come from those they had and from what the entry
      above, in the original nesting, passes on. */
  method Finalize(menu: Menu, ghost f: Forest, ghost p: Menu?,
                  ghost outer: Option<Expr>, ghost was: map<Menu, Conditions>)
    returns (ghost g: Forest, ghost d: Forest, ghost taken: Forest)
    requires f.Entry? && Linked(menu, f, p, null) && Distinct(f)
    requires NormalOpt(menu.Inherited()) && Untouched(f.kids, was) && Pending(f.rest, outer, was)
    modifies {menu}`next, {menu}`list, Nodes(f.kids), Nodes(f.rest)
    ensures g.Entry? && Linked(menu, g, p, null) && Preorder(g) == Preorder(f) && Flat(g.kids)
    ensures Derived(f.kids, menu.Inherited(), was) && Derived(d, outer, was)
    ensures Concat(d, g.rest) == f.rest && Pending(g.rest, outer, was)
    ensures f.kids != Nil || menu.sym.None? ==> d == Nil
    ensures f.kids == Nil && menu.sym.Some? && g.rest.Entry? ==> !Must(g.rest.node, menu.sym.value, menu.Prompt())
    ensures f.kids == Nil && menu.sym.Some? ==> Preorder(taken) == Preorder(g.kids) && AllMay(taken, menu.sym.value, menu.Prompt())
    decreases |Preorder(f)|, 0
  {
    hide *;
    ghost var k, r := f.kids, f.rest;
    Head(menu, f, p, null);
    assert f == Entry(menu, k, r);
    LinkedParts(menu, k, r, p);
    Head(menu.list, k, menu, null);
    d := Nil;
    Empty();
    EmptyDerived(r, outer, was);
    EmptyDerived(r, menu.Inherited(), was);
    Parts(menu, k, r);
    assert allocated(Nodes(r));
    if menu.list != null {
      k := FinalizeBelow(menu, k, was);
    } else if menu.sym.Some? {
      k, r, d := Absorb(menu, r, p, outer, was);
    }
    taken := k;
    SameParts(f, menu, k, r);
    assert allocated(Nodes(r)) && allocated(Nodes(d)) && allocated(Nodes(f.kids));
    ghost var flat := Flatten(menu, k);
    SameParts(f, menu, flat, r);
    g := Entry(menu, flat, r);
    LinkedParts(menu, flat, r, p);
  }

  lemma LinkedParts(m: Menu, k: Forest, r: Forest, p: Menu?)
    ensures Linked(m, Entry(m, k, r), p, null)
       <==> m.parent == p && Linked(m.list, k, m, null) && Linked(m.next, r, p, null)
  {
  }

  lemma Parts(n: Menu, k: Forest, r: Forest)
    ensures Preorder(Entry(n, k, r)) == [n] + (Preorder(k) + Preorder(r))
    ensures Nodes(Entry(n, k, r)) == {n} + Nodes(k) + Nodes(r)
    ensures Distinct(Entry(n, k, r)) ==>
      n !in Nodes(k) && n !in Nodes(r) && Nodes(k) !! Nodes(r) && Distinct(k) && Distinct(r)
  {
    SplitOrder(n, k, r);
  }

  lemma SameParts(f: Forest, n: Menu, k: Forest, r: Forest)
    requires Preorder(f) == [n] + (Preorder(k) + Preorder(r)) && Distinct(f)
    ensures Preorder(Entry(n, k, r)) == Preorder(f)
    ensures Nodes(f) == {n} + Nodes(k) + Nodes(r)
    ensures n !in Nodes(k) && n !in Nodes(r) && Nodes(k) !! Nodes(r) && Distinct(k) && Distinct(r)
  {
    hide Preorder;
    SplitOrder(n, k, r);
    SamePreorder(f, Entry(n, k, r));
  }

  /** The part of menu_finalize for an entry that has entries below it from the start. */
  method FinalizeBelow(menu: Menu, ghost f: Forest, ghost was: map<Menu, Conditions>) returns (ghost g: Forest)
    requires menu.list != null && Linked(menu.list, f, menu, null) && Distinct(f)
    requires menu !in Nodes(f) && NormalOpt(menu.Inherited()) && Untouched(f, was)
    modifies Nodes(f)
    ensures Linked(menu.list, g, menu, null) && Preorder(g) == Preorder(f) && FlatBelow(g)
    ensures Derived(f, menu.Inherited(), was)
    decreases |Preorder(f)|, 3
  {
    assert allocated(Nodes(f));
    var outer := menu.Inherited();
    InheritAll(menu.list, f, menu, outer, was);
    g := FinalizeAll(menu.list, f, menu, outer, was);
  }

  /** The condition of m places it below a symbol whose prompt is shown by `visible`: it has to
      go there, or may. */
  ghost predicate Must(m: Menu, s: Sym, visible: Option<Expr>)
    reads m`dep, m`visible, m`conditions
  {
    MustFollow(s, visible, m.Now().Shown(m.hasPrompt))
  }

  ghost predicate May(m: Menu, s: Sym, visible: Option<Expr>)
    reads m`dep, m`visible, m`conditions
  {
    MayFollow(s, visible, m.Now().Shown(m.hasPrompt))
  }

  /** The top entries of f all may. */
  ghost predicate AllMay(f: Forest, s: Sym, visible: Option<Expr>)
    reads Nodes(f)`dep, Nodes(f)`visible, Nodes(f)`conditions
  {
    match f
    case Nil => true
    case Entry(n, _, r) => May(n, s, visible) && AllMay(r, s, visible)
  }

  lemma {:induction false} OneMoreMay(f: Forest, n: Menu, k: Forest, s: Sym, visible: Option<Expr>)
    requires AllMay(f, s, visible) && May(n, s, visible)
    ensures AllMay(Concat(f, Entry(n, k, Nil)), s, visible)
  {
    match f
    case Nil =>
    case Entry(_, _, r) => OneMoreMay(r, n, k, s, visible);
  }

  lemma SplitOrder(n: Menu, k: Forest, r: Forest)
    ensures Preorder(Entry(n, k, r)) == [n] + (Preorder(k) + Preorder(r))
  {
    VisitStep([], n, Preorder(k), Preorder(r), []);
  }

  /** Takes the entries after a symbol that belong into a submenu below it: in the original
      nesting they are d, now they are k. */
  method Absorb(menu: Menu, ghost f: Forest, ghost p: Menu?,
                ghost outer: Option<Expr>, ghost was: map<Menu, Conditions>)
    returns (ghost k: Forest, ghost r: Forest, ghost d: Forest)
    requires menu.sym.Some? && menu.list == null && menu.parent == p && Linked(menu.next, f, p, null)
    requires Distinct(f) && menu !in Nodes(f) && Pending(f, outer, was)
    modifies {menu}`next, {menu}`list, Nodes(f)
    ensures Linked(menu.list, k, menu, null) && Linked(menu.next, r, p, null)
    ensures Preorder(k) + Preorder(r) == Preorder(f) && FlatBelow(k)
    ensures Concat(d, r) == f && Derived(d, outer, was) && Pending(r, outer, was)
    ensures AllMay(k, menu.sym.value, menu.Prompt())
    ensures r.Entry? ==> !Must(r.node, menu.sym.value, menu.Prompt())
    decreases |Preorder(f)|, 4
  {
    hide *;
    var m, last;
    ghost var front, lk;
    m, last, front, lk, k, r, d := TakeEach(menu, f, p, outer, was);
    Head(menu.next, k, menu, m);
    if last != null {
      SnocHas(front, last, lk);
      LinkedLast(menu.next, front, last, lk, menu, m);
      assert allocated(Nodes(r)) && allocated(Nodes(d));
      Adopt(menu, last, front, lk);
      assert menu.next == m && Linked(m, r, p, null);
    } else {
      Head(menu.list, Nil, menu, null);
    }
  }

  /** The loop of that: m is the first entry that stays, last the one before it. */
  method TakeEach(menu: Menu, ghost f: Forest, ghost p: Menu?,
                  ghost outer: Option<Expr>, ghost was: map<Menu, Conditions>)
    returns (m: Menu?, last: Menu?, ghost front: Forest, ghost lk: Forest,
             ghost k: Forest, ghost r: Forest, ghost d: Forest)
    requires menu.sym.Some? && menu.list == null && menu.parent == p && Linked(menu.next, f, p, null)
    requires Distinct(f) && menu !in Nodes(f) && Pending(f, outer, was)
    modifies Nodes(f)
    ensures Linked(menu.next, k, menu, m) && Linked(m, r, p, null)
    ensures Preorder(k) + Preorder(r) == Preorder(f) && Nodes(k) + Nodes(r) == Nodes(f)
    ensures Nodes(k) !! Nodes(r) && Distinct(k) && Distinct(r) && FlatBelow(k)
    ensures Concat(d, r) == f && Nodes(d) == Nodes(k) && Derived(d, outer, was) && Pending(r, outer, was)
    ensures AllMay(k, menu.sym.value, menu.Prompt())
    ensures r.Entry? ==> !Must(r.node, menu.sym.value, menu.Prompt())
    ensures last == null <==> k == Nil
    ensures last != null ==> k == Concat(front, Entry(last, lk, Nil))
    decreases |Preorder(f)|, 3
  {
    hide *;
    m, last := menu.next, null;
    front, lk := Nil, Nil;
    k, r, d := Nil, f, Nil;
    Empty();
    EmptyDerived(f, outer, was);
    NoneMay(menu.sym.value, menu.Prompt());
    Head(m, Nil, menu, m);
    while m != null
      invariant Linked(menu.next, k, menu, m) && Linked(m, r, p, null)
      invariant Preorder(k) + Preorder(r) == Preorder(f)
      invariant Concat(d, r) == f && Nodes(d) == Nodes(k)
      invariant FlatBelow(k) && Pending(r, outer, was) && Derived(d, outer, was)
      invariant Nodes(k) + Nodes(r) == Nodes(f)
      invariant Nodes(k) !! Nodes(r) && Distinct(k) && Distinct(r)
      invariant AllMay(k, menu.sym.value, menu.Prompt())
      invariant menu.list == null && (last == null <==> k == Nil)
      invariant last != null ==> k == Concat(front, Entry(last, lk, Nil))
      decreases |Preorder(r)|
    {
      Head(m, r, p, null);
      assert allocated(Nodes(k)) && allocated(Nodes(r));
      var below := BelongsBelow(menu, m);
      if !below { break; }
      assert Linked(menu.next, k, menu, m) && Derived(d, outer, was) && AllMay(k, menu.sym.value, menu.Prompt());
      ghost var t, c := Take(menu, m, r, p, outer, was);
      assert Linked(menu.next, k, menu, m) && Derived(d, outer, was) && AllMay(k, menu.sym.value, menu.Prompt());
      OneMoreMay(k, m, t.kids, menu.sym.value, menu.Prompt());
      LinkedSnoc(menu.next, k, m, t.kids, menu);
      MoveOn(k, m, t.kids, t.rest);
      Longer(m, t.kids, t.rest);
      TakeMore(d, c, t.rest, outer, was);
      front, last, lk := k, m, t.kids;
      k, m, r, d := Concat(k, Entry(m, t.kids, Nil)), m.next, t.rest, Concat(d, c);
    }
    Head(m, r, p, null);
  }

  lemma NoneMay(s: Sym, visible: Option<Expr>)
    ensures AllMay(Nil, s, visible)
  {
  }

  lemma Head(m: Menu?, f: Forest, p: Menu?, end: Menu?)
    ensures f == Nil ==> (Linked(m, f, p, end) <==> m == end)
    ensures f.Entry? && Linked(m, f, p, end) ==> f.node == m
  {
  }

  lemma EmptyDerived(f: Forest, outer: Option<Expr>, was: map<Menu, Conditions>)
    ensures Derived(Nil, outer, was) && Concat(Nil, f) == f
  {
  }

  method BelongsBelow(menu: Menu, m: Menu) returns (below: bool)
    requires menu.sym.Some?
    ensures below ==> May(m, menu.sym.value, menu.Prompt())
    ensures !below ==> !Must(m, menu.sym.value, menu.Prompt())
  {
    var verdict := SubmenuTest(menu.sym.value, menu.Prompt(), m.Now().Shown(m.hasPrompt));
    below := verdict != NotBelow;
  }

  lemma SnocHas(f: Forest, n: Menu, k: Forest)
    ensures n in Nodes(Concat(f, Entry(n, k, Nil)))
  {
    ConcatOrder(f, Entry(n, k, Nil));
  }

  /** One step of that: finalizes the entry m and gives it the parent menu. */
  method Take(menu: Menu, m: Menu, ghost f: Forest, ghost p: Menu?,
              ghost outer: Option<Expr>, ghost was: map<Menu, Conditions>)
    returns (ghost t: Forest, ghost c: Forest)
    requires f.Entry? && Linked(m, f, p, null) && Distinct(f) && Pending(f, outer, was) && menu !in Nodes(f)
    modifies Nodes(f)
    ensures t.Entry? && t.node == m && m.parent == menu
    ensures Linked(m.list, t.kids, m, null) && Linked(m.next, t.rest, p, null)
    ensures Preorder(t) == Preorder(f) && Distinct(t) && Nodes(t) == Nodes(f) && Distinct(t.rest)
    ensures Flat(t.kids)
    ensures Concat(c, t.rest) == f && Nodes(c) == Nodes(Entry(m, t.kids, Nil))
    ensures Derived(c, outer, was) && Pending(t.rest, outer, was) && m.Now() == old(m.Now())
    decreases |Preorder(f)|, 2
  {
    hide Concat, Preorder, Flat, FlatBelow, Pending, Derived;
    t, c := FinalizeNext(m, f, p, outer, was);
    assert allocated(Nodes(c));
    m.parent := menu;
  }

  /** Cuts the list after `last` and hangs the part up to there below menu. */
  method Adopt(menu: Menu, last: Menu, ghost front: Forest, ghost lk: Forest)
    requires Linked(menu.next, front, menu, last) && last.parent == menu && Linked(last.list, lk, last, null)
    requires Distinct(Concat(front, Entry(last, lk, Nil))) && menu !in Nodes(Concat(front, Entry(last, lk, Nil)))
    modifies {menu}`next, {menu}`list, {last}`next
    ensures Linked(menu.list, Concat(front, Entry(last, lk, Nil)), menu, null) && menu.next == old(last.next)
  {
    ConcatFacts(front, Entry(last, lk, Nil));
    menu.list := menu.next;
    menu.next := last.next;
    last.next := null;
    LinkedSnoc(menu.list, front, last, lk, menu);
  }
}
