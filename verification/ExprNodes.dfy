/** The struct expr nodes of support/kconfig/expr.c and the procedures that rewrite trees of them in
    place. Each is proved to leave the tree that the corresponding function on expressions gives, for
    trees that nothing else points into. */
module ExprNodes {
  import opened Tristates
  import opened Wrappers
  import opened Expressions
  import Compare = ExprCompare
  import Rules = ExprTransform

  datatype Kind = KSymbol | KNot | KAnd | KOr | KEqual | KUnequal

  function KindOf(op: Op): Kind {
    if op == And then KAnd else KOr
  }

  predicate IsBinKind(k: Kind) {
    k == KAnd || k == KOr
  }

  function OpOf(k: Kind): Op {
    if k == KAnd then And else Or
  }

  /** A struct expr. Its unions become one field for each use. */
  class Node {
    var kind: Kind
    var left: Node?
    var right: Node?
    var sym: Sym
    var other: Sym

    constructor (kind: Kind, left: Node?, right: Node?, sym: Sym, other: Sym)
      ensures this.kind == kind && this.left == left && this.right == right && this.sym == sym && this.other == other
    {
      this.kind, this.left, this.right, this.sym, this.other := kind, left, right, sym, other;
    }
  }

  /** The nodes of a tree. */
  datatype Shape = End(node: Node) | One(node: Node, arg: Shape) | Two(node: Node, l: Shape, r: Shape)

  ghost function Nodes(h: Shape): set<Node> {
    match h
    case End(n) => {n}
    case One(n, a) => {n} + Nodes(a)
    case Two(n, l, r) => {n} + Nodes(l) + Nodes(r)
  }

  /** Every node belongs to one place of the tree. */
  ghost predicate Owned(h: Shape) {
    match h
    case End(_) => true
    case One(n, a) => n !in Nodes(a) && Owned(a)
    case Two(n, l, r) => n !in Nodes(l) && n !in Nodes(r) && Nodes(l) !! Nodes(r) && Owned(l) && Owned(r)
  }

  /** The tree at n with nodes h is the expression e. */
  ghost predicate Holds(n: Node?, h: Shape, e: Expr)
    reads Nodes(h)
    decreases e
  {
    && n == h.node
    && match e
       case Symbol(s) => h.End? && h.node.kind == KSymbol && h.node.sym == s
       case Equal(a, b) => h.End? && h.node.kind == KEqual && h.node.sym == a && h.node.other == b
       case Unequal(a, b) => h.End? && h.node.kind == KUnequal && h.node.sym == a && h.node.other == b
       case Not(x) => h.One? && h.node.kind == KNot && Holds(h.node.left, h.arg, x)
       case Bin(op, x, y) =>
         h.Two? && h.node.kind == KindOf(op) && Holds(h.node.left, h.l, x) && Holds(h.node.right, h.r, y)
  }

  ghost predicate Tree(n: Node?, h: Shape, e: Expr)
    reads Nodes(h)
  {
    Holds(n, h, e) && Owned(h)
  }

  /** The shape with another root node. */
  ghost function Rooted(h: Shape, n: Node): Shape {
    match h
    case End(_) => End(n)
    case One(_, a) => One(n, a)
    case Two(_, l, r) => Two(n, l, r)
  }

  // ---------- expr_eliminate_yn ----------

  /** `*e = *x`: e becomes the root of the tree at x, which is given up. */
  method Overwrite(n: Node, x: Node, ghost h: Shape, ghost e: Expr) returns (ghost g: Shape)
    requires Tree(x, h, e) && n !in Nodes(h)
    modifies n
    ensures Tree(n, g, e) && Nodes(g) <= {n} + Nodes(h)
  {
    n.kind, n.left, n.right, n.sym, n.other := x.kind, x.left, x.right, x.sym, x.other;
    g := Rooted(h, n);
  }

  /** The node becomes a constant. */
  method MakeConst(n: Node, s: Sym) returns (ghost g: Shape)
    modifies n
    ensures Tree(n, g, Symbol(s)) && Nodes(g) == {n}
  {
    n.kind, n.sym, n.right := KSymbol, s, null;
    g := End(n);
  }

  /** The children of a node of a tree. */
  lemma Children(n: Node?, h: Shape, e: Expr)
    requires Tree(n, h, e)
    ensures n != null && n == h.node && n in Nodes(h)
    ensures e.Bin? <==> h.Two?
    ensures e.Not? <==> h.One?
    ensures e.Bin? ==> n.left != null && n.right != null && n.kind == KindOf(e.op)
    ensures e.Bin? ==> Tree(n.left, h.l, e.left) && Tree(n.right, h.r, e.right) && Apart(n, h.l, h.r)
    ensures e.Bin? ==> Nodes(h) == {n} + Nodes(h.l) + Nodes(h.r)
    ensures e.Not? ==> n.left != null && n.kind == KNot && Tree(n.left, h.arg, e.operand) && n !in Nodes(h.arg) && Nodes(h) == {n} + Nodes(h.arg)
    ensures e.Symbol? <==> n.kind == KSymbol
    ensures e.Symbol? ==> n.sym == e.sym
    ensures e.Equal? <==> n.kind == KEqual
    ensures e.Unequal? <==> n.kind == KUnequal
    ensures e.Equal? || e.Unequal? ==> n.sym == e.lhs && n.other == e.rhs
    ensures !e.Bin? && !e.Not? ==> h.End?
  {
    match e
    case Not(x) => assert Holds(h.node.left, h.arg, x) && h.node.left == h.arg.node;
    case Bin(_, x, y) =>
      assert Holds(h.node.left, h.l, x) && h.node.left == h.l.node;
      assert Holds(h.node.right, h.r, y) && h.node.right == h.r.node;
    case _ =>
  }

  ghost predicate Apart(n: Node, l: Shape, r: Shape) {
    n !in Nodes(l) && n !in Nodes(r) && Nodes(l) !! Nodes(r)
  }

  lemma MakeTwo(n: Node, op: Op, l: Shape, x: Expr, r: Shape, y: Expr)
    requires n.kind == KindOf(op) && Tree(n.left, l, x) && Tree(n.right, r, y) && Apart(n, l, r)
    ensures Tree(n, Two(n, l, r), Bin(op, x, y)) && Nodes(Two(n, l, r)) == {n} + Nodes(l) + Nodes(r)
  {
  }

  lemma MakeOne(n: Node, a: Shape, x: Expr)
    requires n.kind == KNot && Tree(n.left, a, x) && n !in Nodes(a)
    ensures Tree(n, One(n, a), Not(x)) && Nodes(One(n, a)) == {n} + Nodes(a)
  {
  }

  lemma MakeEnd(n: Node)
    ensures n.kind == KSymbol ==> Tree(n, End(n), Symbol(n.sym))
    ensures n.kind == KEqual ==> Tree(n, End(n), Equal(n.sym, n.other))
    ensures n.kind == KUnequal ==> Tree(n, End(n), Unequal(n.sym, n.other))
    ensures Nodes(End(n)) == {n}
  {
  }

  method EliminateYn(n: Node, ghost h: Shape, ghost e: Expr) returns (ghost g: Shape)
    requires Tree(n, h, e)
    modifies Nodes(h)
    ensures Tree(n, g, Compare.EliminateYn(e)) && Nodes(g) <= Nodes(h)
    decreases e
  {
    hide Tree, Nodes;
    Children(n, h, e);
    if !IsBinKind(n.kind) { return h; }
    assert allocated(Nodes(h.l)) && allocated(Nodes(h.r));
    ghost var l := EliminateYn(n.left, h.l, e.left);
    assert Tree(n.right, h.r, e.right) && allocated(Nodes(l));
    ghost var r := EliminateYn(n.right, h.r, e.right);
    assert Tree(n.left, l, Compare.EliminateYn(e.left));
    g := Fold(n, e.op, l, Compare.EliminateYn(e.left), r, Compare.EliminateYn(e.right));
  }

  /** The cases of expr_eliminate_yn for an AND or OR node over cleaned operands */
  method Fold(n: Node, ghost op: Op, ghost l: Shape, ghost x: Expr, ghost r: Shape, ghost y: Expr) returns (ghost g: Shape)
    requires n.kind == KindOf(op) && Tree(n.left, l, x) && Tree(n.right, r, y) && Apart(n, l, r)
    modifies n
    ensures Tree(n, g, Compare.Fold(op, x, y)) && Nodes(g) <= {n} + Nodes(l) + Nodes(r)
  {
    hide Tree, Nodes;
    Children(n.left, l, x);
    Children(n.right, r, y);
    var neutral, decisive := Unit(OpOf(n.kind)), Absorber(OpOf(n.kind));
    var a, b := n.left, n.right;
    MakeTwo(n, op, l, x, r, y);
    if a.kind == KSymbol && a.sym == decisive {
      g := MakeConst(n, decisive);
    } else if a.kind == KSymbol && a.sym == neutral {
      g := Overwrite(n, b, r, y);
    } else if b.kind == KSymbol && b.sym == decisive {
      g := MakeConst(n, decisive);
    } else if b.kind == KSymbol && b.sym == neutral {
      g := Overwrite(n, a, l, x);
    } else {
      g := Two(n, l, r);
    }
  }

  // ---------- expr_trans_bool ----------

  method TransBool(n: Node, ghost h: Shape, ghost e: Expr) returns (ghost g: Shape)
    requires Tree(n, h, e)
    modifies Nodes(h)
    ensures Tree(n, g, Rules.TransBool(e)) && Nodes(g) == Nodes(h)
    decreases e
  {
    hide Tree, Nodes;
    Children(n, h, e);
    g := h;
    if IsBinKind(n.kind) {
      assert allocated(Nodes(h.l)) && allocated(Nodes(h.r));
      ghost var l := TransBool(n.left, h.l, e.left);
      assert Tree(n.right, h.r, e.right) && allocated(Nodes(l));
      ghost var r := TransBool(n.right, h.r, e.right);
      assert Tree(n.left, l, Rules.TransBool(e.left));
      MakeTwo(n, e.op, l, Rules.TransBool(e.left), r, Rules.TransBool(e.right));
      g := Two(n, l, r);
    } else if n.kind == KNot {
      assert allocated(Nodes(h.arg));
      ghost var a := TransBool(n.left, h.arg, e.operand);
      MakeOne(n, a, Rules.TransBool(e.operand));
      g := One(n, a);
    } else if n.kind == KUnequal && TypeOf(n.sym) == Tristate && n.other == No {
      n.kind := KSymbol;
      MakeEnd(n);
      MakeEnd(h.node);
      g := End(n);
    }
  }

  // ---------- expr_transform ----------

  /** expr_transform. It may give up the node it was called with and allocate others. */
  method Transform(n: Node, ghost h: Shape, ghost e: Expr) returns (m: Node, ghost g: Shape)
    requires Tree(n, h, e)
    modifies Nodes(h)
    ensures Tree(m, g, Rules.Transform(e)) && fresh(Nodes(g) - Nodes(h))
    decreases Rules.Weight(e), 4
  {
    hide Tree, Nodes;
    Children(n, h, e);
    m, g := n, h;
    match n.kind
    case KSymbol =>
    case KNot =>
      m, g := TransformNot(n, h, e);
      assert fresh(Nodes(g) - Nodes(h));
    case KEqual =>
      g := TransformComparison(n, h, e);
      assert fresh(Nodes(g) - Nodes(h));
    case KUnequal =>
      g := TransformComparison(n, h, e);
      assert fresh(Nodes(g) - Nodes(h));
    case _ =>
      g := TransformOperands(n, h, e);
  }

  /** expr_transform on both operands of an AND or OR */
  method TransformOperands(n: Node, ghost h: Shape, ghost e: Expr) returns (ghost g: Shape)
    requires Tree(n, h, e) && e.Bin?
    modifies Nodes(h)
    ensures Tree(n, g, Rules.Transform(e)) && fresh(Nodes(g) - Nodes(h))
    decreases Rules.Weight(e), 3
  {
    hide Tree, Nodes;
    Children(n, h, e);
    Rules.WeightPositive(e.left);
    Rules.WeightPositive(e.right);
    ghost var before, after := Nodes(h.l), Nodes(h.r);
    assert allocated(before) && allocated(after);
    var a;
    ghost var l;
    a, l := Transform(n.left, h.l, e.left);
    assert Tree(n.right, h.r, e.right) && allocated(Nodes(l)) && Nodes(l) !! Nodes(h.r) && n !in Nodes(l);
    n.left := a;
    var b;
    ghost var r;
    label Second:
    b, r := Transform(n.right, h.r, e.right);
    assert forall o :: o in Nodes(r) && o !in after ==> !old@Second(allocated(o));
    assert fresh(Nodes(r) - after);
    assert Nodes(l) !! Nodes(r) && n !in Nodes(r);
    assert Tree(a, l, Rules.Transform(e.left));
    n.right := b;
    assert Tree(a, l, Rules.Transform(e.left)) && Tree(b, r, Rules.Transform(e.right));
    MakeTwo(n, e.op, l, Rules.Transform(e.left), r, Rules.Transform(e.right));
    g := Two(n, l, r);
  }

  /** The comparison of a boolean with y, m or n */
  method TransformComparison(n: Node, ghost h: Shape, ghost e: Expr) returns (ghost g: Shape)
    requires Tree(n, h, e) && (e.Equal? || e.Unequal?)
    modifies n
    ensures Tree(n, g, Rules.TransformComparison(e)) && n in Nodes(g) && fresh(Nodes(g) - {n})
  {
    hide Tree, Nodes;
    Children(n, h, e);
    g := h;
    MakeEnd(n);
    if TypeOf(n.sym) != Boolean || !Special(n.other) { return End(n); }
    var same := n.kind == KEqual;
    if n.other == Mod {
      n.kind, n.sym := KSymbol, if same then No else Yes;
      MakeEnd(n);
      g := End(n);
    } else if same == (n.other == Yes) {
      n.kind := KSymbol;
      MakeEnd(n);
      g := End(n);
    } else {
      var x := new Node(KSymbol, null, null, n.sym, n.sym);
      n.kind, n.left := KNot, x;
      MakeEnd(x);
      MakeOne(n, End(x), Symbol(n.sym));
      g := One(n, End(x));
    }
  }

  /** expr_transform on a negation */
  method TransformNot(n: Node, ghost h: Shape, ghost e: Expr) returns (m: Node, ghost g: Shape)
    requires Tree(n, h, e) && e.Not?
    modifies Nodes(h)
    ensures Tree(m, g, Rules.Transform(e)) && fresh(Nodes(g) - Nodes(h))
    decreases Rules.Weight(e), 3
  {
    hide Tree, Nodes;
    Children(n, h, e);
    Rules.WeightPositive(e.operand);
    ghost var before := Nodes(h.arg);
    assert allocated(before);
    var x;
    ghost var k;
    x, k := Transform(n.left, h.arg, e.operand);
    assert fresh(Nodes(k) - before) && n !in Nodes(k);
    n.left := x;
    ghost var middle := {n} + Nodes(k);
    label Second:
    m, g := Negate(n, x, k, e);
    assert forall o :: o in Nodes(g) && o !in middle ==> !old@Second(allocated(o));
    assert fresh(Nodes(g) - middle);
  }

  /** The step at a negation over x, which has been transformed */
  method Negate(n: Node, x: Node, ghost k: Shape, ghost e: Expr) returns (m: Node, ghost g: Shape)
    requires e.Not? && Tree(x, k, Rules.Transform(e.operand))
    requires n.kind == KNot && n.left == x && n !in Nodes(k)
    modifies {n} + Nodes(k)
    ensures Tree(m, g, Rules.Transform(e)) && fresh(Nodes(g) - ({n} + Nodes(k)))
    decreases 3 * Rules.Weight(Rules.Transform(e.operand)), 2
  {
    hide Tree, Nodes;
    ghost var f := Rules.Transform(e.operand);
    Children(x, k, f);
    m, g := x, k;
    if x.kind == KNot {
      Rules.WeightPositive(f.operand);
      m, g := Transform(x.left, k.arg, f.operand);
    } else if x.kind == KEqual || x.kind == KUnequal {
      x.kind := if x.kind == KEqual then KUnequal else KEqual;
      MakeEnd(x);
      g := End(x);
    } else if IsBinKind(x.kind) {
      m, g := NegateBin(n, x, k, f);
    } else if !Special(x.sym) {
      MakeOne(n, k, f);
      m, g := n, One(n, k);
    } else {
      x.sym := if x.sym == Yes then No else if x.sym == No then Yes else Mod;
      MakeEnd(x);
      g := End(x);
    }
  }

  /** The same over an AND or OR: push the negation down and start again */
  method NegateBin(n: Node, x: Node, ghost k: Shape, ghost f: Expr) returns (m: Node, ghost g: Shape)
    requires n.left == x && Tree(x, k, f) && f.Bin? && n !in Nodes(k)
    modifies {n} + Nodes(k)
    ensures Tree(m, g, Rules.Transform(Bin(Dual(f.op), Not(f.left), Not(f.right))))
    ensures fresh(Nodes(g) - ({n} + Nodes(k)))
    decreases 3 * Rules.Weight(f), 1
  {
    hide Tree, Nodes;
    Children(x, k, f);
    Rules.PushWeight(f.op, f.left, f.right);
    ghost var before := {n} + Nodes(k);
    g := PushDown(n, x, k, f);
    assert fresh(Nodes(g) - before);
    ghost var middle := Nodes(g);
    label Second:
    m, g := Transform(n, g, Bin(Dual(f.op), Not(f.left), Not(f.right)));
    assert forall o :: o in Nodes(g) && o !in middle ==> !old@Second(allocated(o));
    assert fresh(Nodes(g) - middle);
  }

  /** De Morgan: the negation over the AND or OR at x becomes the dual node over two negations. */
  method PushDown(n: Node, x: Node, ghost k: Shape, ghost f: Expr) returns (ghost g: Shape)
    requires n.left == x && Tree(x, k, f) && f.Bin? && n !in Nodes(k)
    modifies n, x
    ensures Tree(n, g, Bin(Dual(f.op), Not(f.left), Not(f.right))) && fresh(Nodes(g) - ({n} + Nodes(k)))
  {
    hide Tree, Nodes;
    Children(x, k, f);
    assert allocated(Nodes(k.l)) && allocated(Nodes(k.r));
    var y := new Node(KNot, x.right, null, x.sym, x.sym);
    n.kind := if x.kind == KOr then KAnd else KOr;
    n.right := y;
    x.kind, x.right := KNot, null;
    assert Tree(x.left, k.l, f.left) && Tree(y.left, k.r, f.right);
    MakeOne(x, k.l, f.left);
    MakeOne(y, k.r, f.right);
    g := Two(n, One(x, k.l), One(y, k.r));
    MakeTwo(n, Dual(f.op), One(x, k.l), Not(f.left), One(y, k.r), Not(f.right));
  }

  // ---------- expr_copy ----------

  method Copy(n: Node, ghost h: Shape, ghost e: Expr) returns (m: Node, ghost g: Shape)
    requires Tree(n, h, e)
    ensures Tree(m, g, e) && fresh(Nodes(g))
    decreases e
  {
    hide Tree, Nodes;
    Children(n, h, e);
    if IsBinKind(n.kind) {
      m, g := CopyTwo(n, h, e);
    } else if n.kind == KNot {
      var a;
      ghost var k;
      a, k := Copy(n.left, h.arg, e.operand);
      assert allocated(Nodes(k));
      m := new Node(KNot, a, null, n.sym, n.sym);
      MakeOne(m, k, e.operand);
      g := One(m, k);
    } else {
      m := new Node(n.kind, null, null, n.sym, n.other);
      MakeEnd(m);
      g := End(m);
    }
  }

  method CopyTwo(n: Node, ghost h: Shape, ghost e: Expr) returns (m: Node, ghost g: Shape)
    requires Tree(n, h, e) && e.Bin?
    ensures Tree(m, g, e) && fresh(Nodes(g))
    decreases e, 0
  {
    hide Tree, Nodes;
    Children(n, h, e);
    assert allocated(Nodes(h.r));
    var a, b;
    ghost var l, r;
    a, l := Copy(n.left, h.l, e.left);
    assert Tree(n.right, h.r, e.right) && allocated(Nodes(l));
    ghost var left := Nodes(l);
    label Second:
    b, r := Copy(n.right, h.r, e.right);
    assert forall o :: o in Nodes(r) ==> !old@Second(allocated(o));
    assert Nodes(l) !! Nodes(r) && Tree(a, l, e.left) && allocated(Nodes(r));
    m := new Node(n.kind, a, b, n.sym, n.sym);
    assert Tree(a, l, e.left) && Tree(b, r, e.right);
    MakeTwo(m, e.op, l, e.left, r, e.right);
    g := Two(m, l, r);
  }

  // ---------- expr_eliminate_eq and expr_eq ----------

  /** trans_count */
  class Counter {
    var count: nat

    constructor ()
      ensures count == 0
    {
      count := 0;
    }
  }

  /** Two trees without common nodes */
  ghost predicate Trees(a: Node?, h: Shape, x: Expr, b: Node?, k: Shape, y: Expr)
    reads Nodes(h), Nodes(k)
  {
    Tree(a, h, x) && Tree(b, k, y) && Nodes(h) !! Nodes(k)
  }

  /** __expr_eliminate_eq. The pointers to both trees may change. */
  method EliminateEqIn(op: Op, a: Node, ghost h: Shape, ghost x: Expr, b: Node, ghost k: Shape, ghost y: Expr, c: Counter)
    returns (a': Node, ghost h': Shape, b': Node, ghost k': Shape)
    requires Trees(a, h, x, b, k, y)
    modifies Nodes(h), Nodes(k), c
    ensures Trees(a', h', Compare.EliminateEqIn(op, x, y).0, b', k', Compare.EliminateEqIn(op, x, y).1)
    ensures fresh(Nodes(h') - Nodes(h)) && fresh(Nodes(k') - Nodes(k)) && c.count >= old(c.count)
    decreases Size(x) + Size(y), if IsBin(x, op) || IsBin(y, op) then 0 else 5
  {
    hide Tree, Nodes, Trees;
    TreesFacts(a, h, x, b, k, y);
    Children(a, h, x);
    Children(b, k, y);
    if a.kind == KindOf(op) {
      b', h', k' := EliminateEqLeft(op, a, h, x, b, k, y, c);
      a' := a;
    } else if b.kind == KindOf(op) {
      a', h', k' := EliminateEqRight(op, a, h, x, b, k, y, c);
      b' := b;
    } else {
      a', h', b', k' := EliminateEqLeaves(op, a, h, x, b, k, y, c);
    }
  }

  lemma TreesFacts(a: Node?, h: Shape, x: Expr, b: Node?, k: Shape, y: Expr)
    ensures Trees(a, h, x, b, k, y) <==> Tree(a, h, x) && Tree(b, k, y) && Nodes(h) !! Nodes(k)
  {
    hide Tree, Nodes;
  }

  method EliminateEqLeft(op: Op, a: Node, ghost h: Shape, ghost x: Expr, b: Node, ghost k: Shape, ghost y: Expr, c: Counter)
    returns (b': Node, ghost h': Shape, ghost k': Shape)
    requires Trees(a, h, x, b, k, y) && IsBin(x, op)
    modifies Nodes(h), Nodes(k), c
    ensures Trees(a, h', Compare.EliminateEqIn(op, x, y).0, b', k', Compare.EliminateEqIn(op, x, y).1)
    ensures fresh(Nodes(h') - Nodes(h)) && fresh(Nodes(k') - Nodes(k)) && c.count >= old(c.count)
    decreases Size(x) + Size(y), 0, 0
  {
    hide Tree, Nodes, Trees, Compare.ExprEq;
    TreesFacts(a, h, x, b, k, y);
    Children(a, h, x);
    ghost var x1, y1 := Compare.EliminateEqIn(op, x.left, y).0, Compare.EliminateEqIn(op, x.left, y).1;
    ghost var x2, y2 := Compare.EliminateEqIn(op, x.right, y1).0, Compare.EliminateEqIn(op, x.right, y1).1;
    TreesFacts(a.left, h.l, x.left, b, k, y);
    ghost var before, other, whole := Nodes(h.l), Nodes(h.r), Nodes(k);
    assert allocated(before) && allocated(other) && allocated(whole);
    var l, t;
    ghost var hl, kt;
    l, hl, t, kt := EliminateEqIn(op, a.left, h.l, x.left, b, k, y, c);
    TreesFacts(l, hl, x1, t, kt, y1);
    ghost var left, middle := Nodes(hl), Nodes(kt);
    assert fresh(left - before) && fresh(middle - whole) && allocated(left) && allocated(middle);
    assert Tree(a.right, h.r, x.right) && left !! other && middle !! other;
    assert a !in left && a !in middle;
    a.left := l;
    TreesFacts(a.right, h.r, x.right, t, kt, y1);
    var r;
    ghost var hr;
    label Second:
    r, hr, t, kt := EliminateEqIn(op, a.right, h.r, x.right, t, kt, y1, c);
    TreesFacts(r, hr, x2, t, kt, y2);
    ghost var right, last := Nodes(hr), Nodes(kt);
    assert forall o :: o in right && o !in other ==> !old@Second(allocated(o));
    assert forall o :: o in last && o !in middle ==> !old@Second(allocated(o));
    assert fresh(right - other) && fresh(last - middle);
    assert left !! right && left !! last && a !in right && a !in last;
    assert Tree(l, hl, x1);
    a.right := r;
    assert Tree(l, hl, x1) && Tree(r, hr, x2);
    MakeTwo(a, op, hl, x1, hr, x2);
    h', b', k' := Two(a, hl, hr), t, kt;
    TreesFacts(a, h', Bin(op, x1, x2), b', k', y2);
  }

  method EliminateEqRight(op: Op, a: Node, ghost h: Shape, ghost x: Expr, b: Node, ghost k: Shape, ghost y: Expr, c: Counter)
    returns (a': Node, ghost h': Shape, ghost k': Shape)
    requires Trees(a, h, x, b, k, y) && !IsBin(x, op) && IsBin(y, op)
    modifies Nodes(h), Nodes(k), c
    ensures Trees(a', h', Compare.EliminateEqIn(op, x, y).0, b, k', Compare.EliminateEqIn(op, x, y).1)
    ensures fresh(Nodes(h') - Nodes(h)) && fresh(Nodes(k') - Nodes(k)) && c.count >= old(c.count)
    decreases Size(x) + Size(y), 0, 0
  {
    hide Tree, Nodes, Trees, Compare.ExprEq;
    TreesFacts(a, h, x, b, k, y);
    Children(b, k, y);
    ghost var x1, y1 := Compare.EliminateEqIn(op, x, y.left).0, Compare.EliminateEqIn(op, x, y.left).1;
    ghost var x2, y2 := Compare.EliminateEqIn(op, x1, y.right).0, Compare.EliminateEqIn(op, x1, y.right).1;
    TreesFacts(a, h, x, b.left, k.l, y.left);
    ghost var before, other, whole := Nodes(k.l), Nodes(k.r), Nodes(h);
    assert allocated(before) && allocated(other) && allocated(whole);
    var l, t;
    ghost var hl, kt;
    t, kt, l, hl := EliminateEqIn(op, a, h, x, b.left, k.l, y.left, c);
    TreesFacts(t, kt, x1, l, hl, y1);
    ghost var left, middle := Nodes(hl), Nodes(kt);
    assert fresh(left - before) && fresh(middle - whole) && allocated(left) && allocated(middle);
    assert Tree(b.right, k.r, y.right) && left !! other && middle !! other;
    assert b !in left && b !in middle;
    b.left := l;
    TreesFacts(t, kt, x1, b.right, k.r, y.right);
    var r;
    ghost var hr;
    label Second:
    t, kt, r, hr := EliminateEqIn(op, t, kt, x1, b.right, k.r, y.right, c);
    TreesFacts(t, kt, x2, r, hr, y2);
    ghost var right, last := Nodes(hr), Nodes(kt);
    assert forall o :: o in right && o !in other ==> !old@Second(allocated(o));
    assert forall o :: o in last && o !in middle ==> !old@Second(allocated(o));
    assert fresh(right - other) && fresh(last - middle);
    assert left !! right && left !! last && b !in right && b !in last;
    assert Tree(l, hl, y1);
    b.right := r;
    assert Tree(l, hl, y1) && Tree(r, hr, y2);
    MakeTwo(b, op, hl, y1, hr, y2);
    k', a', h' := Two(b, hl, hr), t, kt;
    TreesFacts(a', h', x2, b, k', Bin(op, y1, y2));
  }

  /** Two terms: equal ones are replaced by the neutral constant. */
  method EliminateEqLeaves(op: Op, a: Node, ghost h: Shape, ghost x: Expr, b: Node, ghost k: Shape, ghost y: Expr, c: Counter)
    returns (a': Node, ghost h': Shape, b': Node, ghost k': Shape)
    requires Trees(a, h, x, b, k, y) && !IsBin(x, op) && !IsBin(y, op)
    modifies Nodes(h), Nodes(k), c
    ensures Trees(a', h', Compare.EliminateEqIn(op, x, y).0, b', k', Compare.EliminateEqIn(op, x, y).1)
    ensures fresh(Nodes(h') - Nodes(h)) && fresh(Nodes(k') - Nodes(k)) && c.count >= old(c.count)
    decreases Size(x) + Size(y), 4
  {
    hide Tree, Nodes, Trees;
    TreesFacts(a, h, x, b, k, y);
    Children(a, h, x);
    Children(b, k, y);
    a', h', b', k' := a, h, b, k;
    if a.kind == KSymbol && b.kind == KSymbol && a.sym == b.sym && (a.sym == Yes || a.sym == No) { return; }
    assert allocated(Nodes(h)) && allocated(Nodes(k));
    var same := ExprEq(a, h, x, b, k, y, c);
    assert Tree(a, h, x) && Tree(b, k, y);
    TreesFacts(a, h, x, b, k, y);
    if !same { return; }
    c.count := c.count + 1;
    var neutral := Unit(op);
    a' := new Node(KSymbol, null, null, neutral, neutral);
    b' := new Node(KSymbol, null, null, neutral, neutral);
    MakeEnd(a');
    MakeEnd(b');
    h', k' := End(a'), End(b');
    TreesFacts(a', h', Symbol(neutral), b', k', Symbol(neutral));
  }

  /** expr_eq. The trees stay as they are, and so does trans_count. */
  method ExprEq(a: Node, ghost h: Shape, ghost x: Expr, b: Node, ghost k: Shape, ghost y: Expr, c: Counter) returns (res: bool)
    requires Tree(a, h, x) && Tree(b, k, y)
    modifies c
    ensures res == Compare.ExprEq(x, y) && c.count == old(c.count)
    decreases Size(x) + Size(y), 3
  {
    hide Tree, Nodes;
    Children(a, h, x);
    Children(b, k, y);
    if a.kind != b.kind {
      DifferentKinds(a.kind, b.kind, x, y);
      return false;
    }
    if a.kind == KEqual || a.kind == KUnequal { return a.sym == b.sym && a.other == b.other; }
    if a.kind == KSymbol { return a.sym == b.sym; }
    if a.kind == KNot {
      res := ExprEq(a.left, h.arg, x.operand, b.left, k.arg, y.operand, c);
      return;
    }
    var p, q;
    ghost var hp, kq;
    assert allocated(Nodes(k));
    p, hp := Copy(a, h, x);
    assert Tree(b, k, y) && allocated(Nodes(hp));
    label Second:
    q, kq := Copy(b, k, y);
    assert forall o :: o in Nodes(kq) ==> !old@Second(allocated(o));
    assert Tree(p, hp, x) && Nodes(hp) !! Nodes(kq);
    TreesFacts(p, hp, x, q, kq, y);
    var before := c.count;
    p, hp, q, kq := EliminateEq(p, hp, x, q, kq, y, c);
    TreesFacts(p, hp, Compare.EliminateEq(x, y).0, q, kq, Compare.EliminateEq(x, y).1);
    Children(p, hp, Compare.EliminateEq(x, y).0);
    Children(q, kq, Compare.EliminateEq(x, y).1);
    c.count := before;
    res := p.kind == KSymbol && q.kind == KSymbol && p.sym == q.sym;
  }

  /** The kind field tells the forms of expressions apart. */
  lemma DifferentKinds(p: Kind, q: Kind, x: Expr, y: Expr)
    requires HasKind(p, x) && HasKind(q, y)
    ensures p == q <==> SameKind(x, y)
  {
  }

  predicate HasKind(p: Kind, x: Expr) {
    match x
    case Symbol(_) => p == KSymbol
    case Not(_) => p == KNot
    case Bin(op, _, _) => p == KindOf(op)
    case Equal(_, _) => p == KEqual
    case Unequal(_, _) => p == KUnequal
  }

  /** expr_eliminate_eq on non-null trees */
  method EliminateEq(a: Node, ghost h: Shape, ghost x: Expr, b: Node, ghost k: Shape, ghost y: Expr, c: Counter)
    returns (a': Node, ghost h': Shape, b': Node, ghost k': Shape)
    requires Trees(a, h, x, b, k, y)
    modifies Nodes(h), Nodes(k), c
    ensures Trees(a', h', Compare.EliminateEq(x, y).0, b', k', Compare.EliminateEq(x, y).1)
    ensures fresh(Nodes(h') - Nodes(h)) && fresh(Nodes(k') - Nodes(k)) && c.count >= old(c.count)
    decreases Size(x) + Size(y), 2
  {
    hide Tree, Nodes, Trees;
    TreesFacts(a, h, x, b, k, y);
    Children(a, h, x);
    a', h', b', k' := a, h, b, k;
    ghost var x1, y1 := x, y;
    if IsBinKind(a.kind) {
      a', h', b', k' := EliminateEqIn(OpOf(a.kind), a, h, x, b, k, y, c);
      x1, y1 := Compare.EliminateEqIn(x.op, x, y).0, Compare.EliminateEqIn(x.op, x, y).1;
    }
    ghost var first, second := Nodes(h'), Nodes(k');
    assert fresh(first - Nodes(h)) && fresh(second - Nodes(k));
    label Second:
    a', h', b', k' := EliminateEqAgain(a', h', x1, b', k', y1, c);
    assert forall o :: o in Nodes(h') && o !in first ==> !old@Second(allocated(o));
    assert forall o :: o in Nodes(k') && o !in second ==> !old@Second(allocated(o));
  }

  /** Its second half: the operator of the second tree, and dropping constants */
  method EliminateEqAgain(a: Node, ghost h: Shape, ghost x: Expr, b: Node, ghost k: Shape, ghost y: Expr, c: Counter)
    returns (a': Node, ghost h': Shape, b': Node, ghost k': Shape)
    requires Trees(a, h, x, b, k, y)
    modifies Nodes(h), Nodes(k), c
    ensures var z := if y.Bin? && !SameKind(x, y) then Compare.EliminateEqIn(y.op, x, y) else (x, y);
      Trees(a', h', Compare.EliminateYn(z.0), b', k', Compare.EliminateYn(z.1))
    ensures fresh(Nodes(h') - Nodes(h)) && fresh(Nodes(k') - Nodes(k)) && c.count >= old(c.count)
    decreases Size(x) + Size(y), 1
  {
    hide Tree, Nodes, Trees;
    TreesFacts(a, h, x, b, k, y);
    Children(a, h, x);
    Children(b, k, y);
    DifferentKinds(a.kind, b.kind, x, y);
    a', h', b', k' := a, h, b, k;
    ghost var x1, y1 := x, y;
    if a.kind != b.kind && IsBinKind(b.kind) {
      a', h', b', k' := EliminateEqIn(OpOf(b.kind), a, h, x, b, k, y, c);
      x1, y1 := Compare.EliminateEqIn(y.op, x, y).0, Compare.EliminateEqIn(y.op, x, y).1;
    }
    TreesFacts(a', h', x1, b', k', y1);
    assert allocated(Nodes(h')) && allocated(Nodes(k'));
    h' := EliminateYn(a', h', x1);
    assert Tree(b', k', y1) && allocated(Nodes(h'));
    k' := EliminateYn(b', k', y1);
    assert Tree(a', h', Compare.EliminateYn(x1));
    TreesFacts(a', h', Compare.EliminateYn(x1), b', k', Compare.EliminateYn(y1));
  }
}
