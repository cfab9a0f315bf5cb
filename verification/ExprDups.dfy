/** expr_eliminate_dups of support/kconfig/expr.c: two cursors walk the operands of one and the
    same tree, joining pairs of operands in place until a whole pass changes nothing. */
module ExprDups {
  import opened Tristates
  import opened Wrappers
  import opened Expressions
  import opened ExprCompare
  import opened ExprTransform
  import opened ExprJoin
  import opened ExprSpine
  import opened ExprThorough

  // ---------- what one pass may do to the tree below an op node ----------

  /** The effect of some steps on a tree whose operands are combined by op: definite values stay,
      the tree does not grow, and a tree that was changed has a constant to drop. */
  ghost predicate Progress(op: Op, e: Expr, f: Expr, changed: bool) {
    && SameSpine(op, e, f)
    && Size(f) <= Size(e)
    && BinCount(f) <= BinCount(e)
    && (NotOnSymbols(e) ==> NotOnSymbols(f))
    && (Normal(e) ==> Normal(f))
    && (forall env :: Sharpens(Eval(e, env), Eval(f, env)))
    && (if changed then Reducible(f) else f == e)
  }

  ghost predicate SameValue(e: Expr, f: Expr) {
    forall env :: Eval(e, env) == Eval(f, env)
  }

  lemma ProgressNothing(op: Op, e: Expr)
    ensures Progress(op, e, e, false) && SameValue(e, e)
  {
    SameSpineReflexive(op, e);
  }

  lemma ProgressIsChange(op: Op, e: Expr, f: Expr, changed: bool)
    requires Progress(op, e, f, changed)
    ensures SameSpine(op, e, f) && Size(f) <= Size(e) && (!changed ==> f == e)
  {
  }

  lemma ProgressTransitive(op: Op, e: Expr, f: Expr, g: Expr, c: bool, d: bool)
    requires Progress(op, e, f, c) && Progress(op, f, g, d)
    ensures Progress(op, e, g, c || d)
    ensures SameValue(e, f) && SameValue(f, g) ==> SameValue(e, g)
  {
    SameSpineTransitive(op, e, f, g);
    forall env
      ensures Sharpens(Eval(e, env), Eval(g, env))
    {
      assert Sharpens(Eval(e, env), Eval(f, env)) && Sharpens(Eval(f, env), Eval(g, env));
    }
  }

  /** Progress inside one operand is progress of the whole. */
  lemma ProgressInside(op: Op, e: Expr, p: Path, x: Expr, changed: bool)
    requires OnLeaf(op, e, p) && IsBin(At(e, p), Dual(op))
    requires Progress(Dual(op), At(e, p), x, changed)
    ensures Progress(op, e, Put(e, p, x), changed)
    ensures SameValue(At(e, p), x) ==> SameValue(e, Put(e, p, x))
  {
    PutLeafShape(op, e, p, x);
    PutThenAt(e, p, x);
    forall env
      ensures Sharpens(Eval(e, env), Eval(Put(e, p, x), env))
      ensures SameValue(At(e, p), x) ==> Eval(e, env) == Eval(Put(e, p, x), env)
    {
      PutSharpens(e, p, x, env);
      assert Sharpens(Eval(At(e, p), env), Eval(x, env));
    }
    if changed { PutReducible(e, p, x); }
  }

  /** The tree after a successful join of the operands at p and q. */
  function Joined(op: Op, e: Expr, p: Path, q: Path, x: Expr): Expr
    requires OnLeaf(op, e, p) && OnLeaf(op, e, q) && p != q
  {
    OtherLeafStays(op, e, p, q, Symbol(Unit(op)));
    Put(Put(e, p, Symbol(Unit(op))), q, x)
  }

  lemma JoinedValue(op: Op, e: Expr, p: Path, q: Path, x: Expr, env: Env)
    requires OnLeaf(op, e, p) && OnLeaf(op, e, q) && p != q
    requires Eval(x, env) == Apply(op, Eval(At(e, p), env), Eval(At(e, q), env))
    ensures Eval(Joined(op, e, p, q, x), env) == Eval(e, env)
  {
    var unit := Symbol(Unit(op));
    var f := Put(e, p, unit);
    OtherLeafStays(op, e, p, q, unit);
    PutThenAt(e, p, unit);
    PutThenAt(f, q, unit);
    PutLeafValue(op, e, p, At(e, p), env);
    PutLeafValue(op, f, q, At(e, q), env);
    PutLeafValue(op, f, q, x, env);
    var rest := Eval(Put(f, q, unit), env);
    ApplyAssociates(op, rest, Eval(At(e, p), env), Eval(At(e, q), env));
    ApplyAssociates(op, rest, Eval(At(e, q), env), Eval(At(e, p), env));
  }

  lemma JoinedShape(op: Op, e: Expr, p: Path, q: Path, x: Expr)
    requires OnLeaf(op, e, p) && OnLeaf(op, e, q) && p != q && IsBin(e, op) && !IsBin(x, op)
    requires Size(x) <= Size(At(e, p)) && BinCount(x) <= BinCount(At(e, p))
    requires NotOnSymbols(At(e, p)) ==> NotOnSymbols(x)
    requires Normal(At(e, p)) && Normal(At(e, q)) ==> Normal(x)
    ensures var g := Joined(op, e, p, q, x);
            && SameSpine(op, e, g) && Size(g) <= Size(e) && BinCount(g) <= BinCount(e) && Reducible(g)
            && (NotOnSymbols(e) ==> NotOnSymbols(g)) && (Normal(e) ==> Normal(g))
  {
    var unit := Symbol(Unit(op));
    var f := Put(e, p, unit);
    var g := Joined(op, e, p, q, x);
    OtherLeafStays(op, e, p, q, unit);
    PutLeafShape(op, e, p, unit);
    PutLeafShape(op, e, q, unit);
    PutLeafShape(op, f, q, x);
    SameSpineTransitive(op, e, f, g);
    SameSpineKeepsCursor(op, e, f, p);
    PutThenAt(e, p, unit);
    OtherLeafStays(op, f, q, p, x);
    PutThenAt(g, p, unit);
    PutConstReducible(g, p, unit);
  }

  lemma ProgressJoin(op: Op, e: Expr, p: Path, q: Path)
    requires OnLeaf(op, e, p) && OnLeaf(op, e, q) && p != q && IsBin(e, op)
    requires Join(op, At(e, p), At(e, q)).Some?
    ensures var x := Join(op, At(e, p), At(e, q)).value;
            && Progress(op, e, Joined(op, e, p, q, x), true)
            && SameValue(e, Joined(op, e, p, q, x))
  {
    var x := Join(op, At(e, p), At(e, q)).value;
    JoinKeepsShape(op, At(e, p), At(e, q));
    JoinedShape(op, e, p, q, x);
    forall env
      ensures Eval(e, env) == Eval(Joined(op, e, p, q, x), env)
    {
      JoinKeepsValue(op, At(e, p), At(e, q), env);
      JoinedValue(op, e, p, q, x, env);
    }
  }

  // ---------- the second kind of step ----------

  /** The operand e1 is the negation of terms that all occur in e2. */
  predicate Opposes(op: Op, e1: Expr, e2: Expr) {
    IsBin(e1, Dual(op)) && IsUnit(ExtractEqTop(op, Transform(Not(e1)), e2).first, op)
  }

  /** Together they have the deciding value, or one of them is m. */
  lemma OpposesDecides(op: Op, e1: Expr, e2: Expr, env: Env)
    requires Opposes(op, e1, e2)
    ensures Apply(op, Eval(e1, env), Eval(e2, env)) in {MOD, TriOf(Absorber(op), env)}
  {
    TransformKeepsValue(Not(e1), env);
    ExtractEqTopRecombines(op, Transform(Not(e1)), e2, env);
  }

  lemma ProgressOppose(op: Op, e: Expr, p: Path, q: Path)
    requires OnLeaf(op, e, p) && OnSpine(op, e, q) && IsBin(e, op)
    requires Opposes(op, At(e, p), At(e, q))
    ensures Progress(op, e, Put(e, p, Symbol(Absorber(op))), true)
  {
    var x := Symbol(Absorber(op));
    PutLeafShape(op, e, p, x);
    PutConstReducible(e, p, x);
    forall env
      ensures Sharpens(Eval(e, env), Eval(Put(e, p, x), env))
    {
      OpposesDecides(op, At(e, p), At(e, q), env);
      SpineBounds(op, e, p, env);
      SpineBounds(op, e, q, env);
      PutLeafValue(op, e, p, x, env);
    }
  }

  /** Replacing an opposed operand changes the value exactly where the whole was m. */
  lemma OpposeChangesOnlyMod(op: Op, e: Expr, p: Path, q: Path, env: Env)
    requires OnLeaf(op, e, p) && OnSpine(op, e, q) && IsBin(e, op)
    requires Opposes(op, At(e, p), At(e, q))
    ensures Eval(Put(e, p, Symbol(Absorber(op))), env) != Eval(e, env) <==> Eval(e, env) == MOD
  {
    ProgressOppose(op, e, p, q);
    PutLeafValue(op, e, p, Symbol(Absorber(op)), env);
    assert Sharpens(Eval(e, env), Eval(Put(e, p, Symbol(Absorber(op))), env));
  }

  // ---------- when nothing is left to do ----------

  ghost predicate TwoLeaves(op: Op, e: Expr, a: Path, b: Path) {
    OnLeaf(op, e, a) && OnLeaf(op, e, b) && a != b
  }

  ghost predicate LeafAndNode(op: Op, e: Expr, a: Path, b: Path) {
    OnLeaf(op, e, a) && OnSpine(op, e, b) && a != b
  }

  /** No two operands of one combination can be joined, at any level. */
  ghost predicate NoJoin(e: Expr)
    decreases Size(e)
  {
    e.Bin? ==> forall a, b :: TwoLeaves(e.op, e, a, b) ==>
      Join(e.op, At(e, a), At(e, b)).None? && NoJoin(At(e, a))
  }

  /** No operand of a combination is opposed by another part of it, at any level. */
  ghost predicate NoOppose(e: Expr)
    decreases Size(e)
  {
    e.Bin? ==> forall a, b :: LeafAndNode(e.op, e, a, b) ==>
      !Opposes(e.op, At(e, a), At(e, b)) && NoOppose(At(e, a))
  }

  /** The pairs with one cursor at or below p and the other at or below q. */
  ghost predicate NoJoinBelow(op: Op, e: Expr, p: Path, q: Path) {
    IsBin(e, op) ==> forall a, b :: TwoLeaves(op, e, a, b) && p <= a && q <= b ==>
      Join(op, At(e, a), At(e, b)).None? && NoJoin(At(e, a))
  }

  ghost predicate NoOpposeBelow(op: Op, e: Expr, p: Path, q: Path) {
    IsBin(e, op) ==> forall a, b :: LeafAndNode(op, e, a, b) && p <= a && q <= b ==>
      !Opposes(op, At(e, a), At(e, b)) && NoOppose(At(e, a))
  }

  lemma Extends(p: Path, a: Path)
    requires p <= a
    ensures a == p || p + [GoLeft] <= a || p + [GoRight] <= a
  {
    if a != p {
      assert a[|p|] == GoLeft || a[|p|] == GoRight;
    }
  }

  /** The pairs below a node are the pairs below its two operands. */
  lemma NoJoinFirst(op: Op, e: Expr, p: Path, q: Path)
    requires OnSpine(op, e, p) && IsBin(At(e, p), op)
    ensures NoJoinBelow(op, e, p, q) <==> NoJoinBelow(op, e, p + [GoLeft], q) && NoJoinBelow(op, e, p + [GoRight], q)
  {
    hide Join, NoJoin;
    forall a | OnLeaf(op, e, a) && p <= a
      ensures p + [GoLeft] <= a || p + [GoRight] <= a
    {
      Extends(p, a);
    }
  }

  lemma NoJoinSecond(op: Op, e: Expr, p: Path, q: Path)
    requires OnSpine(op, e, q) && IsBin(At(e, q), op)
    ensures NoJoinBelow(op, e, p, q) <==> NoJoinBelow(op, e, p, q + [GoLeft]) && NoJoinBelow(op, e, p, q + [GoRight])
  {
    hide Join, NoJoin;
    forall b | OnLeaf(op, e, b) && q <= b
      ensures q + [GoLeft] <= b || q + [GoRight] <= b
    {
      Extends(q, b);
    }
  }

  lemma NoOpposeFirst(op: Op, e: Expr, p: Path, q: Path)
    requires OnSpine(op, e, p) && IsBin(At(e, p), op)
    ensures NoOpposeBelow(op, e, p, q) <==> NoOpposeBelow(op, e, p + [GoLeft], q) && NoOpposeBelow(op, e, p + [GoRight], q)
  {
    hide Opposes, NoOppose;
    forall a | OnLeaf(op, e, a) && p <= a
      ensures p + [GoLeft] <= a || p + [GoRight] <= a
    {
      Extends(p, a);
    }
  }

  /** A leaf has no proper extension. */
  lemma {:induction false} LeafIsLast(op: Op, e: Expr, p: Path, a: Path)
    requires OnLeaf(op, e, p) && OnSpine(op, e, a) && p <= a
    ensures a == p
  {
    if p != [] {
      assert p[1..] <= a[1..];
      LeafIsLast(op, Child(e, p[0]), p[1..], a[1..]);
      assert p == [p[0]] + p[1..] && a == [a[0]] + a[1..];
    }
  }

  lemma NoJoinAtLeaves(op: Op, e: Expr, p: Path, q: Path)
    requires OnLeaf(op, e, p) && OnLeaf(op, e, q) && IsBin(e, op)
    ensures NoJoinBelow(op, e, p, q) <==> (p != q ==> Join(op, At(e, p), At(e, q)).None? && NoJoin(At(e, p)))
  {
    hide Join, NoJoin;
    assert p != q ==> TwoLeaves(op, e, p, q);
    forall a, b | TwoLeaves(op, e, a, b) && p <= a && q <= b
      ensures a == p && b == q
    {
      LeafIsLast(op, e, p, a);
      LeafIsLast(op, e, q, b);
    }
  }

  /** All pairs of the operand at p with nodes at or below q. */
  lemma NoOpposeAtLeaf(op: Op, e: Expr, p: Path, q: Path)
    requires OnLeaf(op, e, p) && OnSpine(op, e, q) && IsBin(e, op)
    ensures NoOpposeBelow(op, e, p, q) <==>
      && (p != q ==> !Opposes(op, At(e, p), At(e, q)) && NoOppose(At(e, p)))
      && (IsBin(At(e, q), op) ==> NoOpposeBelow(op, e, p, q + [GoLeft]) && NoOpposeBelow(op, e, p, q + [GoRight]))
  {
    hide Opposes, NoOppose;
    assert p != q ==> LeafAndNode(op, e, p, q);
    forall a, b | LeafAndNode(op, e, a, b) && p <= a && q <= b
      ensures a == p
      ensures b == q || (IsBin(At(e, q), op) && (q + [GoLeft] <= b || q + [GoRight] <= b))
    {
      LeafIsLast(op, e, p, a);
      if IsBin(At(e, q), op) {
        Extends(q, b);
      } else {
        LeafIsLast(op, e, q, b);
      }
    }
  }

  lemma NoJoinIs(e: Expr)
    ensures NoJoin(e) <==> (e.Bin? ==> NoJoinBelow(e.op, e, [], []))
  {
  }

  lemma NoOpposeIs(e: Expr)
    ensures NoOppose(e) <==> (e.Bin? ==> NoOpposeBelow(e.op, e, [], []))
  {
  }

  /** Two operands that are one term twice, or that fold into one term. */
  predicate Repeats(op: Op, x: Expr, y: Expr) {
    x == y || (IsTerm(x) && IsTerm(y) && Folds(op, x, y))
  }

  /** At no level does a combination repeat itself. */
  ghost predicate NoRepeat(e: Expr)
    decreases Size(e)
  {
    e.Bin? ==> forall a, b :: TwoLeaves(e.op, e, a, b) ==> !Repeats(e.op, At(e, a), At(e, b)) && NoRepeat(At(e, a))
  }

  lemma RepeatsJoin(op: Op, x: Expr, y: Expr)
    requires Repeats(op, x, y)
    ensures Join(op, x, y).Some?
  {
    if x == y { ExprEqReflexive(x); } else { TermsJoinExactly(op, x, y); }
  }

  lemma {:induction false} NoJoinIsNoRepeat(e: Expr)
    requires NoJoin(e)
    ensures NoRepeat(e)
    decreases Size(e)
  {
    if e.Bin? {
      forall a, b | TwoLeaves(e.op, e, a, b)
        ensures !Repeats(e.op, At(e, a), At(e, b)) && NoRepeat(At(e, a))
      {
        assert a != [];
        if Repeats(e.op, At(e, a), At(e, b)) { RepeatsJoin(e.op, At(e, a), At(e, b)); }
        NoJoinIsNoRepeat(At(e, a));
      }
    }
  }

  /** At no level is an operand made of symbols whose negations are all operands as well. */
  ghost predicate NoContradiction(e: Expr)
    decreases Size(e)
  {
    e.Bin? ==> forall a :: OnLeaf(e.op, e, a) && a != [] ==>
      !(IsBin(At(e, a), Dual(e.op)) && Contradicted(e.op, At(e, a), e)) && NoContradiction(At(e, a))
  }

  lemma {:induction false} NoOpposeIsNoContradiction(e: Expr)
    requires NoOppose(e)
    ensures NoContradiction(e)
    decreases Size(e)
  {
    if e.Bin? {
      forall a | OnLeaf(e.op, e, a) && a != []
        ensures !(IsBin(At(e, a), Dual(e.op)) && Contradicted(e.op, At(e, a), e)) && NoContradiction(At(e, a))
      {
        assert LeafAndNode(e.op, e, a, []) && At(e, []) == e;
        if Contradicted(e.op, At(e, a), e) { NothingIsLeft(e.op, At(e, a), e); }
        NoOpposeIsNoContradiction(At(e, a));
      }
    }
  }

  // ---------- when an operand is opposed ----------

  /** Within each operand nothing is opposed. */
  ghost predicate Quiet(op: Op, e: Expr) {
    if IsBin(e, op) then Quiet(op, e.left) && Quiet(op, e.right) else NoOppose(e)
  }

  /** One of the operands is the constant that decides the whole. */
  predicate HasAbsorber(op: Op, e: Expr) {
    if IsBin(e, op) then HasAbsorber(op, e.left) || HasAbsorber(op, e.right) else IsAbsorber(e, op)
  }

  /** Nothing can be joined and nothing is opposed within an operand, but an operand is. */
  ghost predicate OnlyOpposed(e: Expr) {
    e.Bin? && NoJoin(e) && Quiet(e.op, e) && !NoOppose(e)
  }

  /** A change of operands within which nothing is opposed decides the whole. */
  ghost predicate Decides(op: Op, e: Expr, f: Expr, changed: bool) {
    Quiet(op, e) ==> Quiet(op, f) && (changed || HasAbsorber(op, e) ==> HasAbsorber(op, f))
  }

  lemma {:induction false} QuietAt(op: Op, e: Expr, p: Path)
    requires OnLeaf(op, e, p) && Quiet(op, e)
    ensures NoOppose(At(e, p))
  {
    if p != [] { QuietAt(op, Child(e, p[0]), p[1..]); }
  }

  lemma {:induction false} AbsorberDecides(op: Op, e: Expr, p: Path)
    requires OnLeaf(op, e, p) && Quiet(op, e)
    ensures var f := Put(e, p, Symbol(Absorber(op))); Quiet(op, f) && HasAbsorber(op, f)
  {
    if p != [] { AbsorberDecides(op, Child(e, p[0]), p[1..]); }
  }

  /** Dropping constants then leaves the deciding one. */
  lemma {:induction false} AbsorberRemains(op: Op, e: Expr)
    requires HasAbsorber(op, e)
    ensures EliminateYn(e) == Symbol(Absorber(op))
  {
    if IsBin(e, op) {
      if HasAbsorber(op, e.left) { AbsorberRemains(op, e.left); }
      if HasAbsorber(op, e.right) { AbsorberRemains(op, e.right); }
    }
  }

  /** Work below base + p is work on the operand at p of the tree below base. */
  lemma InnerStays(op: Op, before: Expr, after: Expr, base: Path, p: Path)
    requires Reaches(before, base) && OnLeaf(op, At(before, base), p)
    requires Reaches(before, base + p) && Reaches(after, base + p)
    requires after == Put(before, base + p, At(after, base + p))
    ensures Reaches(after, base) && Reaches(At(after, base), p)
    ensures At(At(after, base), p) == At(after, base + p)
    ensures At(before, base + p) == At(At(before, base), p)
    ensures At(after, base) == Put(At(before, base), p, At(after, base + p))
    ensures after == Put(before, base, At(after, base))
  {
    var x := At(after, base + p);
    Continue(before, base, p, x);
    PutThenAt(before, base, Put(At(before, base), p, x));
    PutThenAt(At(before, base), p, x);
  }

  // ---------- the procedures ----------

  class Rewriter {
    var root: Expr
    var transCount: nat

    constructor (e: Expr)
      ensures root == e && transCount == 0
    {
      root, transCount := e, 0;
    }

    /** The tree below base was turned from `before` into what is there now, nothing else moved. */
    ghost predicate OnlyBelow(before: Expr, base: Path)
      reads this
    {
      Reaches(before, base) && Reaches(root, base) && root == Put(before, base, At(root, base))
    }

    lemma StoreBelow(before: Expr, base: Path, p: Path, x: Expr)
      requires OnlyBelow(before, base) && Reaches(At(root, base), p)
      ensures Reaches(root, base + p)
      ensures var after := Put(root, base + p, x);
              && Reaches(after, base)
              && At(after, base) == Put(At(root, base), p, x)
              && after == Put(before, base, At(after, base))
    {
      Continue(root, base, p, x);
      var y := Put(At(root, base), p, x);
      PutThenAt(root, base, y);
      PutTwice(before, base, At(root, base), y);
    }

    /** `*cursor = x` for the cursor base + p. */
    method Store(base: Path, p: Path, x: Expr)
      requires Reaches(root, base) && Reaches(At(root, base), p)
      modifies this`root
      ensures OnlyBelow(old(root), base)
      ensures At(root, base) == Put(old(At(root, base)), p, x)
    {
      PutThenAt(root, base, x);
      StoreBelow(root, base, p, x);
      root := Put(root, base + p, x);
    }

    /** expr_eliminate_dups1 with the cursors base + p and base + q. */
    method EliminateDups1(op: Op, base: Path, p: Path, q: Path)
      requires Reaches(root, base) && IsBin(At(root, base), op)
      requires OnSpine(op, At(root, base), p) && OnSpine(op, At(root, base), q)
      modifies this
      ensures OnlyBelow(old(root), base)
      ensures transCount >= old(transCount)
      ensures Progress(op, old(At(root, base)), At(root, base), transCount != old(transCount))
      ensures SameValue(old(At(root, base)), At(root, base))
      ensures transCount == old(transCount) <==> NoJoinBelow(op, old(At(root, base)), p, q)
      decreases Size(At(root, base)), SpineSize(op, At(At(root, base), p)), SpineSize(op, At(At(root, base), q))
    {
      hide Progress, NoJoinBelow, NoOpposeBelow, NoJoin, NoOppose, SameValue, Join, Opposes;
      var e := At(root, base);
      PutThenAt(root, base, e);
      if IsBin(At(e, p), op) {
        SpineStep(op, e, p, GoLeft); SpineStep(op, e, p, GoRight);
        EliminateDups1(op, base, p + [GoLeft], q);
        ghost var f, count := At(root, base), transCount;
        ProgressIsChange(op, e, f, count != old(transCount));
        SameSpineKeepsCursor(op, e, f, p + [GoRight]);
        SameSpineKeepsCursor(op, e, f, q);
        EliminateDups1(op, base, p + [GoRight], q);
        PutTwice(old(root), base, f, At(root, base));
        ProgressTransitive(op, e, f, At(root, base), count != old(transCount), transCount != count);
        NoJoinFirst(op, e, p, q);
      } else if IsBin(At(e, q), op) {
        SpineStep(op, e, q, GoLeft); SpineStep(op, e, q, GoRight);
        EliminateDups1(op, base, p, q + [GoLeft]);
        ghost var f, count := At(root, base), transCount;
        ProgressIsChange(op, e, f, count != old(transCount));
        SameSpineKeepsCursor(op, e, f, q + [GoRight]);
        SameSpineKeepsCursor(op, e, f, p);
        EliminateDups1(op, base, p, q + [GoRight]);
        PutTwice(old(root), base, f, At(root, base));
        ProgressTransitive(op, e, f, At(root, base), count != old(transCount), transCount != count);
        NoJoinSecond(op, e, p, q);
      } else if p == q {
        ProgressNothing(op, e);
        NoJoinAtLeaves(op, e, p, q);
      } else {
        JoinOperands(op, base, p, q);
      }
    }

    /** The two cursors stand on different operands: work inside the first, then try to join. */
    method JoinOperands(op: Op, base: Path, p: Path, q: Path)
      requires Reaches(root, base) && IsBin(At(root, base), op)
      requires TwoLeaves(op, At(root, base), p, q)
      modifies this
      ensures OnlyBelow(old(root), base)
      ensures transCount >= old(transCount)
      ensures Progress(op, old(At(root, base)), At(root, base), transCount != old(transCount))
      ensures SameValue(old(At(root, base)), At(root, base))
      ensures transCount == old(transCount) <==> NoJoinBelow(op, old(At(root, base)), p, q)
      decreases Size(At(root, base)), 0, 0, 0
    {
      hide Progress, NoJoinBelow, NoOpposeBelow, NoJoin, NoOppose, SameValue, Join, Opposes;
      var e := At(root, base);
      PutThenAt(root, base, e);
      ProgressNothing(op, e);
      NoJoinAtLeaves(op, e, p, q);
      NoJoinIs(At(e, p));
      Continue(root, base, p, At(e, p));
      if At(e, p).Bin? {
        EliminateDups1(At(e, p).op, base + p, [], []);
        InnerStays(op, old(root), root, base, p);
        ProgressInside(op, e, p, At(At(root, base), p), transCount != old(transCount));
      }
      ghost var f, count := At(root, base), transCount;
      ProgressIsChange(op, e, f, count != old(transCount));
      SameSpineKeepsCursor(op, e, f, p);
      SameSpineKeepsCursor(op, e, f, q);
      PutTwice(old(root), base, f, f);
      var joined := Join(op, At(At(root, base), p), At(At(root, base), q));
      if joined.Some? {
        StoreJoin(op, base, p, q, joined.value);
        PutTwice(old(root), base, f, At(root, base));
        ProgressTransitive(op, e, f, At(root, base), count != old(transCount), true);
      }
    }

    /** e1 becomes the neutral constant and e2 the joined term. */
    method StoreJoin(op: Op, base: Path, p: Path, q: Path, x: Expr)
      requires Reaches(root, base) && IsBin(At(root, base), op)
      requires TwoLeaves(op, At(root, base), p, q)
      requires Join(op, At(At(root, base), p), At(At(root, base), q)) == Some(x)
      modifies this
      ensures OnlyBelow(old(root), base)
      ensures transCount == old(transCount) + 1
      ensures At(root, base) == Joined(op, old(At(root, base)), p, q, x)
      ensures Progress(op, old(At(root, base)), At(root, base), true)
      ensures SameValue(old(At(root, base)), At(root, base))
    {
      ghost var e := At(root, base);
      ProgressJoin(op, e, p, q);
      OtherLeafStays(op, e, p, q, Symbol(Unit(op)));
      Store(base, p, Symbol(Unit(op)));
      ghost var f := At(root, base);
      Store(base, q, x);
      PutTwice(old(root), base, f, At(root, base));
      transCount := transCount + 1;
    }

    /** expr_eliminate_dups2 with the cursors base + p and base + q. Going down the second cursor
        is followed by the test against the node it started from. */
    method EliminateDups2(op: Op, base: Path, p: Path, q: Path)
      requires Reaches(root, base) && IsBin(At(root, base), op)
      requires OnSpine(op, At(root, base), p) && OnSpine(op, At(root, base), q)
      modifies this
      ensures OnlyBelow(old(root), base)
      ensures transCount >= old(transCount)
      ensures Progress(op, old(At(root, base)), At(root, base), transCount != old(transCount))
      ensures Decides(op, old(At(root, base)), At(root, base), transCount != old(transCount))
      ensures transCount == old(transCount) <==> NoOpposeBelow(op, old(At(root, base)), p, q)
      decreases Size(At(root, base)), SpineSize(op, At(At(root, base), p)), SpineSize(op, At(At(root, base), q)), 1
    {
      hide Quiet, HasAbsorber, Progress, NoJoinBelow, NoOpposeBelow, NoJoin, NoOppose, SameValue, Join, Opposes;
      var e := At(root, base);
      PutThenAt(root, base, e);
      if IsBin(At(e, p), op) {
        SpineStep(op, e, p, GoLeft); SpineStep(op, e, p, GoRight);
        EliminateDups2(op, base, p + [GoLeft], q);
        ghost var f, count := At(root, base), transCount;
        ProgressIsChange(op, e, f, count != old(transCount));
        SameSpineKeepsCursor(op, e, f, p + [GoRight]);
        SameSpineKeepsCursor(op, e, f, q);
        EliminateDups2(op, base, p + [GoRight], q);
        PutTwice(old(root), base, f, At(root, base));
        ProgressTransitive(op, e, f, At(root, base), count != old(transCount), transCount != count);
        NoOpposeFirst(op, e, p, q);
        return;
      }
      ProgressNothing(op, e);
      if IsBin(At(e, q), op) {
        EliminateDups2Below(op, base, p, q);
      }
      ghost var f, count := At(root, base), transCount;
      ProgressIsChange(op, e, f, count != old(transCount));
      SameSpineKeepsCursor(op, e, f, p);
      SameSpineKeepsCursor(op, e, f, q);
      if p != q {
        OpposeOperands(op, base, p, q);
        PutTwice(old(root), base, f, At(root, base));
        ProgressTransitive(op, e, f, At(root, base), count != old(transCount), transCount != count);
      }
      NoOpposeAtLeaf(op, e, p, q);
    }

    /** The second cursor visits both operands of the node it stands on. */
    method EliminateDups2Below(op: Op, base: Path, p: Path, q: Path)
      requires Reaches(root, base) && IsBin(At(root, base), op)
      requires OnLeaf(op, At(root, base), p) && OnSpine(op, At(root, base), q) && IsBin(At(At(root, base), q), op)
      modifies this
      ensures OnlyBelow(old(root), base)
      ensures transCount >= old(transCount)
      ensures Progress(op, old(At(root, base)), At(root, base), transCount != old(transCount))
      ensures Decides(op, old(At(root, base)), At(root, base), transCount != old(transCount))
      ensures transCount == old(transCount) <==>
        NoOpposeBelow(op, old(At(root, base)), p, q + [GoLeft]) && NoOpposeBelow(op, old(At(root, base)), p, q + [GoRight])
      decreases Size(At(root, base)), SpineSize(op, At(At(root, base), p)), SpineSize(op, At(At(root, base), q)), 0
    {
      hide Quiet, HasAbsorber, Progress, NoJoinBelow, NoOpposeBelow, NoJoin, NoOppose, SameValue, Join, Opposes;
      ghost var e := At(root, base);
      SpineStep(op, e, q, GoLeft); SpineStep(op, e, q, GoRight);
      EliminateDups2(op, base, p, q + [GoLeft]);
      ghost var f, count := At(root, base), transCount;
      ProgressIsChange(op, e, f, count != old(transCount));
      SameSpineKeepsCursor(op, e, f, q + [GoRight]);
      SameSpineKeepsCursor(op, e, f, p);
      EliminateDups2(op, base, p, q + [GoRight]);
      PutTwice(old(root), base, f, At(root, base));
      ProgressTransitive(op, e, f, At(root, base), count != old(transCount), transCount != count);
    }

    /** Work inside the operand at p, then drop it when the node at q opposes it. */
    method OpposeOperands(op: Op, base: Path, p: Path, q: Path)
      requires Reaches(root, base) && IsBin(At(root, base), op)
      requires LeafAndNode(op, At(root, base), p, q)
      modifies this
      ensures OnlyBelow(old(root), base)
      ensures transCount >= old(transCount)
      ensures Progress(op, old(At(root, base)), At(root, base), transCount != old(transCount))
      ensures Decides(op, old(At(root, base)), At(root, base), transCount != old(transCount))
      ensures transCount == old(transCount) <==>
        !Opposes(op, old(At(At(root, base), p)), old(At(At(root, base), q))) && NoOppose(old(At(At(root, base), p)))
      decreases Size(At(root, base)), 0, 0, 0
    {
      hide Quiet, HasAbsorber, Progress, NoOpposeBelow, NoOppose, SameValue, Opposes;
      var e := At(root, base);
      PutThenAt(root, base, e);
      ProgressNothing(op, e);
      NoOpposeIs(At(e, p));
      if Quiet(op, e) { QuietAt(op, e, p); }
      Continue(root, base, p, At(e, p));
      if At(e, p).Bin? {
        EliminateDups2(At(e, p).op, base + p, [], []);
        InnerStays(op, old(root), root, base, p);
        ProgressInside(op, e, p, At(At(root, base), p), transCount != old(transCount));
      }
      ghost var f, count := At(root, base), transCount;
      ProgressIsChange(op, e, f, count != old(transCount));
      SameSpineKeepsCursor(op, e, f, p);
      SameSpineKeepsCursor(op, e, f, q);
      PutTwice(old(root), base, f, f);
      if Opposes(op, At(At(root, base), p), At(At(root, base), q)) {
        ProgressOppose(op, f, p, q);
        if Quiet(op, f) { AbsorberDecides(op, f, p); }
        Store(base, p, Symbol(Absorber(op)));
        transCount := transCount + 1;
        PutTwice(old(root), base, f, At(root, base));
        ProgressTransitive(op, e, f, At(root, base), count != old(transCount), true);
      }
    }

    /** expr_eliminate_dups: definite values stay, so without m every value does; afterwards no two
        operands can be joined, none is opposed by the others, and a tree that was changed has no
        constant left to drop. A tree stays as it is exactly if nothing in it can be joined or is
        opposed; if all that can happen is that an operand is opposed, one constant remains. The
        global counter is as before. */
    method EliminateDups()
      modifies this
      ensures forall env :: Sharpens(Eval(old(root), env), Eval(root, env))
      ensures !Contains(old(root), Mod) ==> forall env :: AllDefinite(env) ==> Eval(root, env) == Eval(old(root), env)
      ensures NoJoin(root) && NoOppose(root) && NoRepeat(root) && NoContradiction(root)
      ensures root == old(root) <==> NoJoin(old(root)) && NoOppose(old(root))
      ensures OnlyOpposed(old(root)) ==> root == Symbol(Absorber(old(root).op))
      ensures root == old(root) || (!Reducible(root) && BinCount(root) < BinCount(old(root)))
      ensures NotOnSymbols(old(root)) ==> NotOnSymbols(root)
      ensures Normal(old(root)) ==> Normal(root)
      ensures transCount == old(transCount)
    {
      var oldCount := transCount;
      while true
        invariant forall env :: Sharpens(Eval(old(root), env), Eval(root, env))
        invariant NoJoin(old(root)) && NoOppose(old(root)) ==> root == old(root)
        invariant OnlyOpposed(old(root)) ==> root == old(root) || root == Symbol(Absorber(old(root).op))
        invariant root == old(root) || (!Reducible(root) && BinCount(root) < BinCount(old(root)))
        invariant NotOnSymbols(old(root)) ==> NotOnSymbols(root)
        invariant Normal(old(root)) ==> Normal(root)
        decreases BinCount(root)
      {
        ghost var e := root;
        transCount := 0;
        NoJoinIs(e);
        NoOpposeIs(e);
        if root.Bin? {
          var op := root.op;
          EliminateDups1(op, [], [], []);
          ghost var f, count := root, transCount;
          EliminateDups2(op, [], [], []);
          ProgressTransitive(op, e, f, root, count != 0, transCount != count);
        }
        if transCount == 0 { break; }
        ghost var g := root;
        if OnlyOpposed(e) { AbsorberRemains(e.op, g); }
        root := EliminateYn(root);
        EliminateYnIsThorough(g);
        ConstantsGone(g);
        forall env
          ensures Sharpens(Eval(old(root), env), Eval(root, env))
        {
          EliminateYnKeepsValue(g, env);
          assert Sharpens(Eval(old(root), env), Eval(e, env)) && Sharpens(Eval(e, env), Eval(g, env));
        }
      }
      transCount := oldCount;
      NoJoinIsNoRepeat(root);
      NoOpposeIsNoContradiction(root);
      forall env | AllDefinite(env) && !Contains(old(root), Mod)
        ensures Eval(root, env) == Eval(old(root), env)
      {
        DefiniteValue(old(root), env);
        assert Sharpens(Eval(old(root), env), Eval(root, env));
      }
    }
  }

  lemma ConstantsGone(e: Expr)
    ensures NotOnSymbols(e) ==> NotOnSymbols(EliminateYn(e))
    ensures Normal(e) ==> Normal(EliminateYn(e))
  {
    if NotOnSymbols(e) { EliminateYnKeepsShape(e); }
    if Normal(e) { EliminateYnKeepsNormal(e); }
  }

  lemma {:induction false} EliminateYnKeepsNormal(e: Expr)
    requires Normal(e)
    ensures Normal(EliminateYn(e))
  {
    if e.Bin? {
      EliminateYnKeepsNormal(e.left);
      EliminateYnKeepsNormal(e.right);
    }
  }

  // ---------- consequences ----------

  /** Nothing in the assignment is m. */
  ghost predicate AllDefinite(env: Env) {
    forall id :: env.tri(id) != MOD
  }

  lemma {:induction false} DefiniteValue(e: Expr, env: Env)
    requires AllDefinite(env) && !Contains(e, Mod)
    ensures Eval(e, env) != MOD
  {
    match e
    case Bin(_, l, r) => DefiniteValue(l, env); DefiniteValue(r, env);
    case Not(x) => DefiniteValue(x, env);
    case _ =>
  }

  /** The operand a cursor stands on, one turn further down. */
  lemma StepDown(op: Op, e: Expr, p: Path)
    requires OnSpine(op, e, p) && p != []
    ensures IsBin(e, op) && OnSpine(op, Child(e, p[0]), p[1..]) && At(e, p) == At(Child(e, p[0]), p[1..])
    ensures !IsBin(Child(e, p[0]), op) ==> p == [p[0]] && At(e, p) == Child(e, p[0])
  {
    assert p == [p[0]] + p[1..];
  }

  /** The cursors of a node with two plain operands. */
  lemma TwoOperands(op: Op, e: Expr, p: Path)
    requires OnSpine(op, e, p) && IsBin(e, op) && !IsBin(e.left, op) && !IsBin(e.right, op)
    ensures p == [] || (p == [GoLeft] && At(e, p) == e.left) || (p == [GoRight] && At(e, p) == e.right)
  {
    if p != [] { StepDown(op, e, p); }
  }

  function Either(a: Sym, b: Sym): Expr {
    Bin(Or, Symbol(a), Symbol(b))
  }

  function Neither(a: Sym, b: Sym): Expr {
    Bin(And, Not(Symbol(a)), Not(Symbol(b)))
  }

  lemma EitherOpposesNeither(a: Sym, b: Sym)
    requires TypeOf(a) == Tristate && TypeOf(b) == Tristate && a != b
    ensures Opposes(And, Either(a, b), Neither(a, b))
  {
    var either, neither := Either(a, b), Neither(a, b);
    var na, nb := Not(Symbol(a)), Not(Symbol(b));
    assert Transform(either) == either;
    assert Transform(na) == na && Transform(nb) == nb;
    assert Transform(Not(either)) == Transform(neither) == neither;
    assert ExprEq(Symbol(a), Symbol(a)) && ExprEq(Symbol(b), Symbol(b)) && !ExprEq(Symbol(a), Symbol(b));
    assert ExprEq(na, na) && ExprEq(nb, nb);
    assert !ExprEq(na, nb);
    var yes := Symbol(Yes);
    assert !ExprEq(yes, nb);
    var x := ExtractEq(And, None, na, neither);
    assert ExtractEq(And, None, na, na) == Extracted(Some(na), yes, yes);
    assert ExtractEq(And, Some(na), yes, nb) == Extracted(Some(na), yes, nb);
    assert x == Extracted(Some(na), yes, Bin(And, yes, nb));
    assert ExtractEq(And, x.common, nb, yes) == Extracted(Some(na), nb, yes);
    assert ExtractEq(And, x.common, nb, nb) == Extracted(Some(Bin(And, na, nb)), yes, yes);
    assert ExtractEq(And, x.common, nb, x.second) == Extracted(Some(Bin(And, na, nb)), yes, Bin(And, yes, yes));
    assert ExtractEq(And, None, neither, neither).first == Bin(And, yes, yes);
  }

  /** Different values under some assignment, and no symbol in common: nothing to join. */
  lemma CannotJoin(op: Op, x: Expr, y: Expr, env: Env)
    requires Eval(x, env) != Eval(y, env) && CommonSubject(x, y).None?
    ensures Join(op, x, y).None?
  {
    if ExprEq(x, y) { ExprEqSound(x, y, env); }
  }

  lemma EitherIsSettled(a: Sym, b: Sym)
    requires TypeOf(a) == Tristate && TypeOf(b) == Tristate && a != b
    ensures NoJoin(Either(a, b)) && NoOppose(Either(a, b))
  {
    hide Join, ExprEq;
    var e := Either(a, b);
    var env := Env(id => if id == a.id then YES else NO, _ => "");
    forall p, q | TwoLeaves(Or, e, p, q)
      ensures Join(Or, At(e, p), At(e, q)).None? && NoJoin(At(e, p))
    {
      TwoOperands(Or, e, p); TwoOperands(Or, e, q);
      assert Eval(e.left, env) == YES && Eval(e.right, env) == NO;
      CannotJoin(Or, At(e, p), At(e, q), env);
    }
    forall p, q | LeafAndNode(Or, e, p, q)
      ensures !Opposes(Or, At(e, p), At(e, q)) && NoOppose(At(e, p))
    {
      TwoOperands(Or, e, p);
    }
  }

  lemma EitherOrNeither(a: Sym, b: Sym, p: Path)
    requires OnLeaf(And, Bin(And, Either(a, b), Neither(a, b)), p)
    ensures var e := Bin(And, Either(a, b), Neither(a, b));
      || (p == [GoLeft] && At(e, p) == Either(a, b))
      || (p == [GoRight, GoLeft] && At(e, p) == Not(Symbol(a)))
      || (p == [GoRight, GoRight] && At(e, p) == Not(Symbol(b)))
  {
    var e := Bin(And, Either(a, b), Neither(a, b));
    assert p != [];
    StepDown(And, e, p);
    if p[0] == GoRight {
      TwoOperands(And, e.right, p[1..]);
      assert p == [GoRight] + p[1..];
    }
  }

  lemma NeitherCannotJoin(a: Sym, b: Sym)
    requires TypeOf(a) == Tristate && TypeOf(b) == Tristate && a != b
    ensures var e := Bin(And, Either(a, b), Neither(a, b)); NoJoin(e)
  {
    hide Join, ExprEq;
    var e := Bin(And, Either(a, b), Neither(a, b));
    var env := Env(id => if id == a.id then YES else NO, _ => "");
    var env' := Env(id => if id == b.id then YES else NO, _ => "");
    var either, na, nb := e.left, e.right.left, e.right.right;
    assert a == Var(a.id, Tristate) && b == Var(b.id, Tristate);
    assert Eval(Symbol(a), env') == NO && Eval(Symbol(b), env) == NO;
    assert Eval(Symbol(a), env) == YES && Eval(Symbol(b), env') == YES;
    assert Eval(either, env) == YES && Eval(either, env') == YES;
    assert Eval(na, env) == Negate(Eval(Symbol(a), env)) && Eval(na, env') == Negate(Eval(Symbol(a), env'));
    assert Eval(nb, env') == Negate(Eval(Symbol(b), env'));
    EitherIsSettled(a, b);
    forall p, q | TwoLeaves(And, e, p, q)
      ensures Join(And, At(e, p), At(e, q)).None? && NoJoin(At(e, p))
    {
      EitherOrNeither(a, b, p); EitherOrNeither(a, b, q);
      CannotJoin(And, At(e, p), At(e, q), if At(e, p) == nb || At(e, q) == nb then env' else env);
    }
  }

  lemma PairSpine(a: Sym, b: Sym)
    ensures var e := Bin(And, Either(a, b), Neither(a, b));
      && LeafAndNode(And, e, [GoLeft], [GoRight])
      && At(e, [GoLeft]) == Either(a, b) && At(e, [GoRight]) == Neither(a, b)
  {
    var e := Bin(And, Either(a, b), Neither(a, b));
    assert [GoLeft][1..] == [] && [GoRight][1..] == [];
    assert Child(e, [GoLeft][0]) == Either(a, b) && Child(e, [GoRight][0]) == Neither(a, b);
    assert OnSpine(And, Either(a, b), []) && OnSpine(And, Neither(a, b), []);
    assert OnSpine(And, e, [GoLeft]) && OnSpine(And, e, [GoRight]);
    assert At(e, [GoLeft]) == At(Either(a, b), []) && At(e, [GoRight]) == At(Neither(a, b), []);
  }

  lemma PairIsOpposed(a: Sym, b: Sym)
    requires TypeOf(a) == Tristate && TypeOf(b) == Tristate && a != b
    ensures OnlyOpposed(Bin(And, Either(a, b), Neither(a, b)))
  {
    var e := Bin(And, Either(a, b), Neither(a, b));
    EitherOpposesNeither(a, b);
    EitherIsSettled(a, b);
    NeitherCannotJoin(a, b);
    PairSpine(a, b);
    hide Opposes, NoJoin, Either, Join;
    assert !NoOppose(e);
    var na, nb := Not(Symbol(a)), Not(Symbol(b));
    assert e.right == Bin(And, na, nb);
    assert NoOppose(na) && NoOppose(nb);
    assert Quiet(And, na) && Quiet(And, nb);
    assert Quiet(And, e.right);
    assert !IsBin(e.left, And) by { EitherShape(a, b); }
    assert Quiet(And, e.left);
  }

  lemma EitherShape(a: Sym, b: Sym)
    ensures IsBin(Either(a, b), Or)
  {
  }

  /** Sharpening is all that can be promised: this tree is m where both symbols are, and
      expr_eliminate_dups makes it n. */
  method SharpeningHappens(a: Sym, b: Sym, ghost env: Env) returns (before: Expr, after: Expr)
    requires TypeOf(a) == Tristate && TypeOf(b) == Tristate && a != b
    requires TriOf(a, env) == MOD && TriOf(b, env) == MOD
    ensures before == Bin(And, Either(a, b), Neither(a, b)) && after == Symbol(No)
    ensures Eval(before, env) == MOD && Eval(after, env) == NO
  {
    before := Bin(And, Either(a, b), Neither(a, b));
    PairIsOpposed(a, b);
    hide OnlyOpposed, Transform, ExprEq;
    assert Eval(Symbol(a), env) == MOD && Eval(Symbol(b), env) == MOD;
    assert Eval(Not(Symbol(a)), env) == MOD && Eval(Not(Symbol(b)), env) == MOD;
    var w := new Rewriter(before);
    w.EliminateDups();
    after := w.root;
  }
}
