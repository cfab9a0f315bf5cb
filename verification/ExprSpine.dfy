/** Cursors into a tree. A `struct expr **` that walks the operands of nested AND or OR nodes is
    the sequence of turns taken from the root of the tree it points into. */
module ExprSpine {
  import opened Tristates
  import opened Expressions
  import opened ExprCompare
  import opened ExprTransform

  datatype Turn = GoLeft | GoRight

  type Path = seq<Turn>

  function Child(e: Expr, turn: Turn): Expr
    requires e.Bin?
  {
    if turn == GoLeft then e.left else e.right
  }

  predicate Reaches(e: Expr, p: Path) {
    p == [] || (e.Bin? && Reaches(Child(e, p[0]), p[1..]))
  }

  /** What the cursor points at. */
  function At(e: Expr, p: Path): (r: Expr)
    requires Reaches(e, p)
    ensures p != [] ==> Size(r) < Size(e)
  {
    if p == [] then e else At(Child(e, p[0]), p[1..])
  }

  /** The whole tree after storing x through the cursor. */
  function Put(e: Expr, p: Path, x: Expr): Expr
    requires Reaches(e, p)
  {
    if p == [] then x
    else if p[0] == GoLeft then Bin(e.op, Put(e.left, p[1..], x), e.right)
    else Bin(e.op, e.left, Put(e.right, p[1..], x))
  }

  lemma {:induction false} PutThenAt(e: Expr, p: Path, x: Expr)
    requires Reaches(e, p)
    ensures Reaches(Put(e, p, x), p) && At(Put(e, p, x), p) == x
    ensures Put(e, p, At(e, p)) == e
  {
    if p != [] { PutThenAt(Child(e, p[0]), p[1..], x); }
  }

  lemma {:induction false} PutTwice(e: Expr, p: Path, x: Expr, y: Expr)
    requires Reaches(e, p)
    ensures Reaches(Put(e, p, x), p) && Put(Put(e, p, x), p, y) == Put(e, p, y)
  {
    if p != [] { PutTwice(Child(e, p[0]), p[1..], x, y); }
  }

  /** A cursor that continues from where another one stands. */
  lemma {:induction false} Continue(e: Expr, p: Path, q: Path, x: Expr)
    requires Reaches(e, p) && Reaches(At(e, p), q)
    ensures Reaches(e, p + q)
    ensures At(e, p + q) == At(At(e, p), q)
    ensures Put(e, p + q, x) == Put(e, p, Put(At(e, p), q, x))
  {
    if p == [] {
      assert p + q == q;
    } else {
      assert (p + q)[0] == p[0] && (p + q)[1..] == p[1..] + q;
      Continue(Child(e, p[0]), p[1..], q, x);
    }
  }

  /** The cursor has passed nodes of operator op only. */
  predicate OnSpine(op: Op, e: Expr, p: Path)
    ensures OnSpine(op, e, p) ==> Reaches(e, p)
  {
    p == [] || (IsBin(e, op) && OnSpine(op, Child(e, p[0]), p[1..]))
  }

  /** The cursor stands on one of the operands that the nested op nodes combine. */
  predicate OnLeaf(op: Op, e: Expr, p: Path) {
    OnSpine(op, e, p) && !IsBin(At(e, p), op)
  }

  lemma {:induction false} SpineStep(op: Op, e: Expr, p: Path, turn: Turn)
    requires OnSpine(op, e, p) && IsBin(At(e, p), op)
    ensures OnSpine(op, e, p + [turn]) && At(e, p + [turn]) == Child(At(e, p), turn)
  {
    if p == [] {
      assert p + [turn] == [turn];
    } else {
      assert (p + [turn])[0] == p[0] && (p + [turn])[1..] == p[1..] + [turn];
      SpineStep(op, Child(e, p[0]), p[1..], turn);
    }
  }

  /** The nodes of operator op around the same number of operands. */
  predicate SameSpine(op: Op, e: Expr, f: Expr) {
    && IsBin(e, op) == IsBin(f, op)
    && (IsBin(e, op) ==> SameSpine(op, e.left, f.left) && SameSpine(op, e.right, f.right))
  }

  function SpineSize(op: Op, e: Expr): nat {
    if IsBin(e, op) then 1 + SpineSize(op, e.left) + SpineSize(op, e.right) else 0
  }

  lemma {:induction false} SameSpineReflexive(op: Op, e: Expr)
    ensures SameSpine(op, e, e)
  {
    if IsBin(e, op) {
      SameSpineReflexive(op, e.left);
      SameSpineReflexive(op, e.right);
    }
  }

  lemma {:induction false} SameSpineTransitive(op: Op, e: Expr, f: Expr, g: Expr)
    requires SameSpine(op, e, f) && SameSpine(op, f, g)
    ensures SameSpine(op, e, g)
  {
    if IsBin(e, op) {
      SameSpineTransitive(op, e.left, f.left, g.left);
      SameSpineTransitive(op, e.right, f.right, g.right);
    }
  }

  /** A cursor stays usable while only operands are replaced. */
  lemma {:induction false} SameSpineKeepsCursor(op: Op, e: Expr, f: Expr, p: Path)
    requires SameSpine(op, e, f) && OnSpine(op, e, p)
    ensures OnSpine(op, f, p)
    ensures SpineSize(op, At(e, p)) == SpineSize(op, At(f, p))
    ensures IsBin(At(e, p), op) == IsBin(At(f, p), op)
  {
    if p == [] {
      SameSpineSameSize(op, e, f);
    } else {
      SameSpineKeepsCursor(op, Child(e, p[0]), Child(f, p[0]), p[1..]);
    }
  }

  lemma {:induction false} SameSpineSameSize(op: Op, e: Expr, f: Expr)
    requires SameSpine(op, e, f)
    ensures SpineSize(op, e) == SpineSize(op, f)
  {
    if IsBin(e, op) {
      SameSpineSameSize(op, e.left, f.left);
      SameSpineSameSize(op, e.right, f.right);
    }
  }

  // ---------- replacing one operand ----------

  lemma {:induction false} PutLeafShape(op: Op, e: Expr, p: Path, x: Expr)
    requires OnLeaf(op, e, p) && !IsBin(x, op)
    ensures SameSpine(op, e, Put(e, p, x))
    ensures Size(Put(e, p, x)) + Size(At(e, p)) == Size(e) + Size(x)
    ensures BinCount(Put(e, p, x)) + BinCount(At(e, p)) == BinCount(e) + BinCount(x)
    ensures NotOnSymbols(e) ==> NotOnSymbols(At(e, p))
    ensures NotOnSymbols(e) && NotOnSymbols(x) ==> NotOnSymbols(Put(e, p, x))
    ensures Normal(e) ==> Normal(At(e, p))
    ensures Normal(e) && Normal(x) ==> Normal(Put(e, p, x))
  {
    if p != [] {
      PutLeafShape(op, Child(e, p[0]), p[1..], x);
      SameSpineReflexive(op, e.left);
      SameSpineReflexive(op, e.right);
    }
  }

  /** A combination is the operand at the cursor combined with everything else. */
  lemma {:induction false} PutLeafValue(op: Op, e: Expr, p: Path, x: Expr, env: Env)
    requires OnSpine(op, e, p)
    ensures Eval(Put(e, p, x), env) == Apply(op, Eval(Put(e, p, Symbol(Unit(op))), env), Eval(x, env))
  {
    if p != [] { PutLeafValue(op, Child(e, p[0]), p[1..], x, env); }
  }

  /** No operand is overruled: the whole is at or beyond every node of the spine. */
  lemma {:induction false} SpineBounds(op: Op, e: Expr, p: Path, env: Env)
    requires OnSpine(op, e, p)
    ensures Eval(e, env) == Apply(op, Eval(e, env), Eval(At(e, p), env))
  {
    if p != [] { SpineBounds(op, Child(e, p[0]), p[1..], env); }
  }

  /** Replacing an operand by one that is equal or sharper has the same effect on the whole. */
  lemma {:induction false} PutSharpens(e: Expr, p: Path, x: Expr, env: Env)
    requires Reaches(e, p)
    ensures Sharpens(Eval(At(e, p), env), Eval(x, env)) ==> Sharpens(Eval(e, env), Eval(Put(e, p, x), env))
    ensures Eval(At(e, p), env) == Eval(x, env) ==> Eval(e, env) == Eval(Put(e, p, x), env)
  {
    if p != [] { PutSharpens(Child(e, p[0]), p[1..], x, env); }
  }

  lemma {:induction false} PutReducible(e: Expr, p: Path, x: Expr)
    requires Reaches(e, p) && Reducible(x)
    ensures Reducible(Put(e, p, x))
  {
    if p != [] { PutReducible(Child(e, p[0]), p[1..], x); }
  }

  lemma {:induction false} PutConstReducible(e: Expr, p: Path, x: Expr)
    requires Reaches(e, p) && p != [] && IsConstOperand(x)
    ensures Reducible(Put(e, p, x))
  {
    if |p| > 1 { PutConstReducible(Child(e, p[0]), p[1..], x); }
  }

  // ---------- two different operands ----------

  lemma {:induction false} OtherLeafStays(op: Op, e: Expr, p: Path, q: Path, x: Expr)
    requires OnLeaf(op, e, p) && OnLeaf(op, e, q) && p != q && !IsBin(x, op)
    ensures OnLeaf(op, Put(e, p, x), q) && At(Put(e, p, x), q) == At(e, q)
  {
    if p != [] && q != [] && p[0] == q[0] {
      assert p[1..] != q[1..] by { assert p == [p[0]] + p[1..] && q == [q[0]] + q[1..]; }
      OtherLeafStays(op, Child(e, p[0]), p[1..], q[1..], x);
    }
  }
}
