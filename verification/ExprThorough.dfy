/** What cancelling and extracting common terms do not leave behind, and what two comparisons of
    support/kconfig/expr.c recognise. */
module ExprThorough {
  import opened Tristates
  import opened Wrappers
  import opened Expressions
  import opened ExprCompare
  import opened ExprTransform
  import opened ExprSpine

  // ---------- expr_eq finds every tree equal to itself ----------

  /** The operands other than y and n are cancelled. */
  function Cleared(op: Op, e: Expr): Expr {
    if IsBin(e, op) then Bin(op, Cleared(op, e.left), Cleared(op, e.right))
    else if IsConstOperand(e) then e
    else Symbol(Unit(op))
  }

  predicate AllConst(op: Op, e: Expr) {
    if IsBin(e, op) then AllConst(op, e.left) && AllConst(op, e.right) else IsConstOperand(e)
  }

  lemma {:induction false} ClearedIsConst(op: Op, e: Expr)
    ensures AllConst(op, Cleared(op, e))
  {
    if IsBin(e, op) {
      ClearedIsConst(op, e.left);
      ClearedIsConst(op, e.right);
    }
  }

  lemma {:induction false} AllConstFolds(op: Op, e: Expr)
    requires AllConst(op, e)
    ensures IsConstOperand(EliminateYn(e))
  {
    if IsBin(e, op) {
      AllConstFolds(op, e.left);
      AllConstFolds(op, e.right);
    }
  }

  /** A constant cancels nothing. */
  lemma {:induction false} ConstCancelsNothing(op: Op, c: Expr, e: Expr)
    requires IsConstOperand(c)
    ensures EliminateEqIn(op, c, e) == (c, e)
  {
    if IsBin(e, op) {
      ConstCancelsNothing(op, c, e.left);
      ConstCancelsNothing(op, c, e.right);
    }
  }

  /** Nothing cancels constants. */
  lemma {:induction false} NothingCancelsConst(op: Op, x: Expr, e: Expr)
    requires AllConst(op, e) && !IsBin(x, op)
    ensures EliminateEqIn(op, x, e) == (x, e)
  {
    if IsBin(e, op) {
      NothingCancelsConst(op, x, e.left);
      NothingCancelsConst(op, x, e.right);
    }
  }

  /** Every operand to the left of the cursor is a constant. */
  predicate ConstBefore(op: Op, e: Expr, p: Path)
    requires OnSpine(op, e, p)
  {
    p != [] ==> ConstBefore(op, Child(e, p[0]), p[1..]) && (p[0] == GoRight ==> AllConst(op, e.left))
  }

  /** So an operand meets itself first. */
  lemma {:induction false} MeetsItself(op: Op, e: Expr, p: Path)
    requires OnLeaf(op, e, p) && ConstBefore(op, e, p) && ExprEq(At(e, p), At(e, p))
    ensures EliminateEqIn(op, At(e, p), e) == (Cleared(op, At(e, p)), Put(e, p, Cleared(op, At(e, p))))
  {
    var x := At(e, p);
    if p != [] {
      if p[0] == GoRight { NothingCancelsConst(op, x, e.left); }
      MeetsItself(op, Child(e, p[0]), p[1..]);
      if p[0] == GoLeft { ConstCancelsNothing(op, Cleared(op, x), e.right); }
    }
  }

  lemma {:induction false} LeftIsBefore(op: Op, e: Expr, p: Path)
    requires OnSpine(op, e, p) && IsBin(At(e, p), op) && ConstBefore(op, e, p)
    ensures OnSpine(op, e, p + [GoLeft]) && ConstBefore(op, e, p + [GoLeft]) && At(e, p + [GoLeft]) == At(e, p).left
    ensures OnSpine(op, e, p + [GoRight]) && At(e, p + [GoRight]) == At(e, p).right
  {
    SpineStep(op, e, p, GoLeft);
    SpineStep(op, e, p, GoRight);
    if p == [] {
      assert p + [GoLeft] == [GoLeft];
    } else {
      assert (p + [GoLeft])[0] == p[0] && (p + [GoLeft])[1..] == p[1..] + [GoLeft];
      LeftIsBefore(op, Child(e, p[0]), p[1..]);
    }
  }

  /** When the left operand of a node has been cleared, what is before the right one is constant. */
  lemma {:induction false} RightIsBefore(op: Op, e: Expr, p: Path, l: Expr)
    requires OnSpine(op, e, p) && IsBin(At(e, p), op) && ConstBefore(op, e, p)
    requires OnSpine(op, e, p + [GoLeft]) && AllConst(op, l)
    ensures var f := Put(e, p + [GoLeft], l);
      && f == Put(e, p, Bin(op, l, At(e, p).right))
      && OnSpine(op, f, p + [GoRight]) && ConstBefore(op, f, p + [GoRight]) && At(f, p + [GoRight]) == At(e, p).right
      && forall r :: Put(f, p + [GoRight], r) == Put(e, p, Bin(op, l, r))
  {
    if p == [] {
      assert p + [GoLeft] == [GoLeft] && p + [GoRight] == [GoRight];
      assert [GoLeft][1..] == [] && [GoRight][1..] == [];
    } else {
      assert (p + [GoLeft])[0] == p[0] && (p + [GoLeft])[1..] == p[1..] + [GoLeft];
      assert (p + [GoRight])[0] == p[0] && (p + [GoRight])[1..] == p[1..] + [GoRight];
      RightIsBefore(op, Child(e, p[0]), p[1..], l);
    }
  }

  /** Cancelling a part of a tree against the whole clears this part in both, if what is before
      it has been cleared already. */
  lemma {:induction false} ClearsPart(op: Op, a: Expr, e: Expr, p: Path)
    requires OnSpine(op, e, p) && At(e, p) == a && ConstBefore(op, e, p)
    requires forall q :: OnLeaf(op, a, q) ==> ExprEq(At(a, q), At(a, q))
    ensures EliminateEqIn(op, a, e) == (Cleared(op, a), Put(e, p, Cleared(op, a)))
    decreases a
  {
    if IsBin(a, op) {
      LeafBelow(op, a);
      LeftIsBefore(op, e, p);
      ClearsPart(op, a.left, e, p + [GoLeft]);
      ClearedIsConst(op, a.left);
      RightIsBefore(op, e, p, Cleared(op, a.left));
      ClearsPart(op, a.right, Put(e, p + [GoLeft], Cleared(op, a.left)), p + [GoRight]);
    } else {
      assert OnLeaf(op, a, []) && At(a, []) == a;
      MeetsItself(op, e, p);
    }
  }

  lemma LeafBelow(op: Op, a: Expr)
    requires IsBin(a, op)
    ensures forall q :: OnLeaf(op, a.left, q) ==> OnLeaf(op, a, [GoLeft] + q) && At(a, [GoLeft] + q) == At(a.left, q)
    ensures forall q :: OnLeaf(op, a.right, q) ==> OnLeaf(op, a, [GoRight] + q) && At(a, [GoRight] + q) == At(a.right, q)
  {
    forall q: Path
      ensures ([GoLeft] + q)[1..] == q && ([GoRight] + q)[1..] == q
    {
    }
  }

  /** expr_eq is reflexive, although it compares AND and OR by cancelling in copies. */
  lemma {:induction false} ExprEqReflexive(e: Expr)
    ensures ExprEq(e, e)
    decreases Size(e)
  {
    match e
    case Not(x) => ExprEqReflexive(x);
    case Bin(op, _, _) =>
      forall q | OnLeaf(op, e, q)
        ensures ExprEq(At(e, q), At(e, q))
      {
        assert q != [];
        ExprEqReflexive(At(e, q));
      }
      ClearsPart(op, e, e, []);
      ClearedIsConst(op, e);
      AllConstFolds(op, Cleared(op, e));
    case _ =>
  }

  // ---------- what stays after cancelling and extracting ----------

  /** Apart from y and n, no operand of one tree is equal to an operand of the other. */
  ghost predicate Apart(op: Op, a: Expr, b: Expr) {
    if IsBin(a, op) then Apart(op, a.left, b) && Apart(op, a.right, b)
    else if IsBin(b, op) then Apart(op, a, b.left) && Apart(op, a, b.right)
    else ExprEq(a, b) ==> CommonConst(a, b)
  }

  /** Some operands have become the neutral constant. */
  predicate Thinned(op: Op, e: Expr, f: Expr) {
    if IsBin(e, op) then IsBin(f, op) && Thinned(op, e.left, f.left) && Thinned(op, e.right, f.right)
    else f == e || IsUnit(f, op)
  }

  lemma {:induction false} ThinnedReflexive(op: Op, e: Expr)
    ensures Thinned(op, e, e)
  {
    if IsBin(e, op) {
      ThinnedReflexive(op, e.left);
      ThinnedReflexive(op, e.right);
    }
  }

  lemma {:induction false} ThinnedTransitive(op: Op, e: Expr, f: Expr, g: Expr)
    requires Thinned(op, e, f) && Thinned(op, f, g)
    ensures Thinned(op, e, g)
  {
    if IsBin(e, op) {
      ThinnedTransitive(op, e.left, f.left, g.left);
      ThinnedTransitive(op, e.right, f.right, g.right);
    }
  }

  lemma {:induction false} ThinnedApart(op: Op, a: Expr, a': Expr, b: Expr, b': Expr)
    requires Apart(op, a, b) && Thinned(op, a, a') && Thinned(op, b, b')
    ensures Apart(op, a', b')
    decreases a, b
  {
    if IsBin(a, op) {
      ThinnedApart(op, a.left, a'.left, b, b');
      ThinnedApart(op, a.right, a'.right, b, b');
    } else if IsBin(b, op) {
      ThinnedApart(op, a, a', b.left, b'.left);
      ThinnedApart(op, a, a', b.right, b'.right);
    }
  }

  lemma LeavesApart(op: Op, a: Expr, b: Expr)
    requires !IsBin(a, op) && !IsBin(b, op)
    ensures var (x, y) := EliminateEqIn(op, a, b); Thinned(op, a, x) && Thinned(op, b, y) && Apart(op, x, y)
  {
  }

  lemma LeavesExtracted(op: Op, common: Option<Expr>, a: Expr, b: Expr)
    requires !IsBin(a, op) && !IsBin(b, op)
    ensures var x := ExtractEq(op, common, a, b);
      Thinned(op, a, x.first) && Thinned(op, b, x.second) && Apart(op, x.first, x.second)
  {
  }

  /** __expr_eliminate_eq takes out all that the two trees have in common. */
  lemma {:induction false} EliminateEqInLeavesNothing(op: Op, a: Expr, b: Expr)
    ensures var (x, y) := EliminateEqIn(op, a, b);
      Thinned(op, a, x) && Thinned(op, b, y) && Apart(op, x, y)
    decreases Size(a) + Size(b)
  {
    hide ExprEq;
    if IsBin(a, op) {
      var (l, b1) := EliminateEqIn(op, a.left, b);
      var (r, b2) := EliminateEqIn(op, a.right, b1);
      EliminateEqInLeavesNothing(op, a.left, b);
      EliminateEqInLeavesNothing(op, a.right, b1);
      ThinnedTransitive(op, b, b1, b2);
      ThinnedReflexive(op, l);
      ThinnedApart(op, l, l, b1, b2);
    } else if IsBin(b, op) {
      var (a1, l) := EliminateEqIn(op, a, b.left);
      var (a2, r) := EliminateEqIn(op, a1, b.right);
      EliminateEqInLeavesNothing(op, a, b.left);
      EliminateEqInLeavesNothing(op, a1, b.right);
      ThinnedTransitive(op, a, a1, a2);
      ThinnedReflexive(op, l);
      ThinnedApart(op, a1, a2, l, l);
    } else {
      LeavesApart(op, a, b);
    }
  }

  /** So does expr_extract_eq. */
  lemma {:induction false} ExtractEqLeavesNothing(op: Op, common: Option<Expr>, a: Expr, b: Expr)
    ensures var x := ExtractEq(op, common, a, b);
      Thinned(op, a, x.first) && Thinned(op, b, x.second) && Apart(op, x.first, x.second)
    decreases Size(a) + Size(b)
  {
    hide ExprEq;
    if IsBin(a, op) {
      var x := ExtractEq(op, common, a.left, b);
      var y := ExtractEq(op, x.common, a.right, x.second);
      ExtractEqLeavesNothing(op, common, a.left, b);
      ExtractEqLeavesNothing(op, x.common, a.right, x.second);
      ThinnedTransitive(op, b, x.second, y.second);
      ThinnedReflexive(op, x.first);
      ThinnedApart(op, x.first, x.first, x.second, y.second);
    } else if IsBin(b, op) {
      var x := ExtractEq(op, common, a, b.left);
      var y := ExtractEq(op, x.common, x.first, b.right);
      ExtractEqLeavesNothing(op, common, a, b.left);
      ExtractEqLeavesNothing(op, x.common, x.first, b.right);
      ThinnedTransitive(op, a, x.first, y.first);
      ThinnedReflexive(op, x.second);
      ThinnedApart(op, x.first, y.first, x.second, x.second);
    } else {
      LeavesExtracted(op, common, a, b);
    }
  }

  lemma {:induction false} ConstIsKept(op: Op, a: Expr, c: Expr)
    requires IsConstOperand(c)
    ensures EliminateEqIn(op, a, c) == (a, c)
  {
    if IsBin(a, op) {
      ConstIsKept(op, a.left, c);
      ConstIsKept(op, a.right, c);
    }
  }

  lemma {:induction false} OperandCancelsFirst(op: Op, a: Expr, p: Path, b: Expr)
    requires OnLeaf(op, a, p) && At(a, p) == b && !b.Bin? && !IsConstOperand(b)
    ensures EliminateEqIn(op, a, b).1 == Symbol(Unit(op))
  {
    if p == [] {
      ExprEqReflexive(b);
    } else {
      EliminateEqInLeavesNothing(op, a.left, b);
      var b1 := EliminateEqIn(op, a.left, b).1;
      if p[0] == GoLeft { OperandCancelsFirst(op, a.left, p[1..], b); }
      if IsUnit(b1, op) { ConstIsKept(op, a.right, b1); } else { OperandCancelsFirst(op, a.right, p[1..], b); }
    }
  }

  lemma {:induction false} OperandCancelsSecond(op: Op, a: Expr, b: Expr, p: Path)
    requires OnLeaf(op, b, p) && At(b, p) == a && !a.Bin? && !IsConstOperand(a)
    ensures EliminateEqIn(op, a, b).0 == Symbol(Unit(op))
  {
    if p == [] {
      ExprEqReflexive(a);
    } else {
      EliminateEqInLeavesNothing(op, a, b.left);
      var a1 := EliminateEqIn(op, a, b.left).0;
      if p[0] == GoLeft { OperandCancelsSecond(op, a, b.left, p[1..]); }
      if IsUnit(a1, op) { ConstCancelsNothing(op, a1, b.right); } else { OperandCancelsSecond(op, a, b.right, p[1..]); }
    }
  }

  /** expr_eliminate_eq cancels a term that is an operand of the other tree, in either position. So the
      question about a prompt cancels away in a condition that has it as an operand. */
  lemma OperandCancels(e: Expr, p: Path, x: Expr)
    requires e.Bin? && OnLeaf(e.op, e, p) && At(e, p) == x && !x.Bin? && !IsConstOperand(x)
    ensures EliminateEq(e, x).1 == Symbol(Unit(e.op)) && EliminateEq(x, e).0 == Symbol(Unit(e.op))
  {
    OperandCancelsFirst(e.op, e, p, x);
    OperandCancelsSecond(e.op, x, e, p);
  }

  // ---------- expr_extract_eq takes out what occurs ----------

  /** t is one of the operands. */
  predicate Occurs(op: Op, e: Expr, t: Expr) {
    if IsBin(e, op) then Occurs(op, e.left, t) || Occurs(op, e.right, t) else e == t
  }

  /** Negated symbols, no two of which are the same, that all occur in b. */
  ghost predicate NegatedWithin(op: Op, a: Expr, b: Expr) {
    if IsBin(a, op) then
      && NegatedWithin(op, a.left, b) && NegatedWithin(op, a.right, b)
      && forall t :: Occurs(op, a.left, t) ==> !Occurs(op, a.right, t)
    else a.Not? && a.operand.Symbol? && Occurs(op, b, a)
  }

  predicate AllUnit(op: Op, e: Expr) {
    if IsBin(e, op) then AllUnit(op, e.left) && AllUnit(op, e.right) else IsUnit(e, op)
  }

  lemma {:induction false} UnitExtractsNothing(op: Op, common: Option<Expr>, b: Expr)
    ensures var x := ExtractEq(op, common, Symbol(Unit(op)), b);
      x.first == Symbol(Unit(op)) && x.second == b && (common.Some? ==> x.common.Some?)
    decreases b
  {
    if IsBin(b, op) {
      UnitExtractsNothing(op, common, b.left);
      UnitExtractsNothing(op, ExtractEq(op, common, Symbol(Unit(op)), b.left).common, b.right);
    }
  }

  lemma {:induction false} ExtractTerm(op: Op, common: Option<Expr>, t: Expr, b: Expr)
    requires t.Not? && t.operand.Symbol?
    ensures var x := ExtractEq(op, common, t, b);
      && (common.Some? ==> x.common.Some?)
      && (if Occurs(op, b, t) then x.first == Symbol(Unit(op)) && x.common.Some? else x.first == t && x.second == b)
      && forall u :: Occurs(op, b, u) && u != t ==> Occurs(op, x.second, u)
    decreases b
  {
    if IsBin(b, op) {
      var x := ExtractEq(op, common, t, b.left);
      ExtractTerm(op, common, t, b.left);
      if Occurs(op, b.left, t) {
        UnitExtractsNothing(op, x.common, b.right);
      } else {
        ExtractTerm(op, x.common, t, b.right);
      }
    } else {
      assert Occurs(op, b, t) <==> t == b;
      assert ExprEq(t, b) <==> t == b;
    }
  }

  lemma {:induction false} ExtractTerms(op: Op, common: Option<Expr>, a: Expr, b: Expr)
    requires NegatedWithin(op, a, b)
    ensures var x := ExtractEq(op, common, a, b);
      && AllUnit(op, x.first) && x.common.Some?
      && forall u :: Occurs(op, b, u) && !Occurs(op, a, u) ==> Occurs(op, x.second, u)
    decreases a
  {
    if IsBin(a, op) {
      var x := ExtractEq(op, common, a.left, b);
      ExtractTerms(op, common, a.left, b);
      forall t | Occurs(op, a.right, t)
        ensures !Occurs(op, a.left, t)
      {
      }
      StillWithin(op, a.right, b, x.second);
      ExtractTerms(op, x.common, a.right, x.second);
    } else {
      ExtractTerm(op, common, a, b);
    }
  }

  lemma {:induction false} StillWithin(op: Op, a: Expr, b: Expr, c: Expr)
    requires NegatedWithin(op, a, b) && forall t :: Occurs(op, a, t) && Occurs(op, b, t) ==> Occurs(op, c, t)
    ensures NegatedWithin(op, a, c)
  {
    if IsBin(a, op) {
      StillWithin(op, a.left, b, c);
      StillWithin(op, a.right, b, c);
    }
  }

  lemma {:induction false} AllUnitFolds(op: Op, e: Expr)
    requires AllUnit(op, e)
    ensures EliminateYn(e) == Symbol(Unit(op))
  {
    if IsBin(e, op) {
      AllUnitFolds(op, e.left);
      AllUnitFolds(op, e.right);
    }
  }

  /** Symbols combined by the other operator, no two of which are the same, whose negations all occur in b. */
  ghost predicate Contradicted(op: Op, e: Expr, b: Expr) {
    if IsBin(e, Dual(op)) then
      && Contradicted(op, e.left, b) && Contradicted(op, e.right, b)
      && forall t :: Occurs(Dual(op), e.left, t) ==> !Occurs(Dual(op), e.right, t)
    else e.Symbol? && e.sym.Var? && Occurs(op, b, Not(e))
  }

  /** Pushing the negation down gives the negated symbols. */
  lemma {:induction false} NegationOf(op: Op, e: Expr, b: Expr)
    requires Contradicted(op, e, b)
    ensures Transform(e) == e && NegatedWithin(op, Transform(Not(e)), b)
    ensures forall t :: Occurs(op, Transform(Not(e)), t) <==> t.Not? && Occurs(Dual(op), e, t.operand)
  {
    if IsBin(e, Dual(op)) {
      NegationOf(op, e.left, b);
      NegationOf(op, e.right, b);
      WeightPositive(e.left); WeightPositive(e.right);
      assert Transform(Not(e)) == Transform(Bin(op, Not(e.left), Not(e.right)));
      assert Transform(Not(e)) == Bin(op, Transform(Not(e.left)), Transform(Not(e.right)));
    }
  }

  /** So extracting leaves nothing of the negation. */
  lemma NothingIsLeft(op: Op, e: Expr, b: Expr)
    requires Contradicted(op, e, b)
    ensures IsUnit(ExtractEqTop(op, Transform(Not(e)), b).first, op)
  {
    NegationOf(op, e, b);
    var x := ExtractEq(op, None, Transform(Not(e)), b);
    ExtractTerms(op, None, Transform(Not(e)), b);
    AllUnitFolds(op, x.first);
  }

  // ---------- expr_trans_bool ----------

  /** FOO!=n for a tristate FOO stands nowhere in the tree. */
  predicate NoTest(e: Expr) {
    match e
    case Bin(_, l, r) => NoTest(l) && NoTest(r)
    case Not(x) => NoTest(x)
    case Unequal(a, b) => !(TypeOf(a) == Tristate && b == No)
    case _ => true
  }

  lemma {:induction false} TransBoolLeavesNoTest(e: Expr)
    ensures NoTest(TransBool(e)) && (TransBool(e) == e <==> NoTest(e))
  {
    match e
    case Bin(_, l, r) =>
      TransBoolLeavesNoTest(l);
      TransBoolLeavesNoTest(r);
    case Not(x) => TransBoolLeavesNoTest(x);
    case _ =>
  }


  // ---------- expr_depends_symbol and expr_contains_symbol ----------

  /** The operands that are n when s is. */
  predicate NeedsSymbol(e: Expr, s: Sym) {
    e in {Symbol(s), Equal(s, Yes), Equal(s, Mod), Unequal(s, No)}
  }

  /** A tree depends on a symbol if and only if one of the operands that AND combines needs it. */
  lemma {:induction false} DependsOnOperand(e: Expr, s: Sym)
    ensures DependsOn(e, s) <==> exists p :: OnLeaf(And, e, p) && NeedsSymbol(At(e, p), s)
  {
    if IsBin(e, And) {
      DependsOnOperand(e.left, s);
      DependsOnOperand(e.right, s);
      LeafBelow(And, e);
      forall p | OnLeaf(And, e, p)
        ensures p != [] && OnLeaf(And, Child(e, p[0]), p[1..]) && At(e, p) == At(Child(e, p[0]), p[1..])
      {
      }
      if q :| OnLeaf(And, e.left, q) && NeedsSymbol(At(e.left, q), s) {
        assert OnLeaf(And, e, [GoLeft] + q);
      }
      if q :| OnLeaf(And, e.right, q) && NeedsSymbol(At(e.right, q), s) {
        assert OnLeaf(And, e, [GoRight] + q);
      }
    } else {
      assert OnLeaf(And, e, []) && At(e, []) == e;
      forall p | OnLeaf(And, e, p)
        ensures p == []
      {
      }
    }
  }

  function RenamedSym(x: Sym, s: Sym, t: Sym): Sym {
    if x == s then t else x
  }

  /** The tree with t in place of s. */
  function Renamed(e: Expr, s: Sym, t: Sym): Expr {
    match e
    case Symbol(x) => Symbol(RenamedSym(x, s, t))
    case Not(x) => Not(Renamed(x, s, t))
    case Bin(op, l, r) => Bin(op, Renamed(l, s, t), Renamed(r, s, t))
    case Equal(a, b) => Equal(RenamedSym(a, s, t), RenamedSym(b, s, t))
    case Unequal(a, b) => Unequal(RenamedSym(a, s, t), RenamedSym(b, s, t))
  }

  /** A tree contains a symbol if and only if putting another one in its place changes it. */
  lemma {:induction false} ContainsIsOccurs(e: Expr, s: Sym, t: Sym)
    requires s != t
    ensures Contains(e, s) <==> Renamed(e, s, t) != e
  {
    match e
    case Not(x) => ContainsIsOccurs(x, s, t);
    case Bin(_, l, r) =>
      ContainsIsOccurs(l, s, t);
      ContainsIsOccurs(r, s, t);
    case _ =>
  }
}
