/** Joining two operands of one AND or OR into a single term: expr_join_or and expr_join_and of
    support/kconfig/expr.c. */
module ExprJoin {
  import opened Tristates
  import opened Wrappers
  import opened Expressions
  import opened ExprCompare
  import opened ExprTransform

  /** The symbol a comparison or plain symbol is about. */
  function Subject(e: Expr): Option<Sym> {
    match e
    case Symbol(s) => Some(s)
    case Equal(a, _) => Some(a)
    case Unequal(a, _) => Some(a)
    case _ => None
  }

  /** The subject of the first operand: NOT may stand over a symbol or a comparison. */
  function FirstSubject(e: Expr): Option<Sym> {
    if e.Not? then Subject(e.operand) else Subject(e)
  }

  /** The subject of the second operand: NOT may stand over a symbol only. */
  function SecondSubject(e: Expr): Option<Sym> {
    if e.Not? then (if e.operand.Symbol? then Some(e.operand.sym) else None) else Subject(e)
  }

  /** The common subject of both operands when there is one of type boolean or tristate. */
  function CommonSubject(a: Expr, b: Expr): Option<Sym> {
    var s := FirstSubject(a);
    if s.Some? && s == SecondSubject(b) && IsTri(s.value) then s else None
  }

  predicate IsEqual(e: Expr, v: Sym) {
    e.Equal? && e.rhs == v
  }

  predicate IsUnequal(e: Expr, v: Sym) {
    e.Unequal? && e.rhs == v
  }

  predicate EqualPair(a: Expr, b: Expr, v: Sym, w: Sym) {
    (IsEqual(a, v) && IsEqual(b, w)) || (IsEqual(a, w) && IsEqual(b, v))
  }

  predicate UnequalPair(a: Expr, b: Expr, v: Sym, w: Sym) {
    (IsUnequal(a, v) && IsUnequal(b, w)) || (IsUnequal(a, w) && IsUnequal(b, v))
  }

  /** expr_join_or */
  function JoinOr(a: Expr, b: Expr): Option<Expr> {
    if ExprEq(a, b) then Some(a)
    else
      var subject := CommonSubject(a, b);
      if subject.None? then None
      else
        var s := subject.value;
        if TypeOf(s) == Tristate then
          if EqualPair(a, b, Yes, Mod) then Some(Unequal(s, No))
          else if EqualPair(a, b, Yes, No) then Some(Unequal(s, Mod))
          else if EqualPair(a, b, Mod, No) then Some(Unequal(s, Yes))
          else None
        else if (a.Not? && a.operand.Symbol? && b.Symbol?) || (b.Not? && b.operand.Symbol? && a.Symbol?) then
          Some(Symbol(Yes))
        else None
  }

  predicate SymbolAndEqual(a: Expr, b: Expr, v: Sym) {
    (a.Symbol? && IsEqual(b, v)) || (b.Symbol? && IsEqual(a, v))
  }

  predicate SymbolAndUnequal(a: Expr, b: Expr, v: Sym) {
    (a.Symbol? && IsUnequal(b, v)) || (b.Symbol? && IsUnequal(a, v))
  }

  /** s = v && s != w for constants v and w. */
  function EqualUnless(s: Sym, v: Sym, w: Sym): Expr {
    if v != w then Equal(s, v) else Symbol(No)
  }

  /** Two comparisons of one tristate symbol under AND. */
  function JoinComparisons(s: Sym, a: Expr, b: Expr): Option<Expr> {
    if a.Equal? && b.Unequal? && IsConst(a.rhs) && IsConst(b.rhs) then Some(EqualUnless(s, a.rhs, b.rhs))
    else if a.Unequal? && b.Equal? && IsConst(a.rhs) && IsConst(b.rhs) then Some(EqualUnless(s, b.rhs, a.rhs))
    else if UnequalPair(a, b, Yes, No) then Some(Equal(s, Mod))
    else if UnequalPair(a, b, Yes, Mod) then Some(Equal(s, No))
    else if UnequalPair(a, b, Mod, No) then Some(Equal(s, Yes))
    else None
  }

  /** expr_join_and */
  function JoinAnd(a: Expr, b: Expr): Option<Expr> {
    if ExprEq(a, b) then Some(a)
    else
      var subject := CommonSubject(a, b);
      if subject.None? then None
      else
        var s := subject.value;
        if SymbolAndEqual(a, b, Yes) then Some(Equal(s, Yes))
        else if SymbolAndUnequal(a, b, No) then Some(Symbol(s))
        else if SymbolAndUnequal(a, b, Mod) then Some(Equal(s, Yes))
        else if TypeOf(s) == Tristate then JoinComparisons(s, a, b)
        else None
  }

  function Join(op: Op, a: Expr, b: Expr): Option<Expr> {
    if op == And then JoinAnd(a, b) else JoinOr(a, b)
  }

  lemma ConstantsDiffer(v: Sym, w: Sym, env: Env)
    requires IsConst(v) && IsConst(w)
    ensures StrOf(v, env) == StrOf(w, env) <==> v == w
  {
    NamesDiffer(TriOf(v, env), TriOf(w, env));
    var n, m, y := "n", "m", "y";
    assert n[0] != m[0] && m[0] != y[0] && n[0] != y[0];
  }

  lemma {:induction false} JoinOrKeepsValue(a: Expr, b: Expr, env: Env)
    requires JoinOr(a, b).Some?
    ensures Eval(JoinOr(a, b).value, env) == Max(Eval(a, env), Eval(b, env))
  {
    if ExprEq(a, b) {
      ExprEqSound(a, b, env);
    } else {
      var v := TriOf(CommonSubject(a, b).value, env);
      NamesDiffer(v, NO); NamesDiffer(v, MOD); NamesDiffer(v, YES);
    }
  }

  lemma EqualUnlessValue(s: Sym, v: Sym, w: Sym, env: Env)
    requires IsConst(v) && IsConst(w)
    ensures Eval(EqualUnless(s, v, w), env) == Min(Eval(Equal(s, v), env), Eval(Unequal(s, w), env))
  {
    ConstantsDiffer(v, w, env);
  }

  lemma CompareValue(s: Sym, v: Sym, env: Env)
    requires IsTri(s) && Special(v)
    ensures Eval(Equal(s, v), env) == OfBool(TriOf(s, env) == TriOf(v, env))
    ensures Eval(Unequal(s, v), env) == OfBool(TriOf(s, env) != TriOf(v, env))
  {
    NamesDiffer(TriOf(s, env), TriOf(v, env));
  }

  /** What differs from two of the three constants is the third. */
  lemma UnequalPairValue(s: Sym, a: Expr, b: Expr, v: Sym, w: Sym, other: Sym, env: Env)
    requires IsTri(s) && Subject(a) == Some(s) && Subject(b) == Some(s) && UnequalPair(a, b, v, w)
    requires (v == Yes && w == No && other == Mod) || (v == Yes && w == Mod && other == No)
          || (v == Mod && w == No && other == Yes)
    ensures Eval(Equal(s, other), env) == Min(Eval(a, env), Eval(b, env))
  {
    CompareValue(s, v, env); CompareValue(s, w, env); CompareValue(s, other, env);
  }

  lemma JoinComparisonsKeepsValue(s: Sym, a: Expr, b: Expr, env: Env)
    requires TypeOf(s) == Tristate && Subject(a) == Some(s) && Subject(b) == Some(s)
    requires JoinComparisons(s, a, b).Some?
    ensures Eval(JoinComparisons(s, a, b).value, env) == Min(Eval(a, env), Eval(b, env))
  {
    if a.Equal? && b.Unequal? && IsConst(a.rhs) && IsConst(b.rhs) {
      EqualUnlessValue(s, a.rhs, b.rhs, env);
    } else if a.Unequal? && b.Equal? && IsConst(a.rhs) && IsConst(b.rhs) {
      EqualUnlessValue(s, b.rhs, a.rhs, env);
    } else if UnequalPair(a, b, Yes, No) {
      UnequalPairValue(s, a, b, Yes, No, Mod, env);
    } else if UnequalPair(a, b, Yes, Mod) {
      UnequalPairValue(s, a, b, Yes, Mod, No, env);
    } else {
      UnequalPairValue(s, a, b, Mod, No, Yes, env);
    }
  }

  lemma {:induction false} JoinAndKeepsValue(a: Expr, b: Expr, env: Env)
    requires JoinAnd(a, b).Some?
    ensures Eval(JoinAnd(a, b).value, env) == Min(Eval(a, env), Eval(b, env))
  {
    if ExprEq(a, b) {
      ExprEqSound(a, b, env);
    } else {
      var s := CommonSubject(a, b).value;
      if SymbolAndEqual(a, b, Yes) || SymbolAndUnequal(a, b, No) || SymbolAndUnequal(a, b, Mod) {
        CompareValue(s, No, env); CompareValue(s, Mod, env); CompareValue(s, Yes, env);
      } else {
        JoinComparisonsKeepsValue(s, a, b, env);
      }
    }
  }

  /** Every join is exact, even where a symbol is m. */
  lemma {:induction false} JoinKeepsValue(op: Op, a: Expr, b: Expr, env: Env)
    requires Join(op, a, b).Some?
    ensures Eval(Join(op, a, b).value, env) == Apply(op, Eval(a, env), Eval(b, env))
  {
    if op == And { JoinAndKeepsValue(a, b, env); } else { JoinOrKeepsValue(a, b, env); }
  }

  /** A joined term is no operand of the same operator, keeps negations on symbols and adds no
      AND or OR node to the two terms it stands for. */
  lemma JoinKeepsShape(op: Op, a: Expr, b: Expr)
    requires Join(op, a, b).Some? && !IsBin(a, op)
    ensures var t := Join(op, a, b).value;
            && !IsBin(t, op)
            && BinCount(t) <= BinCount(a)
            && Size(t) <= Size(a)
            && (NotOnSymbols(a) ==> NotOnSymbols(t))
            && (Normal(a) && Normal(b) ==> Normal(t))
  {
  }

  // ---------- which terms are joined ----------

  /** A symbol, a negated symbol or a comparison. */
  predicate IsTerm(e: Expr) {
    e.Symbol? || e.Equal? || e.Unequal? || (e.Not? && e.operand.Symbol?)
  }

  /** Two terms about one boolean or tristate symbol for which the comments of expr_join_or and
      expr_join_and name a single one. */
  predicate FoldsOnto(op: Op, x: Expr, y: Expr) {
    var subject := Subject(x);
    subject.Some? && IsTri(subject.value) &&
    var s := subject.value;
    match op
    case And =>
      || (x == Symbol(s) && y in {Equal(s, Yes), Unequal(s, No), Unequal(s, Mod)})
      || (TypeOf(s) == Tristate && x.Equal? && IsConst(x.rhs) && y.Unequal? && y.lhs == s && IsConst(y.rhs))
      || (TypeOf(s) == Tristate && x.Unequal? && y.Unequal? && y.lhs == s && Special(x.rhs) && Special(y.rhs) && x.rhs != y.rhs)
    case Or =>
      || (TypeOf(s) == Tristate && x.Equal? && y.Equal? && y.lhs == s && Special(x.rhs) && Special(y.rhs) && x.rhs != y.rhs)
      || (TypeOf(s) == Boolean && x == Symbol(s) && y == Not(Symbol(s)))
  }

  predicate Folds(op: Op, x: Expr, y: Expr) {
    FoldsOnto(op, x, y) || FoldsOnto(op, y, x)
  }

  /** Of terms, exactly these and equal ones are joined. */
  lemma TermsJoinExactly(op: Op, x: Expr, y: Expr)
    requires IsTerm(x) && IsTerm(y)
    ensures Join(op, x, y).Some? <==> x == y || Folds(op, x, y)
  {
    assert ExprEq(x, y) <==> x == y by {
      if x.Not? && y.Not? { assert ExprEq(x.operand, y.operand) <==> x.operand == y.operand; }
    }
    hide ExprEq;
    if x != y && CommonSubject(x, y).Some? {
      if op == Or { OrJoinsExactly(x, y); } else { AndJoinsExactly(x, y); }
    } else if x != y {
      assert !Folds(op, x, y);
    }
  }

  lemma OrJoinsExactly(x: Expr, y: Expr)
    requires IsTerm(x) && IsTerm(y) && CommonSubject(x, y).Some? && !ExprEq(x, y) && x != y
    ensures JoinOr(x, y).Some? <==> Folds(Or, x, y)
  {
    hide ExprEq;
  }

  lemma AndJoinsExactly(x: Expr, y: Expr)
    requires IsTerm(x) && IsTerm(y) && CommonSubject(x, y).Some? && !ExprEq(x, y) && x != y
    ensures JoinAnd(x, y).Some? <==> Folds(And, x, y)
  {
    hide ExprEq;
  }
}
