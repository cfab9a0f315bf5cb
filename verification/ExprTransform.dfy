/** The value-preserving and value-changing rewrites of support/kconfig/expr.c:
    expr_transform, expr_trans_bool and expr_trans_compare. */
module ExprTransform {
  import opened Tristates
  import opened Wrappers
  import opened Expressions

  // ---------- expr_transform ----------

  /** The termination measure of expr_transform. A comparison may become a negated symbol, and
      NOT weighs enough to pay for being pushed into both operands. */
  function Weight(e: Expr): nat {
    match e
    case Symbol(_) => 1
    case Not(x) => 3 * Weight(x)
    case Bin(_, l, r) => 1 + Weight(l) + Weight(r)
    case Equal(_, _) => 3
    case Unequal(_, _) => 3
  }

  lemma {:induction false} WeightPositive(e: Expr)
    ensures Weight(e) > 0
  {
    if e.Not? { WeightPositive(e.operand); }
  }

  /** De Morgan makes the tree larger but lighter. */
  lemma PushWeight(op: Op, l: Expr, r: Expr)
    ensures Weight(Bin(Dual(op), Not(l), Not(r))) < Weight(Not(Bin(op, l, r)))
  {
    assert Weight(Not(l)) == 3 * Weight(l) && Weight(Not(r)) == 3 * Weight(r);
  }

  /** A comparison of a boolean with y, m or n; every other comparison stays. */
  function TransformComparison(e: Expr): (r: Expr)
    requires e.Equal? || e.Unequal?
    ensures Weight(r) <= Weight(e)
  {
    if TypeOf(e.lhs) != Boolean then e
    else
      match e.rhs
      case No => if e.Equal? then Not(Symbol(e.lhs)) else Symbol(e.lhs)
      case Mod => Symbol(if e.Equal? then No else Yes)
      case Yes => if e.Equal? then Symbol(e.lhs) else Not(Symbol(e.lhs))
      case _ => e
  }

  /** expr_transform: operands first, then one step at the top, which may start over. */
  function Transform(e: Expr): (r: Expr)
    ensures Weight(r) <= Weight(e)
    decreases Weight(e)
  {
    match e
    case Symbol(_) => e
    case Equal(_, _) => TransformComparison(e)
    case Unequal(_, _) => TransformComparison(e)
    case Bin(op, l, r) =>
      WeightPositive(l); WeightPositive(r);
      Bin(op, Transform(l), Transform(r))
    case Not(y) =>
      WeightPositive(y);
      var x := Transform(y);
      match x
      case Not(z) => WeightPositive(z); Transform(z)
      case Equal(a, b) => Unequal(a, b)
      case Unequal(a, b) => Equal(a, b)
      case Bin(op, l, r) => PushWeight(op, l, r); Transform(Bin(Dual(op), Not(l), Not(r)))
      case Symbol(Yes) => Symbol(No)
      case Symbol(Mod) => Symbol(Mod)
      case Symbol(No) => Symbol(Yes)
      case Symbol(_) => Not(x)
  }

  /** Pushing negations and dissolving boolean comparisons is invisible to every assignment. */
  lemma {:induction false} TransformKeepsValue(e: Expr, env: Env)
    ensures Eval(Transform(e), env) == Eval(e, env)
    decreases Weight(e)
  {
    match e
    case Symbol(_) =>
    case Equal(_, _) =>
    case Unequal(_, _) =>
    case Bin(op, l, r) =>
      WeightPositive(l); WeightPositive(r);
      TransformKeepsValue(l, env);
      TransformKeepsValue(r, env);
    case Not(y) =>
      WeightPositive(y);
      TransformKeepsValue(y, env);
      var x := Transform(y);
      match x
      case Not(z) => WeightPositive(z); TransformKeepsValue(z, env);
      case Bin(op, l, r) => PushWeight(op, l, r); TransformKeepsValue(Bin(Dual(op), Not(l), Not(r)), env);
      case _ =>
  }

  /** The normal form: NOT stands over symbols other than y, m, n only, and no boolean is compared
      with one of these. */
  predicate Normal(e: Expr) {
    match e
    case Symbol(_) => true
    case Not(x) => x.Symbol? && !Special(x.sym)
    case Bin(_, l, r) => Normal(l) && Normal(r)
    case Equal(a, b) => TypeOf(a) == Boolean ==> !Special(b)
    case Unequal(a, b) => TypeOf(a) == Boolean ==> !Special(b)
  }

  lemma {:induction false} TransformNormalizes(e: Expr)
    ensures Normal(Transform(e))
    decreases Weight(e)
  {
    match e
    case Symbol(_) =>
    case Equal(_, _) =>
    case Unequal(_, _) =>
    case Bin(op, l, r) =>
      WeightPositive(l); WeightPositive(r);
      TransformNormalizes(l);
      TransformNormalizes(r);
    case Not(y) =>
      WeightPositive(y);
      TransformNormalizes(y);
      var x := Transform(y);
      match x
      case Not(z) => WeightPositive(z); TransformNormalizes(z);
      case Bin(op, l, r) => PushWeight(op, l, r); TransformNormalizes(Bin(Dual(op), Not(l), Not(r)));
      case _ =>
  }

  /** The normal forms are exactly the trees expr_transform leaves alone. */
  lemma {:induction false} TransformFixesExactlyNormal(e: Expr)
    ensures Transform(e) == e <==> Normal(e)
  {
    if Normal(e) {
      NormalIsFixed(e);
    } else {
      TransformNormalizes(e);
    }
  }

  lemma {:induction false} NormalIsFixed(e: Expr)
    requires Normal(e)
    ensures Transform(e) == e
  {
    if e.Bin? {
      NormalIsFixed(e.left);
      NormalIsFixed(e.right);
    }
  }

  lemma TransformIdempotent(e: Expr)
    ensures Transform(Transform(e)) == Transform(e)
  {
    TransformNormalizes(e);
    NormalIsFixed(Transform(e));
  }

  lemma {:induction false} NormalNotOnSymbols(e: Expr)
    requires Normal(e)
    ensures NotOnSymbols(e)
  {
    if e.Bin? {
      NormalNotOnSymbols(e.left);
      NormalNotOnSymbols(e.right);
    }
  }

  // ---------- expr_trans_bool ----------

  /** expr_trans_bool: FOO!=n becomes FOO for a tristate FOO. */
  function TransBool(e: Expr): Expr {
    match e
    case Bin(op, l, r) => Bin(op, TransBool(l), TransBool(r))
    case Not(x) => Not(TransBool(x))
    case Unequal(a, b) => if TypeOf(a) == Tristate && b == No then Symbol(a) else e
    case _ => e
  }

  /** A reader that takes m for y cannot see the rewrite, as long as NOT stands over symbols. */
  lemma {:induction false} TransBoolInvisible(e: Expr, env: Env)
    requires NotOnSymbols(e)
    ensures Promote(Eval(TransBool(e), env)) == Promote(Eval(e, env))
  {
    if e.Bin? {
      TransBoolInvisible(e.left, env);
      TransBoolInvisible(e.right, env);
    }
  }

  lemma {:induction false} TransBoolKeepsNormal(e: Expr)
    requires Normal(e)
    ensures Normal(TransBool(e))
  {
    if e.Bin? {
      TransBoolKeepsNormal(e.left);
      TransBoolKeepsNormal(e.right);
    }
  }

  /** Over a negated comparison the rewrite is visible exactly when the symbol is m. */
  lemma TransBoolVisibleUnderNot(s: Sym, env: Env)
    requires TypeOf(s) == Tristate
    ensures Promote(Eval(TransBool(Not(Unequal(s, No))), env)) == Promote(Eval(Not(Unequal(s, No)), env))
       <==> TriOf(s, env) != MOD
  {
    assert TransBool(Not(Unequal(s, No))) == Not(TransBool(Unequal(s, No)));
    var names := [Name(NO), Name(MOD), Name(YES)];
    assert names[0] != names[1] && names[0] != names[2];
  }

  // ---------- expr_trans_compare ----------

  function Comparison(equal: bool, s: Sym, v: Sym): Expr {
    if equal then Equal(s, v) else Unequal(s, v)
  }

  function NotIf(b: bool, e: Expr): Expr {
    if b then Not(e) else e
  }

  /** expr_trans_compare for E_EQUAL (equal) and E_UNEQUAL. For AND and OR against a symbol other
      than y and n the tree is left as it is, apart from the negation. */
  function TransCompare(e: Expr, equal: bool, v: Sym): Expr
    requires Special(v)
  {
    match e
    case Bin(op, l, r) =>
      var x := TransCompare(l, true, v);
      var y := TransCompare(r, true, v);
      NotIf(!equal, if v == Yes then Bin(op, x, y) else if v == No then Bin(Dual(op), x, y) else e)
    case Not(x) => TransCompare(x, !equal, v)
    case Symbol(s) => Comparison(equal, s, v)
    case _ =>
      if v == Yes then NotIf(!equal, e)
      else if v == Mod then Symbol(if equal then No else Yes)
      else NotIf(equal, e)
  }

  /** The null expression compares as the symbol itself. */
  function TransCompareOpt(e: Option<Expr>, equal: bool, v: Sym): Expr
    requires Special(v)
  {
    if e.None? then NotIf(!equal, Symbol(v)) else TransCompare(e.value, equal, v)
  }

  /** All symbols used as truth values have one. */
  predicate TruthSymbols(e: Expr) {
    match e
    case Symbol(s) => IsTri(s) || Special(s)
    case Not(x) => TruthSymbols(x)
    case Bin(_, l, r) => TruthSymbols(l) && TruthSymbols(r)
    case _ => true
  }

  /** No operand of NOT is m. */
  predicate NegatesDefinite(e: Expr, env: Env) {
    match e
    case Not(x) => Eval(x, env) != MOD && NegatesDefinite(x, env)
    case Bin(_, l, r) => NegatesDefinite(l, env) && NegatesDefinite(r, env)
    case _ => true
  }

  lemma NamesDiffer(a: Tri, b: Tri)
    ensures Name(a) == Name(b) <==> a == b
  {
    var n, m, y := "n", "m", "y";
    assert n[0] != m[0] && m[0] != y[0] && n[0] != y[0];
  }

  /** Compared with y or n, the produced tree says whether the original has that value. */
  lemma {:induction false} TransCompareDecides(e: Expr, equal: bool, v: Sym, env: Env)
    requires v == Yes || v == No
    requires TruthSymbols(e) && NegatesDefinite(e, env)
    ensures Eval(TransCompare(e, equal, v), env) == OfBool((Eval(e, env) == TriOf(v, env)) == equal)
  {
    match e
    case Bin(op, l, r) =>
      TransCompareDecides(l, true, v, env);
      TransCompareDecides(r, true, v, env);
    case Not(x) =>
      TransCompareDecides(x, !equal, v, env);
    case Symbol(s) =>
      assert StrOf(s, env) == Name(TriOf(s, env));
      NamesDiffer(TriOf(s, env), TriOf(v, env));
    case _ =>
  }

  /** Swapping = and != below NOT is right exactly when the operand is not m. */
  lemma TransCompareUnderNot(x: Expr, equal: bool, v: Sym, env: Env)
    requires v == Yes || v == No
    requires TruthSymbols(x) && NegatesDefinite(x, env)
    ensures Eval(TransCompare(Not(x), equal, v), env) == OfBool((Eval(Not(x), env) == TriOf(v, env)) == equal)
       <==> Eval(x, env) != MOD
  {
    TransCompareDecides(x, !equal, v, env);
  }

  /** The result never has the value m itself. */
  lemma {:induction false} TransCompareDefinite(e: Expr, equal: bool, v: Sym, env: Env)
    requires v == Yes || v == No
    ensures Eval(TransCompare(e, equal, v), env) != MOD
  {
    match e
    case Bin(op, l, r) =>
      TransCompareDefinite(l, true, v, env);
      TransCompareDefinite(r, true, v, env);
    case Not(x) => TransCompareDefinite(x, !equal, v, env);
    case _ =>
  }
}
